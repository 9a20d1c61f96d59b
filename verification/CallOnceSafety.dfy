/** What every step of `call_once` keeps, and what follows for whole runs of any number of threads. */
module CallOnceSafety {
  import opened CallOnce

  lemma InitialStateOk(n: nat, debug: bool)
    ensures Inv(InitialState(n, debug))
  {
  }

  /** The three rows seen through the word they start from. */
  lemma Rows()
    ensures |TRANS| == 3
    ensures MatchRow(TRANS, ONCE_INIT) == 0
    ensures MatchRow(TRANS, ONCE_RUNNING) == 1
    ensures MatchRow(TRANS, ONCE_WAITER) == 3
    ensures MatchRow(TRANS, ONCE_DONE) == 2
  {
    assert TRANS[0].from == ONCE_INIT && TRANS[1].from == ONCE_RUNNING && TRANS[2].from == ONCE_DONE;
  }

  /** The shared part stays in order, and the mover keeps its own share of the invariant. */
  lemma MoverKeepsInv(s: State, step: Step)
    requires Inv(s) && Enabled(s, step)
    ensures SharedOk(SharedAfter(s, step))
    ensures ThreadOk(SharedAfter(s, step), step.t, Mover(s, step))
  {
    Rows();
    assert ThreadOk(s.sh, step.t, s.threads[step.t]);
  }

  /** No step disturbs a thread that does not take it. */
  lemma OthersKeepInv(s: State, step: Step, u: nat)
    requires Inv(s) && Enabled(s, step)
    requires u < |s.threads| && u != step.t
    ensures InOrder(SharedAfter(s, step).history)
    ensures ThreadOk(SharedAfter(s, step), u, s.threads[u])
  {
    Rows();
    assert ThreadOk(s.sh, step.t, s.threads[step.t]);
    assert ThreadOk(s.sh, u, s.threads[u]);
  }

  lemma StepKeepsInv(s: State, step: Step)
    requires Inv(s) && Enabled(s, step)
    ensures Inv(Apply(s, step))
  {
    MoverKeepsInv(s, step);
    var s' := Apply(s, step);
    forall u | 0 <= u < |s'.threads|
      ensures ThreadOk(s'.sh, u, s'.threads[u])
    {
      if u != step.t {
        OthersKeepInv(s, step, u);
      }
    }
  }

  lemma {:induction false} RunKeepsInv(s: State, steps: seq<Step>)
    requires Inv(s) && Runs(s, steps)
    ensures Inv(Exec(s, steps))
    decreases |steps|
  {
    if steps != [] {
      StepKeepsInv(s, steps[0]);
      RunKeepsInv(Apply(s, steps[0]), steps[1..]);
    }
  }

  /** How often a run enters fn. */
  function Begins(steps: seq<Step>): nat {
    if steps == [] then 0 else (if steps[0].Begin? then 1 else 0) + Begins(steps[1..])
  }

  lemma {:induction false} BeginsAreCounted(s: State, steps: seq<Step>)
    requires Runs(s, steps)
    ensures Exec(s, steps).sh.starts == s.sh.starts + Begins(steps)
    ensures |Exec(s, steps).threads| == |s.threads|
    decreases |steps|
  {
    if steps != [] {
      BeginsAreCounted(Apply(s, steps[0]), steps[1..]);
    }
  }

  /** On every interleaving of any number of callers fn is entered at most once, and it has been
      entered exactly when the flag was taken and its taker has got as far as invoking fn. */
  lemma FnStartsAtMostOnce(n: nat, debug: bool, steps: seq<Step>)
    requires Runs(InitialState(n, debug), steps)
    ensures Begins(steps) <= 1
    ensures var s := Exec(InitialState(n, debug), steps);
            Begins(steps) == 0 <==>
              s.sh.history != [] &&
              (Word(s.sh) == ONCE_INIT || exists t :: 0 <= t < |s.threads| && s.threads[t].pc.Ready?)
  {
    var s := Exec(InitialState(n, debug), steps);
    InitialStateOk(n, debug);
    RunKeepsInv(InitialState(n, debug), steps);
    BeginsAreCounted(InitialState(n, debug), steps);
    if s.sh.holder.Held? {
      assert ThreadOk(s.sh, s.sh.holder.t, s.threads[s.sh.holder.t]);
    }
    forall t | 0 <= t < |s.threads| && s.threads[t].pc.Ready?
      ensures s.sh.starts == 0
    {
      assert ThreadOk(s.sh, t, s.threads[t]);
    }
  }

  /** While the word is Running or Waiter exactly one thread owns the flag, otherwise none does. */
  lemma OneOwner(n: nat, debug: bool, steps: seq<Step>)
    requires Runs(InitialState(n, debug), steps)
    ensures var s := Exec(InitialState(n, debug), steps);
      && s.sh.history != []
      && ((Word(s.sh) == ONCE_RUNNING || Word(s.sh) == ONCE_WAITER) <==>
            exists t :: 0 <= t < |s.threads| && Owns(s.threads[t]))
      && forall t, u :: 0 <= t < |s.threads| && 0 <= u < |s.threads| && Owns(s.threads[t]) && Owns(s.threads[u]) ==> t == u
  {
    var s := Exec(InitialState(n, debug), steps);
    InitialStateOk(n, debug);
    RunKeepsInv(InitialState(n, debug), steps);
    forall t | 0 <= t < |s.threads|
      ensures Owns(s.threads[t]) <==> s.sh.holder == Held(t)
    {
      assert ThreadOk(s.sh, t, s.threads[t]);
    }
    if s.sh.holder.Held? {
      assert Owns(s.threads[s.sh.holder.t]);
    }
  }

  /** No call returns before fn has finished, every call that has returned has all of fn's writes
      in its view (a release store of Done was acquire-read, or the caller ran fn itself), and the
      debug check never fires. */
  lemma ReturnSeesFn(n: nat, debug: bool, steps: seq<Step>, t: nat)
    requires Runs(InitialState(n, debug), steps) && t < n
    ensures var s := Exec(InitialState(n, debug), steps);
      && |s.threads| == n
      && !s.threads[t].pc.Fatal?
      && (s.threads[t].pc.Returned? ==> s.sh.finished && Begins(steps) == 1 && s.threads[t].view == s.sh.writes)
  {
    var s := Exec(InitialState(n, debug), steps);
    InitialStateOk(n, debug);
    RunKeepsInv(InitialState(n, debug), steps);
    BeginsAreCounted(InitialState(n, debug), steps);
    assert ThreadOk(s.sh, t, s.threads[t]);
  }

  /** The modification order only grows, through Init, Running, possibly Waiter, and Done; once it
      has reached Done nothing shared changes any more. */
  lemma {:induction false} WordOnlyAdvances(s: State, steps: seq<Step>)
    requires Inv(s) && Runs(s, steps)
    ensures InOrder(s.sh.history) && InOrder(Exec(s, steps).sh.history)
    ensures s.sh.history <= Exec(s, steps).sh.history
    ensures Word(s.sh) == ONCE_DONE ==> Exec(s, steps).sh == s.sh
    decreases |steps|
  {
    if steps != [] {
      Rows();
      assert ThreadOk(s.sh, steps[0].t, s.threads[steps[0].t]);
      StepKeepsInv(s, steps[0]);
      WordOnlyAdvances(Apply(s, steps[0]), steps[1..]);
    }
  }
}
