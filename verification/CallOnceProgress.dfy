/** Progress of `call_once`: no caller is ever blocked, every reachable state can be driven to one
    where all calls have returned, and once the word is Done each caller needs only a few of its
    own steps, apart from loads that return a stale value. */
module CallOnceProgress {
  import opened CallOnce
  import opened CallOnceSafety

  /** The step a pending thread takes when its accesses see the latest value. */
  function FreshStep(s: State, t: nat): Step
    requires t < |s.threads| && s.sh.history != []
    requires Pending(s.threads[t])
  {
    var h := s.sh.history;
    var pc := s.threads[t].pc;
    if IsLoad(pc) then Load(t, |h| - 1)
    else if IsCas(pc) then
      if h[|h| - 1].value == Expected(pc) then CasOk(t) else CasFail(t, |h| - 1)
    else if pc.Delay? then Timeout(t)
    else if pc.Ready? then Begin(t)
    else if pc.InFn? then Finish(t)
    else if pc.OwnerStore? then Store(t)
    else WakeAll(t)
  }

  /** A pending caller always has a step of its own to take, whatever the others do. */
  lemma NeverBlocked(s: State, t: nat)
    requires Inv(s) && t < |s.threads| && Pending(s.threads[t])
    ensures Enabled(s, FreshStep(s, t))
  {
    Rows();
    assert ThreadOk(s.sh, t, s.threads[t]);
  }

  // ----- after Done

  /** Own steps left after Done if every load is fresh. */
  function DoneRank(pc: Pc): nat {
    match pc
    case FastLoad => 1
    case WaitLoad => 1
    case Wake => 1
    case FirstCas => 2
    case WaitCas(_) => 2
    case Delay => 2
    case DebugLoad => 3
    case _ => 0
  }

  predicate IsStale(s: State, step: Step) {
    step.Load? && step.i + 1 < |s.sh.history|
  }

  function OwnSteps(steps: seq<Step>, t: nat): nat {
    if steps == [] then 0 else (if steps[0].t == t then 1 else 0) + OwnSteps(steps[1..], t)
  }

  function StaleLoads(s: State, steps: seq<Step>, t: nat): nat
    requires Runs(s, steps)
    decreases |steps|
  {
    if steps == [] then 0
    else (if steps[0].t == t && IsStale(s, steps[0]) then 1 else 0) + StaleLoads(Apply(s, steps[0]), steps[1..], t)
  }

  lemma DoneStep(s: State, step: Step)
    requires Inv(s) && Enabled(s, step) && Word(s.sh) == ONCE_DONE && !step.Call?
    ensures DoneRank(Mover(s, step).pc) + 1 <= DoneRank(s.threads[step.t].pc) + (if IsStale(s, step) then 3 else 0)
  {
    Rows();
    assert ThreadOk(s.sh, step.t, s.threads[step.t]);
  }

  /** After Done, a caller that has not returned gets there within three of its own steps, plus at
      most three for each load that still returned an old value.  Being woken is not needed: the
      delay of a sleeping waiter times out. */
  lemma {:induction false} ReturnsSoonAfterDone(s: State, steps: seq<Step>, t: nat)
    requires Inv(s) && Word(s.sh) == ONCE_DONE && t < |s.threads| && Runs(s, steps)
    requires forall k :: 0 <= k < |steps| ==> steps[k] != Call(t)
    ensures t < |Exec(s, steps).threads|
    ensures OwnSteps(steps, t) + DoneRank(Exec(s, steps).threads[t].pc)
            <= DoneRank(s.threads[t].pc) + 3 * StaleLoads(s, steps, t)
    ensures DoneRank(s.threads[t].pc) <= 3
    ensures DoneRank(Exec(s, steps).threads[t].pc) == 0 <==> !Pending(Exec(s, steps).threads[t])
    decreases |steps|
  {
    if steps == [] {
      assert ThreadOk(s.sh, t, s.threads[t]);
    } else {
      var s' := Apply(s, steps[0]);
      StepKeepsInv(s, steps[0]);
      WordOnlyAdvances(s, [steps[0]]);
      assert Exec(s', []) == s';
      ReturnsSoonAfterDone(s', steps[1..], t);
      if steps[0].t == t {
        DoneStep(s, steps[0]);
      }
    }
  }

  // ----- every state can be driven to the end

  ghost predicate AllReturned(s: State) {
    forall t :: 0 <= t < |s.threads| ==> !Pending(s.threads[t])
  }

  function TotalRank(ths: seq<Thread>): nat {
    if ths == [] then 0 else DoneRank(ths[|ths| - 1].pc) + TotalRank(ths[..|ths| - 1])
  }

  lemma {:induction false} TotalRankUpdate(ths: seq<Thread>, t: nat, th: Thread)
    requires t < |ths|
    ensures TotalRank(ths[t := th]) + DoneRank(ths[t].pc) == TotalRank(ths) + DoneRank(th.pc)
    decreases |ths|
  {
    var k := |ths| - 1;
    if t == k {
      assert ths[t := th][..k] == ths[..k];
    } else {
      assert ths[t := th][..k] == ths[..k][t := th];
      TotalRankUpdate(ths[..k], t, th);
    }
  }

  lemma Prepend(s: State, step: Step, rest: seq<Step>)
    requires Enabled(s, step) && Runs(Apply(s, step), rest)
    ensures Runs(s, [step] + rest) && Exec(s, [step] + rest) == Exec(Apply(s, step), rest)
  {
    assert ([step] + rest)[1..] == rest;
  }

  lemma {:induction false} FinishFromDone(s: State) returns (steps: seq<Step>)
    requires Inv(s) && Word(s.sh) == ONCE_DONE
    ensures Runs(s, steps) && AllReturned(Exec(s, steps))
    decreases TotalRank(s.threads)
  {
    if AllReturned(s) {
      steps := [];
    } else {
      var t: nat :| t < |s.threads| && Pending(s.threads[t]);
      var step := FreshStep(s, t);
      NeverBlocked(s, t);
      DoneStep(s, step);
      StepKeepsInv(s, step);
      WordOnlyAdvances(s, [step]);
      TotalRankUpdate(s.threads, t, Mover(s, step));
      var rest := FinishFromDone(Apply(s, step));
      steps := [step] + rest;
      Prepend(s, step, rest);
    }
  }

  function OwnerRank(pc: Pc): nat {
    match pc
    case Ready => 4
    case InFn => 3
    case OwnerLoad => 2
    case OwnerStore(_) => 1
    case _ => 0
  }

  lemma {:induction false} FinishFromTaken(s: State) returns (steps: seq<Step>)
    requires Inv(s) && s.sh.holder.Held?
    ensures Runs(s, steps) && AllReturned(Exec(s, steps)) && Exec(s, steps).sh.finished
    decreases OwnerRank(s.threads[s.sh.holder.t].pc)
  {
    var t := s.sh.holder.t;
    assert ThreadOk(s.sh, t, s.threads[t]);
    var step := FreshStep(s, t);
    NeverBlocked(s, t);
    StepKeepsInv(s, step);
    var s' := Apply(s, step);
    var rest;
    if s.threads[t].pc.OwnerStore? {
      rest := FinishFromDone(s');
      WordOnlyAdvances(s', rest);
    } else {
      rest := FinishFromTaken(s');
    }
    steps := [step] + rest;
    Prepend(s, step, rest);
  }

  function InitRank(pc: Pc): nat {
    match pc
    case FastLoad => 3
    case DebugLoad => 2
    case WaitLoad => 2
    case _ => 1
  }

  lemma {:induction false} FinishFromInit(s: State, t: nat) returns (steps: seq<Step>)
    requires Inv(s) && Word(s.sh) == ONCE_INIT && t < |s.threads| && Pending(s.threads[t])
    ensures Runs(s, steps) && AllReturned(Exec(s, steps)) && Exec(s, steps).sh.finished
    decreases InitRank(s.threads[t].pc)
  {
    Rows();
    assert ThreadOk(s.sh, t, s.threads[t]);
    var step := FreshStep(s, t);
    NeverBlocked(s, t);
    StepKeepsInv(s, step);
    var s' := Apply(s, step);
    var rest;
    if step.CasOk? {
      rest := FinishFromTaken(s');
    } else {
      rest := FinishFromInit(s', t);
    }
    steps := [step] + rest;
    Prepend(s, step, rest);
  }

  // ----- under every schedule

  /** While the word is Init, a pending caller has at most two own steps before the one that takes
      the flag: then it is at its compare-exchange, which cannot fail. */
  lemma {:induction false} FlagIsTakenSoon(s: State, steps: seq<Step>, t: nat)
    requires Inv(s) && t < |s.threads| && Pending(s.threads[t])
    requires Runs(s, steps) && Exec(s, steps).sh.history != [] && Word(Exec(s, steps).sh) == ONCE_INIT
    ensures t < |Exec(s, steps).threads| && Pending(Exec(s, steps).threads[t])
    ensures OwnSteps(steps, t) + InitRank(Exec(s, steps).threads[t].pc) <= InitRank(s.threads[t].pc) <= 3
    ensures InitRank(Exec(s, steps).threads[t].pc) >= 1
    decreases |steps|
  {
    assert ThreadOk(s.sh, t, s.threads[t]);
    if steps != [] {
      var s' := Apply(s, steps[0]);
      StepKeepsInv(s, steps[0]);
      WordOnlyAdvances(s', steps[1..]);
      InitStep(s, steps[0], t);
      FlagIsTakenSoon(s', steps[1..], t);
    }
  }

  lemma InitStep(s: State, step: Step, t: nat)
    requires Inv(s) && Enabled(s, step) && t < |s.threads| && Pending(s.threads[t])
    requires |SharedAfter(s, step).history| == 1
    ensures Pending(Apply(s, step).threads[t])
    ensures (if step.t == t then 1 else 0) + InitRank(Apply(s, step).threads[t].pc) <= InitRank(s.threads[t].pc)
  {
    Rows();
    assert ThreadOk(s.sh, t, s.threads[t]);
    assert ThreadOk(s.sh, step.t, s.threads[step.t]);
  }

  /** The steps of a thread that are not writes of fn. */
  function WorkSteps(steps: seq<Step>, t: nat): nat {
    if steps == [] then 0
    else (if steps[0].t == t && !steps[0].Write? then 1 else 0) + WorkSteps(steps[1..], t)
  }

  /** Once the flag is taken, whatever the others do, its owner keeps it and has at most three own
      steps, besides the writes of fn, before the one that stores Done. */
  lemma {:induction false} DoneComesSoon(s: State, steps: seq<Step>)
    requires Inv(s) && s.sh.holder.Held? && Runs(s, steps)
    requires Exec(s, steps).sh.history != [] && Word(Exec(s, steps).sh) != ONCE_DONE
    ensures var t, end := s.sh.holder.t, Exec(s, steps);
      && end.sh.holder == Held(t) && t < |end.threads|
      && WorkSteps(steps, t) + OwnerRank(end.threads[t].pc) == OwnerRank(s.threads[t].pc)
      && 1 <= OwnerRank(end.threads[t].pc) <= OwnerRank(s.threads[t].pc) <= 4
    decreases |steps|
  {
    var t := s.sh.holder.t;
    assert ThreadOk(s.sh, t, s.threads[t]);
    if steps != [] {
      var s' := Apply(s, steps[0]);
      StepKeepsInv(s, steps[0]);
      WordOnlyAdvances(s', steps[1..]);
      OwnerStep(s, steps[0]);
      DoneComesSoon(s', steps[1..]);
    }
  }

  lemma OwnerStep(s: State, step: Step)
    requires Inv(s) && s.sh.holder.Held? && Enabled(s, step) && Word(SharedAfter(s, step)) != ONCE_DONE
    ensures var t := s.sh.holder.t;
      && SharedAfter(s, step).holder == Held(t)
      && (if step.t == t && !step.Write? then 1 else 0) + OwnerRank(Apply(s, step).threads[t].pc)
         == OwnerRank(s.threads[t].pc)
  {
    Rows();
    assert ThreadOk(s.sh, s.sh.holder.t, s.threads[s.sh.holder.t]);
    assert ThreadOk(s.sh, step.t, s.threads[step.t]);
  }

  /** After `more` every call has returned, with fn finished if there was any call to serve. */
  ghost predicate Settles(s: State, more: seq<Step>) {
    && Runs(s, more)
    && AllReturned(Exec(s, more))
    && (AllReturned(s) || Exec(s, more).sh.finished)
  }

  /** No reachable state is a dead end: from each there is a run after which every call made so far
      has returned. */
  lemma EveryStateCanFinish(n: nat, debug: bool, steps: seq<Step>)
    requires Runs(InitialState(n, debug), steps)
    ensures exists more :: Settles(Exec(InitialState(n, debug), steps), more)
  {
    var s := Exec(InitialState(n, debug), steps);
    InitialStateOk(n, debug);
    RunKeepsInv(InitialState(n, debug), steps);
    var more: seq<Step>;
    if s.sh.holder.Held? {
      more := FinishFromTaken(s);
    } else if Word(s.sh) == ONCE_DONE {
      more := FinishFromDone(s);
      WordOnlyAdvances(s, more);
    } else if AllReturned(s) {
      more := [];
    } else {
      var t: nat :| t < |s.threads| && Pending(s.threads[t]);
      more := FinishFromInit(s, t);
    }
    assert Settles(s, more);
  }

  // ----- the wake can be skipped

  predicate Takes(s: State, step: Step, s': State) {
    Enabled(s, step) && Apply(s, step) == s'
  }

  lemma {:induction false} FollowScript(states: seq<State>, script: seq<Step>)
    requires |states| == |script| + 1
    requires forall k :: 0 <= k < |script| ==> Takes(states[k], script[k], states[k + 1])
    ensures Runs(states[0], script) && Exec(states[0], script) == states[|script|]
    decreases |script|
  {
    if script != [] {
      assert Takes(states[0], script[0], states[1]);
      assert states[1..][0] == states[1];
      FollowScript(states[1..], script[1..]);
    }
  }

  /** Two threads at `p0` and `p1`, the word having taken its first `h` values; fn writes nothing. */
  function Snap(h: nat, starts: nat, finished: bool, holder: Holder, p0: Pc, seen0: nat, p1: Pc, seen1: nat): State
    requires 1 <= h <= 4
  {
    var history := [Message(ONCE_INIT, {}), Message(ONCE_RUNNING, {}), Message(ONCE_WAITER, {}), Message(ONCE_DONE, {})];
    State(false, Shared(history[..h], starts, finished, {}, holder), [Thread(p0, seen0, {}), Thread(p1, seen1, {})])
  }

  function SkipAction(k: nat): Step {
    match k
    case 0 => Call(0)
    case 1 => Load(0, 0)
    case 2 => CasOk(0)
    case 3 => Begin(0)
    case 4 => Finish(0)
    case 5 => Load(0, 1)
    case 6 => Call(1)
    case 7 => Load(1, 1)
    case 8 => CasFail(1, 1)
    case 9 => Load(1, 1)
    case 10 => CasOk(1)
    case 11 => Load(1, 2)
    case _ => Store(0)
  }

  function SkipState(k: nat): State
    requires k <= 13
  {
    var running := OwnerStore(ONCE_RUNNING);
    if k == 0 then Snap(1, 0, false, Nobody, Idle, 0, Idle, 0)
    else if k == 1 then Snap(1, 0, false, Nobody, FastLoad, 0, Idle, 0)
    else if k == 2 then Snap(1, 0, false, Nobody, FirstCas, 0, Idle, 0)
    else if k == 3 then Snap(2, 0, false, Held(0), Ready, 1, Idle, 0)
    else if k == 4 then Snap(2, 1, false, Held(0), InFn, 1, Idle, 0)
    else if k == 5 then Snap(2, 1, true, Held(0), OwnerLoad, 1, Idle, 0)
    else if k == 6 then Snap(2, 1, true, Held(0), running, 1, Idle, 0)
    else if k == 7 then Snap(2, 1, true, Held(0), running, 1, FastLoad, 0)
    else if k == 8 then Snap(2, 1, true, Held(0), running, 1, FirstCas, 1)
    else if k == 9 then Snap(2, 1, true, Held(0), running, 1, WaitLoad, 1)
    else if k == 10 then Snap(2, 1, true, Held(0), running, 1, WaitCas(1), 1)
    else if k == 11 then Snap(3, 1, true, Held(0), running, 1, WaitLoad, 2)
    else if k == 12 then Snap(3, 1, true, Held(0), running, 1, Delay, 2)
    else Snap(4, 1, true, Nobody, Returned, 3, Delay, 2)
  }

  lemma OwnerTakesFlag(k: nat)
    requires k < 3
    ensures Takes(SkipState(k), SkipAction(k), SkipState(k + 1))
  {
    var none: set<nat> := {};
    assert none + none == none;
  }

  lemma OwnerRunsFn(k: nat)
    requires 3 <= k < 6
    ensures Takes(SkipState(k), SkipAction(k), SkipState(k + 1))
  {
  }

  lemma WaiterArrives(k: nat)
    requires 6 <= k < 9
    ensures Takes(SkipState(k), SkipAction(k), SkipState(k + 1))
  {
    var none: set<nat> := {};
    assert none + none == none;
  }

  lemma WaiterSleepsOwnerLeaves(k: nat)
    requires 9 <= k < 13
    ensures Takes(SkipState(k), SkipAction(k), SkipState(k + 1))
  {
    Rows();
    var none: set<nat> := {};
    assert none + none == none;
  }

  lemma SkipStep(k: nat)
    requires k < 13
    ensures Takes(SkipState(k), SkipAction(k), SkipState(k + 1))
  {
    if k < 3 {
      OwnerTakesFlag(k);
    } else if k < 6 {
      OwnerRunsFn(k);
    } else if k < 9 {
      WaiterArrives(k);
    } else {
      WaiterSleepsOwnerLeaves(k);
    }
  }

  /** The owner has returned after overwriting Waiter, and thread 1 sleeps. */
  predicate SleepsUnwoken(s: State) {
    && |s.threads| == 2 && s.threads[0].pc.Returned? && s.threads[1].pc.Delay?
    && |s.sh.history| == 4 && s.sh.history[2].value == ONCE_WAITER && Word(s.sh) == ONCE_DONE
  }

  predicate NoWake(steps: seq<Step>) {
    forall k :: 0 <= k < |steps| ==> !steps[k].WakeAll?
  }

  lemma SkipRun() returns (steps: seq<Step>)
    ensures Runs(SkipState(0), steps) && Exec(SkipState(0), steps) == SkipState(13) && NoWake(steps)
  {
    steps := seq(13, k requires 0 <= k < 13 => SkipAction(k));
    var states := seq(14, k requires 0 <= k < 14 => SkipState(k));
    forall k | 0 <= k < 13
      ensures Takes(states[k], steps[k], states[k + 1])
    {
      SkipStep(k);
    }
    FollowScript(states, steps);
  }

  lemma SkipEnds()
    ensures SkipState(0) == InitialState(2, false) && SleepsUnwoken(SkipState(13))
  {
  }

  /** Thread 1 moves the word to Waiter after the owner's relaxed load and before its store, so the
      owner skips the wake while thread 1 is asleep.  (That thread still returns, within the bound
      of ReturnsSoonAfterDone.) */
  lemma WakeCanBeSkipped()
    ensures exists steps: seq<Step> ::
      Runs(InitialState(2, false), steps) && NoWake(steps) && SleepsUnwoken(Exec(InitialState(2, false), steps))
  {
    SkipEnds();
    var steps := SkipRun();
  }
}
