/** What the steps of the threads of a run of `call_once` look like: how a call comes to its first
    compare-exchange, and when the runner wakes the waiters. */
module CallOnceTraces {
  import opened Options
  import opened CallOnce
  import opened CallOnceSafety

  // ----- what a run shows, read off its steps

  /** The entry that the latest load of `t` returned, if `t` has loaded since it last finished fn. */
  function LoadSinceFinish(steps: seq<Step>, t: nat): Option<nat> {
    if steps == [] then None
    else
      var last := steps[|steps| - 1];
      if last.t == t && last.Load? then Some(last.i)
      else if last.t == t && last.Finish? then None
      else LoadSinceFinish(steps[..|steps| - 1], t)
  }

  /** The thread that stored Done, and the entry that it had loaded before. */
  datatype Stored = Stored(t: nat, read: nat)

  function StoreOf(steps: seq<Step>): Option<Stored> {
    if steps == [] then None
    else
      var front, last := steps[..|steps| - 1], steps[|steps| - 1];
      if last.Store? then
        var read := LoadSinceFinish(front, last.t);
        if read.Some? then Some(Stored(last.t, read.value)) else None
      else StoreOf(front)
  }

  function Wakes(steps: seq<Step>, t: nat): nat {
    if steps == [] then 0
    else Wakes(steps[..|steps| - 1], t) + if steps[|steps| - 1] == WakeAll(t) then 1 else 0
  }

  function Stores(steps: seq<Step>): nat {
    if steps == [] then 0 else Stores(steps[..|steps| - 1]) + if steps[|steps| - 1].Store? then 1 else 0
  }

  // ----- what every step keeps

  predicate AtWake(s: State, t: nat) {
    t < |s.threads| && s.threads[t].pc.Wake?
  }

  /** A thread about to store remembers the value that it loaded. */
  predicate OwnerRemembers(s: State, t: nat, read: Option<nat>)
    requires t < |s.threads|
  {
    s.threads[t].pc.OwnerStore? ==>
      read.Some? && read.value < |s.sh.history| && s.sh.history[read.value].value == s.threads[t].pc.was
  }

  /** Wakes made and still to be made by a thread. */
  function WakesDue(s: State, steps: seq<Step>, t: nat): nat {
    Wakes(steps, t) + if AtWake(s, t) then 1 else 0
  }

  /** The entry read is one of a flag that was taken and not yet done. */
  predicate ReadTaken(h: seq<Message>, read: nat) {
    read < |h| && (h[read].value == ONCE_RUNNING || h[read].value == ONCE_WAITER)
  }

  ghost predicate WakeInv(s: State, steps: seq<Step>)
    requires s.sh.history != []
  {
    && (forall t :: 0 <= t < |s.threads| ==> OwnerRemembers(s, t, LoadSinceFinish(steps, t)))
    && Stores(steps) == (if Word(s.sh) == ONCE_DONE then 1 else 0)
    && if Stores(steps) == 0 then forall t: nat :: WakesDue(s, steps, t) == 0
       else
         var w := StoreOf(steps);
         && w.Some? && w.value.t < |s.threads| && ReadTaken(s.sh.history, w.value.read)
         && (forall t: nat :: t != w.value.t ==> WakesDue(s, steps, t) == 0)
         && WakesDue(s, steps, w.value.t) == if s.sh.history[w.value.read].value == ONCE_WAITER then 1 else 0
  }

  lemma LastStep(steps: seq<Step>, step: Step)
    ensures (steps + [step])[..|steps|] == steps && (steps + [step])[|steps|] == step
  {
  }

  lemma StepKeepsMemory(s: State, steps: seq<Step>, step: Step, t: nat)
    requires Inv(s) && Enabled(s, step) && t < |s.threads|
    requires OwnerRemembers(s, t, LoadSinceFinish(steps, t))
    ensures OwnerRemembers(Apply(s, step), t, LoadSinceFinish(steps + [step], t))
  {
    LastStep(steps, step);
    Rows();
    assert ThreadOk(s.sh, t, s.threads[t]);
  }

  lemma StepKeepsDue(s: State, steps: seq<Step>, step: Step, t: nat)
    requires Inv(s) && Enabled(s, step)
    ensures WakesDue(Apply(s, step), steps + [step], t) ==
      WakesDue(s, steps, t) + if step == Store(t) && s.threads[t].pc.was == ONCE_WAITER then 1 else 0
  {
    LastStep(steps, step);
    Rows();
    assert ThreadOk(s.sh, step.t, s.threads[step.t]);
  }

  /** Only the store reaches Done, and only once. */
  lemma StepStores(s: State, step: Step)
    requires Inv(s) && Enabled(s, step)
    ensures SharedAfter(s, step).history != []
    ensures Word(SharedAfter(s, step)) == ONCE_DONE <==> step.Store? || Word(s.sh) == ONCE_DONE
    ensures step.Store? ==> Word(s.sh) != ONCE_DONE
    ensures s.sh.history <= SharedAfter(s, step).history
  {
    Rows();
    assert ThreadOk(s.sh, step.t, s.threads[step.t]);
  }

  lemma StepKeepsWakeInv(s: State, steps: seq<Step>, step: Step)
    requires Inv(s) && Enabled(s, step) && WakeInv(s, steps)
    ensures Apply(s, step).sh.history != [] && WakeInv(Apply(s, step), steps + [step])
  {
    LastStep(steps, step);
    StepStores(s, step);
    forall t | 0 <= t < |s.threads|
      ensures OwnerRemembers(Apply(s, step), t, LoadSinceFinish(steps + [step], t))
    {
      StepKeepsMemory(s, steps, step, t);
    }
    forall t: nat
      ensures WakesDue(Apply(s, step), steps + [step], t) ==
        WakesDue(s, steps, t) + if step == Store(t) && s.threads[t].pc.was == ONCE_WAITER then 1 else 0
    {
      StepKeepsDue(s, steps, step, t);
    }
  }

  lemma {:induction false} RunKeepsWakeInv(s: State, before: seq<Step>, steps: seq<Step>)
    requires Inv(s) && WakeInv(s, before) && Runs(s, steps)
    ensures Exec(s, steps).sh.history != [] && WakeInv(Exec(s, steps), before + steps)
    decreases |steps|
  {
    if steps == [] {
      assert before + steps == before;
    } else {
      StepKeepsWakeInv(s, before, steps[0]);
      StepKeepsInv(s, steps[0]);
      RunKeepsWakeInv(Apply(s, steps[0]), before + [steps[0]], steps[1..]);
      assert before + [steps[0]] + steps[1..] == before + steps;
    }
  }

  // ----- main result

  /** In every run at most one thread stores Done; before that it has loaded the word since it finished
      fn.  Once it has returned it has made exactly one wake if that load returned Waiter, and none if
      not; nobody else ever wakes.  So the wake is skipped although a thread moved the word to Waiter
      exactly when that happened after the entry that was loaded. */
  lemma WakesExactlyIfWaiterWasSeen(n: nat, debug: bool, steps: seq<Step>)
    requires Runs(InitialState(n, debug), steps)
    ensures Stores(steps) <= 1
    ensures Stores(steps) == 0 ==> forall t: nat :: Wakes(steps, t) == 0
    ensures var s, w := Exec(InitialState(n, debug), steps), StoreOf(steps);
      Stores(steps) == 1 ==>
        && w.Some? && w.value.t < |s.threads| && w.value.read < |s.sh.history|
        && (forall t: nat :: t != w.value.t ==> Wakes(steps, t) == 0)
        && (s.threads[w.value.t].pc.Returned? ==>
              && Wakes(steps, w.value.t) == (if s.sh.history[w.value.read].value == ONCE_WAITER then 1 else 0)
              && ((Wakes(steps, w.value.t) == 0 && exists j :: Wrote(s.sh.history, j, ONCE_WAITER))
                  <==> exists j :: w.value.read < j && Wrote(s.sh.history, j, ONCE_WAITER)))
  {
    var start := InitialState(n, debug);
    InitialStateOk(n, debug);
    assert WakeInv(start, []);
    RunKeepsWakeInv(start, [], steps);
    RunKeepsInv(start, steps);
    assert [] + steps == steps;
    var s, w := Exec(start, steps), StoreOf(steps);
    assert forall t: nat :: Wakes(steps, t) <= WakesDue(s, steps, t);
    if Stores(steps) == 1 && s.threads[w.value.t].pc.Returned? {
      SkippedIfLater(s.sh.history, w.value.read);
    }
  }

  predicate Wrote(h: seq<Message>, j: nat, value: int) {
    j < |h| && h[j].value == value
  }

  lemma SkippedIfLater(h: seq<Message>, read: nat)
    requires InOrder(h) && ReadTaken(h, read)
    ensures (h[read].value != ONCE_WAITER && exists j :: Wrote(h, j, ONCE_WAITER))
       <==> exists j :: read < j && Wrote(h, j, ONCE_WAITER)
  {
    if |h| > 2 && h[2].value == ONCE_WAITER {
      assert Wrote(h, 2, ONCE_WAITER);
    }
  }

  // ----- the path of a call

  /** The latest call of a thread: its loads and compare-exchanges, whether it has begun fn, and its
      latest step. */
  datatype Path = Path(loads: nat, exchanges: nat, began: bool, last: Option<Step>)

  function PathOf(steps: seq<Step>, t: nat): Path {
    if steps == [] then Path(0, 0, false, None)
    else
      var step := steps[|steps| - 1];
      var p := PathOf(steps[..|steps| - 1], t);
      if step.t != t then p
      else if step.Call? then Path(0, 0, false, Some(step))
      else
        Path(p.loads + (if step.Load? then 1 else 0), p.exchanges + (if step.CasOk? || step.CasFail? then 1 else 0),
             p.began || step.Begin?, Some(step))
  }

  /** Loads made on the way to a point before the first compare-exchange; -1 if there is no such way. */
  function LoadsBefore(pc: Pc, debug: bool): int {
    match pc
    case FastLoad => 0
    case DebugLoad => if debug then 1 else -1
    case FirstCas => if debug then 2 else 1
    case _ => -1
  }

  /** The latest step was a load that returned `value`. */
  predicate Loaded(s: State, p: Path, value: int) {
    && p.last.Some? && p.last.value.Load?
    && p.last.value.i < |s.sh.history| && s.sh.history[p.last.value.i].value == value
  }

  /** Where a caller may stand that has tried to exchange and does not run fn. */
  predicate InWaitLoop(s: State, pc: Pc, p: Path) {
    match pc
    case WaitLoad => p.last.Some? && !p.last.value.Load?
    case WaitCas(row) => row < 2 && Loaded(s, p, TRANS[row].from)
    case Delay => Loaded(s, p, ONCE_WAITER)
    case Ready => p.last.Some? && p.last.value.CasOk?
    case Returned => Loaded(s, p, ONCE_DONE)
    case _ => false
  }

  predicate PathOk(s: State, t: nat, p: Path)
    requires t < |s.threads|
  {
    var pc := s.threads[t].pc;
    if pc.Idle? then p == Path(0, 0, false, None)
    else if p.exchanges == 0 then
      !p.began && if pc.Returned? then Loaded(s, p, ONCE_DONE) else p.loads == LoadsBefore(pc, s.debug)
    else p.began || InWaitLoop(s, pc, p)
  }

  lemma OthersKeepPath(s: State, step: Step, t: nat, p: Path)
    requires Inv(s) && Enabled(s, step) && t < |s.threads| && step.t != t && PathOk(s, t, p)
    ensures PathOk(Apply(s, step), t, p)
  {
    StepStores(s, step);
  }

  lemma LoadKeepsPath(s: State, steps: seq<Step>, step: Step)
    requires Inv(s) && Enabled(s, step) && step.Load? && PathOk(s, step.t, PathOf(steps, step.t))
    ensures PathOk(Apply(s, step), step.t, PathOf(steps + [step], step.t))
  {
    LastStep(steps, step);
    Rows();
    assert ThreadOk(s.sh, step.t, s.threads[step.t]);
  }

  lemma NonLoadKeepsPath(s: State, steps: seq<Step>, step: Step)
    requires Inv(s) && Enabled(s, step) && !step.Load? && PathOk(s, step.t, PathOf(steps, step.t))
    ensures PathOk(Apply(s, step), step.t, PathOf(steps + [step], step.t))
  {
    LastStep(steps, step);
    Rows();
    assert ThreadOk(s.sh, step.t, s.threads[step.t]);
  }

  lemma StepKeepsPath(s: State, steps: seq<Step>, step: Step, t: nat)
    requires Inv(s) && Enabled(s, step) && t < |s.threads| && PathOk(s, t, PathOf(steps, t))
    ensures PathOk(Apply(s, step), t, PathOf(steps + [step], t))
  {
    if step.t != t {
      LastStep(steps, step);
      OthersKeepPath(s, step, t, PathOf(steps, t));
    } else if step.Load? {
      LoadKeepsPath(s, steps, step);
    } else {
      NonLoadKeepsPath(s, steps, step);
    }
  }

  ghost predicate PathsOk(s: State, steps: seq<Step>) {
    forall t :: 0 <= t < |s.threads| ==> PathOk(s, t, PathOf(steps, t))
  }

  lemma StepKeepsPaths(s: State, steps: seq<Step>, step: Step)
    requires Inv(s) && Enabled(s, step) && PathsOk(s, steps)
    ensures PathsOk(Apply(s, step), steps + [step])
  {
    forall t | 0 <= t < |s.threads|
      ensures PathOk(Apply(s, step), t, PathOf(steps + [step], t))
    {
      StepKeepsPath(s, steps, step, t);
    }
  }

  lemma {:induction false} RunKeepsPaths(s: State, before: seq<Step>, steps: seq<Step>)
    requires Inv(s) && Runs(s, steps) && PathsOk(s, before)
    ensures PathsOk(Exec(s, steps), before + steps)
    decreases |steps|
  {
    if steps == [] {
      assert before + steps == before;
    } else {
      StepKeepsPaths(s, before, steps[0]);
      StepKeepsInv(s, steps[0]);
      RunKeepsPaths(Apply(s, steps[0]), before + [steps[0]], steps[1..]);
      assert before + [steps[0]] + steps[1..] == before + steps;
    }
  }

  lemma RunPathOk(n: nat, debug: bool, steps: seq<Step>, t: nat)
    requires Runs(InitialState(n, debug), steps) && t < n
    ensures var s := Exec(InitialState(n, debug), steps);
      Inv(s) && |s.threads| == n && s.debug == debug && PathOk(s, t, PathOf(steps, t))
  {
    var start := InitialState(n, debug);
    InitialStateOk(n, debug);
    RunKeepsInv(start, steps);
    SameThreads(start, steps);
    RunKeepsPaths(start, [], steps);
    assert [] + steps == steps;
  }

  /** The first compare-exchange of a call comes after one load of that call, or after two in a debug
      build, which checks the word in between. */
  lemma FirstExchangeComesAfter(n: nat, debug: bool, steps: seq<Step>, step: Step)
    requires Runs(InitialState(n, debug), steps) && step.t < n && Enabled(Exec(InitialState(n, debug), steps), step)
    requires (step.CasOk? || step.CasFail?) && PathOf(steps, step.t).exchanges == 0
    ensures PathOf(steps, step.t).loads == if debug then 2 else 1
  {
    RunPathOk(n, debug, steps, step.t);
  }

  /** What may follow a load of `v` in the wait loop. */
  predicate FollowsTable(s: State, v: int, step: Step)
    requires Enabled(s, step)
  {
    && (v == ONCE_INIT || v == ONCE_RUNNING ==> step.CasOk? || step.CasFail?)
    && (v == ONCE_WAITER ==> step.Timeout?)
    && (v == ONCE_DONE ==> step.Call?)
    && (step.CasOk? ==> Word(s.sh) == v)
    && (step.CasOk? ==> SharedAfter(s, step).history != [])
    && (step.CasOk? ==> Word(SharedAfter(s, step)) == if v == ONCE_INIT then ONCE_RUNNING else ONCE_WAITER)
  }

  /** From its first compare-exchange on, a caller that does not run fn does what the table says for the
      value that it loaded: it exchanges Init for Running and Running for Waiter, sleeps on Waiter until
      the delay ends, and returns on Done; and after a failed exchange or a delay it loads again. */
  lemma TableDecides(n: nat, debug: bool, steps: seq<Step>, step: Step)
    requires Runs(InitialState(n, debug), steps) && step.t < n && Enabled(Exec(InitialState(n, debug), steps), step)
    requires var p := PathOf(steps, step.t); p.exchanges > 0 && !p.began && p.last.Some?
    ensures var s, last := Exec(InitialState(n, debug), steps), PathOf(steps, step.t).last.value;
      if last.Load? then last.i < |s.sh.history| && FollowsTable(s, s.sh.history[last.i].value, step)
      else last.CasFail? || last.Timeout? ==> step.Load?
  {
    RunPathOk(n, debug, steps, step.t);
    Rows();
  }

  lemma {:induction false} SameThreads(s: State, steps: seq<Step>)
    requires Runs(s, steps)
    ensures |Exec(s, steps).threads| == |s.threads| && Exec(s, steps).debug == s.debug
    decreases |steps|
  {
    if steps != [] {
      SameThreads(Apply(s, steps[0]), steps[1..]);
    }
  }
}
