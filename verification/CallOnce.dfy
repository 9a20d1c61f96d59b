/** `absl::call_once` on one flag, as a state machine in which every atomic access is one step.

    The control word is a C++ atomic, so it is modelled by its modification order: the sequence
    of all values ever written to it, each carrying the view that its store released.  A load may
    return any entry at or after the latest one the thread has seen (coherence), hence a stale
    one; an acquire load joins that entry's view into the thread's; a successful compare-exchange
    reads the last entry and continues its release sequence. */
module CallOnce {

  const ONCE_INIT: int := 0
  const ONCE_RUNNING: int := 0x65C2937B
  const ONCE_WAITER: int := 0x05A308D2
  const ONCE_DONE: int := 221

  /** One row of the table that drives `SpinLockWait`. */
  datatype Transition = Transition(from: int, to: int, done: bool)

  const TRANS: seq<Transition> := [
    Transition(ONCE_INIT, ONCE_RUNNING, true),
    Transition(ONCE_RUNNING, ONCE_WAITER, false),
    Transition(ONCE_DONE, ONCE_DONE, true)]

  /** The first row that starts at `v`, or the number of rows. */
  function MatchRow(table: seq<Transition>, v: int): (i: nat)
    ensures i <= |table|
    ensures i < |table| ==> table[i].from == v
    ensures forall j :: 0 <= j < i ==> table[j].from != v
  {
    if table == [] || table[0].from == v then 0 else 1 + MatchRow(table[1..], v)
  }

  /** The inner loop of `SpinLockWait`. */
  method ScanTable(table: seq<Transition>, v: int) returns (i: nat)
    ensures i == MatchRow(table, v)
  {
    i := 0;
    while i != |table| && v != table[i].from
      invariant i <= |table|
      invariant MatchRow(table, v) == i + MatchRow(table[i..], v)
    {
      assert table[i..][1..] == table[i + 1..];
      i := i + 1;
    }
  }

  /** An entry of the modification order of the control word. */
  datatype Message = Message(value: int, view: set<nat>)

  /** Where a caller stands; each constructor is the access (or action) it performs next. */
  datatype Pc =
    | Idle
    | FastLoad             // the acquire load of call_once
    | DebugLoad            // the relaxed load of the debug check
    | FirstCas             // the relaxed compare-exchange Init -> Running
    | WaitLoad             // the acquire load at the head of the SpinLockWait loop
    | WaitCas(row: nat)    // the compare-exchange of a matched row
    | Delay                // SpinLockDelay: no row matched
    | Ready                // owns the flag, about to invoke fn
    | InFn
    | OwnerLoad            // the relaxed load before the store
    | OwnerStore(was: int) // the release store of Done
    | Wake
    | Returned
    | Fatal

  /** `seen` is the latest entry the thread has read or written, `view` the writes of fn that
      happen before the thread's next step. */
  datatype Thread = Thread(pc: Pc, seen: nat, view: set<nat>)

  /** What all threads share.  `holder` only records who won the flag; no step reads it. */
  datatype Shared = Shared(
    history: seq<Message>,
    starts: nat,             // how often fn was entered
    finished: bool,          // fn has run to its end
    writes: set<nat>,        // the writes fn has made
    holder: Holder)

  datatype Holder = Nobody | Held(t: nat)

  /** `debug`: built without NDEBUG. */
  datatype State = State(debug: bool, sh: Shared, threads: seq<Thread>)

  datatype Step =
    | Call(t: nat)
    | Load(t: nat, i: nat)
    | CasOk(t: nat)
    | CasFail(t: nat, i: nat)
    | Timeout(t: nat)
    | Begin(t: nat)
    | Write(t: nat, e: nat)
    | Finish(t: nat)
    | Store(t: nat)
    | WakeAll(t: nat)

  function InitialState(n: nat, debug: bool): State {
    State(debug, Shared([Message(ONCE_INIT, {})], 0, false, {}, Nobody), seq(n, _ => Thread(Idle, 0, {})))
  }

  /** The value `SpinLockWait` returned decides whether the caller runs fn. */
  function AfterSpin(v: int): Pc {
    if v == ONCE_INIT then Ready else Returned
  }

  predicate IsLoad(pc: Pc) {
    pc.FastLoad? || pc.DebugLoad? || pc.WaitLoad? || pc.OwnerLoad?
  }

  predicate IsCas(pc: Pc) {
    pc.FirstCas? || (pc.WaitCas? && pc.row < |TRANS|)
  }

  function Expected(pc: Pc): int
    requires IsCas(pc)
  {
    if pc.FirstCas? then ONCE_INIT else TRANS[pc.row].from
  }

  function Desired(pc: Pc): int
    requires IsCas(pc)
  {
    if pc.FirstCas? then ONCE_RUNNING else TRANS[pc.row].to
  }

  /** The thread after loading value `v`; only the two acquire loads join the view. */
  function AfterLoad(debug: bool, th: Thread, m: Message, i: nat): Thread
    requires IsLoad(th.pc)
  {
    var v := m.value;
    match th.pc
    case FastLoad =>
      Thread(if v == ONCE_DONE then Returned else if debug then DebugLoad else FirstCas, i, th.view + m.view)
    case DebugLoad =>
      Thread(if v == ONCE_INIT || v == ONCE_RUNNING || v == ONCE_WAITER || v == ONCE_DONE then FirstCas else Fatal,
             i, th.view)
    case WaitLoad =>
      var row := MatchRow(TRANS, v);
      var pc := if row == |TRANS| then Delay
                else if TRANS[row].to == v then if TRANS[row].done then AfterSpin(v) else WaitLoad
                else WaitCas(row);
      Thread(pc, i, th.view + m.view)
    case OwnerLoad => Thread(OwnerStore(v), i, th.view)
  }

  /** The thread after a compare-exchange that read `m` and wrote entry `i`. */
  function AfterCas(th: Thread, m: Message, i: nat): Thread
    requires IsCas(th.pc)
  {
    if th.pc.FirstCas? then Thread(Ready, i, th.view)
    else Thread(if TRANS[th.pc.row].done then AfterSpin(TRANS[th.pc.row].from) else WaitLoad, i, th.view + m.view)
  }

  predicate Enabled(s: State, step: Step) {
    step.t < |s.threads| && s.sh.history != [] &&
    var th := s.threads[step.t];
    var h := s.sh.history;
    match step
    case Call(_) => th.pc.Idle? || th.pc.Returned?
    case Load(_, i) => IsLoad(th.pc) && th.seen <= i < |h|
    case CasOk(_) => IsCas(th.pc) && h[|h| - 1].value == Expected(th.pc)
    case CasFail(_, i) => IsCas(th.pc) && th.seen <= i < |h| && h[i].value != Expected(th.pc)
    case Timeout(_) => th.pc.Delay?
    case Begin(_) => th.pc.Ready?
    case Write(_, e) => th.pc.InFn? && e !in s.sh.writes
    case Finish(_) => th.pc.InFn?
    case Store(_) => th.pc.OwnerStore?
    case WakeAll(_) => th.pc.Wake?
  }

  /** The stepping thread afterwards. */
  function Mover(s: State, step: Step): Thread
    requires Enabled(s, step)
  {
    var th := s.threads[step.t];
    var h := s.sh.history;
    match step
    case Call(_) => th.(pc := FastLoad)
    case Load(_, i) => AfterLoad(s.debug, th, h[i], i)
    case CasOk(_) => AfterCas(th, h[|h| - 1], |h|)
    case CasFail(_, i) => th.(pc := WaitLoad, seen := i)
    case Timeout(_) => th.(pc := WaitLoad)
    case Begin(_) => th.(pc := InFn)
    case Write(_, e) => th.(view := th.view + {e})
    case Finish(_) => th.(pc := OwnerLoad)
    case Store(_) => Thread(if th.pc.was == ONCE_WAITER then Wake else Returned, |h|, th.view)
    case WakeAll(_) => th.(pc := Returned)
  }

  /** The shared part afterwards. */
  function SharedAfter(s: State, step: Step): Shared
    requires Enabled(s, step)
  {
    var th := s.threads[step.t];
    var h := s.sh.history;
    match step
    case CasOk(t) =>
      s.sh.(history := h + [Message(Desired(th.pc), h[|h| - 1].view)],
            holder := if Owns(AfterCas(th, h[|h| - 1], |h|)) then Held(t) else s.sh.holder)
    case Begin(_) => s.sh.(starts := s.sh.starts + 1)
    case Write(_, e) => s.sh.(writes := s.sh.writes + {e})
    case Finish(_) => s.sh.(finished := true)
    case Store(_) => s.sh.(history := h + [Message(ONCE_DONE, th.view)], holder := Nobody)
    case _ => s.sh
  }

  function Apply(s: State, step: Step): State
    requires Enabled(s, step)
  {
    State(s.debug, SharedAfter(s, step), s.threads[step.t := Mover(s, step)])
  }

  /** `steps` can be taken one after the other from `s`. */
  predicate Runs(s: State, steps: seq<Step>)
    decreases |steps|
  {
    steps == [] || (Enabled(s, steps[0]) && Runs(Apply(s, steps[0]), steps[1..]))
  }

  function Exec(s: State, steps: seq<Step>): State
    requires Runs(s, steps)
    decreases |steps|
  {
    if steps == [] then s else Exec(Apply(s, steps[0]), steps[1..])
  }

  function Word(sh: Shared): int
    requires sh.history != []
  {
    sh.history[|sh.history| - 1].value
  }

  /** The thread is between winning the flag and storing Done. */
  predicate Owns(th: Thread) {
    th.pc.Ready? || th.pc.InFn? || th.pc.OwnerLoad? || th.pc.OwnerStore?
  }

  predicate Pending(th: Thread) {
    !th.pc.Idle? && !th.pc.Returned?
  }

  /** Init, then Running, then possibly Waiter, then Done. */
  predicate InOrder(h: seq<Message>) {
    && 1 <= |h| <= 4
    && h[0].value == ONCE_INIT
    && (|h| >= 2 ==> h[1].value == ONCE_RUNNING)
    && (|h| == 3 ==> h[2].value == ONCE_WAITER || h[2].value == ONCE_DONE)
    && (|h| == 4 ==> h[2].value == ONCE_WAITER && h[3].value == ONCE_DONE)
  }

  predicate SharedOk(sh: Shared) {
    && InOrder(sh.history)
    && (forall i :: 0 <= i < |sh.history| ==> sh.history[i].view <= sh.writes)
    && (Word(sh) == ONCE_INIT ==> sh.holder == Nobody && sh.starts == 0 && !sh.finished && sh.writes == {})
    && (Word(sh) == ONCE_RUNNING || Word(sh) == ONCE_WAITER ==> sh.holder.Held?)
    && (Word(sh) == ONCE_DONE ==>
          sh.holder == Nobody && sh.starts == 1 && sh.finished && sh.writes <= sh.history[|sh.history| - 1].view)
  }

  predicate ThreadOk(sh: Shared, t: nat, th: Thread)
    requires InOrder(sh.history)
  {
    && th.seen < |sh.history|
    && th.view <= sh.writes
    && (Owns(th) <==> sh.holder == Held(t))
    && (Owns(th) ==>
         && th.seen >= 1
         && th.view == sh.writes
         && sh.starts == (if th.pc.Ready? then 0 else 1)
         && sh.finished == (th.pc.OwnerLoad? || th.pc.OwnerStore?))
    && match th.pc
       case WaitCas(r) => r < 2 && r <= th.seen
       case Delay => th.seen >= 2
       case Ready => sh.writes == {}
       case OwnerStore(was) => was == ONCE_RUNNING || was == ONCE_WAITER
       case Wake => Word(sh) == ONCE_DONE && sh.writes <= th.view
       case Returned => Word(sh) == ONCE_DONE && sh.writes <= th.view
       case Fatal => false
       case _ => true
  }

  ghost predicate Inv(s: State) {
    && SharedOk(s.sh)
    && (s.sh.holder.Held? ==> s.sh.holder.t < |s.threads|)
    && (forall t :: 0 <= t < |s.threads| ==> ThreadOk(s.sh, t, s.threads[t]))
  }
}
