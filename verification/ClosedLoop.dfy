/** The trader in a loop with an exchange that applies its orders in sequence, fills a live order by
    at most what is left of it, and reports true positions, possibly late. */
module ClosedLoop {
  import opened Options
  import opened Wire
  import opened Trader
  import opened OrderStream
  import opened TraderInvariant
  import opened TraderRuns

  /** An order at the exchange. */
  datatype Resting = Resting(side: Side, left: nat)

  /** A position report: the position when it was taken, and how many inserts of each side the
      exchange had applied by then. */
  datatype Report = Report(pos: int, buys: nat, sells: nat)

  /** The trader; how many of its messages the exchange has applied; the exchange's live orders; the
      true position; the reports taken, each of which may arrive at any time; and the report that the
      trader's position comes from. */
  datatype World = World(trader: TraderState, applied: nat, resting: map<int, Resting>, pos: int,
                         taken: set<Report>, basis: Report)

  datatype Step =
    | Apply
    | Fill(id: int, volume: nat)
    | Expire(id: int)
    | Take
    | Deliver(report: Report, future: int)
    | Book(update: Event)

  const NOTHING := Report(0, 0, 0)
  const START_WORLD := World(START, 0, map[], 0, {}, NOTHING)

  function Log(w: World): seq<Message> {
    w.trader.out.log
  }

  /** How many inserts of one side a stream holds. */
  function Count(s: Side, log: seq<Message>): nat {
    if log == [] then 0
    else
      var m := log[|log| - 1];
      (if m.Insert? && m.side == s then 1 else 0) + Count(s, log[..|log| - 1])
  }

  function Seen(s: Side, r: Report): nat {
    if s.BUY? then r.buys else r.sells
  }

  /** A position, counted toward the given side: long for BUY, short for SELL. */
  function Toward(s: Side, pos: int): int {
    if s.BUY? then pos else -pos
  }

  predicate Enabled(w: World, step: Step) {
    match step
    case Apply => w.applied < |Log(w)|
    case Fill(id, volume) => id in w.resting && 1 <= volume <= w.resting[id].left
    case Expire(id) => id in w.resting
    case Take => w.applied <= |Log(w)|
    case Deliver(report, _) => report in w.taken
    case Book(update) => update.BookUpdate?
  }

  function ApplyOrder(resting: map<int, Resting>, m: Message): map<int, Resting> {
    match m
    case Insert(id, side, _, volume, _) => resting[id := Resting(side, if volume < 0 then 0 else volume)]
    case Cancel(id) => resting - {id}
  }

  function Snapshot(w: World): Report
    requires w.applied <= |Log(w)|
  {
    Report(w.pos, Count(BUY, Log(w)[..w.applied]), Count(SELL, Log(w)[..w.applied]))
  }

  function Next(w: World, step: Step): World
    requires Enabled(w, step)
  {
    match step
    case Apply => w.(applied := w.applied + 1, resting := ApplyOrder(w.resting, Log(w)[w.applied]))
    case Fill(id, volume) =>
      var o := w.resting[id];
      w.(pos := if o.side.BUY? then w.pos + volume else w.pos - volume,
         resting := w.resting[id := Resting(o.side, o.left - volume)])
    case Expire(id) => w.(resting := w.resting - {id})
    case Take => w.(taken := w.taken + {Snapshot(w)})
    case Deliver(report, future) => w.(trader := Handle(w.trader, PositionUpdate(future, report.pos)), basis := report)
    case Book(update) => w.(trader := Handle(w.trader, update))
  }

  // ----- how prompt the exchange is

  datatype Discipline =
    | Anything
    | InLimit(side: Side)
    | Waiting
    | Reported(ahead: nat)
    | Late(side: Side, lag: nat)
    | Accurate

  function Applied(w: World, s: Side): nat
    requires w.applied <= |Log(w)|
  {
    Count(s, Log(w)[..w.applied])
  }

  /** Inserts sent and not yet applied. */
  function OnTheWay(w: World, s: Side): int
    requires w.applied <= |Log(w)|
  {
    Count(s, Log(w)) - Applied(w, s)
  }

  predicate SendsInsert(w: World, step: Step, s: Side)
    requires Enabled(w, step)
  {
    Count(s, Log(Next(w, step))) > Count(s, Log(w))
  }

  /** The trader knows of every fill that moved the position toward the side. */
  predicate KnowsFills(w: World, s: Side) {
    Toward(s, w.pos) <= Toward(s, w.basis.pos)
  }

  /** At most `ahead` inserts of the side are on their way. */
  predicate FewOnTheWay(w: World, s: Side, ahead: nat) {
    w.applied <= |Log(w)| && OnTheWay(w, s) <= ahead
  }

  predicate InsertsOn(m: Message, s: Side) {
    m.Insert? && m.side == s
  }

  /** InLimit: each insert of the side is applied while the true position is below the limit.
      Waiting: an insert is sent only when all fills toward its side are known, and no order fills
      while an insert of its own side is on its way.
      Reported: an insert is sent only when all fills toward its side are known and at most `ahead`
      inserts of its side are on their way.
      Late: each insert of the side is at most the `lag`-th that had not been applied when the report
      that it relied on was taken.
      Accurate: whenever a book update arrives, a report taken just then would say nothing that the
      trader does not go by already. */
  predicate Allowed(w: World, step: Step, d: Discipline)
    requires Enabled(w, step)
  {
    match d
    case Anything => true
    case InLimit(s) => step.Apply? && InsertsOn(Log(w)[w.applied], s) ==> Toward(s, w.pos) < POSITION_LIMIT
    case Waiting =>
      && (SendsInsert(w, step, BUY) ==> KnowsFills(w, BUY))
      && (SendsInsert(w, step, SELL) ==> KnowsFills(w, SELL))
      && (step.Fill? ==> FewOnTheWay(w, w.resting[step.id].side, 0))
    case Reported(ahead) =>
      && (SendsInsert(w, step, BUY) ==> KnowsFills(w, BUY) && FewOnTheWay(w, BUY, ahead))
      && (SendsInsert(w, step, SELL) ==> KnowsFills(w, SELL) && FewOnTheWay(w, SELL, ahead))
    case Late(s, lag) => SendsInsert(w, step, s) ==> Count(s, Log(Next(w, step))) <= Seen(s, w.basis) + lag
    case Accurate => step.Book? ==> w.applied <= |Log(w)| && w.basis == Snapshot(w)
  }

  predicate CanRun(w: World, steps: seq<Step>, d: Discipline)
    decreases |steps|
  {
    steps == [] ||
    (Enabled(w, steps[0]) && Allowed(w, steps[0], d) && CanRun(Next(w, steps[0]), steps[1..], d))
  }

  function Run(w: World, steps: seq<Step>, d: Discipline): World
    requires CanRun(w, steps, d)
    decreases |steps|
  {
    if steps == [] then w else Run(Next(w, steps[0]), steps[1..], d)
  }

  // ----- the exchange holds at most one order per side

  function OnSide(r: Replay, s: Side): Option<Message> {
    if s.BUY? then r.bid else r.ask
  }

  /** Every order at the exchange is the one remembered from the applied messages, with at most a lot left. */
  ghost predicate Backed(resting: map<int, Resting>, r: Replay) {
    forall id :: id in resting ==> resting[id].left <= LOT && Names(OnSide(r, resting[id].side), id)
  }

  ghost predicate WorldOk(w: World) {
    && Ok(w.trader)
    && w.applied <= |Log(w)|
    && Backed(w.resting, ReplayAll(Log(w)[..w.applied]))
    && w.trader.out.exec.position == w.basis.pos
  }

  lemma ApplyBacked(resting: map<int, Resting>, r: Replay, m: Message)
    requires Backed(resting, r) && Sound(r) && MayFollow(r, m)
    ensures Backed(ApplyOrder(resting, m), ReplayOne(r, m))
  {
  }

  /** An insert goes to a side on which nothing rests. */
  lemma InsertsToEmptySide(resting: map<int, Resting>, r: Replay, m: Message, id: int)
    requires Backed(resting, r) && MayFollow(r, m) && m.Insert? && id in resting
    ensures resting[id].side != m.side
  {
  }

  /** The next message to apply may follow what was applied. */
  lemma NextToApply(w: World)
    requires WorldOk(w) && w.applied < |Log(w)|
    ensures var r, m := ReplayAll(Log(w)[..w.applied]), Log(w)[w.applied];
            Sound(r) && MayFollow(r, m) && ReplayAll(Log(w)[..w.applied + 1]) == ReplayOne(r, m)
  {
    var log, n := Log(w), w.applied;
    assert log[..n + 1][..n] == log[..n];
    OrderlyPrefix(log, n + 1);
    OrderlyPrefix(log, n);
    OrderlyIsSound(log[..n]);
  }

  lemma HandleKeepsApplied(w: World, e: Event)
    requires w.applied <= |Log(w)|
    ensures w.applied <= |Handle(w.trader, e).out.log| && Handle(w.trader, e).out.log[..w.applied] == Log(w)[..w.applied]
  {
    HandleExtends(w.trader, e);
  }

  lemma StepKeepsOk(w: World, step: Step)
    requires WorldOk(w) && Enabled(w, step)
    ensures WorldOk(Next(w, step))
  {
    match step
    case Apply =>
      NextToApply(w);
      ApplyBacked(w.resting, ReplayAll(Log(w)[..w.applied]), Log(w)[w.applied]);
    case Deliver(report, future) =>
      HandleOk(w.trader, PositionUpdate(future, report.pos));
    case Book(update) =>
      HandleOk(w.trader, update);
      HandleKeepsApplied(w, update);
      BookKeepsPosition(w.trader, update);
    case _ =>
  }

  lemma BookKeepsPosition(t: TraderState, e: Event)
    requires e.BookUpdate?
    ensures Handle(t, e).out.exec.position == t.out.exec.position
  {
  }

  // ----- how far one side can go

  /** Filling the side's resting order completely leaves the position within `c`. */
  ghost predicate Within(w: World, s: Side, c: int) {
    && Toward(s, w.pos) <= c
    && forall id :: id in w.resting && w.resting[id].side == s ==> Toward(s, w.pos) + w.resting[id].left <= c
  }

  /** A report limits the position by what was applied after it. */
  ghost predicate Limits(r: Report, w: World, s: Side)
    requires w.applied <= |Log(w)|
  {
    && Seen(s, r) <= Applied(w, s)
    && Within(w, s, Toward(s, r.pos) + LOT + LOT * (Applied(w, s) - Seen(s, r)))
  }

  ghost predicate ReportsOk(w: World, s: Side)
    requires w.applied <= |Log(w)|
  {
    Limits(w.basis, w, s) && forall r :: r in w.taken ==> Limits(r, w, s)
  }

  lemma CountOneMore(s: Side, log: seq<Message>, n: nat)
    requires n < |log|
    ensures Count(s, log[..n + 1]) == Count(s, log[..n]) + if log[n].Insert? && log[n].side == s then 1 else 0
  {
    assert log[..n + 1][..n] == log[..n];
  }

  lemma CountSnoc(s: Side, log: seq<Message>, m: Message)
    ensures Count(s, log + [m]) == Count(s, log) + if m.Insert? && m.side == s then 1 else 0
  {
    assert (log + [m])[..|log|] == log;
  }

  lemma {:induction false} CountPrefix(s: Side, log: seq<Message>, n: nat)
    requires n <= |log|
    ensures Count(s, log[..n]) <= Count(s, log)
    decreases |log| - n
  {
    if n < |log| {
      CountOneMore(s, log, n);
      CountPrefix(s, log, n + 1);
    } else {
      assert log[..n] == log;
    }
  }

  /** One step moves the position and the room left by what it applies. */
  lemma StepKeepsWithin(w: World, step: Step, s: Side, c: int)
    requires WorldOk(w) && Enabled(w, step) && Within(w, s, c)
    ensures var next := Next(w, step);
      && next.applied <= |Log(next)|
      && Applied(next, s) >= Applied(w, s)
      && Within(next, s, c + LOT * (Applied(next, s) - Applied(w, s)))
  {
    match step
    case Apply =>
      CountOneMore(s, Log(w), w.applied);
      NextToApply(w);
      ApplyWithin(w, s, c);
    case Fill(id, volume) => FillWithin(w, id, volume, s, c);
    case Deliver(report, future) =>
    case Book(update) => HandleKeepsApplied(w, update);
    case _ =>
  }

  lemma ApplyWithin(w: World, s: Side, c: int)
    requires w.applied < |Log(w)| && Within(w, s, c)
    requires Backed(w.resting, ReplayAll(Log(w)[..w.applied]))
    requires MayFollow(ReplayAll(Log(w)[..w.applied]), Log(w)[w.applied])
    ensures var m := Log(w)[w.applied];
            Within(Next(w, Apply), s, if m.Insert? && m.side == s then c + LOT else c)
  {
  }

  lemma FillWithin(w: World, id: int, volume: nat, s: Side, c: int)
    requires WorldOk(w) && Enabled(w, Fill(id, volume)) && Within(w, s, c)
    ensures Within(Next(w, Fill(id, volume)), s, c)
  {
    var r := ReplayAll(Log(w)[..w.applied]);
    forall other | other in w.resting && w.resting[other].side == w.resting[id].side
      ensures other == id
    {
      assert Names(OnSide(r, w.resting[id].side), id) && Names(OnSide(r, w.resting[id].side), other);
    }
  }

  lemma StepKeepsLimits(w: World, step: Step, s: Side, r: Report)
    requires WorldOk(w) && Enabled(w, step) && Limits(r, w, s)
    ensures Next(w, step).applied <= |Log(Next(w, step))| && Limits(r, Next(w, step), s)
  {
    StepKeepsWithin(w, step, s, Toward(s, r.pos) + LOT + LOT * (Applied(w, s) - Seen(s, r)));
  }

  lemma SnapshotLimits(w: World, s: Side)
    requires WorldOk(w)
    ensures Limits(Snapshot(w), w, s)
  {
  }

  lemma StepKeepsReports(w: World, step: Step, s: Side)
    requires WorldOk(w) && ReportsOk(w, s) && Enabled(w, step)
    ensures Next(w, step).applied <= |Log(Next(w, step))| && ReportsOk(Next(w, step), s)
  {
    var next := Next(w, step);
    StepKeepsLimits(w, step, s, w.basis);
    forall r | r in w.taken
      ensures Limits(r, next, s)
    {
      StepKeepsLimits(w, step, s, r);
    }
    if step.Take? {
      SnapshotLimits(w, s);
    }
  }

  lemma CancelCounts(o: Sender, price: int, s: Side)
    ensures Count(s, CancelStaleBid(o, price).log) == Count(s, o.log)
    ensures Count(s, CancelStaleAsk(o, price).log) == Count(s, o.log)
    ensures CancelStaleBid(o, price).exec.position == CancelStaleAsk(o, price).exec.position == o.exec.position
  {
    CountSnoc(s, o.log, Cancel(o.exec.bidId));
    CountSnoc(s, o.log, Cancel(o.exec.askId));
  }

  lemma InsertBidCounts(o: Sender, bid: int, s: Side, next: Sender)
    requires next == InsertBid(o, bid)
    ensures next.exec.position == o.exec.position
    ensures Count(s, next.log) == Count(s, o.log)
         || (s.BUY? && Count(s, next.log) == Count(s, o.log) + 1 && o.exec.position < POSITION_LIMIT)
  {
    CountSnoc(s, o.log, Insert(o.exec.orderId + 1, BUY, bid, LOT, GOOD_FOR_DAY));
  }

  lemma InsertAskCounts(o: Sender, ask: int, s: Side, next: Sender)
    requires next == InsertAsk(o, ask)
    ensures Count(s, next.log) == Count(s, o.log)
         || (s.SELL? && Count(s, next.log) == Count(s, o.log) + 1 && o.exec.position > -POSITION_LIMIT)
  {
    CountSnoc(s, o.log, Insert(o.exec.orderId + 1, SELL, ask, LOT, GOOD_FOR_DAY));
  }

  lemma ExecuteInserts(o: Sender, bid: int, ask: int, s: Side, next: Sender)
    requires next == Execute(o, bid, ask)
    ensures Count(s, next.log) == Count(s, o.log)
         || (Count(s, next.log) == Count(s, o.log) + 1 && Toward(s, o.exec.position) < POSITION_LIMIT)
  {
    var o1 := CancelStaleBid(o, bid);
    var o2 := CancelStaleAsk(o1, ask);
    var o3 := InsertBid(o2, bid);
    CancelCounts(o, bid, s);
    CancelCounts(o1, ask, s);
    InsertBidCounts(o2, bid, s, o3);
    InsertAskCounts(o3, ask, s, next);
  }

  /** One event sends at most one insert of a side, and only while the known position is within the limit. */
  lemma InsertsPerEvent(t: TraderState, e: Event, s: Side)
    ensures var now, next := Count(s, t.out.log), Count(s, Handle(t, e).out.log);
      next == now || (next == now + 1 && Toward(s, t.out.exec.position) < POSITION_LIMIT)
  {
    var next := Handle(t, e);
    if e.BookUpdate? {
      ExecuteInserts(t.out, next.theo - HALF_SPREAD, next.theo + HALF_SPREAD, s, next.out);
    }
  }

  // ----- the bounds

  /** The disciplines that bound the position. */
  predicate Bounds(d: Discipline) {
    !d.Anything? && !d.Accurate?
  }

  /** The farthest that a position can go toward a side. */
  function Bound(d: Discipline): int
    requires Bounds(d)
  {
    match d
    case InLimit(_) => 89
    case Waiting => 89
    case Reported(ahead) => 99 + LOT * ahead
    case Late(_, lag) => if lag == 0 then 0 else 89 + LOT * lag
  }

  /** The room left for what rests and what is on the way. */
  ghost predicate Bounded(w: World, s: Side, d: Discipline)
    requires w.applied <= |Log(w)| && Bounds(d)
  {
    match d
    case InLimit(_) => Within(w, s, 89)
    case Waiting => Within(w, s, 89) && (OnTheWay(w, s) > 0 ==> Toward(s, w.pos) < POSITION_LIMIT)
    case _ => Within(w, s, Bound(d) - LOT * OnTheWay(w, s))
  }

  /** The side that a discipline speaks of. */
  predicate Covers(d: Discipline, s: Side) {
    Bounds(d) && (d.Late? || d.InLimit? ==> d.side == s)
  }

  ghost predicate Inv(w: World, s: Side, d: Discipline)
    requires Bounds(d)
  {
    WorldOk(w) && ReportsOk(w, s) && OnTheWay(w, s) >= 0 && Bounded(w, s, d)
  }

  lemma StartWorldOk()
    ensures WorldOk(START_WORLD)
  {
    StartOk();
  }

  lemma NothingSentInv(w: World, s: Side, d: Discipline)
    requires Bounds(d) && WorldOk(w) && Log(w) == []
    requires w.resting == map[] && w.pos == 0 && w.taken == {} && w.basis == NOTHING
    ensures Inv(w, s, d)
  {
    assert Log(w)[..w.applied] == [];
    assert Applied(w, s) == 0 && OnTheWay(w, s) == 0;
  }

  lemma OnTheWayIsNat(w: World, s: Side)
    requires w.applied <= |Log(w)|
    ensures OnTheWay(w, s) >= 0
    ensures w.applied == |Log(w)| ==> OnTheWay(w, s) == 0
  {
    CountPrefix(s, Log(w), w.applied);
    assert w.applied == |Log(w)| ==> Log(w)[..w.applied] == Log(w);
  }

  /** A book update sends at most one insert of a side; it then relied on a position within the limit. */
  lemma BookOnTheWay(w: World, update: Event, s: Side)
    requires WorldOk(w) && update.BookUpdate?
    ensures var next, sent := Next(w, Book(update)), SendsInsert(w, Book(update), s);
      && next.applied <= |Log(next)|
      && OnTheWay(next, s) == OnTheWay(w, s) + (if sent then 1 else 0)
      && Count(s, Log(next)) == Applied(w, s) + OnTheWay(next, s)
      && (sent ==> Toward(s, w.basis.pos) < POSITION_LIMIT)
  {
    HandleKeepsApplied(w, update);
    InsertsPerEvent(w.trader, update, s);
  }

  lemma BookKeepsBounded(w: World, update: Event, s: Side, d: Discipline)
    requires Covers(d, s) && Inv(w, s, d) && update.BookUpdate? && Allowed(w, Book(update), d)
    requires Next(w, Book(update)).applied <= |Log(Next(w, Book(update)))|
    ensures Bounded(Next(w, Book(update)), s, d)
  {
    BookOnTheWay(w, update, s);
    if SendsInsert(w, Book(update), s) {
      InsertKeepsBounded(w, Next(w, Book(update)), s, d);
    }
  }

  /** The room that one more insert on the way needs. */
  lemma InsertKeepsBounded(w: World, next: World, s: Side, d: Discipline)
    requires Covers(d, s) && Inv(w, s, d) && next == w.(trader := next.trader) && next.applied <= |Log(next)|
    requires OnTheWay(next, s) == OnTheWay(w, s) + 1 && Count(s, Log(next)) == Applied(w, s) + OnTheWay(next, s)
    requires Toward(s, w.basis.pos) < POSITION_LIMIT
    requires d.Waiting? || d.Reported? ==> KnowsFills(w, s)
    requires d.Reported? ==> OnTheWay(w, s) <= d.ahead
    requires d.Late? ==> Count(s, Log(next)) <= Seen(s, w.basis) + d.lag
    ensures Bounded(next, s, d)
  {
  }

  /** An insert goes to an empty side, so within the limit there is room for all of it. */
  lemma ApplyInLimit(w: World, s: Side)
    requires WorldOk(w) && w.applied < |Log(w)| && Within(w, s, 89)
    requires InsertsOn(Log(w)[w.applied], s) ==> Toward(s, w.pos) < POSITION_LIMIT
    ensures Within(Next(w, Apply), s, 89)
  {
    var m := Log(w)[w.applied];
    NextToApply(w);
    forall id | InsertsOn(m, s) && id in w.resting && w.resting[id].side == s
      ensures false
    {
      InsertsToEmptySide(w.resting, ReplayAll(Log(w)[..w.applied]), m, id);
    }
  }

  lemma ApplyKeepsBounded(w: World, s: Side, d: Discipline)
    requires Covers(d, s) && Inv(w, s, d) && w.applied < |Log(w)| && Allowed(w, Apply, d)
    ensures Bounded(Next(w, Apply), s, d)
  {
    CountOneMore(s, Log(w), w.applied);
    OnTheWayIsNat(Next(w, Apply), s);
    if d.InLimit? || d.Waiting? {
      ApplyInLimit(w, s);
    } else {
      StepKeepsWithin(w, Apply, s, Bound(d) - LOT * OnTheWay(w, s));
    }
  }

  lemma FillKeepsBounded(w: World, id: int, volume: nat, s: Side, d: Discipline)
    requires Bounds(d) && Inv(w, s, d) && Enabled(w, Fill(id, volume)) && Allowed(w, Fill(id, volume), d)
    ensures Bounded(Next(w, Fill(id, volume)), s, d)
  {
    FillWithin(w, id, volume, s, if d.InLimit? || d.Waiting? then 89 else Bound(d) - LOT * OnTheWay(w, s));
  }

  lemma StepKeepsInv(w: World, step: Step, s: Side, d: Discipline)
    requires Covers(d, s) && Inv(w, s, d) && Enabled(w, step) && Allowed(w, step, d)
    ensures Inv(Next(w, step), s, d)
  {
    StepKeepsOk(w, step);
    StepKeepsReports(w, step, s);
    OnTheWayIsNat(Next(w, step), s);
    match step
    case Apply => ApplyKeepsBounded(w, s, d);
    case Fill(id, volume) => FillKeepsBounded(w, id, volume, s, d);
    case Book(update) => BookKeepsBounded(w, update, s, d);
    case _ =>
  }

  lemma {:induction false} RunKeepsInv(w: World, steps: seq<Step>, s: Side, d: Discipline)
    requires Covers(d, s) && Inv(w, s, d) && CanRun(w, steps, d)
    ensures Inv(Run(w, steps, d), s, d)
    decreases |steps|
  {
    if steps != [] {
      StepKeepsInv(w, steps[0], s, d);
      RunKeepsInv(Next(w, steps[0]), steps[1..], s, d);
    }
  }

  lemma RunStaysBounded(w: World, steps: seq<Step>, s: Side, d: Discipline)
    requires Covers(d, s) && Inv(w, s, d) && CanRun(w, steps, d)
    ensures Toward(s, Run(w, steps, d).pos) <= Bound(d)
  {
    RunKeepsInv(w, steps, s, d);
  }

  /** In every reachable state the position stays within the bound of its discipline. */
  lemma PositionIsBounded(steps: seq<Step>, s: Side, d: Discipline)
    requires Covers(d, s) && CanRun(START_WORLD, steps, d)
    ensures Toward(s, Run(START_WORLD, steps, d).pos) <= Bound(d)
  {
    StartWorldOk();
    NothingSentInv(START_WORLD, s, d);
    RunStaysBounded(START_WORLD, steps, s, d);
  }

  // ----- exactly when the position stays within 89

  /** At every point of a run, filling whatever rests on the side leaves the position within `c`. */
  ghost predicate AlwaysWithin(w: World, steps: seq<Step>, s: Side, c: int)
    requires CanRun(w, steps, Anything)
    decreases |steps|
  {
    Within(w, s, c) && (steps != [] ==> AlwaysWithin(Next(w, steps[0]), steps[1..], s, c))
  }

  lemma StepKeepsWithin89(w: World, step: Step, s: Side)
    requires WorldOk(w) && Enabled(w, step) && Within(w, s, 89)
    ensures Within(Next(w, step), s, 89) <==> Allowed(w, step, InLimit(s))
  {
    if step.Apply? {
      var m := Log(w)[w.applied];
      if InsertsOn(m, s) && Toward(s, w.pos) >= POSITION_LIMIT {
        AppliedRests(w);
        assert m.id in Next(w, Apply).resting;
      } else {
        ApplyInLimit(w, s);
      }
    } else {
      StepKeepsWithin(w, step, s, 89);
    }
  }

  /** An insert rests with its whole lot once it is applied. */
  lemma AppliedRests(w: World)
    requires WorldOk(w) && w.applied < |Log(w)| && Log(w)[w.applied].Insert?
    ensures var m := Log(w)[w.applied]; var resting := Next(w, Apply).resting;
            m.id in resting && resting[m.id] == Resting(m.side, LOT)
  {
    NextToApply(w);
  }

  lemma {:induction false} WithinExactly(w: World, steps: seq<Step>, s: Side)
    requires WorldOk(w) && Within(w, s, 89) && CanRun(w, steps, Anything)
    ensures AlwaysWithin(w, steps, s, 89) <==> CanRun(w, steps, InLimit(s))
    decreases |steps|
  {
    if steps != [] {
      StepKeepsWithin89(w, steps[0], s);
      StepKeepsOk(w, steps[0]);
      if Within(Next(w, steps[0]), s, 89) {
        WithinExactly(Next(w, steps[0]), steps[1..], s);
      }
    }
  }

  /** In any run at all, the position stays within 89 toward a side, and would stay so if what rests
      there filled at any point, exactly when each insert of the side is applied while the true
      position is below 80: the executor's own test, on the true position, at the exchange. */
  lemma WithinLimitExactly(steps: seq<Step>, s: Side)
    requires CanRun(START_WORLD, steps, Anything)
    ensures AlwaysWithin(START_WORLD, steps, s, 89) <==> CanRun(START_WORLD, steps, InLimit(s))
  {
    StartWorldOk();
    WithinExactly(START_WORLD, steps, s);
  }

  lemma {:induction false} WaitingStaysInLimit(w: World, steps: seq<Step>, s: Side)
    requires Inv(w, s, Waiting) && CanRun(w, steps, Waiting)
    ensures CanRun(w, steps, InLimit(s))
    decreases |steps|
  {
    if steps != [] {
      if steps[0].Apply? {
        CountOneMore(s, Log(w), w.applied);
        OnTheWayIsNat(Next(w, Apply), s);
      }
      StepKeepsInv(w, steps[0], s, Waiting);
      WaitingStaysInLimit(Next(w, steps[0]), steps[1..], s);
    }
  }

  /** If fills wait for inserts of their side, knowing all fills is enough for that. */
  lemma WaitingIsInLimit(steps: seq<Step>, s: Side)
    requires CanRun(START_WORLD, steps, Waiting)
    ensures CanRun(START_WORLD, steps, InLimit(s))
  {
    StartWorldOk();
    NothingSentInv(START_WORLD, s, Waiting);
    WaitingStaysInLimit(START_WORLD, steps, s);
  }
}
