/** Runs that reach the position bounds, so that no smaller bound holds. */
module ClosedLoopTight {
  import opened Wire
  import opened Trader
  import opened TraderInvariant
  import opened ClosedLoop

  ghost predicate Reachable(w: World, d: Discipline) {
    exists steps :: CanRun(START_WORLD, steps, d) && Run(START_WORLD, steps, d) == w
  }

  lemma {:induction false} RunSnoc(w: World, steps: seq<Step>, step: Step, d: Discipline)
    requires CanRun(w, steps, d)
    requires Enabled(Run(w, steps, d), step) && Allowed(Run(w, steps, d), step, d)
    ensures CanRun(w, steps + [step], d) && Run(w, steps + [step], d) == Next(Run(w, steps, d), step)
    decreases |steps|
  {
    if steps == [] {
      assert steps + [step] == [step] && [step][1..] == [];
    } else {
      assert (steps + [step])[1..] == steps[1..] + [step];
      RunSnoc(Next(w, steps[0]), steps[1..], step, d);
    }
  }

  lemma ReachStep(w: World, step: Step, d: Discipline)
    requires Reachable(w, d) && Enabled(w, step) && Allowed(w, step, d)
    ensures Reachable(Next(w, step), d)
  {
    var steps :| CanRun(START_WORLD, steps, d) && Run(START_WORLD, steps, d) == w;
    RunSnoc(START_WORLD, steps, step, d);
    assert CanRun(START_WORLD, steps + [step], d);
  }

  lemma StartReachable(d: Discipline)
    ensures Reachable(START_WORLD, d)
  {
    assert CanRun(START_WORLD, [], d) && Run(START_WORLD, [], d) == START_WORLD;
  }

  lemma {:induction false} RunKeepsOk(w: World, steps: seq<Step>, d: Discipline)
    requires WorldOk(w) && CanRun(w, steps, d)
    ensures WorldOk(Run(w, steps, d))
    decreases |steps|
  {
    if steps != [] {
      StepKeepsOk(w, steps[0]);
      RunKeepsOk(Next(w, steps[0]), steps[1..], d);
    }
  }

  lemma ReachableOk(w: World, d: Discipline)
    requires Reachable(w, d)
    ensures WorldOk(w)
  {
    var steps :| CanRun(START_WORLD, steps, d) && Run(START_WORLD, steps, d) == w;
    StartWorldOk();
    RunKeepsOk(START_WORLD, steps, d);
  }

  function IdOn(x: Executor, s: Side): int {
    if s.BUY? then x.bidId else x.askId
  }

  /** The trader quotes both sides. */
  predicate Quoting(w: World) {
    var x := w.trader.out.exec;
    x.bidId != 0 && x.askId != 0 && w.trader.theo >= 0 && w.trader.theo % 100 == 0
  }

  /** All is applied and both sides are quoted; the orders may be filled. */
  predicate Settled(w: World) {
    Quoting(w) && w.applied == |Log(w)|
  }

  /** The side's order is untouched. */
  predicate Fresh(w: World, s: Side) {
    var id := IdOn(w.trader.out.exec, s);
    id in w.resting && w.resting[id] == Resting(s, LOT)
  }

  function Quote(theo: int): Event {
    BookUpdate(FUTURE, [theo], [theo])
  }

  lemma QuoteReprices(was: int, theo: int)
    requires theo >= 0 && theo % 100 == 0
    ensures Reprice(was, Quote(theo)) == theo
  {
  }

  /** The four messages of a requote. */
  function Requotes(x: Executor, theo: int): seq<Message> {
    [Cancel(x.bidId), Cancel(x.askId),
     Insert(x.orderId + 1, BUY, theo - HALF_SPREAD, LOT, GOOD_FOR_DAY),
     Insert(x.orderId + 2, SELL, theo + HALF_SPREAD, LOT, GOOD_FOR_DAY)]
  }

  function Requoting(x: Executor, theo: int): Executor {
    Executor(x.orderId + 1, x.orderId + 2, theo - HALF_SPREAD, theo + HALF_SPREAD, x.orderId + 2, x.position)
  }

  lemma RequoteSends(t: TraderState, theo: int, next: TraderState)
    requires next == Handle(t, Quote(theo)) && theo >= 0 && theo % 100 == 0 && theo != t.theo
    requires Quotes(t.out.exec, t.theo - HALF_SPREAD, t.theo + HALF_SPREAD)
    requires t.out.exec.bidId != 0 && t.out.exec.askId != 0 && -POSITION_LIMIT < t.out.exec.position < POSITION_LIMIT
    ensures var x := t.out.exec;
      && next.theo == theo
      && next.out.log == t.out.log + Requotes(x, theo)
      && next.out.exec == Requoting(x, theo)
  {
    QuoteReprices(t.theo, theo);
    var x := t.out.exec;
    var cancelled := CancelStale(t.out, theo - HALF_SPREAD, theo + HALF_SPREAD);
    assert cancelled == Sender(x.(bidId := 0, askId := 0), t.out.log + [Cancel(x.bidId)] + [Cancel(x.askId)]);
  }

  /** Every order has been applied and the last report says all. */
  predicate UpToDate(w: World) {
    w.applied == |Log(w)| && w.basis == Snapshot(w)
  }

  // ----- single steps, each allowed by every discipline that fits

  /** The position lets inserts of both sides be applied, if the discipline asks. */
  predicate MayApply(w: World, d: Discipline) {
    d.InLimit? ==> -POSITION_LIMIT < w.pos < POSITION_LIMIT
  }

  lemma ApplyOne(w: World, d: Discipline)
    requires Reachable(w, d) && w.applied < |Log(w)| && MayApply(w, d)
    ensures Reachable(Next(w, Apply), d)
  {
    ReachStep(w, Apply, d);
  }

  /** Taking and at once delivering a report brings the trader up to date. */
  lemma Refresh(w: World, d: Discipline) returns (next: World)
    requires Reachable(w, d) && w.applied == |Log(w)|
    ensures Reachable(next, d) && WorldOk(next) && UpToDate(next)
    ensures next == w.(trader := next.trader, taken := next.taken, basis := next.basis)
    ensures next.trader == w.trader.(out := w.trader.out.(exec := w.trader.out.exec.(position := w.pos)))
  {
    var taken := Next(w, Take);
    ReachStep(w, Take, d);
    var deliver := Deliver(Snapshot(w), 0);
    next := Next(taken, deliver);
    ReachStep(taken, deliver, d);
    ReachableOk(next, d);
  }

  lemma FillOne(w: World, s: Side, d: Discipline, volume: nat) returns (next: World)
    requires Reachable(w, d) && Fresh(w, s) && 1 <= volume <= LOT
    requires d.Waiting? ==> w.applied == |Log(w)|
    ensures Reachable(next, d) && WorldOk(next) && Toward(s, next.pos) == Toward(s, w.pos) + volume
    ensures next == w.(pos := next.pos, resting := next.resting)
  {
    var id := IdOn(w.trader.out.exec, s);
    assert w.applied == |Log(w)| ==> Log(w)[..w.applied] == Log(w);
    next := Next(w, Fill(id, volume));
    ReachStep(w, Fill(id, volume), d);
    ReachableOk(next, d);
  }

  lemma CountRequotes(s: Side, log: seq<Message>, x: Executor, theo: int)
    ensures Count(s, log + Requotes(x, theo)) == Count(s, log) + 1
  {
    var ms := Requotes(x, theo);
    assert log + ms == log + [ms[0]] + [ms[1]] + [ms[2]] + [ms[3]];
    CountSnoc(s, log, ms[0]);
    CountSnoc(s, log + [ms[0]], ms[1]);
    CountSnoc(s, log + [ms[0]] + [ms[1]], ms[2]);
    CountSnoc(s, log + [ms[0]] + [ms[1]] + [ms[2]], ms[3]);
  }

  lemma ApplyTwo(w: World, first: Message, second: Message, d: Discipline) returns (next: World)
    requires Reachable(w, d) && w.applied + 2 <= |Log(w)| && MayApply(w, d)
    requires Log(w)[w.applied] == first && Log(w)[w.applied + 1] == second
    ensures Reachable(next, d)
    ensures next == w.(applied := w.applied + 2, resting := ApplyOrder(ApplyOrder(w.resting, first), second))
  {
    ApplyOne(w, d);
    var w1 := Next(w, Apply);
    ApplyOne(w1, d);
    next := Next(w1, Apply);
  }

  /** The exchange catches up with a requote. */
  lemma ApplyRequote(w: World, x: Executor, theo: int, d: Discipline) returns (next: World)
    requires Reachable(w, d) && MayApply(w, d)
    requires w.applied + 4 <= |Log(w)| && Log(w)[w.applied..w.applied + 4] == Requotes(x, theo)
    ensures Reachable(next, d) && next == w.(applied := w.applied + 4, resting := next.resting)
    ensures Requoted(next.resting, x)
  {
    var ms, rest := Requotes(x, theo), Log(w)[w.applied..w.applied + 4];
    assert rest[0] == ms[0] && rest[1] == ms[1] && rest[2] == ms[2] && rest[3] == ms[3];
    var cancelled := ApplyTwo(w, ms[0], ms[1], d);
    next := ApplyTwo(cancelled, ms[2], ms[3], d);
  }

  predicate Requoted(resting: map<int, Resting>, x: Executor) {
    && x.orderId + 1 in resting && resting[x.orderId + 1] == Resting(BUY, LOT)
    && x.orderId + 2 in resting && resting[x.orderId + 2] == Resting(SELL, LOT)
  }

  /** A trader in order quotes around its price and knows the position it was told last. */
  lemma QuotingAround(w: World, d: Discipline)
    requires Reachable(w, d) && Quoting(w)
    ensures Quotes(w.trader.out.exec, w.trader.theo - HALF_SPREAD, w.trader.theo + HALF_SPREAD)
    ensures w.trader.out.exec.position == w.basis.pos
  {
    ReachableOk(w, d);
  }

  lemma RequoteStep(w: World, s: Side, d: Discipline, sent: World)
    requires Reachable(w, d) && Quoting(w) && -POSITION_LIMIT < w.basis.pos < POSITION_LIMIT
    requires sent == Next(w, Book(Quote(w.trader.theo + 100)))
    ensures sent == w.(trader := sent.trader) && sent.trader.theo == w.trader.theo + 100
    ensures Log(sent) == Log(w) + Requotes(w.trader.out.exec, sent.trader.theo)
    ensures sent.trader.out.exec == Requoting(w.trader.out.exec, sent.trader.theo)
    ensures Count(s, Log(sent)) == Count(s, Log(w)) + 1
  {
    hide Reachable, Handle, Quotes;
    QuotingAround(w, d);
    RequoteSends(w.trader, w.trader.theo + 100, sent.trader);
    CountRequotes(s, Log(w), w.trader.out.exec, w.trader.theo + 100);
  }

  lemma StillQuoting(w: World, d: Discipline)
    requires Reachable(w, d) && Quoting(w)
    ensures w.trader.out.exec.orderId >= 1 && (w.trader.theo + 100) % 100 == 0 && w.applied <= |Log(w)|
  {
    ReachableOk(w, d);
  }

  /** The price moves by one tick of the model. */
  lemma SendRequote(w: World, s: Side, d: Discipline) returns (sent: World)
    requires Reachable(w, d) && Quoting(w) && -POSITION_LIMIT < w.basis.pos < POSITION_LIMIT
    requires Allowed(w, Book(Quote(w.trader.theo + 100)), d)
    ensures Reachable(sent, d) && sent == w.(trader := sent.trader) && sent.trader.theo == w.trader.theo + 100
    ensures Log(sent) == Log(w) + Requotes(w.trader.out.exec, sent.trader.theo)
    ensures sent.trader.out.exec == Requoting(w.trader.out.exec, sent.trader.theo)
    ensures Count(s, Log(sent)) == Count(s, Log(w)) + 1
  {
    var step := Book(Quote(w.trader.theo + 100));
    sent := Next(w, step);
    ReachStep(w, step, d);
    RequoteStep(w, s, d, sent);
  }

  /** One requote, sent and applied. */
  lemma RequoteRound(w: World, s: Side, d: Discipline) returns (next: World)
    requires Reachable(w, d) && Settled(w) && -POSITION_LIMIT < w.basis.pos == w.pos < POSITION_LIMIT
    requires Allowed(w, Book(Quote(w.trader.theo + 100)), d)
    ensures Reachable(next, d) && Settled(next) && Fresh(next, s) && next.pos == w.pos
  {
    var x := w.trader.out.exec;
    var sent := SendRequote(w, s, d);
    assert Log(sent)[w.applied..w.applied + 4] == Requotes(x, sent.trader.theo);
    next := ApplyRequote(sent, x, sent.trader.theo, d);
    StillQuoting(w, d);
  }

  /** A trader that knows the position may take any book update, whether or not anything was filled
      or reported since the last one. */
  lemma KnownPositionMayTrade(w: World, update: Event, ahead: nat)
    requires update.BookUpdate? && w.basis.pos == w.pos
    ensures Allowed(w, Book(update), Waiting)
    ensures FewOnTheWay(w, BUY, ahead) && FewOnTheWay(w, SELL, ahead) ==> Allowed(w, Book(update), Reported(ahead))
  {
  }

  /** A book update is allowed when the trader is up to date. */
  lemma UpToDateAllows(w: World, d: Discipline)
    requires Reachable(w, d) && Settled(w) && UpToDate(w) && -POSITION_LIMIT < w.pos < POSITION_LIMIT
    requires d.Late? ==> d.lag >= 1
    ensures Allowed(w, Book(Quote(w.trader.theo + 100)), d)
  {
    assert Log(w)[..w.applied] == Log(w);
    if d.Late? {
      RequoteStep(w, d.side, d, Next(w, Book(Quote(w.trader.theo + 100))));
    }
  }

  // ----- whole runs

  /** The first quotes of both sides, applied. */
  lemma Open(s: Side, d: Discipline) returns (next: World)
    requires d.Late? ==> d.lag >= 1
    ensures Reachable(next, d) && Settled(next) && Fresh(next, s) && UpToDate(next) && next.pos == 0
  {
    StartReachable(d);
    var w := START_WORLD;
    QuoteReprices(0, 100);
    var sent := Next(w, Book(Quote(100)));
    var bid, ask := Insert(2, BUY, 0, LOT, GOOD_FOR_DAY), Insert(3, SELL, 200, LOT, GOOD_FOR_DAY);
    assert Log(sent) == [bid, ask];
    if d.Late? {
      CountSnoc(d.side, [], bid);
      CountSnoc(d.side, [bid], ask);
      assert [] + [bid] == [bid] && [bid] + [ask] == [bid, ask];
    }
    ReachStep(w, Book(Quote(100)), d);
    var applied := ApplyTwo(sent, bid, ask, d);
    next := Refresh(applied, d);
  }

  /** A fill, a report and a requote, one after the other: allowed by every discipline. */
  lemma SlowRound(w: World, s: Side, d: Discipline) returns (next: World)
    requires Reachable(w, d) && Settled(w) && Fresh(w, s) && UpToDate(w) && 0 <= Toward(s, w.pos) < 79
    requires d.Late? ==> d.lag >= 1
    ensures Reachable(next, d) && Settled(next) && Fresh(next, s) && UpToDate(next)
    ensures Toward(s, next.pos) == Toward(s, w.pos) + 1
  {
    var filled := FillOne(w, s, d, 1);
    var known := Refresh(filled, d);
    UpToDateAllows(known, d);
    var quoted := RequoteRound(known, s, d);
    next := Refresh(quoted, d);
  }

  lemma {:induction false} SlowRounds(w: World, s: Side, d: Discipline) returns (next: World)
    requires Reachable(w, d) && Settled(w) && Fresh(w, s) && UpToDate(w) && 0 <= Toward(s, w.pos) <= 79
    requires d.Late? ==> d.lag >= 1
    ensures Reachable(next, d) && Settled(next) && Fresh(next, s) && UpToDate(next) && Toward(s, next.pos) == 79
    decreases 79 - Toward(s, w.pos)
  {
    next := w;
    if Toward(s, w.pos) < 79 {
      next := SlowRound(w, s, d);
      next := SlowRounds(next, s, d);
    }
  }

  // ----- many requotes on the way

  function More(a: int, b: int): int {
    if a < b then b else a
  }

  /** How many requotes the discipline lets the trader send one after the other, up to `most`. */
  function Room(w: World, d: Discipline, most: nat): int {
    if w.applied > |Log(w)| || !Quoting(w) || !(-POSITION_LIMIT < w.basis.pos < POSITION_LIMIT) then 0
    else
      match d
      case Reported(ahead) => if w.basis.pos == w.pos then ahead + 1 - More(OnTheWay(w, BUY), OnTheWay(w, SELL)) else 0
      case Late(s, lag) => Seen(s, w.basis) + lag - Count(s, Log(w))
      case Accurate => if w.basis == Snapshot(w) then most else 0
      case _ => 0
  }

  lemma RoomAllows(w: World, d: Discipline, n: nat, sent: World)
    requires Reachable(w, d) && 0 < n <= Room(w, d, n)
    requires sent == Next(w, Book(Quote(w.trader.theo + 100)))
    ensures Allowed(w, Book(Quote(w.trader.theo + 100)), d) && n - 1 <= Room(sent, d, n - 1)
  {
    RequoteStep(w, BUY, d, sent);
    RequoteStep(w, SELL, d, sent);
    StillQuoting(w, d);
    assert Log(sent)[..w.applied] == Log(w)[..w.applied];
  }

  function RequotesFrom(x: Executor, theo: int, n: nat): seq<Message>
    decreases n
  {
    if n == 0 then [] else Requotes(x, theo) + RequotesFrom(Requoting(x, theo), theo + 100, n - 1)
  }

  /** A log with `n` requotes added to it. */
  function WithRequotes(log: seq<Message>, x: Executor, theo: int, n: nat): seq<Message>
    decreases n
  {
    if n == 0 then log else WithRequotes(log + Requotes(x, theo), Requoting(x, theo), theo + 100, n - 1)
  }

  lemma OneRequoteMore(log: seq<Message>, mid: seq<Message>, all: seq<Message>, x: Executor, theo: int, n: nat)
    requires n > 0 && mid == log + Requotes(x, theo) && all == WithRequotes(mid, Requoting(x, theo), theo + 100, n - 1)
    ensures all == WithRequotes(log, x, theo, n)
  {
  }

  lemma {:induction false} WithRequotesAdds(log: seq<Message>, x: Executor, theo: int, n: nat)
    ensures WithRequotes(log, x, theo, n) == log + RequotesFrom(x, theo, n)
    decreases n
  {
    if n == 0 {
      assert log + [] == log;
    } else {
      var first, rest := Requotes(x, theo), RequotesFrom(Requoting(x, theo), theo + 100, n - 1);
      WithRequotesAdds(log + first, Requoting(x, theo), theo + 100, n - 1);
      assert log + first + rest == log + (first + rest);
    }
  }

  lemma SendOneOf(w: World, d: Discipline, n: nat, x: Executor, theo: int) returns (sent: World)
    requires Reachable(w, d) && 0 < n <= Room(w, d, n) && x == w.trader.out.exec && theo == w.trader.theo + 100
    ensures Reachable(sent, d) && n - 1 <= Room(sent, d, n - 1) && sent == w.(trader := sent.trader)
    ensures Log(sent) == Log(w) + Requotes(x, theo)
    ensures sent.trader.theo == theo && sent.trader.out.exec == Requoting(x, theo)
  {
    hide Reachable;
    var step := Book(Quote(theo));
    sent := Next(w, step);
    RoomAllows(w, d, n, sent);
    ReachStep(w, step, d);
    RequoteStep(w, BUY, d, sent);
  }

  /** The price moves `n` times and the exchange applies none of the orders yet. */
  lemma {:induction false} SendRequotes(w: World, d: Discipline, n: nat, x: Executor, theo: int) returns (next: World)
    requires Reachable(w, d) && n <= Room(w, d, n) && x == w.trader.out.exec && theo == w.trader.theo + 100
    ensures Reachable(next, d) && next == w.(trader := next.trader)
    ensures Log(next) == WithRequotes(Log(w), x, theo, n)
    decreases n
  {
    hide Reachable;
    next := w;
    if n > 0 {
      var sent := SendOneOf(w, d, n, x, theo);
      next := SendRequotes(sent, d, n - 1, Requoting(x, theo), theo + 100);
      OneRequoteMore(Log(w), Log(sent), Log(next), x, theo, n);
    }
  }

  /** Each of the pending orders fills just before its cancel is applied, and the last one too. */
  lemma {:induction false} FillAll(w: World, x: Executor, theo: int, n: nat, s: Side, d: Discipline) returns (next: World)
    requires Reachable(w, d) && w.applied <= |Log(w)| && Log(w)[w.applied..] == RequotesFrom(x, theo, n)
    requires IdOn(x, s) in w.resting && w.resting[IdOn(x, s)] == Resting(s, LOT)
    requires d.InLimit? || d.Waiting? ==> n == 0
    ensures Reachable(next, d) && Toward(s, next.pos) == Toward(s, w.pos) + LOT * (n + 1)
    decreases n
  {
    var fill := Fill(IdOn(x, s), LOT);
    next := Next(w, fill);
    assert n == 0 ==> Log(w)[..w.applied] == Log(w);
    ReachStep(w, fill, d);
    if n > 0 {
      assert Log(w)[w.applied..][..4] == Requotes(x, theo) && Log(w)[w.applied..][..4] == Log(w)[w.applied..w.applied + 4];
      next := ApplyRequote(next, x, theo, d);
      assert Log(w)[w.applied..][4..] == Log(w)[w.applied + 4..];
      next := FillAll(next, Requoting(x, theo), theo + 100, n - 1, s, d);
    }
  }

  /** From 79, `n` requotes on the way let `n + 1` whole orders fill. */
  lemma Overshoot(s: Side, d: Discipline, n: nat) returns (w: World)
    requires d.Late? ==> d.lag >= 1
    requires match d
             case Reported(ahead) => n <= ahead + 1
             case Late(side, lag) => side == s && n <= lag
             case Accurate => true
             case _ => n == 0
    ensures Reachable(w, d) && Toward(s, w.pos) == 79 + LOT * (n + 1)
  {
    var first := Open(s, d);
    var settled := SlowRounds(first, s, d);
    assert Log(settled)[..settled.applied] == Log(settled);
    var x, theo := settled.trader.out.exec, settled.trader.theo + 100;
    var sent := SendRequotes(settled, d, n, x, theo);
    WithRequotesAdds(Log(settled), x, theo, n);
    assert Log(sent)[settled.applied..] == RequotesFrom(x, theo, n);
    w := FillAll(sent, x, theo, n, s, d);
  }

  // ----- the bounds are exact

  /** Some run reaches the bound of each discipline, on each side that it covers. */
  lemma BoundIsReached(s: Side, d: Discipline) returns (w: World)
    requires Covers(d, s)
    ensures Reachable(w, d) && Toward(s, w.pos) == Bound(d)
  {
    if d == Late(s, 0) {
      StartReachable(d);
      w := START_WORLD;
    } else {
      w := Overshoot(s, d, match d case Reported(ahead) => ahead + 1 case Late(_, lag) => lag case _ => 0);
    }
  }

  /** The bound of each discipline is the least: a limit holds in every reachable state exactly when
      it is at least 89 if each insert is applied within the limit, or if all fills are reported and
      fills wait for inserts of their side; at least 99 + 10 * ahead if all fills are reported and at
      most `ahead` inserts are on their way; at least 89 + 10 * lag if reports are late by lag >= 1
      inserts; and at least 0 if lag is 0, when the side is never traded. */
  lemma PositionBoundIsExact(s: Side, d: Discipline, limit: int)
    requires Covers(d, s)
    ensures (forall steps :: CanRun(START_WORLD, steps, d) ==> Toward(s, Run(START_WORLD, steps, d).pos) <= limit)
       <==> Bound(d) <= limit
  {
    if Bound(d) <= limit {
      forall steps | CanRun(START_WORLD, steps, d)
        ensures Toward(s, Run(START_WORLD, steps, d).pos) <= limit
      {
        PositionIsBounded(steps, s, d);
      }
    } else {
      var w := BoundIsReached(s, d);
      var steps :| CanRun(START_WORLD, steps, d) && Run(START_WORLD, steps, d) == w;
      assert Toward(s, Run(START_WORLD, steps, d).pos) > limit;
    }
  }

  /** Accurate reports alone bound nothing: even if all fills and all applied inserts are reported
      before each book update, inserts that are still on their way let the position pass any limit. */
  lemma AccurateReportsBoundNothing(s: Side, limit: int)
    ensures exists steps :: CanRun(START_WORLD, steps, Accurate) && Toward(s, Run(START_WORLD, steps, Accurate).pos) > limit
  {
    var w := Overshoot(s, Accurate, if limit < 0 then 0 else limit);
    var steps :| CanRun(START_WORLD, steps, Accurate) && Run(START_WORLD, steps, Accurate) == w;
  }
}
