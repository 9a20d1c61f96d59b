/** Exactly what each event makes the trader send, in terms of ids, prices and the orders that are live. */
module TraderSends {
  import opened Wire
  import opened Trader
  import opened OrderStream
  import opened TraderInvariant
  import opened TraderRuns

  function CancelIf(go: bool, id: int): seq<Message> {
    if go then [Cancel(id)] else []
  }

  function InsertIf(go: bool, id: int, side: Side, price: int): seq<Message> {
    if go then [Insert(id, side, price, 10, GOOD_FOR_DAY)] else []
  }

  /** What a trader with executor `x` sends on a book update that takes the price from `was` to `now`:
      its orders are cancelled exactly if the price moves, bid first; then each side that has no order
      left is quoted if the position allows it, bid first. */
  ghost predicate SendsOnBook(x: Executor, was: int, now: int, sent: seq<Message>, next: Executor) {
    var bid := x.position < 80 && (x.bidId == 0 || now != was);
    var ask := x.position > -80 && (x.askId == 0 || now != was);
    var askId := x.orderId + (if bid then 2 else 1);
    && sent == (CancelIf(x.bidId != 0 && now != was, x.bidId) + CancelIf(x.askId != 0 && now != was, x.askId))
             + (InsertIf(bid, x.orderId + 1, BUY, now - 100) + InsertIf(ask, askId, SELL, now + 100))
    && next.bidId == (if bid then x.orderId + 1 else if now != was then 0 else x.bidId)
    && next.askId == (if ask then askId else if now != was then 0 else x.askId)
    && next.orderId == x.orderId + (if bid then 1 else 0) + (if ask then 1 else 0)
    && next.position == x.position
  }

  lemma CancelsSent(o: Sender, was: int, now: int, next: Sender)
    requires Quotes(o.exec, was - 100, was + 100) && next == CancelStale(o, now - 100, now + 100)
    ensures next.log == o.log
      + (CancelIf(o.exec.bidId != 0 && now != was, o.exec.bidId) + CancelIf(o.exec.askId != 0 && now != was, o.exec.askId))
    ensures next.exec == if now != was then o.exec.(bidId := 0, askId := 0) else o.exec
  {
  }

  lemma InsertsSent(o: Sender, now: int, next: Sender)
    requires next == InsertMissing(o, now - 100, now + 100) && o.exec.orderId >= 1
    ensures var x := o.exec;
      var bid, ask := x.position < 80 && x.bidId == 0, x.position > -80 && x.askId == 0;
      var askId := x.orderId + (if bid then 2 else 1);
      && next.log == o.log + (InsertIf(bid, x.orderId + 1, BUY, now - 100) + InsertIf(ask, askId, SELL, now + 100))
      && next.exec.bidId == (if bid then x.orderId + 1 else x.bidId)
      && next.exec.askId == (if ask then askId else x.askId)
      && next.exec.orderId == x.orderId + (if bid then 1 else 0) + (if ask then 1 else 0)
      && next.exec.position == x.position
  {
  }

  lemma TwoParts<T>(log: seq<T>, a: seq<T>, b: seq<T>, all: seq<T>)
    requires all == log + a + b
    ensures log <= all && all[|log|..] == a + b
  {
  }

  /** Over every run, a book update sends exactly that: in particular nothing at all if the price stays
      and both sides are quoted. */
  lemma BookSendsExactly(es: seq<Event>, e: Event)
    requires e.BookUpdate?
    ensures var t, next := HandleAll(START, es), HandleAll(START, es + [e]);
      && t.out.log <= next.out.log
      && SendsOnBook(t.out.exec, t.theo, next.theo, next.out.log[|t.out.log|..], next.out.exec)
  {
    StartOk();
    HandleAllOk(START, es);
    HandleAllSnoc(START, es, e);
    BookSends(HandleAll(START, es), e, HandleAll(START, es + [e]));
  }

  lemma BookSends(t: TraderState, e: Event, next: TraderState)
    requires e.BookUpdate? && next == Handle(t, e)
    requires Quotes(t.out.exec, t.theo - 100, t.theo + 100) && t.out.exec.orderId >= 1
    ensures t.out.log <= next.out.log
    ensures SendsOnBook(t.out.exec, t.theo, next.theo, next.out.log[|t.out.log|..], next.out.exec)
  {
    var x, now, moved := t.out.exec, next.theo, next.theo != t.theo;
    var cancelled := CancelStale(t.out, now - 100, now + 100);
    CancelsSent(t.out, t.theo, now, cancelled);
    InsertsSent(cancelled, now, next.out);
    var bid := x.position < 80 && (x.bidId == 0 || moved);
    var ask := x.position > -80 && (x.askId == 0 || moved);
    TwoParts(t.out.log,
             CancelIf(x.bidId != 0 && moved, x.bidId) + CancelIf(x.askId != 0 && moved, x.askId),
             InsertIf(bid, x.orderId + 1, BUY, now - 100) + InsertIf(ask, x.orderId + (if bid then 2 else 1), SELL, now + 100),
             next.out.log);
  }

  /** A position report sends nothing and changes only the known position: to the ETF's. */
  lemma ReportSendsNothing(es: seq<Event>, future: int, etf: int)
    ensures var t, next := HandleAll(START, es), HandleAll(START, es + [PositionUpdate(future, etf)]);
      next.out.log == t.out.log && next.theo == t.theo && next.out.exec == t.out.exec.(position := etf)
  {
    HandleAllSnoc(START, es, PositionUpdate(future, etf));
  }

  /** The ids of the inserts are consecutive from `start` on. */
  ghost predicate IdsFrom(log: seq<Message>, start: int) {
    forall k :: 0 <= k < |log| && log[k].Insert? ==> log[k].id == start + Inserts(log[..k])
  }

  lemma IdsGoOn(log: seq<Message>, part: seq<Message>, start: int)
    requires IdsFrom(log, start) && IdsFrom(part, start + Inserts(log))
    ensures IdsFrom(log + part, start) && Inserts(log + part) == Inserts(log) + Inserts(part)
  {
    InsertsAppend(log, part);
    forall k | 0 <= k < |log + part| && (log + part)[k].Insert?
      ensures (log + part)[k].id == start + Inserts((log + part)[..k])
    {
      if k < |log| {
        assert (log + part)[..k] == log[..k];
      } else {
        assert (log + part)[..k] == log + part[..k - |log|];
        InsertsAppend(log, part[..k - |log|]);
      }
    }
  }

  lemma AtMostOneId(part: seq<Message>, start: int)
    requires |part| <= 1 && (|part| == 1 && part[0].Insert? ==> part[0].id == start)
    ensures IdsFrom(part, start) && Inserts(part) == if |part| == 1 && part[0].Insert? then 1 else 0
  {
    if |part| == 1 {
      assert part[..0] == [];
    }
  }

  lemma CancelPairIds(a: seq<Message>, b: seq<Message>, start: int)
    requires |a| <= 1 && |b| <= 1 && (|a| == 1 ==> a[0].Cancel?) && (|b| == 1 ==> b[0].Cancel?)
    ensures IdsFrom(a + b, start) && Inserts(a + b) == 0
  {
    AtMostOneId(a, start);
    AtMostOneId(b, start);
    IdsGoOn(a, b, start);
  }

  lemma InsertPairIds(c: seq<Message>, d: seq<Message>, start: int)
    requires |c| <= 1 && (|c| == 1 ==> c[0].Insert? && c[0].id == start)
    requires |d| <= 1 && (|d| == 1 ==> d[0].Insert? && d[0].id == start + |c|)
    ensures IdsFrom(c + d, start) && Inserts(c + d) == |c| + |d|
  {
    AtMostOneId(c, start);
    AtMostOneId(d, start + |c|);
    IdsGoOn(c, d, start);
  }

  lemma PartsIds(cancelBid: bool, bidId: int, cancelAsk: bool, askId: int, bid: bool, ask: bool, start: int, now: int)
    ensures var sent := (CancelIf(cancelBid, bidId) + CancelIf(cancelAsk, askId))
              + (InsertIf(bid, start, BUY, now - 100) + InsertIf(ask, start + (if bid then 1 else 0), SELL, now + 100));
            IdsFrom(sent, start) && Inserts(sent) == (if bid then 1 else 0) + (if ask then 1 else 0)
  {
    var a, b := CancelIf(cancelBid, bidId), CancelIf(cancelAsk, askId);
    var c, d := InsertIf(bid, start, BUY, now - 100), InsertIf(ask, start + (if bid then 1 else 0), SELL, now + 100);
    CancelPairIds(a, b, start);
    InsertPairIds(c, d, start);
    IdsGoOn(a + b, c + d, start);
  }

  lemma SentIds(x: Executor, was: int, now: int, sent: seq<Message>, next: Executor)
    requires SendsOnBook(x, was, now, sent, next)
    ensures IdsFrom(sent, x.orderId + 1) && next.orderId == x.orderId + Inserts(sent)
  {
    PartsIds(x.bidId != 0 && now != was, x.bidId, x.askId != 0 && now != was, x.askId,
             x.position < 80 && (x.bidId == 0 || now != was), x.position > -80 && (x.askId == 0 || now != was),
             x.orderId + 1, now);
  }

  lemma IdsStep(log: seq<Message>, sent: seq<Message>, all: seq<Message>)
    requires IdsFrom(log, 2) && IdsFrom(sent, 2 + Inserts(log)) && log <= all && sent == all[|log|..]
    ensures IdsFrom(all, 2) && Inserts(all) == Inserts(log) + Inserts(sent)
  {
    IdsGoOn(log, sent, 2);
    assert all == log + sent;
  }

  lemma EventIds(t: TraderState, e: Event, next: TraderState)
    requires next == Handle(t, e) && Ok(t)
    requires t.out.exec.orderId == 1 + Inserts(t.out.log) && IdsFrom(t.out.log, 2)
    ensures next.out.exec.orderId == 1 + Inserts(next.out.log) && IdsFrom(next.out.log, 2)
  {
    if e.BookUpdate? {
      BookSends(t, e, next);
      var sent := next.out.log[|t.out.log|..];
      SentIds(t.out.exec, t.theo, next.theo, sent, next.out.exec);
      IdsStep(t.out.log, sent, next.out.log);
    }
  }

  /** Insert ids are consecutive, from 2 on. */
  lemma {:induction false} IdsAreConsecutive(es: seq<Event>)
    ensures var o := HandleAll(START, es).out;
      o.exec.orderId == 1 + Inserts(o.log) && IdsFrom(o.log, 2)
    decreases |es|
  {
    if es != [] {
      var front, e := es[..|es| - 1], es[|es| - 1];
      assert es == front + [e];
      IdsAreConsecutive(front);
      StartOk();
      HandleAllOk(START, front);
      HandleAllSnoc(START, front, e);
      EventIds(HandleAll(START, front), e, HandleAll(START, es));
    }
  }

  lemma {:induction false} InsertsAppend(a: seq<Message>, b: seq<Message>)
    ensures Inserts(a + b) == Inserts(a) + Inserts(b)
    decreases |b|
  {
    if b == [] {
      assert a + b == a;
    } else {
      assert (a + b)[..|a + b| - 1] == a + b[..|b| - 1];
      InsertsAppend(a, b[..|b| - 1]);
    }
  }
}
