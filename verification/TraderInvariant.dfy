/** What holds between any two sends of the trader, and between any two events. */
module TraderInvariant {
  import opened Options
  import opened Wire
  import opened Trader
  import opened OrderStream

  function BidOf(x: Executor): Message {
    Insert(x.bidId, BUY, x.bidPrice, LOT, GOOD_FOR_DAY)
  }

  function AskOf(x: Executor): Message {
    Insert(x.askId, SELL, x.askPrice, LOT, GOOD_FOR_DAY)
  }

  /** The orders whose ids are nonzero in the executor. */
  function TrackedBid(x: Executor): Option<Message> {
    if x.bidId != 0 then Some(BidOf(x)) else None
  }

  function TrackedAsk(x: Executor): Option<Message> {
    if x.askId != 0 then Some(AskOf(x)) else None
  }

  /** The executor's own ids are sane and its record agrees with what a reader of the stream knows. */
  ghost predicate Matches(r: Replay, x: Executor) {
    && r.orderly
    && r.bid == TrackedBid(x)
    && r.ask == TrackedAsk(x)
    && 1 <= r.lastId == x.orderId
    && x.bidId <= x.orderId
    && x.askId <= x.orderId
    && (x.bidId != 0 ==> x.bidId != x.askId)
  }

  /** What holds between any two sends. */
  ghost predicate Consistent(o: Sender) {
    Matches(ReplayAll(o.log), o.exec)
  }

  /** All tracked orders have the wanted price. */
  predicate Quotes(x: Executor, bid: int, ask: int) {
    (x.bidId != 0 ==> x.bidPrice == bid) && (x.askId != 0 ==> x.askPrice == ask)
  }

  /** What holds between any two events. */
  ghost predicate Ok(t: TraderState) {
    Consistent(t.out) && Quotes(t.out.exec, t.theo - HALF_SPREAD, t.theo + HALF_SPREAD)
  }

  lemma CancelStaleBidOk(o: Sender, bid: int)
    requires Consistent(o)
    ensures Consistent(CancelStaleBid(o, bid))
  {
    var x := o.exec;
    if x.bidId != 0 && bid != x.bidPrice {
      ReplaySnoc(o.log, Cancel(x.bidId));
    }
  }

  lemma CancelStaleAskOk(o: Sender, ask: int)
    requires Consistent(o)
    ensures Consistent(CancelStaleAsk(o, ask))
  {
    var x := o.exec;
    if x.askId != 0 && ask != x.askPrice {
      ReplaySnoc(o.log, Cancel(x.askId));
    }
  }

  lemma InsertBidOk(o: Sender, bid: int)
    requires Consistent(o) && (o.exec.askId != 0 ==> o.exec.askPrice - bid == 2 * HALF_SPREAD)
    ensures Consistent(InsertBid(o, bid))
  {
    var x := o.exec;
    if x.bidId == 0 && x.position < POSITION_LIMIT {
      ReplaySnoc(o.log, Insert(x.orderId + 1, BUY, bid, LOT, GOOD_FOR_DAY));
    }
  }

  lemma InsertAskOk(o: Sender, ask: int)
    requires Consistent(o) && (o.exec.bidId != 0 ==> ask - o.exec.bidPrice == 2 * HALF_SPREAD)
    ensures Consistent(InsertAsk(o, ask))
  {
    var x := o.exec;
    if x.askId == 0 && x.position > -POSITION_LIMIT {
      ReplaySnoc(o.log, Insert(x.orderId + 1, SELL, ask, LOT, GOOD_FOR_DAY));
    }
  }

  lemma CancelStaleOk(o: Sender, bid: int, ask: int)
    requires Consistent(o)
    ensures Consistent(CancelStale(o, bid, ask)) && Quotes(CancelStale(o, bid, ask).exec, bid, ask)
  {
    CancelStaleBidOk(o, bid);
    CancelStaleAskOk(CancelStaleBid(o, bid), ask);
  }

  lemma InsertMissingOk(o: Sender, bid: int, ask: int)
    requires Consistent(o) && Quotes(o.exec, bid, ask) && ask - bid == 2 * HALF_SPREAD
    ensures Consistent(InsertMissing(o, bid, ask)) && Quotes(InsertMissing(o, bid, ask).exec, bid, ask)
  {
    InsertBidOk(o, bid);
    InsertAskOk(InsertBid(o, bid), ask);
  }

  /** executeTrades keeps the stream orderly at each of its sends and leaves only wanted quotes. */
  lemma ExecuteOk(o: Sender, bid: int, ask: int)
    requires Consistent(o) && ask - bid == 2 * HALF_SPREAD
    ensures Consistent(Execute(o, bid, ask)) && Quotes(Execute(o, bid, ask).exec, bid, ask)
  {
    CancelStaleOk(o, bid, ask);
    InsertMissingOk(CancelStale(o, bid, ask), bid, ask);
  }
}
