/** What the trader does with one event, as functions of its state: repricing from a book update,
    the cancels and inserts that follow, and position reports.  The classes of module Bot are proved
    against these functions. */
module Trader {
  import opened Wire

  datatype Instrument = FUTURE | ETF

  const LOT := 10
  const POSITION_LIMIT := 80
  const HALF_SPREAD := 100

  /** Division that truncates toward zero. */
  function CDiv(a: int, b: int): int
    requires b > 0
  {
    if a >= 0 then a / b else -((-a) / b)
  }

  datatype Executor = Executor(bidId: int, askId: int, bidPrice: int, askPrice: int, orderId: int, position: int)

  /** The executor, and everything sent so far. */
  datatype Sender = Sender(exec: Executor, log: seq<Message>)

  datatype TraderState = TraderState(theo: int, out: Sender)

  datatype Event =
    | BookUpdate(instrument: Instrument, asks: seq<int>, bids: seq<int>)
    | PositionUpdate(future: int, etf: int)

  /** Value-initialised objects: all zeros except the order id. */
  const START: TraderState := TraderState(0, Sender(Executor(0, 0, 0, 0, 1, 0), []))

  /** `FutureMidpoint::onOrderBookUpdate`. */
  function Reprice(theo: int, e: Event): int
    requires e.BookUpdate?
  {
    if e.instrument != FUTURE || |e.asks| == 0 || |e.bids| == 0 then theo
    else CDiv(CDiv(e.asks[0] + e.bids[0], 2), 100) * 100
  }

  // The four conditional sends of executeTrades, in order.

  function CancelStaleBid(o: Sender, bid: int): Sender {
    var x := o.exec;
    if x.bidId != 0 && bid != x.bidPrice then Sender(x.(bidId := 0), o.log + [Cancel(x.bidId)]) else o
  }

  function CancelStaleAsk(o: Sender, ask: int): Sender {
    var x := o.exec;
    if x.askId != 0 && ask != x.askPrice then Sender(x.(askId := 0), o.log + [Cancel(x.askId)]) else o
  }

  function InsertBid(o: Sender, bid: int): Sender {
    var x := o.exec;
    if x.bidId == 0 && x.position < POSITION_LIMIT then
      var id := x.orderId + 1;
      Sender(x.(orderId := id, bidId := id, bidPrice := bid), o.log + [Insert(id, BUY, bid, LOT, GOOD_FOR_DAY)])
    else o
  }

  function InsertAsk(o: Sender, ask: int): Sender {
    var x := o.exec;
    if x.askId == 0 && x.position > -POSITION_LIMIT then
      var id := x.orderId + 1;
      Sender(x.(orderId := id, askId := id, askPrice := ask), o.log + [Insert(id, SELL, ask, LOT, GOOD_FOR_DAY)])
    else o
  }

  function CancelStale(o: Sender, bid: int, ask: int): Sender {
    CancelStaleAsk(CancelStaleBid(o, bid), ask)
  }

  function InsertMissing(o: Sender, bid: int, ask: int): Sender {
    InsertAsk(InsertBid(o, bid), ask)
  }

  /** `SimpleExecutor::executeTrades`. */
  function Execute(o: Sender, bid: int, ask: int): Sender {
    InsertMissing(CancelStale(o, bid, ask), bid, ask)
  }

  function Handle(t: TraderState, e: Event): TraderState {
    match e
    case BookUpdate(_, _, _) =>
      var theo := Reprice(t.theo, e);
      TraderState(theo, Execute(t.out, theo - HALF_SPREAD, theo + HALF_SPREAD))
    case PositionUpdate(_, etf) => t.(out := t.out.(exec := t.out.exec.(position := etf)))
  }

  function HandleAll(t: TraderState, es: seq<Event>): TraderState
    decreases |es|
  {
    if es == [] then t else HandleAll(Handle(t, es[0]), es[1..])
  }
}
