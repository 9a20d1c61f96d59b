/** The trading stack as objects that change in place: decode, reprice, trade, encode. */
module Bot {
  import opened Options
  import opened Wire
  import opened Trader
  import opened TraderRuns
  import opened Inbound

  class FutureMidpoint {
    var theoPrice: int

    constructor ()
      ensures theoPrice == 0
    {
      theoPrice := 0;
    }

    function CalculateTheoPrice(): int
      reads this
    {
      theoPrice
    }

    method OnOrderBookUpdate(instrument: Instrument, asks: seq<int>, bids: seq<int>)
      modifies this
      ensures theoPrice == Reprice(old(theoPrice), BookUpdate(instrument, asks, bids))
    {
      if instrument != FUTURE || |asks| == 0 || |bids| == 0 {
        return;
      }
      theoPrice := CDiv(CDiv(asks[0] + bids[0], 2), 100) * 100;
    }
  }

  /** Writes a field of a packed message. */
  method Put(msg: array<Byte>, at: nat, field: seq<Byte>)
    requires at + |field| <= msg.Length
    modifies msg
    ensures msg[..at + |field|] == old(msg[..at]) + field && msg[at + |field|..] == old(msg[at + |field|..])
  {
    forall i | 0 <= i < |field| {
      msg[at + i] := field[i];
    }
  }

  /** After `i` words: full lists, then one that may still grow. */
  ghost predicate Listed(book: seq<seq<int>>, words: seq<Word>, i: nat)
    requires i <= |words|
  {
    if book == [] then i == 0
    else
      var last := |book| - 1;
      && WORDS_PER_LIST * last <= i <= WORDS_PER_LIST * |book|
      && book[last] == NonZero(words[WORDS_PER_LIST * last..i])
      && forall k :: 0 <= k < last ==> book[k] == NonZero(words[WORDS_PER_LIST * k..WORDS_PER_LIST * (k + 1)])
  }

  /** The loop of handleOrderBookUpdate, for any byte order of the host: converts the twenty loaded
      words in place and sorts them into four lists without their zeros. */
  method ReadBook(prices: array<Word>, ntohl: Word -> Word) returns (book: seq<seq<int>>)
    requires prices.Length == WORDS
    modifies prices
    ensures forall k :: 0 <= k < WORDS ==> prices[k] == ntohl(old(prices[k]))
    ensures |book| == 4
    ensures forall k :: 0 <= k < 4 ==> book[k] == NonZero(prices[WORDS_PER_LIST * k..WORDS_PER_LIST * (k + 1)])
  {
    ghost var words := seq(WORDS, k requires 0 <= k < WORDS => ntohl(old(prices[k])));
    book := [];
    var i: nat := 0;
    while i < WORDS
      invariant i <= WORDS && Listed(book, words, i)
      invariant book != [] ==> WORDS_PER_LIST * (|book| - 1) < i
      invariant forall k :: 0 <= k < WORDS ==> prices[k] == if k < i then words[k] else old(prices[k])
    {
      ghost var was := book;
      if i % WORDS_PER_LIST == 0 {
        book := book + [[]];
      }
      ghost var grown := book;
      prices[i] := ntohl(prices[i]);
      // a zero word marks an absent level
      if prices[i] != 0 {
        book := book[|book| - 1 := book[|book| - 1] + [ToInt32(prices[i])]];
      }
      StepListed(was, grown, book, words, i);
      i := i + 1;
    }
    assert prices[..] == words;
  }

  lemma StepListed(was: seq<seq<int>>, grown: seq<seq<int>>, book: seq<seq<int>>, words: seq<Word>, i: nat)
    requires i < |words| && Listed(was, words, i) && (was != [] ==> WORDS_PER_LIST * (|was| - 1) < i)
    requires grown == (if i % WORDS_PER_LIST == 0 then was + [[]] else was) && grown != []
    requires var last := |grown| - 1;
             book == if words[i] != 0 then grown[last := grown[last] + [ToInt32(words[i])]] else grown
    ensures book != [] && WORDS_PER_LIST * (|book| - 1) < i + 1 && Listed(book, words, i + 1)
  {
    if i % WORDS_PER_LIST == 0 {
      NewListListed(was, words, i);
    }
    OneMoreListed(grown, book, words, i);
  }

  lemma NewListListed(book: seq<seq<int>>, words: seq<Word>, i: nat)
    requires i <= |words| && Listed(book, words, i) && i % WORDS_PER_LIST == 0
    requires book != [] ==> WORDS_PER_LIST * (|book| - 1) < i
    ensures i == WORDS_PER_LIST * |book| && Listed(book + [[]], words, i)
  {
    assert words[i..i] == [];
  }

  lemma OneMoreListed(grown: seq<seq<int>>, book: seq<seq<int>>, words: seq<Word>, i: nat)
    requires i < |words| && grown != [] && Listed(grown, words, i) && i < WORDS_PER_LIST * |grown|
    requires var last := |grown| - 1;
             book == if words[i] != 0 then grown[last := grown[last] + [ToInt32(words[i])]] else grown
    ensures |book| == |grown| && Listed(book, words, i + 1)
  {
    NonZeroOneMore(words, WORDS_PER_LIST * (|book| - 1), i);
  }

  lemma NonZeroOneMore(words: seq<Word>, from: nat, to: nat)
    requires from <= to < |words|
    ensures NonZero(words[from..to + 1]) == NonZero(words[from..to]) + if words[to] != 0 then [ToInt32(words[to])] else []
  {
    assert words[from..to + 1][..to - from] == words[from..to];
  }

  class MarketLink {
    /** All bytes sent on the execution channel. */
    var wire: seq<Byte>
    var autoTrader: AutoTrader?
    ghost var log: seq<Message>

    /** The bytes sent are the orders sent. */
    ghost predicate Valid()
      reads this
    {
      (forall i :: 0 <= i < |log| ==> Fits(log[i])) && wire == EncodeAll(log)
    }

    constructor ()
      ensures Valid() && log == [] && autoTrader == null
    {
      wire, log, autoTrader := [], [], null;
    }

    ghost method Sent(m: Message, b: seq<Byte>)
      requires (forall i :: 0 <= i < |log| ==> Fits(log[i])) && Fits(m) && b == Encode(m)
      requires wire == EncodeAll(log) + b
      modifies `log
      ensures Valid() && log == old(log) + [m]
    {
      EncodeAllAppend(log, [m]);
      EncodeOneMore(m, []);
      assert [m] + [] == [m];
      assert EncodeAll([m]) == b + [];
      log := log + [m];
    }

    method CancelOrder(orderId: int)
      requires Valid() && IsInt32(orderId)
      modifies `wire, `log
      ensures Valid() && log == old(log) + [Cancel(orderId)]
      ensures old(wire) <= wire && CancelBytes(wire[|old(wire)|..], orderId)
    {
      var msg := new Byte[MESSAGE_SIZE];
      Put(msg, 0, Be16(CANCEL_MESSAGE_SIZE));
      Put(msg, 2, [CANCEL_MESSAGE_TYPE]);
      Put(msg, 3, Be32(ToUint32(orderId)));
      assert msg[..CANCEL_MESSAGE_SIZE] == Encode(Cancel(orderId));
      wire := wire + msg[..CANCEL_MESSAGE_SIZE];
      Sent(Cancel(orderId), msg[..CANCEL_MESSAGE_SIZE]);
      EncodedBytes(Cancel(orderId));
      assert wire[|old(wire)|..] == Encode(Cancel(orderId));
    }

    method InsertOrder(id: int, side: Side, price: int, volume: int, lifespan: Lifespan)
      requires Valid() && Fits(Insert(id, side, price, volume, lifespan))
      modifies `wire, `log
      ensures Valid() && log == old(log) + [Insert(id, side, price, volume, lifespan)]
      ensures old(wire) <= wire && InsertBytes(wire[|old(wire)|..], id, side, price, volume, lifespan)
    {
      var msg := new Byte[MESSAGE_SIZE];
      Put(msg, 0, Be16(INSERT_MESSAGE_SIZE));
      Put(msg, 2, [INSERT_MESSAGE_TYPE]);
      Put(msg, 3, Be32(ToUint32(id)));
      Put(msg, 7, [SideByte(side)]);
      Put(msg, 8, Be32(ToUint32(price)));
      Put(msg, 12, Be32(ToUint32(volume)));
      Put(msg, 16, [LifespanByte(lifespan)]);
      assert msg[..INSERT_MESSAGE_SIZE] == Encode(Insert(id, side, price, volume, lifespan));
      wire := wire + msg[..INSERT_MESSAGE_SIZE];
      Sent(Insert(id, side, price, volume, lifespan), msg[..INSERT_MESSAGE_SIZE]);
      EncodedBytes(Insert(id, side, price, volume, lifespan));
      assert wire[|old(wire)|..] == Encode(Insert(id, side, price, volume, lifespan));
    }

    /** Registered both ways, and everything in range. */
    ghost predicate Ready()
      reads this, autoTrader, if autoTrader != null then {autoTrader.pricingModel, autoTrader.executor} else {}
    {
      Valid() && autoTrader != null && autoTrader.marketLink == this && autoTrader.Valid()
    }

    /** What the whole stack amounts to. */
    ghost function Abstract(): TraderState
      reads this, autoTrader, if autoTrader != null then {autoTrader.pricingModel, autoTrader.executor} else {}
      requires Ready()
    {
      TraderState(autoTrader.pricingModel.theoPrice, Sender(autoTrader.executor.Abstract(), log))
    }

    method HandleOrderBookUpdate(msg: seq<Byte>)
      requires |msg| == MESSAGE_SIZE && msg[2] == ORDER_BOOK_UPDATE_MESSAGE_TYPE
      requires Ready() && autoTrader.executor.orderId + 2 <= 0x7FFF_FFFF && Adds(Received(msg))
      modifies `wire, `log, autoTrader.pricingModel, autoTrader.executor
      ensures Ready() && Abstract() == Handle(old(Abstract()), Received(msg).value)
      ensures autoTrader.executor.orderId <= old(autoTrader.executor.orderId) + 2
    {
      var prices := new Word[WORDS](i requires 0 <= i < WORDS => Load(WordBytes(msg, i)));
      forall k | 0 <= k < WORDS
        ensures Ntohl(prices[k]) == BookWords(msg)[k]
      {
        LoadThenNtohl(WordBytes(msg, k));
      }
      var book := ReadBook(prices, Ntohl);
      assert prices[..] == BookWords(msg);
      autoTrader.OnOrderBookUpdate(InstrumentOf(msg[3]), book[0], book[1], book[2], book[3]);
    }

    method HandlePositionUpdate(msg: seq<Byte>)
      requires |msg| == MESSAGE_SIZE && msg[2] == POSITION_UPDATE_TYPE && Ready()
      modifies autoTrader.executor
      ensures Ready() && Abstract() == Handle(old(Abstract()), Received(msg).value)
      ensures autoTrader.executor.orderId == old(autoTrader.executor.orderId)
    {
      LoadThenNtohl(msg[3..7]);
      LoadThenNtohl(msg[7..11]);
      var etf := ToInt32(Ntohl(Load(msg[7..11])));
      var future := ToInt32(Ntohl(Load(msg[3..7])));
      autoTrader.OnPositionUpdate(future, etf);
    }

    /** The loop over received messages, one complete message per read. */
    method RunLoop(msgs: seq<seq<Byte>>)
      requires forall i :: 0 <= i < |msgs| ==> |msgs[i]| == MESSAGE_SIZE && Adds(Received(msgs[i]))
      requires Ready() && autoTrader.executor.orderId + 2 * |msgs| <= 0x7FFF_FFFF
      modifies `wire, `log, autoTrader.pricingModel, autoTrader.executor
      ensures Ready() && Abstract() == HandleAll(old(Abstract()), ReceivedAll(msgs))
    {
      var n := 0;
      assert msgs[..0] == [];
      while n < |msgs|
        invariant 0 <= n <= |msgs|
        invariant autoTrader == old(autoTrader) && Ready()
        invariant autoTrader.executor.orderId + 2 * (|msgs| - n) <= 0x7FFF_FFFF
        invariant Abstract() == HandleAll(old(Abstract()), ReceivedAll(msgs[..n]))
      {
        var msg := msgs[n];
        RunOneMore(old(Abstract()), msgs, n);
        if msg[2] == ORDER_BOOK_UPDATE_MESSAGE_TYPE {
          HandleOrderBookUpdate(msg);
        } else if msg[2] == POSITION_UPDATE_TYPE {
          HandlePositionUpdate(msg);
        }
        n := n + 1;
      }
      assert msgs[..|msgs|] == msgs;
    }
  }

  lemma RunOneMore(t: TraderState, msgs: seq<seq<Byte>>, n: nat)
    requires n < |msgs| && forall i :: 0 <= i < |msgs| ==> |msgs[i]| == MESSAGE_SIZE
    ensures var now, e := HandleAll(t, ReceivedAll(msgs[..n])), Received(msgs[n]);
            HandleAll(t, ReceivedAll(msgs[..n + 1])) == if e.Some? then Handle(now, e.value) else now
  {
    var front, e := ReceivedAll(msgs[..n]), Received(msgs[n]);
    assert msgs[..n + 1][..n] == msgs[..n];
    if e.Some? {
      HandleAllSnoc(t, front, e.value);
    } else {
      assert front + [] == front;
    }
  }

  class SimpleExecutor {
    var bidId: int
    var askId: int
    var bidPrice: int
    var askPrice: int
    var orderId: int
    var position: int

    ghost predicate Valid()
      reads this
    {
      0 <= bidId <= orderId && 0 <= askId <= orderId && 1 <= orderId <= 0x7FFF_FFFF
    }

    ghost function Abstract(): Executor
      reads this
    {
      Executor(bidId, askId, bidPrice, askPrice, orderId, position)
    }

    /** Value-initialised: all zeros except the order id. */
    constructor ()
      ensures Valid() && Abstract() == START.out.exec
    {
      bidId, askId, bidPrice, askPrice, orderId, position := 0, 0, 0, 0, 1, 0;
    }

    /** The first half of executeTrades: cancels the orders with a stale price. */
    method CancelStaleOrders(marketLink: MarketLink, bid: int, ask: int)
      requires Valid() && marketLink.Valid()
      modifies `bidId, `askId, marketLink`wire, marketLink`log
      ensures Valid() && marketLink.Valid()
      ensures Sender(Abstract(), marketLink.log) == CancelStale(Sender(old(Abstract()), old(marketLink.log)), bid, ask)
    {
      if bidId != 0 && bid != bidPrice {
        marketLink.CancelOrder(bidId);
        bidId := 0;
      }
      if askId != 0 && ask != askPrice {
        marketLink.CancelOrder(askId);
        askId := 0;
      }
    }

    /** The second half of executeTrades: quotes each side that has no order, within the position limit. */
    method InsertMissingOrders(marketLink: MarketLink, bid: int, ask: int)
      requires Valid() && marketLink.Valid() && IsInt32(bid) && IsInt32(ask) && orderId + 2 <= 0x7FFF_FFFF
      modifies this, marketLink`wire, marketLink`log
      ensures Valid() && marketLink.Valid() && orderId <= old(orderId) + 2
      ensures Sender(Abstract(), marketLink.log) == InsertMissing(Sender(old(Abstract()), old(marketLink.log)), bid, ask)
    {
      QuoteBid(marketLink, bid);
      QuoteAsk(marketLink, ask);
    }

    method QuoteBid(marketLink: MarketLink, bid: int)
      requires Valid() && marketLink.Valid() && IsInt32(bid) && orderId + 1 <= 0x7FFF_FFFF
      modifies this, marketLink`wire, marketLink`log
      ensures Valid() && marketLink.Valid() && orderId <= old(orderId) + 1
      ensures Sender(Abstract(), marketLink.log) == InsertBid(Sender(old(Abstract()), old(marketLink.log)), bid)
    {
      if bidId == 0 && position < POSITION_LIMIT {
        orderId := orderId + 1;
        bidId := orderId;
        bidPrice := bid;
        marketLink.InsertOrder(bidId, BUY, bidPrice, LOT, GOOD_FOR_DAY);
      }
    }

    method QuoteAsk(marketLink: MarketLink, ask: int)
      requires Valid() && marketLink.Valid() && IsInt32(ask) && orderId + 1 <= 0x7FFF_FFFF
      modifies this, marketLink`wire, marketLink`log
      ensures Valid() && marketLink.Valid() && orderId <= old(orderId) + 1
      ensures Sender(Abstract(), marketLink.log) == InsertAsk(Sender(old(Abstract()), old(marketLink.log)), ask)
    {
      if askId == 0 && position > -POSITION_LIMIT {
        orderId := orderId + 1;
        askId := orderId;
        askPrice := ask;
        marketLink.InsertOrder(askId, SELL, askPrice, LOT, GOOD_FOR_DAY);
      }
    }

    method ExecuteTrades(marketLink: MarketLink, bid: int, ask: int)
      requires Valid() && marketLink.Valid() && IsInt32(bid) && IsInt32(ask) && orderId + 2 <= 0x7FFF_FFFF
      modifies this, marketLink`wire, marketLink`log
      ensures Valid() && marketLink.Valid() && orderId <= old(orderId) + 2
      ensures Sender(Abstract(), marketLink.log) == Execute(Sender(old(Abstract()), old(marketLink.log)), bid, ask)
    {
      CancelStaleOrders(marketLink, bid, ask);
      InsertMissingOrders(marketLink, bid, ask);
    }

    method OnPositionUpdate(future: int, etf: int)
      requires Valid()
      modifies `position
      ensures Valid() && Abstract() == old(Abstract()).(position := etf)
    {
      position := etf;
    }
  }

  class AutoTrader {
    const pricingModel: FutureMidpoint
    const executor: SimpleExecutor
    var marketLink: MarketLink?

    ghost predicate Valid()
      reads this, pricingModel, executor
    {
      executor.Valid() && -0x4000_0000 <= pricingModel.theoPrice <= 0x4000_0000
    }

    constructor (pricingModel: FutureMidpoint, executor: SimpleExecutor)
      ensures this.pricingModel == pricingModel && this.executor == executor && marketLink == null
    {
      this.pricingModel, this.executor, marketLink := pricingModel, executor, null;
    }

    method OnOrderBookUpdate(instrument: Instrument, askPrices: seq<int>, askVolumes: seq<int>,
                             bidPrices: seq<int>, bidVolumes: seq<int>)
      requires Valid() && marketLink != null && marketLink.Valid() && executor.orderId + 2 <= 0x7FFF_FFFF
      requires Adds(Some(BookUpdate(instrument, askPrices, bidPrices)))
      modifies pricingModel, executor, marketLink`wire, marketLink`log
      ensures Valid() && marketLink.Valid() && executor.orderId <= old(executor.orderId) + 2
      ensures TraderState(pricingModel.theoPrice, Sender(executor.Abstract(), marketLink.log))
           == Handle(TraderState(old(pricingModel.theoPrice), Sender(old(executor.Abstract()), old(marketLink.log))),
                     BookUpdate(instrument, askPrices, bidPrices))
    {
      pricingModel.OnOrderBookUpdate(instrument, askPrices, bidPrices);
      var theoPrice := pricingModel.CalculateTheoPrice();
      executor.ExecuteTrades(marketLink, theoPrice - HALF_SPREAD, theoPrice + HALF_SPREAD);
    }

    method OnPositionUpdate(future: int, etf: int)
      requires executor.Valid()
      modifies executor`position
      ensures executor.Valid() && executor.Abstract() == old(executor.Abstract()).(position := etf)
    {
      executor.OnPositionUpdate(future, etf);
    }
  }

  /** One whole session from start-up: whatever complete messages arrive, the bytes sent cut back by
      their size headers into exactly the orders that the events call for. */
  method Session(msgs: seq<seq<Byte>>) returns (wire: seq<Byte>)
    requires forall i :: 0 <= i < |msgs| ==> |msgs[i]| == MESSAGE_SIZE && Adds(Received(msgs[i]))
    requires 1 + 2 * |msgs| <= 0x7FFF_FFFF
    ensures Parse(wire) == Some(HandleAll(START, ReceivedAll(msgs)).out.log)
    ensures Spells(wire, HandleAll(START, ReceivedAll(msgs)).out.log)
  {
    var marketLink := new MarketLink();
    var pricingModel := new FutureMidpoint();
    var executor := new SimpleExecutor();
    var trader := new AutoTrader(pricingModel, executor);
    marketLink.autoTrader := trader;
    trader.marketLink := marketLink;
    marketLink.RunLoop(msgs);
    wire := marketLink.wire;
    ParseEncoded(marketLink.log);
    EncodingSpells(marketLink.log);
  }
}
