/** Reading the exchange's messages: raw words of a book or position update to an event. */
module Inbound {
  import opened Options
  import opened Wire
  import opened Trader

  /** `sizeof(Message)`: the header and the longest member of the union. */
  const MESSAGE_SIZE := 88

  const ORDER_BOOK_UPDATE_MESSAGE_TYPE := 6
  const POSITION_UPDATE_TYPE := 8

  const WORDS := 20
  const WORDS_PER_LIST := 5

  type Word = w: int | 0 <= w < 0x1_0000_0000

  function Swap(b: seq<Byte>): (s: seq<Byte>)
    requires |b| == 4
    ensures |s| == 4
  {
    [b[3], b[2], b[1], b[0]]
  }

  /** A packed word as a little-endian host loads it. */
  function Load(b: seq<Byte>): Word
    requires |b| == 4
  {
    FromBe32(Swap(b))
  }

  /** The host's byte order reversed. */
  function Ntohl(w: Word): Word {
    FromBe32(Swap(Be32(w)))
  }

  /** Loading a packed word and converting it gives the big-endian value of its bytes. */
  lemma LoadThenNtohl(b: seq<Byte>)
    requires |b| == 4
    ensures Ntohl(Load(b)) == FromBe32(b)
  {
    FromBe32RoundTrip(Swap(b));
    assert Swap(Swap(b)) == b;
  }

  /** The nonzero words as ints, in order. */
  function NonZero(words: seq<Word>): seq<int> {
    if words == [] then []
    else
      var last := words[|words| - 1];
      NonZero(words[..|words| - 1]) + if last != 0 then [ToInt32(last)] else []
  }

  /** Where the nonzero words are. */
  function Kept(words: seq<Word>): (at: seq<nat>)
    ensures forall j :: 0 <= j < |at| ==> at[j] < |words|
  {
    if words == [] then []
    else
      var n := |words| - 1;
      Kept(words[..n]) + if words[n] != 0 then [n] else []
  }

  /** The kept places are those of the nonzero words, in order and once each. */
  lemma {:induction false} KeptAreTheNonZero(words: seq<Word>)
    ensures forall i :: 0 <= i < |words| ==> (words[i] != 0 <==> i in Kept(words))
    ensures forall j, k :: 0 <= j < k < |Kept(words)| ==> Kept(words)[j] < Kept(words)[k]
  {
    if words != [] {
      var front := words[..|words| - 1];
      KeptAreTheNonZero(front);
      assert forall i :: 0 <= i < |front| ==> words[i] == front[i];
    }
  }

  /** The list holds the words at the kept places. */
  lemma {:induction false} NonZeroIsKept(words: seq<Word>)
    ensures |NonZero(words)| == |Kept(words)|
    ensures forall j :: 0 <= j < |Kept(words)| ==> NonZero(words)[j] == ToInt32(words[Kept(words)[j]])
  {
    if words != [] {
      NonZeroIsKept(words[..|words| - 1]);
    }
  }

  /** A price list and its volume list pair the same levels up exactly when their zeros coincide. */
  lemma ListsAlignWhenZerosCoincide(prices: seq<Word>, volumes: seq<Word>)
    requires |prices| == |volumes|
    ensures Kept(prices) == Kept(volumes) <==> forall i :: 0 <= i < |prices| ==> (prices[i] == 0 <==> volumes[i] == 0)
  {
    KeptAreTheNonZero(prices);
    KeptAreTheNonZero(volumes);
    if forall i :: 0 <= i < |prices| ==> (prices[i] == 0 <==> volumes[i] == 0) {
      SameZerosSameKept(prices, volumes);
    }
  }

  lemma {:induction false} SameZerosSameKept(a: seq<Word>, b: seq<Word>)
    requires |a| == |b| && forall i :: 0 <= i < |a| ==> (a[i] == 0 <==> b[i] == 0)
    ensures Kept(a) == Kept(b)
  {
    if a != [] {
      SameZerosSameKept(a[..|a| - 1], b[..|b| - 1]);
    }
  }

  /** The four bytes of word `i` of an order book message. */
  function WordBytes(msg: seq<Byte>, i: nat): (b: seq<Byte>)
    requires |msg| == MESSAGE_SIZE && i < WORDS
    ensures |b| == 4
  {
    msg[8 + 4 * i..12 + 4 * i]
  }

  function BookWords(msg: seq<Byte>): (words: seq<Word>)
    requires |msg| == MESSAGE_SIZE
    ensures |words| == WORDS
  {
    seq(WORDS, i requires 0 <= i < WORDS => FromBe32(WordBytes(msg, i)))
  }

  /** List `k` of an order book message: ask prices, ask volumes, bid prices, bid volumes. */
  function BookList(msg: seq<Byte>, k: nat): seq<int>
    requires |msg| == MESSAGE_SIZE && k < 4
  {
    NonZero(BookWords(msg)[WORDS_PER_LIST * k..WORDS_PER_LIST * (k + 1)])
  }

  function InstrumentOf(b: Byte): Instrument {
    if b == 0 then FUTURE else ETF
  }

  /** The event a message brings, by its type: none for order status updates, which the trader
      ignores, and for unknown types. */
  function Received(msg: seq<Byte>): Option<Event>
    requires |msg| == MESSAGE_SIZE
  {
    if msg[2] == ORDER_BOOK_UPDATE_MESSAGE_TYPE then
      Some(BookUpdate(InstrumentOf(msg[3]), BookList(msg, 0), BookList(msg, 2)))
    else if msg[2] == POSITION_UPDATE_TYPE then
      Some(PositionUpdate(DecodeInt(msg[3..7]), DecodeInt(msg[7..11])))
    else None
  }

  function ReceivedAll(msgs: seq<seq<Byte>>): seq<Event>
    requires forall i :: 0 <= i < |msgs| ==> |msgs[i]| == MESSAGE_SIZE
  {
    if msgs == [] then []
    else
      var e := Received(msgs[|msgs| - 1]);
      ReceivedAll(msgs[..|msgs| - 1]) + if e.Some? then [e.value] else []
  }

  /** The sum of the best prices does not overflow an int. */
  predicate Adds(e: Option<Event>) {
    e.Some? && e.value.BookUpdate? && e.value.instrument.FUTURE? && e.value.asks != [] && e.value.bids != [] ==>
      IsInt32(e.value.asks[0] + e.value.bids[0])
  }

  // ----- whole records, field by field

  function BigEndian(w: Word): (b: seq<Byte>)
    ensures |b| == 4
  {
    [w / 0x1000000, w / 0x10000 % 0x100, w / 0x100 % 0x100, w % 0x100]
  }

  function BigEndianAll(words: seq<Word>): (b: seq<Byte>)
    ensures |b| == 4 * |words|
  {
    if words == [] then [] else BigEndian(words[0]) + BigEndianAll(words[1..])
  }

  /** An order book update as the exchange packs it. */
  function BookRecord(size: seq<Byte>, instrument: Byte, sequence: seq<Byte>, words: seq<Word>): (msg: seq<Byte>)
    requires |size| == 2 && |sequence| == 4 && |words| == 20
    ensures |msg| == 88
  {
    size + [6] + [instrument] + sequence + BigEndianAll(words)
  }

  /** A position update as the exchange packs it, in the record that it is read into. */
  function PositionRecord(size: seq<Byte>, future: Word, etf: Word, rest: seq<Byte>): (msg: seq<Byte>)
    requires |size| == 2 && |rest| == 77
    ensures |msg| == 88
  {
    size + [8] + BigEndian(future) + BigEndian(etf) + rest
  }

  lemma BigEndianIsRead(w: Word)
    ensures FromBe32(BigEndian(w)) == w
  {
    assert BigEndian(w) == Be32(w) by {
      assert w / 0x100 / 0x100 == w / 0x10000 && w / 0x100 / 0x100 / 0x100 == w / 0x1000000;
    }
    Be32RoundTrip(w);
  }

  lemma {:induction false} WordIsPacked(words: seq<Word>, i: nat)
    requires i < |words|
    ensures BigEndianAll(words)[4 * i..4 * i + 4] == BigEndian(words[i])
    decreases i
  {
    var b, head, tail := BigEndianAll(words), BigEndian(words[0]), BigEndianAll(words[1..]);
    if i == 0 {
      assert b[0..4] == head;
    } else {
      WordIsPacked(words[1..], i - 1);
      assert b[4 * i..4 * i + 4] == tail[4 * (i - 1)..4 * (i - 1) + 4];
    }
  }

  /** A packed order book update is received as an update of the FUTURE exactly for instrument 0, with
      the nonzero ones of words 0 to 4 as its asks and those of words 10 to 14 as its bids. */
  lemma BookRecordIsReceived(size: seq<Byte>, instrument: Byte, sequence: seq<Byte>, words: seq<Word>)
    requires |size| == 2 && |sequence| == 4 && |words| == 20
    ensures Received(BookRecord(size, instrument, sequence, words))
         == Some(BookUpdate(if instrument == 0 then FUTURE else ETF, NonZero(words[0..5]), NonZero(words[10..15])))
  {
    var msg, head := BookRecord(size, instrument, sequence, words), size + [6] + [instrument] + sequence;
    assert msg == head + BigEndianAll(words) && |head| == 8;
    forall i | 0 <= i < 20
      ensures FromBe32(WordBytes(msg, i)) == words[i]
    {
      WordIsPacked(words, i);
      assert WordBytes(msg, i) == BigEndianAll(words)[4 * i..4 * i + 4];
      BigEndianIsRead(words[i]);
    }
    assert BookWords(msg) == words;
    assert msg[2] == 6 && msg[3] == instrument;
  }

  /** A packed position update is received as the two positions, the future's first. */
  lemma PositionRecordIsReceived(size: seq<Byte>, future: Word, etf: Word, rest: seq<Byte>)
    requires |size| == 2 && |rest| == 77
    ensures Received(PositionRecord(size, future, etf, rest))
         == Some(PositionUpdate(if future < 0x8000_0000 then future else future - 0x1_0000_0000,
                                if etf < 0x8000_0000 then etf else etf - 0x1_0000_0000))
  {
    var msg := PositionRecord(size, future, etf, rest);
    BigEndianIsRead(future);
    BigEndianIsRead(etf);
    assert msg[2] == 8 && msg[3..7] == BigEndian(future) && msg[7..11] == BigEndian(etf);
  }

  /** No other type brings an event, and events come in the order of their messages. */
  lemma OtherTypesBringNothing(msgs: seq<seq<Byte>>, msg: seq<Byte>)
    requires |msg| == MESSAGE_SIZE && forall i :: 0 <= i < |msgs| ==> |msgs[i]| == MESSAGE_SIZE
    ensures Received(msg).Some? <==> msg[2] == 6 || msg[2] == 8
    ensures ReceivedAll([]) == []
    ensures ReceivedAll(msgs + [msg]) == ReceivedAll(msgs) + if msg[2] == 6 || msg[2] == 8 then [Received(msg).value] else []
  {
    assert (msgs + [msg])[..|msgs|] == msgs;
  }
}
