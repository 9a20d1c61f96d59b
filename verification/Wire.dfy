/** Orders as bytes on the execution channel: packed fields in network byte order. */
module Wire {
  import opened Options

  type Byte = b: int | 0 <= b < 256

  datatype Side = SELL | BUY
  datatype Lifespan = FILL_AND_KILL | GOOD_FOR_DAY

  const CANCEL_MESSAGE_SIZE := 7
  const INSERT_MESSAGE_SIZE := 17
  const CANCEL_MESSAGE_TYPE := 2
  const INSERT_MESSAGE_TYPE := 4

  datatype Message =
    | Insert(id: int, side: Side, price: int, volume: int, lifespan: Lifespan)
    | Cancel(id: int)

  predicate IsInt32(x: int) {
    -0x8000_0000 <= x < 0x8000_0000
  }

  /** The fields fit the C++ ints they are stored in. */
  predicate Fits(m: Message) {
    IsInt32(m.id) && (m.Insert? ==> IsInt32(m.price) && IsInt32(m.volume))
  }

  // ----- integers

  /** Two's complement. */
  function ToUint32(x: int): (u: nat)
    requires IsInt32(x)
    ensures u < 0x1_0000_0000
  {
    if x < 0 then x + 0x1_0000_0000 else x
  }

  function ToInt32(u: nat): (x: int)
    requires u < 0x1_0000_0000
    ensures IsInt32(x) && ToUint32(x) == u
  {
    if u < 0x8000_0000 then u else u - 0x1_0000_0000
  }

  function Be16(u: nat): seq<Byte>
    requires u < 0x1_0000
  {
    [u / 0x100, u % 0x100]
  }

  function FromBe16(b: seq<Byte>): (u: nat)
    requires |b| == 2
    ensures u < 0x1_0000
  {
    var high: int := b[0];
    high * 0x100 + b[1]
  }

  /** `htonl` as it lies in memory: most significant byte first. */
  function Be32(u: nat): (b: seq<Byte>)
    requires u < 0x1_0000_0000
    ensures |b| == 4
  {
    [u / 0x100 / 0x100 / 0x100, u / 0x100 / 0x100 % 0x100, u / 0x100 % 0x100, u % 0x100]
  }

  function FromBe32(b: seq<Byte>): (u: nat)
    requires |b| == 4
    ensures u < 0x1_0000_0000
  {
    var high: int := b[0];
    ((high * 0x100 + b[1]) * 0x100 + b[2]) * 0x100 + b[3]
  }

  lemma Be32RoundTrip(u: nat)
    requires u < 0x1_0000_0000
    ensures FromBe32(Be32(u)) == u
  {
  }

  lemma FromBe32RoundTrip(b: seq<Byte>)
    requires |b| == 4
    ensures Be32(FromBe32(b)) == b
  {
    var u0: int := b[0];
    var u1 := u0 * 0x100 + b[1];
    var u2 := u1 * 0x100 + b[2];
    var u := u2 * 0x100 + b[3];
    assert u / 0x100 == u2 && u2 / 0x100 == u1 && u1 / 0x100 == u0;
  }

  function EncodeInt(x: int): seq<Byte>
    requires IsInt32(x)
  {
    Be32(ToUint32(x))
  }

  function DecodeInt(b: seq<Byte>): (x: int)
    requires |b| == 4
    ensures IsInt32(x)
  {
    ToInt32(FromBe32(b))
  }

  lemma IntRoundTrip(x: int)
    requires IsInt32(x)
    ensures |EncodeInt(x)| == 4 && DecodeInt(EncodeInt(x)) == x
  {
    Be32RoundTrip(ToUint32(x));
  }

  lemma BytesRoundTrip(b: seq<Byte>)
    requires |b| == 4
    ensures EncodeInt(DecodeInt(b)) == b
  {
    FromBe32RoundTrip(b);
  }

  // ----- messages

  function SideByte(s: Side): Byte {
    if s.BUY? then 1 else 0
  }

  function LifespanByte(l: Lifespan): Byte {
    if l.GOOD_FOR_DAY? then 1 else 0
  }

  /** What one `send` puts on the wire. */
  function Encode(m: Message): (b: seq<Byte>)
    requires Fits(m)
    ensures |b| == if m.Insert? then INSERT_MESSAGE_SIZE else CANCEL_MESSAGE_SIZE
  {
    match m
    case Cancel(id) =>
      Be16(CANCEL_MESSAGE_SIZE) + [CANCEL_MESSAGE_TYPE] + EncodeInt(id)
    case Insert(id, side, price, volume, lifespan) =>
      Be16(INSERT_MESSAGE_SIZE) + [INSERT_MESSAGE_TYPE] + EncodeInt(id) + [SideByte(side)]
      + EncodeInt(price) + EncodeInt(volume) + [LifespanByte(lifespan)]
  }

  function EncodeAll(ms: seq<Message>): seq<Byte>
    requires forall i :: 0 <= i < |ms| ==> Fits(ms[i])
  {
    if ms == [] then [] else Encode(ms[0]) + EncodeAll(ms[1..])
  }

  /** A whole message, read by its type. */
  function Decode(b: seq<Byte>): (m: Option<Message>)
    ensures m.Some? ==> Fits(m.value)
  {
    if |b| == CANCEL_MESSAGE_SIZE && b[2] == CANCEL_MESSAGE_TYPE then
      Some(Cancel(DecodeInt(b[3..7])))
    else if |b| == INSERT_MESSAGE_SIZE && b[2] == INSERT_MESSAGE_TYPE && b[7] < 2 && b[16] < 2 then
      Some(Insert(DecodeInt(b[3..7]), if b[7] == 1 then BUY else SELL, DecodeInt(b[8..12]), DecodeInt(b[12..16]),
                  if b[16] == 1 then GOOD_FOR_DAY else FILL_AND_KILL))
    else None
  }

  /** Cuts a stream by the size headers. */
  function Parse(b: seq<Byte>): (ms: Option<seq<Message>>)
    ensures ms.Some? ==> forall i :: 0 <= i < |ms.value| ==> Fits(ms.value[i])
  {
    if b == [] then Some([])
    else if |b| < 3 then None
    else
      var size := FromBe16(b[..2]);
      if size < 3 || |b| < size then None
      else
        var m := Decode(b[..size]);
        var rest := Parse(b[size..]);
        if m.Some? && rest.Some? then Some([m.value] + rest.value) else None
  }

  lemma CancelRoundTrip(id: int)
    requires IsInt32(id)
    ensures var b := Encode(Cancel(id)); FromBe16(b[..2]) == |b| && Decode(b) == Some(Cancel(id))
  {
    var b := Encode(Cancel(id));
    IntRoundTrip(id);
    assert b[..2] == Be16(CANCEL_MESSAGE_SIZE);
    assert b[3..7] == EncodeInt(id);
  }

  lemma InsertRoundTrip(m: Message)
    requires m.Insert? && Fits(m)
    ensures var b := Encode(m); FromBe16(b[..2]) == |b| && Decode(b) == Some(m)
  {
    var b := Encode(m);
    IntRoundTrip(m.id);
    IntRoundTrip(m.price);
    IntRoundTrip(m.volume);
    assert b[..2] == Be16(INSERT_MESSAGE_SIZE);
    assert b[3..7] == EncodeInt(m.id);
    assert b[8..12] == EncodeInt(m.price);
    assert b[12..16] == EncodeInt(m.volume);
  }

  /** Whatever decodes was encoded that way. */
  lemma DecodeIsExact(b: seq<Byte>)
    requires |b| >= 3 && FromBe16(b[..2]) == |b| && Decode(b).Some?
    ensures Encode(Decode(b).value) == b
  {
    var m := Decode(b).value;
    BytesRoundTrip(b[3..7]);
    assert b[..2] == Be16(|b|);
    if m.Cancel? {
      assert b == b[..2] + [b[2]] + b[3..7];
    } else {
      BytesRoundTrip(b[8..12]);
      BytesRoundTrip(b[12..16]);
      assert b == b[..2] + [b[2]] + b[3..7] + [b[7]] + b[8..12] + b[12..16] + [b[16]];
    }
  }

  lemma {:induction false} ParseEncoded(ms: seq<Message>)
    requires forall i :: 0 <= i < |ms| ==> Fits(ms[i])
    ensures Parse(EncodeAll(ms)) == Some(ms)
    decreases |ms|
  {
    if ms != [] {
      var b, m := EncodeAll(ms), Encode(ms[0]);
      if ms[0].Insert? {
        InsertRoundTrip(ms[0]);
      } else {
        CancelRoundTrip(ms[0].id);
      }
      assert b[..2] == m[..2];
      assert b[..|m|] == m && b[|m|..] == EncodeAll(ms[1..]);
      ParseEncoded(ms[1..]);
      assert ms == [ms[0]] + ms[1..];
    }
  }

  lemma EncodeOneMore(m: Message, ms: seq<Message>)
    requires Fits(m) && forall i :: 0 <= i < |ms| ==> Fits(ms[i])
    ensures EncodeAll([m] + ms) == Encode(m) + EncodeAll(ms)
  {
    assert ([m] + ms)[1..] == ms;
  }

  lemma {:induction false} ParsedIsEncoded(b: seq<Byte>)
    requires Parse(b).Some?
    ensures EncodeAll(Parse(b).value) == b
    decreases |b|
  {
    if b != [] {
      var size := FromBe16(b[..2]);
      var head, tail := b[..size], b[size..];
      assert head[..2] == b[..2];
      DecodeIsExact(head);
      ParsedIsEncoded(tail);
      EncodeOneMore(Decode(head).value, Parse(tail).value);
      assert b == head + tail;
    }
  }

  /** A byte stream parses to a list of orders exactly when it is their encoding: nothing is lost,
      confused or added, negative prices included. */
  lemma StreamsAreUnambiguous(b: seq<Byte>, ms: seq<Message>)
    requires forall i :: 0 <= i < |ms| ==> Fits(ms[i])
    ensures Parse(b) == Some(ms) <==> b == EncodeAll(ms)
  {
    ParseEncoded(ms);
    if Parse(b).Some? {
      ParsedIsEncoded(b);
    }
  }

  lemma {:induction false} EncodeAllAppend(a: seq<Message>, b: seq<Message>)
    requires forall i :: 0 <= i < |a| ==> Fits(a[i])
    requires forall i :: 0 <= i < |b| ==> Fits(b[i])
    ensures EncodeAll(a + b) == EncodeAll(a) + EncodeAll(b)
    decreases |a|
  {
    if a == [] {
      assert a + b == b;
    } else {
      assert (a + b)[1..] == a[1..] + b;
      EncodeAllAppend(a[1..], b);
    }
  }

  // ----- the bytes themselves

  /** Four bytes from `at` on hold x in two's complement, most significant byte first. */
  predicate WordAt(b: seq<Byte>, at: nat, x: int)
    requires at + 4 <= |b|
  {
    (b[at] as int) * 0x1000000 + (b[at + 1] as int) * 0x10000 + (b[at + 2] as int) * 0x100 + b[at + 3] as int
      == if x < 0 then x + 0x1_0000_0000 else x
  }

  /** The 17 bytes of an insert. */
  predicate InsertBytes(b: seq<Byte>, id: int, side: Side, price: int, volume: int, lifespan: Lifespan) {
    && |b| == 17
    && b[0] == 0 && b[1] == 17
    && b[2] == 4
    && WordAt(b, 3, id)
    && b[7] == (if side == BUY then 1 else 0)
    && WordAt(b, 8, price)
    && WordAt(b, 12, volume)
    && b[16] == (if lifespan == GOOD_FOR_DAY then 1 else 0)
  }

  /** The 7 bytes of a cancel. */
  predicate CancelBytes(b: seq<Byte>, id: int) {
    |b| == 7 && b[0] == 0 && b[1] == 7 && b[2] == 2 && WordAt(b, 3, id)
  }

  predicate MessageBytes(b: seq<Byte>, m: Message) {
    match m
    case Insert(id, side, price, volume, lifespan) => InsertBytes(b, id, side, price, volume, lifespan)
    case Cancel(id) => CancelBytes(b, id)
  }

  /** The bytes are those of the messages, one after the other. */
  predicate Spells(b: seq<Byte>, ms: seq<Message>)
    decreases |ms|
  {
    if ms == [] then b == []
    else
      var n := if ms[0].Insert? then 17 else 7;
      n <= |b| && MessageBytes(b[..n], ms[0]) && Spells(b[n..], ms[1..])
  }

  lemma IntBytes(x: int, before: seq<Byte>, after: seq<Byte>)
    requires IsInt32(x)
    ensures |EncodeInt(x)| == 4 && WordAt(before + EncodeInt(x) + after, |before|, x)
  {
    Be32RoundTrip(ToUint32(x));
  }

  /** Every message is encoded with the bytes that the exchange expects at each place. */
  lemma EncodedBytes(m: Message)
    requires Fits(m)
    ensures MessageBytes(Encode(m), m)
  {
    match m
    case Cancel(id) =>
      IntBytes(id, [0, 7, 2], []);
      assert Encode(m) == [0, 7, 2] + EncodeInt(id) + [];
    case Insert(id, side, price, volume, lifespan) =>
      var head := [0, 17, 4];
      var front := head + EncodeInt(id) + [SideByte(side)];
      var last := [LifespanByte(lifespan)];
      IntBytes(id, head, [SideByte(side)] + EncodeInt(price) + EncodeInt(volume) + last);
      IntBytes(price, front, EncodeInt(volume) + last);
      IntBytes(volume, front + EncodeInt(price), last);
      var b := Encode(m);
      assert b == head + EncodeInt(id) + ([SideByte(side)] + EncodeInt(price) + EncodeInt(volume) + last);
      assert b == front + EncodeInt(price) + (EncodeInt(volume) + last);
      assert b == front + EncodeInt(price) + EncodeInt(volume) + last;
  }

  lemma {:induction false} EncodingSpells(ms: seq<Message>)
    requires forall i :: 0 <= i < |ms| ==> Fits(ms[i])
    ensures Spells(EncodeAll(ms), ms)
    decreases |ms|
  {
    if ms != [] {
      EncodedBytes(ms[0]);
      EncodingSpells(ms[1..]);
      var b, n := EncodeAll(ms), |Encode(ms[0])|;
      assert b[..n] == Encode(ms[0]) && b[n..] == EncodeAll(ms[1..]);
    }
  }
}
