/** Reading a stream of sent orders back: which inserts are still live, and whether every message
    followed in order. */
module OrderStream {
  import opened Options
  import opened Wire
  import opened Trader

  /** An insert that no later message cancels. */
  ghost predicate Live(log: seq<Message>, i: nat) {
    && i < |log|
    && log[i].Insert?
    && forall k :: i < k < |log| ==> log[k] != Cancel(log[i].id)
  }

  /** What a reader who remembers one order per side knows: the orders on the two sides, the largest
      id inserted, and whether every message so far was in order. */
  datatype Replay = Replay(bid: Option<Message>, ask: Option<Message>, lastId: int, orderly: bool)

  predicate Names(o: Option<Message>, id: int) {
    o.Some? && o.value.id == id
  }

  /** A message may follow: a cancel names an order on one of the sides; an insert has a larger id
      than all before, goes to an empty side, and is quoted 200 away from the other side. */
  predicate MayFollow(r: Replay, m: Message) {
    match m
    case Cancel(id) => Names(r.bid, id) || Names(r.ask, id)
    case Insert(id, BUY, price, volume, _) =>
      volume == LOT && r.lastId < id && r.bid.None?
      && (r.ask.Some? && r.ask.value.Insert? ==> r.ask.value.price - price == 2 * HALF_SPREAD)
    case Insert(id, SELL, price, volume, _) =>
      volume == LOT && r.lastId < id && r.ask.None?
      && (r.bid.Some? && r.bid.value.Insert? ==> price - r.bid.value.price == 2 * HALF_SPREAD)
  }

  function ReplayOne(r: Replay, m: Message): Replay {
    var orderly := r.orderly && MayFollow(r, m);
    match m
    case Cancel(id) =>
      Replay(if Names(r.bid, id) then None else r.bid, if Names(r.ask, id) then None else r.ask, r.lastId, orderly)
    case Insert(id, BUY, _, _, _) => Replay(Some(m), r.ask, id, orderly)
    case Insert(id, SELL, _, _, _) => Replay(r.bid, Some(m), id, orderly)
  }

  function ReplayAll(log: seq<Message>): Replay {
    if log == [] then Replay(None, None, 1, true) else ReplayOne(ReplayAll(log[..|log| - 1]), log[|log| - 1])
  }

  lemma ReplaySnoc(log: seq<Message>, m: Message)
    ensures ReplayAll(log + [m]) == ReplayOne(ReplayAll(log), m)
  {
    assert (log + [m])[..|log|] == log;
  }

  lemma {:induction false} OrderlyPrefix(log: seq<Message>, k: nat)
    requires ReplayAll(log).orderly && k <= |log|
    ensures ReplayAll(log[..k]).orderly
    decreases |log|
  {
    if k < |log| {
      OrderlyPrefix(log[..|log| - 1], k);
      assert log[..|log| - 1][..k] == log[..k];
    } else {
      assert log[..k] == log;
    }
  }

  /** An order of the given side, of one lot, with an id in range. */
  predicate LotOn(m: Message, s: Side, lastId: int) {
    m.Insert? && m.side == s && m.volume == LOT && 1 < m.id <= lastId
  }

  /** The remembered orders are lots of the right side with ids in range, and are 200 apart. */
  predicate Sound(r: Replay) {
    && r.lastId >= 1
    && (r.bid.Some? ==> LotOn(r.bid.value, BUY, r.lastId))
    && (r.ask.Some? ==> LotOn(r.ask.value, SELL, r.lastId))
    && (r.bid.Some? && r.ask.Some? ==>
          r.bid.value.id != r.ask.value.id && r.ask.value.price - r.bid.value.price == 2 * HALF_SPREAD)
  }

  lemma {:induction false} OrderlyIsSound(log: seq<Message>)
    requires ReplayAll(log).orderly
    ensures Sound(ReplayAll(log))
    decreases |log|
  {
    if log != [] {
      OrderlyIsSound(log[..|log| - 1]);
    }
  }

  /** Insert ids strictly grow along an orderly stream. */
  lemma {:induction false} IdsGrow(log: seq<Message>)
    requires ReplayAll(log).orderly
    ensures forall k :: 0 <= k < |log| && log[k].Insert? ==> 1 < log[k].id <= ReplayAll(log).lastId
    ensures forall j, k :: 0 <= j < k < |log| && log[j].Insert? && log[k].Insert? ==> log[j].id < log[k].id
    decreases |log|
  {
    if log != [] {
      var front := log[..|log| - 1];
      IdsGrow(front);
      OrderlyIsSound(front);
      assert forall k :: 0 <= k < |front| ==> log[k] == front[k];
    }
  }

  /** In an orderly stream the two remembered orders are exactly the live ones. */
  lemma {:induction false} LiveAreRemembered(log: seq<Message>, i: nat)
    requires ReplayAll(log).orderly && i < |log|
    ensures Live(log, i) <==> log[i].Insert? && Some(log[i]) in {ReplayAll(log).bid, ReplayAll(log).ask}
    decreases |log|
  {
    var front, m := log[..|log| - 1], log[|log| - 1];
    OrderlyIsSound(log);
    IdsGrow(log);
    if i < |front| {
      LiveAreRemembered(front, i);
      OrderlyIsSound(front);
      assert Live(log, i) <==> Live(front, i) && m != Cancel(log[i].id);
    }
  }

  /** What is remembered was sent. */
  lemma {:induction false} RememberedWereSent(log: seq<Message>)
    requires ReplayAll(log).orderly
    ensures ReplayAll(log).bid.Some? ==> ReplayAll(log).bid.value in log
    ensures ReplayAll(log).ask.Some? ==> ReplayAll(log).ask.value in log
    decreases |log|
  {
    if log != [] {
      RememberedWereSent(log[..|log| - 1]);
    }
  }

  function Inserts(log: seq<Message>): nat {
    if log == [] then 0 else (if log[|log| - 1].Insert? then 1 else 0) + Inserts(log[..|log| - 1])
  }

  function Cancels(log: seq<Message>): nat {
    if log == [] then 0 else (if log[|log| - 1].Cancel? then 1 else 0) + Cancels(log[..|log| - 1])
  }

  function Remembered(r: Replay): nat {
    (if r.bid.Some? then 1 else 0) + (if r.ask.Some? then 1 else 0)
  }

  /** Inserts minus cancels is the number of remembered orders. */
  lemma {:induction false} LiveIsConserved(log: seq<Message>)
    requires ReplayAll(log).orderly
    ensures Inserts(log) == Cancels(log) + Remembered(ReplayAll(log))
    decreases |log|
  {
    if log != [] {
      LiveIsConserved(log[..|log| - 1]);
      OrderlyIsSound(log[..|log| - 1]);
    }
  }

  /** A cancel in an orderly stream names an order that was live just before it. */
  lemma CancelsNameLiveOrders(log: seq<Message>, k: nat)
    requires ReplayAll(log).orderly && k < |log| && log[k].Cancel?
    ensures exists j: nat :: Live(log[..k], j) && log[j].id == log[k].id
  {
    var front := log[..k];
    OrderlyPrefix(log, k + 1);
    assert log[..k + 1][..k] == front;
    OrderlyPrefix(log, k);
    OrderlyIsSound(front);
    RememberedWereSent(front);
    var r := ReplayAll(front);
    var x := if Names(r.bid, log[k].id) then r.bid.value else r.ask.value;
    var j: nat :| j < k && front[j] == x;
    LiveAreRemembered(front, j);
    assert Live(log[..k], j);
  }

  /** In an orderly stream at most one order per side is live, and a live bid is 200 below a live ask. */
  lemma LiveQuotesAreApart(log: seq<Message>, i: nat, j: nat)
    requires ReplayAll(log).orderly && Live(log, i) && Live(log, j)
    ensures log[i].side == log[j].side ==> i == j
    ensures log[i].side.BUY? && log[j].side.SELL? ==> log[j].price == log[i].price + 200
  {
    OrderlyIsSound(log);
    IdsGrow(log);
    LiveAreRemembered(log, i);
    LiveAreRemembered(log, j);
  }
}
