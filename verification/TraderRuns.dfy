/** What every run of book and position updates sends. */
module TraderRuns {
  import opened Options
  import opened Trader
  import opened OrderStream
  import opened TraderInvariant

  lemma QuoteOk(out: Sender, theo: int, next: TraderState)
    requires Consistent(out)
    requires next == TraderState(theo, Execute(out, theo - HALF_SPREAD, theo + HALF_SPREAD))
    ensures Ok(next)
  {
    ExecuteOk(out, theo - HALF_SPREAD, theo + HALF_SPREAD);
  }

  lemma HandleOk(t: TraderState, e: Event)
    requires Ok(t)
    ensures Ok(Handle(t, e))
  {
    var next := Handle(t, e);
    if e.BookUpdate? {
      QuoteOk(t.out, next.theo, next);
    }
    assert Ok(next);
  }

  /** Events only add to the stream. */
  lemma HandleExtends(t: TraderState, e: Event)
    ensures t.out.log <= Handle(t, e).out.log
  {
  }

  lemma StartOk()
    ensures Ok(START)
  {
  }

  lemma {:induction false} HandleAllOk(t: TraderState, es: seq<Event>)
    requires Ok(t)
    ensures Ok(HandleAll(t, es))
    decreases |es|
  {
    if es != [] {
      HandleOk(t, es[0]);
      HandleAllOk(Handle(t, es[0]), es[1..]);
    }
  }

  lemma {:induction false} HandleAllSnoc(t: TraderState, es: seq<Event>, e: Event)
    ensures HandleAll(t, es + [e]) == Handle(HandleAll(t, es), e)
    decreases |es|
  {
    if es == [] {
      assert es + [e] == [e];
      assert [e][1..] == [];
    } else {
      assert (es + [e])[1..] == es[1..] + [e];
      HandleAllSnoc(Handle(t, es[0]), es[1..], e);
    }
  }

  // ----- main results

  /** Over every run of book and position updates: insert ids strictly grow, every cancel names an
      order that is live just before it, the live orders are exactly those whose ids are nonzero in
      the executor, and inserts minus cancels is their number. */
  lemma SentOrdersAreTracked(es: seq<Event>)
    ensures var o := HandleAll(START, es).out;
      && (forall j, k :: 0 <= j < k < |o.log| && o.log[j].Insert? && o.log[k].Insert? ==> o.log[j].id < o.log[k].id)
      && (forall k :: 0 <= k < |o.log| && o.log[k].Cancel? ==>
            exists j: nat :: Live(o.log[..k], j) && o.log[j].id == o.log[k].id)
      && (forall j :: 0 <= j < |o.log| ==>
            (Live(o.log, j) <==> o.log[j].Insert? && Some(o.log[j]) in {TrackedBid(o.exec), TrackedAsk(o.exec)}))
      && (o.exec.bidId != 0 ==> BidOf(o.exec) in o.log)
      && (o.exec.askId != 0 ==> AskOf(o.exec) in o.log)
      && Inserts(o.log) - Cancels(o.log) == (if o.exec.bidId != 0 then 1 else 0) + (if o.exec.askId != 0 then 1 else 0)
  {
    StartOk();
    HandleAllOk(START, es);
    var log := HandleAll(START, es).out.log;
    IdsGrow(log);
    forall k | 0 <= k < |log| && log[k].Cancel?
      ensures exists j: nat :: Live(log[..k], j) && log[j].id == log[k].id
    {
      CancelsNameLiveOrders(log, k);
    }
    forall j | 0 <= j < |log|
      ensures Live(log, j) <==> log[j].Insert? && Some(log[j]) in {ReplayAll(log).bid, ReplayAll(log).ask}
    {
      LiveAreRemembered(log, j);
    }
    LiveIsConserved(log);
    RememberedWereSent(log);
  }

  /** At every prefix of the sent stream, also in the middle of one executeTrades, at most one order
      per side is live and a live bid lies exactly 200 below a live ask. */
  lemma QuotesNeverCross(es: seq<Event>, k: nat, i: nat, j: nat)
    requires k <= |HandleAll(START, es).out.log|
    requires var sent := HandleAll(START, es).out.log[..k]; Live(sent, i) && Live(sent, j)
    ensures var sent := HandleAll(START, es).out.log[..k];
      && (sent[i].side == sent[j].side ==> i == j)
      && (sent[i].side.BUY? && sent[j].side.SELL? ==> sent[j].price == sent[i].price + 200)
  {
    StartOk();
    HandleAllOk(START, es);
    OrderlyPrefix(HandleAll(START, es).out.log, k);
    LiveQuotesAreApart(HandleAll(START, es).out.log[..k], i, j);
  }

  lemma RoundingError(sum: int)
    ensures var theo := CDiv(CDiv(sum, 2), 100) * 100;
            theo % 100 == 0 && -200 < 2 * theo - sum < 200
  {
    var half := CDiv(sum, 2);
    assert -2 < sum - 2 * half < 2;
    var q := CDiv(half, 100);
    assert -100 < half - 100 * q < 100;
  }

  /** After a FUTURE update with both sides present the price is a multiple of 100, and every tracked
      bid lies below, every tracked ask above, the exact midpoint of the best prices: even after
      truncation, and for negative prices too. */
  lemma QuotesBracketMidpoint(es: seq<Event>, e: Event)
    requires e.BookUpdate? && e.instrument.FUTURE? && e.asks != [] && e.bids != []
    ensures var t := HandleAll(START, es + [e]); var x := t.out.exec;
      && t.theo % 100 == 0
      && (x.bidId != 0 ==> x.bidPrice == t.theo - 100 && 2 * x.bidPrice < e.asks[0] + e.bids[0])
      && (x.askId != 0 ==> x.askPrice == t.theo + 100 && e.asks[0] + e.bids[0] < 2 * x.askPrice)
  {
    StartOk();
    HandleAllOk(START, es + [e]);
    HandleAllSnoc(START, es, e);
    RoundingError(e.asks[0] + e.bids[0]);
  }

  /** After any book update each side is quoted at the current price if the position allows it. */
  lemma SidesAreQuoted(es: seq<Event>, e: Event)
    requires e.BookUpdate?
    ensures var t := HandleAll(START, es + [e]); var x := t.out.exec;
      && (x.position < 80 ==> x.bidId != 0 && x.bidPrice == t.theo - 100)
      && (x.position > -80 ==> x.askId != 0 && x.askPrice == t.theo + 100)
  {
    StartOk();
    HandleAllOk(START, es);
    HandleAllOk(START, es + [e]);
    HandleAllSnoc(START, es, e);
    ExecuteQuotes(HandleAll(START, es), e);
  }

  lemma ExecuteQuotes(t: TraderState, e: Event)
    requires e.BookUpdate? && t.out.exec.orderId >= 1
    ensures var x := Handle(t, e).out.exec;
      (x.position < 80 ==> x.bidId != 0) && (x.position > -80 ==> x.askId != 0)
  {
  }

  /** An update that moves the price: the future's, with both sides present. */
  predicate MovesPrice(e: Event) {
    e.BookUpdate? && e.instrument.FUTURE? && e.asks != [] && e.bids != []
  }

  /** Half of `sum`, cut toward zero to a multiple of 100. */
  predicate Truncates(sum: int, price: int) {
    && price % 100 == 0
    && if sum >= 0 then 0 <= 2 * price <= sum < 2 * price + 200 else 2 * price - 200 < sum <= 2 * price <= 0
  }

  lemma RepriceTruncates(price: int, e: Event)
    requires MovesPrice(e)
    ensures Truncates(e.asks[0] + e.bids[0], Reprice(price, e))
  {
  }

  /** Over every run the price is that of the last update that moves it, and zero before the first. */
  lemma {:induction false} PriceIsOfLastFuture(es: seq<Event>, k: nat)
    requires k < |es| && MovesPrice(es[k]) ==> forall i :: k < i < |es| ==> !MovesPrice(es[i])
    ensures (forall i :: 0 <= i < |es| ==> !MovesPrice(es[i])) ==> HandleAll(START, es).theo == 0
    ensures k < |es| && MovesPrice(es[k]) ==> Truncates(es[k].asks[0] + es[k].bids[0], HandleAll(START, es).theo)
    decreases |es|
  {
    if es != [] {
      var front, e := es[..|es| - 1], es[|es| - 1];
      assert es == front + [e];
      HandleAllSnoc(START, front, e);
      if MovesPrice(e) {
        RepriceTruncates(HandleAll(START, front).theo, e);
      } else {
        PriceIsOfLastFuture(front, k);
        PriceStays(HandleAll(START, front), e);
        assert forall i :: 0 <= i < |front| ==> es[i] == front[i];
      }
    }
  }

  lemma PriceStays(t: TraderState, e: Event)
    requires !MovesPrice(e)
    ensures Handle(t, e).theo == t.theo
  {
  }
}
