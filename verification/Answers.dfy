/** What the book answers to each command, told from the two lists it holds. */
module Answers {
  import opened Types
  import opened Matcher
  import opened MatcherLaws
  import opened BookLaws
  import opened Verdicts
  import opened SlotMatcher

  // ---------------------------------------------------------------------------------------------
  // Conditions on the lists
  // ---------------------------------------------------------------------------------------------

  ghost predicate OnList(s: seq<Order>, id: int) {
    exists i :: 0 <= i < |s| && s[i].id == id
  }

  ghost predicate Listed(b: Book, id: int) {
    OnList(b.bids, id) || OnList(b.asks, id)
  }

  lemma RestingIsListed(b: Book, id: int)
    ensures IsResting(b, id) <==> Listed(b, id)
  {
  }

  predicate GoodPrice(cfg: Config, o: NewOrder) {
    o.kind.Market? || cfg.minPrice <= o.price <= cfg.maxPrice
  }

  // The order may go on past `x`: it crosses it, and self-trade prevention does not end it there.
  predicate Passes(stp: StpPolicy, o: NewOrder, x: Order) {
    Crosses(o, x.price) && (stp.CancelPassive? || x.participant != o.participant)
  }

  // How many opposite orders lie in the way of an order that never fills.
  function Span(stp: StpPolicy, o: NewOrder, opp: seq<Order>): (n: nat)
    ensures n <= |opp|
    ensures forall i :: 0 <= i < n ==> Passes(stp, o, opp[i])
    ensures n < |opp| ==> !Passes(stp, o, opp[n])
  {
    if opp == [] || !Passes(stp, o, opp[0]) then 0
    else
      var n := Span(stp, o, opp[1..]);
      assert forall i :: 1 <= i < |opp| ==> opp[i] == opp[1..][i - 1];
      1 + n
  }

  // What other participants offer there.
  function Offered(stp: StpPolicy, o: NewOrder, opp: seq<Order>): int {
    SumRemaining(Others(opp[..Span(stp, o, opp)], o.participant))
  }

  // Not filled by then, the order comes upon one of its own participant's that ends it.
  predicate MeetsOwn(stp: StpPolicy, o: NewOrder, opp: seq<Order>, quantity: int) {
    var n := Span(stp, o, opp);
    n < |opp| && Crosses(o, opp[n].price) && Offered(stp, o, opp) < quantity
  }

  // ---------------------------------------------------------------------------------------------
  // How much matching fills, and when self-trade prevention ends it
  // ---------------------------------------------------------------------------------------------

  lemma SpanOn(stp: StpPolicy, o: NewOrder, opp: seq<Order>)
    requires opp != []
    ensures !Passes(stp, o, opp[0]) ==> Span(stp, o, opp) == 0 && Offered(stp, o, opp) == 0
    ensures Passes(stp, o, opp[0]) ==>
      && Span(stp, o, opp) == 1 + Span(stp, o, opp[1..])
      && Offered(stp, o, opp) == Offered(stp, o, opp[1..]) + if opp[0].participant == o.participant then 0 else opp[0].remaining
  {
    hide Passes;
    if Passes(stp, o, opp[0]) {
      var rest, n := opp[1..], Span(stp, o, opp[1..]);
      assert opp[..1 + n] == [opp[0]] + rest[..n];
      FilterCons(opp[0], rest[..n], o.participant);
      var os := Others(rest[..n], o.participant);
      assert ([opp[0]] + os)[1..] == os;
    } else {
      assert opp[..0] == [];
    }
  }

  lemma {:induction false} OthersPositive(s: seq<Order>, p: int)
    requires Positive(s)
    ensures SumRemaining(Others(s, p)) >= 0
  {
    if s != [] {
      OthersPositive(s[1..], p);
      FilterCons(s[0], s[1..], p);
      assert s == [s[0]] + s[1..];
      var os := Others(s[1..], p);
      assert ([s[0]] + os)[1..] == os;
    }
  }

  lemma OfferedPositive(stp: StpPolicy, o: NewOrder, opp: seq<Order>)
    requires Positive(opp)
    ensures Offered(stp, o, opp) >= 0
  {
    OthersPositive(opp[..Span(stp, o, opp)], o.participant);
  }

  /** Matching fills the order out of what others offer within its span, and self-trade prevention ends it exactly when
      that is not enough and the span ends at an order of its own participant. */
  lemma {:induction false} MatchSpan(stp: StpPolicy, o: NewOrder, opp: seq<Order>, quantity: int, tradeId: int, m: MatchResult)
    requires Positive(opp) && quantity >= 0 && m == Match(stp, o, opp, quantity, tradeId)
    ensures m.remaining == quantity - Min(quantity, Offered(stp, o, opp))
    ensures m.outcome.StpFired? <==> MeetsOwn(stp, o, opp, quantity)
    decreases |opp|
  {
    hide Offered, Span, MeetsOwn, TakeTurn;
    match TakeTurn(stp, o, opp, quantity, tradeId)
    case Stop(_) =>
      StopSpan(stp, o, opp, quantity, tradeId);
    case Gone(trades, _, quantity') =>
      GoneSpan(stp, o, opp, quantity, tradeId);
      MatchSpan(stp, o, opp[1..], quantity', tradeId + |trades|, Match(stp, o, opp[1..], quantity', tradeId + |trades|));
  }

  lemma StopSpan(stp: StpPolicy, o: NewOrder, opp: seq<Order>, quantity: int, tradeId: int)
    requires Positive(opp) && quantity >= 0 && TakeTurn(stp, o, opp, quantity, tradeId).Stop?
    ensures var m := TakeTurn(stp, o, opp, quantity, tradeId).m;
      && m.remaining == quantity - Min(quantity, Offered(stp, o, opp))
      && (m.outcome.StpFired? <==> MeetsOwn(stp, o, opp, quantity))
  {
    hide Offered, Span;
    OfferedPositive(stp, o, opp);
    if opp == [] {
      NothingOffered(stp, o);
    } else {
      SpanOn(stp, o, opp);
      SpanWithin(stp, o, opp);
      OfferedPositive(stp, o, opp[1..]);
    }
  }

  lemma GoneSpan(stp: StpPolicy, o: NewOrder, opp: seq<Order>, quantity: int, tradeId: int)
    requires Positive(opp) && quantity >= 0 && TakeTurn(stp, o, opp, quantity, tradeId).Gone?
    ensures opp != [] && Positive(opp[1..])
    ensures var quantity' := TakeTurn(stp, o, opp, quantity, tradeId).remaining;
      && quantity' >= 0
      && quantity - Min(quantity, Offered(stp, o, opp)) == quantity' - Min(quantity', Offered(stp, o, opp[1..]))
      && (MeetsOwn(stp, o, opp, quantity) <==> MeetsOwn(stp, o, opp[1..], quantity'))
  {
    hide Offered, Span;
    SpanOn(stp, o, opp);
    SpanWithin(stp, o, opp[1..]);
    OfferedPositive(stp, o, opp[1..]);
    var n := Span(stp, o, opp[1..]);
    assert n < |opp[1..]| ==> opp[1..][n] == opp[n + 1];
  }

  lemma NothingOffered(stp: StpPolicy, o: NewOrder)
    ensures Span(stp, o, []) == 0 && Offered(stp, o, []) == 0
  {
  }

  lemma SpanWithin(stp: StpPolicy, o: NewOrder, opp: seq<Order>)
    ensures Span(stp, o, opp) <= |opp|
  {
  }

  // The pre-scan of a fill-or-kill order asks for the same quantity.
  lemma AvailableIff(stp: StpPolicy, o: NewOrder, opp: seq<Order>)
    requires Positive(opp) && o.quantity > 0
    ensures Available(stp, o, opp, 0) < o.quantity <==> Offered(stp, o, opp) < o.quantity
  {
    hide Available, Match, Offered;
    var m := Match(stp, o, opp, o.quantity, 0);
    AvailableIsFilled(stp, o, opp, o.quantity, 0, m);
    MatchSpan(stp, o, opp, o.quantity, 0, m);
  }

  // ---------------------------------------------------------------------------------------------
  // Submitting
  // ---------------------------------------------------------------------------------------------

  // The order is taken into the book rather than turned away.
  ghost predicate Welcome(cfg: Config, b: Book, o: NewOrder) {
    && o.quantity > 0 && GoodPrice(cfg, o) && !Listed(b, o.id)
    && (o.kind.Market? ==> SideOf(b, Opposite(o.side)) != [])
    && (o.kind.Fok? ==> Offered(cfg.stp, o, SideOf(b, Opposite(o.side))) >= o.quantity)
  }

  lemma WelcomeIff(cfg: Config, b: Book, o: NewOrder)
    requires Positive(b.bids) && Positive(b.asks)
    ensures Refusal(cfg, b, o).Ok? <==> Welcome(cfg, b, o)
  {
    hide Available, Offered, IsResting, Listed;
    RestingIsListed(b, o.id);
    if o.quantity > 0 {
      AvailableIff(cfg.stp, o, SideOf(b, Opposite(o.side)));
    }
  }

  /** An order that is turned away leaves no trace, and is told the first of the reasons that apply. */
  lemma SubmitTurnsAway(cfg: Config, b: Book, o: NewOrder)
    requires Positive(b.bids) && Positive(b.asks) && !Welcome(cfg, b, o)
    ensures var e, opp := Submit(cfg, b, o), SideOf(b, Opposite(o.side));
      && e.book == b && e.trades == [] && e.victims == []
      && e.result.filled == 0 == e.result.remaining == e.result.arrival && !e.result.rested
      && e.result.price == o.price && e.result.quantity == o.quantity && e.result.participant == o.participant && e.result.side == o.side
      && e.result.status ==
           if o.quantity <= 0 then RejectedInvalidQuantity
           else if !GoodPrice(cfg, o) then RejectedPriceOutOfRange
           else if Listed(b, o.id) then RejectedDuplicateId
           else if o.kind.Market? then RejectedMarketIntoEmptyBook
           else RejectedFokUnfillable
  {
    hide Available, Offered, IsResting, Listed, Match, Insert;
    WelcomeIff(cfg, b, o);
    RestingIsListed(b, o.id);
  }

  // `x` stands behind every order at an equal or better price and in front of the others.
  ghost predicate Joined(side: Side, s: seq<Order>, x: Order, s': seq<Order>) {
    exists k :: 0 <= k <= |s| && s' == s[..k] + [x] + s[k..] && PlaceOf(side, s, x, k)
  }

  ghost predicate PlaceOf(side: Side, s: seq<Order>, x: Order, k: int) {
    && (forall i :: 0 <= i < k && i < |s| ==> !Better(side, x.price, s[i].price))
    && (0 <= k < |s| ==> Better(side, x.price, s[k].price))
  }

  lemma InsertJoins(s: seq<Order>, x: Order)
    ensures Joined(x.side, s, x, Insert(s, x))
  {
    InsertIs(s, x);
    assert PlaceOf(x.side, s, x, InsertPos(s, x));
  }

  // What is left of an accepted order may rest: there is something left, nothing ended the order, and a slot is free.
  ghost predicate MayRest(cfg: Config, b: Book, o: NewOrder, after: Book) {
    var opp := SideOf(b, Opposite(o.side));
    && Offered(cfg.stp, o, opp) < o.quantity && !MeetsOwn(cfg.stp, o, opp, o.quantity)
    && |SideOf(b, o.side)| + |SideOf(after, Opposite(o.side))| < cfg.maxOrders
  }

  /** An accepted order fills as far as others offer. What is left rests exactly if it is of a limit order that self-trade
      prevention did not end and fewer orders than the book holds are left; its own side then gains exactly that order at
      its place and otherwise stays as it was. */
  lemma SubmitRestsIff(cfg: Config, b: Book, o: NewOrder)
    requires Positive(b.bids) && Positive(b.asks) && Welcome(cfg, b, o)
    ensures var e, opp := Submit(cfg, b, o), SideOf(b, Opposite(o.side));
      && e.result.filled == Min(o.quantity, Offered(cfg.stp, o, opp)) == o.quantity - e.result.remaining
      && e.result.arrival == b.lastArrival + 1 == e.book.lastArrival && e.book.nextTradeId == b.nextTradeId + |e.trades|
      && e.result.price == o.price && e.result.quantity == o.quantity && e.result.participant == o.participant && e.result.side == o.side
      && (e.result.rested <==> o.kind.Limit? && MayRest(cfg, b, o, e.book))
      && var own, own' := SideOf(b, o.side), SideOf(e.book, o.side);
         var x := Order(o.id, o.price, o.quantity, e.result.remaining, o.participant, b.lastArrival + 1, o.side);
         if e.result.rested then Joined(o.side, own, x, own') else own' == own
  {
    hide Available, Offered, Match, Insert, MeetsOwn, Joined, Listed;
    WelcomeIff(cfg, b, o);
    var opp := SideOf(b, Opposite(o.side));
    var m := Match(cfg.stp, o, opp, o.quantity, b.nextTradeId);
    MatchSpan(cfg.stp, o, opp, o.quantity, b.nextTradeId, m);
    InsertJoins(SideOf(b, o.side), Residual(o, m.remaining, b.lastArrival + 1));
  }

  /** The status of an accepted order: ended by self-trade prevention; done, because it filled or because it rests; or
      something left that a limit order found no slot for and a market or immediate order does not keep. A fill-or-kill
      order is always done. */
  lemma SubmitStatusIff(cfg: Config, b: Book, o: NewOrder)
    requires Positive(b.bids) && Positive(b.asks) && Welcome(cfg, b, o)
    ensures var e, opp := Submit(cfg, b, o), SideOf(b, Opposite(o.side));
      var ended, left := MeetsOwn(cfg.stp, o, opp, o.quantity), Offered(cfg.stp, o, opp) < o.quantity;
      && (e.result.status == CancelledBySelfTradePrevention <==> ended)
      && (e.result.status == Ok <==> !ended && (!left || e.result.rested))
      && (e.result.status == RejectedPoolExhausted <==> o.kind.Limit? && !ended && left && !e.result.rested)
      && (e.result.status == CancelledResidual <==> (o.kind.Market? || o.kind.Ioc?) && !ended && left)
      && (o.kind.Fok? ==> e.result.status == Ok)
  {
    hide Available, Offered, Match, Insert, Listed, Span;
    WelcomeIff(cfg, b, o);
    var opp := SideOf(b, Opposite(o.side));
    MatchSpan(cfg.stp, o, opp, o.quantity, b.nextTradeId, Match(cfg.stp, o, opp, o.quantity, b.nextTradeId));
  }

  /** At any price, by slot: what is left of an accepted order rests exactly if it is a limit order, something is left,
      self-trade prevention did not end it and a slot is free, and then its side gains exactly that order. */
  lemma SlotRestsIff(cfg: Config, b: SlotBook, o: NewOrder)
    requires cfg.tick > 0 && SlotRefusal(cfg, b, o).Ok?
    ensures var e := SlotSubmit(cfg, b, o);
      var x := Order(o.id, o.price, o.quantity, e.result.remaining, o.participant, b.book.lastArrival + 1, o.side);
      && (e.result.rested <==>
            && o.kind.Limit? && e.result.remaining > 0 && e.result.status != CancelledBySelfTradePrevention
            && |SideOf(b.book, o.side)| + |SideOf(e.state.book, Opposite(o.side))| < cfg.maxOrders)
      && SideOf(e.state.book, o.side) == if e.result.rested then SlotInsert(cfg, SideOf(b.book, o.side), x) else SideOf(b.book, o.side)
  {
    hide SlotMatch, SlotAvailable, SlotInsert, IsResting;
  }

  // ---------------------------------------------------------------------------------------------
  // Cancelling
  // ---------------------------------------------------------------------------------------------

  /** A cancel is answered `Ok` exactly if some listed order has the id, and changes nothing otherwise. */
  lemma CancelKnownIff(b: Book, id: int)
    ensures var e := CancelOrder(b, id);
      && e.result.status == (if Listed(b, id) then Ok else RejectedUnknownOrder)
      && e.trades == [] && e.victims == [] && !e.result.rested
      && (!Listed(b, id) ==>
            && e.book == b && e.result.filled == 0 == e.result.remaining == e.result.price == e.result.quantity
            && e.result.participant == 0 == e.result.arrival)
  {
    hide Listed, Find;
    RestingIsListed(b, id);
  }

  lemma FoundAt(s: seq<Order>, k: nat)
    requires DistinctIds(s) && k < |s|
    ensures Find(s, s[k].id) == k
  {
  }

  /** It takes out exactly the order with that id, wherever it waits, and tells what of it was filled before. */
  lemma CancelTakes(cfg: Config, b: Book, side: Side, k: nat)
    requires BookInv(cfg, b) && k < |SideOf(b, side)|
    ensures var s := SideOf(b, side);
      CancelOrder(b, s[k].id)
      == Effect(WithSide(b, side, s[..k] + s[k + 1..]),
                OrderResult(Ok, s[k].quantity - s[k].remaining, s[k].remaining, false, s[k].price, s[k].quantity,
                            s[k].participant, s[k].arrival, s[k].side), [], [])
  {
    hide Find, Apart, AllOk, Sorted;
    FoundAt(SideOf(b, side), k);
  }

  // ---------------------------------------------------------------------------------------------
  // Replacing
  // ---------------------------------------------------------------------------------------------

  // The new id is the old one, or free.
  ghost predicate FreeId(b: Book, oldId: int, amended: NewOrder) {
    amended.id == oldId || !Listed(b, amended.id)
  }

  /** A replace cancels exactly if the old order is listed, the new quantity is positive, the new price good and the new
      id the old one or free. The first of these that fails is the answer, and nothing else happens. */
  lemma ReplaceCancelsIff(cfg: Config, b: Book, oldId: int, amended: NewOrder)
    requires BookInv(cfg, b)
    ensures var r := ReplaceOrder(cfg, b, oldId, amended);
      var known, positive, good, free := Listed(b, oldId), amended.quantity > 0, GoodPrice(cfg, amended), FreeId(b, oldId, amended);
      && (r.cancelled <==> known && positive && good && free)
      && (r.effect.result.status == RejectedUnknownOrder <==> !known)
      && (r.effect.result.status == RejectedInvalidQuantity <==> known && !positive)
      && (r.effect.result.status == RejectedPriceOutOfRange <==> known && positive && !good)
      && (r.effect.result.status == RejectedDuplicateId <==> known && positive && good && !free)
      && (!r.cancelled ==> r.effect.book == b && r.effect.trades == [] && r.effect.victims == [] && !r.effect.result.rested)
  {
    hide Listed, IsResting, Submit, BookInv, CancelOrder;
    RestingIsListed(b, oldId);
    RestingIsListed(b, amended.id);
    ReplaceRejectedIff(cfg, b, oldId, amended);
  }

  /** If it cancels, the old order leaves as by a cancel, and the new one is submitted to what is left. */
  lemma ReplaceSubmits(cfg: Config, b: Book, side: Side, k: nat, amended: NewOrder)
    requires BookInv(cfg, b) && k < |SideOf(b, side)| && amended.quantity > 0 && GoodPrice(cfg, amended)
    requires FreeId(b, SideOf(b, side)[k].id, amended)
    ensures var s := SideOf(b, side);
      var r, left := ReplaceOrder(cfg, b, s[k].id, amended), WithSide(b, side, s[..k] + s[k + 1..]);
      && r.cancelled && r.effect == Submit(cfg, left, amended)
      && r.removed.status == Ok && r.removed.remaining == s[k].remaining && r.removed.filled == s[k].quantity - s[k].remaining
      && !Listed(left, amended.id)
  {
    hide Submit, BookInv, Find;
    var s := SideOf(b, side);
    CancelTakes(cfg, b, side, k);
    assert OnList(s, s[k].id);
    ReplaceCancelsIff(cfg, b, s[k].id, amended);
    RestingIsListed(b, amended.id);
    AmendedIsFresh(cfg, b, s[k].id, amended);
    RestingIsListed(CancelOrder(b, s[k].id).book, amended.id);
  }
}
