/** What the statuses mean: fill-or-kill is all or nothing, a rejected replace changed nothing, and
    one command touches no more orders than were resting. */
module Verdicts {
  import opened Types
  import opened Matcher
  import opened MatcherLaws
  import opened BookLaws

  /** A fill-or-kill order that passes the pre-scan fills completely, with no late rejection and no
      self-trade stop; one that does not leaves the book and both counters as they were. */
  lemma FokAllOrNothing(cfg: Config, b: Book, o: NewOrder)
    requires BookInv(cfg, b) && o.kind.Fok?
    ensures var e := Submit(cfg, b, o);
      && (Refusal(cfg, b, o).Ok? ==> e.result.status.Ok? && e.result.filled == o.quantity && e.result.remaining == 0)
      && (!Refusal(cfg, b, o).Ok? ==> e.book == b && e.trades == [] && e.victims == [])
  {
    hide Available, Match, SideOk;
    if Refusal(cfg, b, o).Ok? {
      var opp := SideOf(b, Opposite(o.side));
      var m := Match(cfg.stp, o, opp, o.quantity, b.nextTradeId);
      SideOkPositive(cfg, Opposite(o.side), b.lastArrival, opp);
      AvailableIsFilled(cfg.stp, o, opp, o.quantity, b.nextTradeId, m);
      MatchAccounts(cfg.stp, o, opp, o.quantity, b.nextTradeId, m);
    }
  }

  // ---------------------------------------------------------------------------------------------
  // Bounds
  // ---------------------------------------------------------------------------------------------

  lemma SubmitBound(cfg: Config, b: Book, o: NewOrder)
    requires BookInv(cfg, b)
    ensures var e := Submit(cfg, b, o); |e.trades| + |e.victims| <= |SideOf(b, Opposite(o.side))|
  {
    hide Match, SideOk, Available, Insert;
    if Refusal(cfg, b, o).Ok? {
      var opp := SideOf(b, Opposite(o.side));
      var m := Match(cfg.stp, o, opp, o.quantity, b.nextTradeId);
      SideOkPositive(cfg, Opposite(o.side), b.lastArrival, opp);
      MatchLeaves(cfg.stp, o, opp, o.quantity, b.nextTradeId, m);
    }
  }

  lemma CancelShrinks(b: Book, id: int)
    ensures var e := CancelOrder(b, id);
            Resting(e.book) <= Resting(b) && (IsResting(b, id) ==> Resting(e.book) < Resting(b))
  {
  }

  /** Trades plus self-trade victims of one command never exceed the orders resting before it, so a
      buffer of `maxOrders` trades cannot overflow. */
  lemma StepBound(cfg: Config, b: Book, c: Command)
    requires BookInv(cfg, b)
    ensures var e := Step(cfg, b, c); |e.trades| + |e.victims| <= Resting(b) <= cfg.maxOrders
  {
    hide Submit, SideOk;
    match c
    case New(o) =>
      SubmitBound(cfg, b, o);
    case Cancel(id) =>
    case Replace(oldId, amended) =>
      if ReplaceRefusal(cfg, b, oldId, amended).Ok? {
        CancelKeeps(cfg, b, oldId);
        CancelShrinks(b, oldId);
        SubmitBound(cfg, CancelOrder(b, oldId).book, amended);
      }
  }

  /** A fill is never more than was asked for, and the trades add up to exactly what is reported. */
  lemma SubmitFills(cfg: Config, b: Book, o: NewOrder)
    requires BookInv(cfg, b)
    ensures var e := Submit(cfg, b, o);
      && e.result.filled == SumTraded(e.trades)
      && (Refusal(cfg, b, o).Ok? ==> 0 <= e.result.filled <= o.quantity && e.result.filled + e.result.remaining == o.quantity)
  {
    hide Available, Match, SideOk, Insert;
    if Refusal(cfg, b, o).Ok? {
      var opp := SideOf(b, Opposite(o.side));
      var m := Match(cfg.stp, o, opp, o.quantity, b.nextTradeId);
      SideOkPositive(cfg, Opposite(o.side), b.lastArrival, opp);
      MatchAccounts(cfg.stp, o, opp, o.quantity, b.nextTradeId, m);
      TradesPositive(cfg.stp, o, opp, o.quantity, b.nextTradeId, m);
    }
  }

  // ---------------------------------------------------------------------------------------------
  // Replace
  // ---------------------------------------------------------------------------------------------

  // The statuses the dispatcher takes to mean that nothing was cancelled.
  predicate RejectedBeforeDispatch(s: SubmitStatus) {
    s.RejectedUnknownOrder? || s.RejectedInvalidQuantity? || s.RejectedPriceOutOfRange? || s.RejectedDuplicateId?
  }

  lemma {:induction false} NotFoundAfterRemove(s: seq<Order>, id: int, other: int)
    requires DistinctIds(s) && (other == id || Find(s, other) == -1)
    ensures Find(Remove(s, id), other) == -1
  {
    var r := Remove(s, id);
    var k := Find(r, other);
    if k != -1 {
      RemoveAt(s, id, k);
    }
  }

  // An order replaced under a free id, or under its own, is not refused for its id.
  lemma AmendedIsFresh(cfg: Config, b: Book, oldId: int, amended: NewOrder)
    requires BookInv(cfg, b) && ReplaceRefusal(cfg, b, oldId, amended).Ok?
    ensures !IsResting(CancelOrder(b, oldId).book, amended.id)
  {
    NotFoundAfterRemove(b.bids, oldId, amended.id);
    NotFoundAfterRemove(b.asks, oldId, amended.id);
  }

  /** The four statuses occur exactly when `replace` cancelled nothing, which is exactly when it left
      the book as it was. */
  lemma ReplaceRejectedIff(cfg: Config, b: Book, oldId: int, amended: NewOrder)
    requires BookInv(cfg, b)
    ensures var r := ReplaceOrder(cfg, b, oldId, amended);
      && (RejectedBeforeDispatch(r.effect.result.status) <==> !r.cancelled)
      && (r.effect.book == b <==> !r.cancelled)
  {
    hide Available, Match, SideOk, Insert, Remove, Find;
    if ReplaceRefusal(cfg, b, oldId, amended).Ok? {
      AmendedIsFresh(cfg, b, oldId, amended);
      CancelShrinks(b, oldId);
      var c := CancelOrder(b, oldId).book;
      assert c.lastArrival == b.lastArrival;
      assert Submit(cfg, c, amended).book.lastArrival != b.lastArrival || Submit(cfg, c, amended).book == c;
    }
  }

  /** A limit replace that passes validation always takes a fresh arrival number and always has room. */
  lemma LimitReplaceHasRoom(cfg: Config, b: Book, oldId: int, amended: NewOrder)
    requires BookInv(cfg, b) && amended.kind.Limit? && ReplaceRefusal(cfg, b, oldId, amended).Ok?
    ensures var r := ReplaceOrder(cfg, b, oldId, amended);
      && r.cancelled && r.removed == CancelledResult(RestingOrder(b, oldId))
      && r.effect.result.arrival == b.lastArrival + 1 == r.effect.book.lastArrival
      && !r.effect.result.status.RejectedPoolExhausted?
  {
    hide Available, Match, SideOk, Insert, Remove, Find, RestingOrder;
    AmendedIsFresh(cfg, b, oldId, amended);
    CancelShrinks(b, oldId);
    CancelKeeps(cfg, b, oldId);
    var c := CancelOrder(b, oldId).book;
    var opp := SideOf(c, Opposite(amended.side));
    var m := Match(cfg.stp, amended, opp, amended.quantity, c.nextTradeId);
    SideOkPositive(cfg, Opposite(amended.side), c.lastArrival, opp);
    MatchLeaves(cfg.stp, amended, opp, amended.quantity, c.nextTradeId, m);
    assert |m.rest| <= |opp|;
  }

  // An id that is not resting is still not resting once matching is over.
  lemma StillFresh(cfg: Config, b: Book, o: NewOrder)
    requires BookInv(cfg, b) && Refusal(cfg, b, o).Ok?
    ensures var m := Match(cfg.stp, o, SideOf(b, Opposite(o.side)), o.quantity, b.nextTradeId);
      && !IsResting(WithSide(b, Opposite(o.side), m.rest), o.id)
      && (o.kind.Limit? ==> InRange(cfg, o.price))
  {
    hide SideOk, Apart, DisjointIds, Match, Leftover, Positive;
    var opp := SideOf(b, Opposite(o.side));
    var m := Match(cfg.stp, o, opp, o.quantity, b.nextTradeId);
    SideOkPositive(cfg, Opposite(o.side), b.lastArrival, opp);
    MatchLeaves(cfg.stp, o, opp, o.quantity, b.nextTradeId, m);
    LeavesLeftover(opp, m);
    LeftoverIds(SideOf(b, o.side), opp, m.rest, o.id);
  }
}
