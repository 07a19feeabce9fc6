/** When an incoming order can trust its limit: the level arrays test it against the price a level is offered under, not
    against the prices of the orders in it. */
module Limits {
  import opened Types
  import opened Matcher
  import opened MatcherLaws
  import opened BookLaws
  import opened Grid
  import opened SlotMatcher
  import opened FairPrices
  import opened OffGrid

  // ---------------------------------------------------------------------------------------------
  // One side
  // ---------------------------------------------------------------------------------------------

  // The queue of a side and its tracked price, as every run leaves them: slots in order, nothing before the tracked one.
  ghost predicate SlotSide(cfg: Config, side: Side, s: seq<Order>, best: int) {
    && ValidConfig(cfg) && Positive(s)
    && (forall i, j :: 0 <= i < j < |s| ==> !Better(side, IndexOf(cfg, s[j].price), IndexOf(cfg, s[i].price)))
    && (s != [] ==> best != EmptySentinel(side) && !Better(side, IndexOf(cfg, s[0].price), IndexOf(cfg, best)))
    && (forall i :: 0 <= i < |s| ==> InRange(cfg, s[i].price))
  }

  // The price the level of the k-th order is offered under when matching comes to it.
  function Shown(cfg: Config, s: seq<Order>, best: int, k: int): int
    requires cfg.tick > 0 && 0 <= k < |s|
  {
    var i := IndexOf(cfg, s[k].price);
    if i == IndexOf(cfg, best) then best else PriceAt(cfg, i)
  }

  // No order asks worse than its level is offered under.
  ghost predicate Honest(cfg: Config, side: Side, s: seq<Order>, best: int)
    requires cfg.tick > 0
  {
    forall k :: 0 <= k < |s| ==> !Better(side, Shown(cfg, s, best, k), s[k].price)
  }

  // Every trade of this order is at a price it accepts.
  ghost predicate Respected(cfg: Config, o: NewOrder, s: seq<Order>, best: int, quantity: int, tradeId: int)
    requires cfg.tick > 0
  {
    var ts := SlotMatch(cfg, o, s, best, quantity, tradeId).m.trades;
    forall i :: 0 <= i < |ts| ==> Crosses(o, ts[i].price)
  }

  lemma ShownSlot(cfg: Config, s: seq<Order>, best: int, k: int)
    requires cfg.tick > 0 && 0 <= k < |s|
    ensures IndexOf(cfg, Shown(cfg, s, best, k)) == IndexOf(cfg, s[k].price)
  {
    IndexOfPrice(cfg, IndexOf(cfg, s[k].price));
  }

  lemma SideTail(cfg: Config, side: Side, s: seq<Order>, best: int)
    requires SlotSide(cfg, side, s, best) && s != []
    ensures SlotSide(cfg, side, s[1..], BestAfter(cfg, side, s[1..], best))
    ensures forall k :: 0 < k < |s| ==> Shown(cfg, s[1..], BestAfter(cfg, side, s[1..], best), k - 1) == Shown(cfg, s, best, k)
  {
    hide IndexOf, PriceAt, Positive;
    var t := s[1..];
    PositiveTail(s);
    if t != [] {
      var best' := BestAfter(cfg, side, t, best);
      IndexOfPrice(cfg, IndexOf(cfg, t[0].price));
      RangeIndex(cfg, t[0].price);
      SlotPrice(cfg, IndexOf(cfg, t[0].price));
      forall i, j | 0 <= i < j < |t| ensures !Better(side, IndexOf(cfg, t[j].price), IndexOf(cfg, t[i].price)) {
        assert t[i] == s[i + 1] && t[j] == s[j + 1];
      }
      forall k | 0 < k < |s| ensures Shown(cfg, t, best', k - 1) == Shown(cfg, s, best, k) {
        assert t[k - 1] == s[k];
        assert !Better(side, IndexOf(cfg, s[k].price), IndexOf(cfg, s[1].price));
        assert !Better(side, IndexOf(cfg, s[1].price), IndexOf(cfg, s[0].price));
      }
    }
  }

  lemma PositiveTail(s: seq<Order>)
    requires Positive(s) && s != []
    ensures Positive(s[1..]) && s[0].remaining > 0
  {
  }

  lemma SideAdvance(cfg: Config, side: Side, s: seq<Order>, best: int)
    requires SlotSide(cfg, side, s, best) && !Here(cfg, s, best)
    ensures SlotSide(cfg, side, s, Advance(cfg, side, s))
    ensures forall k :: 0 <= k < |s| ==> Shown(cfg, s, Advance(cfg, side, s), k) == Shown(cfg, s, best, k)
  {
    hide IndexOf, PriceAt, Positive;
    if s != [] {
      IndexOfPrice(cfg, IndexOf(cfg, s[0].price));
      RangeIndex(cfg, s[0].price);
      SlotPrice(cfg, IndexOf(cfg, s[0].price));
      forall k | 0 <= k < |s| ensures Shown(cfg, s, Advance(cfg, side, s), k) == Shown(cfg, s, best, k) {
        assert k > 0 ==> !Better(side, IndexOf(cfg, s[k].price), IndexOf(cfg, s[0].price));
      }
    }
  }

  lemma {:induction false} HonestRespects(cfg: Config, o: NewOrder, s: seq<Order>, best: int, quantity: int, tradeId: int)
    requires SlotSide(cfg, Opposite(o.side), s, best) && Honest(cfg, Opposite(o.side), s, best)
    ensures Respected(cfg, o, s, best, quantity, tradeId)
    decreases |s|, Stale(cfg, Opposite(o.side), s, best)
  {
    hide IndexOf, PriceAt, SlotSide, Stale;
    var side := Opposite(o.side);
    SideConfig(cfg, side, s, best);
    if quantity > 0 && best != EmptySentinel(side) && Crosses(o, best) {
      if !Here(cfg, s, best) {
        AdvanceFresh(cfg, side, s);
        StaleNow(cfg, side, s, best);
        SideAdvance(cfg, side, s, best);
        HonestRespects(cfg, o, s, Advance(cfg, side, s), quantity, tradeId);
      } else {
        SideTail(cfg, side, s, best);
        var best' := BestAfter(cfg, side, s[1..], best);
        forall k | 0 <= k < |s[1..]| ensures !Better(side, Shown(cfg, s[1..], best', k), s[1..][k].price) {
          assert s[1..][k] == s[k + 1] && Shown(cfg, s, best, k + 1) == Shown(cfg, s[1..], best', k);
        }
        HonestRespects(cfg, o, s[1..], best', quantity, tradeId);
        HonestRespects(cfg, o, s[1..], best', quantity - Min(quantity, s[0].remaining), tradeId + 1);
        assert Shown(cfg, s, best, 0) == best;
      }
    }
  }

  lemma SideConfig(cfg: Config, side: Side, s: seq<Order>, best: int)
    requires SlotSide(cfg, side, s, best)
    ensures ValidConfig(cfg)
  {
  }

  lemma StaleNow(cfg: Config, side: Side, s: seq<Order>, best: int)
    requires cfg.tick > 0 && best != EmptySentinel(side) && !Here(cfg, s, best)
    ensures Stale(cfg, side, s, best) == 1
  {
  }

  // The order is at least as eager as the offered price.
  lemma CrossesBetter(o: NewOrder, p: int, q: int)
    requires Crosses(o, p) && !Better(Opposite(o.side), p, q)
    ensures Crosses(o, q)
  {
  }

  // Better slots are offered under better prices.
  lemma ShownOrdered(cfg: Config, side: Side, s: seq<Order>, best: int, j: int, k: int)
    requires SlotSide(cfg, side, s, best) && 0 <= j <= k < |s|
    ensures !Better(side, Shown(cfg, s, best, k), Shown(cfg, s, best, j))
  {
    hide IndexOf, PriceAt, Positive;
    ShownSlot(cfg, s, best, j);
    ShownSlot(cfg, s, best, k);
    assert j < k ==> !Better(side, IndexOf(cfg, s[k].price), IndexOf(cfg, s[j].price));
    SlotsOrdered(cfg, Shown(cfg, s, best, j), Shown(cfg, s, best, k));
    SlotsOrdered(cfg, Shown(cfg, s, best, k), Shown(cfg, s, best, j));
  }

  // A tracked price whose slot is empty is better than any offered one.
  lemma StaleBetter(cfg: Config, side: Side, s: seq<Order>, best: int)
    requires SlotSide(cfg, side, s, best) && s != []
    ensures !Better(side, Shown(cfg, s, best, 0), best)
  {
    hide IndexOf, PriceAt, Positive;
    ShownSlot(cfg, s, best, 0);
    SlotsOrdered(cfg, Shown(cfg, s, best, 0), best);
    SlotsOrdered(cfg, best, Shown(cfg, s, best, 0));
  }

  // An order that accepts every offered price up to the k-th and is larger than what comes before it trades with it.
  lemma {:induction false} ReachesTrade(cfg: Config, o: NewOrder, s: seq<Order>, best: int, k: nat, quantity: int, tradeId: int)
    requires SlotSide(cfg, Opposite(o.side), s, best) && k < |s| && quantity > SumRemaining(s[..k])
    requires Crosses(o, Shown(cfg, s, best, k)) && forall i :: 0 <= i < |s| ==> s[i].participant != o.participant
    ensures var ts := SlotMatch(cfg, o, s, best, quantity, tradeId).m.trades; k < |ts| && ts[k].price == s[k].price
    decreases |s|, Stale(cfg, Opposite(o.side), s, best)
  {
    hide IndexOf, PriceAt, SlotSide, Stale, Shown, BestAfter;
    var side := Opposite(o.side);
    SideConfig(cfg, side, s, best);
    ShownOrdered(cfg, side, s, best, 0, k);
    CrossesBetter(o, Shown(cfg, s, best, k), Shown(cfg, s, best, 0));
    StaleBetter(cfg, side, s, best);
    CrossesBetter(o, Shown(cfg, s, best, 0), best);
    SideTracked(cfg, side, s, best);
    SumPrefix(s, k);
    if !Here(cfg, s, best) {
      AdvanceFresh(cfg, side, s);
      StaleNow(cfg, side, s, best);
      SideAdvance(cfg, side, s, best);
      ReachesTrade(cfg, o, s, Advance(cfg, side, s), k, quantity, tradeId);
    } else if k > 0 {
      SideTail(cfg, side, s, best);
      var best' := BestAfter(cfg, side, s[1..], best);
      assert Shown(cfg, s[1..], best', k - 1) == Shown(cfg, s, best, k) && s[1..][k - 1] == s[k];
      assert s[..k][1..] == s[1..][..k - 1] && s[..k][0] == s[0];
      SumPrefix(s[1..], k - 1);
      ReachesTrade(cfg, o, s[1..], best', k - 1, quantity - s[0].remaining, tradeId + 1);
    }
  }

  lemma SideTracked(cfg: Config, side: Side, s: seq<Order>, best: int)
    requires SlotSide(cfg, side, s, best) && s != []
    ensures best != EmptySentinel(side) && Positive(s) && s[0].remaining > 0
    ensures |s| > 1 ==> Positive(s[1..])
  {
  }

  lemma {:induction false} SumPrefix(s: seq<Order>, k: nat)
    requires k <= |s| && (forall i :: 0 <= i < |s| ==> s[i].remaining > 0)
    ensures SumRemaining(s[..k]) >= 0
    decreases k
  {
    if k > 0 {
      SumPrefix(s[1..], k - 1);
      assert s[..k][1..] == s[1..][..k - 1];
    }
  }

  // A participant none of the orders belongs to.
  function Stranger(s: seq<Order>): (p: int)
    ensures forall i :: 0 <= i < |s| ==> s[i].participant < p
  {
    if s == [] then 0
    else
      var p := Stranger(s[1..]);
      assert forall i :: 1 <= i < |s| ==> s[i] == s[1..][i - 1];
      if s[0].participant < p then p else s[0].participant + 1
  }

  ghost predicate LimitsRespected(cfg: Config, side: Side, s: seq<Order>, best: int)
    requires cfg.tick > 0
  {
    forall o: NewOrder, quantity: int, tradeId: int ::
      o.side == Opposite(side) ==> Respected(cfg, o, s, best, quantity, tradeId)
  }

  /** Every incoming order trades within its limit if and only if no resting order asks worse than its level is
      offered under. */
  lemma LimitsIff(cfg: Config, side: Side, s: seq<Order>, best: int)
    requires SlotSide(cfg, side, s, best)
    ensures LimitsRespected(cfg, side, s, best) <==> Honest(cfg, side, s, best)
  {
    hide SlotSide, Shown, SlotMatch;
    SideConfig(cfg, side, s, best);
    if Honest(cfg, side, s, best) {
      forall o: NewOrder, quantity: int, tradeId: int | o.side == Opposite(side) ensures Respected(cfg, o, s, best, quantity, tradeId) {
        HonestRespects(cfg, o, s, best, quantity, tradeId);
      }
    } else {
      var k :| 0 <= k < |s| && Better(side, Shown(cfg, s, best, k), s[k].price);
      Overpays(cfg, side, s, best, k);
      var o := NewOrder(0, Shown(cfg, s, best, k), 1, Stranger(s), Opposite(side), Ioc);
      assert !Respected(cfg, o, s, best, SumRemaining(s[..k]) + 1, 0);
    }
  }

  // An order for everything up to the k-th at the price shown there pays more than it asked for.
  lemma Overpays(cfg: Config, side: Side, s: seq<Order>, best: int, k: nat)
    requires SlotSide(cfg, side, s, best) && k < |s| && Better(side, Shown(cfg, s, best, k), s[k].price)
    ensures var o := NewOrder(0, Shown(cfg, s, best, k), 1, Stranger(s), Opposite(side), Ioc);
      var ts := SlotMatch(cfg, o, s, best, SumRemaining(s[..k]) + 1, 0).m.trades;
      k < |ts| && !Crosses(o, ts[k].price)
  {
    hide Shown, SlotMatch, SumRemaining;
    var o := NewOrder(0, Shown(cfg, s, best, k), 1, Stranger(s), Opposite(side), Ioc);
    ReachesTrade(cfg, o, s, best, k, SumRemaining(s[..k]) + 1, 0);
  }

  // ---------------------------------------------------------------------------------------------
  // Every run leaves both sides so
  // ---------------------------------------------------------------------------------------------

  // A tracked price is an admitted one, or the grid price of a slot; on the offer side it then lies above an admitted
  // price's slot.
  ghost predicate TrackedFrom(cfg: Config, prices: set<int>, side: Side, best: int) {
    || best == EmptySentinel(side) || best in prices
    || (cfg.tick > 0 && best == PriceAt(cfg, IndexOf(cfg, best))
        && (side.Buy? || exists q :: q in prices && IndexOf(cfg, q) < IndexOf(cfg, best)))
  }

  ghost predicate SideInv(cfg: Config, prices: set<int>, side: Side, s: seq<Order>, best: int) {
    && SlotSide(cfg, side, s, best) && Within(prices, s) && TrackedFrom(cfg, prices, side, best)
    && forall i :: 0 <= i < |s| ==> s[i].side == side
  }

  ghost predicate SlotInv(cfg: Config, prices: set<int>, b: SlotBook) {
    SideInv(cfg, prices, Buy, b.book.bids, b.bestBid) && SideInv(cfg, prices, Sell, b.book.asks, b.bestAsk)
  }

  // Moving on from an emptied level.
  lemma MovesOn(cfg: Config, prices: set<int>, side: Side, s: seq<Order>, best: int)
    requires ValidConfig(cfg) && TrackedFrom(cfg, prices, side, best) && best != EmptySentinel(side)
    requires s != [] ==> Better(side, IndexOf(cfg, best), IndexOf(cfg, s[0].price))
    ensures TrackedFrom(cfg, prices, side, Advance(cfg, side, s))
  {
    hide IndexOf, PriceAt;
    if s != [] {
      var i := IndexOf(cfg, s[0].price);
      IndexOfPrice(cfg, i);
      if side.Sell? {
        if best in prices {
          assert IndexOf(cfg, best) < i;
        } else {
          var q :| q in prices && IndexOf(cfg, q) < IndexOf(cfg, best);
        }
      }
    }
  }

  lemma TailInv(cfg: Config, prices: set<int>, side: Side, s: seq<Order>, best: int)
    requires SideInv(cfg, prices, side, s, best) && s != [] && Here(cfg, s, best)
    ensures SideInv(cfg, prices, side, s[1..], BestAfter(cfg, side, s[1..], best))
  {
    hide IndexOf, PriceAt, Positive, TrackedFrom, Advance;
    SideTail(cfg, side, s, best);
    var t := s[1..];
    if !Here(cfg, t, best) {
      assert t != [] ==> !Better(side, IndexOf(cfg, s[1].price), IndexOf(cfg, s[0].price));
      MovesOn(cfg, prices, side, t, best);
    }
  }

  lemma AdvanceInv(cfg: Config, prices: set<int>, side: Side, s: seq<Order>, best: int)
    requires SideInv(cfg, prices, side, s, best) && best != EmptySentinel(side) && !Here(cfg, s, best)
    ensures SideInv(cfg, prices, side, s, Advance(cfg, side, s))
  {
    hide IndexOf, PriceAt, Positive, TrackedFrom, Advance;
    SideAdvance(cfg, side, s, best);
    MovesOn(cfg, prices, side, s, best);
  }

  lemma ShrinkInv(cfg: Config, prices: set<int>, side: Side, s: seq<Order>, best: int, quantity: int)
    requires SideInv(cfg, prices, side, s, best) && s != [] && quantity < s[0].remaining
    ensures SideInv(cfg, prices, side, [s[0].(remaining := s[0].remaining - quantity)] + s[1..], best)
  {
    hide IndexOf, TrackedFrom;
    var x := s[0].(remaining := s[0].remaining - quantity);
    var t := [x] + s[1..];
    forall i | 0 <= i < |t| ensures t[i].price == s[i].price && t[i].remaining > 0 && t[i].side == side {
    }
  }

  lemma {:induction false} MatchInv(cfg: Config, prices: set<int>, o: NewOrder, s: seq<Order>, best: int, quantity: int, tradeId: int)
    requires SideInv(cfg, prices, Opposite(o.side), s, best)
    ensures cfg.tick > 0
    ensures var r := SlotMatch(cfg, o, s, best, quantity, tradeId); SideInv(cfg, prices, Opposite(o.side), r.m.rest, r.best)
    decreases |s|, Stale(cfg, Opposite(o.side), s, best)
  {
    hide IndexOf, PriceAt, SideInv, Stale, BestAfter, Advance;
    var side := Opposite(o.side);
    InvConfigured(cfg, prices, side, s, best);
    if quantity > 0 && best != EmptySentinel(side) && Crosses(o, best) {
      if !Here(cfg, s, best) {
        AdvanceFresh(cfg, side, s);
        StaleNow(cfg, side, s, best);
        AdvanceInv(cfg, prices, side, s, best);
        MatchInv(cfg, prices, o, s, Advance(cfg, side, s), quantity, tradeId);
      } else {
        TailInv(cfg, prices, side, s, best);
        var q, best' := Min(quantity, s[0].remaining), BestAfter(cfg, side, s[1..], best);
        MatchInv(cfg, prices, o, s[1..], best', quantity, tradeId);
        MatchInv(cfg, prices, o, s[1..], best', quantity - q, tradeId + 1);
        if s[0].remaining != q {
          ShrinkInv(cfg, prices, side, s, best, q);
        }
      }
    }
  }

  lemma InvConfigured(cfg: Config, prices: set<int>, side: Side, s: seq<Order>, best: int)
    requires SideInv(cfg, prices, side, s, best)
    ensures ValidConfig(cfg)
  {
  }

  // Where the newcomer's slot says.
  lemma {:induction false} SlotInsertIs(cfg: Config, s: seq<Order>, x: Order) returns (k: nat)
    requires cfg.tick > 0
    ensures k <= |s| && SlotInsert(cfg, s, x) == s[..k] + [x] + s[k..]
    ensures forall i :: 0 <= i < k ==> !Better(x.side, IndexOf(cfg, x.price), IndexOf(cfg, s[i].price))
    ensures k < |s| ==> Better(x.side, IndexOf(cfg, x.price), IndexOf(cfg, s[k].price))
  {
    hide IndexOf;
    if s == [] || Better(x.side, IndexOf(cfg, x.price), IndexOf(cfg, s[0].price)) {
      k := 0;
      assert s[..0] + [x] + s[0..] == [x] + s;
    } else {
      var j := SlotInsertIs(cfg, s[1..], x);
      k := j + 1;
      assert s[..k] + [x] + s[k..] == [s[0]] + (s[1..][..j] + [x] + s[1..][j..]);
      forall i | 0 <= i < k ensures !Better(x.side, IndexOf(cfg, x.price), IndexOf(cfg, s[i].price)) {
        assert i > 0 ==> s[i] == s[1..][i - 1];
      }
    }
  }

  lemma InsertInv(cfg: Config, prices: set<int>, s: seq<Order>, best: int, x: Order)
    requires SideInv(cfg, prices, x.side, s, best) && x.price in prices && InRange(cfg, x.price) && x.remaining > 0
    ensures cfg.tick > 0 && SideInv(cfg, prices, x.side, SlotInsert(cfg, s, x), BetterOf(x, best))
  {
    hide IndexOf, PriceAt, SlotInsert;
    var side := x.side;
    var k := SlotInsertIs(cfg, s, x);
    var t, best' := SlotInsert(cfg, s, x), BetterOf(x, best);
    forall i, j | 0 <= i < j < |t| ensures !Better(side, IndexOf(cfg, t[j].price), IndexOf(cfg, t[i].price)) {
      assert t[i] == if i < k then s[i] else if i == k then x else s[i - 1];
      assert t[j] == if j < k then s[j] else if j == k then x else s[j - 1];
      if i == k && k < j - 1 {
        assert !Better(side, IndexOf(cfg, s[j - 1].price), IndexOf(cfg, s[k].price));
      }
    }
    SlotsOrdered(cfg, x.price, best);
    SlotsOrdered(cfg, best, x.price);
    assert t[0] == if k == 0 then x else s[0];
  }

  lemma RemoveInv(cfg: Config, prices: set<int>, side: Side, s: seq<Order>, best: int, k: nat)
    requires SideInv(cfg, prices, side, s, best) && k < |s|
    ensures cfg.tick > 0
    ensures var t := s[..k] + s[k + 1..]; SideInv(cfg, prices, side, t, CancelledBest(cfg, side, t, best, s[k].price))
  {
    hide IndexOf, PriceAt, TrackedFrom, Advance;
    var t := s[..k] + s[k + 1..];
    forall i | 0 <= i < |t| ensures t[i] == s[if i < k then i else i + 1] {
    }
    assert SlotSide(cfg, side, t, best) by { RemoveSide(cfg, side, s, best, k); }
    if !Occupied(cfg, t, IndexOf(cfg, s[k].price)) && s[k].price == best {
      assert !Here(cfg, t, best);
      AdvanceInv(cfg, prices, side, t, best);
    }
  }

  lemma RemoveSide(cfg: Config, side: Side, s: seq<Order>, best: int, k: nat)
    requires SlotSide(cfg, side, s, best) && k < |s|
    ensures SlotSide(cfg, side, s[..k] + s[k + 1..], best)
  {
    hide IndexOf;
    var t := s[..k] + s[k + 1..];
    forall i | 0 <= i < |t| ensures t[i] == s[if i < k then i else i + 1] {
    }
    if t != [] && k == 0 {
      assert !Better(side, IndexOf(cfg, s[1].price), IndexOf(cfg, s[0].price));
    }
  }

  // ---------------------------------------------------------------------------------------------
  // Commands
  // ---------------------------------------------------------------------------------------------

  ghost predicate InvOn(cfg: Config, prices: set<int>, b: SlotBook, side: Side) {
    SideInv(cfg, prices, side, SideOf(b.book, side), BestOf(b, side))
  }

  lemma BothSides(cfg: Config, prices: set<int>, b: SlotBook, side: Side)
    ensures SlotInv(cfg, prices, b) <==> InvOn(cfg, prices, b, side) && InvOn(cfg, prices, b, Opposite(side))
  {
    hide SideInv;
  }

  lemma SubmitInv(cfg: Config, prices: set<int>, b: SlotBook, o: NewOrder)
    requires SlotInv(cfg, prices, b) && AdmitsOrder(cfg, prices, o)
    ensures cfg.tick > 0 && SlotInv(cfg, prices, SlotSubmit(cfg, b, o).state)
  {
    hide SideInv, SlotMatch, SlotRefusal, SlotInsert, BetterOf, SlotInv;
    var side := Opposite(o.side);
    BothSides(cfg, prices, b, side);
    InvConfigured(cfg, prices, side, SideOf(b.book, side), BestOf(b, side));
    MatchInv(cfg, prices, o, SideOf(b.book, side), BestOf(b, side), o.quantity, b.book.nextTradeId);
    var e := SlotSubmit(cfg, b, o);
    var r := SlotMatch(cfg, o, SideOf(b.book, side), BestOf(b, side), o.quantity, b.book.nextTradeId);
    if SlotRefusal(cfg, b, o).Ok? && e.result.rested {
      RestedInRange(cfg, b, o);
      InsertInv(cfg, prices, SideOf(b.book, o.side), BestOf(b, o.side), Residual(o, r.m.remaining, b.book.lastArrival + 1));
    }
    BothSides(cfg, prices, e.state, side);
  }

  lemma RestedInRange(cfg: Config, b: SlotBook, o: NewOrder)
    requires cfg.tick > 0 && SlotRefusal(cfg, b, o).Ok? && SlotSubmit(cfg, b, o).result.rested
    ensures o.kind.Limit? && InRange(cfg, o.price) && SlotSubmit(cfg, b, o).result.remaining > 0
  {
    hide SlotMatch, SlotAdd, SlotAvailable;
  }

  lemma CancelInv(cfg: Config, prices: set<int>, b: SlotBook, id: int)
    requires SlotInv(cfg, prices, b) && DisjointIds(b.book.bids, b.book.asks)
    ensures cfg.tick > 0 && SlotInv(cfg, prices, SlotCancel(cfg, b, id).state)
    ensures DisjointIds(SlotCancel(cfg, b, id).state.book.bids, SlotCancel(cfg, b, id).state.book.asks)
  {
    hide SideInv, CancelledBest, Find, SlotInv, RemoveResting, RestingOrder, DisjointIds;
    BothSides(cfg, prices, b, Buy);
    InvConfigured(cfg, prices, Buy, b.book.bids, b.bestBid);
    if IsResting(b.book, id) {
      var side := if Find(b.book.bids, id) != -1 then Buy else Sell;
      BothSides(cfg, prices, b, side);
      var s := SideOf(b.book, side);
      var k := Find(s, id);
      RemoveOne(b.book, side, id);
      RemoveIs(s, id);
      InvSides(cfg, prices, side, s, BestOf(b, side), k);
      RemoveInv(cfg, prices, side, s, BestOf(b, side), k);
      var b' := SlotCancel(cfg, b, id).state;
      FewerDisjoint(b.book, side, k);
      assert SideOf(b'.book, side) == s[..k] + s[k + 1..] && SideOf(b'.book, Opposite(side)) == SideOf(b.book, Opposite(side));
      BothSides(cfg, prices, b', side);
    }
  }

  lemma InvSides(cfg: Config, prices: set<int>, side: Side, s: seq<Order>, best: int, k: int)
    requires SideInv(cfg, prices, side, s, best) && 0 <= k < |s|
    ensures s[k].side == side
  {
  }

  lemma FewerDisjoint(b: Book, side: Side, k: nat)
    requires DisjointIds(b.bids, b.asks) && k < |SideOf(b, side)|
    ensures var s := SideOf(b, side); var b' := WithSide(b, side, s[..k] + s[k + 1..]); DisjointIds(b'.bids, b'.asks)
  {
    var s := SideOf(b, side);
    var t := s[..k] + s[k + 1..];
    forall i | 0 <= i < |t| ensures t[i] == s[if i < k then i else i + 1] {
    }
  }

  // No id on both lists, said of either side first.
  lemma DisjointEither(b: Book, side: Side)
    ensures DisjointIds(b.bids, b.asks) <==> DisjointIds(SideOf(b, side), SideOf(b, Opposite(side)))
  {
  }

  lemma RestDisjoint(cfg: Config, o: NewOrder, own: seq<Order>, opp: seq<Order>, best: int, quantity: int, tradeId: int)
    requires cfg.tick > 0 && DisjointIds(own, opp)
    ensures DisjointIds(own, SlotMatch(cfg, o, opp, best, quantity, tradeId).m.rest)
  {
    hide SlotMatch;
    var rest := SlotMatch(cfg, o, opp, best, quantity, tradeId).m.rest;
    forall i, j | 0 <= i < |own| && 0 <= j < |rest| ensures own[i].id != rest[j].id {
      NotThere(opp, own[i].id);
      SlotRestIds(cfg, o, opp, best, quantity, tradeId, own[i].id);
    }
  }

  lemma SlotInsertDisjoint(cfg: Config, s: seq<Order>, x: Order, t: seq<Order>)
    requires cfg.tick > 0 && DisjointIds(s, t) && forall j :: 0 <= j < |t| ==> t[j].id != x.id
    ensures DisjointIds(SlotInsert(cfg, s, x), t)
  {
    hide SlotInsert, IndexOf;
    var k := SlotInsertIs(cfg, s, x);
    var r := SlotInsert(cfg, s, x);
    forall i, j | 0 <= i < |r| && 0 <= j < |t| ensures r[i].id != t[j].id {
      assert r[i] == if i < k then s[i] else if i == k then x else s[i - 1];
    }
  }

  lemma SubmitDisjoint(cfg: Config, b: SlotBook, o: NewOrder)
    requires cfg.tick > 0 && DisjointIds(b.book.bids, b.book.asks)
    ensures var b' := SlotSubmit(cfg, b, o).state.book; DisjointIds(b'.bids, b'.asks)
  {
    hide SlotMatch, SlotRefusal, SlotInsert, DisjointIds, Find, BetterOf;
    if SlotRefusal(cfg, b, o).Ok? {
      var opp, own := SideOf(b.book, Opposite(o.side)), SideOf(b.book, o.side);
      DisjointEither(b.book, o.side);
      RestDisjoint(cfg, o, own, opp, BestOf(b, Opposite(o.side)), o.quantity, b.book.nextTradeId);
      var r := SlotMatch(cfg, o, opp, BestOf(b, Opposite(o.side)), o.quantity, b.book.nextTradeId);
      SlotStillFresh(cfg, b, o);
      assert Find(r.m.rest, o.id) == -1;
      SlotInsertDisjoint(cfg, own, Residual(o, r.m.remaining, b.book.lastArrival + 1), r.m.rest);
      DisjointEither(SlotSubmit(cfg, b, o).state.book, o.side);
    }
  }

  ghost predicate RunInv(cfg: Config, prices: set<int>, b: SlotBook) {
    SlotInv(cfg, prices, b) && DisjointIds(b.book.bids, b.book.asks)
  }

  lemma StepInv(cfg: Config, prices: set<int>, b: SlotBook, c: Command)
    requires RunInv(cfg, prices, b) && Admits(cfg, prices, c)
    ensures cfg.tick > 0 && RunInv(cfg, prices, SlotStep(cfg, b, c).state)
  {
    hide SlotInv, DisjointIds, SlotSubmit, SlotCancel, AdmitsOrder, ReplaceRefusal;
    match c
    case New(o) =>
      SubmitInv(cfg, prices, b, o);
      SubmitDisjoint(cfg, b, o);
    case Cancel(id) =>
      CancelInv(cfg, prices, b, id);
    case Replace(oldId, amended) =>
      CancelInv(cfg, prices, b, oldId);
      SubmitInv(cfg, prices, SlotCancel(cfg, b, oldId).state, amended);
      SubmitDisjoint(cfg, SlotCancel(cfg, b, oldId).state, amended);
  }

  /** Every run leaves each queue in slot order, with no slot in use before the tracked price's. */
  lemma {:induction false} RunKeepsSides(cfg: Config, prices: set<int>, cs: seq<Command>)
    requires ValidConfig(cfg) && AdmitsAll(cfg, prices, cs)
    ensures RunInv(cfg, prices, SlotRun(cfg, EmptySlots, cs))
    decreases |cs|
  {
    hide SlotStep, Admits, SlotInv, DisjointIds;
    if cs == [] {
      NothingInv(cfg, prices);
    } else {
      RunKeepsSides(cfg, prices, cs[..|cs| - 1]);
      StepInv(cfg, prices, SlotRun(cfg, EmptySlots, cs[..|cs| - 1]), cs[|cs| - 1]);
    }
  }

  lemma NothingInv(cfg: Config, prices: set<int>)
    requires ValidConfig(cfg)
    ensures RunInv(cfg, prices, EmptySlots)
  {
  }

  // ---------------------------------------------------------------------------------------------
  // Exactly which prices keep limits
  // ---------------------------------------------------------------------------------------------

  // Every admitted price but the lowest lies on the grid.
  ghost predicate GridAboveLowest(cfg: Config, prices: set<int>)
    requires cfg.tick > 0
  {
    forall p, q :: p in prices && q in prices && q < p ==> OnGrid(cfg, p)
  }

  ghost predicate AllLimits(cfg: Config, prices: set<int>)
    requires cfg.tick > 0
  {
    forall cs, side :: AdmitsAll(cfg, prices, cs) ==>
      var b := SlotRun(cfg, EmptySlots, cs); LimitsRespected(cfg, side, SideOf(b.book, side), BestOf(b, side))
  }

  lemma HonestOffer(cfg: Config, prices: set<int>, s: seq<Order>, best: int, k: nat)
    requires SideInv(cfg, prices, Sell, s, best) && k < |s| && GridAboveLowest(cfg, prices)
    ensures s[k].price <= Shown(cfg, s, best, k)
  {
    hide IndexOf, PriceAt, OnGrid, Positive;
    var p := s[k].price;
    var i := IndexOf(cfg, p);
    SlotFloor(cfg, p);
    SlotFloor(cfg, best);
    assert k > 0 ==> !Better(Sell, IndexOf(cfg, s[k].price), IndexOf(cfg, s[0].price));
    SlotsOrdered(cfg, p, best);
    if best !in prices {
      var q :| q in prices && IndexOf(cfg, q) < IndexOf(cfg, best);
      SlotsOrdered(cfg, p, q);
    }
  }

  lemma HonestBid(cfg: Config, prices: set<int>, s: seq<Order>, best: int, k: nat)
    requires SideInv(cfg, prices, Buy, s, best) && k < |s| && GridAboveLowest(cfg, prices)
    ensures Shown(cfg, s, best, k) <= s[k].price
  {
    hide IndexOf, PriceAt, OnGrid, Positive;
    SlotFloor(cfg, s[k].price);
    SlotFloor(cfg, best);
  }

  lemma GridHonest(cfg: Config, prices: set<int>, side: Side, s: seq<Order>, best: int)
    requires SideInv(cfg, prices, side, s, best) && GridAboveLowest(cfg, prices)
    ensures cfg.tick > 0 && Honest(cfg, side, s, best) && SlotSide(cfg, side, s, best)
  {
    hide Shown, SlotSide, TrackedFrom, GridAboveLowest;
    SideConfig(cfg, side, s, best);
    forall k | 0 <= k < |s| ensures !Better(side, Shown(cfg, s, best, k), s[k].price) {
      if side.Sell? {
        HonestOffer(cfg, prices, s, best, k);
      } else {
        HonestBid(cfg, prices, s, best, k);
      }
    }
  }

  // Two offers, the dearer between two ticks, are not honest.
  lemma DishonestOffers(cfg: Config, prices: set<int>, lo: int, hi: int)
    requires ValidConfig(cfg) && cfg.maxOrders >= 2 && InRange(cfg, lo) && InRange(cfg, hi) && lo < hi && !OnGrid(cfg, hi)
    requires lo in prices && hi in prices
    ensures AdmitsAll(cfg, prices, Offers(lo, hi))
    ensures var b := SlotRun(cfg, EmptySlots, Offers(lo, hi));
      SlotSide(cfg, Sell, b.book.asks, b.bestAsk) && !Honest(cfg, Sell, b.book.asks, b.bestAsk)
  {
    hide IndexOf, PriceAt, OnGrid, SlotRun, SlotSide;
    var x, y := RestingAt(1, lo, Sell), RestingAt(2, hi, Sell);
    if IndexOf(cfg, lo) == IndexOf(cfg, hi) {
      SlotmatesQueue(cfg, lo, hi);
    } else {
      BehindQueue(cfg, Sell, lo, hi);
      assert Behind(Sell, lo, hi) == Offers(lo, hi);
    }
    var b := SlotRun(cfg, EmptySlots, Offers(lo, hi));
    assert b.book.asks == [x, y] && b.bestAsk == lo;
    RunKeepsSides(cfg, prices, Offers(lo, hi));
    SlotFloor(cfg, hi);
    assert Better(Sell, Shown(cfg, [x, y], lo, 1), [x, y][1].price);
  }

  /** After every run every incoming order trades within its limit if and only if all admitted prices but the lowest lie
      on the tick grid. */
  lemma LimitsRunIff(cfg: Config, prices: set<int>)
    requires ValidConfig(cfg) && cfg.maxOrders >= 2 && forall p :: p in prices ==> InRange(cfg, p)
    ensures AllLimits(cfg, prices) <==> GridAboveLowest(cfg, prices)
  {
    hide SlotRun, AdmitsAll, SideInv, LimitsRespected, Honest, SlotSide, OnGrid;
    if GridAboveLowest(cfg, prices) {
      forall cs, side | AdmitsAll(cfg, prices, cs)
        ensures var b := SlotRun(cfg, EmptySlots, cs); LimitsRespected(cfg, side, SideOf(b.book, side), BestOf(b, side))
      {
        var b := SlotRun(cfg, EmptySlots, cs);
        RunKeepsSides(cfg, prices, cs);
        BothSides(cfg, prices, b, side);
        GridHonest(cfg, prices, side, SideOf(b.book, side), BestOf(b, side));
        LimitsIff(cfg, side, SideOf(b.book, side), BestOf(b, side));
      }
    } else {
      var p, q :| p in prices && q in prices && q < p && !OnGrid(cfg, p);
      DishonestOffers(cfg, prices, q, p);
      var b := SlotRun(cfg, EmptySlots, Offers(q, p));
      LimitsIff(cfg, Sell, b.book.asks, b.bestAsk);
      assert SideOf(b.book, Sell) == b.book.asks && BestOf(b, Sell) == b.bestAsk;
    }
  }

  // ---------------------------------------------------------------------------------------------
  // Inputs
  // ---------------------------------------------------------------------------------------------

  const TENS := Config(0, 1000, 10, 10, CancelPassive)

  // Two offers in the book, and a bid for both at a limit of 102.
  ghost predicate PaysMore(lo: int, hi: int) {
    var b := SlotRun(TENS, EmptySlots, Offers(lo, hi));
    var ts := SlotMatch(TENS, NewOrder(3, 102, 2, 2, Buy, Limit), b.book.asks, b.bestAsk, 2, 0).m.trades;
    |ts| > 1 && ts[1].price == hi > 102
  }

  /** With ticks of ten and a limit of 102, a bid pays 105 behind an offer at 101 in the same slot, and behind one at 90
      in another. */
  lemma PaysMoreExamples()
    ensures PaysMore(101, 105) && PaysMore(90, 105)
  {
    SlotmatesQueue(TENS, 101, 105);
    BehindQueue(TENS, Sell, 90, 105);
    assert Behind(Sell, 90, 105) == Offers(90, 105);
    PaysHigh(101, 101);
    PaysHigh(90, 90);
  }

  lemma PaysHigh(lo: int, best: int)
    requires (lo == 101 || lo == 90) && best == lo
    ensures var s := [RestingAt(1, lo, Sell), RestingAt(2, 105, Sell)];
      var ts := SlotMatch(TENS, NewOrder(3, 102, 2, 2, Buy, Limit), s, best, 2, 0).m.trades;
      |ts| > 1 && ts[1].price == 105
  {
    hide SlotMatch;
    var s, o := [RestingAt(1, lo, Sell), RestingAt(2, 105, Sell)], NewOrder(3, 102, 2, 2, Buy, Limit);
    assert IndexOf(TENS, 105) == 10 && IndexOf(TENS, 101) == 10 && IndexOf(TENS, 90) == 9;
    assert s[..1] == [s[0]] && s[..1][1..] == [];
    assert SumRemaining(s[..1]) == 1;
    assert SlotSide(TENS, Sell, s, best);
    ReachesTrade(TENS, o, s, best, 1, 2, 0);
  }

  /** Cancelling the offer at 101 leaves 101 tracked while the only offer is at 105, and an offer at 101 queues behind
      one at 105 that came first. */
  lemma MistrackedExamples()
    ensures SlotRun(TENS, EmptySlots, Offers(101, 105) + [Cancel(1)]).bestAsk == 101
    ensures SlotRun(TENS, EmptySlots, Offers(105, 101)).book.asks == [RestingAt(1, 105, Sell), RestingAt(2, 101, Sell)]
    ensures Run(TENS, EmptyBook, Offers(105, 101)).asks == [RestingAt(2, 101, Sell), RestingAt(1, 105, Sell)]
  {
    SlotmatesStale(TENS, 101, 105);
    SlotmatesQueue(TENS, 105, 101);
  }
}
