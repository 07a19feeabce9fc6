/** When matching by slot is matching by price and time: if limit orders name only prices of the tick grid, or all name
    the same price. */
module FairPrices {
  import opened Types
  import opened Matcher
  import opened MatcherLaws
  import opened BookLaws
  import opened Grid
  import opened SlotMatcher

  // ---------------------------------------------------------------------------------------------
  // Admitted prices
  // ---------------------------------------------------------------------------------------------

  // All admitted prices lie on the grid, or there is only one.
  ghost predicate Fair(cfg: Config, prices: set<int>) {
    && ValidConfig(cfg)
    && (forall p :: p in prices ==> InRange(cfg, p))
    && (forall p, q :: p in prices && q in prices ==> OnGrid(cfg, p) || p == q)
  }

  ghost predicate Within(prices: set<int>, s: seq<Order>) {
    forall i :: 0 <= i < |s| ==> s[i].price in prices
  }

  // Only an order that may rest has to name an admitted price.
  ghost predicate AdmitsOrder(cfg: Config, prices: set<int>, o: NewOrder) {
    o.kind.Limit? && InRange(cfg, o.price) ==> o.price in prices
  }

  ghost predicate Admits(cfg: Config, prices: set<int>, c: Command) {
    match c
    case New(o) => AdmitsOrder(cfg, prices, o)
    case Cancel(_) => true
    case Replace(_, o) => AdmitsOrder(cfg, prices, o)
  }

  ghost predicate AdmitsAll(cfg: Config, prices: set<int>, cs: seq<Command>) {
    forall i :: 0 <= i < |cs| ==> Admits(cfg, prices, cs[i])
  }

  // ---------------------------------------------------------------------------------------------
  // Queues and tracked prices
  // ---------------------------------------------------------------------------------------------

  lemma GridPrice(cfg: Config, p: int)
    requires cfg.tick > 0 && OnGrid(cfg, p)
    ensures PriceAt(cfg, IndexOf(cfg, p)) == p
  {
    SlotFloor(cfg, p);
  }

  // Slots compare as prices do.
  lemma FairCompare(cfg: Config, prices: set<int>, side: Side, p: int, q: int)
    requires Fair(cfg, prices) && p in prices && q in prices
    ensures Better(side, IndexOf(cfg, p), IndexOf(cfg, q)) <==> Better(side, p, q)
    ensures IndexOf(cfg, p) == IndexOf(cfg, q) <==> p == q
    ensures p != q ==> PriceAt(cfg, IndexOf(cfg, p)) == p
  {
    hide IndexOf, OnGrid;
    if p != q {
      assert OnGrid(cfg, p) && OnGrid(cfg, q);
      GridPrice(cfg, p);
      GridPrice(cfg, q);
      PriceOrder(cfg, IndexOf(cfg, p), IndexOf(cfg, q));
      PriceOrder(cfg, IndexOf(cfg, q), IndexOf(cfg, p));
    }
  }

  lemma {:induction false} FairInsert(cfg: Config, prices: set<int>, s: seq<Order>, x: Order)
    requires Fair(cfg, prices) && Within(prices, s) && x.price in prices
    ensures SlotInsert(cfg, s, x) == Insert(s, x)
  {
    hide Fair, IndexOf;
    assert cfg.tick > 0 by { FairTick(cfg, prices); }
    if s != [] {
      FairCompare(cfg, prices, x.side, x.price, s[0].price);
      FairInsert(cfg, prices, s[1..], x);
    }
  }

  lemma FairTick(cfg: Config, prices: set<int>)
    requires Fair(cfg, prices)
    ensures ValidConfig(cfg) && forall p :: p in prices ==> InRange(cfg, p)
  {
  }

  lemma FairBestAfter(cfg: Config, prices: set<int>, side: Side, s: seq<Order>)
    requires Fair(cfg, prices) && Within(prices, s) && s != []
    ensures cfg.tick > 0 && Here(cfg, s, s[0].price)
    ensures BestAfter(cfg, side, s[1..], s[0].price) == TrueBest(side, s[1..])
  {
    hide IndexOf, OnGrid, PriceAt;
    if |s| > 1 {
      FairCompare(cfg, prices, side, s[1].price, s[0].price);
    }
  }

  /** Matching by slot is matching by price and time, and leaves the tracked price exact. */
  lemma {:induction false} FairMatch(cfg: Config, prices: set<int>, o: NewOrder, opp: seq<Order>, remaining: int, tradeId: int)
    requires Fair(cfg, prices) && Within(prices, opp)
    ensures cfg.tick > 0
    ensures var side := Opposite(o.side);
      var r, m := SlotMatch(cfg, o, opp, TrueBest(side, opp), remaining, tradeId), Match(cfg.stp, o, opp, remaining, tradeId);
      r.m == m && r.best == TrueBest(side, m.rest)
    decreases |opp|
  {
    hide SlotMatch, TakeTurn, Fair, Within;
    FairTurn(cfg, prices, o, opp, remaining, tradeId);
    match TakeTurn(cfg.stp, o, opp, remaining, tradeId)
    case Stop(_) =>
    case Gone(trades, _, remaining') =>
      FairMatch(cfg, prices, o, opp[1..], remaining', tradeId + |trades|);
  }

  // One turn by slot is one turn by price and time.
  lemma FairTurn(cfg: Config, prices: set<int>, o: NewOrder, opp: seq<Order>, remaining: int, tradeId: int)
    requires Fair(cfg, prices) && Within(prices, opp)
    ensures cfg.tick > 0
    ensures var side := Opposite(o.side);
      var r := SlotMatch(cfg, o, opp, TrueBest(side, opp), remaining, tradeId);
      match TakeTurn(cfg.stp, o, opp, remaining, tradeId)
      case Stop(m) => r == SlotResult(m, TrueBest(side, m.rest))
      case Gone(ts, vs, remaining') =>
        && opp != [] && Within(prices, opp[1..])
        && r == SlotEmit(ts, vs, SlotMatch(cfg, o, opp[1..], TrueBest(side, opp[1..]), remaining', tradeId + |ts|))
  {
    hide BestAfter, OnGrid, IndexOf, Match;
    if opp != [] {
      FairBestAfter(cfg, prices, Opposite(o.side), opp);
    }
  }

  lemma {:induction false} FairAvailable(cfg: Config, prices: set<int>, o: NewOrder, opp: seq<Order>, sum: int)
    requires Fair(cfg, prices) && Within(prices, opp)
    ensures cfg.tick > 0
    ensures SlotAvailable(cfg, o, opp, TrueBest(Opposite(o.side), opp), sum) == Available(cfg.stp, o, opp, sum)
    decreases |opp|
  {
    hide BestAfter, OnGrid;
    if opp != [] {
      FairBestAfter(cfg, prices, Opposite(o.side), opp);
      FairAvailable(cfg, prices, o, opp[1..], sum);
      FairAvailable(cfg, prices, o, opp[1..], sum + opp[0].remaining);
    }
  }

  // ---------------------------------------------------------------------------------------------
  // Books
  // ---------------------------------------------------------------------------------------------

  // The same configuration with every price on the grid; the price-time matcher does not look at the tick.
  function Fine(cfg: Config): Config {
    cfg.(tick := 1)
  }

  // A price-time book, at admitted prices.
  ghost predicate FairBook(cfg: Config, prices: set<int>, b: Book) {
    Fair(cfg, prices) && BookInv(Fine(cfg), b) && Within(prices, b.bids) && Within(prices, b.asks)
  }

  lemma FineSubmit(cfg: Config, b: Book, o: NewOrder)
    ensures Submit(Fine(cfg), b, o) == Submit(cfg, b, o) && Refusal(Fine(cfg), b, o) == Refusal(cfg, b, o)
  {
    hide Match, Available, Insert, Find;
  }

  lemma FairSide(cfg: Config, prices: set<int>, b: Book, side: Side)
    requires FairBook(cfg, prices, b)
    ensures Within(prices, SideOf(b, side)) && cfg.tick > 0
    ensures forall i, j :: 0 <= i < j < |SideOf(b, side)| ==> !Better(side, SideOf(b, side)[j].price, SideOf(b, side)[i].price)
    ensures forall i :: 0 <= i < |SideOf(b, side)| ==> SideOf(b, side)[i].side == side
  {
    hide OnGrid;
    var s, c := SideOf(b, side), Fine(cfg);
    assert SideOk(c, side, b.lastArrival, s);
    forall i | 0 <= i < |s| ensures s[i].side == side {
      assert OrderOk(c, side, b.lastArrival, s[i]);
    }
    forall i, j | 0 <= i < j < |s| ensures !Better(side, s[j].price, s[i].price) {
      assert Ahead(side, s[i], s[j]);
    }
  }

  lemma FairAdd(cfg: Config, prices: set<int>, b: Book, x: Order)
    requires Fair(cfg, prices) && Within(prices, SideOf(b, x.side)) && x.price in prices
    ensures cfg.tick > 0 && SlotAdd(cfg, OfBook(b), x) == OfBook(WithSide(b, x.side, Insert(SideOf(b, x.side), x)))
  {
    hide SlotInsert, OnGrid;
    FairInsert(cfg, prices, SideOf(b, x.side), x);
  }

  lemma FairRefusal(cfg: Config, prices: set<int>, b: Book, o: NewOrder)
    requires FairBook(cfg, prices, b)
    ensures cfg.tick > 0 && SlotRefusal(cfg, OfBook(b), o) == Refusal(cfg, b, o)
  {
    hide Available, SlotAvailable, IsResting, BookInv, OnGrid;
    var side := Opposite(o.side);
    FairSide(cfg, prices, b, side);
    var s := SideOf(b, side);
    assert s != [] ==> InRange(cfg, s[0].price);
    FairAvailable(cfg, prices, o, s, 0);
  }

  lemma FairSubmit(cfg: Config, prices: set<int>, b: Book, o: NewOrder)
    requires FairBook(cfg, prices, b) && AdmitsOrder(cfg, prices, o)
    ensures cfg.tick > 0
    ensures var e := Submit(cfg, b, o);
      SlotSubmit(cfg, OfBook(b), o) == SlotEffect(OfBook(e.book), e.result, e.trades, e.victims)
  {
    hide BookInv, Match, SlotMatch, Refusal, SlotRefusal, SlotInsert, Insert, SlotAdd, Fair, Within;
    FairRefusal(cfg, prices, b, o);
    if Refusal(cfg, b, o).Ok? {
      var side := Opposite(o.side);
      FairSide(cfg, prices, b, side);
      FairSide(cfg, prices, b, o.side);
      FairMatch(cfg, prices, o, SideOf(b, side), o.quantity, b.nextTradeId);
      var m := Match(cfg.stp, o, SideOf(b, side), o.quantity, b.nextTradeId);
      var b' := WithSide(b, side, m.rest).(lastArrival := b.lastArrival + 1, nextTradeId := b.nextTradeId + |m.trades|);
      assert SideOf(b', o.side) == SideOf(b, o.side);
      if o.kind.Limit? {
        AcceptedInRange(cfg, b, o);
        FairAdd(cfg, prices, b', Residual(o, m.remaining, b.lastArrival + 1));
      }
    }
  }

  lemma AcceptedInRange(cfg: Config, b: Book, o: NewOrder)
    requires Refusal(cfg, b, o).Ok? && !o.kind.Market?
    ensures InRange(cfg, o.price)
  {
  }

  lemma FairCancelledBest(cfg: Config, prices: set<int>, side: Side, s: seq<Order>, k: nat)
    requires Fair(cfg, prices) && Within(prices, s) && k < |s|
    requires forall i, j :: 0 <= i < j < |s| ==> !Better(side, s[j].price, s[i].price)
    ensures cfg.tick > 0
    ensures CancelledBest(cfg, side, s[..k] + s[k + 1..], TrueBest(side, s), s[k].price) == TrueBest(side, s[..k] + s[k + 1..])
  {
    hide IndexOf, OnGrid, PriceAt;
    var rest := s[..k] + s[k + 1..];
    if k > 0 {
      assert rest[0] == s[0];
      FairCompare(cfg, prices, side, s[k].price, s[0].price);
    } else {
      assert rest == s[1..];
      if Occupied(cfg, rest, IndexOf(cfg, s[0].price)) {
        var i :| 0 <= i < |rest| && IndexOf(cfg, rest[i].price) == IndexOf(cfg, s[0].price);
        assert rest[i] == s[i + 1];
        FairCompare(cfg, prices, side, s[i + 1].price, s[0].price);
      } else if rest != [] {
        FairCompare(cfg, prices, side, rest[0].price, s[0].price);
      }
    }
  }

  lemma FairCancel(cfg: Config, prices: set<int>, b: Book, id: int)
    requires FairBook(cfg, prices, b)
    ensures cfg.tick > 0
    ensures var e := CancelOrder(b, id);
      SlotCancel(cfg, OfBook(b), id) == SlotEffect(OfBook(e.book), e.result, e.trades, e.victims)
  {
    hide BookInv, CancelledBest, Find, RemoveResting, RestingOrder, TrueBest, Remove, Fair, Within;
    FairSide(cfg, prices, b, Buy);
    if IsResting(b, id) {
      var side := if Find(b.bids, id) != -1 then Buy else Sell;
      var s := SideOf(b, side);
      FairSide(cfg, prices, b, side);
      InvDisjoint(Fine(cfg), b);
      RemoveOne(b, side, id);
      RemoveIs(s, id);
      FairCancelledBest(cfg, prices, side, s, Find(s, id));
    }
  }

  lemma InvDisjoint(cfg: Config, b: Book)
    requires BookInv(cfg, b)
    ensures DisjointIds(b.bids, b.asks)
  {
  }

  lemma RemoveIs(s: seq<Order>, id: int)
    requires Find(s, id) != -1
    ensures var k := Find(s, id); Remove(s, id) == s[..k] + s[k + 1..]
  {
  }

  // ---------------------------------------------------------------------------------------------
  // Admitted prices stay
  // ---------------------------------------------------------------------------------------------

  lemma {:induction false} MatchWithin(prices: set<int>, stp: StpPolicy, o: NewOrder, opp: seq<Order>, remaining: int, tradeId: int)
    requires Within(prices, opp)
    ensures Within(prices, Match(stp, o, opp, remaining, tradeId).rest)
    decreases |opp|
  {
    match TakeTurn(stp, o, opp, remaining, tradeId)
    case Stop(m) =>
    case Gone(trades, _, remaining') =>
      MatchWithin(prices, stp, o, opp[1..], remaining', tradeId + |trades|);
  }

  lemma InsertWithin(prices: set<int>, s: seq<Order>, x: Order)
    requires Within(prices, s) && x.price in prices
    ensures Within(prices, Insert(s, x))
  {
    InsertIs(s, x);
  }

  lemma SubmitFair(cfg: Config, prices: set<int>, b: Book, o: NewOrder)
    requires FairBook(cfg, prices, b) && AdmitsOrder(cfg, prices, o)
    ensures FairBook(cfg, prices, Submit(cfg, b, o).book)
  {
    hide BookInv, Match, Refusal, Insert, Fair, Within;
    SubmitKeeps(Fine(cfg), b, o);
    FineSubmit(cfg, b, o);
    if Refusal(cfg, b, o).Ok? {
      var opp, own := SideOf(b, Opposite(o.side)), SideOf(b, o.side);
      var m := Match(cfg.stp, o, opp, o.quantity, b.nextTradeId);
      MatchWithin(prices, cfg.stp, o, opp, o.quantity, b.nextTradeId);
      if o.kind.Limit? {
        AcceptedInRange(cfg, b, o);
        InsertWithin(prices, own, Residual(o, m.remaining, b.lastArrival + 1));
      }
    }
  }

  lemma CancelFair(cfg: Config, prices: set<int>, b: Book, id: int)
    requires FairBook(cfg, prices, b)
    ensures FairBook(cfg, prices, CancelOrder(b, id).book)
  {
    hide BookInv, Fair, Find;
    CancelKeeps(Fine(cfg), b, id);
  }

  lemma StepFair(cfg: Config, prices: set<int>, b: Book, c: Command)
    requires FairBook(cfg, prices, b) && Admits(cfg, prices, c)
    ensures FairBook(cfg, prices, Step(cfg, b, c).book)
  {
    hide FairBook, Submit, CancelOrder, ReplaceRefusal;
    match c
    case New(o) => SubmitFair(cfg, prices, b, o);
    case Cancel(id) => CancelFair(cfg, prices, b, id);
    case Replace(oldId, amended) =>
      if ReplaceRefusal(cfg, b, oldId, amended).Ok? {
        CancelFair(cfg, prices, b, oldId);
        SubmitFair(cfg, prices, CancelOrder(b, oldId).book, amended);
      }
  }

  // ---------------------------------------------------------------------------------------------
  // Commands and runs
  // ---------------------------------------------------------------------------------------------

  lemma FairReplace(cfg: Config, prices: set<int>, b: Book, oldId: int, amended: NewOrder)
    requires FairBook(cfg, prices, b) && AdmitsOrder(cfg, prices, amended)
    ensures cfg.tick > 0
    ensures var e := ReplaceOrder(cfg, b, oldId, amended);
      && SlotReplace(cfg, OfBook(b), oldId, amended)
         == SlotReplaceEffect(SlotEffect(OfBook(e.effect.book), e.effect.result, e.effect.trades, e.effect.victims), e.cancelled, e.removed)
  {
    hide FairBook, Submit, SlotSubmit, CancelOrder, SlotCancel, ReplaceRefusal, AdmitsOrder, TrueBest;
    FairCancel(cfg, prices, b, oldId);
    if ReplaceRefusal(cfg, b, oldId, amended).Ok? {
      CancelFair(cfg, prices, b, oldId);
      FairSubmit(cfg, prices, CancelOrder(b, oldId).book, amended);
    }
  }

  /** Every admitted command does by slot what it does by price and time. */
  lemma FairStep(cfg: Config, prices: set<int>, b: Book, c: Command)
    requires FairBook(cfg, prices, b) && Admits(cfg, prices, c)
    ensures cfg.tick > 0
    ensures var e := Step(cfg, b, c);
      SlotStep(cfg, OfBook(b), c) == SlotEffect(OfBook(e.book), e.result, e.trades, e.victims)
  {
    hide FairBook, Submit, SlotSubmit, CancelOrder, SlotCancel, ReplaceOrder, SlotReplace, AdmitsOrder, OfBook;
    match c
    case New(o) => FairSubmit(cfg, prices, b, o);
    case Cancel(id) => FairCancel(cfg, prices, b, id);
    case Replace(oldId, amended) => FairReplace(cfg, prices, b, oldId, amended);
  }

  lemma {:induction false} FairRun(cfg: Config, prices: set<int>, b: Book, cs: seq<Command>)
    requires FairBook(cfg, prices, b) && AdmitsAll(cfg, prices, cs)
    ensures cfg.tick > 0 && SlotRun(cfg, OfBook(b), cs) == OfBook(Run(cfg, b, cs)) && FairBook(cfg, prices, Run(cfg, b, cs))
    decreases |cs|
  {
    hide FairBook, Step, SlotStep, Admits, OfBook;
    if cs == [] {
      BookTick(cfg, prices, b);
    } else {
      var most, b' := cs[..|cs| - 1], Run(cfg, b, cs[..|cs| - 1]);
      FairRun(cfg, prices, b, most);
      FairStep(cfg, prices, b', cs[|cs| - 1]);
      StepFair(cfg, prices, b', cs[|cs| - 1]);
    }
  }

  lemma BookTick(cfg: Config, prices: set<int>, b: Book)
    requires FairBook(cfg, prices, b)
    ensures cfg.tick > 0
  {
  }

  // ---------------------------------------------------------------------------------------------
  // The tick grid
  // ---------------------------------------------------------------------------------------------

  ghost function GridPrices(cfg: Config): set<int>
    requires cfg.tick > 0
  {
    set p | cfg.minPrice <= p <= cfg.maxPrice && OnGrid(cfg, p)
  }

  lemma GridFair(cfg: Config, b: Book)
    requires BookInv(cfg, b)
    ensures FairBook(cfg, GridPrices(cfg), b)
  {
    GridInv(cfg, b);
    hide OnGrid, DistinctIds, DisjointIds, Sorted, BookLaws.Apart;
    forall side, i | 0 <= i < |SideOf(b, side)| ensures SideOf(b, side)[i].price in GridPrices(cfg) {
      assert SideOk(cfg, side, b.lastArrival, SideOf(b, side));
      assert OrderOk(cfg, side, b.lastArrival, SideOf(b, side)[i]);
    }
    assert SideOf(b, Buy) == b.bids && SideOf(b, Sell) == b.asks;
  }

  lemma GridInv(cfg: Config, b: Book)
    requires BookInv(cfg, b)
    ensures BookInv(Fine(cfg), b)
  {
    forall side: Side ensures AllOk(Fine(cfg), side, b.lastArrival, SideOf(b, side)) {
      var s := SideOf(b, side);
      forall i | 0 <= i < |s| ensures OrderOk(Fine(cfg), side, b.lastArrival, s[i]) {
        assert SideOk(cfg, side, b.lastArrival, s);
        assert OrderOk(cfg, side, b.lastArrival, s[i]);
      }
    }
    assert SideOf(b, Buy) == b.bids && SideOf(b, Sell) == b.asks;
  }

  lemma GridSubmit(cfg: Config, b: Book, o: NewOrder)
    requires BookInv(cfg, b) && GridOrder(cfg, o)
    ensures var e := Submit(cfg, b, o);
      SlotSubmit(cfg, OfBook(b), o) == SlotEffect(OfBook(e.book), e.result, e.trades, e.victims)
  {
    hide FairBook, SlotSubmit, Submit, OfBook, SideOk;
    GridFair(cfg, b);
    FairSubmit(cfg, GridPrices(cfg), b, o);
  }

  lemma GridCancel(cfg: Config, b: Book, id: int)
    requires BookInv(cfg, b)
    ensures var e := CancelOrder(b, id);
      SlotCancel(cfg, OfBook(b), id) == SlotEffect(OfBook(e.book), e.result, e.trades, e.victims)
  {
    hide FairBook, SlotCancel, CancelOrder, OfBook, SideOk;
    GridFair(cfg, b);
    FairCancel(cfg, GridPrices(cfg), b, id);
  }

  lemma GridReplace(cfg: Config, b: Book, oldId: int, amended: NewOrder)
    requires BookInv(cfg, b) && GridOrder(cfg, amended)
    ensures var e := ReplaceOrder(cfg, b, oldId, amended);
      && SlotReplace(cfg, OfBook(b), oldId, amended)
         == SlotReplaceEffect(SlotEffect(OfBook(e.effect.book), e.effect.result, e.effect.trades, e.effect.victims), e.cancelled, e.removed)
  {
    hide FairBook, SlotReplace, ReplaceOrder, OfBook, SideOk;
    GridFair(cfg, b);
    FairReplace(cfg, GridPrices(cfg), b, oldId, amended);
  }

  /** On the grid every command does by slot what it does by price and time. */
  lemma GridStep(cfg: Config, b: Book, c: Command)
    requires BookInv(cfg, b) && GridCommand(cfg, c)
    ensures var e := Step(cfg, b, c);
      SlotStep(cfg, OfBook(b), c) == SlotEffect(OfBook(e.book), e.result, e.trades, e.victims)
  {
    hide FairBook, SlotStep, Step, OfBook, SideOk;
    GridFair(cfg, b);
    FairStep(cfg, GridPrices(cfg), b, c);
  }

  lemma GridRun(cfg: Config, b: Book, cs: seq<Command>)
    requires BookInv(cfg, b) && forall i :: 0 <= i < |cs| ==> GridCommand(cfg, cs[i])
    ensures SlotRun(cfg, OfBook(b), cs) == OfBook(Run(cfg, b, cs))
  {
    hide FairBook, SlotRun, Run, OfBook, SideOk;
    GridFair(cfg, b);
    FairRun(cfg, GridPrices(cfg), b, cs);
  }

  // Every order waits on the tick grid.
  ghost predicate OnGridAll(cfg: Config, s: seq<Order>)
    requires cfg.tick > 0
  {
    forall i :: 0 <= i < |s| ==> InRange(cfg, s[i].price) && OnGrid(cfg, s[i].price)
  }

  lemma GridAdd(cfg: Config, b: Book, x: Order)
    requires ValidConfig(cfg) && OnGridAll(cfg, SideOf(b, x.side)) && InRange(cfg, x.price) && OnGrid(cfg, x.price)
    ensures SlotAdd(cfg, OfBook(b), x) == OfBook(WithSide(b, x.side, Insert(SideOf(b, x.side), x)))
  {
    hide SlotAdd, Insert, OfBook;
    FairAdd(cfg, GridPrices(cfg), b, x);
  }
}
