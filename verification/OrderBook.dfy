/** The book itself: four structures that must always agree, updated in place, and proved to yield
    exactly the trades, results and final book of the matcher on two priority lists. */
module OrderBooks {
  import opened Types
  import opened Matcher
  import opened MatcherLaws
  import opened BookLaws
  import opened Verdicts
  import opened Conservation
  import opened Chains
  import opened Grid
  import opened SlotMatcher
  import opened FairPrices
  import opened Sides
  import opened Images
  import opened Occupancy
  import opened ObjectPool
  import opened LevelMaps
  import opened LevelRecords
  import opened MatchGoals
  import opened BookWalks
  import OrderIdMap
  import Words

  // A caller-provided fixed buffer: pushes past the capacity are counted but not stored.
  class Buffer<T(0)> {
    const data: array<T>
    var count: nat

    // Everything pushed since the last clear.
    ghost var log: seq<T>

    ghost predicate Valid()
      reads this, data
    {
      count == |log| && forall k :: 0 <= k < count && k < data.Length ==> data[k] == log[k]
    }

    constructor (capacity: nat)
      ensures Valid() && log == [] && data.Length == capacity && fresh(data)
    {
      data := new T[capacity];
      count := 0;
      log := [];
    }

    method Push(x: T)
      requires Valid()
      modifies this, data
      ensures Valid() && log == old(log) + [x]
    {
      if count < data.Length {
        data[count] := x;
      }
      count := count + 1;
      log := log + [x];
    }

    method Clear()
      modifies this
      ensures Valid() && log == []
    {
      count := 0;
      log := [];
    }
  }

  // ---------------------------------------------------------------------------------------------
  // Sizing the id map
  // ---------------------------------------------------------------------------------------------

  // `std::bit_width`
  function BitWidth(x: nat): (w: nat)
    ensures x < Words.Pow2(w)
    ensures x > 0 ==> w > 0 && Words.Pow2(w - 1) <= x
  {
    if x == 0 then 0 else 1 + BitWidth(x / 2)
  }

  /** The least power of two that is at least `n`, so that masking works and the map is at most half full. */
  function NextPowerOfTwo(n: nat): (r: nat)
    ensures r >= n && r >= 1 && (n > 1 ==> r < 2 * n)
    ensures exists k :: r == Words.Pow2(k)
  {
    if n <= 1 then
      assert Words.Pow2(0) == 1;
      1
    else Words.Pow2(BitWidth(n - 1))
  }

  // ---------------------------------------------------------------------------------------------
  // The book
  // ---------------------------------------------------------------------------------------------

  // No two parts share memory.
  ghost predicate DisjointParts(bids: LevelMap, asks: LevelMap, idMap: OrderIdMap.Table, pool: Pool) {
    var m: set<object> := {idMap, idMap.keys, idMap.values, idMap.occupied};
    var p: set<object> := {pool, pool.slots};
    bids.Repr() !! asks.Repr() !! m !! p
  }

  ghost predicate EmptySide(cfg: Config, side: Side, lm: LevelMap)
    requires ValidConfig(cfg)
    reads lm.Repr()
  {
    && lm.Valid() && lm.Flagged(-1) && lm.cfg == cfg && lm.side == side
    && lm.chains == seq(Slots(cfg), _ => []) && lm.best == EmptySentinel(side)
    && forall i :: 0 <= i < lm.levels.Length ==> lm.levels[i] == PriceLevel(NULL, NULL, PriceAt(cfg, i), 0, 0)
  }

  ghost predicate EmptyParts(cfg: Config, bids: LevelMap, asks: LevelMap, idMap: OrderIdMap.Table, pool: Pool)
    requires ValidConfig(cfg)
    reads bids.Repr(), asks.Repr(), idMap, idMap.keys, idMap.values, idMap.occupied, pool, pool.slots
  {
    && EmptySide(cfg, Buy, bids) && EmptySide(cfg, Sell, asks)
    && idMap.Valid() && idMap.Map() == map[] && idMap.size == 0
    && idMap.capacity > cfg.maxOrders && idMap.capacity >= 2 * cfg.maxOrders
    && pool.Valid() && pool.capacity == cfg.maxOrders && pool.inUse == 0
    && forall p :: 0 <= p < pool.slots.Length ==> pool.slots[p].Free?
  }

  class OrderBook {
    const cfg: Config
    const bids: LevelMap
    const asks: LevelMap
    const idMap: OrderIdMap.Table
    const pool: Pool
    var lastArrival: int
    var nextTradeId: int

    function SideMap(side: Side): LevelMap {
      if side.Buy? then bids else asks
    }

    ghost function MapRepr(): set<object> {
      {idMap, idMap.keys, idMap.values, idMap.occupied}
    }

    ghost function PoolRepr(): set<object> {
      {pool, pool.slots}
    }

    ghost function Body(): set<object> {
      bids.Repr() + asks.Repr() + MapRepr() + PoolRepr()
    }

    ghost function Repr(): set<object> {
      {this} + Body()
    }

    ghost predicate Separate() {
      DisjointParts(bids, asks, idMap, pool) && this !in Body()
    }

    ghost function Pointers(): Image
      reads pool.slots, bids, asks, idMap
    {
      Image(pool.slots[..], bids.chains, asks.chains, idMap.Map())
    }

    // The book as the two priority lists and the counters.
    ghost function View(): Book
      reads this, pool.slots, bids, asks, idMap
    {
      Book(OrdersOn(Pointers(), Buy), OrdersOn(Pointers(), Sell), lastArrival, nextTradeId)
    }

    // The book with the two tracked prices.
    ghost function SlotView(): SlotBook
      reads this, pool.slots, bids, asks, idMap
    {
      SlotBook(View(), bids.best, asks.best)
    }

    ghost predicate Parts()
      reads Body()
    {
      && Separate() && ValidConfig(cfg)
      && bids.Valid() && bids.cfg == cfg && bids.side == Buy && bids.Records(pool.slots[..])
      && asks.Valid() && asks.cfg == cfg && asks.side == Sell && asks.Records(pool.slots[..])
      && idMap.Valid() && pool.Valid()
      && pool.capacity == cfg.maxOrders && idMap.capacity > cfg.maxOrders && idMap.capacity >= 2 * cfg.maxOrders
    }

    // Everything agrees, but level `pending` of one side may be flagged occupied after losing its last order.
    ghost predicate Sound(side: Side, pending: int)
      reads Body()
    {
      && Parts()
      && SideMap(side).Flagged(pending) && SideMap(Opposite(side)).Flagged(-1)
      && Consistent(cfg, Pointers())
      && idMap.size == pool.inUse == |OrdersOn(Pointers(), Buy)| + |OrdersOn(Pointers(), Sell)|
    }

    // On the grid: the lists are in price-time order and the tracked prices are exact.
    ghost predicate Valid()
      reads Repr()
    {
      Sound(Buy, -1) && BookInv(cfg, View()) && SlotView() == OfBook(View())
    }

    // A book over freshly built, empty parts.
    constructor Assemble(cfg: Config, bids: LevelMap, asks: LevelMap, idMap: OrderIdMap.Table, pool: Pool)
      requires ValidConfig(cfg) && EmptyParts(cfg, bids, asks, idMap, pool)
      requires DisjointParts(bids, asks, idMap, pool)
      ensures Valid() && this.cfg == cfg && View() == EmptyBook
      ensures this.bids == bids && this.asks == asks && this.idMap == idMap && this.pool == pool
    {
      hide Consistent, BookInv, LevelsOk, OrdersOn, LevelMap.Valid, OrderIdMap.Table.Valid, Pool.Valid, Slots;
      this.cfg := cfg;
      this.bids := bids;
      this.asks := asks;
      this.idMap := idMap;
      this.pool := pool;
      lastArrival := 0;
      nextTradeId := 0;
      new;
      pool.Bound();
      bids.Lengths();
      asks.Lengths();
      EmptyLevels(cfg, pool.slots[..], bids.levels[..], bids.chains);
      EmptyLevels(cfg, pool.slots[..], asks.levels[..], asks.chains);
      NothingQueued(cfg, Pointers());
    }

    static method CreateSides(cfg: Config) returns (bids: LevelMap, asks: LevelMap)
      requires ValidConfig(cfg)
      ensures EmptySide(cfg, Buy, bids) && EmptySide(cfg, Sell, asks)
      ensures bids.Repr() !! asks.Repr() && fresh(bids.Repr()) && fresh(asks.Repr())
    {
      hide LevelMap.Valid, ValidConfig, Slots;
      bids := new LevelMap(cfg, Buy);
      asks := new LevelMap(cfg, Sell);
    }

    static method Create(cfg: Config) returns (book: OrderBook)
      requires ValidConfig(cfg)
      ensures book.Valid() && book.cfg == cfg && book.View() == EmptyBook && fresh(book.Repr())
    {
      hide NextPowerOfTwo, EmptySide, LevelMap.Valid, OrderIdMap.Table.Valid, Pool.Valid, OrderBook.Valid, OrderBook.View, ValidConfig;
      var bids, asks := CreateSides(cfg);
      var idMap := new OrderIdMap.Table(NextPowerOfTwo(cfg.maxOrders * 2));
      var pool := new Pool(cfg.maxOrders);
      book := new OrderBook.Assemble(cfg, bids, asks, idMap, pool);
    }

    lemma SoundEitherSide(side: Side)
      requires Sound(side, -1)
      ensures (forall s: Side :: Sound(s, -1)) && this !in Body()
    {
    }

    // The three calls that take an order out of the book, in the order `cancel` makes them.
    method Detach(side: Side, i: nat, p: int, ghost k: int)
      requires Parts() && Consistent(cfg, Pointers()) && idMap.size == pool.inUse
      requires i < |SideMap(side).chains| && 0 <= k < |SideMap(side).chains[i]| && SideMap(side).chains[i][k] == p
      modifies SideMap(side).levels, SideMap(side)`chains, MapRepr(), PoolRepr()
      ensures SideMap(side).Valid() && idMap.Valid() && pool.Valid()
      ensures IsLive(old(Pointers()).mem, p) && Pointers() == Removed(old(Pointers()), side, i, k, old(pool.free))
      ensures SideMap(side).Records(Unlinked(old(Pointers()).mem, p))
      ensures idMap.size == pool.inUse == old(pool.inUse) - 1
    {
      hide Consistent, BookInv, LevelsOk, OrdersOn, Unlinked, LevelMap.Valid, OrderIdMap.Table.Valid, Pool.Valid, Linked;
      ghost var im := Pointers();
      var lm := SideMap(side);
      LevelOf(cfg, im, side, i, k);
      lm.Lengths();
      pool.Bound();
      var id := pool.slots[p].node.order.id;
      lm.Unlink(pool, i, p, k);
      UnlinkKeepsOrders(im.mem, p);
      var found := idMap.Erase(id);
      pool.Release(p);
    }

    // Take the order in slot `p` out of every structure.
    method RemoveNode(side: Side, i: nat, p: int, ghost k: int)
      requires Sound(side, i)
      requires i < |SideMap(side).chains| && 0 <= k < |SideMap(side).chains[i]| && SideMap(side).chains[i][k] == p
      modifies SideMap(side).levels, SideMap(side)`chains, MapRepr(), PoolRepr()
      ensures Parts() && SideMap(side).Flagged(i) && SideMap(Opposite(side)).Flagged(-1)
      ensures IsLive(old(Pointers()).mem, p) && Pointers() == Removed(old(Pointers()), side, i, k, old(pool.free))
      ensures Consistent(cfg, Pointers())
      ensures idMap.size == pool.inUse == old(pool.inUse) - 1
    {
      hide Consistent, BookInv, LevelsOk, OrdersOn, Unlinked, LevelMap.Valid, OrderIdMap.Table.Valid, Pool.Valid, Linked;
      ghost var im := Pointers();
      RemoveFacts(side, i, p, k);
      Detach(side, i, p, k);
      assert SideMap(side).chains == ChainsOf(Pointers(), side);
      RecordsSlot(cfg, side, Unlinked(im.mem, p), SideMap(side).levels[..], SideMap(side).chains, p, pool.slots[p]);
    }

    lemma RemoveFacts(side: Side, i: nat, p: int, k: int)
      requires Sound(side, i)
      requires i < |SideMap(side).chains| && 0 <= k < |SideMap(side).chains[i]| && SideMap(side).chains[i][k] == p
      ensures IsLive(Pointers().mem, p) && |Unlinked(pool.slots[..], p)| == |pool.slots[..]|
      ensures var om, im' := SideMap(Opposite(side)), Removed(Pointers(), side, i, k, pool.free);
        && Consistent(cfg, im')
        && LevelsOk(cfg, im'.mem, om.levels[..], om.chains)
        && (forall j :: 0 <= j < |ChainsOf(im', side)| ==> p !in ChainsOf(im', side)[j])
    {
      hide Consistent, BookInv, LevelsOk, OrdersOn, Unlinked, LevelMap.Valid, OrderIdMap.Table.Valid, Pool.Valid, Linked;
      var im, om := Pointers(), SideMap(Opposite(side));
      RemovedLevels(cfg, im, side, i, k, pool.free);
      RecordsUnlink(cfg, im.mem, om.levels[..], om.chains, p);
      UnlinkLength(im.mem, p);
      var im' := Removed(im, side, i, k, pool.free);
      NotQueued(cfg, im', side, p);
      NotQueued(cfg, im', Opposite(side), p);
      assert om.chains == ChainsOf(im', Opposite(side));
      RecordsSlot(cfg, Opposite(side), Unlinked(im.mem, p), om.levels[..], om.chains, p, Free(pool.free));
    }

    // Take `quantity` off the order in slot `p` and off its level's total.
    method FillNode(side: Side, i: nat, p: int, quantity: int, ghost k: int)
      requires Sound(side, i)
      requires i < |SideMap(side).chains| && 0 <= k < |SideMap(side).chains[i]| && SideMap(side).chains[i][k] == p
      modifies SideMap(side).levels, pool.slots
      ensures Parts() && SideMap(side).Flagged(i) && SideMap(Opposite(side)).Flagged(-1)
      ensures IsLive(old(Pointers()).mem, p) && Pointers() == Filled(old(Pointers()), p, quantity)
      ensures Consistent(cfg, Pointers())
    {
      hide Consistent, BookInv, LevelsOk, OrdersOn, LevelMap.Valid, OrderIdMap.Table.Valid, Linked, FreeLinked;
      ghost var mem := pool.slots[..];
      FillFacts(side, i, p, quantity, k);
      var lm := SideMap(side);
      var node := pool.slots[p].node;
      pool.slots[p] := Live(node.(order := node.order.(remaining := node.order.remaining - quantity)));
      assert pool.slots[..] == Reduced(mem, p, quantity);
      lm.ReduceQuantity(i, quantity);
    }

    lemma FillFacts(side: Side, i: nat, p: int, quantity: int, k: int)
      requires Sound(side, i)
      requires i < |SideMap(side).chains| && 0 <= k < |SideMap(side).chains[i]| && SideMap(side).chains[i][k] == p
      ensures i < SideMap(side).levels.Length && IsLive(Pointers().mem, p)
      ensures var lm, om, mem' := SideMap(side), SideMap(Opposite(side)), Reduced(pool.slots[..], p, quantity);
        && Consistent(cfg, Filled(Pointers(), p, quantity))
        && LevelsOk(cfg, mem', lm.levels[..][i := lm.levels[i].(totalQty := lm.levels[i].totalQty - quantity)], lm.chains)
        && LevelsOk(cfg, mem', om.levels[..], om.chains)
        && FreeLinked(mem', pool.free, pool.freeList)
    {
      hide Consistent, BookInv, LevelsOk, OrdersOn, LevelMap.Valid, OrderIdMap.Table.Valid, Linked, FreeLinked;
      var im := Pointers();
      SideMap(side).Lengths();
      LevelOf(cfg, im, side, i, k);
      FilledLevels(cfg, im, side, i, k, quantity);
      RecordsFilled(cfg, im, side, SideMap(side).levels[..], i, k, quantity);
      RecordsFilledOther(cfg, im, side, SideMap(Opposite(side)).levels[..], i, k, quantity);
      ReduceLeavesFree(im.mem, p, quantity);
      FreeFrame(im.mem, Reduced(im.mem, p, quantity), pool.free, pool.freeList);
    }

    // ---------------------------------------------------------------------------------------------
    // Matching
    // ---------------------------------------------------------------------------------------------

    // The orders of a side, in queue order.
    ghost function Queue(side: Side): seq<Order>
      reads pool.slots, bids, asks, idMap
    {
      OrdersOn(Pointers(), side)
    }

    // The tracked price names level `i`. Nothing waits before that level; whether anything waits in it, the first order
    // of the side tells.
    lemma BestLevel(side: Side, i: nat)
      requires Sound(side, i) && SideMap(side).HasBest() && IndexOf(cfg, SideMap(side).best) == i
      ensures i < |SideMap(side).chains| && InRange(cfg, SideMap(side).best) && SideMap(side).side == side
      ensures Here(cfg, Queue(side), SideMap(side).best) <==> SideMap(side).chains[i] != []
      ensures SideMap(side).chains[i] != [] ==> IsBest(Pointers(), side, i) && Sound(side, -1)
    {
      hide BookInv, LevelsOk, OrdersOn, FirstSlot, OrderIdMap.Table.Valid, Pool.Valid, Consistent, IndexOf;
      var lm := SideMap(side);
      RangeIndex(cfg, lm.best);
      FirstOf(cfg, Pointers(), side);
      if lm.chains[i] != [] {
        forall j | 0 <= j < |lm.chains| && Rank(side, |lm.chains|, j) < Rank(side, |lm.chains|, i) ensures lm.chains[j] == [] {
          NothingBefore(side, lm.bits.occ, j);
        }
        HeadIsFirst(cfg, Pointers(), side, i);
        LevelOf(cfg, Pointers(), side, i, 0);
      }
    }

    // The level record knows the head of its queue.
    lemma HeadOf(side: Side, i: nat)
      requires Sound(side, i) && i < |SideMap(side).chains|
      ensures i < SideMap(side).levels.Length
      ensures SideMap(side).levels[i].head == At(SideMap(side).chains[i], 0)
      ensures SideMap(side).levels[i].head == NULL <==> SideMap(side).chains[i] == []
    {
      hide BookInv, LevelsOk, OrdersOn, OrderIdMap.Table.Valid, Pool.Valid, Linked, AllQueued, Indexed, PriceAt, IndexOf;
      var lm := SideMap(side);
      assert LevelLinked(cfg, side, pool.slots[..], i, lm.chains[i]);
      LevelEmptyIff(cfg, pool.slots[..], lm.levels[..], lm.chains, i);
    }

    // Looking for the next occupied level finds the slot of the first order.
    lemma AdvanceIs(side: Side)
      requires Sound(side, -1)
      ensures SlotPriceOr(cfg, side, FirstSlot(side, SideMap(side).bits.occ)) == Advance(cfg, side, Queue(side))
    {
      hide BookInv, LevelsOk, OrdersOn, FirstSlot, OrderIdMap.Table.Valid, Pool.Valid, Consistent, IndexOf, PriceAt;
      var lm := SideMap(side);
      FirstOf(cfg, Pointers(), side);
      var f := FirstSlot(side, lm.bits.occ);
      if Queue(side) != [] {
        var i := IndexOf(cfg, Queue(side)[0].price);
        assert lm.bits.occ[i];
        forall j | 0 <= j < |lm.chains| && Before(side, j, i) ensures !lm.bits.occ[j] {
          assert Rank(side, |lm.chains|, j) < Rank(side, |lm.chains|, i);
        }
        FirstSlotIs(side, lm.bits.occ, i);
      } else {
        forall j | 0 <= j < |lm.chains| ensures !lm.bits.occ[j] {
          assert ChainsOf(Pointers(), side)[j] == [];
        }
        FirstSlotIs(side, lm.bits.occ, -1);
      }
    }

    // `if (level->empty()) onLevelEmptied(price)` for the level of `price`.
    method ReportIfEmpty(side: Side, i: nat, price: int)
      requires Sound(side, i) && i < |SideMap(side).chains| && InRange(cfg, price) && IndexOf(cfg, price) == i
      modifies SideMap(side)`best, SideMap(side).bits, SideMap(side).bits.l0, SideMap(side).bits.l1
      ensures Sound(side, -1) && Pointers() == old(Pointers())
      ensures SideMap(side).best ==
        if SideMap(side).chains[i] == [] && price == old(SideMap(side).best) then Advance(cfg, side, Queue(side))
        else old(SideMap(side).best)
    {
      hide Consistent, BookInv, LevelsOk, OrdersOn, OrderIdMap.Table.Valid, Pool.Valid, PriceAt, IndexOf, OnGrid, BestOk,
        FirstSlot, Slots, Advance;
      HeadOf(side, i);
      var lm := SideMap(side);
      if lm.levels[i].head == NULL {
        lm.OnLevelEmptied(price);
        AdvanceIs(side);
      }
    }

    // A self-trade victim at the head of level `i` leaves the book.
    method RemoveVictim(opp: Side, i: nat)
      requires Sound(opp, i) && i < |SideMap(opp).chains| && SideMap(opp).chains[i] != []
      requires SideMap(opp).HasBest() && IndexOf(cfg, SideMap(opp).best) == i
      modifies Body()
      ensures Sound(opp, -1) && Sound(opp, i)
      ensures old(Queue(opp)) != [] && Queue(opp) == old(Queue(opp))[1..] && Queue(Opposite(opp)) == old(Queue(Opposite(opp)))
      ensures |SideMap(opp).chains| == old(|SideMap(opp).chains|)
      ensures |SideMap(opp).chains[i]| == old(|SideMap(opp).chains[i]|) - 1
      ensures SideMap(opp).best == if SideMap(opp).chains[i] == [] then Advance(cfg, opp, Queue(opp)) else old(SideMap(opp).best)
      ensures SideMap(Opposite(opp)).best == old(SideMap(Opposite(opp)).best)
    {
      hide Consistent, BookInv, LevelsOk, OrdersOn, LevelMap.Valid, OrderIdMap.Table.Valid, Pool.Valid, IsBest, IndexOf, PriceAt,
        Advance, Here, OrderAt;
      BestLevel(opp, i);
      HeadOf(opp, i);
      RemoveHead(cfg, Pointers(), opp, i, pool.free);
      var lm := SideMap(opp);
      var price := lm.best;
      RemoveNode(opp, i, lm.levels[i].head, 0);
      ReportIfEmpty(opp, i, price);
    }

    // Fill the head of level `i`; it leaves the book if nothing of it remains, and keeps its place if not.
    method FillFirst(opp: Side, i: nat, quantity: int) returns (gone: bool)
      requires Sound(opp, i) && i < |SideMap(opp).chains| && SideMap(opp).chains[i] != []
      requires SideMap(opp).HasBest() && IndexOf(cfg, SideMap(opp).best) == i
      modifies Body()
      ensures Sound(opp, i)
      ensures SideMap(opp).best == old(SideMap(opp).best) && SideMap(Opposite(opp)).best == old(SideMap(Opposite(opp)).best)
      ensures old(Queue(opp)) != [] && Queue(Opposite(opp)) == old(Queue(Opposite(opp)))
      ensures gone == (old(Queue(opp))[0].remaining == quantity) && Queue(opp) == AfterFill(old(Queue(opp)), quantity)
      ensures |SideMap(opp).chains| == old(|SideMap(opp).chains|)
      ensures |SideMap(opp).chains[i]| == old(|SideMap(opp).chains[i]|) - (if gone then 1 else 0)
    {
      hide Consistent, BookInv, LevelsOk, OrdersOn, LevelMap.Valid, OrderIdMap.Table.Valid, Pool.Valid, IndexOf, PriceAt, Here;
      BestLevel(opp, i);
      HeadOf(opp, i);
      ghost var im := Pointers();
      FillHead(cfg, im, opp, i, quantity);
      HeadIsFirst(cfg, im, opp, i);
      var p := SideMap(opp).levels[i].head;
      FillNode(opp, i, p, quantity, 0);
      ghost var im1 := Pointers();
      RemoveHead(cfg, im1, opp, i, pool.free);
      gone := pool.slots[p].node.order.remaining == 0;
      if gone {
        RemoveNode(opp, i, p, 0);
      }
    }

    // What the book, the counters and the buffers will be once matching `remaining` is over, if the tracked price of the
    // opposite side is `best`.
    ghost function GoalWith(o: NewOrder, opp: Side, best: int, remaining: int, trades: Buffer<Trade>, victims: Buffer?<Order>): Goal
      requires cfg.tick > 0
      reads this, Body(), trades, BufferRepr(victims)
    {
      Target(SlotMatch(cfg, o, Queue(opp), best, remaining, nextTradeId), Queue(Opposite(opp)),
             nextTradeId, trades.log, if victims == null then None else Some(victims.log))
    }

    // Within a level the tracked price counts as moved on as soon as the level has no orders left.
    ghost function GoalFrom(o: NewOrder, opp: Side, remaining: int, trades: Buffer<Trade>, victims: Buffer?<Order>): Goal
      requires cfg.tick > 0
      reads this, Body(), trades, BufferRepr(victims)
    {
      GoalWith(o, opp, BestAfter(cfg, opp, Queue(opp), SideMap(opp).best), remaining, trades, victims)
    }

    // The same, once matching is over.
    ghost function GoalReached(opp: Side, remaining: int, outcome: Outcome, trades: Buffer<Trade>, victims: Buffer?<Order>): Goal
      reads this, Body(), trades, BufferRepr(victims)
    {
      Target(Over(Queue(opp), SideMap(opp).best, remaining, outcome), Queue(Opposite(opp)),
             nextTradeId, trades.log, if victims == null then None else Some(victims.log))
    }

    // Level `i` of the opposite side is the tracked one, has orders and is acceptable.
    ghost predicate AtBest(o: NewOrder, opp: Side, i: nat, quantity: int)
      reads Body()
    {
      && Sound(opp, i) && i < |SideMap(opp).chains| && SideMap(opp).chains[i] != []
      && SideMap(opp).HasBest() && IndexOf(cfg, SideMap(opp).best) == i
      && quantity > 0 && Crosses(o, SideMap(opp).best)
    }

    // Level `i` was entered under the tracked price `price`, which still stands unless the level was reported empty.
    ghost predicate Entered(opp: Side, i: nat, price: int)
      reads Body()
    {
      && Sound(opp, i) && i < |SideMap(opp).chains|
      && (SideMap(opp).best == price || (SideMap(opp).chains[i] == [] && SideMap(opp).best == Advance(cfg, opp, Queue(opp))))
    }

    // How many orders of the side are queued at other levels than `i`.
    ghost function Elsewhere(opp: Side, i: nat): int
      requires i < |SideMap(opp).chains|
      reads SideMap(opp), Body()
    {
      |Queue(opp)| - |SideMap(opp).chains[i]|
    }

    // The first order of the side is the head of the tracked level.
    lemma HeadOrder(opp: Side, i: nat)
      requires Sound(opp, i) && i < |SideMap(opp).chains| && SideMap(opp).chains[i] != []
      requires SideMap(opp).HasBest() && IndexOf(cfg, SideMap(opp).best) == i
      ensures Separate() && cfg.tick > 0 && i < SideMap(opp).levels.Length && IsLive(pool.slots[..], SideMap(opp).levels[i].head)
      ensures Queue(opp) != [] && Queue(opp)[0] == pool.slots[SideMap(opp).levels[i].head].node.order
      ensures Here(cfg, Queue(opp), SideMap(opp).best) && Sound(opp, -1) && InRange(cfg, SideMap(opp).best)
      ensures SideMap(opp).best != EmptySentinel(opp)
    {
      hide Consistent, BookInv, LevelsOk, OrdersOn, LevelMap.Valid, OrderIdMap.Table.Valid, Pool.Valid, IndexOf, PriceAt;
      BestLevel(opp, i);
      HeadOf(opp, i);
      HeadIsFirst(cfg, Pointers(), opp, i);
    }

    // What removing the head of the tracked level does to the tracked price.
    lemma TrackedAfter(opp: Side, i: nat, was: seq<Order>, best: int)
      requires Sound(opp, i) && i < |SideMap(opp).chains| && best != EmptySentinel(opp) && IndexOf(cfg, best) == i
      requires SideMap(opp).best == if SideMap(opp).chains[i] == [] then Advance(cfg, opp, Queue(opp)) else best
      ensures cfg.tick > 0
      ensures SideMap(opp).best == BestAfter(cfg, opp, Queue(opp), best)
      ensures BestAfter(cfg, opp, Queue(opp), SideMap(opp).best) == SideMap(opp).best
    {
      hide BookInv, LevelsOk, OrdersOn, OrderIdMap.Table.Valid, Pool.Valid, LevelMap.Valid, Consistent, IndexOf, PriceAt;
      NoneWaits(opp, i);
      AdvanceFresh(cfg, opp, Queue(opp));
      if SideMap(opp).chains[i] != [] {
        BestLevel(opp, i);
      }
    }

    // A level without orders is not that of the first order.
    lemma NoneWaits(opp: Side, i: nat)
      requires Sound(opp, i) && i < |SideMap(opp).chains|
      ensures cfg.tick > 0
      ensures SideMap(opp).chains[i] == [] && Queue(opp) != [] ==> IndexOf(cfg, Queue(opp)[0].price) != i
    {
      hide BookInv, LevelsOk, OrdersOn, OrderIdMap.Table.Valid, Pool.Valid, LevelMap.Valid, Consistent, IndexOf;
      FirstOf(cfg, Pointers(), opp);
    }

    // The head of level `i` belongs to the incoming participant: prevent the self-trade.
    method SelfTurn(o: NewOrder, opp: Side, i: nat, quantity: int, trades: Buffer<Trade>, victims: Buffer?<Order>)
      returns (stop: bool)
      requires AtBest(o, opp, i, quantity) && Outside(trades, victims) && opp == Opposite(o.side) && cfg.tick > 0
      requires Queue(opp) != [] && Queue(opp)[0].participant == o.participant
      modifies Body(), BufferRepr(victims)
      ensures Outside(trades, victims) && Entered(opp, i, old(SideMap(opp).best))
      ensures old(GoalFrom(o, opp, quantity, trades, victims)) ==
        if stop then GoalReached(opp, quantity, StpFired, trades, victims) else GoalFrom(o, opp, quantity, trades, victims)
      ensures Elsewhere(opp, i) == old(Elsewhere(opp, i)) && SideMap(Opposite(opp)).best == old(SideMap(Opposite(opp)).best)
      ensures if stop then Sound(opp, -1) else |SideMap(opp).chains[i]| < old(|SideMap(opp).chains[i]|)
    {
      hide Sound, OrderBook.Queue, SlotMatch, Target, Advance, BestAfter, IndexOf;
      HeadOrder(opp, i);
      var top := pool.slots[SideMap(opp).levels[i].head].node.order;
      ghost var was, own, best := Queue(opp), Queue(Opposite(opp)), SideMap(opp).best;
      ghost var vlog := if victims == null then None else Some(victims.log);
      SelfGoal(cfg, o, was, best, own, quantity, nextTradeId, trades.log, vlog);
      BestHere(cfg, opp, was, best);
      if cfg.stp.CancelPassive? || cfg.stp.CancelBoth? {
        if victims != null {
          victims.Push(top);
        }
        RemoveVictim(opp, i);
        TrackedAfter(opp, i, was, best);
      }
      stop := !cfg.stp.CancelPassive?;
    }

    // Hand a trade to the caller and move the trade counter on; the book is untouched.
    method Report(t: Trade, trades: Buffer<Trade>)
      requires trades.Valid() && {trades, trades.data} !! Repr()
      modifies this`nextTradeId, trades, trades.data
      ensures trades.Valid() && trades.log == old(trades.log) + [t] && nextTradeId == old(nextTradeId) + 1
      ensures Pointers() == old(Pointers())
      ensures unchanged(Body())
    {
      trades.Push(t);
      nextTradeId := nextTradeId + 1;
    }

    // The head of level `i` belongs to someone else: trade with it at its own price.
    method TradeTurn(o: NewOrder, opp: Side, i: nat, quantity: int, trades: Buffer<Trade>, victims: Buffer?<Order>)
      returns (remaining: int)
      requires AtBest(o, opp, i, quantity) && Outside(trades, victims) && opp == Opposite(o.side) && cfg.tick > 0
      requires Queue(opp) != [] && Queue(opp)[0].participant != o.participant
      modifies Body(), this`nextTradeId, trades, trades.data
      ensures Outside(trades, victims) && Entered(opp, i, old(SideMap(opp).best))
      ensures GoalFrom(o, opp, remaining, trades, victims) == old(GoalFrom(o, opp, quantity, trades, victims))
      ensures Elsewhere(opp, i) == old(Elsewhere(opp, i)) && SideMap(Opposite(opp)).best == old(SideMap(Opposite(opp)).best)
      ensures |SideMap(opp).chains[i]| < old(|SideMap(opp).chains[i]|) || remaining <= 0
    {
      hide Sound, OrderBook.Queue, SlotMatch, Target, OrderBook.Body, Advance, BestAfter, IndexOf;
      HeadOrder(opp, i);
      var top := pool.slots[SideMap(opp).levels[i].head].node.order;
      ghost var was, own, best := Queue(opp), Queue(Opposite(opp)), SideMap(opp).best;
      TradeGoal(cfg, o, was, best, own, quantity, nextTradeId, trades.log, if victims == null then None else Some(victims.log));
      BestHere(cfg, opp, was, best);
      var q := Min(quantity, top.remaining);
      var t := TradeFor(o, top, q, nextTradeId);
      Report(t, trades);
      remaining := quantity - q;
      var gone := FillFirst(opp, i, q);
    }

    // One turn of the inner loop: deal with the order at the head of level `i`.
    method Turn(o: NewOrder, opp: Side, i: nat, quantity: int, trades: Buffer<Trade>, victims: Buffer?<Order>)
      returns (stop: bool, remaining: int)
      requires AtBest(o, opp, i, quantity) && Outside(trades, victims) && opp == Opposite(o.side) && cfg.tick > 0
      modifies Body(), this`nextTradeId, trades, trades.data, BufferRepr(victims)
      ensures Outside(trades, victims) && Entered(opp, i, old(SideMap(opp).best))
      ensures old(GoalFrom(o, opp, quantity, trades, victims)) ==
        if stop then GoalReached(opp, remaining, StpFired, trades, victims) else GoalFrom(o, opp, remaining, trades, victims)
      ensures Elsewhere(opp, i) == old(Elsewhere(opp, i)) && SideMap(Opposite(opp)).best == old(SideMap(Opposite(opp)).best)
      ensures if stop then Sound(opp, -1) else |SideMap(opp).chains[i]| < old(|SideMap(opp).chains[i]|) || remaining <= 0
    {
      hide Sound, OrderBook.Queue, GoalFrom, GoalReached, Elsewhere;
      HeadOrder(opp, i);
      if pool.slots[SideMap(opp).levels[i].head].node.order.participant == o.participant {
        stop := SelfTurn(o, opp, i, quantity, trades, victims);
        remaining := quantity;
      } else {
        remaining := TradeTurn(o, opp, i, quantity, trades, victims);
        stop := false;
      }
    }

    // The inner loop of `matchInto`: consume the tracked level from its head.
    method MatchLevel(o: NewOrder, opp: Side, i: nat, quantity: int, trades: Buffer<Trade>, victims: Buffer?<Order>)
      returns (stop: bool, remaining: int)
      requires Sound(opp, i) && i < |SideMap(opp).chains| && Outside(trades, victims) && opp == Opposite(o.side) && cfg.tick > 0
      requires SideMap(opp).HasBest() && IndexOf(cfg, SideMap(opp).best) == i && quantity > 0 && Crosses(o, SideMap(opp).best)
      modifies Body(), this`nextTradeId, trades, trades.data, BufferRepr(victims)
      ensures Outside(trades, victims) && Entered(opp, i, old(SideMap(opp).best))
      ensures old(GoalFrom(o, opp, quantity, trades, victims)) ==
        if stop then GoalReached(opp, remaining, StpFired, trades, victims) else GoalFrom(o, opp, remaining, trades, victims)
      ensures Elsewhere(opp, i) == old(Elsewhere(opp, i)) && SideMap(Opposite(opp)).best == old(SideMap(Opposite(opp)).best)
      ensures if stop then Sound(opp, -1) else remaining <= 0 || SideMap(opp).chains[i] == []
    {
      hide Sound, OrderBook.Queue, GoalFrom, GoalReached, Elsewhere, IndexOf, Advance;
      stop, remaining := false, quantity;
      HeadOf(opp, i);
      ghost var price := SideMap(opp).best;
      while remaining > 0 && SideMap(opp).levels[i].head != NULL
        invariant Outside(trades, victims) && Entered(opp, i, price) && i < SideMap(opp).levels.Length
        invariant GoalFrom(o, opp, remaining, trades, victims) == old(GoalFrom(o, opp, quantity, trades, victims))
        invariant Elsewhere(opp, i) == old(Elsewhere(opp, i)) && SideMap(Opposite(opp)).best == old(SideMap(Opposite(opp)).best)
        invariant SideMap(opp).levels[i].head == NULL <==> SideMap(opp).chains[i] == []
        decreases remaining > 0, |SideMap(opp).chains[i]|
      {
        stop, remaining := Turn(o, opp, i, remaining, trades, victims);
        if stop {
          return;
        }
        HeadOf(opp, i);
      }
    }

    // The tracked price tells that there are orders; there may be a tracked price without any.
    lemma BestOrEmpty(side: Side)
      requires Sound(side, -1)
      ensures ValidConfig(cfg)
      ensures !SideMap(side).HasBest() ==> Queue(side) == []
      ensures SideMap(side).HasBest() ==>
        var i := IndexOf(cfg, SideMap(side).best);
        && 0 <= i < |SideMap(side).chains| && InRange(cfg, SideMap(side).best) && Sound(side, i)
    {
      hide Consistent, BookInv, LevelsOk, OrdersOn, OrderIdMap.Table.Valid, Pool.Valid, FirstSlot, PriceAt, IndexOf;
      var lm := SideMap(side);
      if !lm.HasBest() {
        forall j | 0 <= j < |lm.chains| ensures lm.chains[j] == [] {
          NothingBefore(side, lm.bits.occ, j);
        }
        NoBestIffEmpty(Pointers(), side);
      } else {
        RangeIndex(cfg, lm.best);
      }
    }

    lemma GoalStops(o: NewOrder, opp: Side, remaining: int, outcome: Outcome, trades: Buffer<Trade>, victims: Buffer?<Order>)
      requires opp == Opposite(o.side) && cfg.tick > 0 && SideMap(opp).side == opp
      requires if remaining <= 0 || !SideMap(opp).HasBest() then outcome.Exhausted?
        else !Crosses(o, SideMap(opp).best) && outcome.NoLongerCrosses?
      ensures GoalWith(o, opp, SideMap(opp).best, remaining, trades, victims) == GoalReached(opp, remaining, outcome, trades, victims)
    {
      hide OrderBook.Queue;
    }

    // `if (level->empty()) onLevelEmptied(bestOpp)` behind the inner loop.
    method LeaveLevel(o: NewOrder, opp: Side, i: nat, price: int, remaining: int, trades: Buffer<Trade>, victims: Buffer?<Order>)
      requires Entered(opp, i, price) && Outside(trades, victims) && opp == Opposite(o.side) && cfg.tick > 0
      requires InRange(cfg, price) && IndexOf(cfg, price) == i
      modifies SideMap(opp)`best, SideMap(opp).bits, SideMap(opp).bits.l0, SideMap(opp).bits.l1
      ensures Sound(opp, -1) && Outside(trades, victims)
      ensures Queue(opp) == old(Queue(opp)) && SideMap(opp).chains == old(SideMap(opp).chains)
      ensures SideMap(Opposite(opp)).best == old(SideMap(Opposite(opp)).best)
      ensures GoalWith(o, opp, SideMap(opp).best, remaining, trades, victims) == old(GoalFrom(o, opp, remaining, trades, victims))
      ensures SideMap(opp).chains[i] == [] ==> SideMap(opp).best == Advance(cfg, opp, Queue(opp))
    {
      hide Sound, OrdersOn, SlotMatch, Target, Advance, BestAfter, IndexOf;
      LeaveFacts(opp, i, price);
      ReportIfEmpty(opp, i, price);
    }

    lemma LeaveFacts(opp: Side, i: nat, price: int)
      requires Entered(opp, i, price) && InRange(cfg, price) && cfg.tick > 0 && IndexOf(cfg, price) == i
      ensures Separate()
      ensures BestAfter(cfg, opp, Queue(opp), SideMap(opp).best)
        == if SideMap(opp).chains[i] == [] then Advance(cfg, opp, Queue(opp)) else SideMap(opp).best
    {
      hide BookInv, LevelsOk, OrdersOn, OrderIdMap.Table.Valid, Pool.Valid, LevelMap.Valid, Consistent, IndexOf, PriceAt;
      NoneWaits(opp, i);
      AdvanceFresh(cfg, opp, Queue(opp));
      if SideMap(opp).chains[i] != [] {
        assert SideMap(opp).HasBest();
        BestLevel(opp, i);
      }
    }

    lemma MapInBody(side: Side)
      ensures SideMap(side) in Body() && SideMap(side).bits in Body() && SideMap(side).bits.l0 in Body() && SideMap(side).bits.l1 in Body()
    {
    }

    // One turn of the outer loop of `matchInto`, at a tracked price that crosses.
    method TakeLevel(o: NewOrder, opp: Side, quantity: int, trades: Buffer<Trade>, victims: Buffer?<Order>)
      returns (stop: bool, remaining: int)
      requires Sound(opp, -1) && Outside(trades, victims) && opp == Opposite(o.side) && cfg.tick > 0
      requires SideMap(opp).HasBest() && quantity > 0 && Crosses(o, SideMap(opp).best)
      modifies Body(), this`nextTradeId, trades, trades.data, BufferRepr(victims)
      ensures Outside(trades, victims) && Sound(opp, -1) && SideMap(o.side).best == old(SideMap(o.side).best)
      ensures old(GoalWith(o, opp, SideMap(opp).best, quantity, trades, victims)) ==
        if stop then GoalReached(opp, remaining, StpFired, trades, victims)
        else GoalWith(o, opp, SideMap(opp).best, remaining, trades, victims)
      ensures stop || remaining <= 0 || |Queue(opp)| < old(|Queue(opp)|)
        || (|Queue(opp)| == old(|Queue(opp)|)
            && Stale(cfg, opp, Queue(opp), SideMap(opp).best) < old(Stale(cfg, opp, Queue(opp), SideMap(opp).best)))
    {
      hide Sound, OrderBook.Queue, GoalFrom, GoalWith, GoalReached, IndexOf, Advance, Stale, Crosses, OrderBook.Body, Entered, Outside;
      BestOrEmpty(opp);
      MapInBody(opp);
      var price := SideMap(opp).best;
      var i := IndexOf(cfg, price);
      EnterLevel(o, opp, i, quantity, trades, victims);
      stop, remaining := MatchLevel(o, opp, i, quantity, trades, victims);
      if stop {
        return;
      }
      LeaveLevel(o, opp, i, price, remaining, trades, victims);
      LessLeft(opp);
    }

    // `matchInto`: level after level, while the order has quantity left and crosses the tracked price.
    method MatchInto(o: NewOrder, quantity: int, trades: Buffer<Trade>, victims: Buffer?<Order>)
      returns (outcome: Outcome, remaining: int)
      requires Sound(Opposite(o.side), -1) && Outside(trades, victims) && cfg.tick > 0
      modifies Body(), this`nextTradeId, trades, trades.data, BufferRepr(victims)
      ensures Outside(trades, victims) && Sound(Opposite(o.side), -1)
      ensures var opp := Opposite(o.side);
        && old(GoalWith(o, opp, SideMap(opp).best, quantity, trades, victims)) == GoalReached(opp, remaining, outcome, trades, victims)
        && SideMap(o.side).best == old(SideMap(o.side).best)
    {
      hide Sound, OrderBook.Queue, GoalWith, GoalReached, Stale, OrderBook.Body, Crosses;
      var opp := Opposite(o.side);
      remaining := quantity;
      Sized(opp);
      while remaining > 0 && SideMap(opp).HasBest()
        invariant Outside(trades, victims) && Sound(opp, -1)
        invariant GoalWith(o, opp, SideMap(opp).best, remaining, trades, victims)
               == old(GoalWith(o, opp, SideMap(opp).best, quantity, trades, victims))
        invariant SideMap(o.side).best == old(SideMap(o.side).best)
        decreases remaining > 0, |Queue(opp)|, Stale(cfg, opp, Queue(opp), SideMap(opp).best)
      {
        if !Crosses(o, SideMap(opp).best) {
          outcome := NoLongerCrosses;
          GoalStops(o, opp, remaining, outcome, trades, victims);
          return;
        }
        var stop;
        stop, remaining := TakeLevel(o, opp, remaining, trades, victims);
        if stop {
          return StpFired, remaining;
        }
      }
      outcome := Exhausted;
      GoalStops(o, opp, remaining, outcome, trades, victims);
    }

    // Entering a level changes nothing yet; if it has no orders, the tracked price is stale.
    lemma EnterLevel(o: NewOrder, opp: Side, i: nat, remaining: int, trades: Buffer<Trade>, victims: Buffer?<Order>)
      requires Sound(opp, i) && i < |SideMap(opp).chains| && opp == Opposite(o.side) && cfg.tick > 0
      requires SideMap(opp).HasBest() && IndexOf(cfg, SideMap(opp).best) == i && remaining > 0 && Crosses(o, SideMap(opp).best)
      ensures GoalFrom(o, opp, remaining, trades, victims) == GoalWith(o, opp, SideMap(opp).best, remaining, trades, victims)
      ensures Elsewhere(opp, i) >= 0
      ensures Stale(cfg, opp, Queue(opp), SideMap(opp).best) == if SideMap(opp).chains[i] == [] then 1 else 0
    {
      hide Sound, OrderBook.Queue, SlotMatch, Target, Advance, IndexOf, BestAfter;
      BestLevel(opp, i);
      StaleGoal(cfg, o, Queue(opp), SideMap(opp).best, remaining, nextTradeId);
      LevelWithin(opp, i);
    }

    // A level holds no more orders than its side.
    lemma LevelWithin(side: Side, i: nat)
      requires Sound(side, i) && i < |SideMap(side).chains|
      ensures |SideMap(side).chains[i]| <= |Queue(side)|
    {
      hide BookInv, LevelsOk, OrderIdMap.Table.Valid, Pool.Valid, LevelMap.Valid, Consistent, Flat;
      var chains := SideMap(side).chains;
      var vw, r := Levels(side, pool.slots[..], chains), Rank(side, |chains|, i);
      FlatSplit(vw, r);
      assert vw[r] == OrdersOf(pool.slots[..], chains[i]);
    }

    // Leaving a level without orders, the tracked price is not stale.
    lemma LessLeft(opp: Side)
      requires cfg.tick > 0
      ensures SideMap(opp).best == Advance(cfg, opp, Queue(opp)) ==> Stale(cfg, opp, Queue(opp), SideMap(opp).best) == 0
    {
      hide OrderBook.Queue;
      AdvanceFresh(cfg, opp, Queue(opp));
    }

    // ---------------------------------------------------------------------------------------------
    // The fill-or-kill pre-scan
    // ---------------------------------------------------------------------------------------------

    // What the head and the links of level `i` say while it is walked, and what that means for the sum.
    lemma WalkFacts(opp: Side, i: nat, k: nat)
      requires Sound(opp, -1) && i < |SideMap(opp).chains| && k < |SideMap(opp).chains[i]|
      ensures cfg.tick > 0
      ensures var c, mem := SideMap(opp).chains[i], pool.slots[..];
        && IsLive(mem, c[k]) && mem[c[k]].node.next == At(c, k + 1) && c[k] != NULL
        && OrdersOf(mem, c)[k] == mem[c[k]].node.order
        && IndexOf(cfg, mem[c[k]].node.order.price) == i
    {
      hide BookInv, LevelsOk, OrderIdMap.Table.Valid, Pool.Valid, LevelMap.Valid, AllQueued, Indexed, OrdersOn, IndexOf;
      var c, mem := SideMap(opp).chains[i], pool.slots[..];
      LevelOf(cfg, Pointers(), opp, i, k);
      assert LinkedAt(mem, c, k);
    }

    // The orders of level `i` wait in one slot, and those behind it do not.
    lemma WalkLevel(opp: Side, i: nat, behind: seq<Order>, p: int)
      requires Sound(opp, -1) && i < |SideMap(opp).chains| && cfg.tick > 0 && IndexOf(cfg, p) == i
      requires behind != [] ==> IndexOf(cfg, behind[0].price) != i
      ensures OneLevel(cfg, OrdersOf(pool.slots[..], SideMap(opp).chains[i]), behind, p)
    {
      hide Sound, IndexOf;
      var c, mem := SideMap(opp).chains[i], pool.slots[..];
      forall k | 0 <= k < |c| ensures IndexOf(cfg, OrdersOf(mem, c)[k].price) == i {
        WalkFacts(opp, i, k);
      }
    }

    // One level of the scan, that of the price `p`. With `done`, the answer is final; otherwise the scan goes on behind it.
    method ScanLevel(o: NewOrder, i: nat, p: int, before: int, ghost behind: seq<Order>) returns (sum: int, done: bool)
      requires Sound(Opposite(o.side), -1) && i < |SideMap(Opposite(o.side)).chains| && cfg.tick > 0 && IndexOf(cfg, p) == i
      requires Crosses(o, p) && p != EmptySentinel(Opposite(o.side)) && (behind != [] ==> IndexOf(cfg, behind[0].price) != i)
      ensures Sound(Opposite(o.side), -1)
      ensures var here, opp := OrdersOf(pool.slots[..], SideMap(Opposite(o.side)).chains[i]), Opposite(o.side);
        SlotAvailable(cfg, o, here + behind, p, before)
        == if done then sum else SlotAvailable(cfg, o, behind, Advance(cfg, opp, behind), sum)
    {
      hide Sound, OrdersOf, SlotAvailable, IndexOf, OneLevel, Advance;
      var opp := Opposite(o.side);
      Sooner(opp, i);
      HeadOf(opp, i);
      WalkLevel(opp, i, behind, p);
      ghost var c, k := SideMap(opp).chains[i], 0;
      ghost var here := OrdersOf(pool.slots[..], c);
      assert here[0..] == here;
      if here == [] {
        assert here + behind == behind;
        ScanPast(cfg, o, behind, p, before);
      }
      var n := SideMap(opp).levels[i].head;
      sum := before;
      while n != NULL
        invariant Sound(opp, -1) && 0 <= k <= |c| == |here| && n == At(c, k)
        invariant SlotAvailable(cfg, o, here + behind, p, before)
               == SlotAvailable(cfg, o, here[k..] + behind, WalkPrice(cfg, opp, here, k, behind, p), sum)
        decreases |c| - k
      {
        assert k < |c|;
        WalkFacts(opp, i, k);
        ScanTurn(cfg, o, here, k, behind, p, sum);
        var node := pool.slots[n].node;
        if node.order.participant == o.participant {
          if !cfg.stp.CancelPassive? {
            return sum, true;
          }
        } else {
          sum := sum + node.order.remaining;
          if sum >= o.quantity {
            return sum, true;
          }
        }
        n := node.next;
        k := k + 1;
      }
      if k < |c| {
        WalkFacts(opp, i, k);
      }
      assert here[k..] + behind == behind;
      done := false;
    }

    lemma Sooner(side: Side, i: nat)
      requires Sound(side, -1)
      ensures Sound(side, i)
    {
      hide Consistent, BookInv, LevelsOk, OrdersOn, LevelMap.Valid, OrderIdMap.Table.Valid, Pool.Valid;
    }

    // The orders of a side from level `i` on, in queue order; from its end if `i` is -1.
    ghost function From(side: Side, i: int): seq<Order>
      requires -1 <= i < |SideMap(side).chains|
      reads pool.slots, SideMap(side)
    {
      FlatFrom(side, pool.slots[..], SideMap(side).chains, i)
    }

    // Where the walk over occupied levels starts: at the level of the tracked price, which may have no orders.
    lemma WalkStart(side: Side)
      requires Sound(side, -1)
      ensures ValidConfig(cfg)
      ensures if SideMap(side).HasBest() then
          var i := IndexOf(cfg, SideMap(side).best);
          InRange(cfg, SideMap(side).best) && 0 <= i < |SideMap(side).chains| && From(side, i) == Queue(side)
        else Queue(side) == []
    {
      hide Consistent, BookInv, LevelsOk, OrderIdMap.Table.Valid, Pool.Valid, FirstSlot, Flat, Levels, IndexOf;
      BestOrEmpty(side);
      var lm := SideMap(side);
      if lm.HasBest() {
        var i := IndexOf(cfg, lm.best);
        forall j | 0 <= j < |lm.chains| && Before(side, j, i) ensures lm.chains[j] == [] {
          NothingBefore(side, lm.bits.occ, j);
        }
        SkipTo(side, pool.slots[..], lm.chains, if side.Buy? then |lm.chains| else -1, i);
        assert Levels(side, pool.slots[..], lm.chains)[0..] == Levels(side, pool.slots[..], lm.chains);
      }
    }

    // Where it goes after level `i`: to the next occupied level.
    lemma WalkOn(side: Side, i: nat)
      requires Sound(side, -1) && i < |SideMap(side).chains| && |SideMap(side).bits.occ| == |SideMap(side).chains|
      ensures var n := NextSlot(side, SideMap(side).bits.occ, i);
        && n < |SideMap(side).chains| && (n == -1 || (Before(side, i, n) && SideMap(side).chains[n] != []))
        && From(side, i) == OrdersOf(pool.slots[..], SideMap(side).chains[i]) + From(side, n)
    {
      hide Consistent, BookInv, LevelsOk, OrderIdMap.Table.Valid, Pool.Valid, NextSlot, Flat, Levels, OrdersOf;
      var lm := SideMap(side);
      var n := NextSlot(side, lm.bits.occ, i);
      NextIsBeyond(side, lm.bits.occ, i);
      forall j | 0 <= j < |lm.chains| && Before(side, i, j) && (n == -1 || Before(side, j, n)) ensures lm.chains[j] == [] {
        NextSlotIs(side, lm.bits.occ, i, j);
      }
      SkipTo(side, pool.slots[..], lm.chains, i, n);
      LevelFirst(side, pool.slots[..], lm.chains, i);
    }

    // The price the walk goes on under is that of the first order's slot.
    lemma WalkPriced(side: Side, n: int)
      requires Sound(side, -1) && -1 <= n < |SideMap(side).chains| && (n == -1 || SideMap(side).chains[n] != [])
      ensures ValidConfig(cfg)
      ensures SlotPriceOr(cfg, side, n) == Advance(cfg, side, From(side, n))
      ensures n == -1 <==> SlotPriceOr(cfg, side, n) == EmptySentinel(side)
      ensures n != -1 ==>
        && InRange(cfg, PriceAt(cfg, n)) && IndexOf(cfg, PriceAt(cfg, n)) == n
        && From(side, n) != [] && IndexOf(cfg, From(side, n)[0].price) == n
    {
      hide Sound, OrdersOf, Flat, Levels, PriceAt, IndexOf;
      BestOrEmpty(side);
      if n != -1 {
        Sized(side);
        SlotPrice(cfg, n);
        WalkFacts(side, n, 0);
        LevelFirst(side, pool.slots[..], SideMap(side).chains, n);
      }
    }

    lemma Sized(side: Side)
      requires Sound(side, -1)
      ensures ValidConfig(cfg) && |SideMap(side).chains| == Slots(cfg) == |SideMap(side).bits.occ|
      ensures SideMap(side).Shape() && SideMap(side).cfg == cfg && SideMap(side).side == side
    {
    }

    /** The pre-scan walks levels and their queues and computes what the matcher's pre-scan says of the queue and the
        tracked price, without touching the book. */
    method AvailableAgainst(o: NewOrder) returns (sum: int)
      requires Sound(Opposite(o.side), -1) && cfg.tick > 0
      ensures Sound(Opposite(o.side), -1)
      ensures var opp := Opposite(o.side); sum == SlotAvailable(cfg, o, Queue(opp), SideMap(opp).best, 0)
    {
      hide Sound, OrderBook.Queue, SlotAvailable, OrdersOf, NextSlot, FirstSlot, From, LevelMap.Valid, PriceAt, IndexOf, Advance;
      var opp := Opposite(o.side);
      var lm := SideMap(opp);
      sum := 0;
      var p := lm.best;
      WalkStart(opp);
      ghost var i := if lm.HasBest() then IndexOf(cfg, p) else -1;
      ghost var left := if lm.HasBest() then From(opp, i) else [];
      Sized(opp);
      while p != EmptySentinel(opp)
        invariant Sound(opp, -1) && -1 <= i < |lm.chains| && |lm.bits.occ| == |lm.chains|
        invariant p != EmptySentinel(opp) <==> i != -1
        invariant i != -1 ==> InRange(cfg, p) && IndexOf(cfg, p) == i && left == From(opp, i)
        invariant SlotAvailable(cfg, o, Queue(opp), lm.best, 0) == SlotAvailable(cfg, o, left, p, sum)
        decreases if i == -1 then 0 else if opp.Buy? then i + 1 else |lm.chains| - i
      {
        if !Crosses(o, p) {
          ScanStops(o, left, p, sum);
          return;
        }
        WalkOn(opp, i);
        ghost var n := NextSlot(opp, lm.bits.occ, i);
        WalkPriced(opp, n);
        NothingFrom(opp);
        var done;
        sum, done := ScanLevel(o, IndexOf(cfg, p), p, sum, From(opp, n));
        if done {
          return;
        }
        p := NextLevel(opp, p);
        i, left := n, From(opp, n);
      }
      ScanStops(o, left, p, sum);
    }

    method NextLevel(side: Side, price: int) returns (p: int)
      requires Sound(side, -1) && InRange(cfg, price)
      ensures Sound(side, -1) && cfg.tick > 0
      ensures |SideMap(side).bits.occ| == |SideMap(side).chains| && 0 <= IndexOf(cfg, price) < |SideMap(side).bits.occ|
      ensures p == SlotPriceOr(cfg, side, NextSlot(side, SideMap(side).bits.occ, IndexOf(cfg, price)))
    {
      hide Consistent, BookInv, LevelsOk, OrdersOn, OrderIdMap.Table.Valid, Pool.Valid, NextSlot;
      p := SideMap(side).NextOccupied(price);
    }

    lemma ScanStops(o: NewOrder, s: seq<Order>, p: int, sum: int)
      requires cfg.tick > 0 && (p == EmptySentinel(Opposite(o.side)) || !Crosses(o, p))
      ensures SlotAvailable(cfg, o, s, p, sum) == sum
    {
    }

    lemma NothingFrom(side: Side)
      ensures From(side, -1) == []
    {
    }

    // ---------------------------------------------------------------------------------------------
    // Resting an order
    // ---------------------------------------------------------------------------------------------

    // A pool slot filled with `x`, or null when the pool is exhausted.
    method NewNode(x: Order) returns (p: int)
      requires pool.Valid()
      modifies PoolRepr()
      ensures pool.Valid()
      ensures p == old(pool.free)
      ensures p == NULL ==> pool.slots[..] == old(pool.slots[..]) && pool.inUse == old(pool.inUse)
      ensures p != NULL ==>
        && 0 <= p < pool.capacity && old(pool.slots[..])[p] == Free(pool.free) && pool.inUse == old(pool.inUse) + 1
        && pool.slots[..] == old(pool.slots[..])[p := Live(Node(x, NULL, NULL, NULL))]
    {
      hide FreeLinked;
      p := pool.Acquire();
      if p != NULL {
        ghost var mem := pool.slots[..];
        pool.slots[p] := Live(Node(x, NULL, NULL, NULL));
        assert pool.slots[..] == mem[p := Live(Node(x, NULL, NULL, NULL))];
        FreeFrame(mem, pool.slots[..], pool.free, pool.freeList);
      }
    }

    // Everything agrees about the memory `mem`, which differs from the pool in slot `p` only, just acquired.
    ghost predicate Holding(mem: seq<Slot>, p: int)
      reads Body()
    {
      && Separate() && ValidConfig(cfg)
      && bids.Valid() && bids.cfg == cfg && bids.side == Buy && bids.Records(mem) && bids.Flagged(-1)
      && asks.Valid() && asks.cfg == cfg && asks.side == Sell && asks.Records(mem) && asks.Flagged(-1)
      && idMap.Valid() && pool.Valid()
      && pool.capacity == cfg.maxOrders && idMap.capacity > cfg.maxOrders && idMap.capacity >= 2 * cfg.maxOrders
      && Consistent(cfg, Pointers().(mem := mem))
      && idMap.size == pool.inUse - 1 == |OrdersOn(Pointers().(mem := mem), Buy)| + |OrdersOn(Pointers().(mem := mem), Sell)|
      && |mem| == pool.slots.Length && 0 <= p < |mem| && mem[p] == Free(pool.free)
      && pool.slots[p].Live? && pool.slots[..] == mem[p := pool.slots[p]]
    }

    method HoldNode(x: Order) returns (p: int)
      requires Sound(x.side, -1)
      modifies PoolRepr()
      ensures p == NULL <==> old(pool.inUse) == cfg.maxOrders
      ensures bids.best == old(bids.best) && asks.best == old(asks.best)
      ensures p == NULL ==> Sound(x.side, -1) && Pointers() == old(Pointers())
      ensures p != NULL ==>
        Holding(old(pool.slots[..]), p) && pool.slots[p] == Live(Node(x, NULL, NULL, NULL))
    {
      hide Consistent, BookInv, LevelsOk, OrdersOn, OrderIdMap.Table.Valid, LevelMap.Valid, FreeLinked, OrderIdMap.Table.Map;
      ghost var im := Pointers();
      pool.Bound();
      p := NewNode(x);
      assert Pointers().(mem := im.mem) == im;
    }

    // What queueing `x` from the free slot `p` at level `i` needs of its level and leaves of the other side.
    lemma AddFacts(x: Order, i: nat, p: int, mem: seq<Slot>)
      requires Holding(mem, p) && i < Slots(cfg)
      ensures var lm, om := SideMap(x.side), SideMap(Opposite(x.side));
        var im, mem1 := Pointers().(mem := mem), mem[p := Live(Node(x, NULL, NULL, NULL))];
        && i < |lm.chains| && i < lm.levels.Length && p !in lm.chains[i]
        && LevelsOk(cfg, mem1, lm.levels[..], lm.chains) && Linked(mem1, lm.chains[i])
        && LevelsOk(cfg, Added(im, x, i, p).mem, om.levels[..], om.chains)
    {
      hide Consistent, BookInv, LevelsOk, OrdersOn, OrderIdMap.Table.Valid, Pool.Valid, Linked, Enqueued, LevelMap.Valid;
      var lm, om := SideMap(x.side), SideMap(Opposite(x.side));
      var im, mem1 := Pointers().(mem := mem), mem[p := Live(Node(x, NULL, NULL, NULL))];
      lm.Lengths();
      NotQueued(cfg, im, x.side, p);
      NotQueued(cfg, im, Opposite(x.side), p);
      assert lm.chains == ChainsOf(im, x.side) && om.chains == ChainsOf(im, Opposite(x.side));
      RecordsSlot(cfg, x.side, im.mem, lm.levels[..], lm.chains, p, mem1[p]);
      RecordsSlot(cfg, Opposite(x.side), im.mem, om.levels[..], om.chains, p, mem1[p]);
      LevelStays(cfg, im, x.side, i, p, mem1[p]);
      var tail := At(lm.chains[i], |lm.chains[i]| - 1);
      forall j, k | 0 <= j < |om.chains| && 0 <= k < |om.chains[j]|
        ensures OrderAt(Enqueued(mem1, tail, p, i), om.chains[j][k]) == OrderAt(mem1, om.chains[j][k])
      {
        EnqueueOrders(mem1, tail, p, i, om.chains[j][k]);
      }
      RecordsSameOrders(cfg, mem1, Enqueued(mem1, tail, p, i), om.levels[..], om.chains);
    }

    // The parts once `x` was queued from slot `p` and its id mapped, starting from the image `im`.
    ghost predicate Joined(im: Image, x: Order, i: nat, p: int)
      reads Body()
    {
      && Parts() && bids.Flagged(-1) && asks.Flagged(-1) && idMap.size == pool.inUse
      && i < |ChainsOf(im, x.side)| && 0 <= p < |im.mem| && Pointers() == Added(im, x, i, p)
    }

    // The image an order is about to join.
    ghost predicate Joins(im: Image, x: Order, i: nat, p: int) {
      && Consistent(cfg, im) && i < Slots(cfg) && InRange(cfg, x.price) && IndexOf(cfg, x.price) == i
      && 0 <= p < |im.mem| && !IsLive(im.mem, p) && x.id !in im.index
    }

    lemma HeldJoins(x: Order, i: nat, p: int, mem: seq<Slot>)
      requires Holding(mem, p) && i < Slots(cfg) && InRange(cfg, x.price) && IndexOf(cfg, x.price) == i && x.id !in idMap.Map()
      ensures var im := Pointers().(mem := mem);
        && Joins(im, x, i, p) && pool.inUse == |OrdersOn(im, Buy)| + |OrdersOn(im, Sell)| + 1
    {
      hide Consistent, BookInv, LevelsOk, OrdersOn, OrderIdMap.Table.Valid, Pool.Valid, Linked, LevelMap.Valid, IndexOf;
    }

    /** Queueing an order at its slot and mapping its id keeps all structures in agreement, and the queue of its side
        gains it where its slot says. */
    lemma JoinedSound(im: Image, x: Order, i: nat, p: int)
      requires Joins(im, x, i, p) && Joined(im, x, i, p) && pool.inUse == |OrdersOn(im, Buy)| + |OrdersOn(im, Sell)| + 1
      ensures Sound(x.side, -1)
      ensures Queue(x.side) == SlotInsert(cfg, OrdersOn(im, x.side), x) && Queue(Opposite(x.side)) == OrdersOn(im, Opposite(x.side))
    {
      hide Consistent, BookInv, LevelsOk, OrdersOn, OrderIdMap.Table.Valid, Pool.Valid, Linked, LevelMap.Valid, IndexOf, SlotInsert,
        LevelMap.Flagged, Added;
      AddConsistent(cfg, im, x, i, p);
      SlotInsertLength(cfg, OrdersOn(im, x.side), x);
    }

    // Queue the order in slot `p` at its level and map its id, in the order `restResidual` does.
    method Attach(x: Order, i: nat, p: int, ghost mem: seq<Slot>)
      requires Holding(mem, p) && pool.slots[p] == Live(Node(x, NULL, NULL, NULL))
      requires i < Slots(cfg) && InRange(cfg, x.price) && IndexOf(cfg, x.price) == i && x.id !in idMap.Map()
      modifies SideMap(x.side).Repr(), MapRepr(), pool.slots
      ensures Joined(old(Pointers()).(mem := mem), x, i, p) && pool.inUse == old(pool.inUse)
      ensures SideMap(x.side).best == BetterOf(x, old(SideMap(x.side).best))
      ensures SideMap(Opposite(x.side)).best == old(SideMap(Opposite(x.side)).best)
    {
      hide LevelsOk, OrderIdMap.Table.Valid, Pool.Valid, Linked, Enqueued, LevelMap.Valid, IndexOf, OrderIdMap.Table.Map,
        Consistent, OrdersOn, Slots, LevelMap.Flagged, Better;
      AddFacts(x, i, p, mem);
      pool.Bound();
      SideMap(x.side).AddOrder(pool, p, i);
      var ok := idMap.Insert(x.id, p);
    }

    // The book with the order added, told from the two queues and the tracked prices.
    lemma ViewAdded(b: SlotBook, x: Order)
      requires cfg.tick > 0
      requires Queue(x.side) == SlotInsert(cfg, SideOf(b.book, x.side), x) && Queue(Opposite(x.side)) == SideOf(b.book, Opposite(x.side))
      requires SideMap(x.side).best == BetterOf(x, BestOf(b, x.side)) && SideMap(Opposite(x.side)).best == BestOf(b, Opposite(x.side))
      requires lastArrival == b.book.lastArrival && nextTradeId == b.book.nextTradeId
      ensures SlotView() == SlotAdd(cfg, b, x)
    {
      hide OrdersOn, SlotInsert, BetterOf;
    }

    /** The unfilled part of a limit order joins the tail of its slot's queue on its own side. False, with the book
        untouched, exactly when the pool has no slot left. */
    method RestResidual(o: NewOrder, arrival: int, remaining: int) returns (ok: bool)
      requires Sound(o.side, -1) && InRange(cfg, o.price) && o.id !in idMap.Map() && cfg.tick > 0
      modifies Body()
      ensures Sound(o.side, -1)
      ensures ok <==> Resting(old(View())) < cfg.maxOrders
      ensures SlotView() == if ok then SlotAdd(cfg, old(SlotView()), Residual(o, remaining, arrival)) else old(SlotView())
    {
      hide Sound, OrdersOn, Holding, PriceAt, IndexOf, OrderIdMap.Table.Map, SlotInsert, SlotAdd, Joined, Joins, BetterOf, Residual;
      var x := Residual(o, remaining, arrival);
      ResidualPrice(o, remaining, arrival);
      Counted(o.side);
      RangeIndex(cfg, o.price);
      ghost var im, b := Pointers(), SlotView();
      var p := HoldNode(x);
      if p == NULL {
        return false;
      }
      assert Pointers().(mem := im.mem) == im;
      HeldJoins(x, IndexOf(cfg, o.price), p, im.mem);
      Attach(x, IndexOf(cfg, o.price), p, im.mem);
      JoinedSound(im, x, IndexOf(cfg, o.price), p);
      ViewAdded(b, x);
      ok := true;
    }

    lemma ResidualPrice(o: NewOrder, remaining: int, arrival: int)
      ensures var x := Residual(o, remaining, arrival); x.price == o.price && x.side == o.side && x.id == o.id
    {
    }

    // ---------------------------------------------------------------------------------------------
    // Commands
    // ---------------------------------------------------------------------------------------------

    // The id map answers for the two lists.
    lemma IndexAgrees(id: int)
      requires Sound(Buy, -1)
      ensures id in idMap.Map() <==> IsResting(View(), id)
    {
      hide BookInv, LevelsOk, OrderIdMap.Table.Valid, Pool.Valid, LevelMap.Valid, OrdersOn, Consistent, OrderIdMap.Table.Map;
      IndexedIffListed(cfg, Pointers(), id);
    }

    method Lookup(id: int) returns (p: int)
      requires Sound(Buy, -1)
      ensures Sound(Buy, -1)
      ensures p == (if id in idMap.Map() then idMap.Map()[id] else OrderIdMap.NULL)
      ensures id in idMap.Map() <==> IsResting(View(), id)
      ensures p != OrderIdMap.NULL <==> IsResting(View(), id)
    {
      hide BookInv, LevelsOk, OrderIdMap.Table.Valid, Pool.Valid, LevelMap.Valid, OrdersOn, OrderIdMap.Table.Map, AllQueued,
        SideLinked, Find;
      IndexAgrees(id);
      p := idMap.Find(id);
    }

    /** The checks of `submitEx` in their order; none of them changes the book. */
    method Refuse(o: NewOrder) returns (status: SubmitStatus)
      requires Sound(Buy, -1) && cfg.tick > 0
      ensures Sound(Buy, -1)
      ensures status == SlotRefusal(cfg, SlotView(), o)
    {
      hide Sound, OrdersOn, SlotAvailable, BookInv, IsResting;
      if o.quantity <= 0 {
        return RejectedInvalidQuantity;
      }
      if !o.kind.Market? && !InRange(cfg, o.price) {
        return RejectedPriceOutOfRange;
      }
      var p := Lookup(o.id);
      if p != OrderIdMap.NULL {
        return RejectedDuplicateId;
      }
      SoundEitherSide(Buy);
      Sized(Opposite(o.side));
      if o.kind.Market? && !SideMap(Opposite(o.side)).HasBest() {
        return RejectedMarketIntoEmptyBook;
      }
      if o.kind.Fok? {
        var sum := AvailableAgainst(o);
        SoundEitherSide(Opposite(o.side));
        if sum < o.quantity {
          return RejectedFokUnfillable;
        }
      }
      return Ok;
    }

    // Take the next arrival number and match.
    method Arrive(o: NewOrder, trades: Buffer<Trade>, victims: Buffer?<Order>) returns (outcome: Outcome, remaining: int)
      requires Sound(Buy, -1) && Outside(trades, victims) && cfg.tick > 0
      modifies Body(), this`lastArrival, this`nextTradeId, trades, trades.data, BufferRepr(victims)
      ensures Sound(o.side, -1) && Outside(trades, victims)
      ensures var b, opp := old(SlotView()), Opposite(o.side);
        var r := SlotMatch(cfg, o, SideOf(b.book, opp), BestOf(b, opp), o.quantity, b.book.nextTradeId);
        && outcome == r.m.outcome && remaining == r.m.remaining
        && SlotView() == WithBest(b.(book := WithSide(b.book, opp, r.m.rest)
             .(lastArrival := b.book.lastArrival + 1, nextTradeId := b.book.nextTradeId + |r.m.trades|)), opp, r.best)
        && trades.log == old(trades.log) + r.m.trades
        && (victims != null ==> victims.log == old(victims.log) + r.m.victims)
    {
      hide Sound, OrdersOn, BookInv, SlotMatch, OrderBook.Body;
      SoundEitherSide(Buy);
      lastArrival := lastArrival + 1;
      Sized(Buy);
      Sized(Sell);
      outcome, remaining := MatchInto(o, o.quantity, trades, victims);
      SoundEitherSide(Opposite(o.side));
    }

    // What happens to the quantity matching left over: only a limit order rests.
    method Dispose(o: NewOrder, outcome: Outcome, remaining: int) returns (status: SubmitStatus, rested: bool)
      requires Sound(o.side, -1) && !IsResting(View(), o.id) && cfg.tick > 0
      requires o.kind.Limit? ==> InRange(cfg, o.price)
      modifies Body()
      ensures Sound(o.side, -1)
      ensures var b := old(SlotView());
        && (status, rested) == Disposition(o, MatchResult([], remaining, [], [], outcome), Resting(b.book) < cfg.maxOrders)
        && SlotView() == if rested then SlotAdd(cfg, b, Residual(o, remaining, lastArrival)) else b
    {
      hide Sound, OrdersOn, SlotAdd, Find, OrderBook.Body;
      rested := false;
      if outcome.StpFired? {
        status := CancelledBySelfTradePrevention;
      } else if remaining <= 0 {
        status := Ok;
      } else {
        match o.kind {
          case Limit =>
            SoundEitherSide(o.side);
            IndexAgrees(o.id);
            rested := RestResidual(o, lastArrival, remaining);
            status := if rested then Ok else RejectedPoolExhausted;
          case Market => status := CancelledResidual;
          case Ioc => status := CancelledResidual;
          case Fok => status := RejectedFokUnfillable;
        }
      }
    }

    // A book whose tracked prices and queues are those of a sound price-time book.
    lemma Regained(b: Book)
      requires Sound(Buy, -1) && SlotView() == OfBook(b) && BookInv(cfg, b)
      ensures Valid() && View() == b
    {
    }

    // The steps of `submitEx`.
    method SubmitSlots(o: NewOrder, trades: Buffer<Trade>, victims: Buffer?<Order>) returns (r: OrderResult)
      requires Sound(Buy, -1) && Outside(trades, victims) && cfg.tick > 0
      modifies Body(), this`lastArrival, this`nextTradeId, trades, trades.data, BufferRepr(victims)
      ensures Sound(Buy, -1) && Outside(trades, victims)
      ensures var e := SlotSubmit(cfg, old(SlotView()), o);
        && SlotView() == e.state && r == e.result
        && trades.log == old(trades.log) + e.trades
        && (victims != null ==> victims.log == old(victims.log) + e.victims)
    {
      hide Sound, OrdersOn, SlotMatch, SlotRefusal, SlotAdd, Find, OrderBook.Body;
      ghost var b := SlotView();
      var refusal := Refuse(o);
      if !refusal.Ok? {
        return Rejected(o, refusal);
      }
      var outcome, remaining := Arrive(o, trades, victims);
      SlotStillFresh(cfg, b, o);
      var status, rested := Dispose(o, outcome, remaining);
      SoundEitherSide(o.side);
      r := OrderResult(status, o.quantity - remaining, remaining, rested, o.price, o.quantity, o.participant, lastArrival, o.side);
    }

    /** `submitEx`, at any price: same book, same result, same trades, same victims as the matcher by slot. On the grid
        that is the price-time matcher on two lists. */
    method SubmitEx(o: NewOrder, trades: Buffer<Trade>, victims: Buffer?<Order>) returns (r: OrderResult)
      requires Sound(Buy, -1) && Outside(trades, victims)
      modifies Body(), this`lastArrival, this`nextTradeId, trades, trades.data, BufferRepr(victims)
      ensures Sound(Buy, -1) && Outside(trades, victims) && cfg.tick > 0
      ensures var e := SlotSubmit(cfg, old(SlotView()), o);
        && SlotView() == e.state && r == e.result
        && trades.log == old(trades.log) + e.trades
        && (victims != null ==> victims.log == old(victims.log) + e.victims)
      ensures old(Valid()) && GridOrder(cfg, o) ==>
        var e := Submit(cfg, old(View()), o);
        && Valid() && View() == e.book && r == e.result
        && trades.log == old(trades.log) + e.trades
        && (victims != null ==> victims.log == old(victims.log) + e.victims)
    {
      hide Sound, BookInv, SlotSubmit, Submit, OrderBook.Body, OrderBook.View, OfBook;
      ghost var b, onGrid := View(), Valid();
      Ticking();
      if onGrid && GridOrder(cfg, o) {
        SubmitKeeps(cfg, b, o);
        GridSubmit(cfg, b, o);
      }
      r := SubmitSlots(o, trades, victims);
      if onGrid && GridOrder(cfg, o) {
        Regained(Submit(cfg, b, o).book);
      }
    }

    lemma ValidIsSound()
      requires Valid()
      ensures Sound(Buy, -1) && SlotView() == OfBook(View()) && BookInv(cfg, View())
    {
    }

    lemma Ticking()
      requires Sound(Buy, -1)
      ensures cfg.tick > 0 && ValidConfig(cfg)
    {
    }

    // Where the order of a mapped id is queued, and what taking it out does to the two lists.
    lemma CancelFacts(id: int) returns (k: int)
      requires Sound(Buy, -1) && id in idMap.Map()
      ensures IsLive(pool.slots[..], idMap.Map()[id])
      ensures var p := idMap.Map()[id];
        var x, i := pool.slots[p].node.order, pool.slots[p].node.level;
        var chains := SideMap(x.side).chains;
        && 0 <= i < |chains| && 0 <= k < |chains[i]| && chains[i][k] == p && InRange(cfg, x.price) && IndexOf(cfg, x.price) == i
        && var im' := Removed(Pointers(), x.side, i, k, pool.free);
        && OrdersOn(im', Opposite(x.side)) == OrdersOn(Pointers(), Opposite(x.side))
        && IsResting(View(), id) && RestingOrder(View(), id) == x
        && RemoveResting(View(), id) == WithSide(View(), x.side, OrdersOn(im', x.side))
        && |OrdersOn(im', x.side)| == |OrdersOn(Pointers(), x.side)| - 1
    {
      hide LevelsOk, OrdersOn, OrderIdMap.Table.Valid, Pool.Valid, LevelMap.Valid, OrderIdMap.Table.Map,
        Linked, Removed, Find, IndexOf;
      var p := idMap.Map()[id];
      var im := Pointers();
      assert Queued(im, p);
      var x, i := pool.slots[p].node.order, pool.slots[p].node.level;
      var chains := ChainsOf(im, x.side);
      k :| 0 <= k < |chains[i]| && chains[i][k] == p;
      LevelOf(cfg, im, x.side, i, k);
      DistinctOn(cfg, im, x.side);
      DisjointOn(cfg, im);
      RemoveConsistent(cfg, im, x.side, i, k, pool.free);
      RemoveOne(View(), x.side, id);
    }

    // The steps of `cancel`.
    method CancelSlots(id: int) returns (r: OrderResult)
      requires Sound(Buy, -1) && cfg.tick > 0
      modifies Body()
      ensures Sound(Buy, -1)
      ensures SlotView() == SlotCancel(cfg, old(SlotView()), id).state && r == SlotCancel(cfg, old(SlotView()), id).result
    {
      hide Sound, OrdersOn, OrderIdMap.Table.Map, Find, Removed, OrderBook.Body, IndexOf, RemoveResting, RestingOrder, CancelledBest,
        IsResting;
      var p := Lookup(id);
      if p == OrderIdMap.NULL {
        return UnknownOrder;
      }
      ghost var k := CancelFacts(id);
      var x, i := pool.slots[p].node.order, pool.slots[p].node.level;
      SoundEitherSide(Buy);
      TakeOut(x.side, i, p, k);
      SoundEitherSide(x.side);
      r := CancelledResult(x);
    }

    /** `cancel`, at any price, takes the order out of every structure, or reports that it is not there. */
    method CancelEx(id: int) returns (r: OrderResult)
      requires Sound(Buy, -1)
      modifies Body()
      ensures Sound(Buy, -1) && cfg.tick > 0
      ensures SlotView() == SlotCancel(cfg, old(SlotView()), id).state && r == SlotCancel(cfg, old(SlotView()), id).result
      ensures old(Valid()) ==> Valid() && View() == CancelOrder(old(View()), id).book && r == CancelOrder(old(View()), id).result
    {
      hide Sound, BookInv, SlotCancel, CancelOrder, OrderBook.Body, OrderBook.View, OfBook;
      ghost var b, onGrid := View(), Valid();
      Ticking();
      if onGrid {
        CancelKeeps(cfg, b, id);
        GridCancel(cfg, b, id);
      }
      r := CancelSlots(id);
      if onGrid {
        Regained(CancelOrder(b, id).book);
      }
    }

    // A slot has orders on the list exactly when its level has a queue.
    lemma OccupiedIff(side: Side, i: nat)
      requires Sound(side, i) && i < |SideMap(side).chains| && cfg.tick > 0
      ensures Occupied(cfg, Queue(side), i) <==> SideMap(side).chains[i] != []
    {
      hide BookInv, LevelsOk, OrdersOn, OrderIdMap.Table.Valid, Pool.Valid, LevelMap.Valid, Consistent, Occupied;
      OccupiedOn(cfg, Pointers(), side, i);
    }

    // Take the order in slot `p` out, and report its level if it was the last there.
    method TakeOut(side: Side, i: nat, p: int, ghost k: int)
      requires Sound(side, -1) && cfg.tick > 0
      requires i < |SideMap(side).chains| && 0 <= k < |SideMap(side).chains[i]| && SideMap(side).chains[i][k] == p
      requires IsLive(pool.slots[..], p)
      requires var price := pool.slots[p].node.order.price; InRange(cfg, price) && IndexOf(cfg, price) == i
      requires |OrdersOn(Removed(Pointers(), side, i, k, pool.free), side)| == |OrdersOn(Pointers(), side)| - 1
      requires OrdersOn(Removed(Pointers(), side, i, k, pool.free), Opposite(side)) == OrdersOn(Pointers(), Opposite(side))
      modifies Body()
      ensures Pointers() == Removed(old(Pointers()), side, i, k, old(pool.free))
      ensures Sound(side, -1) && lastArrival == old(lastArrival) && nextTradeId == old(nextTradeId)
      ensures SideMap(Opposite(side)).best == old(SideMap(Opposite(side)).best)
      ensures SideMap(side).best
        == CancelledBest(cfg, side, Queue(side), old(SideMap(side).best), old(pool.slots[p].node.order.price))
    {
      hide Consistent, BookInv, LevelsOk, OrdersOn, LevelMap.Valid, OrderIdMap.Table.Valid, Pool.Valid, Removed, IndexOf, Occupied, Advance;
      Sooner(side, i);
      var price := pool.slots[p].node.order.price;
      RemoveNode(side, i, p, k);
      OccupiedIff(side, i);
      ReportIfEmpty(side, i, price);
    }

    method RefuseReplace(oldId: int, amended: NewOrder) returns (status: SubmitStatus)
      requires Sound(Buy, -1)
      ensures Sound(Buy, -1) && status == ReplaceRefusal(cfg, View(), oldId, amended)
    {
      hide Sound, OrdersOn, BookInv, Find;
      var old_ := Lookup(oldId);
      if old_ == OrderIdMap.NULL {
        return RejectedUnknownOrder;
      }
      if amended.quantity <= 0 {
        return RejectedInvalidQuantity;
      }
      if !amended.kind.Market? && !InRange(cfg, amended.price) {
        return RejectedPriceOutOfRange;
      }
      if amended.id != oldId {
        var other := Lookup(amended.id);
        if other != OrderIdMap.NULL {
          return RejectedDuplicateId;
        }
      }
      return Ok;
    }

    // The steps of `replace`.
    method ReplaceSlots(oldId: int, amended: NewOrder, trades: Buffer<Trade>, victims: Buffer?<Order>)
      returns (r: OrderResult, cancelled: bool, removed: OrderResult)
      requires Sound(Buy, -1) && Outside(trades, victims) && cfg.tick > 0
      modifies Body(), this`lastArrival, this`nextTradeId, trades, trades.data, BufferRepr(victims)
      ensures Sound(Buy, -1) && Outside(trades, victims)
      ensures var e := SlotReplace(cfg, old(SlotView()), oldId, amended);
        && SlotView() == e.effect.state && r == e.effect.result && cancelled == e.cancelled && removed == e.removed
        && trades.log == old(trades.log) + e.effect.trades
        && (victims != null ==> victims.log == old(victims.log) + e.effect.victims)
    {
      hide Sound, OrderBook.Body, OrderBook.View, SlotSubmit, SlotCancel, ReplaceRefusal;
      var refusal := RefuseReplace(oldId, amended);
      if !refusal.Ok? {
        return RejectedReplace(refusal), false, RejectedReplace(Ok);
      }
      removed := CancelFor(oldId, trades, victims);
      cancelled := true;
      r := SubmitSlots(amended, trades, victims);
    }

    /** `replace`, at any price, is a cancel and a new arrival, or nothing at all; `removed` is meaningful only if
        `cancelled`. */
    method ReplaceEx(oldId: int, amended: NewOrder, trades: Buffer<Trade>, victims: Buffer?<Order>)
      returns (r: OrderResult, cancelled: bool, removed: OrderResult)
      requires Sound(Buy, -1) && Outside(trades, victims)
      modifies Body(), this`lastArrival, this`nextTradeId, trades, trades.data, BufferRepr(victims)
      ensures Sound(Buy, -1) && Outside(trades, victims) && cfg.tick > 0
      ensures var e := SlotReplace(cfg, old(SlotView()), oldId, amended);
        && SlotView() == e.effect.state && r == e.effect.result && cancelled == e.cancelled && removed == e.removed
        && trades.log == old(trades.log) + e.effect.trades
        && (victims != null ==> victims.log == old(victims.log) + e.effect.victims)
      ensures old(Valid()) && GridOrder(cfg, amended) ==>
        var e := ReplaceOrder(cfg, old(View()), oldId, amended);
        && Valid() && View() == e.effect.book && r == e.effect.result && cancelled == e.cancelled && removed == e.removed
        && trades.log == old(trades.log) + e.effect.trades
        && (victims != null ==> victims.log == old(victims.log) + e.effect.victims)
    {
      hide Sound, BookInv, SlotReplace, ReplaceOrder, OrderBook.Body, OrderBook.View, OfBook;
      ghost var b, onGrid := View(), Valid();
      Ticking();
      if onGrid && GridOrder(cfg, amended) {
        StepKeeps(cfg, b, Replace(oldId, amended));
        GridReplace(cfg, b, oldId, amended);
      }
      r, cancelled, removed := ReplaceSlots(oldId, amended, trades, victims);
      if onGrid && GridOrder(cfg, amended) {
        Regained(ReplaceOrder(cfg, b, oldId, amended).effect.book);
      }
    }

    // Emptying a result buffer leaves the book alone.
    method ResetTrades(trades: Buffer<Trade>, victims: Buffer?<Order>)
      requires Sound(Buy, -1) && Outside(trades, victims)
      modifies trades
      ensures Sound(Buy, -1) && Outside(trades, victims) && SlotView() == old(SlotView()) && trades.log == []
      ensures victims != null ==> victims.log == old(victims.log)
    {
      hide Sound, OrdersOn;
      trades.Clear();
    }

    method ResetVictims(trades: Buffer<Trade>, victims: Buffer<Order>)
      requires Sound(Buy, -1) && Outside(trades, victims)
      modifies victims
      ensures Sound(Buy, -1) && Outside(trades, victims) && SlotView() == old(SlotView())
      ensures victims.log == [] && trades.log == old(trades.log)
    {
      hide Sound, OrdersOn;
      victims.Clear();
    }

    // `cancel` leaves the result buffers alone.
    method CancelFor(id: int, trades: Buffer<Trade>, victims: Buffer?<Order>) returns (r: OrderResult)
      requires Sound(Buy, -1) && Outside(trades, victims)
      modifies Body()
      ensures Sound(Buy, -1) && cfg.tick > 0
      ensures SlotView() == SlotCancel(cfg, old(SlotView()), id).state && r == SlotCancel(cfg, old(SlotView()), id).result
      ensures old(Valid()) ==> Valid() && View() == CancelOrder(old(View()), id).book && r == CancelOrder(old(View()), id).result
      ensures Outside(trades, victims) && trades.log == old(trades.log) && (victims != null ==> victims.log == old(victims.log))
    {
      hide Sound, OrderBook.View, OrderBook.Valid, SlotCancel, CancelOrder;
      r := CancelEx(id);
    }

    // ---------------------------------------------------------------------------------------------
    // The canonical walk
    // ---------------------------------------------------------------------------------------------

    // The orders of one level from head to tail.
    method LevelOrders(side: Side, i: nat) returns (s: seq<Order>)
      requires Sound(side, -1) && i < |SideMap(side).chains|
      ensures Sound(side, -1) && Pointers() == old(Pointers()) && s == OrdersOf(pool.slots[..], SideMap(side).chains[i])
    {
      hide Sound, OrdersOf;
      Sooner(side, i);
      HeadOf(side, i);
      ghost var c := SideMap(side).chains[i];
      ghost var here := OrdersOf(pool.slots[..], c);
      var n := SideMap(side).levels[i].head;
      s := [];
      while n != NULL
        invariant Sound(side, -1) && |s| <= |c| == |here| && n == At(c, |s|) && s == here[..|s|]
        decreases |c| - |s|
      {
        assert |s| < |c|;
        WalkFacts(side, i, |s|);
        var node := pool.slots[n].node;
        s := s + [node.order];
        n := node.next;
      }
      if |s| < |c| {
        WalkFacts(side, i, |s|);
      }
    }

    /** The walk snapshots and digests take, best level first and each level from its head, is the queue of the side. */
    method Orders(side: Side) returns (s: seq<Order>)
      requires Sound(side, -1)
      ensures Sound(side, -1) && Pointers() == old(Pointers()) && s == Queue(side)
    {
      hide Sound, OrderBook.Queue, OrdersOf, NextSlot, FirstSlot, From, LevelMap.Valid, PriceAt, IndexOf, Advance, OrderBook.Pointers,
        InRange;
      var lm := SideMap(side);
      s := [];
      var p := lm.best;
      WalkStart(side);
      ghost var i := if lm.HasBest() then IndexOf(cfg, p) else -1;
      NothingFrom(side);
      Sized(side);
      while p != EmptySentinel(side)
        invariant Sound(side, -1) && Pointers() == old(Pointers()) && -1 <= i < |lm.chains| && |lm.bits.occ| == |lm.chains|
        invariant p != EmptySentinel(side) <==> i != -1
        invariant i != -1 ==> InRange(cfg, p) && IndexOf(cfg, p) == i
        invariant s + From(side, i) == Queue(side)
        decreases if i == -1 then 0 else if side.Buy? then i + 1 else |lm.chains| - i
      {
        WalkOn(side, i);
        ghost var n := NextSlot(side, lm.bits.occ, i);
        WalkPriced(side, n);
        var here := LevelOrders(side, IndexOf(cfg, p));
        assert s + (here + From(side, n)) == s + here + From(side, n);
        s := s + here;
        p := NextLevel(side, p);
        i := n;
      }
    }

    // ---------------------------------------------------------------------------------------------
    // Restoring a book
    // ---------------------------------------------------------------------------------------------

    // Map the id, then queue the order; nothing is queued if the id is taken.
    method Enlist(x: Order, i: nat, p: int, ghost mem: seq<Slot>) returns (ok: bool)
      requires Holding(mem, p) && pool.slots[p] == Live(Node(x, NULL, NULL, NULL))
      requires i < Slots(cfg) && InRange(cfg, x.price) && IndexOf(cfg, x.price) == i
      modifies SideMap(x.side).Repr(), MapRepr(), pool.slots
      ensures ok <==> x.id !in old(idMap.Map())
      ensures !ok ==> Holding(mem, p) && Pointers() == old(Pointers()) && SideMap(x.side).best == old(SideMap(x.side).best)
      ensures ok ==> Joined(old(Pointers()).(mem := mem), x, i, p) && pool.inUse == old(pool.inUse)
      ensures ok ==> SideMap(x.side).best == BetterOf(x, old(SideMap(x.side).best))
      ensures SideMap(Opposite(x.side)).best == old(SideMap(Opposite(x.side)).best)
    {
      hide LevelsOk, OrderIdMap.Table.Valid, Pool.Valid, Linked, Enqueued, LevelMap.Valid, IndexOf, OrderIdMap.Table.Map,
        Consistent, OrdersOn, Slots, LevelMap.Flagged, Better;
      pool.Bound();
      AddFacts(x, i, p, mem);
      ok := idMap.Insert(x.id, p);
      if ok {
        SideMap(x.side).AddOrder(pool, p, i);
      }
    }

    method GiveBack(p: int, ghost mem: seq<Slot>)
      requires Holding(mem, p)
      modifies PoolRepr()
      ensures Sound(Buy, -1) && Pointers() == old(Pointers()).(mem := mem) && bids.best == old(bids.best) && asks.best == old(asks.best)
    {
      hide LevelsOk, OrderIdMap.Table.Valid, Pool.Valid, LevelMap.Valid, OrderIdMap.Table.Map, Consistent, OrdersOn;
      pool.Release(p);
      assert pool.slots[..] == mem;
    }

    // Map and queue the order just put into slot `p`; the slot goes back if the id is taken.
    method Settle(x: Order, i: nat, p: int, ghost im: Image, ghost b: SlotBook) returns (ok: bool)
      requires Holding(im.mem, p) && pool.slots[p] == Live(Node(x, NULL, NULL, NULL)) && Pointers().(mem := im.mem) == im
      requires i < Slots(cfg) && cfg.tick > 0 && InRange(cfg, x.price) && IndexOf(cfg, x.price) == i
      requires b == SlotBook(Book(OrdersOn(im, Buy), OrdersOn(im, Sell), lastArrival, nextTradeId), bids.best, asks.best)
      modifies Body()
      ensures Sound(x.side, -1)
      ensures ok <==> x.id !in old(idMap.Map())
      ensures SlotView() == if ok then SlotAdd(cfg, b, x) else b
    {
      hide Sound, OrdersOn, Holding, IndexOf, OrderIdMap.Table.Map, SlotInsert, SlotAdd, Joined, Joins, BetterOf;
      HeldApart(p, im.mem);
      if x.id !in idMap.Map() {
        HeldJoins(x, i, p, im.mem);
      }
      ok := Enlist(x, i, p, im.mem);
      if ok {
        JoinedSound(im, x, i, p);
        ViewAdded(b, x);
      } else {
        GiveBack(p, im.mem);
        SoundEitherSide(Buy);
      }
    }

    lemma HeldApart(p: int, mem: seq<Slot>)
      requires Holding(mem, p)
      ensures this !in Body()
    {
    }

    // Acquire and fill a slot, then map and queue.
    method RestoreNode(x: Order, i: nat) returns (ok: bool)
      requires Sound(x.side, -1) && i < Slots(cfg) && cfg.tick > 0 && InRange(cfg, x.price) && IndexOf(cfg, x.price) == i
      modifies Body()
      ensures Sound(x.side, -1)
      ensures ok <==> Resting(old(View())) < cfg.maxOrders && x.id !in old(idMap.Map())
      ensures SlotView() == if ok then SlotAdd(cfg, old(SlotView()), x) else old(SlotView())
    {
      hide Sound, OrdersOn, Holding, IndexOf, OrderIdMap.Table.Map, SlotAdd;
      Counted(x.side);
      ghost var im, b := Pointers(), SlotView();
      var p := HoldNode(x);
      if p == NULL {
        return false;
      }
      assert Pointers().(mem := im.mem) == im;
      ok := Settle(x, i, p, im, b);
    }

    /** `restoreResting`: the id is mapped before the order is queued, so that a duplicate leaves no trace. */
    method RestoreResting(x: Order) returns (ok: bool)
      requires Sound(Buy, -1) && InRange(cfg, x.price)
      modifies Body()
      ensures Sound(Buy, -1) && cfg.tick > 0
      ensures ok <==> Resting(old(View())) < cfg.maxOrders && !IsResting(old(View()), x.id)
      ensures SlotView() == if ok then SlotAdd(cfg, old(SlotView()), x) else old(SlotView())
    {
      hide Sound, OrdersOn, OrderIdMap.Table.Map, SlotAdd, Find, OrderBook.Body, IndexOf;
      Ticking();
      SoundEitherSide(Buy);
      IndexAgrees(x.id);
      Counted(Buy);
      RangeIndex(cfg, x.price);
      ok := RestoreNode(x, IndexOf(cfg, x.price));
      SoundEitherSide(x.side);
    }

    lemma Counted(side: Side)
      requires Sound(side, -1)
      ensures ValidConfig(cfg) && this !in Body() && pool.inUse == idMap.size == Resting(View()) <= cfg.maxOrders
    {
      hide Consistent, BookInv, LevelsOk, OrdersOn, LevelMap.Valid, OrderIdMap.Table.Valid, Pool.Valid;
      pool.Bound();
    }

    method RestoreCounters(last: int, tradeId: int)
      requires Sound(Buy, -1)
      modifies this`lastArrival, this`nextTradeId
      ensures Sound(Buy, -1)
      ensures SlotView() == old(SlotView()).(book := old(View()).(lastArrival := last, nextTradeId := tradeId))
    {
      hide Sound, OrdersOn;
      SoundEitherSide(Buy);
      lastArrival := last;
      nextTradeId := tradeId;
    }

    // The result buffers share no memory with the book or with each other.
    ghost predicate Outside(trades: Buffer<Trade>, victims: Buffer?<Order>)
      reads trades, trades.data, BufferRepr(victims)
    {
      && trades.Valid() && {trades, trades.data} !! Repr()
      && (victims != null ==> victims.Valid() && {victims, victims.data} !! Repr())
      && BufferRepr(victims) !! {trades, trades.data}
    }
  }

  ghost function BufferRepr(b: Buffer?<Order>): set<object> {
    if b == null then {} else {b, b.data}
  }
}
