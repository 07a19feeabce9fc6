/** One side of the book: the level array, the occupancy bitset over it and the tracked best price. */
module LevelMaps {
  import opened Types
  import opened MatcherLaws
  import opened Chains
  import opened Grid
  import opened Occupancy
  import opened ObjectPool
  import opened Conservation
  import opened Counting

  // One price level of the array; its queue is threaded through the pool.
  datatype PriceLevel = PriceLevel(head: int, tail: int, price: int, totalQty: int, count: int)

  // ---------------------------------------------------------------------------------------------
  // The best price: the first occupied slot in the direction of the side
  // ---------------------------------------------------------------------------------------------

  // The next occupied slot strictly worse than `i`; `i` is -1 or the number of slots to start outside.
  function NextSlot(side: Side, occ: seq<bool>, i: int): (r: int)
    requires if side.Buy? then 0 <= i <= |occ| else -1 <= i < |occ|
    ensures r == -1 || (0 <= r < |occ| && occ[r])
  {
    if side.Buy? then ScanDown(occ, i) else ScanUp(occ, i + 1)
  }

  function FirstSlot(side: Side, occ: seq<bool>): (r: int)
    ensures r == -1 || (0 <= r < |occ| && occ[r])
  {
    NextSlot(side, occ, if side.Buy? then |occ| else -1)
  }

  function SlotPriceOr(cfg: Config, side: Side, i: int): int {
    if i == -1 then EmptySentinel(side) else PriceAt(cfg, i)
  }

  // Slot `j` comes before slot `i` in the order of the side.
  predicate Before(side: Side, j: int, i: int) {
    if side.Buy? then j > i else j < i
  }

  lemma FirstSlotIs(side: Side, occ: seq<bool>, i: int)
    requires i == -1 || (0 <= i < |occ| && occ[i])
    requires forall j :: 0 <= j < |occ| && (i == -1 || Before(side, j, i)) ==> !occ[j]
    ensures FirstSlot(side, occ) == i
  {
    if side.Buy? {
      ScanDownIs(occ, |occ|, i);
    } else {
      ScanUpIs(occ, 0, i);
    }
  }

  lemma NothingBefore(side: Side, occ: seq<bool>, j: int)
    requires 0 <= j < |occ| && (FirstSlot(side, occ) == -1 || Before(side, j, FirstSlot(side, occ)))
    ensures !occ[j]
  {
  }

  lemma NextSlotIs(side: Side, occ: seq<bool>, i: int, j: int)
    requires 0 <= i < |occ| && 0 <= j < |occ| && Before(side, i, j)
    requires var n := NextSlot(side, occ, i); n == -1 || Before(side, j, n)
    ensures !occ[j]
  {
  }

  // Occupying a slot improves the best price or leaves it.
  lemma FirstAfterSet(side: Side, occ: seq<bool>, i: int)
    requires 0 <= i < |occ|
    ensures var f := FirstSlot(side, occ);
            FirstSlot(side, occ[i := true]) == if f == -1 || Before(side, i, f) then i else f
  {
    hide FirstSlot;
    var f := FirstSlot(side, occ);
    var r := if f == -1 || Before(side, i, f) then i else f;
    forall j | 0 <= j < |occ| && Before(side, j, r) ensures !occ[i := true][j] {
      NothingBefore(side, occ, j);
    }
    FirstSlotIs(side, occ[i := true], r);
  }

  // Emptying a slot moves the best price only if it was the best, and then to the next occupied slot.
  lemma FirstAfterClear(side: Side, occ: seq<bool>, i: int)
    requires 0 <= i < |occ|
    ensures var f := FirstSlot(side, occ);
            FirstSlot(side, occ[i := false]) == if f == i then NextSlot(side, occ, i) else f
  {
    hide FirstSlot, NextSlot;
    var f := FirstSlot(side, occ);
    var r, occ' := if f == i then NextSlot(side, occ, i) else f, occ[i := false];
    forall j | 0 <= j < |occ'| && (r == -1 || Before(side, j, r)) ensures !occ'[j] {
      if j != i {
        if f == i && Before(side, i, j) {
          NextSlotIs(side, occ, i, j);
        } else {
          NothingBefore(side, occ, j);
        }
      }
    }
    if f == i {
      NextIsBeyond(side, occ, i);
    }
    assert r == -1 || (0 <= r < |occ| && occ[r] && r != i);
    FirstSlotIs(side, occ', r);
  }

  lemma NextIsBeyond(side: Side, occ: seq<bool>, i: int)
    requires 0 <= i < |occ|
    ensures var n := NextSlot(side, occ, i); n == -1 || Before(side, i, n)
  {
  }

  // Looking beyond a slot finds the first occupied one if none is occupied up to there.
  lemma FirstIsNext(side: Side, occ: seq<bool>, i: int)
    requires 0 <= i < |occ| && forall j :: 0 <= j < |occ| && !Before(side, i, j) ==> !occ[j]
    ensures FirstSlot(side, occ) == NextSlot(side, occ, i)
  {
    hide NextSlot;
    var n := NextSlot(side, occ, i);
    NextIsBeyond(side, occ, i);
    forall j | 0 <= j < |occ| && (n == -1 || Before(side, j, n)) ensures !occ[j] {
      if Before(side, i, j) {
        NextSlotIs(side, occ, i, j);
      }
    }
    FirstSlotIs(side, occ, n);
  }

  // No occupied slot comes before that of the tracked price, and a side with no tracked price is empty. More is not
  // true of prices between the ticks: the slot of the tracked price may have emptied unnoticed.
  ghost predicate BestOk(cfg: Config, side: Side, occ: seq<bool>, best: int) {
    var f := FirstSlot(side, occ);
    if best == EmptySentinel(side) then f == -1
    else cfg.tick > 0 && InRange(cfg, best) && (f == -1 || !Before(side, f, IndexOf(cfg, best)))
  }

  lemma BetterSlot(cfg: Config, side: Side, p: int, q: int)
    requires cfg.tick > 0
    ensures Better(side, p, q) ==> !Before(side, IndexOf(cfg, q), IndexOf(cfg, p))
    ensures !Better(side, p, q) ==> !Before(side, IndexOf(cfg, p), IndexOf(cfg, q))
  {
    hide IndexOf;
    SlotsOrdered(cfg, p, q);
    SlotsOrdered(cfg, q, p);
  }

  /** Tracking a newcomer's price if it is better keeps the tracked price ahead of every occupied slot. */
  lemma BestAfterSet(cfg: Config, side: Side, occ: seq<bool>, best: int, price: int)
    requires ValidConfig(cfg) && |occ| == Slots(cfg) && BestOk(cfg, side, occ, best) && InRange(cfg, price)
    ensures 0 <= IndexOf(cfg, price) < |occ|
    ensures BestOk(cfg, side, occ[IndexOf(cfg, price) := true], if Better(side, price, best) then price else best)
  {
    hide FirstSlot, IndexOf;
    RangeIndex(cfg, price);
    FirstAfterSet(side, occ, IndexOf(cfg, price));
    BetterSlot(cfg, side, price, best);
  }

  /** So does looking for the next occupied slot when the slot of the tracked price is reported empty under that very
      price, and doing nothing when it is reported under another. */
  lemma BestAfterClear(cfg: Config, side: Side, occ: seq<bool>, best: int, price: int)
    requires ValidConfig(cfg) && |occ| == Slots(cfg) && BestOk(cfg, side, occ, best) && InRange(cfg, price)
    ensures var i := IndexOf(cfg, price);
      && 0 <= i < |occ|
      && BestOk(cfg, side, occ[i := false], if price == best then SlotPriceOr(cfg, side, NextSlot(side, occ[i := false], i)) else best)
      && (price == best ==> FirstSlot(side, occ[i := false]) == NextSlot(side, occ[i := false], i))
  {
    hide FirstSlot, NextSlot, IndexOf, PriceAt;
    RangeIndex(cfg, price);
    var i := IndexOf(cfg, price);
    var occ' := occ[i := false];
    FirstAfterClear(side, occ, i);
    if price == best {
      forall j | 0 <= j < |occ'| && !Before(side, i, j) ensures !occ'[j] {
        if j != i {
          NothingBefore(side, occ, j);
        }
      }
      FirstIsNext(side, occ', i);
      var f := FirstSlot(side, occ');
      if f != -1 {
        SlotPrice(cfg, f);
      }
    } else {
      NextIsBeyond(side, occ, i);
    }
  }

  // ---------------------------------------------------------------------------------------------
  // What the level records say about the chains
  // ---------------------------------------------------------------------------------------------

  ghost predicate LevelOk(mem: seq<Slot>, l: PriceLevel, c: seq<int>, price: int) {
    && l.head == At(c, 0) && l.tail == At(c, |c| - 1) && l.price == price
    && l.count == |c| && l.totalQty == SumRemaining(OrdersOf(mem, c))
  }

  ghost predicate LevelsOk(cfg: Config, mem: seq<Slot>, ls: seq<PriceLevel>, chains: seq<seq<int>>) {
    |ls| == |chains| && forall i :: 0 <= i < |ls| ==> LevelOk(mem, ls[i], chains[i], PriceAt(cfg, i))
  }

  // Two memories with the same orders in every slot of `c` give the same orders.
  lemma SameOrdersOf(mem: seq<Slot>, mem': seq<Slot>, c: seq<int>)
    requires forall k :: 0 <= k < |c| ==> OrderAt(mem', c[k]) == OrderAt(mem, c[k])
    ensures OrdersOf(mem', c) == OrdersOf(mem, c)
  {
  }

  lemma EnqueueOrders(mem: seq<Slot>, tail: int, p: int, level: int, x: int)
    ensures OrderAt(Enqueued(mem, tail, p, level), x) == OrderAt(mem, x)
  {
  }

  lemma UnlinkOrders(mem: seq<Slot>, p: int, x: int)
    requires IsLive(mem, p)
    ensures OrderAt(Unlinked(mem, p), x) == OrderAt(mem, x)
  {
  }

  lemma LevelsFrame(cfg: Config, mem: seq<Slot>, mem': seq<Slot>, ls: seq<PriceLevel>, chains: seq<seq<int>>, i: int)
    requires LevelsOk(cfg, mem, ls, chains)
    requires forall j, k :: 0 <= j < |chains| && j != i && 0 <= k < |chains[j]| ==>
      OrderAt(mem', chains[j][k]) == OrderAt(mem, chains[j][k])
    ensures forall j :: 0 <= j < |chains| && j != i ==> LevelOk(mem', ls[j], chains[j], PriceAt(cfg, j))
  {
    hide OrderAt, OrdersOf;
    forall j | 0 <= j < |chains| && j != i ensures LevelOk(mem', ls[j], chains[j], PriceAt(cfg, j)) {
      assert LevelOk(mem, ls[j], chains[j], PriceAt(cfg, j));
      SameOrdersOf(mem, mem', chains[j]);
    }
  }

  function EnqueuedLevel(l: PriceLevel, p: int, remaining: int): PriceLevel {
    PriceLevel(if l.tail == NULL then p else l.head, p, l.price, l.totalQty + remaining, l.count + 1)
  }

  lemma EnqueueRecord(cfg: Config, mem: seq<Slot>, ls: seq<PriceLevel>, chains: seq<seq<int>>, i: int, p: int)
    requires LevelsOk(cfg, mem, ls, chains) && 0 <= i < |chains|
    requires Linked(mem, chains[i]) && IsLive(mem, p) && p !in chains[i]
    ensures LevelsOk(cfg, Enqueued(mem, ls[i].tail, p, i), ls[i := EnqueuedLevel(ls[i], p, OrderAt(mem, p).remaining)],
                     chains[i := chains[i] + [p]])
    ensures ls[i].tail == At(chains[i], |chains[i]| - 1)
    ensures ls[i].tail == NULL || (IsLive(mem, ls[i].tail) && ls[i].tail != p)
  {
    hide OrderAt, OrdersOf, Enqueued, SumRemaining;
    var c := chains[i];
    assert LevelOk(mem, ls[i], c, PriceAt(cfg, i));
    assert |c| > 0 ==> LinkedAt(mem, c, |c| - 1);
    EnqueueLinks(mem, c, p, i);
    SumSnoc(OrdersOf(mem, c), OrderAt(mem, p));
    var mem' := Enqueued(mem, ls[i].tail, p, i);
    forall j, k | 0 <= j < |chains| && j != i && 0 <= k < |chains[j]|
      ensures OrderAt(mem', chains[j][k]) == OrderAt(mem, chains[j][k])
    {
      EnqueueOrders(mem, ls[i].tail, p, i, chains[j][k]);
    }
    LevelsFrame(cfg, mem, mem', ls, chains, i);
  }

  function UnlinkedLevel(l: PriceLevel, node: Node): PriceLevel {
    PriceLevel(if node.prev == NULL then node.next else l.head,
               if node.next == NULL then node.prev else l.tail,
               l.price, l.totalQty - node.order.remaining, l.count - 1)
  }

  lemma UnlinkedEnds(mem: seq<Slot>, l: PriceLevel, c: seq<int>, k: int)
    requires Linked(mem, c) && 0 <= k < |c| && l.head == At(c, 0) && l.tail == At(c, |c| - 1)
    ensures IsLive(mem, c[k])
    ensures var l' := UnlinkedLevel(l, mem[c[k]].node);
            l'.head == At(Drop(c, k), 0) && l'.tail == At(Drop(c, k), |c| - 2)
  {
    assert LinkedAt(mem, c, k);
    if k > 0 {
      assert LinkedAt(mem, c, k - 1);
    }
    if k + 1 < |c| {
      assert LinkedAt(mem, c, k + 1);
    }
  }

  lemma UnlinkRecord(cfg: Config, mem: seq<Slot>, ls: seq<PriceLevel>, chains: seq<seq<int>>, i: int, k: int)
    requires LevelsOk(cfg, mem, ls, chains) && 0 <= i < |chains| && 0 <= k < |chains[i]| && Linked(mem, chains[i])
    ensures IsLive(mem, chains[i][k])
    ensures LevelsOk(cfg, Unlinked(mem, chains[i][k]), ls[i := UnlinkedLevel(ls[i], mem[chains[i][k]].node)],
                     chains[i := Drop(chains[i], k)])
  {
    hide OrdersOf, Unlinked, SumRemaining, LinkedAt, NoDup;
    var c := chains[i];
    assert LevelOk(mem, ls[i], c, PriceAt(cfg, i));
    UnlinkedEnds(mem, ls[i], c, k);
    UnlinkLinks(mem, c, k);
    SumDrop(OrdersOf(mem, c), k);
    var mem' := Unlinked(mem, c[k]);
    forall j, x | 0 <= j < |chains| && j != i && 0 <= x < |chains[j]|
      ensures OrderAt(mem', chains[j][x]) == OrderAt(mem, chains[j][x])
    {
      UnlinkOrders(mem, c[k], chains[j][x]);
    }
    LevelsFrame(cfg, mem, mem', ls, chains, i);
  }

  // Levels as constructed say that every queue is empty.
  lemma EmptyLevels(cfg: Config, mem: seq<Slot>, ls: seq<PriceLevel>, chains: seq<seq<int>>)
    requires |chains| == |ls| && forall i :: 0 <= i < |ls| ==> ls[i] == PriceLevel(NULL, NULL, PriceAt(cfg, i), 0, 0)
    requires forall i :: 0 <= i < |chains| ==> chains[i] == []
    ensures LevelsOk(cfg, mem, ls, chains)
  {
    forall i | 0 <= i < |ls| ensures LevelOk(mem, ls[i], chains[i], PriceAt(cfg, i)) {
      assert OrdersOf(mem, chains[i]) == [];
    }
  }

  lemma EnqueueLeavesFree(mem: seq<Slot>, tail: int, p: int, level: int)
    ensures FreeUntouched(mem, Enqueued(mem, tail, p, level))
  {
  }

  lemma UnlinkLeavesFree(mem: seq<Slot>, p: int)
    requires IsLive(mem, p)
    ensures FreeUntouched(mem, Unlinked(mem, p))
  {
  }

  // ---------------------------------------------------------------------------------------------
  // The map itself
  // ---------------------------------------------------------------------------------------------

  class LevelMap {
    const cfg: Config
    const side: Side
    const levels: array<PriceLevel>
    const bits: Bitset
    var best: int

    // The slots queued at each level, head first.
    ghost var chains: seq<seq<int>>

    ghost function Repr(): set<object> {
      {this, levels, bits, bits.l0, bits.l1}
    }

    ghost predicate Shape()
      reads this, bits, bits.l0, bits.l1
    {
      && ValidConfig(cfg)
      && levels.Length == |chains| == bits.slots == Slots(cfg)
      && bits.Valid()
    }

    ghost predicate Valid()
      reads this, bits, bits.l0, bits.l1
    {
      Shape() && BestOk(cfg, side, bits.occ, best)
    }

    // A level is flagged occupied exactly when it has orders, but for one that may not have been reported empty yet.
    ghost predicate Flagged(pending: int)
      reads this, bits
    {
      |bits.occ| == |chains| &&
      forall i :: 0 <= i < |chains| ==> (chains[i] != [] ==> bits.occ[i]) && (i != pending && chains[i] == [] ==> !bits.occ[i])
    }

    ghost predicate Records(mem: seq<Slot>)
      reads this, levels
    {
      LevelsOk(cfg, mem, levels[..], chains)
    }

    constructor (cfg: Config, side: Side)
      requires ValidConfig(cfg)
      ensures Valid() && Flagged(-1) && this.cfg == cfg && this.side == side
      ensures forall i :: 0 <= i < levels.Length ==> levels[i] == PriceLevel(NULL, NULL, PriceAt(cfg, i), 0, 0)
      ensures chains == seq(Slots(cfg), _ => []) && best == EmptySentinel(side)
      ensures fresh(levels) && fresh(bits) && fresh(bits.l0) && fresh(bits.l1)
    {
      this.cfg := cfg;
      this.side := side;
      levels := new PriceLevel[Slots(cfg)](i => PriceLevel(NULL, NULL, PriceAt(cfg, i), 0, 0));
      bits := new Bitset(Slots(cfg));
      best := EmptySentinel(side);
      chains := seq(Slots(cfg), _ => []);
      new;
      FirstSlotIs(side, bits.occ, -1);
    }

    lemma Lengths()
      requires Valid()
      ensures levels.Length == |chains| == |bits.occ| == Slots(cfg)
    {
    }

    predicate HasBest()
      reads this
    {
      best != EmptySentinel(side)
    }

    // `PriceLevel::enqueue` on level `i`.
    method Enqueue(pool: Pool, i: nat, p: int)
      requires Valid() && pool.Valid() && i < levels.Length
      requires Records(pool.slots[..]) && Linked(pool.slots[..], chains[i])
      requires IsLive(pool.slots[..], p) && p !in chains[i]
      modifies levels, this`chains, pool.slots
      ensures Valid() && pool.Valid() && Records(pool.slots[..])
      ensures chains == old(chains)[i := old(chains)[i] + [p]]
      ensures pool.slots[..] == Enqueued(old(pool.slots[..]), At(old(chains)[i], |old(chains)[i]| - 1), p, i)
    {
      hide Linked, LevelsOk, FreeLinked, FreeUntouched, BestOk, ValidConfig, Slots;
      ghost var mem, ls := pool.slots[..], levels[..];
      EnqueueRecord(cfg, mem, ls, chains, i, p);
      var tail := levels[i].tail;
      var node := pool.slots[p].node;
      pool.slots[p] := Live(node.(prev := tail, next := NULL, level := i));
      if tail != NULL {
        pool.slots[tail] := Live(pool.slots[tail].node.(next := p));
        levels[i] := levels[i].(tail := p);
      } else {
        levels[i] := levels[i].(head := p, tail := p);
      }
      levels[i] := levels[i].(totalQty := levels[i].totalQty + node.order.remaining, count := levels[i].count + 1);
      chains := chains[i := chains[i] + [p]];
      assert pool.slots[..] == Enqueued(mem, tail, p, i);
      assert levels[..] == ls[i := EnqueuedLevel(ls[i], p, node.order.remaining)];
      EnqueueLeavesFree(mem, tail, p, i);
      FreeFrame(mem, pool.slots[..], pool.free, pool.freeList);
    }

    // `PriceLevel::unlink` on level `i`: the order carries its own links, so nothing is searched.
    method Unlink(pool: Pool, i: nat, p: int, ghost k: int)
      requires Valid() && pool.Valid() && i < levels.Length
      requires Records(pool.slots[..]) && Linked(pool.slots[..], chains[i])
      requires 0 <= k < |chains[i]| && chains[i][k] == p
      modifies levels, this`chains, pool.slots
      ensures Valid() && pool.Valid() && Records(pool.slots[..])
      ensures IsLive(old(pool.slots[..]), p) && pool.slots[..] == Unlinked(old(pool.slots[..]), p)
      ensures chains == old(chains)[i := Drop(old(chains)[i], k)]
    {
      hide LevelsOk, FreeLinked, FreeUntouched, BestOk, ValidConfig, Slots, Linked;
      ghost var mem, ls := pool.slots[..], levels[..];
      UnlinkRecord(cfg, mem, ls, chains, i, k);
      NeighboursLive(mem, chains[i], k);
      var node := pool.slots[p].node;
      if node.prev != NULL {
        pool.slots[node.prev] := Live(pool.slots[node.prev].node.(next := node.next));
      } else {
        levels[i] := levels[i].(head := node.next);
      }
      if node.next != NULL {
        pool.slots[node.next] := Live(pool.slots[node.next].node.(prev := node.prev));
      } else {
        levels[i] := levels[i].(tail := node.prev);
      }
      levels[i] := levels[i].(totalQty := levels[i].totalQty - node.order.remaining, count := levels[i].count - 1);
      pool.slots[p] := Live(pool.slots[p].node.(prev := NULL, next := NULL, level := NULL));
      chains := chains[i := Drop(chains[i], k)];
      assert pool.slots[..] == Unlinked(mem, p);
      assert levels[..] == ls[i := UnlinkedLevel(ls[i], node)];
      UnlinkLeavesFree(mem, p);
      FreeFrame(mem, pool.slots[..], pool.free, pool.freeList);
    }

    // `PriceLevel::reduceQuantity` on level `i`.
    method ReduceQuantity(i: nat, quantity: int)
      requires Valid() && i < levels.Length
      modifies levels
      ensures Valid()
      ensures levels[..] == old(levels[..])[i := old(levels[i]).(totalQty := old(levels[i]).totalQty - quantity)]
    {
      levels[i] := levels[i].(totalQty := levels[i].totalQty - quantity);
    }

    // The grid price of the next occupied slot strictly beyond that of `price`, or the empty sentinel.
    method NextOccupied(price: int) returns (p: int)
      requires Shape() && InRange(cfg, price)
      ensures 0 <= IndexOf(cfg, price) < |bits.occ|
      ensures p == SlotPriceOr(cfg, side, NextSlot(side, bits.occ, IndexOf(cfg, price)))
    {
      RangeIndex(cfg, price);
      var idx := IndexOf(cfg, price);
      var found;
      if side.Buy? {
        found := bits.FindBelow(idx);
      } else {
        found := bits.FindAbove(idx);
      }
      if found == -1 {
        return EmptySentinel(side);
      }
      return PriceAt(cfg, found);
    }

    // Called once the level of `price` has no orders left: forget it, and move on if that is the tracked price.
    method OnLevelEmptied(price: int)
      requires Valid() && InRange(cfg, price)
      requires 0 <= IndexOf(cfg, price) < |chains| && chains[IndexOf(cfg, price)] == []
      requires Flagged(IndexOf(cfg, price))
      modifies this`best, bits, bits.l0, bits.l1
      ensures Valid() && Flagged(-1) && bits.occ == old(bits.occ)[IndexOf(cfg, price) := false]
      ensures best == if price == old(best) then SlotPriceOr(cfg, side, FirstSlot(side, bits.occ)) else old(best)
    {
      hide NextSlot, FirstSlot, PriceAt, IndexOf;
      var i := IndexOf(cfg, price);
      BestAfterClear(cfg, side, bits.occ, best, price);
      bits.Clear(i);
      if price != best {
        return;
      }
      best := NextOccupied(price);
    }

    // Queue an order at its slot and track its price if it improves on the tracked one.
    method AddOrder(pool: Pool, p: int, i: nat)
      requires Valid() && Flagged(-1) && pool.Valid() && Records(pool.slots[..])
      requires IsLive(pool.slots[..], p) && i < levels.Length
      requires InRange(cfg, OrderAt(pool.slots[..], p).price) && IndexOf(cfg, OrderAt(pool.slots[..], p).price) == i
      requires Linked(pool.slots[..], chains[i]) && p !in chains[i]
      modifies this`best, this`chains, levels, bits, bits.l0, bits.l1, pool.slots
      ensures Valid() && Flagged(-1) && pool.Valid() && Records(pool.slots[..])
      ensures chains == old(chains)[i := old(chains)[i] + [p]]
      ensures pool.slots[..] == Enqueued(old(pool.slots[..]), At(old(chains)[i], |old(chains)[i]| - 1), p, i)
      ensures var price := OrderAt(old(pool.slots[..]), p).price;
        best == if Better(side, price, old(best)) then price else old(best)
    {
      hide FirstSlot, LevelsOk, Linked, FreeLinked, Enqueued, BestOk, IndexOf, PriceAt;
      ghost var occ := bits.occ;
      var price := pool.slots[p].node.order.price;
      LevelEmptyIff(cfg, pool.slots[..], levels[..], chains, i);
      var wasEmpty := levels[i].head == NULL;
      BestAfterSet(cfg, side, occ, best, price);
      Enqueue(pool, i, p);
      if wasEmpty {
        bits.Set(i);
      }
      assert bits.occ == occ[i := true];
      if Better(side, price, best) {
        best := price;
      }
    }
  }

  lemma LevelEmptyIff(cfg: Config, mem: seq<Slot>, ls: seq<PriceLevel>, chains: seq<seq<int>>, i: int)
    requires LevelsOk(cfg, mem, ls, chains) && 0 <= i < |chains| && Linked(mem, chains[i])
    ensures ls[i].head == NULL <==> chains[i] == []
    ensures ls[i].head == At(chains[i], 0)
  {
    assert LevelOk(mem, ls[i], chains[i], PriceAt(cfg, i));
    if chains[i] != [] {
      assert LinkedAt(mem, chains[i], 0);
    }
  }

  lemma NeighboursLive(mem: seq<Slot>, c: seq<int>, k: int)
    requires Linked(mem, c) && 0 <= k < |c|
    ensures IsLive(mem, c[k])
    ensures var node := mem[c[k]].node;
      && (node.prev == NULL || (IsLive(mem, node.prev) && node.prev != c[k]))
      && (node.next == NULL || (IsLive(mem, node.next) && node.next != c[k] && node.next != node.prev))
  {
    assert LinkedAt(mem, c, k);
    if k > 0 {
      assert LinkedAt(mem, c, k - 1);
    }
    if k + 1 < |c| {
      assert LinkedAt(mem, c, k + 1);
    }
  }
}
