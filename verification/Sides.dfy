/** From linked levels to the two priority lists: the orders of a side are its levels laid end to end,
    best price first. */
module Sides {
  import opened Types
  import opened Matcher
  import opened MatcherLaws
  import opened BookLaws
  import opened Chains
  import opened Counting
  import opened Grid
  import opened SlotMatcher

  // ---------------------------------------------------------------------------------------------
  // Levels laid end to end
  // ---------------------------------------------------------------------------------------------

  ghost function Flat(vw: seq<seq<Order>>): seq<Order> {
    if vw == [] then [] else vw[0] + Flat(vw[1..])
  }

  lemma {:induction false} FlatSplit(vw: seq<seq<Order>>, r: int)
    requires 0 <= r < |vw|
    ensures Flat(vw) == Flat(vw[..r]) + vw[r] + Flat(vw[r + 1..])
  {
    if r > 0 {
      FlatSplit(vw[1..], r - 1);
      assert vw[1..][..r - 1] == vw[..r][1..];
      assert vw[1..][r..] == vw[r + 1..];
    }
  }

  lemma FlatUpdate(vw: seq<seq<Order>>, r: int, x: seq<Order>)
    requires 0 <= r < |vw|
    ensures Flat(vw[r := x]) == Flat(vw[..r]) + x + Flat(vw[r + 1..])
  {
    FlatSplit(vw[r := x], r);
    assert vw[r := x][..r] == vw[..r] && vw[r := x][r + 1..] == vw[r + 1..];
  }

  lemma {:induction false} FlatEmpty(vw: seq<seq<Order>>)
    requires forall r :: 0 <= r < |vw| ==> vw[r] == []
    ensures Flat(vw) == []
  {
    if vw != [] {
      FlatEmpty(vw[1..]);
    }
  }

  lemma {:induction false} FlatAll(vw: seq<seq<Order>>, holds: Order -> bool)
    requires forall r, k :: 0 <= r < |vw| && 0 <= k < |vw[r]| ==> holds(vw[r][k])
    ensures forall i :: 0 <= i < |Flat(vw)| ==> holds(Flat(vw)[i])
  {
    if vw != [] {
      FlatAll(vw[1..], holds);
    }
  }

  // ---------------------------------------------------------------------------------------------
  // Insertion and removal at a level
  // ---------------------------------------------------------------------------------------------

  // The newcomer's slot comes before this order's.
  predicate SlotBefore(cfg: Config, o: Order, x: Order) {
    cfg.tick > 0 && Better(o.side, IndexOf(cfg, o.price), IndexOf(cfg, x.price))
  }

  lemma {:induction false} InsertSplit(cfg: Config, a: seq<Order>, b: seq<Order>, o: Order)
    requires cfg.tick > 0 && forall i :: 0 <= i < |a| ==> !SlotBefore(cfg, o, a[i])
    requires b != [] ==> SlotBefore(cfg, o, b[0])
    ensures SlotInsert(cfg, a + b, o) == a + [o] + b
  {
    hide IndexOf;
    if a == [] {
      assert a + b == b;
    } else {
      InsertSplit(cfg, a[1..], b, o);
      assert (a + b)[1..] == a[1..] + b;
    }
  }

  lemma FlatInsert(cfg: Config, vw: seq<seq<Order>>, r: int, o: Order)
    requires cfg.tick > 0 && 0 <= r < |vw|
    requires forall j, k :: 0 <= j <= r && 0 <= k < |vw[j]| ==> !SlotBefore(cfg, o, vw[j][k])
    requires forall j, k :: r < j < |vw| && 0 <= k < |vw[j]| ==> SlotBefore(cfg, o, vw[j][k])
    ensures Flat(vw[r := vw[r] + [o]]) == SlotInsert(cfg, Flat(vw), o)
  {
    hide Flat, SlotInsert, SlotBefore;
    var pre, post := Flat(vw[..r]), Flat(vw[r + 1..]);
    FlatAll(vw[..r], (x: Order) => !SlotBefore(cfg, o, x));
    FlatAll(vw[r + 1..], (x: Order) => SlotBefore(cfg, o, x));
    InsertSplit(cfg, pre + vw[r], post, o);
    FlatSplit(vw, r);
    FlatUpdate(vw, r, vw[r] + [o]);
    assert pre + vw[r] + [o] + post == pre + (vw[r] + [o]) + post;
  }

  lemma {:induction false} FindFirst(a: seq<Order>, x: Order, b: seq<Order>)
    requires forall i :: 0 <= i < |a| ==> a[i].id != x.id
    ensures Find(a + [x] + b, x.id) == |a|
  {
    if a != [] {
      FindFirst(a[1..], x, b);
      assert (a + [x] + b)[1..] == a[1..] + [x] + b;
    }
  }

  lemma FlatRemove(vw: seq<seq<Order>>, r: int, k: int)
    requires 0 <= r < |vw| && 0 <= k < |vw[r]| && DistinctIds(Flat(vw))
    ensures Flat(vw[r := vw[r][..k] + vw[r][k + 1..]]) == Remove(Flat(vw), vw[r][k].id)
    ensures Find(Flat(vw), vw[r][k].id) != -1
    ensures Flat(vw)[Find(Flat(vw), vw[r][k].id)] == vw[r][k]
  {
    hide Flat, Find;
    var pre, post, x := Flat(vw[..r]), Flat(vw[r + 1..]), vw[r][k];
    var a, b := pre + vw[r][..k], vw[r][k + 1..] + post;
    FlatSplit(vw, r);
    assert vw[r] == vw[r][..k] + [x] + vw[r][k + 1..];
    assert Flat(vw) == a + [x] + b;
    forall i | 0 <= i < |a| ensures a[i].id != x.id {
      assert Flat(vw)[i] == a[i] && Flat(vw)[|a|] == x;
    }
    FindFirst(a, x, b);
    FlatUpdate(vw, r, vw[r][..k] + vw[r][k + 1..]);
    assert a + b == pre + (vw[r][..k] + vw[r][k + 1..]) + post;
  }

  // The first order of the side is the head of its first non-empty level.
  lemma FlatHead(vw: seq<seq<Order>>, r: int)
    requires 0 <= r < |vw| && vw[r] != [] && forall j :: 0 <= j < r ==> vw[j] == []
    ensures Flat(vw) != [] && Flat(vw)[0] == vw[r][0]
    ensures Flat(vw[r := vw[r][1..]]) == Flat(vw)[1..]
    ensures forall x :: Flat(vw[r := vw[r][0 := x]]) == [x] + Flat(vw)[1..]
  {
    hide Flat;
    FlatEmpty(vw[..r]);
    FlatSplit(vw, r);
    FlatUpdate(vw, r, vw[r][1..]);
    forall x ensures Flat(vw[r := vw[r][0 := x]]) == [x] + Flat(vw)[1..] {
      FlatUpdate(vw, r, vw[r][0 := x]);
    }
  }

  // ---------------------------------------------------------------------------------------------
  // Level numbers by rank: lowest first for asks, highest first for bids
  // ---------------------------------------------------------------------------------------------

  // The level of rank `r`, and the rank of level `r`: the map is its own inverse.
  function Rank(side: Side, n: nat, r: int): int {
    if side.Sell? then r else n - 1 - r
  }

  lemma RankOrder(side: Side, n: nat, r: int, s: int)
    ensures r < s <==> Better(side, Rank(side, n, r), Rank(side, n, s))
  {
  }

  ghost function Levels(side: Side, mem: seq<Slot>, chains: seq<seq<int>>): (vw: seq<seq<Order>>)
    ensures |vw| == |chains|
    ensures forall r :: 0 <= r < |chains| ==> vw[r] == OrdersOf(mem, chains[Rank(side, |chains|, r)])
  {
    seq(|chains|, r requires 0 <= r < |chains| => OrdersOf(mem, chains[Rank(side, |chains|, r)]))
  }

  // The orders of one side in priority order.
  ghost function SideOrders(side: Side, mem: seq<Slot>, chains: seq<seq<int>>): seq<Order> {
    Flat(Levels(side, mem, chains))
  }

  // Nothing changed on this side but level `i`.
  ghost predicate OnlyLevel(mem: seq<Slot>, chains: seq<seq<int>>, mem': seq<Slot>, chains': seq<seq<int>>, i: int) {
    && |chains'| == |chains| && 0 <= i < |chains|
    && (forall j :: 0 <= j < |chains| && j != i ==> OrdersOf(mem', chains'[j]) == OrdersOf(mem, chains[j]))
  }

  lemma LevelsUpdate(side: Side, mem: seq<Slot>, chains: seq<seq<int>>, mem': seq<Slot>, chains': seq<seq<int>>, i: int)
    requires OnlyLevel(mem, chains, mem', chains', i)
    ensures Levels(side, mem', chains') == Levels(side, mem, chains)[Rank(side, |chains|, i) := OrdersOf(mem', chains'[i])]
  {
  }

  // ---------------------------------------------------------------------------------------------
  // Everything the four structures must agree on
  // ---------------------------------------------------------------------------------------------

  // Memory, the chain of every level of each side, and what the id map maps ids to.
  datatype Image = Image(mem: seq<Slot>, bids: seq<seq<int>>, asks: seq<seq<int>>, index: map<int, int>)

  function ChainsOf(im: Image, side: Side): seq<seq<int>> {
    if side.Buy? then im.bids else im.asks
  }

  function WithChain(im: Image, side: Side, i: int, c: seq<int>): Image
    requires 0 <= i < |ChainsOf(im, side)|
  {
    if side.Buy? then im.(bids := im.bids[i := c]) else im.(asks := im.asks[i := c])
  }

  // The order in slot `p` belongs at level `i` of this side.
  ghost predicate Belongs(cfg: Config, side: Side, mem: seq<Slot>, i: int, p: int) {
    && IsLive(mem, p) && mem[p].node.level == i
    && mem[p].node.order.side == side
    && cfg.tick > 0 && InRange(cfg, mem[p].node.order.price) && IndexOf(cfg, mem[p].node.order.price) == i
  }

  ghost predicate LevelLinked(cfg: Config, side: Side, mem: seq<Slot>, i: int, c: seq<int>) {
    Linked(mem, c) && forall p :: p in c ==> Belongs(cfg, side, mem, i, p)
  }

  ghost predicate SideLinked(cfg: Config, side: Side, mem: seq<Slot>, chains: seq<seq<int>>)
    requires ValidConfig(cfg)
  {
    |chains| == Slots(cfg) && forall i :: 0 <= i < |chains| ==> LevelLinked(cfg, side, mem, i, chains[i])
  }

  // The chain the order in slot `p` says it is queued in.
  ghost predicate Queued(im: Image, p: int)
    requires IsLive(im.mem, p)
  {
    var node := im.mem[p].node;
    var chains := ChainsOf(im, node.order.side);
    0 <= node.level < |chains| && p in chains[node.level]
  }

  ghost predicate Indexed(mem: seq<Slot>, index: map<int, int>) {
    && (forall id :: id in index ==> IsLive(mem, index[id]) && OrderAt(mem, index[id]).id == id)
    && (forall p :: IsLive(mem, p) ==> OrderAt(mem, p).id in index && index[OrderAt(mem, p).id] == p)
  }

  ghost predicate AllQueued(im: Image) {
    forall p :: IsLive(im.mem, p) ==> Queued(im, p)
  }

  // Linked orders, live pool slots and id-map entries are the same set.
  ghost predicate Consistent(cfg: Config, im: Image) {
    && ValidConfig(cfg)
    && SideLinked(cfg, Buy, im.mem, im.bids) && SideLinked(cfg, Sell, im.mem, im.asks)
    && AllQueued(im) && Indexed(im.mem, im.index)
  }

  ghost function OrdersOn(im: Image, side: Side): seq<Order> {
    SideOrders(side, im.mem, ChainsOf(im, side))
  }

  // A slot of one level's chain is in no other chain.
  lemma OtherLevel(cfg: Config, im: Image, side: Side, i: int, p: int, side': Side, i': int)
    requires Consistent(cfg, im)
    requires 0 <= i < |ChainsOf(im, side)| && 0 <= i' < |ChainsOf(im, side')|
    requires p in ChainsOf(im, side)[i] && (side != side' || i != i')
    ensures p !in ChainsOf(im, side')[i']
  {
    hide Linked;
    var c, c' := ChainsOf(im, side)[i], ChainsOf(im, side')[i'];
    assert LevelLinked(cfg, side, im.mem, i, c) && LevelLinked(cfg, side', im.mem, i', c');
    assert Belongs(cfg, side, im.mem, i, p);
  }
}
