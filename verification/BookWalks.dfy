/** Walking a side level by level, and finding its orders by id. */
module BookWalks {
  import opened Types
  import opened Matcher
  import opened Chains
  import opened Grid
  import opened BookLaws
  import opened SlotMatcher
  import opened Sides
  import opened Images
  import opened LevelMaps
  import opened LevelRecords

  // ---------------------------------------------------------------------------------------------
  // Walking a side level by level
  // ---------------------------------------------------------------------------------------------

  // The orders from level `i` on; the whole side if `i` lies before its first level, nothing if it is -1.
  ghost function FlatFrom(side: Side, mem: seq<Slot>, chains: seq<seq<int>>, i: int): seq<Order>
    requires -1 <= i < |chains|
  {
    if i == -1 then [] else Flat(Levels(side, mem, chains)[Rank(side, |chains|, i)..])
  }

  lemma {:induction false} FlatSkip(vw: seq<seq<Order>>, a: int, b: int)
    requires 0 <= a <= b <= |vw| && forall r :: a <= r < b ==> vw[r] == []
    ensures Flat(vw[a..]) == Flat(vw[b..])
    decreases b - a
  {
    if a < b {
      FlatSkip(vw, a + 1, b);
      assert vw[a..][1..] == vw[a + 1..];
    }
  }

  // The tracked price while the level of `p` is walked: `p` until the last of its orders, then the next level's.
  function WalkPrice(cfg: Config, side: Side, here: seq<Order>, k: int, behind: seq<Order>, p: int): int
    requires cfg.tick > 0
  {
    if k < |here| then p else Advance(cfg, side, behind)
  }

  // All of `here` waits in the slot of `p`, and nothing behind does.
  ghost predicate OneLevel(cfg: Config, here: seq<Order>, behind: seq<Order>, p: int) {
    && cfg.tick > 0 && (forall k :: 0 <= k < |here| ==> IndexOf(cfg, here[k].price) == IndexOf(cfg, p))
    && (behind != [] ==> IndexOf(cfg, behind[0].price) != IndexOf(cfg, p))
  }

  lemma WalkStep(cfg: Config, side: Side, here: seq<Order>, k: int, behind: seq<Order>, p: int)
    requires OneLevel(cfg, here, behind, p) && 0 <= k < |here|
    ensures Here(cfg, here[k..] + behind, p) && (here[k..] + behind)[1..] == here[k + 1..] + behind
    ensures BestAfter(cfg, side, here[k + 1..] + behind, p) == WalkPrice(cfg, side, here, k + 1, behind, p)
  {
    hide IndexOf;
    if k + 1 == |here| {
      assert here[k + 1..] + behind == behind;
    }
  }

  // One step of the scan, from the order at position `k` of a level.
  lemma ScanTurn(cfg: Config, o: NewOrder, here: seq<Order>, k: int, behind: seq<Order>, p: int, sum: int)
    requires OneLevel(cfg, here, behind, p) && 0 <= k < |here| && Crosses(o, p) && p != EmptySentinel(Opposite(o.side))
    ensures var top, p' := here[k], WalkPrice(cfg, Opposite(o.side), here, k + 1, behind, p);
      var sum' := sum + top.remaining;
      SlotAvailable(cfg, o, here[k..] + behind, p, sum) ==
        if top.participant == o.participant then
          if cfg.stp.CancelPassive? then SlotAvailable(cfg, o, here[k + 1..] + behind, p', sum) else sum
        else if sum' >= o.quantity then sum' else SlotAvailable(cfg, o, here[k + 1..] + behind, p', sum')
  {
    hide BestAfter, Here, WalkPrice, OneLevel;
    WalkStep(cfg, Opposite(o.side), here, k, behind, p);
  }

  // A level with no orders is passed over.
  lemma ScanPast(cfg: Config, o: NewOrder, behind: seq<Order>, p: int, sum: int)
    requires OneLevel(cfg, [], behind, p) && Crosses(o, p) && p != EmptySentinel(Opposite(o.side))
    ensures SlotAvailable(cfg, o, behind, p, sum) == SlotAvailable(cfg, o, behind, Advance(cfg, Opposite(o.side), behind), sum)
  {
  }

  lemma LevelFirst(side: Side, mem: seq<Slot>, chains: seq<seq<int>>, i: int)
    requires 0 <= i < |chains|
    ensures FlatFrom(side, mem, chains, i)
         == OrdersOf(mem, chains[i]) + Flat(Levels(side, mem, chains)[Rank(side, |chains|, i) + 1..])
  {
    hide OrdersOf;
    var vw, r := Levels(side, mem, chains), Rank(side, |chains|, i);
    assert vw[r] == OrdersOf(mem, chains[i]);
    assert vw[r..][0] == vw[r] && vw[r..][1..] == vw[r + 1..];
  }

  // Empty levels between level `i` (or the outside) and level `n` (or the end) hold nothing.
  lemma SkipTo(side: Side, mem: seq<Slot>, chains: seq<seq<int>>, i: int, n: int)
    requires -1 <= n < |chains| && (if side.Buy? then 0 <= i <= |chains| else -1 <= i < |chains|)
    requires n == -1 || Before(side, i, n)
    requires forall j :: 0 <= j < |chains| && Before(side, i, j) && (n == -1 || Before(side, j, n)) ==> chains[j] == []
    ensures Flat(Levels(side, mem, chains)[Rank(side, |chains|, i) + 1..]) == FlatFrom(side, mem, chains, n)
  {
    hide OrdersOf, Levels, Flat;
    var vw, size := Levels(side, mem, chains), |chains|;
    var a := Rank(side, size, i) + 1;
    var b := if n == -1 then size else Rank(side, size, n);
    forall r | a <= r < b ensures vw[r] == [] {
      var j := Rank(side, size, r);
      assert vw[r] == OrdersOf(mem, chains[j]);
      assert chains[j] == [];
    }
    FlatSkip(vw, a, b);
    if n == -1 {
      FlatEmpty(vw[b..]);
    }
  }

  // ---------------------------------------------------------------------------------------------
  // Ids
  // ---------------------------------------------------------------------------------------------

  lemma {:induction false} FlatHas(vw: seq<seq<Order>>, r: int, k: int)
    requires 0 <= r < |vw| && 0 <= k < |vw[r]|
    ensures vw[r][k] in Flat(vw)
  {
    hide Flat;
    FlatSplit(vw, r);
    var pre := Flat(vw[..r]);
    assert (pre + vw[r] + Flat(vw[r + 1..]))[|pre| + k] == vw[r][k];
  }

  // The order in a queued slot is on its side's list.
  lemma ListedAt(cfg: Config, im: Image, p: int)
    requires Consistent(cfg, im) && IsLive(im.mem, p)
    ensures OrderAt(im.mem, p) in OrdersOn(im, OrderAt(im.mem, p).side)
  {
    hide Flat, SideLinked, Indexed;
    assert Queued(im, p);
    var side, i := im.mem[p].node.order.side, im.mem[p].node.level;
    var chains := ChainsOf(im, side);
    var k :| 0 <= k < |chains[i]| && chains[i][k] == p;
    var vw, r := Levels(side, im.mem, chains), Rank(side, |chains|, i);
    assert vw[r] == OrdersOf(im.mem, chains[i]);
    FlatHas(vw, r, k);
  }

  // Every order on a side's list has its id in the index.
  lemma ListedIndexed(cfg: Config, im: Image, side: Side)
    requires Consistent(cfg, im)
    ensures forall x :: 0 <= x < |OrdersOn(im, side)| ==> OrdersOn(im, side)[x].id in im.index
  {
    hide Flat, AllQueued;
    var chains := ChainsOf(im, side);
    var vw: seq<seq<Order>> := Levels(side, im.mem, chains);
    forall r, k | 0 <= r < |vw| && 0 <= k < |vw[r]| ensures vw[r][k].id in im.index {
      var i := Rank(side, |chains|, r);
      LevelOf(cfg, im, side, i, k);
    }
    FlatAll(vw, (x: Order) => x.id in im.index);
  }

  lemma IndexedIffListed(cfg: Config, im: Image, id: int)
    requires Consistent(cfg, im)
    ensures id in im.index <==> Find(OrdersOn(im, Buy), id) != -1 || Find(OrdersOn(im, Sell), id) != -1
  {
    hide OrdersOn, SideLinked, AllQueued, Find;
    ListedIndexed(cfg, im, Buy);
    ListedIndexed(cfg, im, Sell);
    if id in im.index {
      var x := OrderAt(im.mem, im.index[id]);
      ListedAt(cfg, im, im.index[id]);
      assert x.id == id && x in OrdersOn(im, x.side);
      assert x.side == Buy || x.side == Sell;
    }
  }

  // The first order of a side waits in its first level with orders.
  lemma FirstOf(cfg: Config, im: Image, side: Side)
    requires Consistent(cfg, im)
    ensures var s, chains := OrdersOn(im, side), ChainsOf(im, side);
      if s == [] then forall j :: 0 <= j < |chains| ==> chains[j] == []
      else IsBest(im, side, IndexOf(cfg, s[0].price)) && InRange(cfg, s[0].price)
  {
    hide Flat, Linked, AllQueued, Indexed, OrdersOn, IndexOf, Levels;
    var chains := ChainsOf(im, side);
    var occ := seq(|chains|, j requires 0 <= j < |chains| => chains[j] != []);
    var f := FirstSlot(side, occ);
    if f == -1 {
      forall j | 0 <= j < |chains| ensures chains[j] == [] {
        NothingBefore(side, occ, j);
      }
      NoBestIffEmpty(im, side);
    } else {
      forall j | 0 <= j < |chains| && Rank(side, |chains|, j) < Rank(side, |chains|, f) ensures chains[j] == [] {
        NothingBefore(side, occ, j);
      }
      HeadIsFirst(cfg, im, side, f);
      LevelOf(cfg, im, side, f, 0);
    }
  }

  // A level has orders exactly when some order of the side waits in its slot.
  lemma OccupiedOn(cfg: Config, im: Image, side: Side, i: int)
    requires Consistent(cfg, im) && 0 <= i < |ChainsOf(im, side)|
    ensures Occupied(cfg, OrdersOn(im, side), i) <==> ChainsOf(im, side)[i] != []
  {
    hide Flat, Linked, AllQueued, Indexed, IndexOf;
    var chains := ChainsOf(im, side);
    var vw: seq<seq<Order>> := Levels(side, im.mem, chains);
    if chains[i] != [] {
      LevelOf(cfg, im, side, i, 0);
      var r := Rank(side, |chains|, i);
      assert vw[r] == OrdersOf(im.mem, chains[i]);
      FlatHas(vw, r, 0);
      var k :| 0 <= k < |Flat(vw)| && Flat(vw)[k] == vw[r][0];
    } else {
      forall r, k | 0 <= r < |vw| && 0 <= k < |vw[r]| ensures IndexOf(cfg, vw[r][k].price) != i {
        LevelOf(cfg, im, side, Rank(side, |chains|, r), k);
      }
      FlatAll(vw, (x: Order) => cfg.tick > 0 && IndexOf(cfg, x.price) != i);
    }
  }

  // ---------------------------------------------------------------------------------------------
  // No id twice
  // ---------------------------------------------------------------------------------------------

  lemma {:induction false} FlatDistinct(vw: seq<seq<Order>>, rank: int -> int, base: int)
    requires forall r :: 0 <= r < |vw| ==> DistinctIds(vw[r])
    requires forall r, k :: 0 <= r < |vw| && 0 <= k < |vw[r]| ==> rank(vw[r][k].id) == base + r
    ensures DistinctIds(Flat(vw))
    ensures forall i :: 0 <= i < |Flat(vw)| ==> rank(Flat(vw)[i].id) >= base
  {
    if vw != [] {
      FlatDistinct(vw[1..], rank, base + 1);
    }
  }

  // Every listed id is indexed, and its slot says which side and level it waits at.
  lemma DistinctOn(cfg: Config, im: Image, side: Side)
    requires Consistent(cfg, im)
    ensures DistinctIds(OrdersOn(im, side))
  {
    hide Flat, Linked, AllQueued;
    var chains := ChainsOf(im, side);
    var vw: seq<seq<Order>> := Levels(side, im.mem, chains);
    var rank := (id: int) => if id in im.index && IsLive(im.mem, im.index[id]) then Rank(side, |chains|, im.mem[im.index[id]].node.level) else -1;
    forall r | 0 <= r < |vw| ensures DistinctIds(vw[r]) {
      LevelDistinct(cfg, im, side, Rank(side, |chains|, r));
    }
    forall r, k | 0 <= r < |vw| && 0 <= k < |vw[r]| ensures rank(vw[r][k].id) == r {
      LevelOf(cfg, im, side, Rank(side, |chains|, r), k);
    }
    FlatDistinct(vw, rank, 0);
  }

  lemma LevelDistinct(cfg: Config, im: Image, side: Side, i: int)
    requires Consistent(cfg, im) && 0 <= i < |ChainsOf(im, side)|
    ensures DistinctIds(OrdersOf(im.mem, ChainsOf(im, side)[i]))
  {
    hide Linked, AllQueued;
    var c := ChainsOf(im, side)[i];
    forall j, k | 0 <= j < k < |c| ensures OrderAt(im.mem, c[j]).id != OrderAt(im.mem, c[k]).id {
      LevelOf(cfg, im, side, i, j);
      LevelOf(cfg, im, side, i, k);
      LinkedNoDup(im.mem, c);
    }
  }

  lemma DisjointOn(cfg: Config, im: Image)
    requires Consistent(cfg, im)
    ensures DisjointIds(OrdersOn(im, Buy), OrdersOn(im, Sell))
  {
    hide OrdersOn, SideLinked, AllQueued;
    ListedSide(cfg, im, Buy);
    ListedSide(cfg, im, Sell);
  }

  lemma ListedSide(cfg: Config, im: Image, side: Side)
    requires Consistent(cfg, im)
    ensures forall x :: 0 <= x < |OrdersOn(im, side)| ==>
      var id := OrdersOn(im, side)[x].id; id in im.index && IsLive(im.mem, im.index[id]) && im.mem[im.index[id]].node.order.side == side
    ensures forall x :: 0 <= x < |OrdersOn(im, side)| ==> OrdersOn(im, side)[x].side == side
  {
    hide Flat, AllQueued;
    var chains := ChainsOf(im, side);
    var vw: seq<seq<Order>> := Levels(side, im.mem, chains);
    var holds := (x: Order) => x.side == side && x.id in im.index && IsLive(im.mem, im.index[x.id]) && im.mem[im.index[x.id]].node.order.side == side;
    forall r, k | 0 <= r < |vw| && 0 <= k < |vw[r]| ensures holds(vw[r][k]) {
      LevelOf(cfg, im, side, Rank(side, |chains|, r), k);
    }
    FlatAll(vw, holds);
  }
}
