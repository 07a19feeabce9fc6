/** What taking an order out, putting one in and filling one in part do to the whole image: the four
    structures still agree, and the priority lists change exactly as the matcher says. */
module Images {
  import opened Types
  import opened Matcher
  import opened MatcherLaws
  import opened BookLaws
  import opened Chains
  import opened Counting
  import opened Grid
  import opened SlotMatcher
  import opened Sides

  // Every slot but `p` holds the same order at the same level (links may have changed).
  ghost predicate SameOrders(mem: seq<Slot>, mem': seq<Slot>, p: int) {
    && |mem'| == |mem|
    && (forall x {:trigger IsLive(mem', x)} {:trigger IsLive(mem, x)} :: x != p ==>
          && (IsLive(mem', x) <==> IsLive(mem, x))
          && (IsLive(mem, x) ==> mem'[x].node.order == mem[x].node.order && mem'[x].node.level == mem[x].node.level))
  }

  ghost predicate SameElsewhere(mem: seq<Slot>, mem': seq<Slot>, c: seq<int>, p: int) {
    && |mem'| == |mem|
    && (forall x {:trigger mem'[x]} :: 0 <= x < |mem| && x !in c && x != p ==> mem'[x] == mem[x])
  }

  // The chain `c` at level `i` became `c'`; every other chain is intact.
  lemma OthersIntact(cfg: Config, im: Image, side: Side, i: int, c': seq<int>, mem': seq<Slot>, p: int)
    requires Consistent(cfg, im) && 0 <= i < |ChainsOf(im, side)|
    requires SameElsewhere(im.mem, mem', ChainsOf(im, side)[i], p)
    requires p in ChainsOf(im, side)[i] || !IsLive(im.mem, p)
    requires LevelLinked(cfg, side, mem', i, c')
    ensures var im' := WithChain(im, side, i, c').(mem := mem');
      && SideLinked(cfg, side, mem', ChainsOf(im', side))
      && SideLinked(cfg, Opposite(side), mem', ChainsOf(im', Opposite(side)))
      && OnlyLevel(im.mem, ChainsOf(im, side), mem', ChainsOf(im', side), i)
      && OrdersOn(im', Opposite(side)) == OrdersOn(im, Opposite(side))
  {
    hide LevelLinked, OrdersOf;
    var im' := WithChain(im, side, i, c').(mem := mem');
    var op := Opposite(side);
    forall j | 0 <= j < |ChainsOf(im, side)| && j != i
      ensures LevelLinked(cfg, side, mem', j, ChainsOf(im, side)[j])
      ensures OrdersOf(mem', ChainsOf(im, side)[j]) == OrdersOf(im.mem, ChainsOf(im, side)[j])
    {
      LevelIntact(cfg, im, side, i, mem', p, side, j);
    }
    forall j | 0 <= j < |ChainsOf(im, op)|
      ensures LevelLinked(cfg, op, mem', j, ChainsOf(im, op)[j])
      ensures OrdersOf(mem', ChainsOf(im, op)[j]) == OrdersOf(im.mem, ChainsOf(im, op)[j])
    {
      LevelIntact(cfg, im, side, i, mem', p, op, j);
    }
    assert Levels(op, mem', ChainsOf(im, op)) == Levels(op, im.mem, ChainsOf(im, op));
  }

  lemma LevelIntact(cfg: Config, im: Image, side: Side, i: int, mem': seq<Slot>, p: int, side': Side, j: int)
    requires Consistent(cfg, im) && 0 <= i < |ChainsOf(im, side)| && 0 <= j < |ChainsOf(im, side')|
    requires SameElsewhere(im.mem, mem', ChainsOf(im, side)[i], p)
    requires p in ChainsOf(im, side)[i] || !IsLive(im.mem, p)
    requires side != side' || i != j
    ensures LevelLinked(cfg, side', mem', j, ChainsOf(im, side')[j])
    ensures OrdersOf(mem', ChainsOf(im, side')[j]) == OrdersOf(im.mem, ChainsOf(im, side')[j])
  {
    hide Linked, OrdersOf, AllQueued, Indexed;
    var c, d := ChainsOf(im, side)[i], ChainsOf(im, side')[j];
    assert LevelLinked(cfg, side', im.mem, j, d);
    forall x | x in d ensures 0 <= x < |im.mem| && mem'[x] == im.mem[x] {
      assert Belongs(cfg, side', im.mem, j, x);
      OtherLevel(cfg, im, side', j, x, side, i);
    }
    LinkedFrame(im.mem, mem', d);
  }

  // ---------------------------------------------------------------------------------------------
  // Taking an order out
  // ---------------------------------------------------------------------------------------------

  // Unlinked from its level, its slot on the free list, its id gone from the map.
  ghost function Removed(im: Image, side: Side, i: int, k: int, link: int): Image
    requires 0 <= i < |ChainsOf(im, side)| && 0 <= k < |ChainsOf(im, side)[i]|
    requires IsLive(im.mem, ChainsOf(im, side)[i][k])
  {
    var c := ChainsOf(im, side)[i];
    var p := c[k];
    UnlinkLength(im.mem, p);
    WithChain(im, side, i, Drop(c, k)).(mem := Unlinked(im.mem, p)[p := Free(link)], index := im.index - {OrderAt(im.mem, p).id})
  }

  lemma UnlinkKeepsOrders(mem: seq<Slot>, p: int)
    requires IsLive(mem, p)
    ensures SameOrders(mem, Unlinked(mem, p), p) && IsLive(Unlinked(mem, p), p)
  {
  }

  lemma FreedMemory(mem: seq<Slot>, c: seq<int>, k: int, link: int)
    requires Linked(mem, c) && 0 <= k < |c|
    ensures IsLive(mem, c[k])
    ensures |Unlinked(mem, c[k])| == |mem|
    ensures var mem' := Unlinked(mem, c[k])[c[k] := Free(link)];
      && SameOrders(mem, mem', c[k]) && !IsLive(mem', c[k])
      && SameElsewhere(mem, mem', c, c[k])
      && Linked(mem', Drop(c, k))
      && OrdersOf(mem', Drop(c, k)) == OrdersOf(mem, c)[..k] + OrdersOf(mem, c)[k + 1..]
  {
    hide Unlinked, OrdersOf;
    assert LinkedAt(mem, c, k);
    UnlinkLinks(mem, c, k);
    UnlinkLength(mem, c[k]);
    UnlinkKeepsOrders(mem, c[k]);
    var mem1 := Unlinked(mem, c[k]);
    var mem' := mem1[c[k] := Free(link)];
    DropGone(c, k);
    LinkedFrame(mem1, mem', Drop(c, k));
    forall x | 0 <= x < |mem| && x !in c ensures mem'[x] == mem[x] {
      UnlinkFrame(mem, c, k, x);
    }
  }

  lemma DropGone(c: seq<int>, k: int)
    requires NoDup(c) && 0 <= k < |c|
    ensures forall x :: x in Drop(c, k) <==> x in c && x != c[k]
  {
    forall x ensures x in Drop(c, k) <==> x in c && x != c[k] {
      if x in c && x != c[k] {
        var j :| 0 <= j < |c| && c[j] == x;
        assert Drop(c, k)[if j < k then j else j - 1] == x;
      }
    }
  }

  lemma RemoveAgrees(im: Image, side: Side, i: int, c': seq<int>, mem': seq<Slot>, p: int, ix: map<int, int>)
    requires AllQueued(im) && Indexed(im.mem, im.index) && IsLive(im.mem, p) && !IsLive(mem', p)
    requires 0 <= i < |ChainsOf(im, side)| && SameOrders(im.mem, mem', p)
    requires forall x :: x in c' <==> x in ChainsOf(im, side)[i] && x != p
    ensures AllQueued(WithChain(im, side, i, c').(mem := mem', index := ix))
    ensures Indexed(mem', im.index - {OrderAt(im.mem, p).id})
  {
    var im' := WithChain(im, side, i, c').(mem := mem', index := ix);
    forall x | IsLive(mem', x) ensures Queued(im', x) {
      assert IsLive(im.mem, x) && Queued(im, x);
    }
  }

  lemma RemovedLevels(cfg: Config, im: Image, side: Side, i: int, k: int, link: int)
    requires Consistent(cfg, im) && 0 <= i < |ChainsOf(im, side)| && 0 <= k < |ChainsOf(im, side)[i]|
    ensures IsLive(im.mem, ChainsOf(im, side)[i][k])
    ensures var im' := Removed(im, side, i, k, link);
      var vw, r := Levels(side, im.mem, ChainsOf(im, side)), Rank(side, |ChainsOf(im, side)|, i);
      && Consistent(cfg, im')
      && vw[r][k] == OrderAt(im.mem, ChainsOf(im, side)[i][k])
      && Levels(side, im'.mem, ChainsOf(im', side)) == vw[r := vw[r][..k] + vw[r][k + 1..]]
      && OrdersOn(im', Opposite(side)) == OrdersOn(im, Opposite(side))
  {
    hide Linked, Unlinked, AllQueued, Indexed, SameOrders, SameElsewhere, Flat, Queued, Belongs;
    var c := ChainsOf(im, side)[i];
    var p := c[k];
    assert LevelLinked(cfg, side, im.mem, i, c);
    FreedMemory(im.mem, c, k, link);
    var c', mem' := Drop(c, k), Unlinked(im.mem, p)[p := Free(link)];
    LinkedNoDup(im.mem, c);
    DropGone(c, k);
    var im' := Removed(im, side, i, k, link);
    RemoveAgrees(im, side, i, c', mem', p, im'.index);
    LevelAfterRemove(cfg, side, im.mem, mem', i, c, c', p);
    OthersIntact(cfg, im, side, i, c', mem', p);
    LevelsUpdate(side, im.mem, ChainsOf(im, side), mem', ChainsOf(im', side), i);
  }

  lemma RemoveConsistent(cfg: Config, im: Image, side: Side, i: int, k: int, link: int)
    requires Consistent(cfg, im) && 0 <= i < |ChainsOf(im, side)| && 0 <= k < |ChainsOf(im, side)[i]|
    requires DistinctIds(OrdersOn(im, side))
    ensures IsLive(im.mem, ChainsOf(im, side)[i][k])
    ensures var x := OrderAt(im.mem, ChainsOf(im, side)[i][k]);
      var im' := Removed(im, side, i, k, link);
      && Consistent(cfg, im')
      && OrdersOn(im', side) == Remove(OrdersOn(im, side), x.id)
      && OrdersOn(im', Opposite(side)) == OrdersOn(im, Opposite(side))
      && Find(OrdersOn(im, side), x.id) != -1 && OrdersOn(im, side)[Find(OrdersOn(im, side), x.id)] == x
  {
    hide Consistent, Removed, Flat, Find, Remove, IsLive;
    RemovedLevels(cfg, im, side, i, k, link);
    FlatRemove(Levels(side, im.mem, ChainsOf(im, side)), Rank(side, |ChainsOf(im, side)|, i), k);
  }

  lemma LinkedNoDup(mem: seq<Slot>, c: seq<int>)
    requires Linked(mem, c)
    ensures NoDup(c)
  {
  }

  lemma LevelAfterRemove(cfg: Config, side: Side, mem: seq<Slot>, mem': seq<Slot>, i: int, c: seq<int>, c': seq<int>, p: int)
    requires LevelLinked(cfg, side, mem, i, c) && Linked(mem', c') && SameOrders(mem, mem', p)
    requires forall x :: x in c' <==> x in c && x != p
    ensures LevelLinked(cfg, side, mem', i, c')
  {
    hide Linked;
    forall x | x in c' ensures Belongs(cfg, side, mem', i, x) {
      assert Belongs(cfg, side, mem, i, x);
    }
  }

  // ---------------------------------------------------------------------------------------------
  // Putting an order in
  // ---------------------------------------------------------------------------------------------

  // A fresh slot filled with the order, queued at the tail of its level, its id mapped.
  ghost function Added(im: Image, o: Order, i: int, p: int): Image
    requires 0 <= i < |ChainsOf(im, o.side)| && 0 <= p < |im.mem|
  {
    var c := ChainsOf(im, o.side)[i];
    var mem1 := im.mem[p := Live(Node(o, NULL, NULL, NULL))];
    WithChain(im, o.side, i, c + [p]).(mem := Enqueued(mem1, At(c, |c| - 1), p, i), index := im.index[o.id := p])
  }

  lemma EnqueueKeepsOrders(mem: seq<Slot>, tail: int, p: int, level: int)
    requires IsLive(mem, p)
    ensures SameOrders(mem, Enqueued(mem, tail, p, level), p)
    ensures var mem' := Enqueued(mem, tail, p, level);
            IsLive(mem', p) && mem'[p].node.order == mem[p].node.order && mem'[p].node.level == level
  {
  }

  lemma AddedMemory(mem: seq<Slot>, c: seq<int>, o: Order, p: int, level: int)
    requires Linked(mem, c) && 0 <= p < |mem| && !IsLive(mem, p)
    ensures var mem' := Enqueued(mem[p := Live(Node(o, NULL, NULL, NULL))], At(c, |c| - 1), p, level);
      && SameOrders(mem, mem', p) && IsLive(mem', p) && mem'[p].node.order == o && mem'[p].node.level == level
      && SameElsewhere(mem, mem', c, p)
      && Linked(mem', c + [p]) && OrdersOf(mem', c + [p]) == OrdersOf(mem, c) + [o]
  {
    hide Enqueued, OrdersOf;
    var mem1 := mem[p := Live(Node(o, NULL, NULL, NULL))];
    forall k | 0 <= k < |c| ensures IsLive(mem, c[k]) {
      assert LinkedAt(mem, c, k);
    }
    LinkedFrame(mem, mem1, c);
    EnqueueLinks(mem1, c, p, level);
    EnqueueKeepsOrders(mem1, At(c, |c| - 1), p, level);
    var mem' := Enqueued(mem1, At(c, |c| - 1), p, level);
    forall x | 0 <= x < |mem| && x !in c && x != p ensures mem'[x] == mem[x] {
      EnqueueFrame(mem1, c, p, level, x);
    }
  }

  lemma AddAgrees(im: Image, o: Order, i: int, mem': seq<Slot>, p: int, ix: map<int, int>)
    requires AllQueued(im) && Indexed(im.mem, im.index) && !IsLive(im.mem, p) && o.id !in im.index
    requires 0 <= i < |ChainsOf(im, o.side)| && SameOrders(im.mem, mem', p)
    requires IsLive(mem', p) && mem'[p].node.order == o && mem'[p].node.level == i
    ensures AllQueued(WithChain(im, o.side, i, ChainsOf(im, o.side)[i] + [p]).(mem := mem', index := ix))
    ensures Indexed(mem', im.index[o.id := p])
  {
    var im' := WithChain(im, o.side, i, ChainsOf(im, o.side)[i] + [p]).(mem := mem', index := ix);
    forall x | IsLive(mem', x) ensures Queued(im', x) {
      if x != p {
        assert IsLive(im.mem, x) && Queued(im, x);
      }
    }
  }

  lemma LevelAfterAdd(cfg: Config, mem: seq<Slot>, mem': seq<Slot>, i: int, c: seq<int>, o: Order, p: int)
    requires LevelLinked(cfg, o.side, mem, i, c) && Linked(mem', c + [p]) && SameOrders(mem, mem', p)
    requires IsLive(mem', p) && mem'[p].node.order == o && mem'[p].node.level == i
    requires cfg.tick > 0 && InRange(cfg, o.price) && IndexOf(cfg, o.price) == i && !IsLive(mem, p)
    ensures LevelLinked(cfg, o.side, mem', i, c + [p])
  {
    hide Linked;
    forall x | x in c + [p] ensures Belongs(cfg, o.side, mem', i, x) {
      if x in c {
        assert Belongs(cfg, o.side, mem, i, x);
      }
    }
  }

  // The levels up to this one come no later than the newcomer's slot; those beyond come later.
  lemma RankedSlots(cfg: Config, im: Image, o: Order, i: int, r: int, k: int)
    requires Consistent(cfg, im) && IndexOf(cfg, o.price) == i
    requires var vw := Levels(o.side, im.mem, ChainsOf(im, o.side)); 0 <= r < |vw| && 0 <= k < |vw[r]|
    ensures var x := Levels(o.side, im.mem, ChainsOf(im, o.side))[r][k];
            SlotBefore(cfg, o, x) <==> Rank(o.side, Slots(cfg), i) < r
  {
    hide Linked, AllQueued, Indexed, IndexOf, PriceAt;
    var side := o.side;
    var n, chains := Slots(cfg), ChainsOf(im, side);
    var j := Rank(side, n, r);
    assert LevelLinked(cfg, side, im.mem, j, chains[j]);
    var p := chains[j][k];
    assert Belongs(cfg, side, im.mem, j, p);
    RankOrder(side, n, Rank(side, n, i), r);
  }

  lemma AddConsistent(cfg: Config, im: Image, o: Order, i: int, p: int)
    requires Consistent(cfg, im) && 0 <= i < Slots(cfg) && InRange(cfg, o.price) && IndexOf(cfg, o.price) == i
    requires 0 <= p < |im.mem| && !IsLive(im.mem, p) && o.id !in im.index
    ensures var im' := Added(im, o, i, p);
      && Consistent(cfg, im')
      && OrdersOn(im', o.side) == SlotInsert(cfg, OrdersOn(im, o.side), o)
      && OrdersOn(im', Opposite(o.side)) == OrdersOn(im, Opposite(o.side))
  {
    hide Linked, Enqueued, OrdersOf, AllQueued, Indexed, SameOrders, SameElsewhere, Flat, SlotInsert, Queued, IndexOf, SlotBefore;
    var side := o.side;
    var c := ChainsOf(im, side)[i];
    assert LevelLinked(cfg, side, im.mem, i, c);
    AddedMemory(im.mem, c, o, p, i);
    var im' := Added(im, o, i, p);
    AddAgrees(im, o, i, im'.mem, p, im'.index);
    LevelAfterAdd(cfg, im.mem, im'.mem, i, c, o, p);
    OthersIntact(cfg, im, side, i, c + [p], im'.mem, p);
    LevelsUpdate(side, im.mem, ChainsOf(im, side), im'.mem, ChainsOf(im', side), i);
    var vw: seq<seq<Order>> := Levels(side, im.mem, ChainsOf(im, side));
    var r := Rank(side, Slots(cfg), i);
    forall j, k | 0 <= j < |vw| && 0 <= k < |vw[j]| ensures SlotBefore(cfg, o, vw[j][k]) <==> r < j {
      RankedSlots(cfg, im, o, i, j, k);
    }
    FlatInsert(cfg, vw, r, o);
  }

  // ---------------------------------------------------------------------------------------------
  // The head of the best level
  // ---------------------------------------------------------------------------------------------

  // Level `i` is the first of its side that is not empty.
  ghost predicate IsBest(im: Image, side: Side, i: int) {
    var n := |ChainsOf(im, side)|;
    && 0 <= i < n && ChainsOf(im, side)[i] != []
    && forall j :: 0 <= j < n && Rank(side, n, j) < Rank(side, n, i) ==> ChainsOf(im, side)[j] == []
  }

  lemma BestIsFirst(im: Image, side: Side, i: int)
    requires IsBest(im, side, i)
    ensures var vw, r := Levels(side, im.mem, ChainsOf(im, side)), Rank(side, |ChainsOf(im, side)|, i);
            0 <= r < |vw| && vw[r] != [] && forall j :: 0 <= j < r ==> vw[j] == []
  {
    var n := |ChainsOf(im, side)|;
    forall j | 0 <= j < Rank(side, n, i) ensures ChainsOf(im, side)[Rank(side, n, j)] == [] {
      assert Rank(side, n, Rank(side, n, j)) == j;
    }
  }

  // The head of the best level is the first order of the side.
  lemma HeadIsFirst(cfg: Config, im: Image, side: Side, i: int)
    requires Consistent(cfg, im) && IsBest(im, side, i)
    ensures var p := ChainsOf(im, side)[i][0];
      && IsLive(im.mem, p)
      && OrdersOn(im, side) != [] && OrdersOn(im, side)[0] == OrderAt(im.mem, p)
  {
    hide Flat, Linked, AllQueued, Indexed;
    BestIsFirst(im, side, i);
    FlatHead(Levels(side, im.mem, ChainsOf(im, side)), Rank(side, |ChainsOf(im, side)|, i));
    assert LevelLinked(cfg, side, im.mem, i, ChainsOf(im, side)[i]);
    assert Belongs(cfg, side, im.mem, i, ChainsOf(im, side)[i][0]);
  }

  // An empty side, and only an empty side, has no level with orders in it.
  lemma NoBestIffEmpty(im: Image, side: Side)
    requires forall i :: 0 <= i < |ChainsOf(im, side)| ==> ChainsOf(im, side)[i] == []
    ensures OrdersOn(im, side) == []
  {
    FlatEmpty(Levels(side, im.mem, ChainsOf(im, side)));
  }

  lemma RemoveHead(cfg: Config, im: Image, side: Side, i: int, link: int)
    requires Consistent(cfg, im) && IsBest(im, side, i)
    ensures IsLive(im.mem, ChainsOf(im, side)[i][0]) && OrdersOn(im, side) != []
    ensures var im' := Removed(im, side, i, 0, link);
      && Consistent(cfg, im')
      && OrdersOn(im', side) == OrdersOn(im, side)[1..]
      && OrdersOn(im', Opposite(side)) == OrdersOn(im, Opposite(side))
  {
    hide Consistent, Removed, Flat, IsLive;
    RemovedLevels(cfg, im, side, i, 0, link);
    BestIsFirst(im, side, i);
    var vw, r := Levels(side, im.mem, ChainsOf(im, side)), Rank(side, |ChainsOf(im, side)|, i);
    FlatHead(vw, r);
    assert vw[r][..0] + vw[r][1..] == vw[r][1..];
  }

  // The order at the head of the chain with part of its quantity gone.
  ghost function Filled(im: Image, p: int, quantity: int): Image
    requires IsLive(im.mem, p)
  {
    im.(mem := Reduced(im.mem, p, quantity))
  }

  lemma ReduceKeepsLevel(cfg: Config, side: Side, mem: seq<Slot>, i: int, c: seq<int>, k: int, quantity: int)
    requires LevelLinked(cfg, side, mem, i, c) && 0 <= k < |c|
    ensures IsLive(mem, c[k]) && LevelLinked(cfg, side, Reduced(mem, c[k], quantity), i, c)
    ensures SameElsewhere(mem, Reduced(mem, c[k], quantity), c, c[k])
  {
    hide Linked;
    ReduceLinks(mem, c, k, quantity);
    forall x | x in c ensures Belongs(cfg, side, Reduced(mem, c[k], quantity), i, x) {
      assert Belongs(cfg, side, mem, i, x);
    }
  }

  lemma ReduceAgrees(im: Image, p: int, quantity: int)
    requires AllQueued(im) && Indexed(im.mem, im.index) && IsLive(im.mem, p)
    ensures AllQueued(Filled(im, p, quantity)) && Indexed(Reduced(im.mem, p, quantity), im.index)
  {
    var im' := Filled(im, p, quantity);
    forall x | IsLive(im'.mem, x) ensures Queued(im', x) {
      assert IsLive(im.mem, x) && Queued(im, x);
    }
    SameIds(im.mem, p, quantity);
  }

  lemma SameIds(mem: seq<Slot>, p: int, quantity: int)
    requires IsLive(mem, p)
    ensures var mem' := Reduced(mem, p, quantity);
            forall x {:trigger IsLive(mem', x)} {:trigger IsLive(mem, x)} ::
              (IsLive(mem', x) <==> IsLive(mem, x)) && OrderAt(mem', x).id == OrderAt(mem, x).id
  {
    var mem' := Reduced(mem, p, quantity);
    forall x ensures (IsLive(mem', x) <==> IsLive(mem, x)) && OrderAt(mem', x).id == OrderAt(mem, x).id {
      if x == p {
        assert mem'[x].node.order.id == mem[x].node.order.id;
      }
    }
  }

  lemma FilledLevels(cfg: Config, im: Image, side: Side, i: int, k: int, quantity: int)
    requires Consistent(cfg, im) && 0 <= i < |ChainsOf(im, side)| && 0 <= k < |ChainsOf(im, side)[i]|
    ensures IsLive(im.mem, ChainsOf(im, side)[i][k])
    ensures var p := ChainsOf(im, side)[i][k];
      var im', o := Filled(im, p, quantity), OrderAt(im.mem, p);
      var vw, r := Levels(side, im.mem, ChainsOf(im, side)), Rank(side, |ChainsOf(im, side)|, i);
      && Consistent(cfg, im')
      && Levels(side, im'.mem, ChainsOf(im', side)) == vw[r := vw[r][k := o.(remaining := o.remaining - quantity)]]
      && OrdersOn(im', Opposite(side)) == OrdersOn(im, Opposite(side))
  {
    hide Linked, AllQueued, Indexed, SameElsewhere, Flat, Queued, Belongs;
    var c := ChainsOf(im, side)[i];
    assert LevelLinked(cfg, side, im.mem, i, c);
    ReduceKeepsLevel(cfg, side, im.mem, i, c, k, quantity);
    ReduceLinks(im.mem, c, k, quantity);
    ReduceAgrees(im, c[k], quantity);
    var im' := Filled(im, c[k], quantity);
    OthersIntact(cfg, im, side, i, c, im'.mem, c[k]);
    assert ChainsOf(im, side)[i := c] == ChainsOf(im, side);
    LevelsUpdate(side, im.mem, ChainsOf(im, side), im'.mem, ChainsOf(im', side), i);
  }

  lemma FillHead(cfg: Config, im: Image, side: Side, i: int, quantity: int)
    requires Consistent(cfg, im) && IsBest(im, side, i)
    ensures IsLive(im.mem, ChainsOf(im, side)[i][0])
    ensures var p := ChainsOf(im, side)[i][0];
      var im', o := Filled(im, p, quantity), OrderAt(im.mem, p);
      && Consistent(cfg, im')
      && OrdersOn(im, side) != []
      && OrdersOn(im', side) == [o.(remaining := o.remaining - quantity)] + OrdersOn(im, side)[1..]
      && OrdersOn(im', Opposite(side)) == OrdersOn(im, Opposite(side))
  {
    hide Consistent, Flat, IsLive, Reduced;
    FilledLevels(cfg, im, side, i, 0, quantity);
    BestIsFirst(im, side, i);
    FlatHead(Levels(side, im.mem, ChainsOf(im, side)), Rank(side, |ChainsOf(im, side)|, i));
  }
}
