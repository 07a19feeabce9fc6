/** The level records when memory changes: what a change to one slot leaves alone. */
module LevelRecords {
  import opened Types
  import opened Matcher
  import opened MatcherLaws
  import opened BookLaws
  import opened Conservation
  import opened Chains
  import opened Grid
  import opened Sides
  import opened Images
  import opened ObjectPool
  import opened LevelMaps

  lemma RecordsSameOrders(cfg: Config, mem: seq<Slot>, mem': seq<Slot>, ls: seq<PriceLevel>, chains: seq<seq<int>>)
    requires LevelsOk(cfg, mem, ls, chains)
    requires forall j, k :: 0 <= j < |chains| && 0 <= k < |chains[j]| ==>
      OrderAt(mem', chains[j][k]) == OrderAt(mem, chains[j][k])
    ensures LevelsOk(cfg, mem', ls, chains)
  {
    LevelsFrame(cfg, mem, mem', ls, chains, -1);
  }

  lemma RecordsUnlink(cfg: Config, mem: seq<Slot>, ls: seq<PriceLevel>, chains: seq<seq<int>>, p: int)
    requires LevelsOk(cfg, mem, ls, chains) && IsLive(mem, p)
    ensures LevelsOk(cfg, Unlinked(mem, p), ls, chains)
  {
    hide OrderAt, Unlinked;
    forall j, k | 0 <= j < |chains| && 0 <= k < |chains[j]|
      ensures OrderAt(Unlinked(mem, p), chains[j][k]) == OrderAt(mem, chains[j][k])
    {
      UnlinkOrders(mem, p, chains[j][k]);
    }
    RecordsSameOrders(cfg, mem, Unlinked(mem, p), ls, chains);
  }

  // Overwriting a slot that is in no chain of this side.
  lemma RecordsSlot(cfg: Config, side: Side, mem: seq<Slot>, ls: seq<PriceLevel>, chains: seq<seq<int>>, p: int, s: Slot)
    requires ValidConfig(cfg) && LevelsOk(cfg, mem, ls, chains) && 0 <= p < |mem|
    requires forall j :: 0 <= j < |chains| ==> p !in chains[j]
    ensures LevelsOk(cfg, mem[p := s], ls, chains)
  {
    hide LevelsOk;
    forall j, k | 0 <= j < |chains| && 0 <= k < |chains[j]|
      ensures OrderAt(mem[p := s], chains[j][k]) == OrderAt(mem, chains[j][k])
    {
      assert chains[j][k] in chains[j];
    }
    RecordsSameOrders(cfg, mem, mem[p := s], ls, chains);
  }

  lemma NothingQueued(cfg: Config, im: Image)
    requires ValidConfig(cfg) && im.index == map[] && forall p :: 0 <= p < |im.mem| ==> im.mem[p].Free?
    requires im.bids == seq(Slots(cfg), _ => []) && im.asks == seq(Slots(cfg), _ => [])
    ensures Consistent(cfg, im) && OrdersOn(im, Buy) == [] && OrdersOn(im, Sell) == []
    ensures BookInv(cfg, EmptyBook)
  {
    NoBestIffEmpty(im, Buy);
    NoBestIffEmpty(im, Sell);
  }

  lemma LevelOf(cfg: Config, im: Image, side: Side, i: int, k: int)
    requires Consistent(cfg, im) && 0 <= i < |ChainsOf(im, side)| && 0 <= k < |ChainsOf(im, side)[i]|
    ensures Linked(im.mem, ChainsOf(im, side)[i])
    ensures var p := ChainsOf(im, side)[i][k];
            Belongs(cfg, side, im.mem, i, p) && im.mem[p].node.order.id in im.index
  {
    hide Linked;
    assert LevelLinked(cfg, side, im.mem, i, ChainsOf(im, side)[i]);
    assert ChainsOf(im, side)[i][k] in ChainsOf(im, side)[i];
  }

  // A level's links survive a change to a slot outside every chain.
  lemma LevelStays(cfg: Config, im: Image, side: Side, i: int, p: int, s: Slot)
    requires Consistent(cfg, im) && 0 <= i < |ChainsOf(im, side)| && 0 <= p < |im.mem| && !IsLive(im.mem, p)
    ensures Linked(im.mem[p := s], ChainsOf(im, side)[i])
  {
    hide AllQueued, Indexed;
    var c := ChainsOf(im, side)[i];
    NotQueued(cfg, im, side, p);
    assert LevelLinked(cfg, side, im.mem, i, c);
    LinkedFrame(im.mem, im.mem[p := s], c);
  }

  lemma NotQueued(cfg: Config, im: Image, side: Side, p: int)
    requires Consistent(cfg, im) && !IsLive(im.mem, p)
    ensures forall j :: 0 <= j < |ChainsOf(im, side)| ==> p !in ChainsOf(im, side)[j]
  {
    hide Linked, AllQueued, Indexed;
    forall j | 0 <= j < |ChainsOf(im, side)| ensures p !in ChainsOf(im, side)[j] {
      assert LevelLinked(cfg, side, im.mem, j, ChainsOf(im, side)[j]);
      assert p in ChainsOf(im, side)[j] ==> Belongs(cfg, side, im.mem, j, p);
    }
  }

  // The records of a level whose order `p` was partly filled, with the level total reduced by as much.
  lemma RecordsFilled(cfg: Config, im: Image, side: Side, ls: seq<PriceLevel>, i: int, k: int, quantity: int)
    requires Consistent(cfg, im) && LevelsOk(cfg, im.mem, ls, ChainsOf(im, side))
    requires 0 <= i < |ChainsOf(im, side)| && 0 <= k < |ChainsOf(im, side)[i]|
    ensures var p := ChainsOf(im, side)[i][k];
      && IsLive(im.mem, p)
      && LevelsOk(cfg, Reduced(im.mem, p, quantity), ls[i := ls[i].(totalQty := ls[i].totalQty - quantity)], ChainsOf(im, side))
  {
    hide Linked, AllQueued, Indexed, OrdersOf, SumRemaining, OrderAt;
    var chains := ChainsOf(im, side);
    var c := chains[i];
    var p := c[k];
    assert LevelLinked(cfg, side, im.mem, i, c);
    ReduceLinks(im.mem, c, k, quantity);
    assert LevelOk(im.mem, ls[i], c, PriceAt(cfg, i));
    SumReplace(OrdersOf(im.mem, c), k, quantity);
    var mem' := Reduced(im.mem, p, quantity);
    forall j, x | 0 <= j < |chains| && j != i && 0 <= x < |chains[j]|
      ensures OrderAt(mem', chains[j][x]) == OrderAt(im.mem, chains[j][x])
    {
      OtherLevel(cfg, im, side, i, p, side, j);
      OtherSlot(im.mem, p, quantity, chains[j][x]);
    }
    LevelsFrame(cfg, im.mem, mem', ls, chains, i);
  }

  lemma OtherSlot(mem: seq<Slot>, p: int, quantity: int, x: int)
    requires IsLive(mem, p) && x != p
    ensures OrderAt(Reduced(mem, p, quantity), x) == OrderAt(mem, x)
  {
  }

  lemma RecordsFilledOther(cfg: Config, im: Image, side: Side, ls: seq<PriceLevel>, i: int, k: int, quantity: int)
    requires Consistent(cfg, im) && LevelsOk(cfg, im.mem, ls, ChainsOf(im, Opposite(side)))
    requires 0 <= i < |ChainsOf(im, side)| && 0 <= k < |ChainsOf(im, side)[i]|
    ensures var p := ChainsOf(im, side)[i][k];
      IsLive(im.mem, p) && LevelsOk(cfg, Reduced(im.mem, p, quantity), ls, ChainsOf(im, Opposite(side)))
  {
    hide Linked, AllQueued, Indexed, OrderAt, LevelsOk;
    var chains, p := ChainsOf(im, Opposite(side)), ChainsOf(im, side)[i][k];
    assert LevelLinked(cfg, side, im.mem, i, ChainsOf(im, side)[i]);
    assert Belongs(cfg, side, im.mem, i, p);
    forall j, x | 0 <= j < |chains| && 0 <= x < |chains[j]|
      ensures OrderAt(Reduced(im.mem, p, quantity), chains[j][x]) == OrderAt(im.mem, chains[j][x])
    {
      OtherLevel(cfg, im, side, i, p, Opposite(side), j);
      OtherSlot(im.mem, p, quantity, chains[j][x]);
    }
    RecordsSameOrders(cfg, im.mem, Reduced(im.mem, p, quantity), ls, chains);
  }

  lemma ReduceLeavesFree(mem: seq<Slot>, p: int, quantity: int)
    requires IsLive(mem, p)
    ensures FreeUntouched(mem, Reduced(mem, p, quantity))
  {
  }
}
