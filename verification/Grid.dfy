/** The price grid: slot `i` of the level array stands for the price `minPrice + i * tick`. */
module Grid {
  import opened Types

  function Slots(cfg: Config): nat
    requires ValidConfig(cfg)
  {
    (cfg.maxPrice - cfg.minPrice) / cfg.tick + 1
  }

  function PriceAt(cfg: Config, i: int): int {
    cfg.minPrice + i * cfg.tick
  }

  function IndexOf(cfg: Config, p: int): int
    requires cfg.tick > 0
  {
    (p - cfg.minPrice) / cfg.tick
  }

  lemma Spread(tick: int, i: int, j: int)
    requires tick > 0
    ensures i > j ==> i * tick >= j * tick + tick
  {
    if i > j {
      Scale(tick, i - j);
      assert (i - j) * tick == i * tick - j * tick;
    }
  }

  lemma Scale(tick: int, d: int)
    requires tick > 0 && d > 0
    ensures d * tick >= tick
  {
  }

  lemma PriceOrder(cfg: Config, i: int, j: int)
    requires cfg.tick > 0
    ensures i < j <==> PriceAt(cfg, i) < PriceAt(cfg, j)
  {
    Spread(cfg.tick, i, j);
    Spread(cfg.tick, j, i);
  }

  lemma IndexOfPrice(cfg: Config, i: int)
    requires cfg.tick > 0
    ensures IndexOf(cfg, PriceAt(cfg, i)) == i && OnGrid(cfg, PriceAt(cfg, i))
  {
    Exact(cfg.tick, i);
  }

  lemma Exact(tick: int, i: int)
    requires tick > 0
    ensures i * tick / tick == i && i * tick % tick == 0
  {
    var q := i * tick / tick;
    assert i * tick == q * tick + i * tick % tick;
    Spread(tick, i, q);
    Spread(tick, q, i);
  }

  lemma SlotPrice(cfg: Config, i: int)
    requires ValidConfig(cfg) && 0 <= i < Slots(cfg)
    ensures InRange(cfg, PriceAt(cfg, i)) && OnGrid(cfg, PriceAt(cfg, i)) && IndexOf(cfg, PriceAt(cfg, i)) == i
  {
    IndexOfPrice(cfg, i);
    var m := cfg.maxPrice - cfg.minPrice;
    assert m / cfg.tick * cfg.tick <= m;
    Spread(cfg.tick, m / cfg.tick, i);
    Spread(cfg.tick, i, 0);
  }

  // A price below another lies in no later slot.
  lemma SlotsOrdered(cfg: Config, p: int, q: int)
    requires cfg.tick > 0
    ensures p <= q ==> IndexOf(cfg, p) <= IndexOf(cfg, q)
  {
    var a, b := p - cfg.minPrice, q - cfg.minPrice;
    if p <= q {
      assert a == a / cfg.tick * cfg.tick + a % cfg.tick && b == b / cfg.tick * cfg.tick + b % cfg.tick;
      Spread(cfg.tick, a / cfg.tick, b / cfg.tick);
    }
  }

  // A slot's grid price is at most any price in it, and the next slot's is above.
  lemma SlotFloor(cfg: Config, p: int)
    requires cfg.tick > 0
    ensures PriceAt(cfg, IndexOf(cfg, p)) <= p < PriceAt(cfg, IndexOf(cfg, p)) + cfg.tick
    ensures PriceAt(cfg, IndexOf(cfg, p)) == p <==> OnGrid(cfg, p)
  {
    var d := p - cfg.minPrice;
    assert d == d / cfg.tick * cfg.tick + d % cfg.tick;
  }

  // Every price in range has a slot.
  lemma RangeIndex(cfg: Config, p: int)
    requires ValidConfig(cfg) && InRange(cfg, p)
    ensures 0 <= IndexOf(cfg, p) < Slots(cfg)
  {
    SlotsOrdered(cfg, p, cfg.maxPrice);
    SlotsOrdered(cfg, cfg.minPrice, p);
  }
}
