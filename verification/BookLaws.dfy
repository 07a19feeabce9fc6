/** The invariant of the book that every command keeps, and the laws that hold over every run. */
module BookLaws {
  import opened Types
  import opened Matcher
  import opened MatcherLaws

  // ---------------------------------------------------------------------------------------------
  // The invariant
  // ---------------------------------------------------------------------------------------------

  ghost predicate OrderOk(cfg: Config, side: Side, last: int, o: Order)
    requires cfg.tick > 0
  {
    && o.side == side && 0 < o.remaining <= o.quantity
    && InRange(cfg, o.price) && OnGrid(cfg, o.price)
    && 0 < o.arrival <= last
  }

  ghost predicate AllOk(cfg: Config, side: Side, last: int, s: seq<Order>)
    requires cfg.tick > 0
  {
    forall i :: 0 <= i < |s| ==> OrderOk(cfg, side, last, s[i])
  }

  // Better price first, and earlier arrival first at the same price.
  ghost predicate Ahead(side: Side, a: Order, b: Order) {
    Better(side, a.price, b.price) || (a.price == b.price && a.arrival < b.arrival)
  }

  ghost predicate Sorted(side: Side, s: seq<Order>) {
    forall i, j :: 0 <= i < j < |s| ==> Ahead(side, s[i], s[j])
  }

  // No order waits behind one at a worse price.
  ghost predicate PriceSorted(side: Side, s: seq<Order>) {
    forall i, j :: 0 <= i < j < |s| ==> !Better(side, s[j].price, s[i].price)
  }

  ghost predicate DistinctIds(s: seq<Order>) {
    forall i, j :: 0 <= i < j < |s| ==> s[i].id != s[j].id
  }

  ghost predicate DisjointIds(s: seq<Order>, t: seq<Order>) {
    forall i, j :: 0 <= i < |s| && 0 <= j < |t| ==> s[i].id != t[j].id
  }

  // The best orders of the two sides could not trade with each other.
  ghost predicate Apart(side: Side, own: seq<Order>, opp: seq<Order>) {
    own != [] && opp != [] ==> Better(Opposite(side), own[0].price, opp[0].price)
  }

  ghost predicate SideOk(cfg: Config, side: Side, last: int, s: seq<Order>)
    requires cfg.tick > 0
  {
    AllOk(cfg, side, last, s) && Sorted(side, s) && DistinctIds(s)
  }

  ghost predicate BookInv(cfg: Config, b: Book) {
    && ValidConfig(cfg)
    && 0 <= b.lastArrival && 0 <= b.nextTradeId
    && SideOk(cfg, Buy, b.lastArrival, b.bids)
    && SideOk(cfg, Sell, b.lastArrival, b.asks)
    && DisjointIds(b.bids, b.asks)
    && Apart(Buy, b.bids, b.asks)
    && Resting(b) <= cfg.maxOrders
  }

  // ---------------------------------------------------------------------------------------------
  // Sides under matching, resting and removal
  // ---------------------------------------------------------------------------------------------

  lemma LeftoverAt(opp: seq<Order>, rest: seq<Order>, i: nat)
    requires Leftover(opp, rest) && Positive(opp) && i < |rest|
    ensures |rest| <= |opp|
    ensures var x := opp[|opp| - |rest| + i];
            rest[i] == x.(remaining := rest[i].remaining) && 0 < rest[i].remaining <= x.remaining
  {
  }

  lemma LeftoverKeeps(cfg: Config, side: Side, last: int, opp: seq<Order>, rest: seq<Order>)
    requires cfg.tick > 0 && SideOk(cfg, side, last, opp) && Leftover(opp, rest)
    ensures SideOk(cfg, side, last, rest)
  {
    hide Leftover;
    forall i | 0 <= i < |rest| ensures OrderOk(cfg, side, last, rest[i]) {
      LeftoverAt(opp, rest, i);
    }
    forall i, j | 0 <= i < j < |rest| ensures Ahead(side, rest[i], rest[j]) && rest[i].id != rest[j].id {
      LeftoverAt(opp, rest, i);
      LeftoverAt(opp, rest, j);
    }
  }

  lemma LeftoverDisjoint(own: seq<Order>, opp: seq<Order>, rest: seq<Order>)
    requires DisjointIds(own, opp) && Leftover(opp, rest) && Positive(opp)
    ensures DisjointIds(own, rest)
  {
    hide Leftover;
    forall i, j | 0 <= i < |own| && 0 <= j < |rest| ensures own[i].id != rest[j].id {
      LeftoverAt(opp, rest, j);
    }
  }

  lemma LeftoverApart(cfg: Config, side: Side, last: int, own: seq<Order>, opp: seq<Order>, rest: seq<Order>)
    requires cfg.tick > 0 && SideOk(cfg, Opposite(side), last, opp) && Leftover(opp, rest)
    requires Apart(side, own, opp)
    ensures Apart(side, own, rest)
  {
    hide Leftover;
    if rest != [] {
      LeftoverAt(opp, rest, 0);
    }
  }

  // Where a new arrival joins its side.
  function InsertPos(s: seq<Order>, o: Order): (k: nat)
    ensures k <= |s|
  {
    if s == [] || Better(o.side, o.price, s[0].price) then 0 else 1 + InsertPos(s[1..], o)
  }

  lemma {:induction false} InsertIs(s: seq<Order>, o: Order)
    ensures var k := InsertPos(s, o);
            && Insert(s, o) == s[..k] + [o] + s[k..]
            && (forall i :: 0 <= i < k ==> !Better(o.side, o.price, s[i].price))
            && (k < |s| ==> Better(o.side, o.price, s[k].price))
  {
    if s != [] && !Better(o.side, o.price, s[0].price) {
      InsertIs(s[1..], o);
      var k := InsertPos(s[1..], o);
      assert [s[0]] + s[1..][..k] == s[..k + 1];
    }
  }

  lemma InsertKeeps(cfg: Config, side: Side, last: int, s: seq<Order>, o: Order)
    requires cfg.tick > 0 && SideOk(cfg, side, last, s) && OrderOk(cfg, side, last + 1, o) && o.arrival == last + 1
    requires forall i :: 0 <= i < |s| ==> s[i].id != o.id
    ensures SideOk(cfg, side, last + 1, Insert(s, o))
  {
    InsertIs(s, o);
    var k := InsertPos(s, o);
    var r := Insert(s, o);
    InsertSorted(cfg, side, last, s, o, k, r);
    forall i | 0 <= i < |r| ensures OrderOk(cfg, side, last + 1, r[i]) {
      assert r[i] == (if i < k then s[i] else if i == k then o else s[i - 1]);
    }
  }

  lemma InsertSorted(cfg: Config, side: Side, last: int, s: seq<Order>, o: Order, k: nat, r: seq<Order>)
    requires cfg.tick > 0 && AllOk(cfg, side, last, s) && Sorted(side, s) && o.arrival == last + 1 && o.side == side
    requires k <= |s| && |r| == |s| + 1 && r[k] == o
    requires forall i :: 0 <= i < k ==> r[i] == s[i]
    requires forall i :: k < i < |r| ==> r[i] == s[i - 1]
    requires forall i :: 0 <= i < k ==> !Better(side, o.price, s[i].price)
    requires k < |s| ==> Better(side, o.price, s[k].price)
    ensures Sorted(side, r)
  {
    forall i, j | 0 <= i < j < |r| ensures Ahead(side, r[i], r[j]) {
      if i == k {
        assert j - 1 > k ==> Ahead(side, s[k], s[j - 1]);
      }
    }
  }

  lemma InsertDisjoint(s: seq<Order>, o: Order, t: seq<Order>)
    requires DisjointIds(s, t) && forall i :: 0 <= i < |t| ==> t[i].id != o.id
    ensures DisjointIds(Insert(s, o), t)
  {
    InsertIs(s, o);
  }

  lemma InsertApart(side: Side, s: seq<Order>, o: Order, opp: seq<Order>)
    requires Apart(side, s, opp) && o.side == side
    requires opp != [] ==> Better(Opposite(side), o.price, opp[0].price)
    ensures Apart(side, Insert(s, o), opp)
  {
  }

  lemma RemoveAt(s: seq<Order>, id: int, i: nat)
    requires i < |Remove(s, id)|
    ensures var k := Find(s, id);
            var j := if k != -1 && i >= k then i + 1 else i;
            j < |s| && Remove(s, id)[i] == s[j]
  {
  }

  lemma RemoveKeeps(cfg: Config, side: Side, last: int, s: seq<Order>, id: int)
    requires cfg.tick > 0 && SideOk(cfg, side, last, s)
    ensures SideOk(cfg, side, last, Remove(s, id))
  {
    hide Remove;
    var r := Remove(s, id);
    forall i | 0 <= i < |r| ensures OrderOk(cfg, side, last, r[i]) {
      RemoveAt(s, id, i);
    }
    forall i, j | 0 <= i < j < |r| ensures Ahead(side, r[i], r[j]) && r[i].id != r[j].id {
      RemoveAt(s, id, i);
      RemoveAt(s, id, j);
    }
  }

  lemma RemoveDisjoint(s: seq<Order>, t: seq<Order>, id: int)
    requires DisjointIds(s, t)
    ensures DisjointIds(Remove(s, id), Remove(t, id))
  {
    hide Remove;
    forall i, j | 0 <= i < |Remove(s, id)| && 0 <= j < |Remove(t, id)|
      ensures Remove(s, id)[i].id != Remove(t, id)[j].id
    {
      RemoveAt(s, id, i);
      RemoveAt(t, id, j);
    }
  }

  lemma RemoveApart(cfg: Config, last: int, bids: seq<Order>, asks: seq<Order>, id: int)
    requires cfg.tick > 0 && SideOk(cfg, Buy, last, bids) && SideOk(cfg, Sell, last, asks) && Apart(Buy, bids, asks)
    ensures Apart(Buy, Remove(bids, id), Remove(asks, id))
  {
    hide Remove;
    if Remove(bids, id) != [] && Remove(asks, id) != [] {
      RemoveAt(bids, id, 0);
      RemoveAt(asks, id, 0);
    }
  }

  // ---------------------------------------------------------------------------------------------
  // The invariant seen from the side of an incoming order
  // ---------------------------------------------------------------------------------------------

  ghost predicate SidesOk(cfg: Config, side: Side, last: int, own: seq<Order>, opp: seq<Order>)
    requires cfg.tick > 0
  {
    && SideOk(cfg, side, last, own) && SideOk(cfg, Opposite(side), last, opp)
    && DisjointIds(own, opp) && Apart(side, own, opp)
  }

  lemma InvSides(cfg: Config, b: Book, side: Side)
    requires ValidConfig(cfg)
    ensures BookInv(cfg, b) <==>
      && 0 <= b.lastArrival && 0 <= b.nextTradeId
      && SidesOk(cfg, side, b.lastArrival, SideOf(b, side), SideOf(b, Opposite(side)))
      && Resting(b) <= cfg.maxOrders
  {
    hide SideOk;
  }

  lemma SideOkLater(cfg: Config, side: Side, last: int, later: int, s: seq<Order>)
    requires cfg.tick > 0 && SideOk(cfg, side, last, s) && last <= later
    ensures SideOk(cfg, side, later, s)
  {
    forall i | 0 <= i < |s| ensures OrderOk(cfg, side, later, s[i]) {
      assert OrderOk(cfg, side, last, s[i]);
    }
  }

  lemma SideOkPositive(cfg: Config, side: Side, last: int, s: seq<Order>)
    requires cfg.tick > 0 && SideOk(cfg, side, last, s)
    ensures Positive(s)
  {
    forall i | 0 <= i < |s| ensures s[i].remaining > 0 {
      assert OrderOk(cfg, side, last, s[i]);
    }
  }

  // Matching takes from the opposite side and leaves the sides in order and apart.
  lemma MatchKeeps(cfg: Config, last: int, own: seq<Order>, opp: seq<Order>, o: NewOrder, remaining: int, tradeId: int, m: MatchResult)
    requires cfg.tick > 0 && SidesOk(cfg, o.side, last, own, opp)
    requires m == Match(cfg.stp, o, opp, remaining, tradeId)
    ensures SidesOk(cfg, o.side, last + 1, own, m.rest)
    ensures |m.rest| <= |opp| && Accounts(o, opp, remaining, m)
  {
    hide SideOk, Leftover, Accounts, DisjointIds, Apart;
    var op := Opposite(o.side);
    SideOkPositive(cfg, op, last, opp);
    MatchLeaves(cfg.stp, o, opp, remaining, tradeId, m);
    MatchAccounts(cfg.stp, o, opp, remaining, tradeId, m);
    LeftoverKeeps(cfg, op, last, opp, m.rest);
    LeftoverDisjoint(own, opp, m.rest);
    LeftoverApart(cfg, o.side, last, own, opp, m.rest);
    SideOkLater(cfg, op, last, last + 1, m.rest);
    SideOkLater(cfg, o.side, last, last + 1, own);
    assert |m.rest| <= |opp| by {
      if m.rest != [] {
        LeftoverAt(opp, m.rest, 0);
      }
    }
  }

  // Resting what is left of a limit order keeps the sides in order and apart.
  lemma RestKeeps(cfg: Config, last: int, own: seq<Order>, opp: seq<Order>, o: NewOrder, remaining: int)
    requires ValidConfig(cfg) && 0 <= last && SideOk(cfg, o.side, last, own) && SidesOk(cfg, o.side, last + 1, own, opp)
    requires o.kind.Limit? && InRange(cfg, o.price) && OnGrid(cfg, o.price) && 0 < remaining <= o.quantity
    requires opp != [] ==> !Crosses(o, opp[0].price)
    requires forall i :: 0 <= i < |own| ==> own[i].id != o.id
    requires forall i :: 0 <= i < |opp| ==> opp[i].id != o.id
    ensures SidesOk(cfg, o.side, last + 1, Insert(own, Residual(o, remaining, last + 1)), opp)
  {
    hide SideOk, DisjointIds, Apart, Insert;
    var r := Residual(o, remaining, last + 1);
    InsertKeeps(cfg, o.side, last, own, r);
    InsertDisjoint(own, r, opp);
    InsertApart(o.side, own, r, opp);
  }

  // ---------------------------------------------------------------------------------------------
  // Every command keeps the invariant
  // ---------------------------------------------------------------------------------------------

  lemma LeftoverIds(own: seq<Order>, opp: seq<Order>, rest: seq<Order>, id: int)
    requires Leftover(opp, rest) && Positive(opp)
    requires Find(own, id) == -1 && Find(opp, id) == -1
    ensures forall i :: 0 <= i < |own| ==> own[i].id != id
    ensures forall i :: 0 <= i < |rest| ==> rest[i].id != id
  {
    hide Leftover;
    forall i | 0 <= i < |rest| ensures rest[i].id != id {
      LeftoverAt(opp, rest, i);
    }
  }

  lemma SubmitKeeps(cfg: Config, b: Book, o: NewOrder)
    requires BookInv(cfg, b) && GridOrder(cfg, o)
    ensures BookInv(cfg, Submit(cfg, b, o).book)
  {
    hide BookInv, SidesOk, SideOk, Accounts, Insert, Available;
    if Refusal(cfg, b, o).Ok? {
      var own, opp := SideOf(b, o.side), SideOf(b, Opposite(o.side));
      InvConfig(cfg, b);
      InvSides(cfg, b, o.side);
      var m := Match(cfg.stp, o, opp, o.quantity, b.nextTradeId);
      MatchKeeps(cfg, b.lastArrival, own, opp, o, o.quantity, b.nextTradeId, m);
      var e := Submit(cfg, b, o);
      if e.result.rested {
        RestedKeeps(cfg, b.lastArrival, own, opp, o, b.nextTradeId, m);
        InsertLength(own, Residual(o, m.remaining, b.lastArrival + 1));
      }
      InvSides(cfg, e.book, o.side);
    }
  }

  lemma InsertLength(s: seq<Order>, o: Order)
    ensures |Insert(s, o)| == |s| + 1
  {
    InsertIs(s, o);
  }

  lemma InvConfig(cfg: Config, b: Book)
    requires BookInv(cfg, b)
    ensures ValidConfig(cfg)
  {
  }

  lemma RestedKeeps(cfg: Config, last: int, own: seq<Order>, opp: seq<Order>, o: NewOrder, tradeId: int, m: MatchResult)
    requires ValidConfig(cfg) && 0 <= last && SidesOk(cfg, o.side, last, own, opp) && GridOrder(cfg, o)
    requires o.quantity > 0 && m == Match(cfg.stp, o, opp, o.quantity, tradeId)
    requires o.kind.Limit? && InRange(cfg, o.price) && m.remaining > 0 && !m.outcome.StpFired?
    requires Find(own, o.id) == -1 && Find(opp, o.id) == -1
    ensures SidesOk(cfg, o.side, last + 1, Insert(own, Residual(o, m.remaining, last + 1)), m.rest)
  {
    hide SideOk, Insert, Leftover, Leaves;
    MatchKeeps(cfg, last, own, opp, o, o.quantity, tradeId, m);
    SideOkPositive(cfg, Opposite(o.side), last, opp);
    MatchLeaves(cfg.stp, o, opp, o.quantity, tradeId, m);
    assert Leftover(opp, m.rest) by { LeavesLeftover(opp, m); }
    LeftoverIds(own, opp, m.rest, o.id);
    assert m.remaining <= o.quantity by { TradesPositive(cfg.stp, o, opp, o.quantity, tradeId, m); }
    RestKeeps(cfg, last, own, m.rest, o, m.remaining);
  }

  lemma LeavesLeftover(opp: seq<Order>, m: MatchResult)
    requires Leaves(opp, m)
    ensures Leftover(opp, m.rest)
  {
  }

  lemma {:induction false} TradesPositive(stp: StpPolicy, o: NewOrder, opp: seq<Order>, remaining: int, tradeId: int, m: MatchResult)
    requires Positive(opp) && m == Match(stp, o, opp, remaining, tradeId)
    ensures m.remaining <= remaining
    decreases |opp|
  {
    match TakeTurn(stp, o, opp, remaining, tradeId)
    case Stop(_) =>
    case Gone(trades, victims, remaining') =>
      TradesPositive(stp, o, opp[1..], remaining', tradeId + |trades|,
                     Match(stp, o, opp[1..], remaining', tradeId + |trades|));
  }

  lemma CancelKeeps(cfg: Config, b: Book, id: int)
    requires BookInv(cfg, b)
    ensures BookInv(cfg, CancelOrder(b, id).book)
  {
    hide SideOk, Apart, DisjointIds;
    if IsResting(b, id) {
      RemoveKeeps(cfg, Buy, b.lastArrival, b.bids, id);
      RemoveKeeps(cfg, Sell, b.lastArrival, b.asks, id);
      RemoveDisjoint(b.bids, b.asks, id);
      RemoveApart(cfg, b.lastArrival, b.bids, b.asks, id);
    }
  }

  lemma StepKeeps(cfg: Config, b: Book, c: Command)
    requires BookInv(cfg, b) && GridCommand(cfg, c)
    ensures BookInv(cfg, Step(cfg, b, c).book)
  {
    hide BookInv, Submit, CancelOrder;
    match c
    case New(o) =>
      SubmitKeeps(cfg, b, o);
    case Cancel(id) =>
      CancelKeeps(cfg, b, id);
    case Replace(oldId, amended) =>
      if ReplaceRefusal(cfg, b, oldId, amended).Ok? {
        CancelKeeps(cfg, b, oldId);
        SubmitKeeps(cfg, CancelOrder(b, oldId).book, amended);
      }
  }

  lemma EmptyInv(cfg: Config)
    requires ValidConfig(cfg)
    ensures BookInv(cfg, EmptyBook)
  {
  }

  /** Every run from an empty book stays sorted by price and time, uncrossed, within the pool, and
      free of duplicate ids. */
  lemma {:induction false} RunKeeps(cfg: Config, b: Book, cs: seq<Command>)
    requires BookInv(cfg, b) && forall i :: 0 <= i < |cs| ==> GridCommand(cfg, cs[i])
    ensures BookInv(cfg, Run(cfg, b, cs))
    decreases |cs|
  {
    hide BookInv, Step;
    InvConfig(cfg, b);
    if cs != [] {
      RunKeeps(cfg, b, cs[..|cs| - 1]);
      StepKeeps(cfg, Run(cfg, b, cs[..|cs| - 1]), cs[|cs| - 1]);
    }
  }
}
