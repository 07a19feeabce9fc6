/** Where quantity goes: every unit accepted is resting, traded (twice: once per party) or withdrawn. */
module Conservation {
  import opened Types
  import opened Matcher
  import opened MatcherLaws
  import opened BookLaws

  // ---------------------------------------------------------------------------------------------
  // Sums under the list operations
  // ---------------------------------------------------------------------------------------------

  lemma {:induction false} SumConcat(s: seq<Order>, t: seq<Order>)
    ensures SumRemaining(s + t) == SumRemaining(s) + SumRemaining(t)
  {
    if s == [] {
      assert s + t == t;
    } else {
      SumConcat(s[1..], t);
      assert (s + t)[1..] == s[1..] + t;
    }
  }

  lemma SumInsert(s: seq<Order>, o: Order)
    ensures SumRemaining(Insert(s, o)) == SumRemaining(s) + o.remaining
  {
    InsertIs(s, o);
    var k := InsertPos(s, o);
    SumConcat(s[..k] + [o], s[k..]);
    SumConcat(s[..k], [o]);
    SumConcat(s[..k], s[k..]);
    assert s[..k] + s[k..] == s;
  }

  lemma SumRemove(s: seq<Order>, id: int)
    ensures SumRemaining(Remove(s, id)) == SumRemaining(s) - (if Find(s, id) == -1 then 0 else s[Find(s, id)].remaining)
  {
    var k := Find(s, id);
    if k != -1 {
      SumConcat(s[..k], s[k + 1..]);
      SumConcat(s[..k], s[k..]);
      assert s == s[..k] + s[k..];
    }
  }

  lemma SumSnoc(s: seq<Order>, o: Order)
    ensures SumRemaining(s + [o]) == SumRemaining(s) + o.remaining
  {
    SumConcat(s, [o]);
  }

  lemma SumDrop(s: seq<Order>, k: int)
    requires 0 <= k < |s|
    ensures SumRemaining(s[..k] + s[k + 1..]) == SumRemaining(s) - s[k].remaining
  {
    SumConcat(s[..k], s[k + 1..]);
    SumConcat(s[..k], s[k..]);
    assert s == s[..k] + s[k..];
  }

  lemma {:induction false} SumReplace(s: seq<Order>, k: int, quantity: int)
    requires 0 <= k < |s|
    ensures SumRemaining(s[k := s[k].(remaining := s[k].remaining - quantity)]) == SumRemaining(s) - quantity
  {
    var s' := s[k := s[k].(remaining := s[k].remaining - quantity)];
    if k == 0 {
      assert s'[1..] == s[1..];
    } else {
      SumReplace(s[1..], k - 1, quantity);
      assert s'[1..] == s[1..][k - 1 := s'[k]];
    }
  }

  function Total(b: Book): int {
    SumRemaining(b.bids) + SumRemaining(b.asks)
  }

  // ---------------------------------------------------------------------------------------------
  // The ledger of a run
  // ---------------------------------------------------------------------------------------------

  datatype Ledger = Ledger(book: Book, accepted: int, traded: int, withdrawn: int)

  function Accepted(cfg: Config, b: Book, o: NewOrder): int {
    if Refusal(cfg, b, o).Ok? then o.quantity else 0
  }

  // Residuals that did not rest (cancelled, stopped by self-trade prevention, or no room in the pool)
  // and the victims of self-trade prevention.
  function Withdrawn(e: Effect): int {
    SumRemaining(e.victims) + (if e.result.rested then 0 else e.result.remaining)
  }

  function Post(cfg: Config, l: Ledger, c: Command): Ledger
    decreases c.Replace?
  {
    match c
    case New(o) =>
      var e := Submit(cfg, l.book, o);
      Ledger(e.book, l.accepted + Accepted(cfg, l.book, o), l.traded + SumTraded(e.trades), l.withdrawn + Withdrawn(e))
    case Cancel(id) =>
      var e := CancelOrder(l.book, id);
      Ledger(e.book, l.accepted, l.traded, l.withdrawn + e.result.remaining)
    case Replace(oldId, amended) =>
      if !ReplaceRefusal(cfg, l.book, oldId, amended).Ok? then l
      else Post(cfg, Post(cfg, l, Cancel(oldId)), New(amended))
  }

  function PostAll(cfg: Config, l: Ledger, cs: seq<Command>): Ledger {
    if cs == [] then l else Post(cfg, PostAll(cfg, l, cs[..|cs| - 1]), cs[|cs| - 1])
  }

  ghost predicate Balanced(l: Ledger) {
    Total(l.book) + 2 * l.traded + l.withdrawn == l.accepted
  }

  lemma SubmitBalances(cfg: Config, b: Book, o: NewOrder)
    requires BookInv(cfg, b)
    ensures var e := Submit(cfg, b, o);
            Total(e.book) + 2 * SumTraded(e.trades) + Withdrawn(e) == Total(b) + Accepted(cfg, b, o)
  {
    hide SumRemaining, SumTraded, Insert, Match, Available, SideOk;
    if Refusal(cfg, b, o).Ok? {
      var opp := SideOf(b, Opposite(o.side));
      var m := Match(cfg.stp, o, opp, o.quantity, b.nextTradeId);
      SideOkPositive(cfg, Opposite(o.side), b.lastArrival, opp);
      MatchAccounts(cfg.stp, o, opp, o.quantity, b.nextTradeId, m);
      var own := SideOf(b, o.side);
      var r := Residual(o, m.remaining, b.lastArrival + 1);
      SumInsert(own, r);
    } else {
      NothingSums();
    }
  }

  lemma CancelBalances(b: Book, id: int)
    requires DisjointIds(b.bids, b.asks)
    ensures var e := CancelOrder(b, id); Total(e.book) + e.result.remaining == Total(b)
  {
    hide SumRemaining, Remove;
    if IsResting(b, id) {
      SumRemove(b.bids, id);
      SumRemove(b.asks, id);
    }
  }

  lemma PostBalances(cfg: Config, l: Ledger, c: Command)
    requires BookInv(cfg, l.book) && Balanced(l)
    ensures Balanced(Post(cfg, l, c))
    ensures Post(cfg, l, c).book == Step(cfg, l.book, c).book
    decreases c.Replace?
  {
    hide Submit, CancelOrder, Total, SumTraded, Withdrawn, Accepted, SideOk;
    match c
    case New(o) =>
      SubmitBalances(cfg, l.book, o);
    case Cancel(id) =>
      CancelBalances(l.book, id);
    case Replace(oldId, amended) =>
      if ReplaceRefusal(cfg, l.book, oldId, amended).Ok? {
        CancelKeeps(cfg, l.book, oldId);
        PostBalances(cfg, l, Cancel(oldId));
        PostBalances(cfg, Post(cfg, l, Cancel(oldId)), New(amended));
      }
  }

  /** Quantity conservation over every run, under each self-trade-prevention policy. */
  lemma {:induction false} RunBalances(cfg: Config, cs: seq<Command>)
    requires ValidConfig(cfg) && forall i :: 0 <= i < |cs| ==> GridCommand(cfg, cs[i])
    ensures var l := PostAll(cfg, Ledger(EmptyBook, 0, 0, 0), cs);
            l.book == Run(cfg, EmptyBook, cs) && Total(l.book) + 2 * l.traded + l.withdrawn == l.accepted
    decreases |cs|
  {
    hide BookInv, Step, Post, Total;
    var l0 := Ledger(EmptyBook, 0, 0, 0);
    if cs == [] {
      assert Total(EmptyBook) == 0 by { EmptyTotal(); }
    } else {
      var cs' := cs[..|cs| - 1];
      RunBalances(cfg, cs');
      EmptyInv(cfg);
      RunKeeps(cfg, EmptyBook, cs');
      PostBalances(cfg, PostAll(cfg, l0, cs'), cs[|cs| - 1]);
    }
  }

  lemma NothingSums()
    ensures SumRemaining([]) == 0 && SumTraded([]) == 0
  {
  }

  lemma EmptyTotal()
    ensures Total(EmptyBook) == 0
  {
  }
}
