/** Where the quantity of each single order goes, over a whole run. */
module Accounts {
  import opened Types
  import opened Matcher
  import opened MatcherLaws
  import opened BookLaws
  import opened Conservation

  // ---------------------------------------------------------------------------------------------
  // The share of one id
  // ---------------------------------------------------------------------------------------------

  function RestingFor(s: seq<Order>, id: int): int {
    if s == [] then 0 else (if s[0].id == id then s[0].remaining else 0) + RestingFor(s[1..], id)
  }

  // Its fills as the resting party, and as the incoming one.
  function PassiveFor(ts: seq<Trade>, id: int): int {
    if ts == [] then 0 else (if ts[0].passiveId == id then ts[0].quantity else 0) + PassiveFor(ts[1..], id)
  }

  function AggressiveFor(ts: seq<Trade>, id: int): int {
    if ts == [] then 0 else (if ts[0].aggressorId == id then ts[0].quantity else 0) + AggressiveFor(ts[1..], id)
  }

  function FilledFor(ts: seq<Trade>, id: int): int {
    PassiveFor(ts, id) + AggressiveFor(ts, id)
  }

  function BookFor(b: Book, id: int): int {
    RestingFor(b.bids, id) + RestingFor(b.asks, id)
  }

  lemma {:induction false} RestingConcat(s: seq<Order>, t: seq<Order>, id: int)
    ensures RestingFor(s + t, id) == RestingFor(s, id) + RestingFor(t, id)
  {
    if s == [] {
      assert s + t == t;
    } else {
      RestingConcat(s[1..], t, id);
      assert (s + t)[1..] == s[1..] + t;
    }
  }

  lemma RestingInsert(s: seq<Order>, x: Order, id: int)
    ensures RestingFor(Insert(s, x), id) == RestingFor(s, id) + if x.id == id then x.remaining else 0
  {
    hide RestingFor;
    InsertIs(s, x);
    var k := InsertPos(s, x);
    RestingConcat(s[..k] + [x], s[k..], id);
    RestingConcat(s[..k], [x], id);
    RestingConcat(s[..k], s[k..], id);
    assert s[..k] + s[k..] == s;
    RestingOne(x, id);
  }

  lemma RestingOne(x: Order, id: int)
    ensures RestingFor([x], id) == (if x.id == id then x.remaining else 0) && RestingFor([], id) == 0
  {
    assert [x][1..] == [];
  }

  lemma RestingRemove(s: seq<Order>, gone: int, id: int)
    ensures RestingFor(Remove(s, gone), id)
         == RestingFor(s, id) - if Find(s, gone) != -1 && gone == id then s[Find(s, gone)].remaining else 0
  {
    hide RestingFor;
    var k := Find(s, gone);
    if k != -1 {
      RestingConcat(s[..k], s[k + 1..], id);
      RestingConcat(s[..k], s[k..], id);
      RestingConcat([s[k]], s[k + 1..], id);
      assert s == s[..k] + s[k..] && s[k..] == [s[k]] + s[k + 1..];
      RestingOne(s[k], id);
    }
  }

  // ---------------------------------------------------------------------------------------------
  // Matching
  // ---------------------------------------------------------------------------------------------

  // What a resting order loses it traded or was removed with; what the incoming order loses it traded.
  ghost predicate Accounted(o: NewOrder, opp: seq<Order>, remaining: int, m: MatchResult, id: int) {
    && RestingFor(opp, id) == RestingFor(m.rest, id) + PassiveFor(m.trades, id) + RestingFor(m.victims, id)
    && AggressiveFor(m.trades, id) == if o.id == id then remaining - m.remaining else 0
  }

  lemma StopAccounted(stp: StpPolicy, o: NewOrder, opp: seq<Order>, remaining: int, tradeId: int, id: int)
    requires TakeTurn(stp, o, opp, remaining, tradeId).Stop?
    ensures Accounted(o, opp, remaining, TakeTurn(stp, o, opp, remaining, tradeId).m, id)
  {
    var m := TakeTurn(stp, o, opp, remaining, tradeId).m;
    if m.trades != [] {
      assert m.trades[1..] == [] && m.rest[1..] == opp[1..];
    } else if m.victims != [] {
      assert m.victims[1..] == [];
    }
  }

  lemma GoneAccounted(stp: StpPolicy, o: NewOrder, opp: seq<Order>, remaining: int, tradeId: int, m: MatchResult, id: int)
    requires TakeTurn(stp, o, opp, remaining, tradeId).Gone?
    requires Accounted(o, opp[1..], TakeTurn(stp, o, opp, remaining, tradeId).remaining, m, id)
    ensures var turn := TakeTurn(stp, o, opp, remaining, tradeId); Accounted(o, opp, remaining, Emit(turn.trades, turn.victims, m), id)
  {
    var turn := TakeTurn(stp, o, opp, remaining, tradeId);
    if turn.trades != [] {
      assert (turn.trades + m.trades)[1..] == m.trades;
      assert turn.victims + m.victims == m.victims;
    } else {
      assert (turn.victims + m.victims)[1..] == m.victims;
      assert turn.trades + m.trades == m.trades;
    }
  }

  lemma {:induction false} MatchAccounted(stp: StpPolicy, o: NewOrder, opp: seq<Order>, remaining: int, tradeId: int, m: MatchResult, id: int)
    requires m == Match(stp, o, opp, remaining, tradeId)
    ensures Accounted(o, opp, remaining, m, id)
    decreases |opp|
  {
    hide Accounted;
    match TakeTurn(stp, o, opp, remaining, tradeId)
    case Stop(_) =>
      StopAccounted(stp, o, opp, remaining, tradeId, id);
    case Gone(trades, victims, remaining') =>
      var m' := Match(stp, o, opp[1..], remaining', tradeId + |trades|);
      MatchAccounted(stp, o, opp[1..], remaining', tradeId + |trades|, m', id);
      GoneAccounted(stp, o, opp, remaining, tradeId, m', id);
  }

  // ---------------------------------------------------------------------------------------------
  // Commands and runs
  // ---------------------------------------------------------------------------------------------

  // One id's account: what was accepted under it, what of that was filled and what was withdrawn unfilled.
  datatype Account = Account(book: Book, accepted: int, filled: int, withdrawn: int)

  function AcceptedFor(cfg: Config, b: Book, o: NewOrder, id: int): int {
    if o.id == id then Accepted(cfg, b, o) else 0
  }

  function WithdrawnFor(o: NewOrder, e: Effect, id: int): int {
    RestingFor(e.victims, id) + if o.id == id && !e.result.rested then e.result.remaining else 0
  }

  function Enter(cfg: Config, a: Account, c: Command, id: int): Account
    decreases c.Replace?
  {
    match c
    case New(o) =>
      var e := Submit(cfg, a.book, o);
      Account(e.book, a.accepted + AcceptedFor(cfg, a.book, o, id), a.filled + FilledFor(e.trades, id),
              a.withdrawn + WithdrawnFor(o, e, id))
    case Cancel(gone) =>
      var e := CancelOrder(a.book, gone);
      Account(e.book, a.accepted, a.filled, a.withdrawn + if gone == id then e.result.remaining else 0)
    case Replace(oldId, amended) =>
      if !ReplaceRefusal(cfg, a.book, oldId, amended).Ok? then a
      else Enter(cfg, Enter(cfg, a, Cancel(oldId), id), New(amended), id)
  }

  function EnterAll(cfg: Config, cs: seq<Command>, id: int): Account {
    if cs == [] then Account(EmptyBook, 0, 0, 0) else Enter(cfg, EnterAll(cfg, cs[..|cs| - 1], id), cs[|cs| - 1], id)
  }

  lemma SubmitAccounted(cfg: Config, b: Book, o: NewOrder, id: int)
    ensures var e := Submit(cfg, b, o);
      BookFor(e.book, id) + FilledFor(e.trades, id) + WithdrawnFor(o, e, id) == BookFor(b, id) + AcceptedFor(cfg, b, o, id)
  {
    hide RestingFor, PassiveFor, AggressiveFor, Insert, Match, Refusal;
    NothingFor(id);
    if Refusal(cfg, b, o).Ok? {
      var opp, own := SideOf(b, Opposite(o.side)), SideOf(b, o.side);
      var m := Match(cfg.stp, o, opp, o.quantity, b.nextTradeId);
      MatchAccounted(cfg.stp, o, opp, o.quantity, b.nextTradeId, m, id);
      RestingInsert(own, Residual(o, m.remaining, b.lastArrival + 1), id);
    }
  }

  lemma NothingFor(id: int)
    ensures RestingFor([], id) == 0 && PassiveFor([], id) == 0 && AggressiveFor([], id) == 0
  {
  }

  lemma CancelAccounted(b: Book, gone: int, id: int)
    requires DisjointIds(b.bids, b.asks)
    ensures var e := CancelOrder(b, gone);
      BookFor(e.book, id) + (if gone == id then e.result.remaining else 0) == BookFor(b, id)
  {
    hide RestingFor, Remove;
    RestingRemove(b.bids, gone, id);
    RestingRemove(b.asks, gone, id);
  }

  ghost predicate Settled(a: Account, id: int) {
    BookFor(a.book, id) + a.filled + a.withdrawn == a.accepted
  }

  lemma EnterSettled(cfg: Config, a: Account, c: Command, id: int)
    requires BookInv(cfg, a.book) && Settled(a, id)
    ensures Settled(Enter(cfg, a, c, id), id) && Enter(cfg, a, c, id).book == Step(cfg, a.book, c).book
    decreases c.Replace?
  {
    hide Submit, CancelOrder, BookFor, FilledFor, WithdrawnFor, AcceptedFor, SideOk;
    match c
    case New(o) =>
      SubmitAccounted(cfg, a.book, o, id);
    case Cancel(gone) =>
      CancelAccounted(a.book, gone, id);
    case Replace(oldId, amended) =>
      if ReplaceRefusal(cfg, a.book, oldId, amended).Ok? {
        CancelKeeps(cfg, a.book, oldId);
        EnterSettled(cfg, a, Cancel(oldId), id);
        EnterSettled(cfg, Enter(cfg, a, Cancel(oldId), id), New(amended), id);
      }
  }

  /** For each order id and over every run: what was filled under it, on either side of a trade, is what was accepted
      under it less what still rests and what was withdrawn. */
  lemma {:induction false} RunSettles(cfg: Config, cs: seq<Command>, id: int)
    requires ValidConfig(cfg) && forall i :: 0 <= i < |cs| ==> GridCommand(cfg, cs[i])
    ensures var a := EnterAll(cfg, cs, id);
      a.book == Run(cfg, EmptyBook, cs) && a.filled == a.accepted - BookFor(a.book, id) - a.withdrawn
    decreases |cs|
  {
    hide BookInv, Step, Enter, BookFor;
    if cs == [] {
      NothingFor(id);
      EmptyFor(id);
    } else {
      var most := cs[..|cs| - 1];
      RunSettles(cfg, most, id);
      EmptyInv(cfg);
      RunKeeps(cfg, EmptyBook, most);
      EnterSettled(cfg, EnterAll(cfg, most, id), cs[|cs| - 1], id);
    }
  }

  lemma EmptyFor(id: int)
    ensures BookFor(EmptyBook, id) == 0
  {
  }
}
