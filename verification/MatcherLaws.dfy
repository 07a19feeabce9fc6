/** What matching does to the opposite side, and what every command keeps. */
module MatcherLaws {
  import opened Types
  import opened Matcher

  // ---------------------------------------------------------------------------------------------
  // Sums
  // ---------------------------------------------------------------------------------------------

  function SumRemaining(s: seq<Order>): int {
    if s == [] then 0 else s[0].remaining + SumRemaining(s[1..])
  }

  function SumTraded(ts: seq<Trade>): int {
    if ts == [] then 0 else ts[0].quantity + SumTraded(ts[1..])
  }

  ghost predicate Positive(s: seq<Order>) {
    forall i :: 0 <= i < |s| ==> s[i].remaining > 0
  }

  // ---------------------------------------------------------------------------------------------
  // Only a walked prefix of the opposite side changes
  // ---------------------------------------------------------------------------------------------

  // `rest` is what is left of `opp` after a prefix went; its first order may have shrunk in place.
  ghost predicate Leftover(opp: seq<Order>, rest: seq<Order>) {
    && |rest| <= |opp|
    && (rest != [] ==>
          var first := opp[|opp| - |rest|];
          && 0 < rest[0].remaining <= first.remaining
          && rest == [first.(remaining := rest[0].remaining)] + opp[|opp| - |rest| + 1..])
  }

  // Did the last order reached trade and stay, partly filled?
  ghost predicate PartlyFilled(opp: seq<Order>, m: MatchResult) {
    m.rest != [] && |m.rest| <= |opp| && m.rest[0] != opp[|opp| - |m.rest|]
  }

  lemma LeftoverLonger(opp: seq<Order>, rest: seq<Order>)
    requires opp != [] && Leftover(opp[1..], rest)
    ensures Leftover(opp, rest)
    ensures rest != [] ==> opp[1..][|opp| - 1 - |rest|] == opp[|opp| - |rest|]
  {
    if rest != [] {
      assert opp[1..][|opp| - 1 - |rest| + 1..] == opp[|opp| - |rest| + 1..];
    }
  }

  lemma LeftoverWhole(opp: seq<Order>)
    requires Positive(opp)
    ensures Leftover(opp, opp)
  {
    if opp != [] {
      assert opp == [opp[0]] + opp[1..];
    }
  }

  // How many orders are gone, counting a partly filled one as gone.
  ghost function Reached(opp: seq<Order>, m: MatchResult): int {
    |opp| - |m.rest| + (if PartlyFilled(opp, m) then 1 else 0)
  }

  ghost predicate Leaves(opp: seq<Order>, m: MatchResult) {
    Leftover(opp, m.rest) && Reached(opp, m) == |m.trades| + |m.victims|
  }

  lemma StopLeaves(stp: StpPolicy, o: NewOrder, opp: seq<Order>, remaining: int, tradeId: int)
    requires Positive(opp) && TakeTurn(stp, o, opp, remaining, tradeId).Stop?
    ensures Leaves(opp, TakeTurn(stp, o, opp, remaining, tradeId).m)
  {
    var m := TakeTurn(stp, o, opp, remaining, tradeId).m;
    if m.rest == opp {
      LeftoverWhole(opp);
    } else if m.outcome.StpFired? {
      assert m.rest == opp[1..];
      LeftoverWhole(opp[1..]);
      LeftoverLonger(opp, opp[1..]);
    } else {
      assert m.rest[0] != opp[0] && m.rest[1..] == opp[1..];
    }
  }

  lemma GoneLeaves(stp: StpPolicy, o: NewOrder, opp: seq<Order>, remaining: int, tradeId: int, m: MatchResult)
    requires Positive(opp) && TakeTurn(stp, o, opp, remaining, tradeId).Gone?
    requires Leaves(opp[1..], m)
    ensures var turn := TakeTurn(stp, o, opp, remaining, tradeId);
            Leaves(opp, Emit(turn.trades, turn.victims, m))
  {
    LeftoverLonger(opp, m.rest);
  }

  lemma {:induction false} MatchLeaves(stp: StpPolicy, o: NewOrder, opp: seq<Order>, remaining: int, tradeId: int, m: MatchResult)
    requires Positive(opp) && m == Match(stp, o, opp, remaining, tradeId)
    ensures Leaves(opp, m)
    decreases |opp|
  {
    hide Leaves;
    match TakeTurn(stp, o, opp, remaining, tradeId)
    case Stop(_) =>
      StopLeaves(stp, o, opp, remaining, tradeId);
    case Gone(trades, victims, remaining') =>
      var m' := Match(stp, o, opp[1..], remaining', tradeId + |trades|);
      MatchLeaves(stp, o, opp[1..], remaining', tradeId + |trades|, m');
      GoneLeaves(stp, o, opp, remaining, tradeId, m');
  }

  // ---------------------------------------------------------------------------------------------
  // Nothing is lost and nothing is left that could still match
  // ---------------------------------------------------------------------------------------------

  ghost predicate Accounts(o: NewOrder, opp: seq<Order>, remaining: int, m: MatchResult) {
    && SumRemaining(opp) == SumRemaining(m.rest) + SumTraded(m.trades) + SumRemaining(m.victims)
    && remaining == m.remaining + SumTraded(m.trades)
    && (remaining >= 0 ==> m.remaining >= 0)
    && (m.remaining > 0 && !m.outcome.StpFired? && m.rest != [] ==> !Crosses(o, m.rest[0].price))
    && (m.outcome.StpFired? ==> m.remaining > 0)
  }

  lemma StopAccounts(stp: StpPolicy, o: NewOrder, opp: seq<Order>, remaining: int, tradeId: int)
    requires Positive(opp) && TakeTurn(stp, o, opp, remaining, tradeId).Stop?
    ensures Accounts(o, opp, remaining, TakeTurn(stp, o, opp, remaining, tradeId).m)
  {
  }

  lemma GoneAccounts(stp: StpPolicy, o: NewOrder, opp: seq<Order>, remaining: int, tradeId: int, m: MatchResult)
    requires Positive(opp) && TakeTurn(stp, o, opp, remaining, tradeId).Gone?
    requires Accounts(o, opp[1..], TakeTurn(stp, o, opp, remaining, tradeId).remaining, m)
    ensures var turn := TakeTurn(stp, o, opp, remaining, tradeId);
            Accounts(o, opp, remaining, Emit(turn.trades, turn.victims, m))
  {
    var turn := TakeTurn(stp, o, opp, remaining, tradeId);
    if turn.trades != [] {
      assert (turn.trades + m.trades)[1..] == m.trades;
      assert turn.victims + m.victims == m.victims;
    } else {
      assert (turn.victims + m.victims)[1..] == m.victims;
      assert turn.trades + m.trades == m.trades;
    }
  }

  lemma {:induction false} MatchAccounts(stp: StpPolicy, o: NewOrder, opp: seq<Order>, remaining: int, tradeId: int, m: MatchResult)
    requires Positive(opp) && m == Match(stp, o, opp, remaining, tradeId)
    ensures Accounts(o, opp, remaining, m)
    decreases |opp|
  {
    hide Accounts;
    match TakeTurn(stp, o, opp, remaining, tradeId)
    case Stop(_) =>
      StopAccounts(stp, o, opp, remaining, tradeId);
    case Gone(trades, victims, remaining') =>
      var m' := Match(stp, o, opp[1..], remaining', tradeId + |trades|);
      MatchAccounts(stp, o, opp[1..], remaining', tradeId + |trades|, m');
      GoneAccounts(stp, o, opp, remaining, tradeId, m');
  }

  // ---------------------------------------------------------------------------------------------
  // Price-time priority: trades and victims are the walked prefix, in order
  // ---------------------------------------------------------------------------------------------

  function Mine(s: seq<Order>, participant: int): seq<Order> {
    if s == [] then []
    else (if s[0].participant == participant then [s[0]] else []) + Mine(s[1..], participant)
  }

  function Others(s: seq<Order>, participant: int): seq<Order> {
    if s == [] then []
    else (if s[0].participant == participant then [] else [s[0]]) + Others(s[1..], participant)
  }

  // One trade per order, numbered on from `tradeId`, between the two orders, at the resting one's price, for all of it
  // except perhaps in the last.
  ghost predicate FillsOf(o: NewOrder, os: seq<Order>, tradeId: int, ts: seq<Trade>) {
    && |ts| == |os|
    && (forall i :: 0 <= i < |ts| ==>
          && ts[i].id == tradeId + i && ts[i].aggressorId == o.id && ts[i].passiveId == os[i].id
          && ts[i].price == os[i].price && ts[i].aggressorSide == o.side
          && 0 < ts[i].quantity <= os[i].remaining
          && (i < |ts| - 1 ==> ts[i].quantity == os[i].remaining))
  }

  ghost predicate Walked(o: NewOrder, opp: seq<Order>, tradeId: int, m: MatchResult) {
    var n := Reached(opp, m);
    && 0 <= n <= |opp|
    && (forall i :: 0 <= i < n ==> Crosses(o, opp[i].price))
    && m.victims == Mine(opp[..n], o.participant)
    && FillsOf(o, Others(opp[..n], o.participant), tradeId, m.trades)
  }

  lemma StopWalked(stp: StpPolicy, o: NewOrder, opp: seq<Order>, remaining: int, tradeId: int)
    requires Positive(opp) && TakeTurn(stp, o, opp, remaining, tradeId).Stop?
    ensures Walked(o, opp, tradeId, TakeTurn(stp, o, opp, remaining, tradeId).m)
  {
    var m := TakeTurn(stp, o, opp, remaining, tradeId).m;
    StopLeaves(stp, o, opp, remaining, tradeId);
    if Reached(opp, m) == 0 {
      assert opp[..0] == [];
    } else {
      assert opp[..1] == [opp[0]] && opp[..1][1..] == [];
      assert Others(opp[..1][1..], o.participant) == [] && Mine(opp[..1][1..], o.participant) == [];
    }
  }

  lemma FillsExtend(o: NewOrder, os: seq<Order>, tradeId: int, ts: seq<Trade>, top: Order, t: Trade)
    requires FillsOf(o, os, tradeId + 1, ts)
    requires t == TradeFor(o, top, t.quantity, tradeId) && 0 < t.quantity == top.remaining
    ensures FillsOf(o, [top] + os, tradeId, [t] + ts)
  {
  }

  lemma FilterCons(top: Order, s: seq<Order>, p: int)
    ensures Mine([top] + s, p) == if top.participant == p then [top] + Mine(s, p) else Mine(s, p)
    ensures Others([top] + s, p) == if top.participant == p then Others(s, p) else [top] + Others(s, p)
  {
    assert ([top] + s)[1..] == s;
  }

  lemma GoneFills(stp: StpPolicy, o: NewOrder, opp: seq<Order>, remaining: int, tradeId: int, m: MatchResult, n: nat)
    requires Positive(opp) && TakeTurn(stp, o, opp, remaining, tradeId).Gone? && n < |opp|
    requires m.victims == Mine(opp[1..][..n], o.participant)
    requires FillsOf(o, Others(opp[1..][..n], o.participant), tradeId + |TakeTurn(stp, o, opp, remaining, tradeId).trades|, m.trades)
    ensures var turn := TakeTurn(stp, o, opp, remaining, tradeId);
            && turn.victims + m.victims == Mine(opp[..n + 1], o.participant)
            && FillsOf(o, Others(opp[..n + 1], o.participant), tradeId, turn.trades + m.trades)
  {
    hide FillsOf, Mine, Others;
    var turn, s := TakeTurn(stp, o, opp, remaining, tradeId), opp[1..][..n];
    assert opp[..n + 1] == [opp[0]] + s;
    FilterCons(opp[0], s, o.participant);
    if turn.trades != [] {
      assert turn.victims + m.victims == m.victims;
      FillsExtend(o, Others(s, o.participant), tradeId, m.trades, opp[0], turn.trades[0]);
    } else {
      assert turn.trades + m.trades == m.trades;
    }
  }

  lemma GoneWalked(stp: StpPolicy, o: NewOrder, opp: seq<Order>, remaining: int, tradeId: int, m: MatchResult)
    requires Positive(opp) && TakeTurn(stp, o, opp, remaining, tradeId).Gone?
    requires Leftover(opp[1..], m.rest)
    requires Walked(o, opp[1..], tradeId + |TakeTurn(stp, o, opp, remaining, tradeId).trades|, m)
    ensures var turn := TakeTurn(stp, o, opp, remaining, tradeId);
            Walked(o, opp, tradeId, Emit(turn.trades, turn.victims, m))
  {
    var turn := TakeTurn(stp, o, opp, remaining, tradeId);
    var e, n, p := Emit(turn.trades, turn.victims, m), Reached(opp[1..], m), o.participant;
    LeftoverLonger(opp, m.rest);
    assert Reached(opp, e) == n + 1;
    GoneFills(stp, o, opp, remaining, tradeId, m, n);
    forall i | 0 <= i < n + 1 ensures Crosses(o, opp[i].price) {
      assert i > 0 ==> opp[i] == opp[1..][i - 1];
    }
  }

  /** Trades and victims are the walked prefix of the opposite side in priority order: every order of
      another participant trades once, at its own price and in full unless it is the last reached. */
  lemma {:induction false} MatchWalks(stp: StpPolicy, o: NewOrder, opp: seq<Order>, remaining: int, tradeId: int, m: MatchResult)
    requires Positive(opp) && m == Match(stp, o, opp, remaining, tradeId)
    ensures Walked(o, opp, tradeId, m)
    decreases |opp|
  {
    hide Walked;
    hide Leftover;
    match TakeTurn(stp, o, opp, remaining, tradeId)
    case Stop(_) =>
      StopWalked(stp, o, opp, remaining, tradeId);
    case Gone(trades, victims, remaining') =>
      var m' := Match(stp, o, opp[1..], remaining', tradeId + |trades|);
      MatchWalks(stp, o, opp[1..], remaining', tradeId + |trades|, m');
      MatchLeaves(stp, o, opp[1..], remaining', tradeId + |trades|, m');
      GoneWalked(stp, o, opp, remaining, tradeId, m');
  }

  // ---------------------------------------------------------------------------------------------
  // The fill-or-kill pre-scan
  // ---------------------------------------------------------------------------------------------

  lemma StopAvailable(stp: StpPolicy, o: NewOrder, opp: seq<Order>, remaining: int, tradeId: int)
    requires Positive(opp) && 0 < remaining <= o.quantity
    requires TakeTurn(stp, o, opp, remaining, tradeId).Stop?
    ensures Min(o.quantity, Available(stp, o, opp, o.quantity - remaining))
         == o.quantity - TakeTurn(stp, o, opp, remaining, tradeId).m.remaining
  {
  }

  /** The pre-scan is exact: what it promises, capped at the order's size, is what matching fills. */
  lemma {:induction false} AvailableIsFilled(stp: StpPolicy, o: NewOrder, opp: seq<Order>, remaining: int, tradeId: int, m: MatchResult)
    requires Positive(opp) && 0 < remaining <= o.quantity && m == Match(stp, o, opp, remaining, tradeId)
    ensures Min(o.quantity, Available(stp, o, opp, o.quantity - remaining)) == o.quantity - m.remaining
    decreases |opp|
  {
    match TakeTurn(stp, o, opp, remaining, tradeId)
    case Stop(_) =>
      StopAvailable(stp, o, opp, remaining, tradeId);
    case Gone(trades, victims, remaining') =>
      var m' := Match(stp, o, opp[1..], remaining', tradeId + |trades|);
      if remaining' > 0 {
        AvailableIsFilled(stp, o, opp[1..], remaining', tradeId + |trades|, m');
      }
  }
}
