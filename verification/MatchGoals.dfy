/** What matching leads to from a given point: the loop of the book keeps this unchanged, turn by turn. */
module MatchGoals {
  import opened Types
  import opened Matcher
  import opened Grid
  import opened SlotMatcher

  // The opposite side and its tracked price, the own side, what is left of the order, and the logs.
  datatype Goal = Goal(rest: seq<Order>, best: int, own: seq<Order>, remaining: int, outcome: Outcome, nextTradeId: int,
                       trades: seq<Trade>, victims: Option<seq<Order>>)

  // Where `r` leads from the given counters and logs; with no victim buffer, victims are not recorded.
  ghost function Target(r: SlotResult, own: seq<Order>, tradeId: int, trades: seq<Trade>, victims: Option<seq<Order>>): Goal {
    Goal(r.m.rest, r.best, own, r.m.remaining, r.m.outcome, tradeId + |r.m.trades|,
         trades + r.m.trades, if victims.None? then None else Some(victims.value + r.m.victims))
  }

  // Matching is over, with nothing more to report.
  function Over(rest: seq<Order>, best: int, remaining: int, outcome: Outcome): SlotResult {
    SlotResult(MatchResult(rest, remaining, [], [], outcome), best)
  }

  lemma TargetEmit(ts: seq<Trade>, vs: seq<Order>, r: SlotResult, own: seq<Order>, tradeId: int,
                   trades: seq<Trade>, victims: Option<seq<Order>>)
    ensures Target(SlotEmit(ts, vs, r), own, tradeId, trades, victims)
         == Target(r, own, tradeId + |ts|, trades + ts, if victims.None? then None else Some(victims.value + vs))
  {
    assert trades + (ts + r.m.trades) == trades + ts + r.m.trades;
    if victims.Some? {
      assert victims.value + (vs + r.m.victims) == victims.value + vs + r.m.victims;
    }
  }

  // Matching can go on at the level of the tracked price.
  predicate Ongoing(cfg: Config, o: NewOrder, opp: seq<Order>, best: int, remaining: int) {
    cfg.tick > 0 && remaining > 0 && best != EmptySentinel(Opposite(o.side)) && Crosses(o, best)
  }

  lemma LastFill(cfg: Config, o: NewOrder, opp: seq<Order>, best: int, tradeId: int)
    requires cfg.tick > 0
    ensures SlotMatch(cfg, o, opp, best, 0, tradeId) == Over(opp, best, 0, Exhausted)
  {
  }

  // What the first order becomes when it is filled: gone, or smaller and in its place.
  function AfterFill(opp: seq<Order>, quantity: int): seq<Order>
    requires opp != []
  {
    var top := opp[0];
    if top.remaining == quantity then opp[1..] else [top.(remaining := top.remaining - quantity)] + opp[1..]
  }

  // A trade with the first order, and matching on from there, lead to the same end.
  lemma TradeGoal(cfg: Config, o: NewOrder, opp: seq<Order>, best: int, own: seq<Order>, remaining: int, tradeId: int,
                  trades: seq<Trade>, victims: Option<seq<Order>>)
    requires Ongoing(cfg, o, opp, best, remaining) && Here(cfg, opp, best) && opp[0].participant != o.participant
    ensures var q := Min(remaining, opp[0].remaining);
      var opp' := AfterFill(opp, q);
      var best' := BestAfter(cfg, Opposite(o.side), opp', best);
      Target(SlotMatch(cfg, o, opp, best, remaining, tradeId), own, tradeId, trades, victims)
      == Target(SlotMatch(cfg, o, opp', best', remaining - q, tradeId + 1), own, tradeId + 1,
                trades + [TradeFor(o, opp[0], q, tradeId)], victims)
  {
    hide Target, BestAfter;
    var top := opp[0];
    var q := Min(remaining, top.remaining);
    var opp' := AfterFill(opp, q);
    var best' := BestAfter(cfg, Opposite(o.side), opp', best);
    var t := TradeFor(o, top, q, tradeId);
    TargetEmit([t], [], SlotMatch(cfg, o, opp', best', remaining - q, tradeId + 1), own, tradeId, trades, victims);
    assert victims.Some? ==> victims.value + [] == victims.value;
    if top.remaining != q {
      StillHere(cfg, Opposite(o.side), opp, best, q);
      LastFill(cfg, o, opp', best', tradeId + 1);
      var none: seq<Order> := [];
      assert [t] + [] == [t] && none + none == none;
      assert SlotMatch(cfg, o, opp, best, remaining, tradeId) == SlotEmit([t], [], Over(opp', best, 0, Exhausted));
    }
  }

  // A partly filled order keeps its level.
  lemma StillHere(cfg: Config, side: Side, opp: seq<Order>, best: int, q: int)
    requires cfg.tick > 0 && Here(cfg, opp, best) && opp[0].remaining != q
    ensures BestAfter(cfg, side, AfterFill(opp, q), best) == best
  {
  }

  // Likewise when the first order is the participant's own.
  lemma SelfGoal(cfg: Config, o: NewOrder, opp: seq<Order>, best: int, own: seq<Order>, remaining: int, tradeId: int,
                 trades: seq<Trade>, victims: Option<seq<Order>>)
    requires Ongoing(cfg, o, opp, best, remaining) && Here(cfg, opp, best) && opp[0].participant == o.participant
    ensures var vlog := if victims.None? then None else Some(victims.value + [opp[0]]);
      var best' := BestAfter(cfg, Opposite(o.side), opp[1..], best);
      Target(SlotMatch(cfg, o, opp, best, remaining, tradeId), own, tradeId, trades, victims) ==
        match cfg.stp
        case CancelPassive => Target(SlotMatch(cfg, o, opp[1..], best', remaining, tradeId), own, tradeId, trades, vlog)
        case CancelBoth => Target(Over(opp[1..], best', remaining, StpFired), own, tradeId, trades, vlog)
        case CancelAggressor => Target(Over(opp, best, remaining, StpFired), own, tradeId, trades, victims)
  {
    hide Target, BestAfter;
    var best' := BestAfter(cfg, Opposite(o.side), opp[1..], best);
    TargetEmit([], [opp[0]], SlotMatch(cfg, o, opp[1..], best', remaining, tradeId), own, tradeId, trades, victims);
    TargetEmit([], [opp[0]], Over(opp[1..], best', remaining, StpFired), own, tradeId, trades, victims);
    assert trades + [] == trades;
    assert [opp[0]] + [] == [opp[0]];
  }

  lemma BestHere(cfg: Config, side: Side, opp: seq<Order>, best: int)
    requires cfg.tick > 0 && Here(cfg, opp, best)
    ensures BestAfter(cfg, side, opp, best) == best
  {
  }

  // The level of the tracked price has no orders: matching goes on at the next.
  lemma StaleGoal(cfg: Config, o: NewOrder, opp: seq<Order>, best: int, remaining: int, tradeId: int)
    requires Ongoing(cfg, o, opp, best, remaining)
    ensures SlotMatch(cfg, o, opp, best, remaining, tradeId)
         == SlotMatch(cfg, o, opp, BestAfter(cfg, Opposite(o.side), opp, best), remaining, tradeId)
  {
  }
}
