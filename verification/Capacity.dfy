/** How many trades and removals a command will produce, told from the book before it is dispatched. */
module Capacity {
  import opened Types
  import opened Matcher
  import opened MatcherLaws
  import opened BookLaws
  import opened Verdicts

  // The fixed buffers hold everything the command produces.
  predicate Fits(cfg: Config, b: Book, c: Command, cap: nat) {
    |Step(cfg, b, c).trades| <= cap && |Step(cfg, b, c).victims| <= cap
  }

  // The order gets as far as the k-th opposite order: it crosses that far, it is larger than what others offer up to
  // there, and no self-trade stops it before.
  ghost predicate Reaches(stp: StpPolicy, o: NewOrder, opp: seq<Order>, quantity: int, k: int) {
    && 0 <= k < |opp|
    && (forall i :: 0 <= i <= k ==> Crosses(o, opp[i].price))
    && SumRemaining(Others(opp[..k], o.participant)) < quantity
    && (stp.CancelPassive? || Mine(opp[..k], o.participant) == [])
  }

  // Every order reached finds its buffer not yet full: an order of another participant the trades', one of the same
  // participant the removals', unless the policy is to leave that one alone.
  ghost predicate Room(stp: StpPolicy, o: NewOrder, opp: seq<Order>, quantity: int, trades: nat, victims: nat) {
    forall k :: Reaches(stp, o, opp, quantity, k) ==> FindsRoom(stp, o, opp, k, trades, victims)
  }

  ghost predicate FindsRoom(stp: StpPolicy, o: NewOrder, opp: seq<Order>, k: int, trades: nat, victims: nat) {
    && 0 <= k < |opp|
    && if opp[k].participant == o.participant then stp.CancelAggressor? || |Mine(opp[..k], o.participant)| < victims
       else |Others(opp[..k], o.participant)| < trades
  }

  /** What a caller checks before dispatching a command. */
  ghost predicate HasRoom(cfg: Config, b: Book, c: Command, cap: nat) {
    match c
    case New(o) => SubmitRoom(cfg, b, o, cap)
    case Cancel(_) => true
    case Replace(oldId, amended) =>
      ReplaceRefusal(cfg, b, oldId, amended).Ok? ==> SubmitRoom(cfg, RemoveResting(b, oldId), amended, cap)
  }

  ghost predicate SubmitRoom(cfg: Config, b: Book, o: NewOrder, cap: nat) {
    Refusal(cfg, b, o).Ok? ==> Room(cfg.stp, o, SideOf(b, Opposite(o.side)), o.quantity, cap, cap)
  }

  // ---------------------------------------------------------------------------------------------
  // The check is exact
  // ---------------------------------------------------------------------------------------------

  lemma FiltersCons(opp: seq<Order>, k: int, p: int)
    requires opp != [] && 0 <= k < |opp|
    ensures opp[..k + 1] == [opp[0]] + opp[1..][..k]
    ensures Mine(opp[..k + 1], p) == (if opp[0].participant == p then [opp[0]] else []) + Mine(opp[1..][..k], p)
    ensures Others(opp[..k + 1], p) == (if opp[0].participant == p then [] else [opp[0]]) + Others(opp[1..][..k], p)
  {
    assert opp[..k + 1] == [opp[0]] + opp[1..][..k];
    FilterCons(opp[0], opp[1..][..k], p);
  }

  // Getting past the first order is getting to the next from what is left.
  lemma ReachesOn(stp: StpPolicy, o: NewOrder, opp: seq<Order>, quantity: int, k: int)
    requires opp != [] && 0 <= k < |opp| - 1 && Crosses(o, opp[0].price)
    ensures Reaches(stp, o, opp, quantity, k + 1) <==>
      if opp[0].participant == o.participant then stp.CancelPassive? && Reaches(stp, o, opp[1..], quantity, k)
      else Reaches(stp, o, opp[1..], quantity - opp[0].remaining, k)
  {
    hide Mine, Others;
    var rest, p := opp[1..], o.participant;
    FiltersCons(opp, k, p);
    assert forall i :: 1 <= i <= k + 1 ==> opp[i] == rest[i - 1];
    assert (forall i :: 0 <= i <= k + 1 ==> Crosses(o, opp[i].price)) <==> (forall i :: 0 <= i <= k ==> Crosses(o, rest[i].price)) by {
      if forall i :: 0 <= i <= k + 1 ==> Crosses(o, opp[i].price) {
        forall i | 0 <= i <= k ensures Crosses(o, rest[i].price) {
          assert opp[i + 1] == rest[i];
        }
      }
    }
    if opp[0].participant != p {
      assert ([opp[0]] + Others(rest[..k], p))[1..] == Others(rest[..k], p);
    } else {
      assert [] + Others(rest[..k], p) == Others(rest[..k], p);
    }
  }

  lemma ReachesFirst(stp: StpPolicy, o: NewOrder, opp: seq<Order>, quantity: int)
    requires opp != []
    ensures Reaches(stp, o, opp, quantity, 0) <==> Crosses(o, opp[0].price) && quantity > 0
  {
    assert opp[..0] == [];
  }

  // What the first order, once passed, leaves of the room.
  lemma RoomOn(stp: StpPolicy, o: NewOrder, opp: seq<Order>, quantity: int, trades: nat, victims: nat)
    requires opp != [] && quantity > 0 && Crosses(o, opp[0].price)
    requires opp[0].participant == o.participant ==> stp.CancelPassive?
    ensures Room(stp, o, opp, quantity, trades, victims) <==>
      if opp[0].participant == o.participant then victims > 0 && Room(stp, o, opp[1..], quantity, trades, victims - 1)
      else trades > 0 && Room(stp, o, opp[1..], quantity - opp[0].remaining, trades - 1, victims)
  {
    hide Mine, Others, Reaches;
    var rest, mine := opp[1..], opp[0].participant == o.participant;
    ReachesFirst(stp, o, opp, quantity);
    assert opp[..0] == [] && |Mine(opp[..0], o.participant)| == 0 == |Others(opp[..0], o.participant)| by { NoneFiltered(o.participant); }
    var q, t, v := if mine then quantity else quantity - opp[0].remaining, if mine then trades else trades - 1,
      if mine then victims - 1 else victims;
    if t >= 0 && v >= 0 {
      if Room(stp, o, rest, q, t, v) {
        forall k | Reaches(stp, o, opp, quantity, k) ensures FindsRoom(stp, o, opp, k, trades, victims) {
          ReachesWithin(stp, o, opp, quantity, k);
          if k > 0 {
            ReachesOn(stp, o, opp, quantity, k - 1);
            FiltersCons(opp, k - 1, o.participant);
            assert opp[k] == rest[k - 1];
          }
        }
      }
      if Room(stp, o, opp, quantity, trades, victims) {
        forall k | Reaches(stp, o, rest, q, k) ensures FindsRoom(stp, o, rest, k, t, v) {
          ReachesWithin(stp, o, rest, q, k);
          ReachesOn(stp, o, opp, quantity, k);
          FiltersCons(opp, k, o.participant);
          assert opp[k + 1] == rest[k];
        }
      }
    }
  }

  lemma NoneFiltered(p: int)
    ensures Mine([], p) == [] && Others([], p) == []
  {
  }

  lemma ReachesWithin(stp: StpPolicy, o: NewOrder, opp: seq<Order>, quantity: int, k: int)
    requires Reaches(stp, o, opp, quantity, k)
    ensures 0 <= k < |opp|
  {
  }

  // Nothing lies behind an order that ends the matching.
  lemma RoomStops(stp: StpPolicy, o: NewOrder, opp: seq<Order>, quantity: int, tradeId: int, trades: nat, victims: nat)
    requires Positive(opp) && TakeTurn(stp, o, opp, quantity, tradeId).Stop?
    ensures var m := TakeTurn(stp, o, opp, quantity, tradeId).m;
      |m.trades| <= trades && |m.victims| <= victims <==> Room(stp, o, opp, quantity, trades, victims)
  {
    hide Mine, Others, Reaches;
    if opp == [] || quantity <= 0 || !Crosses(o, opp[0].price) {
      forall k ensures !Reaches(stp, o, opp, quantity, k) {
        NotReached(stp, o, opp, quantity, k);
      }
    } else {
      ReachesFirst(stp, o, opp, quantity);
      assert opp[..0] == [] && |Mine(opp[..0], o.participant)| == 0 == |Others(opp[..0], o.participant)| by { NoneFiltered(o.participant); }
      forall k | k != 0 ensures !Reaches(stp, o, opp, quantity, k) {
        BehindStop(stp, o, opp, quantity, k);
      }
    }
  }

  lemma NotReached(stp: StpPolicy, o: NewOrder, opp: seq<Order>, quantity: int, k: int)
    requires Positive(opp) && (opp == [] || quantity <= 0 || !Crosses(o, opp[0].price))
    ensures !Reaches(stp, o, opp, quantity, k)
  {
    if 0 <= k < |opp| {
      OffersPositive(opp[..k], o.participant);
    }
  }

  lemma {:induction false} OffersPositive(s: seq<Order>, p: int)
    requires Positive(s)
    ensures SumRemaining(Others(s, p)) >= 0
  {
    if s != [] {
      OffersPositive(s[1..], p);
      assert Others(s, p)[if s[0].participant == p then 0 else 1..] == Others(s[1..], p);
    }
  }

  lemma BehindStop(stp: StpPolicy, o: NewOrder, opp: seq<Order>, quantity: int, k: int)
    requires Positive(opp) && opp != [] && quantity > 0 && Crosses(o, opp[0].price) && k != 0
    requires if opp[0].participant == o.participant then !stp.CancelPassive? else opp[0].remaining > quantity
    ensures !Reaches(stp, o, opp, quantity, k)
  {
    hide Mine, Others;
    if 0 < k < |opp| {
      ReachesOn(stp, o, opp, quantity, k - 1);
      OffersPositive(opp[1..][..k - 1], o.participant);
    }
  }

  /** Matching produces no more trades and removals than the buffers hold exactly when every order it will reach finds
      room. */
  lemma {:induction false} RoomIsEnough(stp: StpPolicy, o: NewOrder, opp: seq<Order>, quantity: int, tradeId: int,
                                        trades: nat, victims: nat, m: MatchResult)
    requires Positive(opp) && m == Match(stp, o, opp, quantity, tradeId)
    ensures |m.trades| <= trades && |m.victims| <= victims <==> Room(stp, o, opp, quantity, trades, victims)
    decreases |opp|
  {
    hide Room;
    match TakeTurn(stp, o, opp, quantity, tradeId)
    case Stop(_) =>
      RoomStops(stp, o, opp, quantity, tradeId, trades, victims);
    case Gone(ts, vs, quantity') =>
      RoomOn(stp, o, opp, quantity, trades, victims);
      var m' := Match(stp, o, opp[1..], quantity', tradeId + |ts|);
      if trades >= |ts| && victims >= |vs| {
        RoomIsEnough(stp, o, opp[1..], quantity', tradeId + |ts|, trades - |ts|, victims - |vs|, m');
      }
  }

  lemma SubmitFitsIff(cfg: Config, b: Book, o: NewOrder, cap: nat)
    requires BookInv(cfg, b)
    ensures |Submit(cfg, b, o).trades| <= cap && |Submit(cfg, b, o).victims| <= cap <==> SubmitRoom(cfg, b, o, cap)
  {
    hide Match, SideOk, Available, Insert, Room, Refusal;
    var opp := SideOf(b, Opposite(o.side));
    SideOkPositive(cfg, Opposite(o.side), b.lastArrival, opp);
    RoomIsEnough(cfg.stp, o, opp, o.quantity, b.nextTradeId, cap, cap, Match(cfg.stp, o, opp, o.quantity, b.nextTradeId));
  }

  /** The buffers suffice for a command exactly when the book beforehand says so. */
  lemma FitsIff(cfg: Config, b: Book, c: Command, cap: nat)
    requires BookInv(cfg, b)
    ensures Fits(cfg, b, c, cap) <==> HasRoom(cfg, b, c, cap)
  {
    hide Submit, BookInv, SubmitRoom, ReplaceRefusal, RemoveResting, RestingOrder;
    match c
    case New(o) =>
      SubmitFitsIff(cfg, b, o, cap);
    case Cancel(id) =>
    case Replace(oldId, amended) =>
      if ReplaceRefusal(cfg, b, oldId, amended).Ok? {
        CancelKeeps(cfg, b, oldId);
        ReplaceCancels(cfg, b, oldId, amended);
        SubmitFitsIff(cfg, RemoveResting(b, oldId), amended, cap);
      }
  }

  lemma ReplaceCancels(cfg: Config, b: Book, oldId: int, amended: NewOrder)
    requires ReplaceRefusal(cfg, b, oldId, amended).Ok?
    ensures CancelOrder(b, oldId).book == RemoveResting(b, oldId)
  {
  }

  // ---------------------------------------------------------------------------------------------
  // An overflow from an empty book
  // ---------------------------------------------------------------------------------------------

  // `n` offers of one unit each, and a bid for all of them.
  function Offers(cfg: Config, n: nat): seq<Command> {
    seq(n, i => New(NewOrder(i, cfg.minPrice, 1, 1, Sell, Limit)))
  }

  function Sweep(cfg: Config, n: nat): NewOrder {
    NewOrder(n, cfg.minPrice, n, 2, Buy, Limit)
  }

  function OfferQueue(cfg: Config, n: nat): seq<Order> {
    seq(n, i => Order(i, cfg.minPrice, 1, 1, 1, i + 1, Sell))
  }

  lemma {:induction false} InsertBehind(s: seq<Order>, x: Order)
    requires forall i :: 0 <= i < |s| ==> s[i].price == x.price
    ensures Insert(s, x) == s + [x]
  {
    if s != [] {
      InsertBehind(s[1..], x);
    }
  }

  lemma {:induction false} OffersRest(cfg: Config, n: nat)
    requires ValidConfig(cfg) && n <= cfg.maxOrders
    ensures Run(cfg, EmptyBook, Offers(cfg, n)) == Book([], OfferQueue(cfg, n), n, 0)
  {
    if n == 0 {
      assert Offers(cfg, 0) == [] && OfferQueue(cfg, 0) == [];
    } else {
      OffersRest(cfg, n - 1);
      var cs, b, s := Offers(cfg, n), Book([], OfferQueue(cfg, n - 1), n - 1, 0), OfferQueue(cfg, n - 1);
      assert cs[..n - 1] == Offers(cfg, n - 1);
      var x := Order(n - 1, cfg.minPrice, 1, 1, 1, n, Sell);
      assert Find(b.asks, n - 1) == -1 && Find(b.bids, n - 1) == -1;
      InsertBehind(s, x);
      assert s + [x] == OfferQueue(cfg, n);
    }
  }

  lemma {:induction false} AllOthers(s: seq<Order>, p: int)
    requires forall i :: 0 <= i < |s| ==> s[i].participant != p && s[i].remaining == 1
    ensures Others(s, p) == s && Mine(s, p) == [] && SumRemaining(s) == |s|
  {
    if s != [] {
      AllOthers(s[1..], p);
    }
  }

  ghost predicate AllGrid(cfg: Config, cs: seq<Command>)
    requires cfg.tick > 0
  {
    forall i :: 0 <= i < |cs| ==> GridCommand(cfg, cs[i])
  }

  lemma SweepReaches(cfg: Config, cap: nat)
    ensures var o, s := Sweep(cfg, cap + 1), OfferQueue(cfg, cap + 1);
      Reaches(cfg.stp, o, s, cap + 1, cap) && !FindsRoom(cfg.stp, o, s, cap, cap, cap)
  {
    var s := OfferQueue(cfg, cap + 1);
    AllOthers(s[..cap], 2);
  }

  lemma SweepAccepted(cfg: Config, n: nat)
    requires ValidConfig(cfg) && n > 0
    ensures Refusal(cfg, Book([], OfferQueue(cfg, n), n, 0), Sweep(cfg, n)).Ok?
  {
    hide Available;
    assert Find(OfferQueue(cfg, n), n) == -1;
  }

  /** Valid commands overflow a buffer of any capacity below the book's own: as many one-unit offers as it holds and
      one more, and a bid that takes them all. */
  lemma OverflowHappens(cfg: Config, cap: nat)
    requires ValidConfig(cfg) && cap < cfg.maxOrders
    ensures AllGrid(cfg, Offers(cfg, cap + 1)) && GridOrder(cfg, Sweep(cfg, cap + 1))
    ensures !HasRoom(cfg, Run(cfg, EmptyBook, Offers(cfg, cap + 1)), New(Sweep(cfg, cap + 1)), cap)
  {
    hide Reaches, FindsRoom, Run, OfferQueue, Refusal;
    OffersRest(cfg, cap + 1);
    SweepReaches(cfg, cap);
    SweepAccepted(cfg, cap + 1);
  }
}
