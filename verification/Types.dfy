/** Orders, trades, commands and results, as plain values. */
module Types {

  datatype Option<T> = None | Some(value: T)

  datatype Side = Buy | Sell

  datatype OrderType = Limit | Market | Ioc | Fok

  datatype StpPolicy = CancelAggressor | CancelPassive | CancelBoth

  datatype SubmitStatus =
    | Ok
    | RejectedPriceOutOfRange
    | RejectedInvalidQuantity
    | RejectedDuplicateId
    | RejectedPoolExhausted
    | RejectedUnknownOrder
    | RejectedMarketIntoEmptyBook
    | RejectedFokUnfillable
    | CancelledBySelfTradePrevention
    | CancelledResidual

  // A resting order. `arrival` is the book's own counter value, which is its time priority.
  datatype Order = Order(
    id: int, price: int, quantity: int, remaining: int, participant: int, arrival: int, side: Side)

  datatype NewOrder = NewOrder(
    id: int, price: int, quantity: int, participant: int, side: Side, kind: OrderType)

  datatype Trade = Trade(
    id: int, aggressorId: int, passiveId: int, price: int, quantity: int, aggressorSide: Side)

  datatype OrderResult = OrderResult(
    status: SubmitStatus, filled: int, remaining: int, rested: bool,
    price: int, quantity: int, participant: int, arrival: int, side: Side)

  datatype Config = Config(minPrice: int, maxPrice: int, tick: int, maxOrders: nat, stp: StpPolicy)

  datatype Command =
    | New(order: NewOrder)
    | Cancel(id: int)
    | Replace(oldId: int, amended: NewOrder)

  // The best prices of an empty side: the ends of the 64-bit range.
  const BID_EMPTY := -0x8000_0000_0000_0000
  const ASK_EMPTY := 0x7FFF_FFFF_FFFF_FFFF

  function Opposite(s: Side): Side {
    if s.Buy? then Sell else Buy
  }

  function EmptySentinel(s: Side): int {
    if s.Buy? then BID_EMPTY else ASK_EMPTY
  }

  // Strictly better for orders resting on side `s`.
  predicate Better(s: Side, a: int, b: int) {
    if s.Buy? then a > b else a < b
  }

  predicate Crosses(o: NewOrder, restingPrice: int) {
    o.kind.Market? || (if o.side.Buy? then o.price >= restingPrice else o.price <= restingPrice)
  }

  predicate InRange(cfg: Config, p: int) {
    cfg.minPrice <= p <= cfg.maxPrice
  }

  // A configuration whose prices leave room for the empty-side sentinels.
  predicate ValidConfig(cfg: Config) {
    BID_EMPTY < cfg.minPrice <= cfg.maxPrice < ASK_EMPTY && cfg.tick > 0
  }

  // The price lies on the tick grid, which the level array takes for granted.
  predicate OnGrid(cfg: Config, p: int)
    requires cfg.tick > 0
  {
    (p - cfg.minPrice) % cfg.tick == 0
  }

  // Only an order that may rest has to name a price of the grid.
  predicate GridOrder(cfg: Config, o: NewOrder)
    requires cfg.tick > 0
  {
    o.kind.Limit? && InRange(cfg, o.price) ==> OnGrid(cfg, o.price)
  }

  predicate GridCommand(cfg: Config, c: Command)
    requires cfg.tick > 0
  {
    match c
    case New(o) => GridOrder(cfg, o)
    case Cancel(_) => true
    case Replace(_, o) => GridOrder(cfg, o)
  }
}
