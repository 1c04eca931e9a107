/** Plain records of the order book: sides, order slots, price levels, events. */
module Types {

  /** Sentinel for "no index" in slab and level links (`u32::MAX`). */
  const NONE: nat := 0xFFFF_FFFF

  const U32_MODULUS: nat := 0x1_0000_0000
  const I64_MAX: int := 0x7FFF_FFFF_FFFF_FFFF

  const MAX_EVENTS: nat := 65_536
  const MAX_MAKERS_PER_ORDER: nat := (MAX_EVENTS - 4) / 2

  datatype Option<+T> = None | Some(value: T)

  datatype Side = Buy | Sell
  {
    function Opposite(): Side {
      if this == Buy then Sell else Buy
    }
  }

  datatype TimeInForce = GTC | IOC | FOK

  datatype OrderId = OrderId(hi: nat, lo: nat)

  /** A slab slot. The one `next` field links freelists and level queues. */
  datatype OrderSlot = OrderSlot(
    price: int, remaining: int, original: int, side: Side, tif: TimeInForce,
    active: bool, reduceOnly: bool, next: nat, prev: nat, tick: nat,
    user: nat, sequence: nat, id: OrderId)

  const DEFAULT_SLOT: OrderSlot :=
    OrderSlot(0, 0, 0, Buy, GTC, false, false, NONE, NONE, 0, 0, 0, OrderId(0, 0))

  datatype PriceLevel = PriceLevel(
    head: nat, tail: nat, totalQty: int, orderCount: nat, bidCount: nat, askCount: nat)

  const DEFAULT_LEVEL: PriceLevel := PriceLevel(NONE, NONE, 0, 0, 0, 0)

  datatype BookConfig = BookConfig(tickSize: int, lotSize: int)

  datatype BookState = Normal | Migrating

  datatype IncomingOrder = IncomingOrder(
    price: int, qty: int, remaining: int, side: Side, tif: TimeInForce,
    user: nat, reduceOnly: bool, postOnly: bool, id: OrderId)

  datatype DoneReason = Filled | UserCancel | Expired | PostOnly | MatchLimit

  datatype FailureReason = InvalidTick | ReduceOnly | FillOrKill | Duplicate | InvalidLot

  datatype Event =
    | Fill(maker: nat, makerUser: nat, takerUser: nat, price: int, qty: int, side: Side,
           makerId: OrderId, takerId: OrderId)
    | OrderInserted(handle: nat, user: nat, side: Side, price: int, qty: int, id: OrderId)
    | OrderDone(handle: nat, user: nat, reason: DoneReason, filled: int, remaining: int, id: OrderId)
    | OrderFailed(user: nat, failure: FailureReason, id: OrderId)
    | Bbo(bidPx: int, bidQty: int, askPx: int, askQty: int)
}
