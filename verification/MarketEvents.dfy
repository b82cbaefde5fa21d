/** The decoded feed event that every component passes around, with the machine widths its fields have. */
module MarketEvents {

  const TWO_32: nat := 0x1_0000_0000
  const TWO_64: nat := 0x1_0000_0000_0000_0000

  type u32 = x: int | 0 <= x < TWO_32
  type u64 = x: int | 0 <= x < TWO_64
  type byte = x: int | 0 <= x < 256

  datatype Option<T> = None | Some(value: T)

  datatype Side = NoSide | Buy | Sell

  datatype EventType =
    | Unknown
    | Add
    | Cancel
    | Delete
    | Execute
    | ExecuteWithPrice
    | Replace
    | Trade
    | SystemEvent
    | L2SetLevel
    | L2EventHeader

  datatype MarketEvent = MarketEvent(
    kind: EventType,
    timestampNs: u64,
    orderRef: u64,
    newOrderRef: u64,
    matchNumber: u64,
    priceTicks: int,
    size: u32,
    stockLocate: nat,
    side: Side,
    symbol: seq<byte>)

  // The all-default event that the parser starts from.
  const CLEAN_EVENT: MarketEvent := MarketEvent(Unknown, 0, 0, 0, 0, 0, 0, 0, NoSide, [0, 0, 0, 0, 0, 0, 0, 0])
}
