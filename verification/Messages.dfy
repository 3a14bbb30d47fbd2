/** A decoded ITCH 5.0 message: one fixed struct for every type, with the fields
    that a type does not use left zero. */
module Messages {
  import opened Prelude
  import opened Levels

  type byte = b: int | 0 <= b < 256
  type U16 = n: int | 0 <= n < 0x1_0000
  type U64 = n: int | 0 <= n < TWO64

  datatype MsgType = Unknown | SystemEvent | StockDirectory | AddOrder | AddOrderMpid | OrderExecuted
                   | OrderExecutedWithPrice | OrderCancel | OrderDelete | OrderReplace | Trade | CrossTrade

  /** Side bytes. The decoder passes any byte through. */
  const BUY: byte := 66
  const SELL: byte := 83
  const NO_SIDE: byte := 0

  const BLANK_STOCK: seq<byte> := [0, 0, 0, 0, 0, 0, 0, 0]

  datatype Message = Message(
    typ: MsgType,
    locate: U16,
    timestamp: U64,
    ref: U64,
    newRef: U64,
    matchNumber: U64,
    side: byte,
    shares: Qty,
    price: Price,
    stock: seq<byte>,
    eventCode: byte)

  const BLANK: Message := Message(Unknown, 0, 0, 0, 0, 0, NO_SIDE, 0, 0, BLANK_STOCK, 0)
}
