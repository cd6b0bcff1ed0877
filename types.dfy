/** Values shared by the matching engine, the admission gate and the public order book. */
module Types {

  datatype Option<T> = None | Some(value: T)

  /** An abstract instant. The engine only stores it; the clock is the caller's. */
  type Time = nat

  /** The JSON values a trade request carries (booleans, null and arrays are folded into JOther). */
  datatype Json =
    | JStr(str: string)
    | JNum(num: real)
    | JObj(fields: map<string, Json>)
    | JOther

  /** One row of the Order table. `filled == None` is the resting state that the
      source marks with the date 0001-01-01; `counterpartyId` is the order it was
      filled against and `creatorId` the parent of a residual child order. */
  datatype Order = Order(
    id: nat,
    senderPk: string,
    receiverPk: string,
    buyCurrency: string,
    sellCurrency: string,
    buyAmount: real,
    sellAmount: real,
    signature: Option<string>,
    filled: Option<Time>,
    counterpartyId: Option<nat>,
    creatorId: Option<nat>)

  /** The columns of an order before it is stored: an admitted payload or a residual child. */
  datatype Draft = Draft(
    senderPk: string,
    receiverPk: string,
    buyCurrency: string,
    sellCurrency: string,
    buyAmount: real,
    sellAmount: real,
    signature: Option<string>,
    creatorId: Option<nat>)
}
