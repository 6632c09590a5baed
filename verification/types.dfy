/** Domain values shared by every component: 64-bit unsigned quantities and
    identifiers that are never zero, positive signed prices, and the three
    commands. */
module Types {
  const TWO63: int := 0x8000_0000_0000_0000
  const TWO64: int := 0x1_0000_0000_0000_0000

  type Price = ticks: int | 0 < ticks < TWO63 witness 1
  type Quantity = units: int | 0 < units < TWO64 witness 1
  type OrderId = value: int | 0 < value < TWO64 witness 1
  type Sequence = value: int | 0 < value < TWO64 witness 1
  type U64 = value: int | 0 <= value < TWO64 witness 0

  datatype Option<+T> = None | Some(value: T)

  datatype Side = Buy | Sell
  {
    function Opposite(): Side { if Buy? then Sell else Buy }
  }

  datatype OrderType = Limit | Market

  datatype NewOrder = NewOrder(sequence: Sequence, id: OrderId, side: Side, kind: OrderType,
                               quantity: Quantity, limit: Option<Price>)
  datatype CancelOrder = CancelOrder(sequence: Sequence, id: OrderId)
  datatype ReplaceOrder = ReplaceOrder(sequence: Sequence, id: OrderId, quantity: Quantity, price: Price)

  datatype ValidationError = LimitOrderMissingPrice | MarketOrderHasPrice

  function Validate(order: NewOrder): Option<ValidationError> {
    if order.kind.Limit? && order.limit.None? then Some(LimitOrderMissingPrice)
    else if order.kind.Market? && order.limit.Some? then Some(MarketOrderHasPrice)
    else None
  }

  datatype Command = New(order: NewOrder) | Cancel(cancel: CancelOrder) | Replace(replace: ReplaceOrder)
  {
    function Sequence(): Sequence {
      match this
      case New(o) => o.sequence
      case Cancel(c) => c.sequence
      case Replace(r) => r.sequence
    }

    function Id(): OrderId {
      match this
      case New(o) => o.id
      case Cancel(c) => c.id
      case Replace(r) => r.id
    }
  }

  /** Unsigned 64-bit arithmetic: results are reduced modulo 2^64. */
  function Wrap(x: int): U64 { x % TWO64 }

  lemma WrapAdd(x: int, d: int)
    ensures Wrap(Wrap(x) + d) == Wrap(x + d)
  {
  }

  lemma WrapDifference(x: int, y: int)
    ensures Wrap(Wrap(x) - Wrap(y)) == Wrap(x - y)
    ensures Wrap(x) == Wrap(y) <==> Wrap(x - y) == 0
  {
    var a, b := x / TWO64, y / TWO64;
    assert x == TWO64 * a + Wrap(x) && y == TWO64 * b + Wrap(y);
    assert x - y == TWO64 * (a - b) + (Wrap(x) - Wrap(y));
  }
}
