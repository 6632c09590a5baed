/** What an order book computes, independent of how it stores it.  Each side is
    one priority list: best price first, and arrival order within a price. */
module BookSpec {
  import opened Types

  datatype Slot = Slot(price: Price, id: OrderId, sequence: Sequence, units: Quantity)

  datatype Execution = Execution(resting: OrderId, incoming: OrderId, price: Price, quantity: Quantity)

  datatype RejectReason = InvalidOrder | DuplicateOrderId | OrderNotFound

  /** The result of any command.  `executions` is empty for a cancel;
      `remaining` is the resting residual of a submit or a replace;
      `cancelled` is the quantity a cancel removed. */
  datatype Outcome = Outcome(executions: seq<Execution>, rejection: Option<RejectReason>,
                             remaining: Option<Quantity>, cancelled: Option<Quantity>)
  {
    predicate Accepted() { rejection.None? }
  }

  function Rejected(reason: RejectReason): Outcome {
    Outcome([], Some(reason), None, None)
  }

  datatype Book = Book(bids: seq<Slot>, asks: seq<Slot>, seen: set<OrderId>)
  {
    function On(s: Side): seq<Slot> { if s.Buy? then bids else asks }

    function With(s: Side, q: seq<Slot>): Book {
      if s.Buy? then this.(bids := q) else this.(asks := q)
    }
  }

  const EMPTY: Book := Book([], [], {})

  /** Price `p` is strictly ahead of `q` on side `s`. */
  predicate Better(s: Side, p: Price, q: Price) {
    if s.Buy? then p > q else p < q
  }

  /** A resting order at price `p` on side `s` may trade with an incoming order
      whose limit is `limit` (none for a market order). */
  predicate Crosses(s: Side, p: Price, limit: Option<Price>) {
    limit.None? || !Better(s, limit.value, p)
  }

  predicate Sorted(s: Side, q: seq<Slot>) {
    forall i, j :: 0 <= i < j < |q| ==> !Better(s, q[j].price, q[i].price)
  }

  /** The position of the first slot with this id, or the length if there is none. */
  function Index(q: seq<Slot>, id: OrderId): (i: nat)
    ensures i <= |q|
    ensures i < |q| ==> q[i].id == id
    ensures forall j :: 0 <= j < i ==> q[j].id != id
  {
    if q == [] || q[0].id == id then 0 else 1 + Index(q[1..], id)
  }

  predicate Has(q: seq<Slot>, id: OrderId) { Index(q, id) < |q| }

  predicate Rests(b: Book, id: OrderId) { Has(b.bids, id) || Has(b.asks, id) }

  function SideOf(b: Book, id: OrderId): Side { if Has(b.bids, id) then Buy else Sell }

  function RemoveAt<T>(q: seq<T>, i: nat): seq<T>
    requires i < |q|
  {
    q[..i] + q[i + 1..]
  }

  /** Where a new slot at `price` goes: behind every slot that is at least as good. */
  function InsertionPoint(s: Side, q: seq<Slot>, price: Price): (i: nat)
    ensures i <= |q|
    ensures forall j :: 0 <= j < i ==> !Better(s, price, q[j].price)
    ensures i < |q| ==> Better(s, price, q[i].price)
  {
    if q == [] || Better(s, price, q[0].price) then 0 else 1 + InsertionPoint(s, q[1..], price)
  }

  function Insert(s: Side, q: seq<Slot>, x: Slot): seq<Slot> {
    var i := InsertionPoint(s, q, x.price);
    q[..i] + [x] + q[i..]
  }

  datatype Swept = Swept(executions: seq<Execution>, rest: seq<Slot>, left: nat)

  /** Consume the priority list `q` of side `s` from the front. */
  function Sweep(s: Side, q: seq<Slot>, limit: Option<Price>, incoming: OrderId, units: nat): Swept
    requires units < TWO64
    decreases |q|
  {
    if units == 0 || q == [] || !Crosses(s, q[0].price, limit) then
      Swept([], q, units)
    else if units < q[0].units then
      Swept([Execution(q[0].id, incoming, q[0].price, units)], q[0 := q[0].(units := q[0].units - units)], 0)
    else
      var t := Sweep(s, q[1..], limit, incoming, units - q[0].units);
      Swept([Execution(q[0].id, incoming, q[0].price, q[0].units)] + t.executions, t.rest, t.left)
  }

  /** Match an incoming order on side `s`, then rest what is left of it if it has a limit. */
  function Enter(b: Book, s: Side, id: OrderId, sequence: Sequence, limit: Option<Price>, quantity: Quantity)
    : (Book, Outcome)
  {
    var c := s.Opposite();
    var t := Sweep(c, b.On(c), limit, id, quantity);
    SweepLeft(c, b.On(c), limit, id, quantity);
    var b' := b.With(c, t.rest);
    if limit.Some? && t.left > 0 then
      (b'.With(s, Insert(s, b.On(s), Slot(limit.value, id, sequence, t.left))),
       Outcome(t.executions, None, Some(t.left), None))
    else
      (b', Outcome(t.executions, None, None, None))
  }

  lemma {:induction false} SweepLeft(s: Side, q: seq<Slot>, limit: Option<Price>, incoming: OrderId, units: nat)
    requires units < TWO64
    ensures Sweep(s, q, limit, incoming, units).left <= units
    decreases |q|
  {
    if units == 0 || q == [] || !Crosses(s, q[0].price, limit) || units < q[0].units {
    } else {
      SweepLeft(s, q[1..], limit, incoming, units - q[0].units);
    }
  }

  function Submit(b: Book, o: NewOrder): (Book, Outcome) {
    if Validate(o).Some? then (b, Rejected(InvalidOrder))
    else if o.id in b.seen then (b, Rejected(DuplicateOrderId))
    else Enter(b.(seen := b.seen + {o.id}), o.side, o.id, o.sequence, o.limit, o.quantity)
  }

  function Remove(b: Book, id: OrderId): Book
    requires Rests(b, id)
  {
    var s := SideOf(b, id);
    b.With(s, RemoveAt(b.On(s), Index(b.On(s), id)))
  }

  function Find(b: Book, id: OrderId): Slot
    requires Rests(b, id)
  {
    var s := SideOf(b, id);
    b.On(s)[Index(b.On(s), id)]
  }

  function CancelId(b: Book, id: OrderId): (Book, Outcome) {
    if !Rests(b, id) then (b, Rejected(OrderNotFound))
    else (Remove(b, id), Outcome([], None, None, Some(Find(b, id).units)))
  }

  /** A replace keeps its place: the price is unchanged and the size does not grow. */
  predicate KeepsPlace(b: Book, r: ReplaceOrder)
    requires Rests(b, r.id)
  {
    r.price == Find(b, r.id).price && r.quantity <= Find(b, r.id).units
  }

  function ReplaceOne(b: Book, r: ReplaceOrder): (Book, Outcome) {
    if !Rests(b, r.id) then (b, Rejected(OrderNotFound))
    else
      var s := SideOf(b, r.id);
      var i := Index(b.On(s), r.id);
      if KeepsPlace(b, r) then
        (b.With(s, b.On(s)[i := b.On(s)[i].(units := r.quantity)]),
         Outcome([], None, Some(r.quantity), None))
      else
        Enter(Remove(b, r.id), s, r.id, r.sequence, Some(r.price), r.quantity)
  }

  function Apply(b: Book, c: Command): (Book, Outcome) {
    match c
    case New(o) => Submit(b, o)
    case Cancel(k) => CancelId(b, k.id)
    case Replace(r) => ReplaceOne(b, r)
  }

  /** The book after a run of commands. */
  function Run(b: Book, cs: seq<Command>): Book
    decreases |cs|
  {
    if cs == [] then b else Run(Apply(b, cs[0]).0, cs[1..])
  }

  /** What a run of commands answers, in order. */
  function Outcomes(b: Book, cs: seq<Command>): seq<Outcome>
    decreases |cs|
  {
    if cs == [] then [] else [Apply(b, cs[0]).1] + Outcomes(Apply(b, cs[0]).0, cs[1..])
  }

  // ----- depth -----

  datatype LevelQuote = LevelQuote(price: Price, units: U64, orders: nat)

  /** The slots resting at one price, in priority order. */
  function At(q: seq<Slot>, p: Price): seq<Slot> {
    if q == [] then [] else (if q[0].price == p then [q[0]] else []) + At(q[1..], p)
  }

  function Units(q: seq<Slot>): nat {
    if q == [] then 0 else q[0].units + Units(q[1..])
  }

  /** The distinct prices of a priority list, best first. */
  function Prices(q: seq<Slot>): seq<Price> {
    if q == [] then []
    else if |q| > 1 && q[1].price == q[0].price then Prices(q[1..])
    else [q[0].price] + Prices(q[1..])
  }

  /** The aggregate of one price level; the total is a 64-bit sum. */
  function Quote(q: seq<Slot>, p: Price): LevelQuote {
    LevelQuote(p, Wrap(Units(At(q, p))), |At(q, p)|)
  }

  /** The best `limit` levels of a priority list. */
  function Depth(q: seq<Slot>, limit: nat): seq<LevelQuote> {
    var ps := Prices(q);
    seq(if limit < |ps| then limit else |ps|, i requires 0 <= i < |ps| => Quote(q, ps[i]))
  }

  /** The best level, if there is one. */
  function TopOf(q: seq<Slot>): Option<LevelQuote> {
    var d := Depth(q, 1);
    if d == [] then None else Some(d[0])
  }

  /** A depth copied into `n` slots, the unused ones empty. */
  function Padded(d: seq<LevelQuote>, n: nat): seq<Option<LevelQuote>> {
    seq(n, i requires 0 <= i < n => if i < |d| then Some(d[i]) else None)
  }
}
