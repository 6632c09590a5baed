/** The flat reference book: one vector of resting orders, searched from end to
    end for the best candidate, with ties broken by sequence number. */
module ReferenceSpec {
  import opened Types
  import opened BookSpec

  datatype RefOrder = RefOrder(id: OrderId, sequence: Sequence, side: Side, price: Price, units: Quantity)

  datatype RefBook = RefBook(resting: seq<RefOrder>, seen: seq<OrderId>)

  const NO_ORDERS: RefBook := RefBook([], [])

  predicate Candidate(o: RefOrder, side: Side, limit: Option<Price>) {
    o.side != side && Crosses(o.side, o.price, limit)
  }

  /** `o` is to be preferred to the best candidate found so far. */
  predicate Precedes(o: RefOrder, best: RefOrder) {
    Better(o.side, o.price, best.price) || (o.price == best.price && o.sequence < best.sequence)
  }

  /** The scan after looking at the first `n` orders. */
  function BestIndex(v: seq<RefOrder>, side: Side, limit: Option<Price>, n: nat): (best: Option<nat>)
    requires n <= |v|
    ensures best.Some? ==> best.value < n && Candidate(v[best.value], side, limit)
  {
    if n == 0 then None
    else
      var best := BestIndex(v, side, limit, n - 1);
      if Candidate(v[n - 1], side, limit) && (best.None? || Precedes(v[n - 1], v[best.value])) then Some(n - 1) else best
  }

  datatype FlatSwept = FlatSwept(executions: seq<Execution>, resting: seq<RefOrder>, left: nat)

  function FlatMatch(v: seq<RefOrder>, side: Side, limit: Option<Price>, incoming: OrderId, units: nat): (t: FlatSwept)
    requires units < TWO64
    ensures t.left <= units
    decreases |v|
  {
    var best := BestIndex(v, side, limit, |v|);
    if units == 0 || best.None? then FlatSwept([], v, units)
    else
      var i, o := best.value, v[best.value];
      if units < o.units then
        FlatSwept([Execution(o.id, incoming, o.price, units)], v[i := o.(units := o.units - units)], 0)
      else
        var t := FlatMatch(RemoveAt(v, i), side, limit, incoming, units - o.units);
        FlatSwept([Execution(o.id, incoming, o.price, o.units)] + t.executions, t.resting, t.left)
  }

  /** The position of an order id in the vector, or the length if it is not there. */
  function Lookup(v: seq<RefOrder>, id: OrderId): (i: nat)
    ensures i <= |v|
    ensures i < |v| ==> v[i].id == id
    ensures forall j :: 0 <= j < i ==> v[j].id != id
  {
    if v == [] || v[0].id == id then 0 else 1 + Lookup(v[1..], id)
  }

  function FlatEnter(b: RefBook, side: Side, id: OrderId, sequence: Sequence, limit: Option<Price>, quantity: Quantity)
    : (RefBook, Outcome)
  {
    var t := FlatMatch(b.resting, side, limit, id, quantity);
    if limit.Some? && t.left > 0 then
      (b.(resting := t.resting + [RefOrder(id, sequence, side, limit.value, t.left)]),
       Outcome(t.executions, None, Some(t.left), None))
    else
      (b.(resting := t.resting), Outcome(t.executions, None, None, None))
  }

  function FlatApply(b: RefBook, c: Command): (RefBook, Outcome) {
    match c
    case New(o) =>
      if Validate(o).Some? then (b, Rejected(InvalidOrder))
      else if o.id in b.seen then (b, Rejected(DuplicateOrderId))
      else FlatEnter(b.(seen := b.seen + [o.id]), o.side, o.id, o.sequence, o.limit, o.quantity)
    case Cancel(k) =>
      var i := Lookup(b.resting, k.id);
      if i == |b.resting| then (b, Rejected(OrderNotFound))
      else (b.(resting := RemoveAt(b.resting, i)), Outcome([], None, None, Some(b.resting[i].units)))
    case Replace(r) =>
      var i := Lookup(b.resting, r.id);
      if i == |b.resting| then (b, Rejected(OrderNotFound))
      else
        var o := b.resting[i];
        if r.price == o.price && r.quantity <= o.units then
          (b.(resting := b.resting[i := o.(units := r.quantity)]), Outcome([], None, Some(r.quantity), None))
        else
          FlatEnter(b.(resting := RemoveAt(b.resting, i)), o.side, r.id, r.sequence, Some(r.price), r.quantity)
  }

  // ----- observations -----

  function FlatBest(v: seq<RefOrder>, s: Side): Option<Price> {
    if v == [] then None
    else
      var best := FlatBest(v[..|v| - 1], s);
      var o := v[|v| - 1];
      if o.side == s && (best.None? || Better(s, o.price, best.value)) then Some(o.price) else best
  }

  /** Add one order to the ordered map of level aggregates. */
  function Tally(s: Side, levels: seq<LevelQuote>, price: Price, units: Quantity): seq<LevelQuote> {
    if levels == [] || Better(s, price, levels[0].price) then [LevelQuote(price, Wrap(0 + units), 1)] + levels
    else if levels[0].price == price then
      [LevelQuote(price, Wrap(levels[0].units + units), levels[0].orders + 1)] + levels[1..]
    else [levels[0]] + Tally(s, levels[1..], price, units)
  }

  function FlatLevels(v: seq<RefOrder>, s: Side): seq<LevelQuote> {
    if v == [] then []
    else
      var levels := FlatLevels(v[..|v| - 1], s);
      var o := v[|v| - 1];
      if o.side == s then Tally(s, levels, o.price, o.units) else levels
  }

  function FlatDepth(v: seq<RefOrder>, s: Side, limit: nat): seq<LevelQuote> {
    var levels := FlatLevels(v, s);
    if limit < |levels| then levels[..limit] else levels
  }

  /** The scan that adds up one level: total units, modulo 2^64, and number of orders. */
  function FlatAggregate(v: seq<RefOrder>, s: Side, p: Price): LevelQuote {
    if v == [] then LevelQuote(p, 0, 0)
    else
      var level := FlatAggregate(v[..|v| - 1], s, p);
      var o := v[|v| - 1];
      if o.side == s && o.price == p then LevelQuote(p, Wrap(level.units + o.units), level.orders + 1) else level
  }

  /** A best-price scan, then the scan of that level. */
  function FlatTop(v: seq<RefOrder>, s: Side): Option<LevelQuote> {
    var best := FlatBest(v, s);
    if best.None? then None else Some(FlatAggregate(v, s, best.value))
  }

  // ----- runs -----

  function FlatRun(b: RefBook, cs: seq<Command>): RefBook
    decreases |cs|
  {
    if cs == [] then b else FlatRun(FlatApply(b, cs[0]).0, cs[1..])
  }

  function FlatOutcomes(b: RefBook, cs: seq<Command>): seq<Outcome>
    decreases |cs|
  {
    if cs == [] then [] else [FlatApply(b, cs[0]).1] + FlatOutcomes(FlatApply(b, cs[0]).0, cs[1..])
  }
}
