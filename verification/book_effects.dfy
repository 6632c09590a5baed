/** What a command does, said without the functions that do it: prices within limits, reasons
    for refusals, the fate of every single order, and the order of the two sides. */
module BookEffects {
  import opened Types
  import opened BookSpec
  import opened BookInvariant
  import opened BookPriority

  // ----- limits -----

  /** No buyer pays more than the limit and no seller gets less. */
  predicate WithinLimit(taker: Side, price: Price, limit: Price) {
    if taker.Buy? then price <= limit else price >= limit
  }

  lemma SweptWithin(s: Side, q: seq<Slot>, limit: Price, incoming: OrderId, units: nat)
    requires units < TWO64
    ensures forall e :: e in Sweep(s, q, Some(limit), incoming, units).executions ==> WithinLimit(s.Opposite(), e.price, limit)
  {
    SweepShape(s, q, Some(limit), incoming, units);
  }

  /** Every execution of a limit order or a replace is at its limit or better. */
  lemma LimitsAreKept(b: Book, c: Command)
    ensures var es := Apply(b, c).1.executions;
            match c
            case New(o) => o.limit.Some? ==> forall e :: e in es ==> WithinLimit(o.side, e.price, o.limit.value)
            case Cancel(_) => es == []
            case Replace(r) => forall e :: e in es ==> WithinLimit(SideOf(b, r.id), e.price, r.price)
  {
    match c
    case New(o) =>
      if o.limit.Some? {
        NewExecutions(b, o);
        SweptWithin(o.side.Opposite(), b.On(o.side.Opposite()), o.limit.value, o.id, o.quantity);
      }
    case Cancel(_) =>
    case Replace(r) =>
      var s := SideOf(b, r.id).Opposite();
      ReplaceExecutions(b, r);
      SweptWithin(s, b.On(s), r.price, r.id, r.quantity);
  }

  /** Every execution names the command's own order as the incoming one. */
  lemma ExecutionsNameTheTaker(b: Book, c: Command)
    ensures forall e :: e in Apply(b, c).1.executions ==> e.incoming == c.Id()
  {
    match c
    case New(o) =>
      var s := o.side.Opposite();
      NewExecutions(b, o);
      SweepShape(s, b.On(s), o.limit, o.id, o.quantity);
    case Cancel(_) =>
    case Replace(r) =>
      var s := SideOf(b, r.id).Opposite();
      ReplaceExecutions(b, r);
      SweepShape(s, b.On(s), Some(r.price), r.id, r.quantity);
  }

  // ----- refusals -----

  /** Why a command is refused, if it is. */
  lemma RefusalsAreExact(b: Book, c: Command)
    ensures Apply(b, c).1.rejection ==
            match c
            case New(o) =>
              if (o.kind.Limit? && o.limit.None?) || (o.kind.Market? && o.limit.Some?) then Some(InvalidOrder)
              else if o.id in b.seen then Some(DuplicateOrderId)
              else None
            case Cancel(k) => if Rests(b, k.id) then None else Some(OrderNotFound)
            case Replace(r) => if Rests(b, r.id) then None else Some(OrderNotFound)
  {
  }

  predicate AcceptedNew(b: Book, cs: seq<Command>, i: nat, id: OrderId)
    requires i < |cs| == |Outcomes(b, cs)|
  {
    cs[i].New? && cs[i].Id() == id && Outcomes(b, cs)[i].Accepted()
  }

  lemma {:induction false} OutcomeCount(b: Book, cs: seq<Command>)
    ensures |Outcomes(b, cs)| == |cs|
    decreases |cs|
  {
    if cs != [] { OutcomeCount(Apply(b, cs[0]).0, cs[1..]); }
  }

  lemma SeenStep(b: Book, c: Command)
    ensures Apply(b, c).0.seen == if c.New? && Apply(b, c).1.Accepted() then b.seen + {c.Id()} else b.seen
  {
  }

  lemma {:induction false} SeenAfter(b: Book, cs: seq<Command>, id: OrderId)
    ensures |Outcomes(b, cs)| == |cs|
    ensures id in Run(b, cs).seen <==> id in b.seen || exists i :: 0 <= i < |cs| && AcceptedNew(b, cs, i, id)
    decreases |cs|
  {
    OutcomeCount(b, cs);
    if cs != [] {
      var b', rest := Apply(b, cs[0]).0, cs[1..];
      SeenStep(b, cs[0]);
      SeenAfter(b', rest, id);
      assert forall i :: 0 <= i < |rest| ==> cs[i + 1] == rest[i] && Outcomes(b, cs)[i + 1] == Outcomes(b', rest)[i];
      if i :| 0 <= i < |rest| && AcceptedNew(b', rest, i, id) { assert AcceptedNew(b, cs, i + 1, id); }
      if i :| 0 <= i < |cs| && AcceptedNew(b, cs, i, id) {
        if i > 0 { assert AcceptedNew(b', rest, i - 1, id); }
      }
      if cs[0].New? && cs[0].Id() == id && Apply(b, cs[0]).1.Accepted() { assert AcceptedNew(b, cs, 0, id); }
    }
  }

  /** An id is known exactly if an order with it was accepted before, resting or not. */
  lemma SeenIsExact(cs: seq<Command>, id: OrderId)
    ensures |Outcomes(EMPTY, cs)| == |cs|
    ensures id in Run(EMPTY, cs).seen <==> exists i :: 0 <= i < |cs| && AcceptedNew(EMPTY, cs, i, id)
  {
    SeenAfter(EMPTY, cs, id);
  }

  // ----- the fate of each order -----

  /** The slot resting under an id on one side. */
  function HeldOn(q: seq<Slot>, id: OrderId): Option<Slot> {
    if Has(q, id) then Some(q[Index(q, id)]) else None
  }

  /** The slot resting under an id, and its side. */
  function Held(b: Book, id: OrderId): Option<(Side, Slot)> {
    if Has(b.bids, id) then Some((Buy, b.bids[Index(b.bids, id)]))
    else if Has(b.asks, id) then Some((Sell, b.asks[Index(b.asks, id)]))
    else None
  }

  /** How many units of the resting order `id` the executions took. */
  function Took(es: seq<Execution>, id: OrderId): nat {
    if es == [] then 0 else (if es[0].resting == id then es[0].quantity else 0) + Took(es[1..], id)
  }

  /** An order that lost `n` units: the rest of it, in place, or nothing. */
  function Reduced(x: Option<Slot>, n: nat): Option<Slot> {
    if x.None? || n == 0 then x
    else if n < x.value.units then Some(x.value.(units := x.value.units - n))
    else None
  }

  lemma HeldCons(x: Slot, q: seq<Slot>, id: OrderId)
    ensures HeldOn([x] + q, id) == if x.id == id then Some(x) else HeldOn(q, id)
  {
    assert ([x] + q)[1..] == q;
  }

  lemma {:induction false} HeldConcat(a: seq<Slot>, b: seq<Slot>, id: OrderId)
    ensures HeldOn(a + b, id) == if Has(a, id) then HeldOn(a, id) else HeldOn(b, id)
    decreases |a|
  {
    if a == [] {
      assert a + b == b;
    } else {
      assert a == [a[0]] + a[1..] && a + b == [a[0]] + (a[1..] + b);
      HeldCons(a[0], a[1..], id);
      HeldCons(a[0], a[1..] + b, id);
      HeldConcat(a[1..], b, id);
    }
  }

  lemma HeldMiddle(a: seq<Slot>, x: Slot, b: seq<Slot>, id: OrderId)
    ensures HeldOn(a + [x] + b, id) == if Has(a, id) then HeldOn(a, id) else if x.id == id then Some(x) else HeldOn(b, id)
  {
    assert a + [x] + b == a + ([x] + b);
    HeldConcat(a, [x] + b, id);
    HeldCons(x, b, id);
  }

  lemma HeldAdded(a: seq<Slot>, x: Slot, b: seq<Slot>, id: OrderId)
    requires !Has(a + b, x.id)
    ensures HeldOn(a + [x] + b, id) == if id == x.id then Some(x) else HeldOn(a + b, id)
  {
    HeldMiddle(a, x, b, id);
    HeldConcat(a, b, id);
  }

  lemma HeldDropped(a: seq<Slot>, x: Slot, b: seq<Slot>, id: OrderId)
    requires !Has(a, x.id) && !Has(b, x.id)
    ensures HeldOn(a + b, id) == if id == x.id then None else HeldOn(a + [x] + b, id)
  {
    HeldMiddle(a, x, b, id);
    HeldConcat(a, b, id);
  }

  lemma HeldReplaced(a: seq<Slot>, x: Slot, y: Slot, b: seq<Slot>, id: OrderId)
    requires x.id == y.id && !Has(a, x.id)
    ensures HeldOn(a + [y] + b, id) == if id == x.id then Some(y) else HeldOn(a + [x] + b, id)
  {
    HeldMiddle(a, x, b, id);
    HeldMiddle(a, y, b, id);
  }

  lemma SplitAt(q: seq<Slot>, i: nat, x: Slot)
    requires i < |q|
    ensures q == q[..i] + [q[i]] + q[i + 1..] && q[i := x] == q[..i] + [x] + q[i + 1..]
  {
  }

  lemma AbsentElsewhere(q: seq<Slot>, i: nat)
    requires Distinct(q) && i < |q|
    ensures !Has(q[..i], q[i].id) && !Has(q[i + 1..], q[i].id)
  {
    Absent(q[..i], q[i].id);
    Absent(q[i + 1..], q[i].id);
  }

  lemma HeldInserted(s: Side, q: seq<Slot>, x: Slot, id: OrderId)
    requires !Has(q, x.id)
    ensures HeldOn(Insert(s, q, x), id) == if id == x.id then Some(x) else HeldOn(q, id)
  {
    var i := InsertionPoint(s, q, x.price);
    assert q == q[..i] + q[i..];
    HeldAdded(q[..i], x, q[i..], id);
  }

  lemma HeldRemoved(q: seq<Slot>, i: nat, id: OrderId)
    requires Distinct(q) && i < |q|
    ensures HeldOn(RemoveAt(q, i), id) == if id == q[i].id then None else HeldOn(q, id)
  {
    SplitAt(q, i, q[i]);
    AbsentElsewhere(q, i);
    HeldDropped(q[..i], q[i], q[i + 1..], id);
  }

  lemma HeldResized(q: seq<Slot>, i: nat, units: Quantity, id: OrderId)
    requires Distinct(q) && i < |q|
    ensures HeldOn(q[i := q[i].(units := units)], id) == if id == q[i].id then Some(q[i].(units := units)) else HeldOn(q, id)
  {
    var x := q[i].(units := units);
    SplitAt(q, i, x);
    AbsentElsewhere(q, i);
    HeldReplaced(q[..i], q[i], x, q[i + 1..], id);
  }

  lemma TookNone(es: seq<Execution>, id: OrderId)
    requires forall e :: e in es ==> e.resting != id
    ensures Took(es, id) == 0
  {
    if es != [] {
      assert es[0] in es && forall e :: e in es[1..] ==> e in es;
      TookNone(es[1..], id);
    }
  }

  lemma {:induction false} SweptIds(s: Side, q: seq<Slot>, limit: Option<Price>, incoming: OrderId, units: nat, id: OrderId)
    requires units < TWO64 && !Has(q, id)
    ensures Took(Sweep(s, q, limit, incoming, units).executions, id) == 0
    decreases |q|
  {
    var t := Sweep(s, q, limit, incoming, units);
    SweepShape(s, q, limit, incoming, units);
    forall e | e in t.executions ensures e.resting != id {
      var k :| 0 <= k < |t.executions| && t.executions[k] == e;
      ShapeAt(s, q, limit, incoming, t, k);
    }
    TookNone(t.executions, id);
  }

  lemma Absent(q: seq<Slot>, id: OrderId)
    requires forall j :: 0 <= j < |q| ==> q[j].id != id
    ensures !Has(q, id)
  {
  }

  /** A sweep takes from each order what the executions say, and touches nothing else. */
  lemma {:induction false} HeldSwept(s: Side, q: seq<Slot>, limit: Option<Price>, incoming: OrderId, units: nat, id: OrderId)
    requires units < TWO64 && Distinct(q)
    ensures var t := Sweep(s, q, limit, incoming, units);
            HeldOn(t.rest, id) == Reduced(HeldOn(q, id), Took(t.executions, id))
    decreases |q|
  {
    if units == 0 || q == [] || !Crosses(s, q[0].price, limit) {
    } else if units < q[0].units {
      HeldPart(s, q, limit, incoming, units, id);
    } else {
      HeldSwept(s, q[1..], limit, incoming, units - q[0].units, id);
      HeldWhole(s, q, limit, incoming, units, id);
    }
  }

  lemma HeldPart(s: Side, q: seq<Slot>, limit: Option<Price>, incoming: OrderId, units: nat, id: OrderId)
    requires 0 < units < TWO64 && q != [] && Crosses(s, q[0].price, limit) && units < q[0].units
    ensures var t := Sweep(s, q, limit, incoming, units);
            HeldOn(t.rest, id) == Reduced(HeldOn(q, id), Took(t.executions, id))
  {
    var t, x := Sweep(s, q, limit, incoming, units), q[0].(units := q[0].units - units);
    assert q == [q[0]] + q[1..] && t.rest == [x] + q[1..];
    HeldCons(q[0], q[1..], id);
    HeldCons(x, q[1..], id);
    assert t.executions[1..] == [];
  }

  lemma HeldWhole(s: Side, q: seq<Slot>, limit: Option<Price>, incoming: OrderId, units: nat, id: OrderId)
    requires units < TWO64 && q != [] && Distinct(q) && Crosses(s, q[0].price, limit) && q[0].units <= units
    requires var u := Sweep(s, q[1..], limit, incoming, units - q[0].units);
             HeldOn(u.rest, id) == Reduced(HeldOn(q[1..], id), Took(u.executions, id))
    ensures var t := Sweep(s, q, limit, incoming, units);
            HeldOn(t.rest, id) == Reduced(HeldOn(q, id), Took(t.executions, id))
  {
    var t, u := Sweep(s, q, limit, incoming, units), Sweep(s, q[1..], limit, incoming, units - q[0].units);
    assert q == [q[0]] + q[1..];
    HeldCons(q[0], q[1..], id);
    assert t.executions[1..] == u.executions && t.rest == u.rest;
    if id == q[0].id {
      Absent(q[1..], id);
      SweptIds(s, q[1..], limit, incoming, units - q[0].units, id);
    }
  }

  // ----- the fate of each order in the whole book -----

  function ReducedAt(x: Option<(Side, Slot)>, n: nat): Option<(Side, Slot)> {
    match x
    case None => None
    case Some((s, y)) => (match Reduced(Some(y), n) case None => None case Some(z) => Some((s, z)))
  }

  /** Where an id is held, side by side. */
  lemma HeldSides(b: Book, s: Side, id: OrderId)
    requires Wf(b)
    ensures HeldOn(b.On(s), id).Some? ==>
              Held(b, id) == Some((s, HeldOn(b.On(s), id).value)) && HeldOn(b.On(s.Opposite()), id).None?
    ensures HeldOn(b.On(s.Opposite()), id).Some? ==> Held(b, id) == Some((s.Opposite(), HeldOn(b.On(s.Opposite()), id).value))
    ensures HeldOn(b.On(s), id).None? && HeldOn(b.On(s.Opposite()), id).None? ==> Held(b, id) == None
    ensures Held(b, id).Some? <==> Rests(b, id)
  {
    assert Apart(b.bids, b.asks);
  }

  lemma EnterEffect(b: Book, s: Side, x: OrderId, sequence: Sequence, limit: Option<Price>, quantity: Quantity, id: OrderId)
    requires Wf(b) && x in b.seen && !Rests(b, x)
    ensures var (b', r) := Enter(b, s, x, sequence, limit, quantity);
            && Wf(b')
            && (id != x ==> Held(b', id) == ReducedAt(Held(b, id), Took(r.executions, id)))
            && Held(b', x) == if r.remaining.Some? && limit.Some? then Some((s, Slot(limit.value, x, sequence, r.remaining.value))) else None
  {
    EnterKeeps(b, s, x, sequence, limit, quantity);
    EnterSides(b, s, x, sequence, limit, quantity, id);
    EnterSides(b, s, x, sequence, limit, quantity, x);
    var b' := Enter(b, s, x, sequence, limit, quantity).0;
    HeldSides(b, s, id);
    HeldSides(b', s, id);
    HeldSides(b, s, x);
    HeldSides(b', s, x);
  }

  lemma EnterSides(b: Book, s: Side, x: OrderId, sequence: Sequence, limit: Option<Price>, quantity: Quantity, id: OrderId)
    requires Wf(b) && !Rests(b, x)
    ensures var (b', r) := Enter(b, s, x, sequence, limit, quantity);
            var c := s.Opposite();
            && HeldOn(b'.On(c), id) == Reduced(HeldOn(b.On(c), id), Took(r.executions, id))
            && (HeldOn(b.On(c), id).None? ==> Took(r.executions, id) == 0)
            && HeldOn(b'.On(s), id) ==
               if id != x then HeldOn(b.On(s), id)
               else if r.remaining.Some? && limit.Some? then Some(Slot(limit.value, x, sequence, r.remaining.value)) else None
  {
    var c := s.Opposite();
    var t := Sweep(c, b.On(c), limit, x, quantity);
    SweepLeft(c, b.On(c), limit, x, quantity);
    HeldSwept(c, b.On(c), limit, x, quantity, id);
    if !Has(b.On(c), id) { SweptIds(c, b.On(c), limit, x, quantity, id); }
    if limit.Some? && t.left > 0 { HeldInserted(s, b.On(s), Slot(limit.value, x, sequence, t.left), id); }
  }

  lemma RemoveEffect(b: Book, x: OrderId, id: OrderId)
    requires Wf(b) && Rests(b, x)
    ensures Wf(Remove(b, x)) && !Rests(Remove(b, x), x) && Remove(b, x).seen == b.seen
    ensures Held(b, x) == Some((SideOf(b, x), Find(b, x)))
    ensures Held(Remove(b, x), id) == if id == x then None else Held(b, id)
  {
    var s := SideOf(b, x);
    RemoveKeeps(b, x);
    HeldRemoved(b.On(s), Index(b.On(s), x), id);
    HeldSides(b, s, id);
    HeldSides(b, s, x);
    HeldSides(Remove(b, x), s, id);
  }

  lemma ResizeEffect(b: Book, r: ReplaceOrder, id: OrderId)
    requires Wf(b) && Rests(b, r.id) && KeepsPlace(b, r)
    ensures Held(ReplaceOne(b, r).0, id) ==
            if id == r.id then Some((SideOf(b, r.id), Find(b, r.id).(units := r.quantity))) else Held(b, id)
  {
    var s, b' := SideOf(b, r.id), ReplaceOne(b, r).0;
    ReduceKeeps(b, r);
    HeldResized(b.On(s), Index(b.On(s), r.id), r.quantity, id);
    HeldSides(b, s, id);
    HeldSides(b', s, id);
  }

  /** Every order a command is not about loses exactly what the answer's executions took from it,
      keeps side, price, sequence and place in the book, and goes when nothing is left. */
  lemma OthersOnlyTrade(b: Book, c: Command, id: OrderId)
    requires Wf(b) && id != c.Id()
    ensures var (b', r) := Apply(b, c);
            Held(b', id) == ReducedAt(Held(b, id), Took(r.executions, id))
  {
    if !Apply(b, c).1.Accepted() {
      RejectedChangesNothing(b, c);
      QuietRefusal(b, c);
    } else {
      match c
      case New(o) =>
        NewIdKeeps(b, o.id);
        EnterEffect(b.(seen := b.seen + {o.id}), o.side, o.id, o.sequence, o.limit, o.quantity, id);
      case Cancel(k) => RemoveEffect(b, k.id, id);
      case Replace(r) =>
        if KeepsPlace(b, r) {
          ResizeEffect(b, r, id);
        } else {
          RestingIsSeen(b, r.id);
          RemoveEffect(b, r.id, id);
          EnterEffect(Remove(b, r.id), SideOf(b, r.id), r.id, r.sequence, Some(r.price), r.quantity, id);
        }
    }
  }

  lemma QuietRefusal(b: Book, c: Command)
    ensures !Apply(b, c).1.Accepted() ==> Apply(b, c).1.executions == []
  {
  }

  /** What an accepted command leaves of the order it is about. */
  lemma NewRestsAsAsked(b: Book, o: NewOrder)
    requires Wf(b) && Apply(b, New(o)).1.Accepted()
    ensures var (b', r) := Apply(b, New(o));
            && Held(b, o.id) == None
            && Held(b', o.id) == if r.remaining.Some? && o.limit.Some?
                                 then Some((o.side, Slot(o.limit.value, o.id, o.sequence, r.remaining.value))) else None
  {
    NewIdKeeps(b, o.id);
    HeldSides(b, Buy, o.id);
    EnterEffect(b.(seen := b.seen + {o.id}), o.side, o.id, o.sequence, o.limit, o.quantity, o.id);
  }

  lemma CancelRemoves(b: Book, k: CancelOrder)
    requires Wf(b) && Apply(b, Cancel(k)).1.Accepted()
    ensures var (b', r) := Apply(b, Cancel(k));
            Held(b, k.id).Some? && r.cancelled == Some(Held(b, k.id).value.1.units) && Held(b', k.id) == None
  {
    RemoveEffect(b, k.id, k.id);
  }

  /** In place, with its old sequence number, exactly if the price is unchanged and the size does
      not grow; otherwise as a new arrival with the residual. */
  lemma ReplaceRestsAsAsked(b: Book, r: ReplaceOrder)
    requires Wf(b) && Apply(b, Replace(r)).1.Accepted()
    ensures var (b', o) := Apply(b, Replace(r));
            && Held(b, r.id).Some?
            && var (s, x) := Held(b, r.id).value;
               if r.price == x.price && r.quantity <= x.units then
                 o.executions == [] && o.remaining == Some(r.quantity) && Held(b', r.id) == Some((s, x.(units := r.quantity)))
               else
                 Held(b', r.id) == if o.remaining.Some? then Some((s, Slot(r.price, r.id, r.sequence, o.remaining.value))) else None
  {
    RestingIsSeen(b, r.id);
    RemoveEffect(b, r.id, r.id);
    if KeepsPlace(b, r) {
      ResizeEffect(b, r, r.id);
    } else {
      EnterEffect(Remove(b, r.id), SideOf(b, r.id), r.id, r.sequence, Some(r.price), r.quantity, r.id);
    }
  }

  // ----- the order of the two sides -----

  /** In every reachable book bids fall, asks rise, and every bid is below every ask. */
  lemma SidesAreOrdered(cs: seq<Command>)
    ensures var b := Run(EMPTY, cs);
            && (forall i, j :: 0 <= i < j < |b.bids| ==> b.bids[i].price >= b.bids[j].price)
            && (forall i, j :: 0 <= i < j < |b.asks| ==> b.asks[i].price <= b.asks[j].price)
            && (forall i, j :: 0 <= i < |b.bids| && 0 <= j < |b.asks| ==> b.bids[i].price < b.asks[j].price)
  {
    RunKeeps(EMPTY, cs);
    var b := Run(EMPTY, cs);
    assert Sorted(Buy, b.On(Buy)) && Sorted(Sell, b.On(Sell));
    SidesApart(b);
  }

  lemma SidesApart(b: Book)
    requires Sorted(Buy, b.bids) && Sorted(Sell, b.asks) && Uncrossed(b)
    ensures forall i, j :: 0 <= i < |b.bids| && 0 <= j < |b.asks| ==> b.bids[i].price < b.asks[j].price
  {
    forall i, j | 0 <= i < |b.bids| && 0 <= j < |b.asks| ensures b.bids[i].price < b.asks[j].price {
      assert b.bids[i].price <= b.bids[0].price && b.asks[0].price <= b.asks[j].price;
    }
  }
}
