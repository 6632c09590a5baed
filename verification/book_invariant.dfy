/** The shape of a sweep, and the invariant that every reachable book satisfies. */
module BookInvariant {
  import opened Types
  import opened BookSpec

  predicate Distinct(q: seq<Slot>) {
    forall i, j :: 0 <= i < j < |q| ==> q[i].id != q[j].id
  }

  predicate Apart(p: seq<Slot>, q: seq<Slot>) {
    forall i, j :: 0 <= i < |p| && 0 <= j < |q| ==> p[i].id != q[j].id
  }

  predicate Known(q: seq<Slot>, seen: set<OrderId>) {
    forall i :: 0 <= i < |q| ==> q[i].id in seen
  }

  predicate Uncrossed(b: Book) {
    b.bids != [] && b.asks != [] ==> b.bids[0].price < b.asks[0].price
  }

  predicate Wf(b: Book) {
    && (forall s :: Sorted(s, b.On(s)) && Distinct(b.On(s)) && Known(b.On(s), b.seen))
    && Apart(b.bids, b.asks)
    && Uncrossed(b)
  }

  // ----- sweeping -----

  function Traded(es: seq<Execution>): nat {
    if es == [] then 0 else es[0].quantity + Traded(es[1..])
  }

  /** How many slots a sweep consumed entirely. */
  function Consumed(q: seq<Slot>, t: Swept): int { |q| - |t.rest| }

  predicate FillsWhole(e: Execution, x: Slot, incoming: OrderId) {
    e == Execution(x.id, incoming, x.price, x.units)
  }

  predicate FillsPart(e: Execution, x: Slot, x': Slot, incoming: OrderId) {
    && x'.units < x.units
    && x' == x.(units := x'.units)
    && e == Execution(x.id, incoming, x.price, x.units - x'.units)
  }

  /** A sweep consumes a prefix of the list; only the slot after that prefix can
      be filled in part, and then nothing of the incoming order is left. */
  predicate Shape(s: Side, q: seq<Slot>, limit: Option<Price>, incoming: OrderId, t: Swept) {
    var k := Consumed(q, t);
    && 0 <= k <= |q|
    && k <= |t.executions| <= k + 1
    && (forall i :: 0 <= i < |t.executions| ==> Crosses(s, t.executions[i].price, limit))
    && (forall i :: 0 <= i < k ==> FillsWhole(t.executions[i], q[i], incoming))
    && (|t.executions| == k ==> t.rest == q[k..])
    && (|t.executions| == k + 1 ==>
          k < |q| && t.rest[1..] == q[k + 1..] && t.left == 0 && FillsPart(t.executions[k], q[k], t.rest[0], incoming))
    && (t.left > 0 ==> t.rest == [] || !Crosses(s, t.rest[0].price, limit))
  }

  lemma {:induction false} SweepShape(s: Side, q: seq<Slot>, limit: Option<Price>, incoming: OrderId, units: nat)
    requires units < TWO64
    ensures Shape(s, q, limit, incoming, Sweep(s, q, limit, incoming, units))
    decreases |q|
  {
    if units == 0 || q == [] || !Crosses(s, q[0].price, limit) {
    } else if units < q[0].units {
      assert q[0 := q[0].(units := q[0].units - units)][1..] == q[1..];
    } else {
      SweepShape(s, q[1..], limit, incoming, units - q[0].units);
      ShapeExtends(s, q, limit, incoming, Sweep(s, q[1..], limit, incoming, units - q[0].units));
    }
  }

  lemma ShapeExtends(s: Side, q: seq<Slot>, limit: Option<Price>, incoming: OrderId, t: Swept)
    requires q != [] && Crosses(s, q[0].price, limit)
    requires Shape(s, q[1..], limit, incoming, t)
    ensures var e := Execution(q[0].id, incoming, q[0].price, q[0].units);
            Shape(s, q, limit, incoming, Swept([e] + t.executions, t.rest, t.left))
  {
    var e := Execution(q[0].id, incoming, q[0].price, q[0].units);
    var es := [e] + t.executions;
    var k := Consumed(q[1..], t);
    forall i | 0 <= i < k + 1 ensures FillsWhole(es[i], q[i], incoming) {
      if i > 0 { assert FillsWhole(t.executions[i - 1], q[1..][i - 1], incoming); }
    }
    forall i | 0 <= i < |es| ensures Crosses(s, es[i].price, limit) {
      if i > 0 { assert es[i] == t.executions[i - 1]; }
    }
    assert q[1..][k..] == q[k + 1..];
    if |t.executions| == k + 1 {
      assert q[1..][k + 1..] == q[k + 2..];
      assert es[k + 1] == t.executions[k] && q[1..][k] == q[k + 1];
    }
  }

  /** Nothing is created or destroyed: the units taken from the list are the units
      traded, and the incoming quantity is what was traded plus what is left. */
  lemma {:induction false} SweepConserves(s: Side, q: seq<Slot>, limit: Option<Price>, incoming: OrderId, units: nat)
    requires units < TWO64
    ensures var t := Sweep(s, q, limit, incoming, units);
            Traded(t.executions) + t.left == units && Units(t.rest) + Traded(t.executions) == Units(q)
    decreases |q|
  {
    var t := Sweep(s, q, limit, incoming, units);
    if units == 0 || q == [] || !Crosses(s, q[0].price, limit) {
    } else if units < q[0].units {
      assert t.executions[1..] == [];
      assert t.rest[1..] == q[1..];
    } else {
      SweepConserves(s, q[1..], limit, incoming, units - q[0].units);
      assert t.executions[1..] == Sweep(s, q[1..], limit, incoming, units - q[0].units).executions;
    }
  }

  /** Position by position, what rests after a sweep is what rested before it,
      except perhaps for the units of the first slot. */
  lemma RestIsSuffix(s: Side, q: seq<Slot>, limit: Option<Price>, incoming: OrderId, t: Swept)
    requires Shape(s, q, limit, incoming, t)
    ensures forall i :: 0 <= i < |t.rest| ==>
              var x := q[Consumed(q, t) + i];
              t.rest[i] == x.(units := t.rest[i].units) && t.rest[i].units <= x.units && (i > 0 ==> t.rest[i] == x)
  {
    var k := Consumed(q, t);
    forall i | 0 <= i < |t.rest|
      ensures t.rest[i] == q[k + i].(units := t.rest[i].units)
      ensures t.rest[i].units <= q[k + i].units
      ensures i > 0 ==> t.rest[i] == q[k + i]
    {
      if |t.executions| == k {
        assert t.rest[i] == q[k..][i];
      } else if i > 0 {
        assert t.rest[i] == t.rest[1..][i - 1] == q[k + 1..][i - 1];
      }
    }
  }

  // ----- every command keeps the invariant -----

  lemma IndexIs(q: seq<Slot>, i: nat)
    requires Distinct(q) && i < |q|
    ensures Index(q, q[i].id) == i && Has(q, q[i].id)
  {
  }

  lemma SweptSide(s: Side, q: seq<Slot>, limit: Option<Price>, incoming: OrderId, units: nat, seen: set<OrderId>)
    requires units < TWO64
    requires Sorted(s, q) && Distinct(q) && Known(q, seen)
    ensures var r := Sweep(s, q, limit, incoming, units).rest;
            Sorted(s, r) && Distinct(r) && Known(r, seen)
  {
    var t := Sweep(s, q, limit, incoming, units);
    SweepShape(s, q, limit, incoming, units);
    RestIsSuffix(s, q, limit, incoming, t);
  }

  lemma InsertedAt(s: Side, q: seq<Slot>, x: Slot)
    ensures var k, r := InsertionPoint(s, q, x.price), Insert(s, q, x);
            && |r| == |q| + 1 && r[k] == x
            && (forall i :: 0 <= i < k ==> r[i] == q[i])
            && (forall i :: k < i < |r| ==> r[i] == q[i - 1])
  {
  }

  lemma InsertedSorted(s: Side, q: seq<Slot>, x: Slot)
    requires Sorted(s, q)
    ensures Sorted(s, Insert(s, q, x))
    ensures Insert(s, q, x)[0] == if q == [] || Better(s, x.price, q[0].price) then x else q[0]
  {
    InsertedAt(s, q, x);
  }

  lemma InsertedSide(s: Side, q: seq<Slot>, x: Slot, seen: set<OrderId>)
    requires Sorted(s, q) && Distinct(q) && Known(q, seen)
    requires x.id in seen && !Has(q, x.id)
    ensures var r := Insert(s, q, x);
            Sorted(s, r) && Distinct(r) && Known(r, seen)
    ensures Insert(s, q, x)[0] == if q == [] || Better(s, x.price, q[0].price) then x else q[0]
  {
    InsertedSorted(s, q, x);
    InsertedAt(s, q, x);
  }

  lemma RemovedSide(s: Side, q: seq<Slot>, i: nat, seen: set<OrderId>)
    requires i < |q| && Sorted(s, q) && Distinct(q) && Known(q, seen)
    ensures var r := RemoveAt(q, i);
            Sorted(s, r) && Distinct(r) && Known(r, seen) && !Has(r, q[i].id)
    ensures forall j :: 0 <= j < |RemoveAt(q, i)| ==> RemoveAt(q, i)[j] == q[if j < i then j else j + 1]
  {
    var r := RemoveAt(q, i);
    assert forall j :: 0 <= j < |r| ==> r[j] == q[if j < i then j else j + 1];
  }

  lemma RestingIsSeen(b: Book, id: OrderId)
    requires Wf(b) && Rests(b, id)
    ensures id in b.seen
  {
    assert Known(b.On(Buy), b.seen) && Known(b.On(Sell), b.seen);
  }

  lemma RemoveKeeps(b: Book, id: OrderId)
    requires Wf(b) && Rests(b, id)
    ensures Wf(Remove(b, id)) && !Rests(Remove(b, id), id)
  {
    var s := SideOf(b, id);
    RemovedSide(s, b.On(s), Index(b.On(s), id), b.seen);
    var b' := Remove(b, id);
    assert b'.On(s.Opposite()) == b.On(s.Opposite());
    RemovedApart(b, s, id);
    assert forall j :: 0 <= j < |b.On(s.Opposite())| ==> b.On(s.Opposite())[j].id != id;
    Closing(b', s);
  }

  lemma RemovedApart(b: Book, s: Side, id: OrderId)
    requires Wf(b) && Has(b.On(s), id)
    ensures var q, r := b.On(s.Opposite()), RemoveAt(b.On(s), Index(b.On(s), id));
            && Apart(q, r) && (r != [] && q != [] ==> Better(s, q[0].price, r[0].price))
  {
    var q, p, i := b.On(s.Opposite()), b.On(s), Index(b.On(s), id);
    var r := RemoveAt(p, i);
    assert forall j :: 0 <= j < |r| ==> r[j] == p[if j < i then j else j + 1];
    assert Apart(b.bids, b.asks) && Sorted(s, p);
  }

  /** Entering an order that does not rest yet: the residual rests only behind a
      contra side that its limit no longer crosses, so the book stays uncrossed. */
  lemma EnterKeeps(b: Book, s: Side, id: OrderId, sequence: Sequence, limit: Option<Price>, quantity: Quantity)
    requires Wf(b) && id in b.seen && !Rests(b, id)
    ensures Wf(Enter(b, s, id, sequence, limit, quantity).0)
  {
    var c := s.Opposite();
    var p, q := b.On(s), b.On(c);
    var t := Sweep(c, q, limit, id, quantity);
    SweptSide(c, q, limit, id, quantity, b.seen);
    SweptApart(b, s, limit, id, quantity);
    var b' := Enter(b, s, id, sequence, limit, quantity).0;
    assert b'.On(c) == t.rest;
    if limit.Some? && t.left > 0 {
      SweepLeft(c, q, limit, id, quantity);
      var x := Slot(limit.value, id, sequence, t.left);
      InsertedSide(s, p, x, b.seen);
      InsertedApart(s, p, x, t.rest);
      assert b'.On(s) == Insert(s, p, x);
    } else {
      assert b'.On(s) == p;
    }
    Closing(b', s);
  }

  lemma SweptApart(b: Book, s: Side, limit: Option<Price>, id: OrderId, quantity: Quantity)
    requires Wf(b) && !Rests(b, id)
    ensures var c := s.Opposite();
            var t := Sweep(c, b.On(c), limit, id, quantity);
            && Apart(t.rest, b.On(s))
            && !Has(t.rest, id)
            && (t.rest != [] && b.On(s) != [] ==> Better(s, t.rest[0].price, b.On(s)[0].price))
            && (t.rest != [] && t.left > 0 ==> limit.Some? && Better(s, t.rest[0].price, limit.value))
  {
    var c := s.Opposite();
    var q := b.On(c);
    var t := Sweep(c, q, limit, id, quantity);
    SweepShape(c, q, limit, id, quantity);
    RestIsSuffix(c, q, limit, id, t);
    var k := Consumed(q, t);
    assert !Has(q, id);
    if t.rest != [] {
      assert t.rest[0].price == q[k].price;
      assert !Better(c, q[k].price, q[0].price);
    }
  }

  lemma InsertedApart(s: Side, p: seq<Slot>, x: Slot, q: seq<Slot>)
    requires Apart(q, p) && !Has(q, x.id)
    ensures Apart(q, Insert(s, p, x))
  {
    InsertedAt(s, p, x);
  }

  lemma Closing(b: Book, s: Side)
    requires var c := s.Opposite();
             && Sorted(s, b.On(s)) && Distinct(b.On(s)) && Known(b.On(s), b.seen)
             && Sorted(c, b.On(c)) && Distinct(b.On(c)) && Known(b.On(c), b.seen)
             && Apart(b.On(c), b.On(s))
             && (b.On(s) != [] && b.On(c) != [] ==> Better(s, b.On(c)[0].price, b.On(s)[0].price))
    ensures Wf(b)
  {
    forall t ensures Sorted(t, b.On(t)) && Distinct(b.On(t)) && Known(b.On(t), b.seen) {
      if t == s { } else { assert t == s.Opposite(); }
    }
  }

  lemma NewIdKeeps(b: Book, id: OrderId)
    requires Wf(b) && id !in b.seen
    ensures var b' := b.(seen := b.seen + {id});
            Wf(b') && !Rests(b', id)
  {
    var b' := b.(seen := b.seen + {id});
    assert forall s :: b'.On(s) == b.On(s);
    if Rests(b, id) { RestingIsSeen(b, id); }
  }

  lemma SubmitKeeps(b: Book, o: NewOrder)
    requires Wf(b)
    ensures Wf(Submit(b, o).0)
  {
    if Validate(o).None? && o.id !in b.seen {
      NewIdKeeps(b, o.id);
      EnterKeeps(b.(seen := b.seen + {o.id}), o.side, o.id, o.sequence, o.limit, o.quantity);
    }
  }

  lemma ReplaceKeeps(b: Book, r: ReplaceOrder)
    requires Wf(b)
    ensures Wf(ReplaceOne(b, r).0)
  {
    if Rests(b, r.id) {
      if KeepsPlace(b, r) {
        ReduceKeeps(b, r);
      } else {
        RemoveKeeps(b, r.id);
        EnterKeeps(Remove(b, r.id), SideOf(b, r.id), r.id, r.sequence, Some(r.price), r.quantity);
      }
    }
  }

  lemma ReduceKeeps(b: Book, r: ReplaceOrder)
    requires Wf(b) && Rests(b, r.id) && KeepsPlace(b, r)
    ensures Wf(ReplaceOne(b, r).0)
  {
    var s := SideOf(b, r.id);
    assert Apart(b.On(s.Opposite()), b.On(s));
    Closing(ReplaceOne(b, r).0, s);
  }

  /** Every command keeps the invariant. */
  lemma ApplyKeeps(b: Book, c: Command)
    requires Wf(b)
    ensures Wf(Apply(b, c).0)
  {
    match c
    case New(o) => SubmitKeeps(b, o);
    case Cancel(k) => if Rests(b, k.id) { RemoveKeeps(b, k.id); }
    case Replace(r) => ReplaceKeeps(b, r);
  }

  /** Every book reachable from the empty one satisfies the invariant. */
  lemma {:induction false} RunKeeps(b: Book, cs: seq<Command>)
    requires Wf(b)
    ensures Wf(Run(b, cs))
    decreases |cs|
  {
    if cs != [] {
      ApplyKeeps(b, cs[0]);
      RunKeeps(Apply(b, cs[0]).0, cs[1..]);
    }
  }

  /** A rejected command leaves everything unchanged, seen ids included. */
  lemma RejectedChangesNothing(b: Book, c: Command)
    requires !Apply(b, c).1.Accepted()
    ensures Apply(b, c).0 == b && Apply(b, c).1.executions == []
  {
  }
}
