/** The priority lists refine the flat reference book. */
module Refinement {
  import opened Types
  import opened BookSpec
  import opened BookInvariant
  import opened ReferenceSpec

  // ----- the priority list of a vector -----

  function SlotOf(o: RefOrder): Slot { Slot(o.price, o.id, o.sequence, o.units) }

  /** Side `s` of a vector, sorted by price, ties in vector order. */
  function Prio(v: seq<RefOrder>, s: Side): seq<Slot> {
    if v == [] then []
    else
      var q := Prio(v[..|v| - 1], s);
      if v[|v| - 1].side == s then Insert(s, q, SlotOf(v[|v| - 1])) else q
  }

  function Ordered(b: RefBook): Book {
    Book(Prio(b.resting, Buy), Prio(b.resting, Sell), set id | id in b.seen)
  }

  predicate DistinctIds(v: seq<RefOrder>) {
    forall i, j :: 0 <= i < j < |v| ==> v[i].id != v[j].id
  }

  predicate SameLevel(a: RefOrder, b: RefOrder) { a.side == b.side && a.price == b.price }

  /** Within each price level, vector order is sequence order. */
  predicate InSequence(v: seq<RefOrder>) {
    forall i, j :: 0 <= i < j < |v| && SameLevel(v[i], v[j]) ==> v[i].sequence <= v[j].sequence
  }

  /** What the vector satisfies after any run whose sequence numbers never decrease:
      `bound` is the last of them. */
  predicate Tidy(v: seq<RefOrder>, seen: seq<OrderId>, bound: int) {
    forall i :: 0 <= i < |v| ==> TidyAt(v, i, seen, bound)
  }

  predicate TidyAt(v: seq<RefOrder>, i: nat, seen: seq<OrderId>, bound: int)
    requires i < |v|
  {
    && v[i].sequence <= bound && v[i].id in seen
    && forall j :: i < j < |v| ==> v[i].id != v[j].id && (SameLevel(v[i], v[j]) ==> v[i].sequence <= v[j].sequence)
  }

  lemma TidyMeans(v: seq<RefOrder>, seen: seq<OrderId>, bound: int)
    ensures Tidy(v, seen, bound) <==>
            && DistinctIds(v) && InSequence(v)
            && forall i :: 0 <= i < |v| ==> v[i].sequence <= bound && v[i].id in seen
  {
    if Tidy(v, seen, bound) {
      forall i | 0 <= i < |v|
        ensures v[i].sequence <= bound && v[i].id in seen
        ensures forall j :: i < j < |v| ==> v[i].id != v[j].id && (SameLevel(v[i], v[j]) ==> v[i].sequence <= v[j].sequence)
      {
        assert TidyAt(v, i, seen, bound);
      }
    }
  }

  // ----- insertion, removal and resizing, one slot at a time -----

  lemma InsertUnfolds(s: Side, q: seq<Slot>, x: Slot)
    ensures Insert(s, q, x) ==
            if q == [] || Better(s, x.price, q[0].price) then [x] + q else [q[0]] + Insert(s, q[1..], x)
  {
  }

  function Without(q: seq<Slot>, id: OrderId): seq<Slot> {
    if q == [] then [] else (if q[0].id == id then [] else [q[0]]) + Without(q[1..], id)
  }

  function Resized(q: seq<Slot>, id: OrderId, units: Quantity): seq<Slot> {
    if q == [] then [] else [if q[0].id == id then q[0].(units := units) else q[0]] + Resized(q[1..], id, units)
  }

  lemma {:induction false} WithoutAbsent(q: seq<Slot>, id: OrderId, units: Quantity)
    requires forall i :: 0 <= i < |q| ==> q[i].id != id
    ensures Without(q, id) == q && Resized(q, id, units) == q
    decreases |q|
  {
    if q != [] { WithoutAbsent(q[1..], id, units); }
  }

  lemma {:induction false} WithoutIsRemoveAt(q: seq<Slot>, i: nat, units: Quantity)
    requires Distinct(q) && i < |q|
    ensures Without(q, q[i].id) == RemoveAt(q, i)
    ensures Resized(q, q[i].id, units) == q[i := q[i].(units := units)]
    decreases |q|
  {
    if i == 0 {
      WithoutAbsent(q[1..], q[0].id, units);
    } else {
      WithoutIsRemoveAt(q[1..], i - 1, units);
      assert q[1..][i - 1] == q[i];
      assert [q[0]] + RemoveAt(q[1..], i - 1) == RemoveAt(q, i);
    }
  }

  lemma {:induction false} WithoutBehind(s: Side, q: seq<Slot>, id: OrderId, price: Price)
    requires forall i :: 0 <= i < |q| ==> Better(s, price, q[i].price)
    ensures forall i :: 0 <= i < |Without(q, id)| ==> Better(s, price, Without(q, id)[i].price)
    decreases |q|
  {
    if q != [] { WithoutBehind(s, q[1..], id, price); }
  }

  lemma InsertFront(s: Side, q: seq<Slot>, x: Slot, id: OrderId)
    requires Sorted(s, q) && q != [] && Better(s, x.price, q[0].price)
    ensures Insert(s, q, x) == [x] + q && Insert(s, Without(q, id), x) == [x] + Without(q, id)
  {
    forall i | 0 <= i < |q| ensures Better(s, x.price, q[i].price) { }
    WithoutBehind(s, q, id, x.price);
    InsertUnfolds(s, q, x);
    InsertUnfolds(s, Without(q, id), x);
  }

  lemma WithoutCons(x: Slot, q: seq<Slot>, id: OrderId)
    ensures Without([x] + q, id) == (if x.id == id then [] else [x]) + Without(q, id)
  {
    assert ([x] + q)[1..] == q;
  }

  lemma {:induction false} InsertWithout(s: Side, q: seq<Slot>, x: Slot, id: OrderId)
    requires Sorted(s, q) && x.id != id
    ensures Without(Insert(s, q, x), id) == Insert(s, Without(q, id), x)
    decreases |q|
  {
    if q == [] {
      assert Insert(s, q, x) == [x];
      WithoutCons(x, [], id);
    } else if Better(s, x.price, q[0].price) {
      InsertFront(s, q, x, id);
      WithoutCons(x, q, id);
    } else {
      assert Insert(s, q, x) == [q[0]] + Insert(s, q[1..], x) by { InsertUnfolds(s, q, x); }
      WithoutCons(q[0], Insert(s, q[1..], x), id);
      InsertWithout(s, q[1..], x, id);
      if q[0].id == id {
        assert Without(q, id) == Without(q[1..], id);
      } else {
        InsertUnfolds(s, [q[0]] + Without(q[1..], id), x);
        assert ([q[0]] + Without(q[1..], id))[1..] == Without(q[1..], id);
      }
    }
  }

  lemma {:induction false} InsertResized(s: Side, q: seq<Slot>, x: Slot, id: OrderId, units: Quantity)
    requires x.id != id
    ensures Resized(Insert(s, q, x), id, units) == Insert(s, Resized(q, id, units), x)
    decreases |q|
  {
    InsertUnfolds(s, q, x);
    InsertUnfolds(s, Resized(q, id, units), x);
    if q == [] {
      assert [x] + q == [x];
    } else if Better(s, x.price, q[0].price) {
      assert ([x] + q)[1..] == q;
    } else {
      InsertResized(s, q[1..], x, id, units);
      assert ([q[0]] + Insert(s, q[1..], x))[1..] == Insert(s, q[1..], x);
      assert Resized(q, id, units)[1..] == Resized(q[1..], id, units);
    }
  }

  lemma {:induction false} InsertThenWithout(s: Side, q: seq<Slot>, x: Slot)
    requires forall i :: 0 <= i < |q| ==> q[i].id != x.id
    ensures Without(Insert(s, q, x), x.id) == q
    decreases |q|
  {
    InsertUnfolds(s, q, x);
    if q == [] || Better(s, x.price, q[0].price) {
      WithoutAbsent(q, x.id, 1);
      assert ([x] + q)[1..] == q;
    } else {
      InsertThenWithout(s, q[1..], x);
      assert ([q[0]] + Insert(s, q[1..], x))[1..] == Insert(s, q[1..], x);
    }
  }

  lemma {:induction false} InsertThenResized(s: Side, q: seq<Slot>, x: Slot, units: Quantity)
    requires forall i :: 0 <= i < |q| ==> q[i].id != x.id
    ensures Resized(Insert(s, q, x), x.id, units) == Insert(s, q, x.(units := units))
    decreases |q|
  {
    InsertUnfolds(s, q, x);
    InsertUnfolds(s, q, x.(units := units));
    if q == [] || Better(s, x.price, q[0].price) {
      WithoutAbsent(q, x.id, units);
      assert ([x] + q)[1..] == q;
    } else {
      InsertThenResized(s, q[1..], x, units);
      assert ([q[0]] + Insert(s, q[1..], x))[1..] == Insert(s, q[1..], x);
    }
  }

  // ----- facts about priority lists -----

  lemma {:induction false} PrioSorted(v: seq<RefOrder>, s: Side)
    ensures Sorted(s, Prio(v, s))
    decreases |v|
  {
    if v != [] {
      PrioSorted(v[..|v| - 1], s);
      if v[|v| - 1].side == s { InsertedSorted(s, Prio(v[..|v| - 1], s), SlotOf(v[|v| - 1])); }
    }
  }

  ghost predicate Lists(v: seq<RefOrder>, s: Side, x: Slot) {
    exists j :: 0 <= j < |v| && v[j].side == s && SlotOf(v[j]) == x
  }

  lemma ListsMore(v: seq<RefOrder>, s: Side, x: Slot)
    requires v != [] && Lists(v[..|v| - 1], s, x)
    ensures Lists(v, s, x)
  {
    var w := v[..|v| - 1];
    var j :| 0 <= j < |w| && w[j].side == s && SlotOf(w[j]) == x;
    assert v[j] == w[j];
  }

  lemma {:induction false} PrioFrom(v: seq<RefOrder>, s: Side)
    ensures forall i :: 0 <= i < |Prio(v, s)| ==> Lists(v, s, Prio(v, s)[i])
    decreases |v|
  {
    if v != [] {
      var w, o := v[..|v| - 1], v[|v| - 1];
      PrioFrom(w, s);
      var q := Prio(w, s);
      forall i | 0 <= i < |q| ensures Lists(v, s, q[i]) { ListsMore(v, s, q[i]); }
      if o.side == s {
        InsertedAt(s, q, SlotOf(o));
        assert Lists(v, s, SlotOf(o));
      }
    }
  }

  lemma {:induction false} PrioHas(v: seq<RefOrder>, s: Side, j: nat)
    requires j < |v| && v[j].side == s
    ensures SlotOf(v[j]) in Prio(v, s)
    decreases |v|
  {
    var w, o := v[..|v| - 1], v[|v| - 1];
    var q := Prio(w, s);
    if o.side == s { InsertedAt(s, q, SlotOf(o)); }
    if j < |v| - 1 {
      PrioHas(w, s, j);
      assert w[j] == v[j];
      var i :| 0 <= i < |q| && q[i] == SlotOf(v[j]);
      if o.side == s {
        assert Prio(v, s)[if i < InsertionPoint(s, q, o.price) then i else i + 1] == q[i];
      }
    } else {
      assert Prio(v, s)[InsertionPoint(s, q, o.price)] == SlotOf(o);
    }
  }

  lemma {:induction false} PrioDistinct(v: seq<RefOrder>, s: Side)
    requires DistinctIds(v)
    ensures Distinct(Prio(v, s))
    decreases |v|
  {
    if v != [] {
      var w, o := v[..|v| - 1], v[|v| - 1];
      PrioDistinct(w, s);
      if o.side == s {
        LastIsNew(v, w, s);
        InsertedAt(s, Prio(w, s), SlotOf(o));
      }
    }
  }

  lemma LastIsNew(v: seq<RefOrder>, w: seq<RefOrder>, s: Side)
    requires DistinctIds(v) && v != [] && w == v[..|v| - 1]
    ensures forall i :: 0 <= i < |Prio(w, s)| ==> Prio(w, s)[i].id != v[|v| - 1].id
  {
    PrioFrom(w, s);
  }

  lemma PrioSnoc(w: seq<RefOrder>, o: RefOrder, s: Side)
    ensures Prio(w + [o], s) == if o.side == s then Insert(s, Prio(w, s), SlotOf(o)) else Prio(w, s)
  {
    assert (w + [o])[..|w|] == w;
  }

  lemma RemoveBeforeLast<T>(v: seq<T>, i: nat)
    requires i < |v|
    ensures i < |v| - 1 ==> RemoveAt(v, i) == RemoveAt(v[..|v| - 1], i) + [v[|v| - 1]]
    ensures i == |v| - 1 ==> RemoveAt(v, i) == v[..|v| - 1]
  {
  }

  /** Erasing an order from the vector erases its slot. */
  lemma {:induction false} PrioRemove(v: seq<RefOrder>, i: nat, s: Side)
    requires DistinctIds(v) && i < |v|
    ensures Prio(RemoveAt(v, i), s) == if v[i].side == s then Without(Prio(v, s), v[i].id) else Prio(v, s)
    decreases |v|
  {
    var n := |v| - 1;
    var w, o := v[..n], v[n];
    RemoveBeforeLast(v, i);
    if i == n {
      if o.side == s {
        LastIsNew(v, w, s);
        InsertThenWithout(s, Prio(w, s), SlotOf(o));
      }
    } else {
      PrioRemove(w, i, s);
      PrioSnoc(RemoveAt(w, i), o, s);
      if v[i].side == s && o.side == s {
        PrioSorted(w, s);
        InsertWithout(s, Prio(w, s), SlotOf(o), v[i].id);
      }
    }
  }

  /** Resizing an order in the vector resizes its slot. */
  lemma {:induction false} PrioResize(v: seq<RefOrder>, i: nat, units: Quantity, s: Side)
    requires DistinctIds(v) && i < |v|
    ensures Prio(v[i := v[i].(units := units)], s) ==
            if v[i].side == s then Resized(Prio(v, s), v[i].id, units) else Prio(v, s)
    decreases |v|
  {
    var n := |v| - 1;
    var w, o := v[..n], v[n];
    SetBeforeLast(v, i, v[i].(units := units));
    if i == n {
      PrioSnoc(w, o.(units := units), s);
      if o.side == s {
        LastIsNew(v, w, s);
        InsertThenResized(s, Prio(w, s), SlotOf(o), units);
      }
    } else {
      PrioResize(w, i, units, s);
      PrioSnoc(w[i := w[i].(units := units)], o, s);
      if v[i].side == s && o.side == s {
        InsertResized(s, Prio(w, s), SlotOf(o), v[i].id, units);
      }
    }
  }

  lemma SetBeforeLast<T>(v: seq<T>, i: nat, x: T)
    requires i < |v|
    ensures i < |v| - 1 ==> v[i := x] == v[..|v| - 1][i := x] + [v[|v| - 1]]
    ensures i == |v| - 1 ==> v[i := x] == v[..|v| - 1] + [x]
  {
  }

  /** The scan stands at the head of `q`, or at nothing if the head does not cross. */
  predicate AtHead(v: seq<RefOrder>, s: Side, limit: Option<Price>, q: seq<Slot>, best: Option<nat>) {
    match best
    case None => q == [] || !Crosses(s, q[0].price, limit)
    case Some(i) => i < |v| && v[i].side == s && q != [] && q[0] == SlotOf(v[i]) && Crosses(s, q[0].price, limit)
  }

  /** Looking at one more order of side `s`. */
  lemma HeadMoves(v: seq<RefOrder>, s: Side, limit: Option<Price>, q: seq<Slot>, best: Option<nat>, n: nat)
    requires n < |v| && v[n].side == s && AtHead(v, s, limit, q, best)
    requires best.Some? ==> best.value < n && (SameLevel(v[best.value], v[n]) ==> v[best.value].sequence <= v[n].sequence)
    ensures AtHead(v, s, limit, Insert(s, q, SlotOf(v[n])),
                   if Candidate(v[n], s.Opposite(), limit) && (best.None? || Precedes(v[n], v[best.value])) then Some(n) else best)
  {
    InsertUnfolds(s, q, SlotOf(v[n]));
  }

  /** The scan finds the head of the priority list, if the head crosses at all. */
  lemma {:induction false} ScanFindsHead(v: seq<RefOrder>, s: Side, limit: Option<Price>, n: nat)
    requires InSequence(v) && n <= |v|
    ensures AtHead(v, s, limit, Prio(v[..n], s), BestIndex(v, s.Opposite(), limit, n))
    decreases n
  {
    if n > 0 {
      ScanFindsHead(v, s, limit, n - 1);
      assert v[..n][..n - 1] == v[..n - 1];
      if v[n - 1].side == s {
        HeadMoves(v, s, limit, Prio(v[..n - 1], s), BestIndex(v, s.Opposite(), limit, n - 1), n - 1);
      }
    }
  }

  function Ids(v: seq<RefOrder>): set<OrderId> { set o | o in v :: o.id }

  lemma FewerIds(v: seq<RefOrder>, i: nat, units: Quantity)
    requires i < |v|
    ensures Ids(RemoveAt(v, i)) <= Ids(v) && Ids(v[i := v[i].(units := units)]) <= Ids(v)
  {
    forall o | o in v[i := v[i].(units := units)] ensures o.id in Ids(v) {
      assert o in v || (o.id == v[i].id && v[i] in v);
    }
  }

  lemma TidyRemove(v: seq<RefOrder>, i: nat, seen: seq<OrderId>, bound: int)
    requires Tidy(v, seen, bound) && i < |v|
    ensures Tidy(RemoveAt(v, i), seen, bound)
  {
    TidyMeans(v, seen, bound);
    TidyMeans(RemoveAt(v, i), seen, bound);
    assert forall j :: 0 <= j < |v| - 1 ==> RemoveAt(v, i)[j] == v[if j < i then j else j + 1];
  }

  lemma TidyResize(v: seq<RefOrder>, i: nat, units: Quantity, seen: seq<OrderId>, bound: int)
    requires Tidy(v, seen, bound) && i < |v|
    ensures Tidy(v[i := v[i].(units := units)], seen, bound)
  {
    TidyMeans(v, seen, bound);
    TidyMeans(v[i := v[i].(units := units)], seen, bound);
  }

  lemma {:induction false} FlatMatchTidy(v: seq<RefOrder>, side: Side, limit: Option<Price>, incoming: OrderId, units: nat,
                                         seen: seq<OrderId>, bound: int)
    requires units < TWO64 && Tidy(v, seen, bound)
    ensures var w := FlatMatch(v, side, limit, incoming, units).resting;
            Tidy(w, seen, bound) && Ids(w) <= Ids(v)
    decreases |v|
  {
    var best := BestIndex(v, side, limit, |v|);
    if units > 0 && best.Some? {
      var i := best.value;
      if units < v[i].units {
        TidyResize(v, i, v[i].units - units, seen, bound);
        FewerIds(v, i, v[i].units - units);
      } else {
        TidyRemove(v, i, seen, bound);
        FewerIds(v, i, 1);
        FlatMatchTidy(RemoveAt(v, i), side, limit, incoming, units - v[i].units, seen, bound);
      }
    }
  }

  lemma HeadErased(v: seq<RefOrder>, s: Side, i: nat, seen: seq<OrderId>, bound: int)
    requires Tidy(v, seen, bound) && i < |v| && v[i].side == s
    requires Prio(v, s) != [] && Prio(v, s)[0] == SlotOf(v[i])
    ensures Prio(RemoveAt(v, i), s) == Prio(v, s)[1..]
    ensures Prio(RemoveAt(v, i), s.Opposite()) == Prio(v, s.Opposite())
  {
    TidyMeans(v, seen, bound);
    PrioRemove(v, i, s);
    PrioRemove(v, i, s.Opposite());
    PrioDistinct(v, s);
    WithoutIsRemoveAt(Prio(v, s), 0, 1);
  }

  lemma HeadResized(v: seq<RefOrder>, s: Side, i: nat, units: Quantity, seen: seq<OrderId>, bound: int)
    requires Tidy(v, seen, bound) && i < |v| && v[i].side == s
    requires Prio(v, s) != [] && Prio(v, s)[0] == SlotOf(v[i])
    ensures Prio(v[i := v[i].(units := units)], s) == Prio(v, s)[0 := Prio(v, s)[0].(units := units)]
    ensures Prio(v[i := v[i].(units := units)], s.Opposite()) == Prio(v, s.Opposite())
  {
    TidyMeans(v, seen, bound);
    PrioResize(v, i, units, s);
    PrioResize(v, i, units, s.Opposite());
    PrioDistinct(v, s);
    WithoutIsRemoveAt(Prio(v, s), 0, units);
  }

  lemma ScanAll(v: seq<RefOrder>, side: Side, limit: Option<Price>, seen: seq<OrderId>, bound: int)
    requires Tidy(v, seen, bound)
    ensures var c, best := side.Opposite(), BestIndex(v, side, limit, |v|);
            && (best.None? <==> Prio(v, c) == [] || !Crosses(c, Prio(v, c)[0].price, limit))
            && (best.Some? ==> Prio(v, c) != [] && v[best.value].side == c && Prio(v, c)[0] == SlotOf(v[best.value]))
  {
    TidyMeans(v, seen, bound);
    assert v[..|v|] == v && side.Opposite().Opposite() == side;
    ScanFindsHead(v, side.Opposite(), limit, |v|);
  }

  lemma SweepWhole(s: Side, q: seq<Slot>, limit: Option<Price>, incoming: OrderId, units: Quantity)
    requires q != [] && Crosses(s, q[0].price, limit) && q[0].units <= units
    ensures var t := Sweep(s, q[1..], limit, incoming, units - q[0].units);
            Sweep(s, q, limit, incoming, units) ==
            Swept([Execution(q[0].id, incoming, q[0].price, q[0].units)] + t.executions, t.rest, t.left)
  {
  }

  lemma FlatWhole(v: seq<RefOrder>, side: Side, limit: Option<Price>, incoming: OrderId, units: Quantity, i: nat)
    requires BestIndex(v, side, limit, |v|) == Some(i) && v[i].units <= units
    ensures var t := FlatMatch(RemoveAt(v, i), side, limit, incoming, units - v[i].units);
            FlatMatch(v, side, limit, incoming, units) ==
            FlatSwept([Execution(v[i].id, incoming, v[i].price, v[i].units)] + t.executions, t.resting, t.left)
  {
  }

  lemma FlatPartial(v: seq<RefOrder>, side: Side, limit: Option<Price>, incoming: OrderId, units: Quantity, i: nat)
    requires BestIndex(v, side, limit, |v|) == Some(i) && units < v[i].units
    ensures FlatMatch(v, side, limit, incoming, units) ==
            FlatSwept([Execution(v[i].id, incoming, v[i].price, units)], v[i := v[i].(units := v[i].units - units)], 0)
  {
  }

  lemma FlatDone(v: seq<RefOrder>, side: Side, limit: Option<Price>, incoming: OrderId)
    ensures FlatMatch(v, side, limit, incoming, 0) == FlatSwept([], v, 0)
  {
  }

  lemma FlatPart(v: seq<RefOrder>, side: Side, limit: Option<Price>, incoming: OrderId, units: Quantity, i: nat,
                 seen: seq<OrderId>, bound: int)
    requires Tidy(v, seen, bound) && BestIndex(v, side, limit, |v|) == Some(i) && units < v[i].units
    ensures Agrees(v, side, limit, incoming, units)
  {
    ScanAll(v, side, limit, seen, bound);
    HeadResized(v, side.Opposite(), i, v[i].units - units, seen, bound);
    assert side.Opposite().Opposite() == side;
  }

  /** The reference's match, and the sweep of the priority list, as views of the two sides. */
  function FlatView(v: seq<RefOrder>, side: Side, limit: Option<Price>, incoming: OrderId, units: nat): (Swept, seq<Slot>)
    requires units < TWO64
  {
    var t := FlatMatch(v, side, limit, incoming, units);
    (Swept(t.executions, Prio(t.resting, side.Opposite()), t.left), Prio(t.resting, side))
  }

  function SweepView(v: seq<RefOrder>, side: Side, limit: Option<Price>, incoming: OrderId, units: nat): (Swept, seq<Slot>)
    requires units < TWO64
  {
    (Sweep(side.Opposite(), Prio(v, side.Opposite()), limit, incoming, units), Prio(v, side))
  }

  predicate Agrees(v: seq<RefOrder>, side: Side, limit: Option<Price>, incoming: OrderId, units: nat)
    requires units < TWO64
  {
    SweepView(v, side, limit, incoming, units) == FlatView(v, side, limit, incoming, units)
  }

  lemma FlatNone(v: seq<RefOrder>, side: Side, limit: Option<Price>, incoming: OrderId, units: nat,
                 seen: seq<OrderId>, bound: int)
    requires units < TWO64 && Tidy(v, seen, bound) && (units == 0 || BestIndex(v, side, limit, |v|).None?)
    ensures Agrees(v, side, limit, incoming, units)
  {
    ScanAll(v, side, limit, seen, bound);
  }

  function Filled(o: RefOrder, incoming: OrderId): Execution { Execution(o.id, incoming, o.price, o.units) }

  function Front(e: Execution, view: (Swept, seq<Slot>)): (Swept, seq<Slot>) {
    (Swept([e] + view.0.executions, view.0.rest, view.0.left), view.1)
  }

  lemma FlatViewStep(v: seq<RefOrder>, side: Side, limit: Option<Price>, incoming: OrderId, units: Quantity, i: nat)
    requires BestIndex(v, side, limit, |v|) == Some(i) && v[i].units <= units
    ensures FlatView(v, side, limit, incoming, units) ==
            Front(Filled(v[i], incoming), FlatView(RemoveAt(v, i), side, limit, incoming, units - v[i].units))
  {
    FlatWhole(v, side, limit, incoming, units, i);
  }

  lemma SweepViewStep(v: seq<RefOrder>, side: Side, limit: Option<Price>, incoming: OrderId, units: Quantity, i: nat,
                      seen: seq<OrderId>, bound: int)
    requires Tidy(v, seen, bound) && BestIndex(v, side, limit, |v|) == Some(i) && v[i].units <= units
    ensures SweepView(v, side, limit, incoming, units) ==
            Front(Filled(v[i], incoming), SweepView(RemoveAt(v, i), side, limit, incoming, units - v[i].units))
  {
    var c := side.Opposite();
    assert c.Opposite() == side;
    ScanAll(v, side, limit, seen, bound);
    HeadErased(v, c, i, seen, bound);
    SweepWhole(c, Prio(v, c), limit, incoming, units);
  }

  lemma FlatStep(v: seq<RefOrder>, side: Side, limit: Option<Price>, incoming: OrderId, units: Quantity, i: nat,
                 seen: seq<OrderId>, bound: int)
    requires Tidy(v, seen, bound) && BestIndex(v, side, limit, |v|) == Some(i) && v[i].units <= units
    requires Agrees(RemoveAt(v, i), side, limit, incoming, units - v[i].units)
    ensures Agrees(v, side, limit, incoming, units)
  {
    FlatViewStep(v, side, limit, incoming, units, i);
    SweepViewStep(v, side, limit, incoming, units, i, seen, bound);
  }

  /** The reference's match is the sweep of the contra priority list. */
  lemma {:induction false} FlatMatchRefines(v: seq<RefOrder>, side: Side, limit: Option<Price>, incoming: OrderId, units: nat,
                                            seen: seq<OrderId>, bound: int)
    requires units < TWO64 && Tidy(v, seen, bound)
    ensures Agrees(v, side, limit, incoming, units)
    decreases |v|
  {
    var best := BestIndex(v, side, limit, |v|);
    if units == 0 || best.None? {
      FlatNone(v, side, limit, incoming, units, seen, bound);
    } else if units < v[best.value].units {
      FlatPart(v, side, limit, incoming, units, best.value, seen, bound);
    } else {
      var i := best.value;
      TidyRemove(v, i, seen, bound);
      FlatMatchRefines(RemoveAt(v, i), side, limit, incoming, units - v[i].units, seen, bound);
      FlatStep(v, side, limit, incoming, units, i, seen, bound);
    }
  }

  // ----- whole commands -----

  /** Where an order of the vector is in the priority lists. */
  lemma SlotPlace(v: seq<RefOrder>, i: nat)
    requires DistinctIds(v) && i < |v|
    ensures var q := Prio(v, v[i].side);
            Has(q, v[i].id) && q[Index(q, v[i].id)] == SlotOf(v[i]) && !Has(Prio(v, v[i].side.Opposite()), v[i].id)
  {
    var s := v[i].side;
    PrioHas(v, s, i);
    PrioDistinct(v, s);
    var k :| 0 <= k < |Prio(v, s)| && Prio(v, s)[k] == SlotOf(v[i]);
    IndexIs(Prio(v, s), k);
    NotListed(v, s.Opposite(), i);
  }

  lemma NotListed(v: seq<RefOrder>, s: Side, i: nat)
    requires DistinctIds(v) && i < |v| && v[i].side != s
    ensures !Has(Prio(v, s), v[i].id)
  {
    PrioFrom(v, s);
  }

  lemma Looked(v: seq<RefOrder>, id: OrderId, seen: seq<OrderId>, bound: int)
    requires Tidy(v, seen, bound)
    ensures var i := Lookup(v, id);
            && (i == |v| ==> id !in Ids(v) && forall s :: !Has(Prio(v, s), id))
            && (i < |v| ==> var q := Prio(v, v[i].side);
                  Has(q, id) && q[Index(q, id)] == SlotOf(v[i]) && !Has(Prio(v, v[i].side.Opposite()), id))
  {
    TidyMeans(v, seen, bound);
    var i := Lookup(v, id);
    forall s ensures i == |v| ==> !Has(Prio(v, s), id) { PrioFrom(v, s); }
    if i < |v| { SlotPlace(v, i); }
  }

  lemma SlotErased(v: seq<RefOrder>, k: nat)
    requires DistinctIds(v) && k < |v|
    ensures var id, s := v[k].id, v[k].side;
            && Has(Prio(v, s), id) && !Has(Prio(v, s.Opposite()), id)
            && Prio(RemoveAt(v, k), s) == RemoveAt(Prio(v, s), Index(Prio(v, s), id))
            && Prio(RemoveAt(v, k), s.Opposite()) == Prio(v, s.Opposite())
  {
    var s := v[k].side;
    SlotPlace(v, k);
    PrioRemove(v, k, s);
    PrioRemove(v, k, s.Opposite());
    PrioDistinct(v, s);
    WithoutIsRemoveAt(Prio(v, s), Index(Prio(v, s), v[k].id), 1);
  }

  lemma {:induction false} SeenRefines(b: RefBook, id: OrderId)
    ensures id in b.seen <==> id in Ordered(b).seen
    ensures Ordered(b.(seen := b.seen + [id])) == Ordered(b).(seen := Ordered(b).seen + {id})
  {
    assert (set x | x in b.seen + [id]) == (set x | x in b.seen) + {id};
  }

  lemma TidySeen(v: seq<RefOrder>, seen: seq<OrderId>, bound: int, id: OrderId, bound': int)
    requires Tidy(v, seen, bound) && bound <= bound'
    ensures Tidy(v, seen + [id], bound') && Tidy(v, seen, bound')
  {
    TidyMeans(v, seen, bound);
    TidyMeans(v, seen + [id], bound');
    TidyMeans(v, seen, bound');
  }

  lemma TidyPush(v: seq<RefOrder>, o: RefOrder, seen: seq<OrderId>, bound: int)
    requires Tidy(v, seen, bound) && o.sequence == bound && o.id in seen && o.id !in Ids(v)
    ensures Tidy(v + [o], seen, bound)
  {
    TidyMeans(v, seen, bound);
    TidyMeans(v + [o], seen, bound);
    assert forall i :: 0 <= i < |v| ==> v[i] in v && v[i].id in Ids(v);
  }

  lemma FlatEnterRefines(b: RefBook, side: Side, id: OrderId, sequence: Sequence, limit: Option<Price>, quantity: Quantity)
    requires Tidy(b.resting, b.seen, sequence) && id in b.seen && id !in Ids(b.resting)
    ensures var (b', r) := FlatEnter(b, side, id, sequence, limit, quantity);
            (Ordered(b'), r) == Enter(Ordered(b), side, id, sequence, limit, quantity) && Tidy(b'.resting, b'.seen, sequence)
  {
    var c := side.Opposite();
    var v := b.resting;
    var t := FlatMatch(v, side, limit, id, quantity);
    FlatMatchRefines(v, side, limit, id, quantity, b.seen, sequence);
    FlatMatchTidy(v, side, limit, id, quantity, b.seen, sequence);
    assert c.Opposite() == side;
    if limit.Some? && t.left > 0 {
      var o := RefOrder(id, sequence, side, limit.value, t.left);
      PrioSnoc(t.resting, o, side);
      PrioSnoc(t.resting, o, c);
      TidyPush(t.resting, o, b.seen, sequence);
    }
  }

  /** One command: same outcome, and the books stay in step. */
  lemma ApplyRefines(b: RefBook, c: Command, bound: int)
    requires Tidy(b.resting, b.seen, bound) && bound <= c.Sequence()
    ensures var (b', r) := FlatApply(b, c);
            (Ordered(b'), r) == Apply(Ordered(b), c) && Tidy(b'.resting, b'.seen, c.Sequence())
  {
    TidySeen(b.resting, b.seen, bound, c.Id(), c.Sequence());
    match c
    case New(o) => NewRefines(b, o);
    case Cancel(k) => CancelRefines(b, k);
    case Replace(r) => ReplaceRefines(b, r);
  }

  lemma NewRefines(b: RefBook, o: NewOrder)
    requires Tidy(b.resting, b.seen, o.sequence) && Tidy(b.resting, b.seen + [o.id], o.sequence)
    ensures var (b', r) := FlatApply(b, New(o));
            (Ordered(b'), r) == Apply(Ordered(b), New(o)) && Tidy(b'.resting, b'.seen, o.sequence)
  {
    SeenRefines(b, o.id);
    if Validate(o).None? && o.id !in b.seen {
      assert o.id !in Ids(b.resting) by { TidyMeans(b.resting, b.seen, o.sequence); }
      FlatEnterRefines(b.(seen := b.seen + [o.id]), o.side, o.id, o.sequence, o.limit, o.quantity);
    }
  }

  /** Erasing a found order on both sides of the refinement. */
  lemma ErasedRefines(b: RefBook, id: OrderId, bound: int)
    requires Tidy(b.resting, b.seen, bound) && Lookup(b.resting, id) < |b.resting|
    ensures var i := Lookup(b.resting, id);
            var b' := b.(resting := RemoveAt(b.resting, i));
            && Rests(Ordered(b), id) && SideOf(Ordered(b), id) == b.resting[i].side
            && Find(Ordered(b), id) == SlotOf(b.resting[i])
            && Ordered(b') == Remove(Ordered(b), id)
            && Tidy(b'.resting, b'.seen, bound) && id !in Ids(b'.resting)
  {
    var v := b.resting;
    var i := Lookup(v, id);
    TidyRemove(v, i, b.seen, bound);
    TidyMeans(v, b.seen, bound);
    SlotPlace(v, i);
    SlotErased(v, i);
    IdErased(v, i);
  }

  lemma IdErased(v: seq<RefOrder>, i: nat)
    requires DistinctIds(v) && i < |v|
    ensures v[i].id !in Ids(RemoveAt(v, i))
  {
    forall j | 0 <= j < |v| - 1 ensures RemoveAt(v, i)[j].id != v[i].id {
      assert RemoveAt(v, i)[j] == v[if j < i then j else j + 1];
    }
  }

  lemma CancelRefines(b: RefBook, k: CancelOrder)
    requires Tidy(b.resting, b.seen, k.sequence)
    ensures var (b', r) := FlatApply(b, Types.Cancel(k));
            (Ordered(b'), r) == Apply(Ordered(b), Types.Cancel(k)) && Tidy(b'.resting, b'.seen, k.sequence)
  {
    if Lookup(b.resting, k.id) < |b.resting| {
      ErasedRefines(b, k.id, k.sequence);
    } else {
      Looked(b.resting, k.id, b.seen, k.sequence);
    }
  }

  lemma ReplaceRefines(b: RefBook, r: ReplaceOrder)
    requires Tidy(b.resting, b.seen, r.sequence)
    ensures var (b', o) := FlatApply(b, Types.Replace(r));
            (Ordered(b'), o) == Apply(Ordered(b), Types.Replace(r)) && Tidy(b'.resting, b'.seen, r.sequence)
  {
    var v := b.resting;
    var i := Lookup(v, r.id);
    if i == |v| {
      Looked(v, r.id, b.seen, r.sequence);
    } else {
      ErasedRefines(b, r.id, r.sequence);
      if KeepsPlace(Ordered(b), r) {
        ShrunkRefines(b, r);
      } else {
        assert r.id in b.seen by { TidyMeans(v, b.seen, r.sequence); }
        FlatEnterRefines(b.(resting := RemoveAt(v, i)), v[i].side, r.id, r.sequence, Some(r.price), r.quantity);
      }
    }
  }

  lemma ShrunkRefines(b: RefBook, r: ReplaceOrder)
    requires Tidy(b.resting, b.seen, r.sequence) && Lookup(b.resting, r.id) < |b.resting|
    ensures var i := Lookup(b.resting, r.id);
            var s := b.resting[i].side;
            var q := Prio(b.resting, s);
            var b' := b.(resting := b.resting[i := b.resting[i].(units := r.quantity)]);
            && Index(q, r.id) < |q|
            && Ordered(b') == Ordered(b).With(s, q[Index(q, r.id) := q[Index(q, r.id)].(units := r.quantity)])
            && Tidy(b'.resting, b'.seen, r.sequence)
  {
    var v := b.resting;
    var i := Lookup(v, r.id);
    var s := v[i].side;
    Looked(v, r.id, b.seen, r.sequence);
    TidyResize(v, i, r.quantity, b.seen, r.sequence);
    TidyMeans(v, b.seen, r.sequence);
    PrioResize(v, i, r.quantity, s);
    PrioResize(v, i, r.quantity, s.Opposite());
    PrioDistinct(v, s);
    WithoutIsRemoveAt(Prio(v, s), Index(Prio(v, s), r.id), r.quantity);
  }
}
