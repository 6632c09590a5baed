/** Price-time priority, for one command and over whole runs. */
module BookPriority {
  import opened Types
  import opened BookSpec
  import opened BookInvariant

  /** The ids that rest at the same price as `id` and ahead of it. */
  function Ahead(q: seq<Slot>, id: OrderId): set<OrderId>
    requires Has(q, id)
  {
    var i := Index(q, id);
    set j | 0 <= j < i && q[j].price == q[i].price :: q[j].id
  }

  /** The order keeps its price and nobody gets ahead of it. */
  predicate KeepsRank(q: seq<Slot>, q': seq<Slot>, id: OrderId) {
    && Has(q, id) && Has(q', id)
    && q'[Index(q', id)].price == q[Index(q, id)].price
    && Ahead(q', id) <= Ahead(q, id)
  }

  // ----- what each change of a list does to the rank of an order -----

  lemma RankRemove(q: seq<Slot>, i: nat, id: OrderId)
    requires Distinct(q) && i < |q| && q[i].id != id && Has(q, id)
    ensures KeepsRank(q, RemoveAt(q, i), id)
  {
    var r, m := RemoveAt(q, i), Index(q, id);
    assert forall j :: 0 <= j < |r| ==> r[j] == q[if j < i then j else j + 1];
    var n := if i < m then m - 1 else m;
    assert r[n] == q[m];
    IndexUnique(r, n);
    forall x | x in Ahead(r, id) ensures x in Ahead(q, id) {
      var j :| 0 <= j < n && r[j].price == r[n].price && r[j].id == x;
      assert q[if j < i then j else j + 1].id == x;
    }
  }

  lemma IndexUnique(q: seq<Slot>, n: nat)
    requires n < |q| && forall j :: 0 <= j < |q| && j != n ==> q[j].id != q[n].id
    ensures Index(q, q[n].id) == n
  {
  }

  lemma RankInsert(s: Side, q: seq<Slot>, x: Slot, id: OrderId)
    requires Sorted(s, q) && Distinct(q) && x.id != id && Has(q, id)
    ensures KeepsRank(q, Insert(s, q, x), id)
  {
    var r, m, k := Insert(s, q, x), Index(q, id), InsertionPoint(s, q, x.price);
    InsertedAt(s, q, x);
    var n := if k <= m then m + 1 else m;
    assert r[n] == q[m];
    IndexUnique(r, n);
    forall y | y in Ahead(r, id) ensures y in Ahead(q, id) {
      var j :| 0 <= j < n && r[j].price == r[n].price && r[j].id == y;
      assert j != k;
      assert q[if j < k then j else j - 1].id == y;
    }
  }

  lemma RankResize(q: seq<Slot>, i: nat, units: Quantity, id: OrderId)
    requires i < |q| && Has(q, id)
    ensures KeepsRank(q, q[i := q[i].(units := units)], id)
    ensures Index(q[i := q[i].(units := units)], id) == Index(q, id)
    ensures Ahead(q[i := q[i].(units := units)], id) == Ahead(q, id)
  {
    var r := q[i := q[i].(units := units)];
    assert r[Index(q, id)].id == id && q[Index(r, id)].id == id;
    assert forall j :: 0 <= j < |q| ==> r[j].id == q[j].id && r[j].price == q[j].price;
  }

  /** An order that survives a sweep is where the consumed prefix says it is. */
  lemma SurvivorAt(s: Side, q: seq<Slot>, limit: Option<Price>, incoming: OrderId, t: Swept, id: OrderId)
    requires Shape(s, q, limit, incoming, t) && Distinct(q) && Has(t.rest, id)
    ensures Has(q, id) && Index(q, id) == Consumed(q, t) + Index(t.rest, id)
    ensures forall j :: 0 <= j < |t.rest| ==>
              t.rest[j].id == q[Consumed(q, t) + j].id && t.rest[j].price == q[Consumed(q, t) + j].price
  {
    RestIsSuffix(s, q, limit, incoming, t);
    IndexIs(q, Consumed(q, t) + Index(t.rest, id));
  }

  lemma RankSweep(s: Side, q: seq<Slot>, limit: Option<Price>, incoming: OrderId, t: Swept, id: OrderId)
    requires Shape(s, q, limit, incoming, t) && Distinct(q) && Has(t.rest, id)
    ensures KeepsRank(q, t.rest, id)
  {
    SurvivorAt(s, q, limit, incoming, t, id);
    SuffixRank(q, t.rest, Consumed(q, t), id);
  }

  /** Dropping a prefix and shrinking orders lets nobody ahead. */
  lemma SuffixRank(q: seq<Slot>, r: seq<Slot>, c: nat, id: OrderId)
    requires Has(q, id) && Has(r, id) && Index(q, id) == c + Index(r, id) && c + |r| <= |q|
    requires forall j :: 0 <= j < |r| ==> r[j].id == q[c + j].id && r[j].price == q[c + j].price
    ensures KeepsRank(q, r, id)
  {
    var n := Index(r, id);
    forall x | x in Ahead(r, id) ensures x in Ahead(q, id) {
      var j :| 0 <= j < n && r[j].price == r[n].price && r[j].id == x;
      assert q[c + j].id == x && q[c + j].price == q[c + n].price;
    }
  }

  /** A sweep that leaves `id` resting fills at its price only orders ahead of it, and perhaps `id` itself. */
  lemma FillsAhead(s: Side, q: seq<Slot>, limit: Option<Price>, incoming: OrderId, t: Swept, id: OrderId)
    requires Shape(s, q, limit, incoming, t) && Distinct(q) && Has(t.rest, id)
    ensures Has(q, id)
    ensures forall e :: e in t.executions && e.price == q[Index(q, id)].price ==> e.resting in Ahead(q, id) + {id}
  {
    SurvivorAt(s, q, limit, incoming, t, id);
    var m := Index(q, id);
    forall e | e in t.executions && e.price == q[m].price ensures e.resting in Ahead(q, id) + {id} {
      var k :| 0 <= k < |t.executions| && t.executions[k] == e;
      assert e.resting == q[k].id && e.price == q[k].price && k <= m;
    }
  }

  // ----- one command -----

  /** The side an accepted incoming order or replacement trades from. */
  function TakerSide(b: Book, c: Command): Side {
    match c
    case New(o) => o.side
    case Cancel(k) => SideOf(b, k.id)
    case Replace(r) => SideOf(b, r.id)
  }

  /** The command makes `id` lose its place: it cancels it or replaces it out of place. */
  predicate Displaces(b: Book, c: Command, id: OrderId) {
    match c
    case New(o) => false
    case Cancel(k) => k.id == id
    case Replace(r) => r.id == id && (Rests(b, id) ==> r.price != Find(b, id).price || r.quantity > Find(b, id).units)
  }

  /** The ids on side `s` that trade at price `p` when `c` is applied. */
  function Fills(b: Book, c: Command, s: Side, p: Price): set<OrderId> {
    set e | e in Apply(b, c).1.executions && e.price == p && Has(b.On(s), e.resting) :: e.resting
  }

  lemma ShapeAt(s: Side, q: seq<Slot>, limit: Option<Price>, incoming: OrderId, t: Swept, k: nat)
    requires Shape(s, q, limit, incoming, t) && k < |t.executions|
    ensures k < |q| && t.executions[k].resting == q[k].id && t.executions[k].price == q[k].price
    ensures t.executions[k].quantity <= q[k].units
    ensures k < |t.executions| - 1 ==> t.executions[k].quantity == q[k].units
  {
  }

  lemma NewExecutions(b: Book, o: NewOrder)
    ensures var s := o.side.Opposite();
            var es := Apply(b, New(o)).1.executions;
            es == [] || es == Sweep(s, b.On(s), o.limit, o.id, o.quantity).executions
  {
  }

  lemma ReplaceExecutions(b: Book, r: ReplaceOrder)
    ensures var s := SideOf(b, r.id).Opposite();
            var es := Apply(b, Replace(r)).1.executions;
            es == [] || es == Sweep(s, b.On(s), Some(r.price), r.id, r.quantity).executions
  {
    if Rests(b, r.id) {
      var s := SideOf(b, r.id).Opposite();
      assert Remove(b, r.id).On(s) == b.On(s);
    }
  }

  /** Executions hit the contra priority list from the front, in order, each but
      the last exhausting the order it hits. */
  lemma ExecutionsFollowPriority(b: Book, c: Command, k: nat)
    requires Wf(b) && k < |Apply(b, c).1.executions|
    ensures var q := b.On(TakerSide(b, c).Opposite());
            var es := Apply(b, c).1.executions;
            && k < |q| && es[k].resting == q[k].id && es[k].price == q[k].price && es[k].quantity <= q[k].units
            && (k < |es| - 1 ==> es[k].quantity == q[k].units)
  {
    var s := TakerSide(b, c).Opposite();
    match c
    case New(o) =>
      NewExecutions(b, o);
      SweepShape(s, b.On(s), o.limit, o.id, o.quantity);
      ShapeAt(s, b.On(s), o.limit, o.id, Sweep(s, b.On(s), o.limit, o.id, o.quantity), k);
    case Cancel(_) =>
    case Replace(r) =>
      ReplaceExecutions(b, r);
      SweepShape(s, b.On(s), Some(r.price), r.id, r.quantity);
      ShapeAt(s, b.On(s), Some(r.price), r.id, Sweep(s, b.On(s), Some(r.price), r.id, r.quantity), k);
  }

  /** Of `es`, only `id` and orders ahead of it trade at its price on its side. */
  predicate FillsOnlyAhead(q: seq<Slot>, es: seq<Execution>, id: OrderId)
    requires Has(q, id)
  {
    forall e :: e in es && e.price == q[Index(q, id)].price && Has(q, e.resting) ==> e.resting in Ahead(q, id) + {id}
  }

  lemma NoFillsHere(b: Book, c: Side, limit: Option<Price>, x: OrderId, t: Swept)
    requires Wf(b) && Shape(c, b.On(c), limit, x, t)
    ensures forall e :: e in t.executions ==> !Has(b.On(c.Opposite()), e.resting)
  {
    forall e | e in t.executions ensures !Has(b.On(c.Opposite()), e.resting) {
      var k :| 0 <= k < |t.executions| && t.executions[k] == e;
      ShapeAt(c, b.On(c), limit, x, t, k);
    }
  }

  lemma EnterRank(b: Book, s: Side, x: OrderId, sequence: Sequence, limit: Option<Price>, quantity: Quantity, t: Side, id: OrderId)
    requires Wf(b) && !Rests(b, x) && Has(b.On(t), id) && Has(Enter(b, s, x, sequence, limit, quantity).0.On(t), id)
    ensures var (b', r) := Enter(b, s, x, sequence, limit, quantity);
            KeepsRank(b.On(t), b'.On(t), id) && FillsOnlyAhead(b.On(t), r.executions, id)
  {
    var c := s.Opposite();
    var swept := Sweep(c, b.On(c), limit, x, quantity);
    SweepShape(c, b.On(c), limit, x, quantity);
    SweepLeft(c, b.On(c), limit, x, quantity);
    if t == c {
      RankSweep(c, b.On(c), limit, x, swept, id);
      FillsAhead(c, b.On(c), limit, x, swept, id);
    } else {
      NoFillsHere(b, c, limit, x, swept);
      if limit.Some? && swept.left > 0 { RankInsert(s, b.On(s), Slot(limit.value, x, sequence, swept.left), id); }
    }
  }

  /** One command lets nobody ahead of `id`, and at its price only it and the orders ahead of it trade. */
  predicate Respects(b: Book, c: Command, s: Side, id: OrderId)
    requires Has(b.On(s), id)
  {
    KeepsRank(b.On(s), Apply(b, c).0.On(s), id) && FillsOnlyAhead(b.On(s), Apply(b, c).1.executions, id)
  }

  lemma NewRespects(b: Book, o: NewOrder, s: Side, id: OrderId)
    requires Wf(b) && Has(b.On(s), id) && Has(Apply(b, New(o)).0.On(s), id)
    ensures Respects(b, New(o), s, id)
  {
    if Validate(o).None? && o.id !in b.seen {
      NewIdKeeps(b, o.id);
      EnterRank(b.(seen := b.seen + {o.id}), o.side, o.id, o.sequence, o.limit, o.quantity, s, id);
    }
  }

  lemma CancelRespects(b: Book, k: CancelOrder, s: Side, id: OrderId)
    requires Wf(b) && Has(b.On(s), id) && k.id != id
    ensures Respects(b, Cancel(k), s, id)
  {
    if Rests(b, k.id) && SideOf(b, k.id) == s { RankRemove(b.On(s), Index(b.On(s), k.id), id); }
  }

  lemma ReduceRespects(b: Book, r: ReplaceOrder, s: Side, id: OrderId)
    requires Wf(b) && Has(b.On(s), id) && Rests(b, r.id) && KeepsPlace(b, r)
    ensures Respects(b, Replace(r), s, id)
  {
    if SideOf(b, r.id) == s { RankResize(b.On(s), Index(b.On(s), r.id), r.quantity, id); }
  }

  lemma MoveRespects(b: Book, r: ReplaceOrder, s: Side, id: OrderId)
    requires Wf(b) && Has(b.On(s), id) && r.id != id && Rests(b, r.id) && !KeepsPlace(b, r)
    requires Has(Apply(b, Replace(r)).0.On(s), id)
    ensures Respects(b, Replace(r), s, id)
  {
    var t, b1 := SideOf(b, r.id), Remove(b, r.id);
    RemoveKeeps(b, r.id);
    if t == s { RankRemove(b.On(s), Index(b.On(s), r.id), id); }
    EnterRank(b1, t, r.id, r.sequence, Some(r.price), r.quantity, s, id);
    ReplaceFills(b, r, s);
  }

  /** While an order rests undisturbed, one command lets nobody ahead of it, and
      at its price only it and the orders ahead of it trade. */
  lemma StepKeepsPriority(b: Book, c: Command, s: Side, id: OrderId)
    requires Wf(b) && Has(b.On(s), id) && !Displaces(b, c, id) && Has(Apply(b, c).0.On(s), id)
    ensures Respects(b, c, s, id)
    ensures Fills(b, c, s, b.On(s)[Index(b.On(s), id)].price) <= Ahead(b.On(s), id) + {id}
  {
    match c
    case New(o) => NewRespects(b, o, s, id);
    case Cancel(k) => CancelRespects(b, k, s, id);
    case Replace(r) =>
      if Rests(b, r.id) {
        if KeepsPlace(b, r) { ReduceRespects(b, r, s, id); } else { MoveRespects(b, r, s, id); }
      }
  }

  /** What trades against a replacement is what the book held before it. */
  lemma ReplaceFills(b: Book, r: ReplaceOrder, s: Side)
    requires Wf(b) && Rests(b, r.id)
    ensures forall x :: Has(b.On(s), x) && x != r.id ==> Has(Remove(b, r.id).On(s), x)
    ensures forall e :: e in ReplaceOne(b, r).1.executions ==> e.resting != r.id
  {
    var t := SideOf(b, r.id);
    forall x | Has(b.On(s), x) && x != r.id ensures Has(Remove(b, r.id).On(s), x) {
      if t == s { RankRemove(b.On(s), Index(b.On(s), r.id), x); }
    }
    NeverSelf(b, r);
  }

  /** A replacement never trades with the order it replaces. */
  lemma NeverSelf(b: Book, r: ReplaceOrder)
    requires Wf(b) && Rests(b, r.id)
    ensures forall e :: e in ReplaceOne(b, r).1.executions ==> e.resting != r.id
  {
    var es := ReplaceOne(b, r).1.executions;
    forall e | e in es ensures e.resting != r.id {
      var k :| 0 <= k < |es| && es[k] == e;
      ExecutionsFollowPriority(b, Replace(r), k);
      var t := SideOf(b, r.id);
      assert Has(b.On(t), r.id) && b.On(t)[Index(b.On(t), r.id)].id == r.id;
    }
  }

  // ----- whole runs -----

  /** The order rests after every command of the run and no command displaces it. */
  predicate Stays(b: Book, cs: seq<Command>, s: Side, id: OrderId)
    decreases |cs|
  {
    Has(b.On(s), id) &&
    (cs == [] || (!Displaces(b, cs[0], id) && Stays(Apply(b, cs[0]).0, cs[1..], s, id)))
  }

  /** The ids on side `s` that trade at price `p` anywhere in the run. */
  function RunFills(b: Book, cs: seq<Command>, s: Side, p: Price): set<OrderId>
    decreases |cs|
  {
    if cs == [] then {} else Fills(b, cs[0], s, p) + RunFills(Apply(b, cs[0]).0, cs[1..], s, p)
  }

  /** Over any run throughout which an order rests undisturbed: it never loses
      rank, and nothing trades at its price but itself and the orders that were
      ahead of it when the run began. */
  lemma {:induction false} TimePriority(b: Book, cs: seq<Command>, s: Side, id: OrderId)
    requires Wf(b) && Stays(b, cs, s, id)
    ensures Has(b.On(s), id) && KeepsRank(b.On(s), Run(b, cs).On(s), id)
    ensures RunFills(b, cs, s, b.On(s)[Index(b.On(s), id)].price) <= Ahead(b.On(s), id) + {id}
    decreases |cs|
  {
    if cs != [] {
      StepKeepsPriority(b, cs[0], s, id);
      ApplyKeeps(b, cs[0]);
      TimePriority(Apply(b, cs[0]).0, cs[1..], s, id);
    }
  }

  /** An in-place replace moves nothing; an accepted replace that loses its place
      and leaves a residual puts the order behind everything at its new price. */
  lemma ReplaceRank(b: Book, r: ReplaceOrder)
    requires Wf(b) && Rests(b, r.id)
    ensures var s := SideOf(b, r.id);
            var (b', o) := ReplaceOne(b, r);
            var stays := r.price == Find(b, r.id).price && r.quantity <= Find(b, r.id).units;
            && (stays ==>
                  Has(b'.On(s), r.id) && Index(b'.On(s), r.id) == Index(b.On(s), r.id)
                  && Ahead(b'.On(s), r.id) == Ahead(b.On(s), r.id))
            && (!stays && o.remaining.Some? ==>
                  Has(b'.On(s), r.id) && b'.On(s)[Index(b'.On(s), r.id)].price == r.price
                  && forall j :: Index(b'.On(s), r.id) < j < |b'.On(s)| ==> b'.On(s)[j].price != r.price)
  {
    var s := SideOf(b, r.id);
    if KeepsPlace(b, r) {
      RankResize(b.On(s), Index(b.On(s), r.id), r.quantity, r.id);
    } else {
      RemoveKeeps(b, r.id);
      var b1 := Remove(b, r.id);
      var c := s.Opposite();
      SweepLeft(c, b1.On(c), Some(r.price), r.id, r.quantity);
      var t := Sweep(c, b1.On(c), Some(r.price), r.id, r.quantity);
      if t.left > 0 { InsertedLast(s, b1.On(s), Slot(r.price, r.id, r.sequence, t.left)); }
    }
  }

  lemma InsertedLast(s: Side, q: seq<Slot>, x: Slot)
    requires Sorted(s, q) && !Has(q, x.id)
    ensures var q' := Insert(s, q, x);
            && Has(q', x.id) && q'[Index(q', x.id)] == x
            && forall j :: Index(q', x.id) < j < |q'| ==> q'[j].price != x.price
  {
    InsertedAt(s, q, x);
    IndexUnique(Insert(s, q, x), InsertionPoint(s, q, x.price));
  }
}
