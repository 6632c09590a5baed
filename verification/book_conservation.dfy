/** Volume conservation, per side and over whole runs. */
module BookConservation {
  import opened Types
  import opened BookSpec
  import opened BookInvariant
  import opened BookPriority
  import Ladder

  /** One side's account.  `entered` counts accepted new and replacement quantities,
      `withdrawn` the quantities that replaces took out. */
  datatype Ledger = Ledger(entered: nat, executed: nat, cancelled: nat, withdrawn: nat, discarded: nat)
  {
    function Plus(o: Ledger): Ledger {
      Ledger(entered + o.entered, executed + o.executed, cancelled + o.cancelled,
             withdrawn + o.withdrawn, discarded + o.discarded)
    }

    function Out(): nat { executed + cancelled + withdrawn + discarded }
  }

  const NOTHING: Ledger := Ledger(0, 0, 0, 0, 0)

  /** The units resting under `id`, zero if it does not rest. */
  function Now(q: seq<Slot>, id: OrderId): nat { if Has(q, id) then q[Index(q, id)].units else 0 }

  /** The units that the orders of `q` have lost once the side holds `q'`, order by order. */
  function Lost(q: seq<Slot>, q': seq<Slot>): nat {
    if q == [] then 0
    else (if q[0].units < Now(q', q[0].id) then 0 else q[0].units - Now(q', q[0].id)) + Lost(q[1..], q')
  }

  /** What applying `c` books on side `s`.  The taker's side books what the answer reports as
      executed, the other side what its own resting orders lose. */
  function Entry(b: Book, c: Command, s: Side): Ledger {
    var (b', r) := Apply(b, c);
    if !r.Accepted() then NOTHING
    else if TakerSide(b, c) != s then NOTHING.(executed := Lost(b.On(s), b'.On(s)))
    else
      match c
      case New(o) =>
        var left: int := o.quantity - Traded(r.executions);
        NOTHING.(entered := o.quantity, executed := Traded(r.executions), discarded := if o.kind.Market? && left > 0 then left else 0)
      case Cancel(_) => NOTHING.(cancelled := if r.cancelled.Some? then r.cancelled.value else 0)
      case Replace(p) =>
        NOTHING.(entered := p.quantity, executed := Traded(r.executions), withdrawn := if Rests(b, p.id) then Find(b, p.id).units else 0)
  }

  function Books(b: Book, cs: seq<Command>, s: Side): Ledger
    decreases |cs|
  {
    if cs == [] then NOTHING else Entry(b, cs[0], s).Plus(Books(Apply(b, cs[0]).0, cs[1..], s))
  }

  lemma UnitsInsert(s: Side, q: seq<Slot>, x: Slot)
    ensures Units(Insert(s, q, x)) == Units(q) + x.units
  {
    var k := InsertionPoint(s, q, x.price);
    assert q == q[..k] + q[k..];
    Ladder.UnitsConcat(q[..k], q[k..]);
    Ladder.UnitsConcat(q[..k] + [x], q[k..]);
    Ladder.UnitsConcat(q[..k], [x]);
    assert [x][1..] == [];
  }

  lemma UnitsHead(q: seq<Slot>)
    requires q != []
    ensures Units(q) == q[0].units + Units(q[1..])
  {
  }

  lemma UnitsRemove(q: seq<Slot>, i: nat)
    requires i < |q|
    ensures Units(RemoveAt(q, i)) == Units(q) - q[i].units
  {
    var a, c := q[..i], q[i + 1..];
    assert q == a + q[i..];
    Ladder.UnitsConcat(a, q[i..]);
    UnitsHead(q[i..]);
    assert q[i..][1..] == c;
    Ladder.UnitsConcat(a, c);
  }

  lemma UnitsResize(q: seq<Slot>, i: nat, units: Quantity)
    requires i < |q|
    ensures Units(q[i := q[i].(units := units)]) == Units(q) - q[i].units + units
  {
    UnitsRemove(q, i);
    UnitsRemove(q[i := q[i].(units := units)], i);
    assert RemoveAt(q[i := q[i].(units := units)], i) == RemoveAt(q, i);
  }

  lemma EnterConserves(b: Book, s: Side, id: OrderId, sequence: Sequence, limit: Option<Price>, quantity: Quantity)
    ensures var (b', r) := Enter(b, s, id, sequence, limit, quantity);
            && Traded(r.executions) <= quantity
            && Units(b'.On(s.Opposite())) + Traded(r.executions) == Units(b.On(s.Opposite()))
            && Units(b'.On(s)) == Units(b.On(s)) + (if limit.Some? then quantity - Traded(r.executions) else 0)
            && (r.remaining.Some? ==> r.remaining.value == quantity - Traded(r.executions))
            && (limit.Some? && r.remaining.None? ==> quantity == Traded(r.executions))
  {
    var c := s.Opposite();
    var t := Sweep(c, b.On(c), limit, id, quantity);
    SweepConserves(c, b.On(c), limit, id, quantity);
    if limit.Some? && t.left > 0 { UnitsInsert(s, b.On(s), Slot(limit.value, id, sequence, t.left)); }
  }

  // ----- what resting orders lose -----

  lemma NowBehind(x: Slot, q: seq<Slot>, id: OrderId)
    requires x.id != id
    ensures Now([x] + q, id) == Now(q, id)
  {
    assert ([x] + q)[1..] == q;
  }

  lemma {:induction false} LostBehind(q: seq<Slot>, x: Slot, q': seq<Slot>)
    requires forall i :: 0 <= i < |q| ==> q[i].id != x.id
    ensures Lost(q, [x] + q') == Lost(q, q')
    decreases |q|
  {
    if q != [] {
      NowBehind(x, q', q[0].id);
      LostBehind(q[1..], x, q');
    }
  }

  /** `q'` is what is left of `q` after its first `k` orders went and others shrank. */
  predicate LeftOf(q: seq<Slot>, q': seq<Slot>, k: nat) {
    && k + |q'| == |q|
    && forall i :: 0 <= i < |q'| ==> q'[i].id == q[k + i].id && q'[i].units <= q[k + i].units
  }

  lemma {:induction false} LostIs(q: seq<Slot>, q': seq<Slot>, k: nat)
    requires Distinct(q) && LeftOf(q, q', k)
    ensures Lost(q, q') == Units(q) - Units(q')
    decreases |q|
  {
    if q != [] {
      assert Distinct(q[1..]);
      UnitsHead(q);
      if k > 0 {
        assert LeftOf(q[1..], q', k - 1);
        LostIs(q[1..], q', k - 1);
        GoneFrom(q, q', k);
      } else {
        assert LeftOf(q[1..], q'[1..], 0);
        LostIs(q[1..], q'[1..], 0);
        UnitsHead(q');
        assert q' == [q'[0]] + q'[1..];
        LostBehind(q[1..], q'[0], q'[1..]);
      }
    }
  }

  lemma GoneFrom(q: seq<Slot>, q': seq<Slot>, k: nat)
    requires Distinct(q) && LeftOf(q, q', k) && k > 0
    ensures Now(q', q[0].id) == 0
  {
  }

  lemma SweepLoses(s: Side, q: seq<Slot>, limit: Option<Price>, incoming: OrderId, units: nat)
    requires units < TWO64 && Distinct(q)
    ensures var t := Sweep(s, q, limit, incoming, units); Lost(q, t.rest) == Traded(t.executions)
  {
    var t := Sweep(s, q, limit, incoming, units);
    SweepShape(s, q, limit, incoming, units);
    RestIsSuffix(s, q, limit, incoming, t);
    LostIs(q, t.rest, Consumed(q, t));
    SweepConserves(s, q, limit, incoming, units);
  }

  lemma EnterLoses(b: Book, s: Side, id: OrderId, sequence: Sequence, limit: Option<Price>, quantity: Quantity)
    requires Wf(b)
    ensures var (b', r) := Enter(b, s, id, sequence, limit, quantity);
            Lost(b.On(s.Opposite()), b'.On(s.Opposite())) == Traded(r.executions)
  {
    var c := s.Opposite();
    SweepLoses(c, b.On(c), limit, id, quantity);
  }

  /** What the orders resting on the other side lose in one command is what the answer reports as executed. */
  lemma MakersLose(b: Book, c: Command)
    requires Wf(b)
    ensures var (b', r) := Apply(b, c);
            var s := TakerSide(b, c).Opposite();
            r.Accepted() ==> Lost(b.On(s), b'.On(s)) == Traded(r.executions)
  {
    match c
    case New(o) =>
      if Validate(o).None? && o.id !in b.seen {
        NewIdKeeps(b, o.id);
        EnterLoses(b.(seen := b.seen + {o.id}), o.side, o.id, o.sequence, o.limit, o.quantity);
      }
    case Cancel(k) => if Rests(b, k.id) { NothingLost(b, c); }
    case Replace(r) =>
      if Rests(b, r.id) {
        if KeepsPlace(b, r) {
          NothingLost(b, c);
        } else {
          RemoveKeeps(b, r.id);
          RemoveUnits(b, r.id);
          EnterLoses(Remove(b, r.id), SideOf(b, r.id), r.id, r.sequence, Some(r.price), r.quantity);
        }
      }
  }

  lemma NothingLost(b: Book, c: Command)
    requires Wf(b)
    ensures var s := TakerSide(b, c).Opposite(); Lost(b.On(s), b.On(s)) == 0
  {
    var q := b.On(TakerSide(b, c).Opposite());
    LostIs(q, q, 0);
  }

  // ----- one command -----

  predicate Balanced(b: Book, c: Command, s: Side) {
    Units(b.On(s)) + Entry(b, c, s).entered == Units(Apply(b, c).0.On(s)) + Entry(b, c, s).Out()
  }

  lemma BalancedBy(b: Book, c: Command, s: Side, e: Ledger, units: nat)
    requires Entry(b, c, s) == e && Units(Apply(b, c).0.On(s)) == units
    requires Units(b.On(s)) + e.entered == units + e.Out()
    ensures Balanced(b, c, s)
  {
  }

  lemma RejectedBalances(b: Book, c: Command, s: Side)
    requires !Apply(b, c).1.Accepted()
    ensures Balanced(b, c, s)
  {
    RejectedChangesNothing(b, c);
    BalancedBy(b, c, s, NOTHING, Units(b.On(s)));
  }

  lemma MakerEntry(b: Book, c: Command)
    requires Wf(b) && Apply(b, c).1.Accepted()
    ensures Entry(b, c, TakerSide(b, c).Opposite()) == NOTHING.(executed := Traded(Apply(b, c).1.executions))
  {
    MakersLose(b, c);
  }

  lemma NewEntry(b: Book, o: NewOrder)
    requires Validate(o).None? && o.id !in b.seen
    ensures var (b', r) := Enter(b.(seen := b.seen + {o.id}), o.side, o.id, o.sequence, o.limit, o.quantity);
            && Apply(b, New(o)) == (b', r) && r.Accepted()
            && (Traded(r.executions) <= o.quantity ==>
                  Entry(b, New(o), o.side) ==
                  Ledger(o.quantity, Traded(r.executions), 0, 0, if o.limit.None? then o.quantity - Traded(r.executions) else 0))
  {
  }

  lemma NewBalances(b: Book, o: NewOrder, s: Side)
    requires Wf(b)
    ensures Balanced(b, New(o), s)
  {
    if Validate(o).None? && o.id !in b.seen {
      var b1 := b.(seen := b.seen + {o.id});
      assert b1.On(s) == b.On(s);
      EnterConserves(b1, o.side, o.id, o.sequence, o.limit, o.quantity);
      NewEntry(b, o);
      MakerEntry(b, New(o));
      BalancedBy(b, New(o), s, Entry(b, New(o), s), Units(Apply(b, New(o)).0.On(s)));
    } else {
      RejectedBalances(b, New(o), s);
    }
  }

  lemma CancelEntry(b: Book, k: CancelOrder)
    requires Rests(b, k.id)
    ensures Apply(b, Cancel(k)) == (Remove(b, k.id), Outcome([], None, None, Some(Find(b, k.id).units)))
    ensures Entry(b, Cancel(k), SideOf(b, k.id)) == NOTHING.(cancelled := Find(b, k.id).units)
  {
  }

  lemma CancelBalances(b: Book, k: CancelOrder, s: Side)
    requires Wf(b)
    ensures Balanced(b, Cancel(k), s)
  {
    if Rests(b, k.id) {
      RemoveUnits(b, k.id);
      CancelEntry(b, k);
      MakerEntry(b, Cancel(k));
      BalancedBy(b, Cancel(k), s, Entry(b, Cancel(k), s), Units(Remove(b, k.id).On(s)));
    } else {
      RejectedBalances(b, Cancel(k), s);
    }
  }

  lemma ReplaceEntry(b: Book, r: ReplaceOrder)
    requires Rests(b, r.id)
    ensures var (b', o) := ReplaceOne(b, r);
            && Apply(b, Replace(r)) == (b', o)
            && (o.Accepted() ==>
                  Entry(b, Replace(r), SideOf(b, r.id)) == Ledger(r.quantity, Traded(o.executions), 0, Find(b, r.id).units, 0))
  {
  }

  lemma RemoveUnits(b: Book, id: OrderId)
    requires Rests(b, id)
    ensures var s := SideOf(b, id);
            && Units(Remove(b, id).On(s)) == Units(b.On(s)) - Find(b, id).units
            && Remove(b, id).On(s.Opposite()) == b.On(s.Opposite())
  {
    UnitsRemove(b.On(SideOf(b, id)), Index(b.On(SideOf(b, id)), id));
  }

  lemma ReduceUnits(b: Book, r: ReplaceOrder)
    requires Rests(b, r.id) && KeepsPlace(b, r)
    ensures var s := SideOf(b, r.id);
            var b' := ReplaceOne(b, r).0;
            && Units(b'.On(s)) == Units(b.On(s)) - Find(b, r.id).units + r.quantity
            && b'.On(s.Opposite()) == b.On(s.Opposite())
  {
    var s := SideOf(b, r.id);
    UnitsResize(b.On(s), Index(b.On(s), r.id), r.quantity);
  }

  lemma MovedUnits(b: Book, r: ReplaceOrder)
    requires Rests(b, r.id) && !KeepsPlace(b, r)
    ensures var s := SideOf(b, r.id);
            var (b', o) := ReplaceOne(b, r);
            && Units(b'.On(s)) == Units(b.On(s)) - Find(b, r.id).units + r.quantity - Traded(o.executions)
            && Units(b'.On(s.Opposite())) + Traded(o.executions) == Units(b.On(s.Opposite()))
  {
    RemoveUnits(b, r.id);
    EnterConserves(Remove(b, r.id), SideOf(b, r.id), r.id, r.sequence, Some(r.price), r.quantity);
  }

  lemma ReplacedUnits(b: Book, r: ReplaceOrder)
    requires Rests(b, r.id)
    ensures var s := SideOf(b, r.id);
            var (b', o) := ReplaceOne(b, r);
            && o.Accepted()
            && Units(b'.On(s)) == Units(b.On(s)) - Find(b, r.id).units + r.quantity - Traded(o.executions)
            && Units(b'.On(s.Opposite())) + Traded(o.executions) == Units(b.On(s.Opposite()))
  {
    if KeepsPlace(b, r) { ReduceUnits(b, r); } else { MovedUnits(b, r); }
  }

  lemma ReplaceBalances(b: Book, r: ReplaceOrder, s: Side)
    requires Wf(b)
    ensures Balanced(b, Replace(r), s)
  {
    if Rests(b, r.id) {
      ReplacedUnits(b, r);
      ReplaceEntry(b, r);
      MakerEntry(b, Replace(r));
      BalancedBy(b, Replace(r), s, Entry(b, Replace(r), s), Units(ReplaceOne(b, r).0.On(s)));
    } else {
      RejectedBalances(b, Replace(r), s);
    }
  }

  lemma StepConserves(b: Book, c: Command, s: Side)
    requires Wf(b)
    ensures Balanced(b, c, s)
  {
    match c
    case New(o) => NewBalances(b, o, s);
    case Cancel(k) => CancelBalances(b, k, s);
    case Replace(r) => ReplaceBalances(b, r, s);
  }

  /** Over every run from the empty book, on each side: what entered equals what
      was executed, cancelled, withdrawn by replaces or discarded, plus what rests;
      and the two sides executed the same number of units. */
  lemma VolumeIsConserved(cs: seq<Command>, s: Side)
    ensures Books(EMPTY, cs, s).entered == Books(EMPTY, cs, s).Out() + Units(Run(EMPTY, cs).On(s))
    ensures Books(EMPTY, cs, s).executed == Books(EMPTY, cs, s.Opposite()).executed
  {
    RunConserves(EMPTY, cs, s);
    ExecutedMatch(EMPTY, cs, s);
  }

  lemma {:induction false} RunConserves(b: Book, cs: seq<Command>, s: Side)
    requires Wf(b)
    ensures Units(b.On(s)) + Books(b, cs, s).entered == Units(Run(b, cs).On(s)) + Books(b, cs, s).Out()
    decreases |cs|
  {
    if cs != [] {
      StepConserves(b, cs[0], s);
      ApplyKeeps(b, cs[0]);
      RunConserves(Apply(b, cs[0]).0, cs[1..], s);
    }
  }

  /** In one command the taker's side executes what the other side's resting orders lose. */
  lemma StepMatches(b: Book, c: Command, s: Side)
    requires Wf(b)
    ensures Entry(b, c, s).executed == Entry(b, c, s.Opposite()).executed
  {
    if Apply(b, c).1.Accepted() {
      MakerEntry(b, c);
      QuietCancel(b, c);
      assert s == TakerSide(b, c) || s == TakerSide(b, c).Opposite();
    }
  }

  lemma QuietCancel(b: Book, c: Command)
    ensures c.Cancel? ==> Traded(Apply(b, c).1.executions) == 0
  {
  }

  lemma {:induction false} ExecutedMatch(b: Book, cs: seq<Command>, s: Side)
    requires Wf(b)
    ensures Books(b, cs, s).executed == Books(b, cs, s.Opposite()).executed
    decreases |cs|
  {
    if cs != [] {
      StepMatches(b, cs[0], s);
      ApplyKeeps(b, cs[0]);
      ExecutedMatch(Apply(b, cs[0]).0, cs[1..], s);
    }
  }
}
