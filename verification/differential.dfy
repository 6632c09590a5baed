/** The book against the reference: same answers and same observations over every
    run whose sequence numbers never decrease. */
module Differential {
  import opened Types
  import opened BookSpec
  import opened ReferenceSpec
  import opened Refinement
  import Ladder

  // ----- depth -----

  function InsertPrice(s: Side, ps: seq<Price>, p: Price): seq<Price> {
    if ps == [] || Better(s, p, ps[0]) then [p] + ps
    else if ps[0] == p then ps
    else [ps[0]] + InsertPrice(s, ps[1..], p)
  }

  lemma PricesHead(q: seq<Slot>)
    ensures q == [] <==> Prices(q) == []
    ensures q != [] ==> Prices(q)[0] == q[0].price
  {
  }

  lemma PricesCons(x: Slot, q: seq<Slot>)
    ensures Prices([x] + q) == if q != [] && q[0].price == x.price then Prices(q) else [x.price] + Prices(q)
  {
    assert ([x] + q)[1..] == q;
  }

  lemma {:induction false} PricesInsert(s: Side, q: seq<Slot>, x: Slot)
    requires Sorted(s, q)
    ensures Prices(Insert(s, q, x)) == InsertPrice(s, Prices(q), x.price)
    decreases |q|
  {
    InsertUnfolds(s, q, x);
    PricesHead(q);
    if q == [] || Better(s, x.price, q[0].price) {
      PricesCons(x, q);
    } else {
      var r := Insert(s, q[1..], x);
      PricesInsert(s, q[1..], x);
      InsertUnfolds(s, q[1..], x);
      PricesCons(q[0], r);
      assert q == [q[0]] + q[1..];
      PricesCons(q[0], q[1..]);
      PricesHead(q[1..]);
      PricesHead(r);
    }
  }

  lemma AtInsert(s: Side, q: seq<Slot>, x: Slot, p: Price)
    ensures |At(Insert(s, q, x), p)| == |At(q, p)| + if p == x.price then 1 else 0
    ensures Units(At(Insert(s, q, x), p)) == Units(At(q, p)) + if p == x.price then x.units else 0
  {
    var k := InsertionPoint(s, q, x.price);
    assert q == q[..k] + q[k..];
    Ladder.UnitsAtWith(q[..k], x, q[k..], p);
    Ladder.AtConcat(q[..k], q[k..], p);
    Ladder.AtConcat(q[..k] + [x], q[k..], p);
    Ladder.AtConcat(q[..k], [x], p);
    assert [x][1..] == [];
  }

  function Quotes(q: seq<Slot>, ps: seq<Price>): seq<LevelQuote> {
    if ps == [] then [] else [Quote(q, ps[0])] + Quotes(q, ps[1..])
  }

  lemma {:induction false} QuotesAre(q: seq<Slot>, ps: seq<Price>)
    ensures |Quotes(q, ps)| == |ps| && forall i :: 0 <= i < |ps| ==> Quotes(q, ps)[i] == Quote(q, ps[i])
    decreases |ps|
  {
    if ps != [] { QuotesAre(q, ps[1..]); }
  }

  predicate Descending(s: Side, ps: seq<Price>) {
    forall i, j :: 0 <= i < j < |ps| ==> Better(s, ps[i], ps[j])
  }

  /** Adding an order changes the aggregate of its own price only. */
  lemma QuoteInsert(s: Side, q: seq<Slot>, x: Slot, p: Price)
    ensures p != x.price ==> Quote(Insert(s, q, x), p) == Quote(q, p)
    ensures p == x.price ==>
              Quote(Insert(s, q, x), p) == LevelQuote(p, Wrap(Quote(q, p).units + x.units), Quote(q, p).orders + 1)
  {
    AtInsert(s, q, x, p);
    if p == x.price { WrapAdd(Units(At(q, p)), x.units); }
  }

  lemma {:induction false} QuotesUnchanged(s: Side, q: seq<Slot>, x: Slot, ps: seq<Price>)
    requires x.price !in ps
    ensures Quotes(Insert(s, q, x), ps) == Quotes(q, ps)
    decreases |ps|
  {
    if ps != [] {
      QuoteInsert(s, q, x, ps[0]);
      QuotesUnchanged(s, q, x, ps[1..]);
    }
  }

  lemma {:induction false} QuotesTally(s: Side, q: seq<Slot>, x: Slot, ps: seq<Price>)
    requires Descending(s, ps) && (x.price !in ps ==> At(q, x.price) == [])
    ensures Quotes(Insert(s, q, x), InsertPrice(s, ps, x.price)) == Tally(s, Quotes(q, ps), x.price, x.units)
    decreases |ps|
  {
    if ps == [] || Better(s, x.price, ps[0]) {
      NotAmong(s, ps, x.price);
      TallyNew(s, q, x, ps);
    } else if ps[0] == x.price {
      TallySame(s, q, x, ps);
    } else {
      QuotesTally(s, q, x, ps[1..]);
      TallyLater(s, q, x, ps);
    }
  }

  lemma NotAmong(s: Side, ps: seq<Price>, p: Price)
    requires Descending(s, ps) && (ps == [] || Better(s, p, ps[0]))
    ensures p !in ps
  {
  }

  lemma QuotesHead(q: seq<Slot>, ps: seq<Price>)
    requires ps != []
    ensures Quotes(q, ps) != [] && Quotes(q, ps)[0] == Quote(q, ps[0]) && Quotes(q, ps)[1..] == Quotes(q, ps[1..])
  {
  }

  lemma TallyFront(s: Side, levels: seq<LevelQuote>, price: Price, units: Quantity)
    requires levels == [] || Better(s, price, levels[0].price)
    ensures Tally(s, levels, price, units) == [LevelQuote(price, Wrap(units), 1)] + levels
  {
  }

  lemma TallyNew(s: Side, q: seq<Slot>, x: Slot, ps: seq<Price>)
    requires x.price !in ps && At(q, x.price) == [] && (ps == [] || Better(s, x.price, ps[0]))
    ensures Quotes(Insert(s, q, x), [x.price] + ps) == Tally(s, Quotes(q, ps), x.price, x.units)
  {
    QuoteInsert(s, q, x, x.price);
    QuotesUnchanged(s, q, x, ps);
    QuotesCons(Insert(s, q, x), x.price, ps);
    if ps != [] { QuotesHead(q, ps); }
    TallyFront(s, Quotes(q, ps), x.price, x.units);
  }

  lemma TallySame(s: Side, q: seq<Slot>, x: Slot, ps: seq<Price>)
    requires Descending(s, ps) && ps != [] && ps[0] == x.price
    ensures Quotes(Insert(s, q, x), InsertPrice(s, ps, x.price)) == Tally(s, Quotes(q, ps), x.price, x.units)
  {
    NotAmong(s, ps[1..], x.price);
    QuoteInsert(s, q, x, x.price);
    QuotesUnchanged(s, q, x, ps[1..]);
    QuotesHead(q, ps);
    QuotesHead(Insert(s, q, x), ps);
  }

  lemma TallyLater(s: Side, q: seq<Slot>, x: Slot, ps: seq<Price>)
    requires ps != [] && ps[0] != x.price && !Better(s, x.price, ps[0])
    requires Quotes(Insert(s, q, x), InsertPrice(s, ps[1..], x.price)) == Tally(s, Quotes(q, ps[1..]), x.price, x.units)
    ensures Quotes(Insert(s, q, x), InsertPrice(s, ps, x.price)) == Tally(s, Quotes(q, ps), x.price, x.units)
  {
    QuoteInsert(s, q, x, ps[0]);
    QuotesCons(Insert(s, q, x), ps[0], InsertPrice(s, ps[1..], x.price));
    QuotesHead(q, ps);
  }

  lemma QuotesCons(q: seq<Slot>, p: Price, ps: seq<Price>)
    ensures Quotes(q, [p] + ps) == [Quote(q, p)] + Quotes(q, ps)
  {
    assert ([p] + ps)[1..] == ps;
  }

  lemma {:induction false} PricesDescend(s: Side, q: seq<Slot>)
    requires Sorted(s, q)
    ensures Descending(s, Prices(q))
    ensures forall i :: 0 <= i < |q| ==> q[i].price in Prices(q)
    decreases |q|
  {
    if q != [] {
      PricesDescend(s, q[1..]);
      PricesHead(q[1..]);
      if |q| > 1 && q[1].price != q[0].price {
        forall j | 0 <= j < |Prices(q[1..])| ensures Better(s, q[0].price, Prices(q[1..])[j]) {
          assert j == 0 || Better(s, Prices(q[1..])[0], Prices(q[1..])[j]);
        }
      }
    }
  }

  lemma {:induction false} LevelsObserved(v: seq<RefOrder>, s: Side)
    ensures FlatLevels(v, s) == Quotes(Prio(v, s), Prices(Prio(v, s)))
    decreases |v|
  {
    if v != [] {
      var w, o := v[..|v| - 1], v[|v| - 1];
      var q := Prio(w, s);
      LevelsObserved(w, s);
      if o.side == s {
        PrioSorted(w, s);
        PricesDescend(s, q);
        PricesInsert(s, q, SlotOf(o));
        if o.price !in Prices(q) { Ladder.AtNone(q, o.price); }
        QuotesTally(s, q, SlotOf(o), Prices(q));
      }
    }
  }

  /** Depth to any limit. */
  lemma DepthObserved(v: seq<RefOrder>, s: Side, limit: nat)
    ensures FlatDepth(v, s, limit) == Depth(Prio(v, s), limit)
  {
    LevelsObserved(v, s);
    QuotesAre(Prio(v, s), Prices(Prio(v, s)));
  }

  /** Best prices. */
  lemma {:induction false} BestObserved(v: seq<RefOrder>, s: Side)
    ensures FlatBest(v, s) == if Prio(v, s) == [] then None else Some(Prio(v, s)[0].price)
    decreases |v|
  {
    if v != [] {
      BestObserved(v[..|v| - 1], s);
      InsertUnfolds(s, Prio(v[..|v| - 1], s), SlotOf(v[|v| - 1]));
    }
  }

  lemma {:induction false} AggregateObserved(v: seq<RefOrder>, s: Side, p: Price)
    ensures FlatAggregate(v, s, p) == Quote(Prio(v, s), p)
    decreases |v|
  {
    if v != [] {
      var w, o := v[..|v| - 1], v[|v| - 1];
      AggregateObserved(w, s, p);
      if o.side == s { QuoteInsert(s, Prio(w, s), SlotOf(o), p); }
    }
  }

  /** Top of book: the scan of the best level is the head of the depth. */
  lemma TopObserved(v: seq<RefOrder>, s: Side)
    ensures FlatTop(v, s) == TopOf(Prio(v, s))
  {
    BestObserved(v, s);
    PricesHead(Prio(v, s));
    if Prio(v, s) != [] { AggregateObserved(v, s, Prio(v, s)[0].price); }
  }

  /** Resting counts. */
  lemma {:induction false} CountObserved(v: seq<RefOrder>)
    ensures |v| == |Prio(v, Buy)| + |Prio(v, Sell)|
    decreases |v|
  {
    if v != [] { CountObserved(v[..|v| - 1]); }
  }

  // ----- runs -----

  predicate NonDecreasing(cs: seq<Command>, bound: int) {
    && (forall i :: 0 <= i < |cs| ==> bound <= cs[i].Sequence())
    && forall i, j :: 0 <= i < j < |cs| ==> cs[i].Sequence() <= cs[j].Sequence()
  }

  lemma {:induction false} RunRefines(b: RefBook, cs: seq<Command>, bound: int)
    requires Tidy(b.resting, b.seen, bound) && NonDecreasing(cs, bound)
    ensures Ordered(FlatRun(b, cs)) == Run(Ordered(b), cs)
    ensures FlatOutcomes(b, cs) == Outcomes(Ordered(b), cs)
    decreases |cs|
  {
    if cs != [] {
      ApplyRefines(b, cs[0], bound);
      RunRefines(FlatApply(b, cs[0]).0, cs[1..], cs[0].Sequence());
    }
  }

  /** Over every run with non-decreasing sequence numbers the book answers every
      command exactly as the reference does, and afterwards best prices, top
      quotes, depth to any limit and resting counts agree. */
  lemma BookRefinesReference(cs: seq<Command>)
    requires NonDecreasing(cs, 0)
    ensures Outcomes(EMPTY, cs) == FlatOutcomes(NO_ORDERS, cs)
    ensures var b, v := Run(EMPTY, cs), FlatRun(NO_ORDERS, cs).resting;
            && (forall s :: FlatBest(v, s) == if b.On(s) == [] then None else Some(b.On(s)[0].price))
            && (forall s :: FlatTop(v, s) == TopOf(b.On(s)))
            && (forall s, limit: nat :: FlatDepth(v, s, limit) == Depth(b.On(s), limit))
            && |v| == |b.bids| + |b.asks|
  {
    assert Ordered(NO_ORDERS) == EMPTY;
    RunRefines(NO_ORDERS, cs, 0);
    var b, v := Run(EMPTY, cs), FlatRun(NO_ORDERS, cs).resting;
    assert forall s :: b.On(s) == Prio(v, s);
    forall s, limit: nat ensures FlatDepth(v, s, limit) == Depth(b.On(s), limit) { DepthObserved(v, s, limit); }
    forall s ensures FlatBest(v, s) == if b.On(s) == [] then None else Some(b.On(s)[0].price) { BestObserved(v, s); }
    forall s ensures FlatTop(v, s) == TopOf(b.On(s)) { TopObserved(v, s); }
    CountObserved(v);
  }

  // ----- the condition on sequence numbers is exact -----

  predicate Named(v: seq<RefOrder>, seen: seq<OrderId>) {
    DistinctIds(v) && forall i :: 0 <= i < |v| ==> v[i].id in seen
  }

  lemma NamedRemove(v: seq<RefOrder>, k: nat, seen: seq<OrderId>)
    requires Named(v, seen) && k < |v|
    ensures Named(RemoveAt(v, k), seen)
    ensures forall j :: 0 <= j < |v| - 1 ==> RemoveAt(v, k)[j] == v[if j < k then j else j + 1]
  {
  }

  /** Cancelling any order keeps the two books in step, whatever the sequence numbers. */
  lemma CancelInStep(b: RefBook, k: nat, sequence: Sequence)
    requires Named(b.resting, b.seen) && k < |b.resting|
    ensures var c := Types.Cancel(CancelOrder(sequence, b.resting[k].id));
            && FlatApply(b, c).0 == b.(resting := RemoveAt(b.resting, k))
            && Apply(Ordered(b), c).0 == Ordered(b.(resting := RemoveAt(b.resting, k)))
  {
    var v := b.resting;
    assert Lookup(v, v[k].id) == k;
    SlotErased(v, k);
  }

  lemma ReferencePicksSecond(v: seq<RefOrder>, incoming: OrderId)
    requires |v| == 2 && SameLevel(v[0], v[1]) && v[0].sequence > v[1].sequence
    ensures var es := FlatMatch(v, v[0].side.Opposite(), None, incoming, 1).executions;
            es != [] && es[0].resting == v[1].id
  {
    var side := v[0].side.Opposite();
    assert BestIndex(v, side, None, 0) == None;
    assert BestIndex(v, side, None, 1) == Some(0);
    assert BestIndex(v, side, None, 2) == Some(1);
  }

  lemma BookPicksFirst(v: seq<RefOrder>, incoming: OrderId)
    requires |v| == 2 && SameLevel(v[0], v[1])
    ensures var es := Sweep(v[0].side, Prio(v, v[0].side), None, incoming, 1).executions;
            es != [] && es[0].resting == v[0].id
  {
    var s := v[0].side;
    assert v == [v[0]] + [v[1]] && [] + [v[0]] == [v[0]];
    PrioSnoc([], v[0], s);
    PrioSnoc([v[0]], v[1], s);
    InsertUnfolds(s, [], SlotOf(v[0]));
    InsertUnfolds(s, [SlotOf(v[0])], SlotOf(v[1]));
    assert Prio(v, s)[0] == SlotOf(v[0]);
  }

  /** Two orders at one price, the earlier one with the larger sequence number: a
      one-unit market order hits the later one in the reference, the earlier one in the book. */
  lemma TwoDiffer(b: RefBook, unused: OrderId, sequence: Sequence)
    requires |b.resting| == 2 && unused !in b.seen && SameLevel(b.resting[0], b.resting[1])
    requires b.resting[0].sequence > b.resting[1].sequence && b.resting[0].id != b.resting[1].id
    ensures var c := New(NewOrder(sequence, unused, b.resting[0].side.Opposite(), Market, 1, None));
            FlatApply(b, c).1 != Apply(Ordered(b), c).1
  {
    SeenRefines(b, unused);
    ReferencePicksSecond(b.resting, unused);
    BookPicksFirst(b.resting, unused);
    assert b.resting[0].side.Opposite().Opposite() == b.resting[0].side;
  }

  /** A level out of sequence can be told apart: cancel everything else, then trade one unit. */
  lemma {:induction false} Distinguish(b: RefBook, i: nat, j: nat, unused: OrderId, sequence: Sequence)
    returns (cs: seq<Command>)
    requires Named(b.resting, b.seen) && unused !in b.seen
    requires i < j < |b.resting| && SameLevel(b.resting[i], b.resting[j])
    requires b.resting[i].sequence > b.resting[j].sequence
    ensures NonDecreasing(cs, sequence) && FlatOutcomes(b, cs) != Outcomes(Ordered(b), cs)
    decreases |b.resting|
  {
    var v := b.resting;
    if |v| == 2 {
      var c := New(NewOrder(sequence, unused, v[0].side.Opposite(), Market, 1, None));
      TwoDiffer(b, unused, sequence);
      DifferNow(b, c);
      cs := [c];
    } else {
      var k, i', j' := WithoutAnother(v, i, j);
      var b' := b.(resting := RemoveAt(v, k));
      var c := Types.Cancel(CancelOrder(sequence, v[k].id));
      NamedRemove(v, k, b.seen);
      CancelInStep(b, k, sequence);
      var rest := Distinguish(b', i', j', unused, sequence);
      DifferLater(b, c, b', rest);
      RisesFrom(c, rest, sequence);
      cs := [c] + rest;
    }
  }

  /** Of more than two orders, one that is neither of two given ones, and where those are without it. */
  lemma WithoutAnother(v: seq<RefOrder>, i: nat, j: nat) returns (k: nat, i': nat, j': nat)
    requires i < j < |v| && |v| > 2
    ensures k < |v| && i' < j' < |v| - 1 && |RemoveAt(v, k)| == |v| - 1
    ensures RemoveAt(v, k)[i'] == v[i] && RemoveAt(v, k)[j'] == v[j]
  {
    k := if i > 0 then 0 else if j > 1 then 1 else 2;
    i', j' := if k < i then i - 1 else i, if k < j then j - 1 else j;
  }

  lemma DifferNow(b: RefBook, c: Command)
    requires FlatApply(b, c).1 != Apply(Ordered(b), c).1
    ensures FlatOutcomes(b, [c]) != Outcomes(Ordered(b), [c])
  {
    assert FlatOutcomes(b, [c])[0] == FlatApply(b, c).1 && Outcomes(Ordered(b), [c])[0] == Apply(Ordered(b), c).1;
  }

  lemma DifferLater(b: RefBook, c: Command, b': RefBook, rest: seq<Command>)
    requires FlatApply(b, c).0 == b' && Apply(Ordered(b), c).0 == Ordered(b')
    requires FlatOutcomes(b', rest) != Outcomes(Ordered(b'), rest)
    ensures FlatOutcomes(b, [c] + rest) != Outcomes(Ordered(b), [c] + rest)
  {
    var cs := [c] + rest;
    assert cs[1..] == rest;
    assert FlatOutcomes(b, cs)[1..] == FlatOutcomes(b', rest);
    assert Outcomes(Ordered(b), cs)[1..] == Outcomes(Ordered(b'), rest);
  }

  lemma RisesFrom(c: Command, rest: seq<Command>, sequence: Sequence)
    requires c.Sequence() == sequence && NonDecreasing(rest, sequence)
    ensures NonDecreasing([c] + rest, sequence)
  {
  }

  /** From any state, the book and the reference agree on every further run with
      non-decreasing sequence numbers if and only if each level is in sequence order. */
  lemma SequenceOrderIsExact(b: RefBook, bound: Sequence, unused: OrderId)
    requires Named(b.resting, b.seen) && unused !in b.seen
    requires forall i :: 0 <= i < |b.resting| ==> b.resting[i].sequence <= bound
    ensures InSequence(b.resting) <==>
            forall cs :: NonDecreasing(cs, bound) ==> FlatOutcomes(b, cs) == Outcomes(Ordered(b), cs)
  {
    var v := b.resting;
    if InSequence(v) {
      TidyMeans(v, b.seen, bound);
      forall cs | NonDecreasing(cs, bound) ensures FlatOutcomes(b, cs) == Outcomes(Ordered(b), cs) {
        RunRefines(b, cs, bound);
      }
    } else {
      var i, j :| 0 <= i < j < |v| && SameLevel(v[i], v[j]) && v[i].sequence > v[j].sequence;
      var cs := Distinguish(b, i, j, unused, bound);
    }
  }
}
