/** Where 64-bit level totals stop being readable, and why they are readable below that. */
module BookLimits {
  import opened Types
  import opened BookSpec
  import opened BookInvariant
  import opened BookQueries

  lemma {:induction false} PriceIsHeld(q: seq<Slot>, i: nat)
    requires i < |Prices(q)|
    ensures exists j :: 0 <= j < |q| && q[j].price == Prices(q)[i]
    decreases |q|
  {
    if |q| > 1 && q[1].price == q[0].price {
      PriceIsHeld(q[1..], i);
      var j :| 0 <= j < |q[1..]| && q[1..][j].price == Prices(q)[i];
      assert q[j + 1].price == Prices(q)[i];
    } else if i == 0 {
      assert q[0].price == Prices(q)[0];
    } else {
      PriceIsHeld(q[1..], i - 1);
      var j :| 0 <= j < |q[1..]| && q[1..][j].price == Prices(q)[i];
      assert q[j + 1].price == Prices(q)[i];
    }
  }

  lemma {:induction false} HeldHasUnits(q: seq<Slot>, j: nat)
    requires j < |q|
    ensures Units(At(q, q[j].price)) > 0
    decreases |q|
  {
    var p := q[j].price;
    if q[0].price == p {
      assert At(q, p)[0] == q[0];
    } else {
      HeldHasUnits(q[1..], j - 1);
      assert At(q, p) == At(q[1..], p);
    }
  }

  predicate SumsFit(b: Book) {
    forall s, i :: 0 <= i < |Prices(b.On(s))| ==> Units(At(b.On(s), Prices(b.On(s))[i])) < TWO64
  }

  /** Below 2^64 units per level every total reads as what it is, so the audit of any
      such book succeeds. */
  lemma SumsThatFitRead(b: Book)
    requires SumsFit(b)
    ensures Quotable(b)
    ensures forall s, i :: 0 <= i < |Prices(b.On(s))| ==>
              0 < Quote(b.On(s), Prices(b.On(s))[i]).units == Units(At(b.On(s), Prices(b.On(s))[i]))
  {
    forall s, i | 0 <= i < |Prices(b.On(s))| ensures 0 < Units(At(b.On(s), Prices(b.On(s))[i])) {
      PriceIsHeld(b.On(s), i);
      var j :| 0 <= j < |b.On(s)| && b.On(s)[j].price == Prices(b.On(s))[i];
      HeldHasUnits(b.On(s), j);
    }
  }

  function Bid(n: Sequence, id: OrderId, quantity: Quantity): Command {
    New(NewOrder(n, id, Buy, Limit, quantity, Some(1)))
  }

  lemma RunTwo(b: Book, c: Command, d: Command)
    ensures Run(b, [c, d]) == Apply(Apply(b, c).0, d).0
    ensures Outcomes(b, [c, d]) == [Apply(b, c).1, Apply(Apply(b, c).0, d).1]
  {
    var b1 := Apply(b, c).0;
    assert [c, d][1..] == [d] && [d][1..] == [];
    assert Run(b1, [d]) == Run(Apply(b1, d).0, []);
    assert Outcomes(b1, [d]) == [Apply(b1, d).1] + Outcomes(Apply(b1, d).0, []);
  }

  lemma TwoBids(x: Quantity, y: Quantity)
    ensures Run(EMPTY, [Bid(1, 1, x), Bid(2, 2, y)]) == Book([Slot(1, 1, 1, x), Slot(1, 2, 2, y)], [], {1, 2})
    ensures forall i :: 0 <= i < |Outcomes(EMPTY, [Bid(1, 1, x), Bid(2, 2, y)])| ==>
              Outcomes(EMPTY, [Bid(1, 1, x), Bid(2, 2, y)])[i].Accepted()
  {
    var c, d := Bid(1, 1, x), Bid(2, 2, y);
    RunTwo(EMPTY, c, d);
    var b := Book([Slot(1, 1, 1, x)], [], {1});
    assert Insert(Buy, [], Slot(1, 1, 1, x)) == [Slot(1, 1, 1, x)];
    assert Apply(EMPTY, c).0 == b;
    assert InsertionPoint(Buy, b.bids, 1) == 1 by { assert b.bids[1..] == []; }
    assert Insert(Buy, b.bids, Slot(1, 2, 2, y)) == [Slot(1, 1, 1, x), Slot(1, 2, 2, y)];
    assert b.seen + {2} == {1, 2};
    assert Apply(b, d).0 == Book([Slot(1, 1, 1, x), Slot(1, 2, 2, y)], [], {1, 2});
  }

  lemma PairTail(x: Slot, y: Slot)
    ensures [x, y][1..] == [y] && [y][1..] == []
  {
  }

  lemma PricesOfTwo(x: Slot, y: Slot)
    requires x.price == y.price
    ensures Prices([x, y]) == [x.price]
  {
    PairTail(x, y);
    assert Prices([y]) == [y.price] + Prices([y][1..]);
    assert Prices([y][1..]) == [];
    assert Prices([x, y]) == Prices([x, y][1..]);
  }

  lemma AtOfTwo(x: Slot, y: Slot)
    requires x.price == y.price
    ensures At([x, y], x.price) == [x, y]
  {
    PairTail(x, y);
    assert At([y][1..], x.price) == [];
    assert At([y], x.price) == [y] + At([y][1..], x.price);
    assert At([x, y], x.price) == [x] + At([x, y][1..], x.price);
  }

  lemma UnitsOfTwo(x: Slot, y: Slot)
    ensures Units([x, y]) == x.units + y.units
  {
    PairTail(x, y);
    assert Units([y]) == y.units + Units([y][1..]);
    assert Units([x, y]) == x.units + Units([x, y][1..]);
  }

  /** Two resting orders of 2^63 units at one price: the level's total reads zero, although
      both commands were accepted and every other part of the invariant holds. */
  lemma TotalsCanVanish()
    ensures var cs := [Bid(1, 1, TWO63), Bid(2, 2, TWO63)];
            Wf(Run(EMPTY, cs)) && !Quotable(Run(EMPTY, cs))
            && forall i :: 0 <= i < |Outcomes(EMPTY, cs)| ==> Outcomes(EMPTY, cs)[i].Accepted()
  {
    var cs := [Bid(1, 1, TWO63), Bid(2, 2, TWO63)];
    RunKeeps(EMPTY, cs);
    TwoBids(TWO63, TWO63);
    var b := Run(EMPTY, cs);
    var x, y := b.bids[0], b.bids[1];
    assert b.bids == [x, y];
    PricesOfTwo(x, y);
    AtOfTwo(x, y);
    UnitsOfTwo(x, y);
    assert Units(At(b.On(Buy), Prices(b.On(Buy))[0])) == TWO64;
  }
}
