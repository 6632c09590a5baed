/** Reading the storage level by level gives the aggregates of the contents. */
module BookQueries {
  import opened Types
  import opened BookSpec
  import opened Ladder
  import opened StoreSteps

  function LevelPrices(levels: seq<PriceLevel>): seq<Price> {
    seq(|levels|, i requires 0 <= i < |levels| => levels[i].price)
  }

  function QuoteOf(level: PriceLevel): LevelQuote {
    LevelQuote(level.price, level.total, |level.orders|)
  }

  lemma SlotsConcat(a: seq<Cell>, b: seq<Cell>, nodes: Arena)
    requires Live(a + b, nodes)
    ensures Live(a, nodes) && Live(b, nodes) && Slots(a + b, nodes) == Slots(a, nodes) + Slots(b, nodes)
  {
    assert forall i :: 0 <= i < |a| ==> a[i] == (a + b)[i];
    assert forall i :: 0 <= i < |b| ==> b[i] == (a + b)[|a| + i];
  }

  /** A run of slots at one price contributes that price once. */
  lemma {:induction false} PricesRun(a: seq<Slot>, b: seq<Slot>, p: Price)
    requires a != [] && forall i :: 0 <= i < |a| ==> a[i].price == p
    requires b == [] || b[0].price != p
    ensures Prices(a + b) == [p] + Prices(b)
    decreases |a|
  {
    assert (a + b)[1..] == a[1..] + b;
    if |a| > 1 {
      PricesRun(a[1..], b, p);
    } else {
      assert a[1..] + b == b;
    }
  }

  lemma {:induction false} PricesAre(s: Side, levels: seq<PriceLevel>, nodes: Arena)
    requires Strict(s, levels) && NonEmpty(levels) && Live(Cells(levels), nodes)
    ensures Prices(Slots(Cells(levels), nodes)) == LevelPrices(levels)
    ensures levels != [] ==> Cells(levels) != [] && Cells(levels)[0].price == levels[0].price
    decreases |levels|
  {
    if levels != [] {
      var a, b := LevelCells(levels[0]), Cells(levels[1..]);
      SlotsConcat(a, b, nodes);
      assert forall i :: 0 <= i < |levels[1..]| ==> levels[1..][i] == levels[i + 1];
      PricesAre(s, levels[1..], nodes);
      assert |a| > 0 && a[0].price == levels[0].price;
      PricesRun(Slots(a, nodes), Slots(b, nodes), levels[0].price);
    }
  }

  /** The slots resting at a level's price are exactly the level's orders, in order. */
  lemma {:induction false} LevelIsAt(s: Side, levels: seq<PriceLevel>, nodes: Arena, i: nat)
    requires Strict(s, levels) && Live(Cells(levels), nodes) && i < |levels|
    ensures Live(LevelCells(levels[i]), nodes)
    ensures At(Slots(Cells(levels), nodes), levels[i].price) == Slots(LevelCells(levels[i]), nodes)
    decreases |levels|
  {
    var a, b := LevelCells(levels[0]), Cells(levels[1..]);
    SlotsConcat(a, b, nodes);
    AtConcat(Slots(a, nodes), Slots(b, nodes), levels[i].price);
    if i == 0 {
      AtFirst(s, levels, nodes);
    } else {
      AtLater(s, levels, nodes, i);
      LevelIsAt(s, levels[1..], nodes, i - 1);
    }
  }

  lemma AtFirst(s: Side, levels: seq<PriceLevel>, nodes: Arena)
    requires Strict(s, levels) && levels != [] && Live(LevelCells(levels[0]), nodes) && Live(Cells(levels[1..]), nodes)
    ensures At(Slots(LevelCells(levels[0]), nodes), levels[0].price) == Slots(LevelCells(levels[0]), nodes)
    ensures At(Slots(Cells(levels[1..]), nodes), levels[0].price) == []
  {
    AtAll(Slots(LevelCells(levels[0]), nodes), levels[0].price);
    CellsElsewhere(levels[1..], levels[0].price);
    AtNone(Slots(Cells(levels[1..]), nodes), levels[0].price);
  }

  lemma AtLater(s: Side, levels: seq<PriceLevel>, nodes: Arena, i: nat)
    requires Strict(s, levels) && 0 < i < |levels| && Live(LevelCells(levels[0]), nodes)
    ensures At(Slots(LevelCells(levels[0]), nodes), levels[i].price) == []
    ensures levels[1..][i - 1] == levels[i] && Strict(s, levels[1..])
  {
    AtNone(Slots(LevelCells(levels[0]), nodes), levels[i].price);
  }

  lemma QuoteIs(s: Side, levels: seq<PriceLevel>, nodes: Arena, i: nat)
    requires Strict(s, levels) && Live(Cells(levels), nodes) && i < |levels|
    requires Totals(levels, Slots(Cells(levels), nodes))
    ensures QuoteOf(levels[i]) == Quote(Slots(Cells(levels), nodes), levels[i].price)
  {
    LevelIsAt(s, levels, nodes, i);
  }

  /** The depth of the contents, read off the levels. */
  lemma DepthIs(s: Side, levels: seq<PriceLevel>, nodes: Arena, limit: nat)
    requires Strict(s, levels) && NonEmpty(levels) && Live(Cells(levels), nodes)
    requires Totals(levels, Slots(Cells(levels), nodes))
    ensures var d := Depth(Slots(Cells(levels), nodes), limit);
            && |d| == (if limit < |levels| then limit else |levels|)
            && forall i :: 0 <= i < |d| ==> d[i] == QuoteOf(levels[i])
  {
    var q := Slots(Cells(levels), nodes);
    PricesAre(s, levels, nodes);
    var d := Depth(q, limit);
    forall i | 0 <= i < |d| ensures d[i] == QuoteOf(levels[i]) {
      QuoteIs(s, levels, nodes, i);
      assert Prices(q)[i] == levels[i].price;
    }
  }

  /** No price level's 64-bit total reads zero, i.e. no level sum is a multiple of 2^64. */
  predicate Quotable(b: Book) {
    forall s, i :: 0 <= i < |Prices(b.On(s))| ==> Units(At(b.On(s), Prices(b.On(s))[i])) % TWO64 != 0
  }
}
