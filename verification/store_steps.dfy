/** The primitive mutations of the storage and what each does to the contents. */
module StoreSteps {
  import opened Types
  import opened BookSpec
  import opened Ladder

  // ----- arithmetic and sums -----

  lemma UnitsAtDrop(q: seq<Slot>, k: nat, p: Price)
    requires k < |q|
    ensures UnitsAt(q, p) == UnitsAt(RemoveAt(q, k), p) + if q[k].price == p then q[k].units else 0
  {
    assert q == q[..k] + [q[k]] + q[k + 1..];
    UnitsAtWith(q[..k], q[k], q[k + 1..], p);
  }

  lemma UnitsAtSet(q: seq<Slot>, k: nat, x: Slot, p: Price)
    requires k < |q| && x.price == q[k].price
    ensures UnitsAt(q[k := x], p) == UnitsAt(q, p) + if q[k].price == p then x.units - q[k].units else 0
  {
    UnitsAtDrop(q, k, p);
    UnitsAtDrop(q[k := x], k, p);
    assert RemoveAt(q[k := x], k) == RemoveAt(q, k);
  }

  /** Changing one level's total by what its price gained keeps all totals right. */
  lemma TotalsShift(s: Side, levels: seq<PriceLevel>, i: nat, level: PriceLevel, q: seq<Slot>, q': seq<Slot>, d: int)
    requires Strict(s, levels) && i < |levels| && Totals(levels, q)
    requires level.price == levels[i].price && level.total == Wrap(levels[i].total + d)
    requires forall p :: UnitsAt(q', p) == UnitsAt(q, p) + if p == level.price then d else 0
    ensures Totals(levels[i := level], q') && Strict(s, levels[i := level])
  {
    var levels' := levels[i := level];
    forall j | 0 <= j < |levels'| ensures levels'[j].total == Wrap(UnitsAt(q', levels'[j].price)) {
      if j == i {
        WrapAdd(UnitsAt(q, level.price), d);
      } else {
        assert levels[j].price != level.price;
        OtherTotal(levels, j, level, q, q', d);
      }
    }
  }

  lemma SetLevel(levels: seq<PriceLevel>, i: nat, level: PriceLevel)
    requires i < |levels|
    ensures Cells(levels[i := level]) == Cells(levels[..i]) + LevelCells(level) + Cells(levels[i + 1..])
  {
    CellsSplit(levels[i := level], i);
    assert levels[i := level][..i] == levels[..i] && levels[i := level][i + 1..] == levels[i + 1..];
  }

  /** Deleting order `k` of level `i` deletes exactly one cell. */
  lemma CellsDrop(levels: seq<PriceLevel>, i: nat, k: nat, level: PriceLevel)
    requires i < |levels| && k < |levels[i].orders|
    requires level.price == levels[i].price && level.orders == RemoveAt(levels[i].orders, k)
    ensures var n := |Cells(levels[..i])| + k;
            n < |Cells(levels)| && Cells(levels)[n] == Cell(levels[i].price, levels[i].orders[k])
            && Cells(levels[i := level]) == RemoveAt(Cells(levels), n)
  {
    var a, m, b := Cells(levels[..i]), LevelCells(levels[i]), Cells(levels[i + 1..]);
    CellsSplit(levels, i);
    SetLevel(levels, i, level);
    LevelDrop(levels[i], k, level);
    DropInMiddle(a, m, b, k);
  }

  lemma LevelDrop(level: PriceLevel, k: nat, less: PriceLevel)
    requires k < |level.orders| && less.price == level.price && less.orders == RemoveAt(level.orders, k)
    ensures LevelCells(less) == RemoveAt(LevelCells(level), k)
  {
  }

  lemma DropInMiddle<T>(a: seq<T>, m: seq<T>, b: seq<T>, k: nat)
    requires k < |m|
    ensures (a + m + b)[|a| + k] == m[k] && RemoveAt(a + m + b, |a| + k) == a + RemoveAt(m, k) + b
  {
  }

  lemma MapMinus<K, V>(m: map<K, V>, k: K)
    requires k in m
    ensures |m - {k}| == |m| - 1
  {
    assert (m - {k}).Keys == m.Keys - {k};
  }

  lemma MapPlus<K, V>(m: map<K, V>, k: K, v: V)
    requires k !in m
    ensures |m[k := v]| == |m| + 1
  {
    assert m[k := v].Keys == m.Keys + {k};
  }

  /** Order `k` of level `i` is cell number `CellNumber(levels, i, k)`. */
  function CellNumber(levels: seq<PriceLevel>, i: nat, k: nat): nat
    requires i < |levels|
  {
    |Cells(levels[..i])| + k
  }

  lemma CellIs(levels: seq<PriceLevel>, i: nat, k: nat)
    requires i < |levels| && k < |levels[i].orders|
    ensures CellNumber(levels, i, k) < |Cells(levels)|
    ensures Cells(levels)[CellNumber(levels, i, k)] == Cell(levels[i].price, levels[i].orders[k])
  {
    CellsDrop(levels, i, k, levels[i].(orders := RemoveAt(levels[i].orders, k)));
  }

  // ----- one side of the store -----

  lemma CellIsLive(s: Side, levels: seq<PriceLevel>, other: seq<Cell>, nodes: Arena, index: map<OrderId, Location>, n: nat)
    requires Half(s, levels, other, nodes, index) && n < |Cells(levels)|
    ensures Cells(levels)[n].it in nodes && nodes[Cells(levels)[n].it].id in index
  {
  }

  function Less(level: PriceLevel, k: nat, units: Quantity): PriceLevel
    requires k < |level.orders|
  {
    PriceLevel(level.price, Wrap(level.total - units), RemoveAt(level.orders, k))
  }

  lemma TakeOutHalf(s: Side, levels: seq<PriceLevel>, other: seq<Cell>, nodes: Arena, index: map<OrderId, Location>, i: nat, k: nat)
    requires Half(s, levels, other, nodes, index) && i < |levels| && k < |levels[i].orders|
    ensures levels[i].orders[k] in nodes && nodes[levels[i].orders[k]].id in index
    ensures var it := levels[i].orders[k];
            var levels' := levels[i := Less(levels[i], k, nodes[it].units)];
            && Half(s, levels', other, nodes - {it}, index - {nodes[it].id})
            && CellNumber(levels, i, k) < |Cells(levels)|
            && Cells(levels') == RemoveAt(Cells(levels), CellNumber(levels, i, k))
  {
    var n := CellNumber(levels, i, k);
    OrderIsLive(s, levels, other, nodes, index, i, k);
    var it := levels[i].orders[k];
    TakeOutCells(levels, i, k, nodes[it].units);
    TakeOutSlots(s, levels, other, nodes, index, i, k);
    TakeOutTotals(s, levels, i, k, Slots(Cells(levels), nodes), n);
  }

  lemma TakeOutCells(levels: seq<PriceLevel>, i: nat, k: nat, units: Quantity)
    requires i < |levels| && k < |levels[i].orders|
    ensures var n := CellNumber(levels, i, k);
            && n < |Cells(levels)|
            && Cells(levels[i := Less(levels[i], k, units)]) == RemoveAt(Cells(levels), n)
  {
    CellsDrop(levels, i, k, Less(levels[i], k, units));
  }

  lemma TakeOutSlots(s: Side, levels: seq<PriceLevel>, other: seq<Cell>, nodes: Arena, index: map<OrderId, Location>, i: nat, k: nat)
    requires Half(s, levels, other, nodes, index) && i < |levels| && k < |levels[i].orders|
    ensures var it := levels[i].orders[k];
            var n := CellNumber(levels, i, k);
            && it in nodes && n < |Cells(levels)|
            && Linked(s, RemoveAt(Cells(levels), n), other, nodes - {it}, index - {nodes[it].id})
            && Slots(RemoveAt(Cells(levels), n), nodes - {it}) == RemoveAt(Slots(Cells(levels), nodes), n)
            && Slots(other, nodes - {it}) == Slots(other, nodes)
            && Slots(Cells(levels), nodes)[n].id == nodes[it].id
  {
    OrderIsLive(s, levels, other, nodes, index, i, k);
    Removed(s, Cells(levels), CellNumber(levels, i, k), other, nodes, index);
  }

  /** An order held by a level is a live node, and the contents show it. */
  lemma OrderIsLive(s: Side, levels: seq<PriceLevel>, other: seq<Cell>, nodes: Arena, index: map<OrderId, Location>, i: nat, k: nat)
    requires Half(s, levels, other, nodes, index) && i < |levels| && k < |levels[i].orders|
    ensures var n := CellNumber(levels, i, k);
            var it := levels[i].orders[k];
            && n < |Cells(levels)| && Cells(levels)[n] == Cell(levels[i].price, it)
            && it in nodes && nodes[it].id in index
            && Slots(Cells(levels), nodes)[n] == SlotOf(Cell(levels[i].price, it), nodes)
  {
    CellIs(levels, i, k);
    CellIsLive(s, levels, other, nodes, index, CellNumber(levels, i, k));
  }

  lemma TakeOutTotals(s: Side, levels: seq<PriceLevel>, i: nat, k: nat, q: seq<Slot>, n: nat)
    requires Strict(s, levels) && Totals(levels, q) && i < |levels| && k < |levels[i].orders|
    requires n < |q| && q[n].price == levels[i].price
    ensures var levels' := levels[i := Less(levels[i], k, q[n].units)];
            Totals(levels', RemoveAt(q, n)) && Strict(s, levels')
  {
    var level := Less(levels[i], k, q[n].units);
    var d: int := 0 - q[n].units;
    forall p ensures UnitsAt(RemoveAt(q, n), p) == UnitsAt(q, p) + if p == level.price then d else 0 {
      UnitsAtDrop(q, n, p);
    }
    TotalsShift(s, levels, i, level, q, RemoveAt(q, n), d);
  }

  function Resized(level: PriceLevel, from: Quantity, to: Quantity): PriceLevel {
    level.(total := Wrap(level.total - (from - to)))
  }

  lemma ResizeHalf(s: Side, levels: seq<PriceLevel>, other: seq<Cell>, nodes: Arena, index: map<OrderId, Location>, i: nat, k: nat, units: Quantity)
    requires Half(s, levels, other, nodes, index) && i < |levels| && k < |levels[i].orders|
    ensures levels[i].orders[k] in nodes
    ensures var it := levels[i].orders[k];
            var levels' := levels[i := Resized(levels[i], nodes[it].units, units)];
            var nodes' := nodes[it := nodes[it].(units := units)];
            var n := CellNumber(levels, i, k);
            var q := Slots(Cells(levels), nodes);
            && n < |Cells(levels)|
            && Half(s, levels', other, nodes', index)
            && Cells(levels') == Cells(levels)
            && Slots(Cells(levels'), nodes') == q[n := q[n].(units := units)]
            && Slots(other, nodes') == Slots(other, nodes)
            && q[n].id == nodes[it].id
  {
    OrderIsLive(s, levels, other, nodes, index, i, k);
    var n := CellNumber(levels, i, k);
    var it := levels[i].orders[k];
    var r := nodes[it];
    var level := Resized(levels[i], r.units, units);
    var q := Slots(Cells(levels), nodes);
    assert Cells(levels[i := level]) == Cells(levels) by {
      CellsSplit(levels, i);
      SetLevel(levels, i, level);
      assert LevelCells(level) == LevelCells(levels[i]);
    }
    Updated(s, Cells(levels), n, r.(units := units), other, nodes, index);
    ResizeTotals(s, levels, i, q, n, units);
  }

  lemma ResizeTotals(s: Side, levels: seq<PriceLevel>, i: nat, q: seq<Slot>, n: nat, units: Quantity)
    requires Strict(s, levels) && Totals(levels, q) && i < |levels|
    requires n < |q| && q[n].price == levels[i].price
    ensures var levels' := levels[i := Resized(levels[i], q[n].units, units)];
            Totals(levels', q[n := q[n].(units := units)]) && Strict(s, levels')
  {
    var x := q[n].(units := units);
    var level := Resized(levels[i], q[n].units, units);
    forall p ensures UnitsAt(q[n := x], p) == UnitsAt(q, p) + if p == level.price then units - q[n].units else 0 {
      UnitsAtSet(q, n, x, p);
    }
    TotalsShift(s, levels, i, level, q, q[n := x], units - q[n].units);
  }

  lemma DropEmptyHalf(s: Side, levels: seq<PriceLevel>, other: seq<Cell>, nodes: Arena, index: map<OrderId, Location>, i: nat)
    requires Half(s, levels, other, nodes, index) && i < |levels| && levels[i].orders == []
    ensures Half(s, RemoveAt(levels, i), other, nodes, index) && Cells(RemoveAt(levels, i)) == Cells(levels)
  {
    CellsDropEmpty(levels, i);
    DropTotals(s, levels, i, Slots(Cells(levels), nodes));
  }

  lemma CellsDropEmpty(levels: seq<PriceLevel>, i: nat)
    requires i < |levels| && levels[i].orders == []
    ensures Cells(RemoveAt(levels, i)) == Cells(levels)
  {
    CellsSplit(levels, i);
    CellsConcat(levels[..i], levels[i + 1..]);
    assert Cells(levels[..i]) + LevelCells(levels[i]) == Cells(levels[..i]);
  }

  lemma DropTotals(s: Side, levels: seq<PriceLevel>, i: nat, q: seq<Slot>)
    requires i < |levels| && Strict(s, levels) && Totals(levels, q)
    ensures Strict(s, RemoveAt(levels, i)) && Totals(RemoveAt(levels, i), q)
  {
    assert forall j :: 0 <= j < |RemoveAt(levels, i)| ==> RemoveAt(levels, i)[j] == levels[if j < i then j else j + 1];
  }

  // ----- adding an order at the back of its level -----

  /** `levels[price].total += units; levels[price].orders.push_back(it)`, creating the level if needed. */
  function Pushed(s: Side, levels: seq<PriceLevel>, price: Price, it: Handle, units: Quantity): seq<PriceLevel> {
    var i := LowerBound(s, levels, price);
    if Mapped(s, levels, price) then
      levels[i := PriceLevel(price, Wrap(levels[i].total + units), levels[i].orders + [it])]
    else
      levels[..i] + [PriceLevel(price, Wrap(0 + units), [it])] + levels[i..]
  }

  /** The cell number the new order gets. */
  function PushedCell(s: Side, levels: seq<PriceLevel>, price: Price): nat {
    var i := LowerBound(s, levels, price);
    |Cells(levels[..i])| + if Mapped(s, levels, price) then |levels[i].orders| else 0
  }

  lemma DropMiddle<T>(a: seq<T>, x: T, b: seq<T>)
    ensures (a + [x] + b)[|a|] == x && RemoveAt(a + [x] + b, |a|) == a + b
  {
  }

  lemma PushedCells(s: Side, levels: seq<PriceLevel>, price: Price, it: Handle, units: Quantity)
    ensures var more := Cells(Pushed(s, levels, price, it, units));
            var k := PushedCell(s, levels, price);
            k < |more| && more[k] == Cell(price, it) && RemoveAt(more, k) == Cells(levels)
  {
    var i := LowerBound(s, levels, price);
    if Mapped(s, levels, price) {
      var level := PriceLevel(price, Wrap(levels[i].total + units), levels[i].orders + [it]);
      assert Pushed(s, levels, price, it, units) == levels[i := level];
      AppendCell(levels, i, level, it);
    } else {
      var level := PriceLevel(price, Wrap(0 + units), [it]);
      assert Pushed(s, levels, price, it, units) == levels[..i] + [level] + levels[i..];
      InsertLevel(levels, i, level, it);
    }
  }

  lemma AppendCell(levels: seq<PriceLevel>, i: nat, level: PriceLevel, it: Handle)
    requires i < |levels| && level.price == levels[i].price && level.orders == levels[i].orders + [it]
    ensures var more := Cells(levels[i := level]);
            var k := |Cells(levels[..i])| + |levels[i].orders|;
            k < |more| && more[k] == Cell(level.price, it) && RemoveAt(more, k) == Cells(levels)
  {
    var c := Cell(level.price, it);
    var a, m, b := Cells(levels[..i]), LevelCells(levels[i]), Cells(levels[i + 1..]);
    assert Cells(levels) == a + m + b by { CellsSplit(levels, i); }
    SetLevel(levels, i, level);
    assert LevelCells(level) == m + [c];
    assert a + (m + [c]) == a + m + [c];
    DropMiddle(a + m, c, b);
  }

  lemma InsertLevel(levels: seq<PriceLevel>, i: nat, level: PriceLevel, it: Handle)
    requires i <= |levels| && level.orders == [it]
    ensures var more := Cells(levels[..i] + [level] + levels[i..]);
            var k := |Cells(levels[..i])|;
            k < |more| && more[k] == Cell(level.price, it) && RemoveAt(more, k) == Cells(levels)
  {
    var c := Cell(level.price, it);
    var a, b := Cells(levels[..i]), Cells(levels[i..]);
    assert Cells(levels) == a + b by {
      assert levels == levels[..i] + levels[i..];
      CellsConcat(levels[..i], levels[i..]);
    }
    assert Cells(levels[..i] + [level] + levels[i..]) == a + [c] + b by {
      CellsConcat(levels[..i] + [level], levels[i..]);
      CellsConcat(levels[..i], [level]);
      assert [level][1..] == [];
      assert LevelCells(level) == [c];
    }
    DropMiddle(a, c, b);
  }

  lemma {:induction false} InsertionPointIs(s: Side, q: seq<Slot>, p: Price, k: nat)
    requires k <= |q|
    requires forall j :: 0 <= j < k ==> !Better(s, p, q[j].price)
    requires k < |q| ==> Better(s, p, q[k].price)
    ensures InsertionPoint(s, q, p) == k
  {
  }

  lemma {:induction false} CellsAhead(s: Side, levels: seq<PriceLevel>, price: Price)
    requires forall i :: 0 <= i < |levels| ==> !Better(s, price, levels[i].price)
    ensures forall j :: 0 <= j < |Cells(levels)| ==> !Better(s, price, Cells(levels)[j].price)
    decreases |levels|
  {
    if levels != [] { CellsAhead(s, levels[1..], price); }
  }

  lemma {:induction false} CellsBehind(s: Side, levels: seq<PriceLevel>, price: Price)
    requires forall i :: 0 <= i < |levels| ==> Better(s, price, levels[i].price)
    ensures forall j :: 0 <= j < |Cells(levels)| ==> Better(s, price, Cells(levels)[j].price)
    decreases |levels|
  {
    if levels != [] { CellsBehind(s, levels[1..], price); }
  }

  /** The new cell stands behind every cell whose price is at least as good, and before the others. */
  lemma PushedCellOrder(s: Side, levels: seq<PriceLevel>, price: Price)
    requires Strict(s, levels)
    ensures var k := PushedCell(s, levels, price);
            && k <= |Cells(levels)|
            && (forall j :: 0 <= j < k ==> !Better(s, price, Cells(levels)[j].price))
            && (forall j :: k <= j < |Cells(levels)| ==> Better(s, price, Cells(levels)[j].price))
  {
    var h := Frontier(s, levels, price);
    PushedCellIs(s, levels, price, h);
    FrontierIs(s, levels, price);
    CellsBetween(s, levels, price, h);
  }

  /** The number of levels at least as good as `price`. */
  function Frontier(s: Side, levels: seq<PriceLevel>, price: Price): nat {
    LowerBound(s, levels, price) + if Mapped(s, levels, price) then 1 else 0
  }

  lemma FrontierIs(s: Side, levels: seq<PriceLevel>, price: Price)
    requires Strict(s, levels)
    ensures var h := Frontier(s, levels, price);
            && h <= |levels|
            && (forall j :: 0 <= j < h ==> !Better(s, price, levels[j].price))
            && (forall j :: h <= j < |levels| ==> Better(s, price, levels[j].price))
  {
    var i := LowerBound(s, levels, price);
    forall j | i < j < |levels| ensures Better(s, price, levels[j].price) {
      assert Better(s, levels[i].price, levels[j].price);
    }
  }

  lemma PushedCellIs(s: Side, levels: seq<PriceLevel>, price: Price, h: nat)
    requires h == LowerBound(s, levels, price) + if Mapped(s, levels, price) then 1 else 0
    ensures PushedCell(s, levels, price) == |Cells(levels[..h])|
  {
    var i := LowerBound(s, levels, price);
    if h == i + 1 {
      assert levels[..h] == levels[..i] + [levels[i]] && [levels[i]][1..] == [];
      CellsConcat(levels[..i], [levels[i]]);
    }
  }

  lemma CellsBetween(s: Side, levels: seq<PriceLevel>, price: Price, h: nat)
    requires h <= |levels|
    requires forall j :: 0 <= j < h ==> !Better(s, price, levels[j].price)
    requires forall j :: h <= j < |levels| ==> Better(s, price, levels[j].price)
    ensures var k := |Cells(levels[..h])|;
            && k <= |Cells(levels)|
            && (forall j :: 0 <= j < k ==> !Better(s, price, Cells(levels)[j].price))
            && (forall j :: k <= j < |Cells(levels)| ==> Better(s, price, Cells(levels)[j].price))
  {
    CellsAhead(s, levels[..h], price);
    CellsBehind(s, levels[h..], price);
    assert levels == levels[..h] + levels[h..];
    CellsConcat(levels[..h], levels[h..]);
  }

  lemma {:induction false} CellsElsewhere(levels: seq<PriceLevel>, price: Price)
    requires forall i :: 0 <= i < |levels| ==> levels[i].price != price
    ensures forall j :: 0 <= j < |Cells(levels)| ==> Cells(levels)[j].price != price
    decreases |levels|
  {
    if levels != [] { CellsElsewhere(levels[1..], price); }
  }

  lemma PushHalf(s: Side, levels: seq<PriceLevel>, other: seq<Cell>, nodes: Arena, index: map<OrderId, Location>,
                 price: Price, it: Handle, r: Resting)
    requires Half(s, levels, other, nodes, index) && it !in nodes && r.id !in index
    ensures var levels' := Pushed(s, levels, price, it, r.units);
            var nodes' := nodes[it := r];
            && Half(s, levels', other, nodes', index[r.id := Location(s, price, it)])
            && |Cells(levels')| == |Cells(levels)| + 1
            && Slots(Cells(levels'), nodes') == Insert(s, Slots(Cells(levels), nodes), Slot(price, r.id, r.sequence, r.units))
            && Slots(other, nodes') == Slots(other, nodes)
  {
    var k := PushedCell(s, levels, price);
    var levels' := Pushed(s, levels, price, it, r.units);
    var more := Cells(levels');
    var q := Slots(Cells(levels), nodes);
    PushedCells(s, levels, price, it, r.units);
    Added(s, more, k, r, other, nodes, index);
    AddedSlots(more, k, r, other, nodes);
    var q' := Slots(more, nodes[it := r]);
    SlotPrices(Cells(levels), nodes);
    PushedTotals(s, levels, price, it, r.units, q, q', k);
    PushedIsInsert(s, levels, price, q, q');
  }

  lemma SlotPrices(cs: seq<Cell>, nodes: Arena)
    requires Live(cs, nodes)
    ensures forall j :: 0 <= j < |cs| ==> Slots(cs, nodes)[j].price == cs[j].price
  {
  }

  lemma PushedIsInsert(s: Side, levels: seq<PriceLevel>, price: Price, q: seq<Slot>, q': seq<Slot>)
    requires Strict(s, levels)
    requires |q| == |Cells(levels)| && forall j :: 0 <= j < |q| ==> q[j].price == Cells(levels)[j].price
    requires var k := PushedCell(s, levels, price);
             k < |q'| && q'[k].price == price && RemoveAt(q', k) == q
    ensures q' == Insert(s, q, q'[PushedCell(s, levels, price)])
  {
    var k := PushedCell(s, levels, price);
    PushedCellOrder(s, levels, price);
    InsertionPointIs(s, q, price, k);
    DropInverse(q', k);
  }

  lemma DropInverse<T>(q: seq<T>, k: nat)
    requires k < |q|
    ensures q == RemoveAt(q, k)[..k] + [q[k]] + RemoveAt(q, k)[k..]
  {
  }

  lemma PushedTotals(s: Side, levels: seq<PriceLevel>, price: Price, it: Handle, units: Quantity, q: seq<Slot>, q': seq<Slot>, k: nat)
    requires Strict(s, levels) && Totals(levels, q)
    requires |q| == |Cells(levels)| && forall j :: 0 <= j < |q| ==> q[j].price == Cells(levels)[j].price
    requires k < |q'| && q'[k].price == price && q'[k].units == units && RemoveAt(q', k) == q
    ensures var levels' := Pushed(s, levels, price, it, units);
            Strict(s, levels') && Totals(levels', q')
  {
    var i := LowerBound(s, levels, price);
    var levels' := Pushed(s, levels, price, it, units);
    forall p ensures UnitsAt(q', p) == UnitsAt(q, p) + if p == price then units else 0 {
      UnitsAtDrop(q', k, p);
    }
    if Mapped(s, levels, price) {
      TotalsShift(s, levels, i, levels'[i], q, q', units);
    } else {
      AbsentPrice(s, levels, price, q);
      NewLevelTotals(s, levels, i, PriceLevel(price, Wrap(0 + units), [it]), q, q', units);
    }
  }

  lemma AbsentPrice(s: Side, levels: seq<PriceLevel>, price: Price, q: seq<Slot>)
    requires Strict(s, levels) && !Mapped(s, levels, price)
    requires |q| == |Cells(levels)| && forall j :: 0 <= j < |q| ==> q[j].price == Cells(levels)[j].price
    ensures UnitsAt(q, price) == 0
  {
    CellsElsewhere(levels, price);
    AtNone(q, price);
  }

  lemma NewLevelTotals(s: Side, levels: seq<PriceLevel>, i: nat, level: PriceLevel, q: seq<Slot>, q': seq<Slot>, units: Quantity)
    requires Strict(s, levels) && Totals(levels, q) && i <= |levels|
    requires forall j :: 0 <= j < i ==> Better(s, levels[j].price, level.price)
    requires forall j :: i <= j < |levels| ==> Better(s, level.price, levels[j].price)
    requires level.total == Wrap(units) && UnitsAt(q, level.price) == 0
    requires forall p :: UnitsAt(q', p) == UnitsAt(q, p) + if p == level.price then units else 0
    ensures var levels' := levels[..i] + [level] + levels[i..];
            Strict(s, levels') && Totals(levels', q')
  {
    NewLevelStrict(s, levels, i, level);
    var levels' := levels[..i] + [level] + levels[i..];
    forall j | 0 <= j < |levels'| ensures levels'[j].total == Wrap(UnitsAt(q', levels'[j].price)) {
      if j == i {
        assert levels'[j] == level;
      } else {
        var k := if j < i then j else j - 1;
        assert levels'[j] == levels[k];
        OtherTotal(levels, k, level, q, q', units);
      }
    }
  }

  lemma OtherTotal(levels: seq<PriceLevel>, k: nat, level: PriceLevel, q: seq<Slot>, q': seq<Slot>, d: int)
    requires Totals(levels, q) && k < |levels| && levels[k].price != level.price
    requires forall p :: UnitsAt(q', p) == UnitsAt(q, p) + if p == level.price then d else 0
    ensures levels[k].total == Wrap(UnitsAt(q', levels[k].price))
  {
  }

  lemma NewLevelStrict(s: Side, levels: seq<PriceLevel>, i: nat, level: PriceLevel)
    requires Strict(s, levels) && i <= |levels|
    requires forall j :: 0 <= j < i ==> Better(s, levels[j].price, level.price)
    requires forall j :: i <= j < |levels| ==> Better(s, level.price, levels[j].price)
    ensures Strict(s, levels[..i] + [level] + levels[i..])
  {
    var levels' := levels[..i] + [level] + levels[i..];
    assert forall j :: 0 <= j < i ==> levels'[j] == levels[j];
    assert forall j :: i < j < |levels'| ==> levels'[j] == levels[j - 1];
  }

  // ----- the whole store -----

  /** A step that leaves the other side's levels and slots alone keeps the core
      facts if it keeps its own side's. */
  lemma CoreStep(st: Store, s: Side, st': Store)
    requires Core(st) && HalfOf(st, s) && HalfOf(st, s.Opposite())
    requires st'.On(s.Opposite()) == st.On(s.Opposite())
    requires Half(s, st'.On(s), Cells(st.On(s.Opposite())), st'.nodes, st'.index)
    requires Slots(Cells(st.On(s.Opposite())), st'.nodes) == Slots(Cells(st.On(s.Opposite())), st.nodes)
    requires Counted(st')
    ensures Core(st') && HalfOf(st', Buy) && HalfOf(st', Sell)
    ensures Contents(st') == Book(Slots(Cells(st'.bids), st'.nodes), Slots(Cells(st'.asks), st'.nodes), st'.seen)
  {
    var c := s.Opposite();
    assert c.Opposite() == s && (s == Buy || s == Sell);
    LinkedSwap(s, Cells(st'.On(s)), Cells(st.On(c)), st'.nodes, st'.index);
    assert HalfOf(st, c);
    assert HalfOf(st', s) && HalfOf(st', c);
    forall t ensures HalfOf(st', t) { assert t == s || t == c; }
  }

  /** The store without order `k` of level `i` on side `s`; the level stays, even if empty. */
  function TakeOut(st: Store, s: Side, i: nat, k: nat): Store
    requires i < |st.On(s)| && k < |st.On(s)[i].orders| && st.On(s)[i].orders[k] in st.nodes
  {
    var level := st.On(s)[i];
    var it := level.orders[k];
    st.With(s, st.On(s)[i := Less(level, k, st.nodes[it].units)])
      .(nodes := st.nodes - {it}, index := st.index - {st.nodes[it].id}, count := st.count - 1)
  }

  lemma TakeOutKeeps(st: Store, s: Side, i: nat, k: nat)
    requires Core(st) && i < |st.On(s)| && k < |st.On(s)[i].orders|
    ensures st.On(s)[i].orders[k] in st.nodes && st.nodes[st.On(s)[i].orders[k]].id in st.index
    ensures var st' := TakeOut(st, s, i, k);
            var n := CellNumber(st.On(s), i, k);
            && Core(st')
            && n < |Contents(st).On(s)|
            && Contents(st).On(s)[n].id == st.nodes[st.On(s)[i].orders[k]].id
            && Contents(st') == Contents(st).With(s, RemoveAt(Contents(st).On(s), n))
  {
    assert HalfOf(st, s) && HalfOf(st, s.Opposite());
    var other := Cells(st.On(s.Opposite()));
    TakeOutHalf(s, st.On(s), other, st.nodes, st.index, i, k);
    TakeOutSlots(s, st.On(s), other, st.nodes, st.index, i, k);
    MapMinus(st.index, st.nodes[st.On(s)[i].orders[k]].id);
    CoreStep(st, s, TakeOut(st, s, i, k));
  }

  function Resize(st: Store, s: Side, i: nat, k: nat, units: Quantity): Store
    requires i < |st.On(s)| && k < |st.On(s)[i].orders| && st.On(s)[i].orders[k] in st.nodes
  {
    var level := st.On(s)[i];
    var it := level.orders[k];
    st.With(s, st.On(s)[i := Resized(level, st.nodes[it].units, units)])
      .(nodes := st.nodes[it := st.nodes[it].(units := units)])
  }

  lemma ResizeKeeps(st: Store, s: Side, i: nat, k: nat, units: Quantity)
    requires Core(st) && i < |st.On(s)| && k < |st.On(s)[i].orders|
    ensures st.On(s)[i].orders[k] in st.nodes
    ensures var st' := Resize(st, s, i, k, units);
            var n := CellNumber(st.On(s), i, k);
            && Core(st')
            && n < |Contents(st).On(s)|
            && Contents(st).On(s)[n].id == st.nodes[st.On(s)[i].orders[k]].id
            && Contents(st') ==
               Contents(st).With(s, Contents(st).On(s)[n := Contents(st).On(s)[n].(units := units)])
  {
    assert HalfOf(st, s) && HalfOf(st, s.Opposite());
    ResizeHalf(s, st.On(s), Cells(st.On(s.Opposite())), st.nodes, st.index, i, k, units);
    CoreStep(st, s, Resize(st, s, i, k, units));
  }

  lemma DropEmptyKeeps(st: Store, s: Side, i: nat)
    requires Core(st) && i < |st.On(s)| && st.On(s)[i].orders == []
    ensures var st' := st.With(s, RemoveAt(st.On(s), i));
            Core(st') && Contents(st') == Contents(st)
  {
    assert HalfOf(st, s) && HalfOf(st, s.Opposite());
    DropEmptyHalf(s, st.On(s), Cells(st.On(s.Opposite())), st.nodes, st.index, i);
    CoreStep(st, s, st.With(s, RemoveAt(st.On(s), i)));
  }

  function PushBack(st: Store, s: Side, price: Price, r: Resting): Store {
    st.With(s, Pushed(s, st.On(s), price, st.next, r.units))
      .(nodes := st.nodes[st.next := r], index := st.index[r.id := Location(s, price, st.next)],
        count := st.count + 1, next := st.next + 1)
  }

  /** Everything the step needs to know about the pushed side and the count. */
  lemma PushBackCounts(st: Store, s: Side, price: Price, r: Resting)
    requires Core(st) && r.id !in st.index
    requires |Cells(Pushed(s, st.On(s), price, st.next, r.units))| == |Cells(st.On(s))| + 1
    ensures Counted(PushBack(st, s, price, r))
  {
    assert HalfOf(st, s);
    MapPlus(st.index, r.id, Location(s, price, st.next));
  }

  lemma PushBackSides(st: Store, s: Side, price: Price, r: Resting)
    ensures var st' := PushBack(st, s, price, r);
            && st'.On(s) == Pushed(s, st.On(s), price, st.next, r.units) && st'.On(s.Opposite()) == st.On(s.Opposite())
            && st'.nodes == st.nodes[st.next := r] && st'.index == st.index[r.id := Location(s, price, st.next)]
            && st'.seen == st.seen
  {
  }

  lemma NextIsNew(st: Store)
    requires Core(st)
    ensures st.next !in st.nodes
  {
    assert HalfOf(st, Buy);
  }

  /** A store whose side `s` now reads `q`, and whose other side reads as before. */
  lemma ContentsAre(st: Store, s: Side, st': Store, q: seq<Slot>)
    requires Core(st) && Core(st') && st'.seen == st.seen
    requires Contents(st').On(s) == q && Contents(st').On(s.Opposite()) == Contents(st).On(s.Opposite())
    ensures Contents(st') == Contents(st).With(s, q)
  {
  }

  lemma BothSides(st: Store, s: Side)
    requires Core(st)
    ensures HalfOf(st, s) && HalfOf(st, s.Opposite())
    ensures Contents(st).On(s) == Slots(Cells(st.On(s)), st.nodes)
    ensures Contents(st).On(s.Opposite()) == Slots(Cells(st.On(s.Opposite())), st.nodes)
  {
    assert HalfOf(st, s) && HalfOf(st, s.Opposite());
  }

  lemma PushBackKeeps(st: Store, s: Side, price: Price, r: Resting)
    requires Core(st) && r.id !in st.index
    ensures var st' := PushBack(st, s, price, r);
            && Core(st')
            && Contents(st') ==
               Contents(st).With(s, Insert(s, Contents(st).On(s), Slot(price, r.id, r.sequence, r.units)))
  {
    var st' := PushBack(st, s, price, r);
    BothSides(st, s);
    NextIsNew(st);
    PushHalf(s, st.On(s), Cells(st.On(s.Opposite())), st.nodes, st.index, price, st.next, r);
    PushBackCounts(st, s, price, r);
    PushBackSides(st, s, price, r);
    CoreStep(st, s, st');
    BothSides(st', s);
    ContentsAre(st, s, st', Insert(s, Contents(st).On(s), Slot(price, r.id, r.sequence, r.units)));
  }
}
