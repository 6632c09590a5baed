/** The book's storage as values: price levels holding list-node handles, the
    arena of list nodes those handles denote, and the id index.  A handle plays
    the part of a std::list iterator: it stays meaningful while its node is in
    the arena and dangles afterwards. */
module Ladder {
  import opened Types
  import opened BookSpec

  type Handle = nat

  datatype PriceLevel = PriceLevel(price: Price, total: U64, orders: seq<Handle>)
  datatype Location = Location(side: Side, price: Price, it: Handle)
  datatype Resting = Resting(id: OrderId, sequence: Sequence, units: Quantity)
  datatype Cell = Cell(price: Price, it: Handle)

  type Arena = map<Handle, Resting>

  // ----- levels as one sequence of cells -----

  function LevelCells(level: PriceLevel): seq<Cell> {
    seq(|level.orders|, i requires 0 <= i < |level.orders| => Cell(level.price, level.orders[i]))
  }

  function Cells(levels: seq<PriceLevel>): seq<Cell> {
    if levels == [] then [] else LevelCells(levels[0]) + Cells(levels[1..])
  }

  predicate Live(cs: seq<Cell>, nodes: Arena) {
    forall i :: 0 <= i < |cs| ==> cs[i].it in nodes
  }

  function SlotOf(c: Cell, nodes: Arena): Slot
    requires c.it in nodes
  {
    Slot(c.price, nodes[c.it].id, nodes[c.it].sequence, nodes[c.it].units)
  }

  function Slots(cs: seq<Cell>, nodes: Arena): seq<Slot>
    requires Live(cs, nodes)
  {
    seq(|cs|, i requires 0 <= i < |cs| => SlotOf(cs[i], nodes))
  }

  lemma {:induction false} CellsConcat(a: seq<PriceLevel>, b: seq<PriceLevel>)
    ensures Cells(a + b) == Cells(a) + Cells(b)
    decreases |a|
  {
    if a == [] {
      assert a + b == b;
    } else {
      assert (a + b)[1..] == a[1..] + b;
      CellsConcat(a[1..], b);
    }
  }

  lemma CellsSplit(levels: seq<PriceLevel>, i: nat)
    requires i < |levels|
    ensures Cells(levels) == Cells(levels[..i]) + LevelCells(levels[i]) + Cells(levels[i + 1..])
  {
    assert levels == levels[..i] + levels[i..];
    CellsConcat(levels[..i], levels[i..]);
    assert levels[i..][1..] == levels[i + 1..];
  }

  lemma {:induction false} CellsHaveLevels(levels: seq<PriceLevel>)
    ensures forall c :: c in Cells(levels) ==>
              exists i :: 0 <= i < |levels| && levels[i].price == c.price && c.it in levels[i].orders
    decreases |levels|
  {
    if levels != [] {
      CellsHaveLevels(levels[1..]);
      forall c | c in Cells(levels)
        ensures exists i :: 0 <= i < |levels| && levels[i].price == c.price && c.it in levels[i].orders
      {
        if c in LevelCells(levels[0]) {
          assert levels[0].price == c.price && c.it in levels[0].orders;
        } else {
          var i :| 0 <= i < |levels[1..]| && levels[1..][i].price == c.price && c.it in levels[1..][i].orders;
          assert levels[i + 1].price == c.price && c.it in levels[i + 1].orders;
        }
      }
    }
  }

  // ----- the ordered map -----

  predicate Strict(s: Side, levels: seq<PriceLevel>) {
    forall i, j :: 0 <= i < j < |levels| ==> Better(s, levels[i].price, levels[j].price)
  }

  /** The first entry whose price is not ahead of `price`. */
  function LowerBound(s: Side, levels: seq<PriceLevel>, price: Price): (i: nat)
    ensures i <= |levels|
    ensures forall j :: 0 <= j < i ==> Better(s, levels[j].price, price)
    ensures i < |levels| ==> !Better(s, levels[i].price, price)
  {
    if levels == [] || !Better(s, levels[0].price, price) then 0 else 1 + LowerBound(s, levels[1..], price)
  }

  predicate Mapped(s: Side, levels: seq<PriceLevel>, price: Price) {
    var i := LowerBound(s, levels, price);
    i < |levels| && levels[i].price == price
  }

  lemma LowerBoundIs(s: Side, levels: seq<PriceLevel>, i: nat)
    requires Strict(s, levels) && i < |levels|
    ensures LowerBound(s, levels, levels[i].price) == i && Mapped(s, levels, levels[i].price)
  {
    var k := LowerBound(s, levels, levels[i].price);
    assert k <= i;
  }

  /** The position of a node in a list; the list's length if it is not there. */
  function Position(orders: seq<Handle>, it: Handle): (k: nat)
    ensures k <= |orders|
    ensures k < |orders| ==> orders[k] == it
    ensures k == |orders| ==> it !in orders
  {
    if orders == [] || orders[0] == it then 0 else 1 + Position(orders[1..], it)
  }

  // ----- sums over one price -----

  function UnitsAt(q: seq<Slot>, p: Price): nat { Units(At(q, p)) }

  lemma {:induction false} AtConcat(a: seq<Slot>, b: seq<Slot>, p: Price)
    ensures At(a + b, p) == At(a, p) + At(b, p)
    decreases |a|
  {
    if a == [] {
      assert a + b == b;
    } else {
      assert (a + b)[1..] == a[1..] + b && (a + b)[0] == a[0];
      AtConcat(a[1..], b, p);
      var head := if a[0].price == p then [a[0]] else [];
      assert head + (At(a[1..], p) + At(b, p)) == head + At(a[1..], p) + At(b, p);
    }
  }

  lemma {:induction false} UnitsConcat(a: seq<Slot>, b: seq<Slot>)
    ensures Units(a + b) == Units(a) + Units(b)
    decreases |a|
  {
    if a == [] {
      assert a + b == b;
    } else {
      assert (a + b)[1..] == a[1..] + b;
      UnitsConcat(a[1..], b);
    }
  }

  lemma UnitsAtWith(a: seq<Slot>, x: Slot, b: seq<Slot>, p: Price)
    ensures UnitsAt(a + [x] + b, p) == UnitsAt(a + b, p) + if x.price == p then x.units else 0
  {
    AtConcat(a + [x], b, p);
    AtConcat(a, [x], p);
    AtConcat(a, b, p);
    UnitsConcat(At(a, p) + At([x], p), At(b, p));
    UnitsConcat(At(a, p), At([x], p));
    UnitsConcat(At(a, p), At(b, p));
    assert [x][1..] == [];
  }

  lemma {:induction false} AtNone(q: seq<Slot>, p: Price)
    requires forall i :: 0 <= i < |q| ==> q[i].price != p
    ensures At(q, p) == []
    decreases |q|
  {
    if q != [] { AtNone(q[1..], p); }
  }

  lemma {:induction false} AtAll(q: seq<Slot>, p: Price)
    requires forall i :: 0 <= i < |q| ==> q[i].price == p
    ensures At(q, p) == q
    decreases |q|
  {
    if q != [] { AtAll(q[1..], p); }
  }

  // ----- the store -----

  datatype Store = Store(bids: seq<PriceLevel>, asks: seq<PriceLevel>, nodes: Arena,
                         index: map<OrderId, Location>, seen: set<OrderId>, count: int, next: Handle)
  {
    function On(s: Side): seq<PriceLevel> { if s.Buy? then bids else asks }

    function With(s: Side, levels: seq<PriceLevel>): Store {
      if s.Buy? then this.(bids := levels) else this.(asks := levels)
    }
  }

  predicate Indexed(s: Side, cs: seq<Cell>, nodes: Arena, index: map<OrderId, Location>) {
    && (forall i :: 0 <= i < |cs| ==>
          && cs[i].it in nodes
          && nodes[cs[i].it].id in index
          && index[nodes[cs[i].it].id] == Location(s, cs[i].price, cs[i].it))
    && (forall i, j :: 0 <= i < j < |cs| ==> cs[i].it != cs[j].it)
  }

  /** Index and list nodes are in bijection; `mine` are the cells of side `s`. */
  predicate Linked(s: Side, mine: seq<Cell>, other: seq<Cell>, nodes: Arena, index: map<OrderId, Location>) {
    && Indexed(s, mine, nodes, index)
    && Indexed(s.Opposite(), other, nodes, index)
    && Backed(s, mine, other, nodes, index)
  }

  predicate Backed(s: Side, mine: seq<Cell>, other: seq<Cell>, nodes: Arena, index: map<OrderId, Location>) {
    forall id :: id in index ==>
      && index[id].it in nodes
      && nodes[index[id].it].id == id
      && Cell(index[id].price, index[id].it) in (if index[id].side == s then mine else other)
  }

  lemma LinkedSwap(s: Side, mine: seq<Cell>, other: seq<Cell>, nodes: Arena, index: map<OrderId, Location>)
    requires Linked(s, mine, other, nodes, index)
    ensures Linked(s.Opposite(), other, mine, nodes, index)
  {
    assert s.Opposite().Opposite() == s;
  }

  predicate Totals(levels: seq<PriceLevel>, q: seq<Slot>) {
    forall i :: 0 <= i < |levels| ==> levels[i].total == Wrap(UnitsAt(q, levels[i].price))
  }

  predicate NonEmpty(levels: seq<PriceLevel>) {
    forall i :: 0 <= i < |levels| ==> levels[i].orders != []
  }

  /** Side `s` of a store, together with everything it shares with the other side. */
  predicate Half(s: Side, levels: seq<PriceLevel>, other: seq<Cell>, nodes: Arena, index: map<OrderId, Location>) {
    && Strict(s, levels)
    && Linked(s, Cells(levels), other, nodes, index)
    && Totals(levels, Slots(Cells(levels), nodes))
  }

  /** The separate order count is right, and handles are never reused. */
  predicate Counted(st: Store) {
    && st.count == |Cells(st.bids)| + |Cells(st.asks)|
    && st.count == |st.index|
    && (forall it :: it in st.nodes ==> it < st.next)
  }

  predicate HalfOf(st: Store, s: Side) {
    Half(s, st.On(s), Cells(st.On(s.Opposite())), st.nodes, st.index) && Counted(st)
  }

  /** Everything that holds at every point of every operation; a level may be
      empty only while its last order is being matched away. */
  predicate Core(st: Store) {
    forall s :: HalfOf(st, s)
  }

  function Contents(st: Store): Book
    requires Core(st)
  {
    assert HalfOf(st, Buy) && HalfOf(st, Sell);
    Book(Slots(Cells(st.bids), st.nodes), Slots(Cells(st.asks), st.nodes), st.seen)
  }

  // ----- what each primitive does to the cells -----

  /** Removing the cell at position `k`, its node and its index entry. */
  lemma Removed(s: Side, mine: seq<Cell>, k: nat, other: seq<Cell>, nodes: Arena, index: map<OrderId, Location>)
    requires Linked(s, mine, other, nodes, index) && k < |mine|
    ensures Linked(s, RemoveAt(mine, k), other, nodes - {mine[k].it}, index - {nodes[mine[k].it].id})
    ensures Slots(RemoveAt(mine, k), nodes - {mine[k].it}) == RemoveAt(Slots(mine, nodes), k)
    ensures Slots(other, nodes - {mine[k].it}) == Slots(other, nodes)
  {
    RemovedIndexed(s, mine, k, nodes, index);
    RemovedBacked(s, mine, k, other, nodes, index);
    RemovedOther(s, mine, k, other, nodes, index);
    RemovedSlots(mine, k, other, nodes);
  }

  lemma RemovedOther(s: Side, mine: seq<Cell>, k: nat, other: seq<Cell>, nodes: Arena, index: map<OrderId, Location>)
    requires Linked(s, mine, other, nodes, index) && k < |mine|
    ensures Indexed(s.Opposite(), other, nodes - {mine[k].it}, index - {nodes[mine[k].it].id})
    ensures forall i :: 0 <= i < |other| ==> other[i].it != mine[k].it
  {
    forall i | 0 <= i < |other| ensures other[i].it != mine[k].it && nodes[other[i].it].id != nodes[mine[k].it].id {
      assert index[nodes[other[i].it].id].side == s.Opposite();
    }
  }

  lemma RemovedSlots(mine: seq<Cell>, k: nat, other: seq<Cell>, nodes: Arena)
    requires Live(mine, nodes) && Live(other, nodes) && k < |mine|
    requires forall i, j :: 0 <= i < j < |mine| ==> mine[i].it != mine[j].it
    requires forall i :: 0 <= i < |other| ==> other[i].it != mine[k].it
    ensures Live(RemoveAt(mine, k), nodes - {mine[k].it})
    ensures Slots(RemoveAt(mine, k), nodes - {mine[k].it}) == RemoveAt(Slots(mine, nodes), k)
    ensures Slots(other, nodes - {mine[k].it}) == Slots(other, nodes)
  {
    assert forall i :: 0 <= i < |RemoveAt(mine, k)| ==> RemoveAt(mine, k)[i] == mine[if i < k then i else i + 1];
  }

  lemma RemovedIndexed(s: Side, mine: seq<Cell>, k: nat, nodes: Arena, index: map<OrderId, Location>)
    requires Indexed(s, mine, nodes, index) && k < |mine|
    ensures Indexed(s, RemoveAt(mine, k), nodes - {mine[k].it}, index - {nodes[mine[k].it].id})
  {
    var rest := RemoveAt(mine, k);
    assert forall i :: 0 <= i < |rest| ==> rest[i] == mine[if i < k then i else i + 1];
  }

  lemma RemovedBacked(s: Side, mine: seq<Cell>, k: nat, other: seq<Cell>, nodes: Arena, index: map<OrderId, Location>)
    requires Linked(s, mine, other, nodes, index) && k < |mine|
    ensures Backed(s, RemoveAt(mine, k), other, nodes - {mine[k].it}, index - {nodes[mine[k].it].id})
  {
    var it := mine[k].it;
    var id := nodes[it].id;
    var rest := RemoveAt(mine, k);
    forall j | j in index && j != id
      ensures Cell(index[j].price, index[j].it) in (if index[j].side == s then rest else other)
      ensures index[j].it != it
    {
      assert nodes[index[j].it].id == j;
      if index[j].side == s {
        var i :| 0 <= i < |mine| && mine[i] == Cell(index[j].price, index[j].it);
        assert mine[i] == rest[if i < k then i else i - 1];
      }
    }
  }

  lemma Updated(s: Side, mine: seq<Cell>, k: nat, r: Resting, other: seq<Cell>, nodes: Arena, index: map<OrderId, Location>)
    requires Linked(s, mine, other, nodes, index)
    requires k < |mine| && r.id == nodes[mine[k].it].id
    ensures Linked(s, mine, other, nodes[mine[k].it := r], index)
    ensures Slots(mine, nodes[mine[k].it := r]) ==
            Slots(mine, nodes)[k := Slot(mine[k].price, r.id, r.sequence, r.units)]
    ensures Slots(other, nodes[mine[k].it := r]) == Slots(other, nodes)
  {
    SameIdLinked(s, mine, other, nodes, index, mine[k].it, r);
    RemovedOther(s, mine, k, other, nodes, index);
    UpdatedSlots(mine, k, r, other, nodes);
  }

  lemma SameIdLinked(s: Side, mine: seq<Cell>, other: seq<Cell>, nodes: Arena, index: map<OrderId, Location>, it: Handle, r: Resting)
    requires Linked(s, mine, other, nodes, index) && it in nodes && r.id == nodes[it].id
    ensures Linked(s, mine, other, nodes[it := r], index)
  {
  }

  lemma UpdatedSlots(mine: seq<Cell>, k: nat, r: Resting, other: seq<Cell>, nodes: Arena)
    requires Live(mine, nodes) && Live(other, nodes) && k < |mine|
    requires forall i, j :: 0 <= i < j < |mine| ==> mine[i].it != mine[j].it
    requires forall i :: 0 <= i < |other| ==> other[i].it != mine[k].it
    ensures Slots(mine, nodes[mine[k].it := r]) ==
            Slots(mine, nodes)[k := Slot(mine[k].price, r.id, r.sequence, r.units)]
    ensures Slots(other, nodes[mine[k].it := r]) == Slots(other, nodes)
  {
  }

  /** Adding a new node: `more` is the side with the new cell at position `k`. */
  lemma Added(s: Side, more: seq<Cell>, k: nat, r: Resting, other: seq<Cell>, nodes: Arena, index: map<OrderId, Location>)
    requires k < |more| && Linked(s, RemoveAt(more, k), other, nodes, index)
    requires more[k].it !in nodes && r.id !in index
    ensures Linked(s, more, other, nodes[more[k].it := r], index[r.id := Location(s, more[k].price, more[k].it)])
  {
    IndexedMore(s, more, k, r, nodes, index);
    IndexedOther(s.Opposite(), other, nodes, index, more[k], s, r);
    BackedMore(s, more, k, r, other, nodes, index);
  }

  lemma BackedMore(s: Side, more: seq<Cell>, k: nat, r: Resting, other: seq<Cell>, nodes: Arena, index: map<OrderId, Location>)
    requires k < |more| && Backed(s, RemoveAt(more, k), other, nodes, index)
    requires more[k].it !in nodes && r.id !in index
    ensures Backed(s, more, other, nodes[more[k].it := r], index[r.id := Location(s, more[k].price, more[k].it)])
  {
    var mine := RemoveAt(more, k);
    forall j | j in index && index[j].side == s ensures Cell(index[j].price, index[j].it) in more {
      var i :| 0 <= i < |mine| && mine[i] == Cell(index[j].price, index[j].it);
      assert mine[i] == more[if i < k then i else i + 1];
    }
    assert Cell(more[k].price, more[k].it) == more[k];
  }

  lemma IndexedMore(s: Side, more: seq<Cell>, k: nat, r: Resting, nodes: Arena, index: map<OrderId, Location>)
    requires k < |more| && Indexed(s, RemoveAt(more, k), nodes, index)
    requires more[k].it !in nodes && r.id !in index
    ensures Indexed(s, more, nodes[more[k].it := r], index[r.id := Location(s, more[k].price, more[k].it)])
  {
    var mine := RemoveAt(more, k);
    var nodes', index' := nodes[more[k].it := r], index[r.id := Location(s, more[k].price, more[k].it)];
    assert forall i :: 0 <= i < |more| && i != k ==> more[i] == mine[if i < k then i else i - 1];
    forall i | 0 <= i < |more|
      ensures more[i].it in nodes' && nodes'[more[i].it].id in index'
      ensures index'[nodes'[more[i].it].id] == Location(s, more[i].price, more[i].it)
      ensures i != k ==> more[i].it in nodes
    {
      if i != k { assert mine[if i < k then i else i - 1].it in nodes; }
    }
    forall i, j | 0 <= i < j < |more| ensures more[i].it != more[j].it {
      if i != k && j != k {
        assert mine[if i < k then i else i - 1].it != mine[if j < k then j else j - 1].it;
      }
    }
  }

  lemma IndexedOther(t: Side, other: seq<Cell>, nodes: Arena, index: map<OrderId, Location>, c: Cell, s: Side, r: Resting)
    requires Indexed(t, other, nodes, index) && c.it !in nodes && r.id !in index
    ensures Indexed(t, other, nodes[c.it := r], index[r.id := Location(s, c.price, c.it)])
  {
  }

  lemma AddedSlots(more: seq<Cell>, k: nat, r: Resting, other: seq<Cell>, nodes: Arena)
    requires k < |more| && Live(RemoveAt(more, k), nodes) && Live(other, nodes) && more[k].it !in nodes
    ensures Live(more, nodes[more[k].it := r])
    ensures var q := Slots(more, nodes[more[k].it := r]);
            q[k] == Slot(more[k].price, r.id, r.sequence, r.units) && RemoveAt(q, k) == Slots(RemoveAt(more, k), nodes)
    ensures Slots(other, nodes[more[k].it := r]) == Slots(other, nodes)
  {
    var mine := RemoveAt(more, k);
    assert forall i :: 0 <= i < k ==> more[i] == mine[i];
    assert forall i :: k < i < |more| ==> more[i] == mine[i - 1];
  }
}
