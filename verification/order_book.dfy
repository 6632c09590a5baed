/** The order book: in-place matching over price levels, checked against BookSpec. */
module OrderBooks {
  import opened Types
  import opened BookSpec
  import opened BookInvariant
  import opened Ladder
  import opened StoreSteps
  import opened BookQueries
  import opened BookDigest
  import Fnv

  // ----- the index finds exactly the resting orders -----

  lemma ContentsDistinct(st: Store)
    requires Core(st)
    ensures Distinct(Contents(st).bids) && Distinct(Contents(st).asks) && Apart(Contents(st).bids, Contents(st).asks)
  {
    assert HalfOf(st, Buy);
    SideDistinct(Buy, Cells(st.bids), Cells(st.asks), st.nodes, st.index);
    LinkedSwap(Buy, Cells(st.bids), Cells(st.asks), st.nodes, st.index);
    SideDistinct(Sell, Cells(st.asks), Cells(st.bids), st.nodes, st.index);
  }

  lemma SideDistinct(s: Side, mine: seq<Cell>, other: seq<Cell>, nodes: Arena, index: map<OrderId, Location>)
    requires Linked(s, mine, other, nodes, index)
    ensures Distinct(Slots(mine, nodes)) && Apart(Slots(mine, nodes), Slots(other, nodes))
  {
    var q, r := Slots(mine, nodes), Slots(other, nodes);
    forall i, j | 0 <= i < j < |q| ensures q[i].id != q[j].id {
      assert index[q[i].id].it == mine[i].it && index[q[j].id].it == mine[j].it;
    }
    forall i, j | 0 <= i < |q| && 0 <= j < |r| ensures q[i].id != r[j].id {
      assert index[q[i].id].side == s && index[r[j].id].side == s.Opposite();
    }
  }

  /** Where the index says an order is, it is. */
  lemma Located(st: Store, id: OrderId)
    requires Core(st) && id in st.index
    ensures var loc := st.index[id];
            var levels := st.On(loc.side);
            var i := LowerBound(loc.side, levels, loc.price);
            && loc.it in st.nodes && st.nodes[loc.it].id == id
            && Mapped(loc.side, levels, loc.price)
            && loc.it in levels[i].orders
  {
    var loc := st.index[id];
    assert HalfOf(st, loc.side);
    var levels := st.On(loc.side);
    assert Cell(loc.price, loc.it) in Cells(levels);
    CellsHaveLevels(levels);
    var i :| 0 <= i < |levels| && levels[i].price == loc.price && loc.it in levels[i].orders;
    LowerBoundIs(loc.side, levels, i);
  }

  lemma FoundAt(st: Store, s: Side, n: nat, id: OrderId)
    requires Core(st) && n < |Contents(st).On(s)| && Contents(st).On(s)[n].id == id
    ensures Rests(Contents(st), id) && SideOf(Contents(st), id) == s && Index(Contents(st).On(s), id) == n
  {
    ContentsDistinct(st);
    IndexIs(Contents(st).On(s), n);
  }

  lemma IndexedIffRests(st: Store, id: OrderId)
    requires Core(st)
    ensures id in st.index <==> Rests(Contents(st), id)
  {
    if id in st.index {
      Located(st, id);
      var loc := st.index[id];
      var levels := st.On(loc.side);
      var i := LowerBound(loc.side, levels, loc.price);
      var k := Position(levels[i].orders, loc.it);
      TakeOutKeeps(st, loc.side, i, k);
      FoundAt(st, loc.side, CellNumber(levels, i, k), id);
    } else if Rests(Contents(st), id) {
      var s := SideOf(Contents(st), id);
      var n := Index(Contents(st).On(s), id);
      assert HalfOf(st, s);
      CellIsLive(s, st.On(s), Cells(st.On(s.Opposite())), st.nodes, st.index, n);
    }
  }

  // ----- filling the order at the head of the best level -----

  predicate HasFront(st: Store, s: Side) {
    st.On(s) != [] && st.On(s)[0].orders != [] && st.On(s)[0].orders[0] in st.nodes
  }

  function FillFrontStep(st: Store, s: Side, units: Quantity): Store
    requires HasFront(st, s)
  {
    var resting := st.nodes[st.On(s)[0].orders[0]].units;
    if units < resting then Resize(st, s, 0, 0, resting - units) else TakeOut(st, s, 0, 0)
  }

  /** What filling the head of a priority list by `units` leaves of it. */
  function FrontFilled(q: seq<Slot>, units: Quantity): seq<Slot>
    requires q != []
  {
    if units < q[0].units then q[0 := q[0].(units := q[0].units - units)] else q[1..]
  }

  lemma FrontIs(st: Store, s: Side)
    requires Core(st) && st.On(s) != [] && st.On(s)[0].orders != []
    ensures HasFront(st, s) && Contents(st).On(s) != []
    ensures Contents(st).On(s)[0] == SlotOf(Cell(st.On(s)[0].price, st.On(s)[0].orders[0]), st.nodes)
    ensures CellNumber(st.On(s), 0, 0) == 0
  {
    assert HalfOf(st, s);
    OrderIsLive(s, st.On(s), Cells(st.On(s.Opposite())), st.nodes, st.index, 0, 0);
    assert st.On(s)[..0] == [];
  }

  lemma FillFrontKeeps(st: Store, s: Side, units: Quantity)
    requires Core(st) && st.On(s) != [] && st.On(s)[0].orders != []
    ensures HasFront(st, s) && Contents(st).On(s) != []
    ensures var st' := FillFrontStep(st, s, units);
            Core(st') && Contents(st') == Contents(st).With(s, FrontFilled(Contents(st).On(s), units))
  {
    FrontIs(st, s);
    if units < st.nodes[st.On(s)[0].orders[0]].units {
      ResizeFront(st, s, units);
    } else {
      TakeOutFront(st, s);
    }
  }

  lemma ResizeFront(st: Store, s: Side, units: Quantity)
    requires Core(st) && HasFront(st, s) && units < st.nodes[st.On(s)[0].orders[0]].units
    ensures Contents(st).On(s) != [] && Contents(st).On(s)[0].units == st.nodes[st.On(s)[0].orders[0]].units
    ensures var st' := Resize(st, s, 0, 0, Contents(st).On(s)[0].units - units);
            Core(st') && Contents(st') == Contents(st).With(s, FrontFilled(Contents(st).On(s), units))
  {
    FrontIs(st, s);
    ResizeKeeps(st, s, 0, 0, Contents(st).On(s)[0].units - units);
  }

  lemma TakeOutFront(st: Store, s: Side)
    requires Core(st) && HasFront(st, s)
    ensures Contents(st).On(s) != [] && Contents(st).On(s)[0].units == st.nodes[st.On(s)[0].orders[0]].units
    ensures var st' := TakeOut(st, s, 0, 0);
            Core(st') && Contents(st') == Contents(st).With(s, Contents(st).On(s)[1..])
  {
    FrontIs(st, s);
    TakeOutKeeps(st, s, 0, 0);
    RemoveFirst(Contents(st).On(s));
  }

  lemma RemoveReplaced<T>(q: seq<T>, i: nat, x: T)
    requires i < |q|
    ensures RemoveAt(q[i := x], i) == RemoveAt(q, i)
  {
  }

  lemma RemoveFirst<T>(q: seq<T>)
    requires q != []
    ensures RemoveAt(q, 0) == q[1..]
  {
  }

  /** The levels after a fill: only the head of the best one changed. */
  lemma FillFrontLevels(st: Store, s: Side, units: Quantity)
    requires HasFront(st, s)
    ensures var st' := FillFrontStep(st, s, units);
            var resting := st.nodes[st.On(s)[0].orders[0]].units;
            && st'.On(s.Opposite()) == st.On(s.Opposite()) && st'.seen == st.seen
            && st'.On(s) != [] && st'.On(s)[0].price == st.On(s)[0].price && st'.On(s)[1..] == st.On(s)[1..]
            && |st'.On(s)[0].orders| == |st.On(s)[0].orders| - (if units < resting then 0 else 1)
  {
  }

  /** A sweep in progress: `t` is what was done plus what the rest of the sweep will do. */
  ghost predicate Remains(t: Swept, done: seq<Execution>, s: Side, q: seq<Slot>, limit: Option<Price>, incoming: OrderId, left: nat)
    requires left < TWO64
  {
    var u := Sweep(s, q, limit, incoming, left);
    t == Swept(done + u.executions, u.rest, u.left)
  }

  lemma RemainsStep(t: Swept, done: seq<Execution>, s: Side, q: seq<Slot>, limit: Option<Price>, incoming: OrderId, left: Quantity, e: Execution)
    requires Remains(t, done, s, q, limit, incoming, left)
    requires q != [] && Crosses(s, q[0].price, limit)
    requires e == Execution(q[0].id, incoming, q[0].price, if left < q[0].units then left else q[0].units)
    ensures Remains(t, done + [e], s, FrontFilled(q, left), limit, incoming, left - e.quantity)
  {
    var u := Sweep(s, q, limit, incoming, left);
    var u' := Sweep(s, FrontFilled(q, left), limit, incoming, left - e.quantity);
    assert u.executions == [e] + u'.executions;
    assert done + [e] + u'.executions == done + u.executions;
  }

  /** Every level but the best holds an order, on both sides. */
  predicate TailNonEmpty(st: Store, s: Side) {
    st.On(s) != [] && forall t, i :: 0 <= i < |st.On(t)| && (t != s || i > 0) ==> st.On(t)[i].orders != []
  }

  predicate BothNonEmpty(st: Store) { forall s :: NonEmpty(st.On(s)) }

  function FrontExecution(st: Store, s: Side, incoming: OrderId, units: Quantity): Execution
    requires HasFront(st, s)
  {
    var resting := st.nodes[st.On(s)[0].orders[0]];
    Execution(resting.id, incoming, st.On(s)[0].price, if units < resting.units then units else resting.units)
  }

  lemma LevelStep(st: Store, s: Side, t: Swept, done: seq<Execution>, limit: Option<Price>, incoming: OrderId, left: Quantity)
    requires Core(st) && TailNonEmpty(st, s) && st.On(s)[0].orders != [] && Crosses(s, st.On(s)[0].price, limit)
    requires Remains(t, done, s, Contents(st).On(s), limit, incoming, left)
    ensures HasFront(st, s)
    ensures var st' := FillFrontStep(st, s, left);
            var e := FrontExecution(st, s, incoming, left);
            && Core(st') && TailNonEmpty(st', s) && |st'.On(s)| == |st.On(s)| && Crosses(s, st'.On(s)[0].price, limit)
            && Contents(st') == Contents(st).With(s, Contents(st').On(s))
            && e.quantity <= left
            && Remains(t, done + [e], s, Contents(st').On(s), limit, incoming, left - e.quantity)
            && (|st'.On(s)[0].orders| < |st.On(s)[0].orders| || (e.quantity == left && st'.On(s)[0].orders == st.On(s)[0].orders))
  {
    FrontIs(st, s);
    FillFrontKeeps(st, s, left);
    FillFrontLevels(st, s, left);
    RemainsStep(t, done, s, Contents(st).On(s), limit, incoming, left, FrontExecution(st, s, incoming, left));
    var st' := FillFrontStep(st, s, left);
    forall u, i | 0 <= i < |st'.On(u)| && (u != s || i > 0) ensures st'.On(u)[i].orders != [] {
      if u == s { assert st'.On(s)[1..][i - 1] == st.On(s)[1..][i - 1]; } else { assert u == s.Opposite(); }
    }
  }

  lemma PushedNonEmpty(st: Store, s: Side, price: Price, r: Resting)
    requires BothNonEmpty(st)
    ensures BothNonEmpty(PushBack(st, s, price, r))
  {
    var st' := PushBack(st, s, price, r);
    forall t ensures NonEmpty(st'.On(t)) {
      assert NonEmpty(st.On(t));
      if t == s { LevelsNonEmpty(s, st.On(s), price, st.next, r.units); }
    }
  }

  lemma LevelsNonEmpty(s: Side, levels: seq<PriceLevel>, price: Price, it: Handle, units: Quantity)
    requires NonEmpty(levels)
    ensures NonEmpty(Pushed(s, levels, price, it, units))
  {
    var i := LowerBound(s, levels, price);
    var levels' := Pushed(s, levels, price, it, units);
    forall j | 0 <= j < |levels'| ensures levels'[j].orders != [] {
      assert j < i ==> levels'[j] == levels[j];
      assert j > i ==> levels'[j] == levels[if Mapped(s, levels, price) then j else j - 1];
    }
  }

  predicate Locatable(st: Store, id: OrderId) {
    && id in st.index
    && var loc := st.index[id];
       var i := LowerBound(loc.side, st.On(loc.side), loc.price);
       && loc.it in st.nodes && st.nodes[loc.it].id == id
       && Mapped(loc.side, st.On(loc.side), loc.price) && loc.it in st.On(loc.side)[i].orders
  }

  /** The store after unlinking one order, and its level if that was the last order there. */
  function Unlink(st: Store, id: OrderId): Store
    requires Locatable(st, id)
  {
    var loc := st.index[id];
    var levels := st.On(loc.side);
    var i := LowerBound(loc.side, levels, loc.price);
    var st' := TakeOut(st, loc.side, i, Position(levels[i].orders, loc.it));
    if st'.On(loc.side)[i].orders == [] then st'.With(loc.side, RemoveAt(st'.On(loc.side), i)) else st'
  }

  lemma Unlinked(st: Store, id: OrderId)
    requires Core(st) && BothNonEmpty(st) && id in st.index
    ensures Locatable(st, id)
    ensures var st' := Unlink(st, id);
            && Core(st') && BothNonEmpty(st')
            && Rests(Contents(st), id) && SideOf(Contents(st), id) == st.index[id].side
            && Find(Contents(st), id).units == st.nodes[st.index[id].it].units
            && Contents(st') == Remove(Contents(st), id)
  {
    Located(st, id);
    var loc := st.index[id];
    var s, levels := loc.side, st.On(loc.side);
    var i := LowerBound(s, levels, loc.price);
    var k := Position(levels[i].orders, loc.it);
    var st1 := TakeOut(st, s, i, k);
    TakeOutKeeps(st, s, i, k);
    FoundAt(st, s, CellNumber(levels, i, k), id);
    FoundUnits(st, s, i, k);
    if st1.On(s)[i].orders == [] {
      DropEmptyKeeps(st1, s, i);
    }
    UnlinkNonEmpty(st, id);
  }

  /** The store after an in-place reduction. */
  function Shrink(st: Store, id: OrderId, units: Quantity): Store
    requires Locatable(st, id)
  {
    var loc := st.index[id];
    var i := LowerBound(loc.side, st.On(loc.side), loc.price);
    Resize(st, loc.side, i, Position(st.On(loc.side)[i].orders, loc.it), units)
  }

  lemma Shrunk(st: Store, id: OrderId, units: Quantity)
    requires Core(st) && BothNonEmpty(st) && id in st.index
    ensures Locatable(st, id)
    ensures var st' := Shrink(st, id, units);
            var q := Contents(st).On(st.index[id].side);
            var n := Index(q, id);
            && Core(st') && BothNonEmpty(st') && n < |q|
            && Contents(st') == Contents(st).With(st.index[id].side, q[n := q[n].(units := units)])
  {
    Located(st, id);
    var loc := st.index[id];
    var s, levels := loc.side, st.On(loc.side);
    var i := LowerBound(s, levels, loc.price);
    var k := Position(levels[i].orders, loc.it);
    ResizeKeeps(st, s, i, k, units);
    FoundAt(st, s, CellNumber(levels, i, k), id);
    var st' := Shrink(st, id, units);
    forall t ensures NonEmpty(st'.On(t)) { assert NonEmpty(st.On(t)); }
  }

  /** What the index says about an order is what the contents say. */
  lemma Looked(st: Store, id: OrderId)
    requires Core(st) && id in st.index
    ensures var loc := st.index[id];
            && Rests(Contents(st), id) && SideOf(Contents(st), id) == loc.side && loc.it in st.nodes
            && Find(Contents(st), id) == Slot(loc.price, id, st.nodes[loc.it].sequence, st.nodes[loc.it].units)
  {
    Located(st, id);
    var loc := st.index[id];
    var s, levels := loc.side, st.On(loc.side);
    var i := LowerBound(s, levels, loc.price);
    var k := Position(levels[i].orders, loc.it);
    assert HalfOf(st, s);
    OrderIsLive(s, levels, Cells(st.On(s.Opposite())), st.nodes, st.index, i, k);
    FoundAt(st, s, CellNumber(levels, i, k), id);
  }

  lemma FoundUnits(st: Store, s: Side, i: nat, k: nat)
    requires Core(st) && i < |st.On(s)| && k < |st.On(s)[i].orders|
    ensures var n := CellNumber(st.On(s), i, k);
            && n < |Contents(st).On(s)| && st.On(s)[i].orders[k] in st.nodes
            && Contents(st).On(s)[n].units == st.nodes[st.On(s)[i].orders[k]].units
  {
    assert HalfOf(st, s);
    OrderIsLive(s, st.On(s), Cells(st.On(s.Opposite())), st.nodes, st.index, i, k);
  }

  lemma UnlinkNonEmpty(st: Store, id: OrderId)
    requires BothNonEmpty(st) && Locatable(st, id)
    ensures BothNonEmpty(Unlink(st, id))
  {
    var s := st.index[id].side;
    var i := LowerBound(s, st.On(s), st.index[id].price);
    var st' := Unlink(st, id);
    forall t ensures NonEmpty(st'.On(t)) {
      assert NonEmpty(st.On(t));
      if t == s {
        UnlinkedLevels(st, id);
      }
    }
  }

  lemma UnlinkedLevels(st: Store, id: OrderId)
    requires Locatable(st, id) && NonEmpty(st.On(st.index[id].side))
    ensures NonEmpty(Unlink(st, id).On(st.index[id].side))
  {
    var s := st.index[id].side;
    var levels := st.On(s);
    var i := LowerBound(s, levels, st.index[id].price);
    var k := Position(levels[i].orders, st.index[id].it);
    LessOrNone(levels, i, Less(levels[i], k, st.nodes[st.index[id].it].units));
  }

  /** Putting a shorter level in its place, or nothing if it is empty, leaves no empty level. */
  lemma LessOrNone(levels: seq<PriceLevel>, i: nat, level: PriceLevel)
    requires NonEmpty(levels) && i < |levels|
    ensures level.orders == [] ==> NonEmpty(RemoveAt(levels[i := level], i))
    ensures level.orders != [] ==> NonEmpty(levels[i := level])
  {
    var fewer := RemoveAt(levels[i := level], i);
    assert forall j :: 0 <= j < |fewer| ==> fewer[j] == levels[if j < i then j else j + 1];
  }

  lemma OneEmptyAtMost(st: Store, s: Side)
    requires BothNonEmpty(st) && st.On(s) != []
    ensures TailNonEmpty(st, s)
  {
    assert forall t :: NonEmpty(st.On(t));
  }

  /** After the best level was matched, it is dropped if it is empty. */
  function EraseStep(st: Store, s: Side): Store
    requires st.On(s) != []
  {
    if st.On(s)[0].orders == [] then st.With(s, st.On(s)[1..]) else st
  }

  lemma LevelDone(st: Store, s: Side)
    requires Core(st) && TailNonEmpty(st, s)
    ensures var st' := EraseStep(st, s);
            && Core(st') && Contents(st') == Contents(st) && BothNonEmpty(st')
            && |st'.On(s)| == |st.On(s)| - (if st.On(s)[0].orders == [] then 1 else 0)
  {
    if st.On(s)[0].orders == [] {
      DropEmptyKeeps(st, s, 0);
      RemoveFirst(st.On(s));
    }
    EraseNonEmpty(st, s);
  }

  lemma EraseNonEmpty(st: Store, s: Side)
    requires TailNonEmpty(st, s)
    ensures BothNonEmpty(EraseStep(st, s))
  {
    var st' := EraseStep(st, s);
    forall t, i | 0 <= i < |st'.On(t)| ensures st'.On(t)[i].orders != [] {
      if t != s {
        assert st'.On(t) == st.On(t);
      } else if st.On(s)[0].orders == [] {
        assert st'.On(s) == st.On(s)[1..];
        assert st'.On(s)[i] == st.On(s)[i + 1];
      } else {
        assert i == 0 || st.On(s)[i].orders != [];
      }
    }
    assert forall t :: NonEmpty(st'.On(t));
  }

  /** When the loop stops, nothing of the sweep remains to be done. */
  lemma SweepEnds(st: Store, s: Side, t: Swept, done: seq<Execution>, limit: Option<Price>, incoming: OrderId, left: nat)
    requires Core(st) && BothNonEmpty(st) && left < TWO64
    requires left == 0 || st.On(s) == [] || !Crosses(s, st.On(s)[0].price, limit)
    requires Remains(t, done, s, Contents(st).On(s), limit, incoming, left)
    ensures t == Swept(done, Contents(st).On(s), left)
  {
    if left > 0 && st.On(s) != [] { FrontIs(st, s); }
  }

  lemma SeenKeeps(st: Store, id: OrderId)
    requires Core(st) && BothNonEmpty(st)
    ensures var st' := st.(seen := st.seen + {id});
            Core(st') && BothNonEmpty(st') && Contents(st') == Contents(st).(seen := st.seen + {id})
  {
    var st' := st.(seen := st.seen + {id});
    forall s ensures HalfOf(st', s) && NonEmpty(st'.On(s)) { assert HalfOf(st, s) && NonEmpty(st.On(s)); }
  }

  // ----- reading the storage -----

  lemma CountReads(st: Store)
    requires Core(st)
    ensures st.count == |Contents(st).bids| + |Contents(st).asks| == |st.index|
  {
    assert HalfOf(st, Buy);
  }

  lemma SideReads(st: Store, s: Side)
    requires Core(st) && BothNonEmpty(st)
    ensures Prices(Contents(st).On(s)) == LevelPrices(st.On(s))
  {
    assert HalfOf(st, s) && NonEmpty(st.On(s));
    PricesAre(s, st.On(s), st.nodes);
  }

  lemma DepthReads(st: Store, s: Side, limit: nat)
    requires Core(st) && BothNonEmpty(st)
    ensures var d := Depth(Contents(st).On(s), limit);
            && |d| == (if limit < |st.On(s)| then limit else |st.On(s)|)
            && forall i :: 0 <= i < |d| ==> d[i] == QuoteOf(st.On(s)[i])
  {
    assert HalfOf(st, s) && NonEmpty(st.On(s));
    DepthIs(s, st.On(s), st.nodes, limit);
  }

  lemma LevelReads(st: Store, s: Side, i: nat) returns (orders: seq<Slot>)
    requires Core(st) && i < |st.On(s)|
    ensures var level := st.On(s)[i];
            && orders == At(Contents(st).On(s), level.price)
            && QuoteOf(level) == Quote(Contents(st).On(s), level.price)
            && |orders| == |level.orders|
            && forall k :: 0 <= k < |orders| ==>
                 level.orders[k] in st.nodes && orders[k] == SlotOf(Cell(level.price, level.orders[k]), st.nodes)
  {
    assert HalfOf(st, s);
    LevelIsAt(s, st.On(s), st.nodes, i);
    QuoteIs(s, st.On(s), st.nodes, i);
    var level := st.On(s)[i];
    orders := Slots(LevelCells(level), st.nodes);
    assert forall k :: 0 <= k < |orders| ==> LevelCells(level)[k] == Cell(level.price, level.orders[k]);
  }

  lemma LevelLooks(st: Store, s: Side, i: nat, k: nat)
    requires Core(st) && i < |st.On(s)| && k < |st.On(s)[i].orders|
    ensures var it := st.On(s)[i].orders[k];
            it in st.nodes && st.nodes[it].id in st.index && st.index[st.nodes[it].id] == Location(s, st.On(s)[i].price, it)
  {
    assert HalfOf(st, s);
    OrderIsLive(s, st.On(s), Cells(st.On(s.Opposite())), st.nodes, st.index, i, k);
  }

  lemma UnitsNext(q: seq<Slot>, k: nat)
    requires k < |q|
    ensures Units(q[..k + 1]) == Units(q[..k]) + q[k].units
  {
    assert q[..k + 1] == q[..k] + [q[k]];
    UnitsConcat(q[..k], [q[k]]);
    assert [q[k]][1..] == [];
  }

  lemma NonEmptyLevel(st: Store, s: Side, i: nat)
    requires BothNonEmpty(st) && i < |st.On(s)|
    ensures st.On(s)[i].orders != []
  {
    assert NonEmpty(st.On(s));
  }

  lemma CellsNext(levels: seq<PriceLevel>, i: nat)
    requires i < |levels|
    ensures |Cells(levels[..i + 1])| == |Cells(levels[..i])| + |levels[i].orders|
  {
    assert levels[..i + 1] == levels[..i] + [levels[i]];
    CellsConcat(levels[..i], [levels[i]]);
    assert [levels[i]][1..] == [];
  }

  /** `level` holds exactly the slots of `q` at its price, and their aggregate. */
  predicate ReadsAs(level: PriceLevel, nodes: Arena, q: seq<Slot>) {
    var orders := At(q, level.price);
    && QuoteOf(level) == Quote(q, level.price)
    && |orders| == |level.orders|
    && forall k :: 0 <= k < |orders| ==>
         level.orders[k] in nodes && orders[k] == SlotOf(Cell(level.price, level.orders[k]), nodes)
  }

  lemma AllLevelsRead(st: Store, s: Side)
    requires Core(st) && BothNonEmpty(st)
    ensures forall i :: 0 <= i < |st.On(s)| ==> ReadsAs(st.On(s)[i], st.nodes, Contents(st).On(s)) && st.On(s)[i].orders != []
    ensures |Cells(st.On(s))| == |Contents(st).On(s)|
    ensures LevelPrices(st.On(s)) == Prices(Contents(st).On(s))
  {
    assert NonEmpty(st.On(s));
    SideReads(st, s);
    forall i | 0 <= i < |st.On(s)| ensures ReadsAs(st.On(s)[i], st.nodes, Contents(st).On(s)) {
      var orders := LevelReads(st, s, i);
    }
  }

  predicate LevelIndexed(s: Side, level: PriceLevel, nodes: Arena, index: map<OrderId, Location>) {
    forall k :: 0 <= k < |level.orders| ==>
      && level.orders[k] in nodes && nodes[level.orders[k]].id in index
      && index[nodes[level.orders[k]].id] == Location(s, level.price, level.orders[k])
  }

  lemma AllLevelsIndexed(st: Store, s: Side)
    requires Core(st)
    ensures forall i :: 0 <= i < |st.On(s)| ==> LevelIndexed(s, st.On(s)[i], st.nodes, st.index)
  {
    forall i, k | 0 <= i < |st.On(s)| && 0 <= k < |st.On(s)[i].orders|
      ensures st.On(s)[i].orders[k] in st.nodes && st.nodes[st.On(s)[i].orders[k]].id in st.index
      ensures st.index[st.nodes[st.On(s)[i].orders[k]].id] == Location(s, st.On(s)[i].price, st.On(s)[i].orders[k])
    {
      LevelLooks(st, s, i, k);
    }
  }

  function PaddedQuotes(levels: seq<PriceLevel>, n: nat): seq<Option<LevelQuote>> {
    seq(n, i requires 0 <= i < n => if i < |levels| then Some(QuoteOf(levels[i])) else None)
  }

  method CopyLevels(levels: seq<PriceLevel>, out: array<Option<LevelQuote>>)
    modifies out
    ensures out[..] == PaddedQuotes(levels, out.Length)
  {
    var i := 0;
    while i < out.Length
      invariant i <= out.Length && forall j :: 0 <= j < i ==> out[j] == None
    {
      out[i] := None;
      i := i + 1;
    }
    i := 0;
    while i < |levels| && i < out.Length
      invariant i <= |levels| && i <= out.Length
      invariant forall j :: 0 <= j < out.Length ==> out[j] == if j < i then Some(QuoteOf(levels[j])) else None
    {
      out[i] := Some(QuoteOf(levels[i]));
      i := i + 1;
    }
  }

  method DigestLevels(levels: seq<PriceLevel>, nodes: Arena, h0: U64, ghost q: seq<Slot>) returns (h: U64)
    requires forall i :: 0 <= i < |levels| ==> ReadsAs(levels[i], nodes, q)
    ensures h == HashLevels(h0, q, LevelPrices(levels))
  {
    ghost var ps := LevelPrices(levels);
    h := h0;
    var i := 0;
    while i < |levels|
      invariant i <= |levels| && HashLevels(h, q, ps[i..]) == HashLevels(h0, q, ps)
    {
      assert ps[i..][0] == levels[i].price && ps[i..][1..] == ps[i + 1..];
      h := HashHeader(h, QuoteOf(levels[i]));
      h := DigestOrders(levels[i], nodes, h, q);
      i := i + 1;
    }
  }

  method DigestOrders(level: PriceLevel, nodes: Arena, h0: U64, ghost q: seq<Slot>) returns (h: U64)
    requires ReadsAs(level, nodes, q)
    ensures h == HashSlots(h0, At(q, level.price))
  {
    ghost var orders := At(q, level.price);
    h := h0;
    var k := 0;
    while k < |level.orders|
      invariant k <= |level.orders| && HashSlots(h, orders[k..]) == HashSlots(h0, orders)
    {
      var order := nodes[level.orders[k]];
      assert orders[k..][0] == orders[k] && orders[k..][1..] == orders[k + 1..];
      h := HashWord(h, order.id);
      h := HashWord(h, order.sequence);
      h := HashWord(h, order.units);
      k := k + 1;
    }
  }

  /** Recount one level and look every order of it up in the index. */
  method AuditOrders(s: Side, level: PriceLevel, nodes: Arena, index: map<OrderId, Location>, ghost q: seq<Slot>)
    returns (agree: bool, counted: U64)
    requires ReadsAs(level, nodes, q) && LevelIndexed(s, level, nodes, index)
    ensures agree && counted == level.total
  {
    ghost var orders := At(q, level.price);
    agree, counted := true, 0;
    var k := 0;
    while k < |level.orders|
      invariant k <= |level.orders| && agree && counted == Wrap(Units(orders[..k]))
    {
      var order := nodes[level.orders[k]];
      UnitsNext(orders, k);
      WrapAdd(Units(orders[..k]), order.units);
      counted := Wrap(counted + order.units);
      agree := agree && order.id in index && index[order.id].side == s && index[order.id].price == level.price
        && index[order.id].it in nodes && nodes[index[order.id].it].id == order.id;
      k := k + 1;
    }
    assert orders[..k] == orders;
  }

  method AuditLevels(s: Side, levels: seq<PriceLevel>, nodes: Arena, index: map<OrderId, Location>, ghost q: seq<Slot>)
    returns (ok: bool, orders: nat)
    requires forall i :: 0 <= i < |levels| ==>
               ReadsAs(levels[i], nodes, q) && LevelIndexed(s, levels[i], nodes, index) && levels[i].orders != []
    ensures ok <==> TotalsRead(levels)
    ensures ok ==> orders == |Cells(levels)|
  {
    ok, orders := true, 0;
    var i := 0;
    while ok && i < |levels|
      invariant i <= |levels|
      invariant ok ==> forall j :: 0 <= j < i ==> levels[j].total != 0
      invariant !ok ==> 0 < i && levels[i - 1].total == 0
      invariant ok ==> orders == |Cells(levels[..i])|
    {
      CellsNext(levels, i);
      assert ReadsAs(levels[i], nodes, q) && LevelIndexed(s, levels[i], nodes, index);
      var agree, counted := AuditOrders(s, levels[i], nodes, index, q);
      ok := levels[i].orders != [] && levels[i].total != 0 && agree && counted == levels[i].total;
      orders := orders + |levels[i].orders|;
      i := i + 1;
    }
    assert levels[..|levels|] == levels;
  }

  predicate TotalsRead(levels: seq<PriceLevel>) {
    forall i :: 0 <= i < |levels| ==> levels[i].total != 0
  }

  lemma QuotableReads(st: Store)
    requires Core(st) && BothNonEmpty(st)
    ensures Quotable(Contents(st)) <==> TotalsRead(st.bids) && TotalsRead(st.asks)
  {
    forall s, i | 0 <= i < |st.On(s)|
      ensures Units(At(Contents(st).On(s), st.On(s)[i].price)) % TWO64 == st.On(s)[i].total
      ensures |Prices(Contents(st).On(s))| == |st.On(s)| && Prices(Contents(st).On(s))[i] == st.On(s)[i].price
    {
      SideReads(st, s);
      var orders := LevelReads(st, s, i);
    }
    forall s ensures |Prices(Contents(st).On(s))| == |st.On(s)| { SideReads(st, s); }
    if TotalsRead(st.bids) && TotalsRead(st.asks) {
      assert forall s :: TotalsRead(st.On(s));
    }
    if Quotable(Contents(st)) {
      forall s ensures TotalsRead(st.On(s)) {
        forall i | 0 <= i < |st.On(s)| ensures st.On(s)[i].total != 0 {
          assert Prices(Contents(st).On(s))[i] == st.On(s)[i].price;
        }
      }
      assert TotalsRead(st.On(Buy)) && TotalsRead(st.On(Sell));
    }
  }

  lemma UncrossedReads(st: Store)
    requires Core(st) && BothNonEmpty(st) && Uncrossed(Contents(st))
    ensures st.bids != [] && st.asks != [] ==> st.bids[0].price < st.asks[0].price
  {
    if st.bids != [] && st.asks != [] {
      NonEmptyLevel(st, Buy, 0);
      NonEmptyLevel(st, Sell, 0);
      FrontIs(st, Buy);
      FrontIs(st, Sell);
    }
  }

  class OrderBook {
    var bids: seq<PriceLevel>
    var asks: seq<PriceLevel>
    var nodes: Arena
    var index: map<OrderId, Location>
    var seen: set<OrderId>
    var count: int
    var next: Handle

    ghost function St(): Store
      reads this
    {
      Store(bids, asks, nodes, index, seen, count, next)
    }

    /** Between steps of an operation. */
    ghost predicate Steady()
      reads this
    {
      Core(St()) && BothNonEmpty(St())
    }

    /** Between operations. */
    ghost predicate Valid()
      reads this
    {
      Steady() && Wf(Model())
    }

    ghost function Model(): Book
      reads this
      requires Core(St())
    {
      Contents(St())
    }

    function On(s: Side): seq<PriceLevel>
      reads this
    {
      if s.Buy? then bids else asks
    }

    constructor ()
      ensures Valid() && Model() == EMPTY
    {
      bids, asks, nodes, index, seen, count, next := [], [], map[], map[], {}, 0, 0;
    }

    method SetLevels(s: Side, levels: seq<PriceLevel>)
      modifies this
      ensures St() == old(St()).With(s, levels)
    {
      if s.Buy? { bids := levels; } else { asks := levels; }
    }

    /** One fill against the order at the head of the best level of side `s`. */
    method FillFront(s: Side, incoming: OrderId, units: Quantity) returns (e: Execution)
      requires HasFront(St(), s)
      modifies this
      ensures St() == FillFrontStep(old(St()), s, units)
      ensures e == FrontExecution(old(St()), s, incoming, units)
    {
      var levels := On(s);
      var level := levels[0];
      var it := level.orders[0];
      var resting := nodes[it];
      var executed := if units < resting.units then units else resting.units;
      e := Execution(resting.id, incoming, level.price, executed);
      if resting.units - executed == 0 {
        index := index - {resting.id};
        nodes := nodes - {it};
        SetLevels(s, levels[0 := PriceLevel(level.price, Wrap(level.total - executed), level.orders[1..])]);
        count := count - 1;
        RemoveFirst(level.orders);
      } else {
        nodes := nodes[it := resting.(units := resting.units - executed)];
        SetLevels(s, levels[0 := level.(total := Wrap(level.total - executed))]);
      }
    }
  
    /** Match against the best level of side `s` until it or the incoming order is exhausted. */
    method MatchLevel(s: Side, incoming: OrderId, units: Quantity, ghost t: Swept, done: seq<Execution>, ghost limit: Option<Price>)
      returns (remaining: nat, executions: seq<Execution>)
      requires Core(St()) && TailNonEmpty(St(), s) && Crosses(s, On(s)[0].price, limit)
      requires Remains(t, done, s, Model().On(s), limit, incoming, units)
      modifies this
      ensures Core(St()) && TailNonEmpty(St(), s) && |On(s)| == |old(On(s))|
      ensures remaining == 0 || On(s)[0].orders == []
      ensures remaining <= units && Model() == old(Model()).With(s, Model().On(s))
      ensures Remains(t, executions, s, Model().On(s), limit, incoming, remaining)
    {
      remaining, executions := units, done;
      ghost var n := |On(s)|;
      ghost var m := Model();
      while remaining > 0 && On(s)[0].orders != []
        invariant Core(St()) && TailNonEmpty(St(), s) && |On(s)| == n && Crosses(s, On(s)[0].price, limit)
        invariant Model() == m.With(s, Model().On(s))
        invariant remaining <= units && Remains(t, executions, s, Model().On(s), limit, incoming, remaining)
        decreases |On(s)[0].orders|, remaining
      {
        LevelStep(St(), s, t, executions, limit, incoming, remaining);
        var e := FillFront(s, incoming, remaining);
        executions := executions + [e];
        remaining := remaining - e.quantity;
      }
    }

    method EraseIfEmpty(s: Side)
      requires On(s) != []
      modifies this
      ensures St() == EraseStep(old(St()), s)
    {
      if On(s)[0].orders == [] {
        SetLevels(s, On(s)[1..]);
      }
    }

    method MatchAgainstBook(incoming: OrderId, side: Side, kind: OrderType, limit: Option<Price>, quantity: Quantity)
      returns (remaining: nat, executions: seq<Execution>)
      requires Steady() && (kind.Limit? <==> limit.Some?)
      modifies this
      ensures Steady() && remaining <= quantity
      ensures var s := side.Opposite();
              var t := Sweep(s, old(Model()).On(s), limit, incoming, quantity);
              t == Swept(executions, Model().On(s), remaining) && Model() == old(Model()).With(s, t.rest)
    {
      var s := side.Opposite();
      remaining, executions := quantity, [];
      ghost var m := Model();
      ghost var t := Sweep(s, m.On(s), limit, incoming, quantity);
      while remaining > 0 && On(s) != [] && (kind.Market? || Crosses(s, On(s)[0].price, limit))
        invariant Steady() && Model() == m.With(s, Model().On(s))
        invariant remaining <= quantity && Remains(t, executions, s, Model().On(s), limit, incoming, remaining)
        decreases if remaining > 0 then |On(s)| + 1 else 0
      {
        OneEmptyAtMost(St(), s);
        remaining, executions := MatchLevel(s, incoming, remaining, t, executions, limit);
        LevelDone(St(), s);
        EraseIfEmpty(s);
      }
      SweepEnds(St(), s, t, executions, limit, incoming, remaining);
    }
  
    /** The list and index updates of an insertion. */
    method LinkBack(id: OrderId, sequence: Sequence, side: Side, price: Price, quantity: Quantity)
      modifies this
      ensures St() == PushBack(old(St()), side, price, Resting(id, sequence, quantity))
    {
      var levels := On(side);
      var i := LowerBound(side, levels, price);
      if Mapped(side, levels, price) {
        SetLevels(side, levels[i := PriceLevel(price, Wrap(levels[i].total + quantity), levels[i].orders + [next])]);
      } else {
        SetLevels(side, levels[..i] + [PriceLevel(price, Wrap(0 + quantity), [next])] + levels[i..]);
      }
      nodes := nodes[next := Resting(id, sequence, quantity)];
      index := index[id := Location(side, price, next)];
      next, count := next + 1, count + 1;
    }

    method InsertRestingOrder(id: OrderId, sequence: Sequence, side: Side, price: Price, quantity: Quantity)
      requires Steady() && !Rests(Model(), id)
      modifies this
      ensures Steady()
      ensures Model() == old(Model()).With(side, Insert(side, old(Model()).On(side), Slot(price, id, sequence, quantity)))
    {
      IndexedIffRests(St(), id);
      PushBackKeeps(St(), side, price, Resting(id, sequence, quantity));
      PushedNonEmpty(St(), side, price, Resting(id, sequence, quantity));
      LinkBack(id, sequence, side, price, quantity);
    }

    /** The list and index updates of a removal. */
    method UnlinkNode(loc: Location, id: OrderId)
      requires Locatable(St(), id) && loc == index[id]
      modifies this
      ensures St() == Unlink(old(St()), id)
    {
      var units := nodes[loc.it].units;
      var levels := On(loc.side);
      var i := LowerBound(loc.side, levels, loc.price);
      var level := levels[i];
      var orders := RemoveAt(level.orders, Position(level.orders, loc.it));
      RemoveReplaced(levels, i, PriceLevel(level.price, Wrap(level.total - units), orders));
      if orders == [] {
        SetLevels(loc.side, RemoveAt(levels, i));
      } else {
        SetLevels(loc.side, levels[i := PriceLevel(level.price, Wrap(level.total - units), orders)]);
      }
      nodes := nodes - {loc.it};
      index := index - {id};
      count := count - 1;
    }

    method RemoveRestingOrder(loc: Location, id: OrderId) returns (cancelled: Quantity)
      requires Steady() && id in index && loc == index[id]
      modifies this
      ensures Steady() && Rests(old(Model()), id) && SideOf(old(Model()), id) == loc.side
      ensures cancelled == Find(old(Model()), id).units && Model() == Remove(old(Model()), id)
    {
      Unlinked(St(), id);
      cancelled := nodes[loc.it].units;
      UnlinkNode(loc, id);
    }

    /** Match an order that does not rest, then rest what is left of it if it has a limit. */
    method EnterOrder(side: Side, id: OrderId, sequence: Sequence, kind: OrderType, limit: Option<Price>, quantity: Quantity)
      returns (r: Outcome)
      requires Steady() && Wf(Model()) && !Rests(Model(), id) && (kind.Limit? <==> limit.Some?)
      modifies this
      ensures Steady() && (Model(), r) == Enter(old(Model()), side, id, sequence, limit, quantity)
    {
      SweptApart(Model(), side, limit, id, quantity);
      var remaining, executions := MatchAgainstBook(id, side, kind, limit, quantity);
      r := Outcome(executions, None, None, None);
      if kind.Limit? && remaining > 0 {
        InsertRestingOrder(id, sequence, side, limit.value, remaining);
        r := r.(remaining := Some(remaining));
      }
    }

    method Submit(order: NewOrder) returns (r: Outcome)
      requires Valid()
      modifies this
      ensures Valid() && (Model(), r) == BookSpec.Submit(old(Model()), order)
    {
      ApplyKeeps(Model(), New(order));
      if Validate(order).Some? {
        return Rejected(InvalidOrder);
      }
      if order.id in seen {
        return Rejected(DuplicateOrderId);
      }
      NewIdKeeps(Model(), order.id);
      SeenKeeps(St(), order.id);
      seen := seen + {order.id};
      r := EnterOrder(order.side, order.id, order.sequence, order.kind, order.limit, order.quantity);
    }

    method Cancel(command: CancelOrder) returns (r: Outcome)
      requires Valid()
      modifies this
      ensures Valid() && (Model(), r) == CancelId(old(Model()), command.id)
    {
      ApplyKeeps(Model(), Types.Cancel(command));
      IndexedIffRests(St(), command.id);
      if command.id !in index {
        return Rejected(OrderNotFound);
      }
      var cancelled := RemoveRestingOrder(index[command.id], command.id);
      r := Outcome([], None, None, Some(cancelled));
    }

    /** Reduce a resting order without moving it. */
    method Reduce(loc: Location, id: OrderId, quantity: Quantity)
      requires Locatable(St(), id) && loc == index[id]
      modifies this
      ensures St() == Shrink(old(St()), id, quantity)
    {
      var levels := On(loc.side);
      var i := LowerBound(loc.side, levels, loc.price);
      var current := nodes[loc.it];
      SetLevels(loc.side, levels[i := levels[i].(total := Wrap(levels[i].total - (current.units - quantity)))]);
      nodes := nodes[loc.it := current.(units := quantity)];
    }

    method Replace(command: ReplaceOrder) returns (r: Outcome)
      requires Valid()
      modifies this
      ensures Valid() && (Model(), r) == ReplaceOne(old(Model()), command)
    {
      ApplyKeeps(Model(), Types.Replace(command));
      IndexedIffRests(St(), command.id);
      if command.id !in index {
        return Rejected(OrderNotFound);
      }
      Looked(St(), command.id);
      var loc := index[command.id];
      var current := nodes[loc.it].units;
      if command.price == loc.price && command.quantity <= current {
        Shrunk(St(), command.id, command.quantity);
        Reduce(loc, command.id, command.quantity);
        return Outcome([], None, Some(command.quantity), None);
      }
      RemoveKeeps(Model(), command.id);
      var removed := RemoveRestingOrder(loc, command.id);
      r := EnterOrder(loc.side, command.id, command.sequence, Limit, Some(command.price), command.quantity);
    }
  
    // ----- queries -----

    method BestPrice(s: Side) returns (best: Option<Price>)
      requires Steady()
      ensures best == var ps := Prices(Model().On(s)); if ps == [] then None else Some(ps[0])
    {
      SideReads(St(), s);
      best := if On(s) == [] then None else Some(On(s)[0].price);
    }

    method DepthOf(s: Side, limit: nat) returns (quotes: seq<LevelQuote>)
      requires Steady()
      ensures quotes == Depth(Model().On(s), limit)
    {
      SideReads(St(), s);
      DepthReads(St(), s, limit);
      var levels := On(s);
      quotes := [];
      while |quotes| < |levels| && |quotes| != limit
        invariant |quotes| <= |levels| && |quotes| <= limit
        invariant forall i :: 0 <= i < |quotes| ==> quotes[i] == QuoteOf(levels[i])
      {
        quotes := quotes + [QuoteOf(levels[|quotes|])];
      }
    }

    method Top(s: Side) returns (top: Option<LevelQuote>)
      requires Steady()
      ensures top == TopOf(Model().On(s))
    {
      DepthReads(St(), s, 1);
      top := if On(s) == [] then None else Some(QuoteOf(On(s)[0]));
    }

    /** Fill the two outputs with the best levels of each side, and with nothing after them. */
    method CopyDepth(bidOut: array<Option<LevelQuote>>, askOut: array<Option<LevelQuote>>)
      requires Steady() && bidOut != askOut
      modifies bidOut, askOut
      ensures Steady() && Model() == old(Model())
      ensures bidOut[..] == Padded(Depth(Model().bids, bidOut.Length), bidOut.Length)
      ensures askOut[..] == Padded(Depth(Model().asks, askOut.Length), askOut.Length)
    {
      DepthReads(St(), Buy, bidOut.Length);
      DepthReads(St(), Sell, askOut.Length);
      CopyLevels(bids, bidOut);
      CopyLevels(asks, askOut);
      assert Padded(Depth(Model().bids, bidOut.Length), bidOut.Length) == PaddedQuotes(bids, bidOut.Length);
      assert Padded(Depth(Model().asks, askOut.Length), askOut.Length) == PaddedQuotes(asks, askOut.Length);
    }

    method RestingOrderCount() returns (n: int)
      requires Steady()
      ensures n == |Model().bids| + |Model().asks|
    {
      CountReads(St());
      n := count;
    }

    method Contains(id: OrderId) returns (r: bool)
      requires Steady()
      ensures r <==> Rests(Model(), id)
    {
      IndexedIffRests(St(), id);
      r := id in index;
    }

    method DigestSide(s: Side, h0: U64) returns (h: U64)
      requires Steady()
      ensures h == HashSide(h0, s, Model().On(s))
    {
      SideReads(St(), s);
      AllLevelsRead(St(), s);
      h := HashWord(h0, if s.Buy? then 0 else 1);
      h := HashWord(h, Wrap(|On(s)|));
      h := DigestLevels(On(s), nodes, h, Model().On(s));
    }

    method DigestFrom(h0: U64) returns (h: U64)
      requires Steady()
      ensures h == HashBook(h0, Model())
    {
      h := DigestSide(Buy, h0);
      h := DigestSide(Sell, h);
      var n := RestingOrderCount();
      h := HashWord(h, Wrap(n));
    }

    method StateDigest() returns (h: U64)
      requires Steady()
      ensures h == Digest(Model())
    {
      h := DigestFrom(Fnv.OFFSET_BASIS);
    }

    method AuditSide(s: Side) returns (ok: bool, orders: nat)
      requires Steady()
      ensures ok <==> TotalsRead(On(s))
      ensures ok ==> orders == |Model().On(s)|
    {
      AllLevelsRead(St(), s);
      AllLevelsIndexed(St(), s);
      ok, orders := AuditLevels(s, On(s), nodes, index, Model().On(s));
    }

    /** Everything the audit checks is guaranteed, except that a level's 64-bit total is not zero. */
    method ValidateInvariants() returns (ok: bool)
      requires Valid()
      ensures ok <==> Quotable(Model())
    {
      QuotableReads(St());
      CountReads(St());
      UncrossedReads(St());
      ok := !(bids != [] && asks != [] && bids[0].price >= asks[0].price);
      var okBids, nBids := AuditSide(Buy);
      var okAsks, nAsks := AuditSide(Sell);
      ok := ok && okBids && okAsks && nBids + nAsks == count && nBids + nAsks == |index|;
    }
  }
}
