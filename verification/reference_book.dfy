/** The reference book as a mutable object, checked against ReferenceSpec, and the
    differential driver that runs it beside the order book. */
module ReferenceBooks {
  import opened Types
  import opened BookSpec
  import opened ReferenceSpec
  import opened Refinement
  import opened Differential
  import opened OrderBooks

  ghost predicate Remaining(t: FlatSwept, done: seq<Execution>, v: seq<RefOrder>, side: Side, limit: Option<Price>, incoming: OrderId, left: nat)
    requires left < TWO64
  {
    var u := FlatMatch(v, side, limit, incoming, left);
    t == FlatSwept(done + u.executions, u.resting, u.left)
  }

  lemma RemainingWhole(t: FlatSwept, done: seq<Execution>, v: seq<RefOrder>, side: Side, limit: Option<Price>, incoming: OrderId,
                       left: Quantity, i: nat)
    requires Remaining(t, done, v, side, limit, incoming, left)
    requires BestIndex(v, side, limit, |v|) == Some(i) && v[i].units <= left
    ensures Remaining(t, done + [Execution(v[i].id, incoming, v[i].price, v[i].units)], RemoveAt(v, i), side, limit, incoming,
                      left - v[i].units)
  {
    FlatWhole(v, side, limit, incoming, left, i);
    var u := FlatMatch(RemoveAt(v, i), side, limit, incoming, left - v[i].units);
    var e := Execution(v[i].id, incoming, v[i].price, v[i].units);
    assert done + ([e] + u.executions) == done + [e] + u.executions;
  }

  lemma RemainingPart(t: FlatSwept, done: seq<Execution>, v: seq<RefOrder>, side: Side, limit: Option<Price>, incoming: OrderId,
                      left: Quantity, i: nat)
    requires Remaining(t, done, v, side, limit, incoming, left)
    requires BestIndex(v, side, limit, |v|) == Some(i) && left < v[i].units
    ensures Remaining(t, done + [Execution(v[i].id, incoming, v[i].price, left)], v[i := v[i].(units := v[i].units - left)],
                      side, limit, incoming, 0)
  {
    FlatPartial(v, side, limit, incoming, left, i);
    FlatDone(v[i := v[i].(units := v[i].units - left)], side, limit, incoming);
    var e := Execution(v[i].id, incoming, v[i].price, left);
    assert done + [e] + [] == done + [e];
  }

  /** One fill of order `i` by an incoming order of `left` units: what trades and what stays. */
  function Hit(v: seq<RefOrder>, i: nat, incoming: OrderId, left: Quantity): Execution
    requires i < |v|
  {
    Execution(v[i].id, incoming, v[i].price, if left < v[i].units then left else v[i].units)
  }

  function HitRest(v: seq<RefOrder>, i: nat, left: Quantity): seq<RefOrder>
    requires i < |v|
  {
    if left < v[i].units then v[i := v[i].(units := v[i].units - left)] else RemoveAt(v, i)
  }

  lemma RemainingHit(t: FlatSwept, done: seq<Execution>, v: seq<RefOrder>, side: Side, limit: Option<Price>, incoming: OrderId,
                     left: Quantity, i: nat)
    requires Remaining(t, done, v, side, limit, incoming, left)
    requires BestIndex(v, side, limit, |v|) == Some(i)
    ensures var e := Hit(v, i, incoming, left);
            Remaining(t, done + [e], HitRest(v, i, left), side, limit, incoming, left - e.quantity)
  {
    if left < v[i].units {
      RemainingPart(t, done, v, side, limit, incoming, left, i);
    } else {
      RemainingWhole(t, done, v, side, limit, incoming, left, i);
    }
  }

  lemma RemainingFirst(v: seq<RefOrder>, side: Side, limit: Option<Price>, incoming: OrderId, left: Quantity)
    ensures Remaining(FlatMatch(v, side, limit, incoming, left), [], v, side, limit, incoming, left)
  {
    var u := FlatMatch(v, side, limit, incoming, left);
    assert [] + u.executions == u.executions;
  }

  lemma RemainingLast(t: FlatSwept, done: seq<Execution>, v: seq<RefOrder>, side: Side, limit: Option<Price>, incoming: OrderId,
                      left: nat)
    requires left < TWO64 && Remaining(t, done, v, side, limit, incoming, left)
    requires left == 0 || BestIndex(v, side, limit, |v|).None?
    ensures t == FlatSwept(done, v, left)
  {
    assert done + [] == done;
  }

  class ReferenceOrderBook {
    var resting: seq<RefOrder>
    var seen: seq<OrderId>

    ghost function Model(): RefBook
      reads this
    {
      RefBook(resting, seen)
    }

    constructor ()
      ensures Model() == NO_ORDERS
    {
      resting, seen := [], [];
    }

    method FindBest(side: Side, limit: Option<Price>) returns (best: Option<nat>)
      ensures best == BestIndex(resting, side, limit, |resting|)
    {
      best := None;
      for i := 0 to |resting|
        invariant best == BestIndex(resting, side, limit, i)
      {
        var candidate := resting[i];
        if Candidate(candidate, side, limit) && (best.None? || Precedes(candidate, resting[best.value])) {
          best := Some(i);
        }
      }
    }

    /** Fill the order at index `i`, and erase it if nothing of it is left. */
    method FillAt(i: nat, incoming: OrderId, left: Quantity) returns (e: Execution)
      requires i < |resting|
      modifies this`resting
      ensures e == Hit(old(resting), i, incoming, left) && resting == HitRest(old(resting), i, left)
      ensures e.quantity <= left && (|resting| < |old(resting)| || (|resting| == |old(resting)| && e.quantity == left))
    {
      var contra := resting[i];
      var executed := if left < contra.units then left else contra.units;
      e := Execution(contra.id, incoming, contra.price, executed);
      if contra.units - executed == 0 {
        resting := RemoveAt(resting, i);
      } else {
        resting := resting[i := contra.(units := contra.units - executed)];
      }
    }

    method Match(incoming: OrderId, side: Side, limit: Option<Price>, quantity: Quantity)
      returns (remaining: nat, executions: seq<Execution>)
      modifies this`resting
      ensures remaining <= quantity
      ensures FlatMatch(old(resting), side, limit, incoming, quantity) == FlatSwept(executions, resting, remaining)
    {
      ghost var t := FlatMatch(resting, side, limit, incoming, quantity);
      RemainingFirst(resting, side, limit, incoming, quantity);
      remaining, executions := quantity, [];
      var best := FindBest(side, limit);
      while remaining > 0 && best.Some?
        invariant remaining <= quantity && best == BestIndex(resting, side, limit, |resting|)
        invariant Remaining(t, executions, resting, side, limit, incoming, remaining)
        decreases |resting|, remaining
      {
        RemainingHit(t, executions, resting, side, limit, incoming, remaining, best.value);
        var e := FillAt(best.value, incoming, remaining);
        executions := executions + [e];
        remaining := remaining - e.quantity;
        best := FindBest(side, limit);
      }
      RemainingLast(t, executions, resting, side, limit, incoming, remaining);
    }

    method EnterOrder(side: Side, id: OrderId, sequence: Sequence, limit: Option<Price>, quantity: Quantity) returns (r: Outcome)
      modifies this`resting
      ensures (Model(), r) == FlatEnter(old(Model()), side, id, sequence, limit, quantity)
    {
      var remaining, executions := Match(id, side, limit, quantity);
      r := Outcome(executions, None, None, None);
      if limit.Some? && remaining > 0 {
        resting := resting + [RefOrder(id, sequence, side, limit.value, remaining)];
        r := r.(remaining := Some(remaining));
      }
    }

    /** submit, cancel and replace. */
    method Process(c: Command) returns (r: Outcome)
      modifies this
      ensures (Model(), r) == FlatApply(old(Model()), c)
    {
      match c
      case New(o) =>
        if Validate(o).Some? { return Rejected(InvalidOrder); }
        if o.id in seen { return Rejected(DuplicateOrderId); }
        seen := seen + [o.id];
        r := EnterOrder(o.side, o.id, o.sequence, o.limit, o.quantity);
      case Cancel(k) =>
        var i := Lookup(resting, k.id);
        if i == |resting| { return Rejected(OrderNotFound); }
        r := Outcome([], None, None, Some(resting[i].units));
        resting := RemoveAt(resting, i);
      case Replace(p) =>
        var i := Lookup(resting, p.id);
        if i == |resting| { return Rejected(OrderNotFound); }
        var o := resting[i];
        if p.price == o.price && p.quantity <= o.units {
          resting := resting[i := o.(units := p.quantity)];
          return Outcome([], None, Some(p.quantity), None);
        }
        resting := RemoveAt(resting, i);
        r := EnterOrder(o.side, p.id, p.sequence, Some(p.price), p.quantity);
    }

    method BestPrice(s: Side) returns (best: Option<Price>)
      ensures best == FlatBest(resting, s)
    {
      best := None;
      for i := 0 to |resting|
        invariant best == FlatBest(resting[..i], s)
      {
        assert resting[..i + 1][..i] == resting[..i];
        if resting[i].side == s && (best.None? || Better(s, resting[i].price, best.value)) {
          best := Some(resting[i].price);
        }
      }
      assert resting[..|resting|] == resting;
    }

    method AggregateLevel(s: Side, p: Price) returns (level: LevelQuote)
      ensures level == FlatAggregate(resting, s, p)
    {
      var total: U64, count: nat := 0, 0;
      for i := 0 to |resting|
        invariant LevelQuote(p, total, count) == FlatAggregate(resting[..i], s, p)
      {
        assert resting[..i + 1][..i] == resting[..i];
        if resting[i].side == s && resting[i].price == p {
          total := Wrap(total + resting[i].units);
          count := count + 1;
        }
      }
      assert resting[..|resting|] == resting;
      level := LevelQuote(p, total, count);
    }

    method Top(s: Side) returns (top: Option<LevelQuote>)
      ensures top == FlatTop(resting, s)
    {
      var best := BestPrice(s);
      if best.None? {
        return None;
      }
      var level := AggregateLevel(s, best.value);
      top := Some(level);
    }

    method DepthOf(s: Side, limit: nat) returns (quotes: seq<LevelQuote>)
      ensures quotes == FlatDepth(resting, s, limit)
    {
      var levels := [];
      for i := 0 to |resting|
        invariant levels == FlatLevels(resting[..i], s)
      {
        assert resting[..i + 1][..i] == resting[..i];
        if resting[i].side == s {
          levels := Tally(s, levels, resting[i].price, resting[i].units);
        }
      }
      assert resting[..|resting|] == resting;
      quotes := if limit < |levels| then levels[..limit] else levels;
    }
  }

  // ----- the differential driver -----

  method ProcessOn(book: OrderBook, c: Command) returns (r: Outcome)
    requires book.Valid()
    modifies book
    ensures book.Valid() && (book.Model(), r) == Apply(old(book.Model()), c)
  {
    match c
    case New(o) => r := book.Submit(o);
    case Cancel(k) => r := book.Cancel(k);
    case Replace(p) => r := book.Replace(p);
  }

  /** Compare everything observable on one side. */
  method SameSide(book: OrderBook, reference: ReferenceOrderBook, s: Side, limit: nat) returns (same: bool)
    requires book.Valid() && book.Model() == Ordered(reference.Model())
    ensures same
  {
    DepthObserved(reference.resting, s, limit);
    TopObserved(reference.resting, s);
    BestObserved(reference.resting, s);
    PricesHead(book.Model().On(s));
    assert book.Model().On(s) == Prio(reference.resting, s);
    var best := book.BestPrice(s);
    var best' := reference.BestPrice(s);
    var depth := book.DepthOf(s, limit);
    var depth' := reference.DepthOf(s, limit);
    var top := book.Top(s);
    var top' := reference.Top(s);
    same := best == best' && depth == depth' && top == top';
  }

  /** One command on both books, and everything observable compared. */
  method CompareStep(book: OrderBook, reference: ReferenceOrderBook, c: Command, limit: nat, ghost bound: int) returns (same: bool)
    requires book.Valid() && book.Model() == Ordered(reference.Model())
    requires Tidy(reference.resting, reference.seen, bound) && bound <= c.Sequence()
    modifies book, reference
    ensures same && book.Valid() && book.Model() == Ordered(reference.Model())
    ensures Tidy(reference.resting, reference.seen, c.Sequence())
  {
    ApplyRefines(reference.Model(), c, bound);
    var r := ProcessOn(book, c);
    var r' := reference.Process(c);
    var bids := SameSide(book, reference, Buy, limit);
    var asks := SameSide(book, reference, Sell, limit);
    CountObserved(reference.resting);
    var count := book.RestingOrderCount();
    same := r == r' && bids && asks && count == |reference.resting|;
  }

  /** The largest sequence number among the first `i` commands of a run that never decreases. */
  ghost function Bound(cs: seq<Command>, i: nat): int
    requires i <= |cs|
  {
    if i == 0 then 0 else cs[i - 1].Sequence()
  }

  lemma BoundGrows(cs: seq<Command>, i: nat)
    requires NonDecreasing(cs, 0) && i < |cs|
    ensures Bound(cs, i) <= cs[i].Sequence() == Bound(cs, i + 1)
  {
  }

  lemma InStepAtFirst()
    ensures Ordered(NO_ORDERS) == EMPTY && Tidy(NO_ORDERS.resting, NO_ORDERS.seen, 0)
  {
  }

  /** Drive both books with the same commands and compare every answer and every observation. */
  method CompareRun(cs: seq<Command>, limit: nat) returns (agree: bool)
    requires NonDecreasing(cs, 0)
    ensures agree
  {
    InStepAtFirst();
    var book := new OrderBook();
    var reference := new ReferenceOrderBook();
    agree := true;
    for i := 0 to |cs|
      invariant agree && book.Valid() && book.Model() == Ordered(reference.Model())
      invariant Tidy(reference.resting, reference.seen, Bound(cs, i))
      modifies book, reference
    {
      BoundGrows(cs, i);
      var same := CompareStep(book, reference, cs[i], limit, Bound(cs, i));
      agree := agree && same;
    }
  }
}
