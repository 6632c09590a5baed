/** Matching is greedy, and greedy is best: it trades all it can, at the best total price. */
module BookOptimality {
  import opened Types
  import opened BookSpec
  import opened BookInvariant
  import opened BookPriority

  // ----- how much is traded -----

  /** A price on side `s` that an order with this limit accepts: asks up to it, bids down to it. */
  predicate Acceptable(s: Side, price: Price, limit: Option<Price>) {
    limit.None? || (if s.Sell? then price <= limit.value else price >= limit.value)
  }

  /** The resting units on side `s` at prices that an order with this limit accepts. */
  function Crossable(s: Side, q: seq<Slot>, limit: Option<Price>): nat {
    if q == [] then 0
    else (if Acceptable(s, q[0].price, limit) then q[0].units else 0) + Crossable(s, q[1..], limit)
  }

  lemma {:induction false} NoneCrossable(s: Side, q: seq<Slot>, limit: Option<Price>)
    requires forall i :: 0 <= i < |q| ==> !Acceptable(s, q[i].price, limit)
    ensures Crossable(s, q, limit) == 0
    decreases |q|
  {
    if q != [] { NoneCrossable(s, q[1..], limit); }
  }

  lemma {:induction false} SweepVolume(s: Side, q: seq<Slot>, limit: Option<Price>, incoming: OrderId, units: nat)
    requires units < TWO64 && Sorted(s, q)
    ensures Traded(Sweep(s, q, limit, incoming, units).executions) ==
            if units < Crossable(s, q, limit) then units else Crossable(s, q, limit)
    decreases |q|
  {
    var t := Sweep(s, q, limit, incoming, units);
    if units == 0 || q == [] {
    } else if !Crosses(s, q[0].price, limit) {
      NoneCrossable(s, q, limit);
    } else if units < q[0].units {
      assert t.executions[1..] == [];
    } else {
      SweepVolume(s, q[1..], limit, incoming, units - q[0].units);
      assert t.executions[1..] == Sweep(s, q[1..], limit, incoming, units - q[0].units).executions;
    }
  }

  // ----- at what total price -----

  function Notional(es: seq<Execution>): nat {
    if es == [] then 0 else es[0].price * es[0].quantity + Notional(es[1..])
  }

  /** So many units of each resting order. */
  predicate Allocation(q: seq<Slot>, a: seq<nat>) {
    |a| == |q| && forall i :: 0 <= i < |q| ==> a[i] <= q[i].units
  }

  function Sum(a: seq<nat>): nat {
    if a == [] then 0 else a[0] + Sum(a[1..])
  }

  function Cost(q: seq<Slot>, a: seq<nat>): nat
    requires |a| == |q|
  {
    if q == [] then 0 else q[0].price * a[0] + Cost(q[1..], a[1..])
  }

  /** `x` is at least as good a total as `y` for someone trading against side `s`:
      a buyer pays no more, a seller receives no less. */
  predicate AtLeastAsGood(s: Side, x: int, y: int) {
    if s.Sell? then x <= y else x >= y
  }

  /** Withdraw `d` units from an allocation, front first. */
  function Trim(a: seq<nat>, d: nat): seq<nat>
    requires d <= Sum(a)
  {
    if a == [] then []
    else if d <= a[0] then [a[0] - d] + a[1..]
    else [0] + Trim(a[1..], d - a[0])
  }

  lemma {:induction false} TrimIsAllocation(q: seq<Slot>, a: seq<nat>, d: nat)
    requires Allocation(q, a) && d <= Sum(a)
    ensures Allocation(q, Trim(a, d)) && Sum(Trim(a, d)) == Sum(a) - d
    decreases |a|
  {
    if a != [] {
      var a' := Trim(a, d);
      if d <= a[0] {
        assert a'[1..] == a[1..];
      } else {
        assert Allocation(q[1..], a[1..]);
        TrimIsAllocation(q[1..], a[1..], d - a[0]);
        assert a'[1..] == Trim(a[1..], d - a[0]);
      }
    }
  }

  /** Withdrawing `d` units priced at `p` or worse saves at least `p` for each. */
  lemma {:induction false} TrimSaves(s: Side, q: seq<Slot>, a: seq<nat>, d: nat, p: Price)
    requires Allocation(q, a) && d <= Sum(a) && forall i :: 0 <= i < |q| ==> !Better(s, q[i].price, p)
    ensures |Trim(a, d)| == |q| && AtLeastAsGood(s, Cost(q, Trim(a, d)) + p * d, Cost(q, a))
    decreases |a|
  {
    TrimIsAllocation(q, a, d);
    if a != [] {
      var a', x := Trim(a, d), q[0].price;
      if d <= a[0] {
        assert a'[1..] == a[1..];
        assert x * (a[0] - d) == x * a[0] - x * d;
        Dearer(s, x, p, d);
      } else {
        assert Allocation(q[1..], a[1..]);
        TrimSaves(s, q[1..], a[1..], d - a[0], p);
        assert a'[1..] == Trim(a[1..], d - a[0]);
        assert p * d == p * a[0] + p * (d - a[0]);
        Dearer(s, x, p, a[0]);
      }
    }
  }

  lemma Dearer(s: Side, x: Price, p: Price, d: nat)
    requires !Better(s, x, p)
    ensures AtLeastAsGood(s, p * d, x * d)
  {
    if s.Sell? { assert x * d == p * d + (x - p) * d; } else { assert p * d == x * d + (p - x) * d; }
  }

  /** Taking `units` from the front of the list. */
  function GreedyCost(q: seq<Slot>, units: nat): nat {
    if q == [] || units == 0 then 0
    else if units < q[0].units then q[0].price * units
    else q[0].price * q[0].units + GreedyCost(q[1..], units - q[0].units)
  }

  lemma {:induction false} SweepIsGreedy(s: Side, q: seq<Slot>, limit: Option<Price>, incoming: OrderId, units: nat)
    requires units < TWO64
    ensures var es := Sweep(s, q, limit, incoming, units).executions;
            Notional(es) == GreedyCost(q, Traded(es))
    decreases |q|
  {
    var es := Sweep(s, q, limit, incoming, units).executions;
    if units == 0 || q == [] || !Crosses(s, q[0].price, limit) {
    } else if units < q[0].units {
      assert es[1..] == [];
    } else {
      SweepIsGreedy(s, q[1..], limit, incoming, units - q[0].units);
      assert es[1..] == Sweep(s, q[1..], limit, incoming, units - q[0].units).executions;
    }
  }

  lemma {:induction false} GreedyIsBest(s: Side, q: seq<Slot>, a: seq<nat>)
    requires Sorted(s, q) && Allocation(q, a)
    ensures AtLeastAsGood(s, GreedyCost(q, Sum(a)), Cost(q, a))
    decreases |q|
  {
    if q != [] {
      var m := if Sum(a) < q[0].units then Sum(a) else q[0].units;
      GreedyIsBest(s, q[1..], Shifted(q, a, m));
      GreedyFront(q, Sum(a), m);
      ShiftHelps(s, q, a, m);
    }
  }

  /** The rest of an allocation once its first order is raised to `m` units. */
  function Shifted(q: seq<Slot>, a: seq<nat>, m: nat): (r: seq<nat>)
    requires q != [] && Allocation(q, a) && a[0] <= m <= Sum(a)
    ensures Allocation(q[1..], r) && Sum(r) == Sum(a) - m
  {
    assert Allocation(q[1..], a[1..]);
    TrimIsAllocation(q[1..], a[1..], m - a[0]);
    Trim(a[1..], m - a[0])
  }

  lemma ShiftHelps(s: Side, q: seq<Slot>, a: seq<nat>, m: nat)
    requires q != [] && Sorted(s, q) && Allocation(q, a) && a[0] <= m <= Sum(a)
    ensures AtLeastAsGood(s, q[0].price * m + Cost(q[1..], Shifted(q, a, m)), Cost(q, a))
  {
    var p, d := q[0].price, m - a[0];
    TailIsBehind(s, q, a);
    TrimSaves(s, q[1..], a[1..], d, p);
    Settle(s, p, m, a[0], d, Cost(q[1..], Shifted(q, a, m)), Cost(q[1..], a[1..]));
  }

  lemma Settle(s: Side, p: int, m: int, first: int, d: int, trimmed: int, rest: int)
    requires m == first + d && AtLeastAsGood(s, trimmed + p * d, rest)
    ensures AtLeastAsGood(s, p * m + trimmed, p * first + rest)
  {
    assert p * m == p * first + p * d;
  }

  lemma TailIsBehind(s: Side, q: seq<Slot>, a: seq<nat>)
    requires q != [] && Sorted(s, q) && Allocation(q, a)
    ensures Allocation(q[1..], a[1..]) && forall i :: 0 <= i < |q[1..]| ==> !Better(s, q[1..][i].price, q[0].price)
  {
  }

  lemma GreedyFront(q: seq<Slot>, units: nat, m: nat)
    requires q != [] && m == if units < q[0].units then units else q[0].units
    ensures GreedyCost(q, units) == q[0].price * m + GreedyCost(q[1..], units - m)
  {
  }

  /** For any order entering any reachable book: it trades exactly the smaller of
      its quantity and the crossable liquidity, and no way of taking that many
      units from the resting contra orders has a better total price. */
  lemma MatchingIsOptimal(b: Book, s: Side, id: OrderId, sequence: Sequence, limit: Option<Price>, quantity: Quantity, a: seq<nat>)
    requires Wf(b) && Allocation(b.On(s.Opposite()), a)
    ensures var c := s.Opposite();
            var es := Enter(b, s, id, sequence, limit, quantity).1.executions;
            var liquidity := Crossable(c, b.On(c), limit);
            && Traded(es) == (if quantity < liquidity then quantity else liquidity)
            && (Sum(a) == Traded(es) ==> AtLeastAsGood(c, Notional(es), Cost(b.On(c), a)))
  {
    var c := s.Opposite();
    SweepVolume(c, b.On(c), limit, id, quantity);
    SweepIsGreedy(c, b.On(c), limit, id, quantity);
    GreedyIsBest(c, b.On(c), a);
  }

  /** Execution prices only get worse for the taker, and no resting order trades twice. */
  lemma ExecutionsMonotone(b: Book, c: Command, i: nat, j: nat)
    requires Wf(b) && i < j < |Apply(b, c).1.executions|
    ensures var es := Apply(b, c).1.executions;
            && (if TakerSide(b, c).Buy? then es[i].price <= es[j].price else es[i].price >= es[j].price)
            && es[i].resting != es[j].resting
  {
    var s := TakerSide(b, c).Opposite();
    ExecutionsFollowPriority(b, c, i);
    ExecutionsFollowPriority(b, c, j);
    assert Sorted(s, b.On(s)) && Distinct(b.On(s));
  }
}
