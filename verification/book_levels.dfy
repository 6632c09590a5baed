/** What a depth is, said without prices lists and filters: the quote at rank `i` is that of the
    price with exactly `i` better ones. */
module BookLevels {
  import opened Types
  import opened BookSpec
  import opened BookInvariant
  import opened Differential

  /** The prices that occur on a side. */
  function AllPrices(q: seq<Slot>): set<Price> { set i | 0 <= i < |q| :: q[i].price }

  /** Higher bids and lower asks come first. */
  predicate Beats(s: Side, p: Price, r: Price) { if s.Buy? then p > r else p < r }

  function BetterThan(s: Side, q: seq<Slot>, p: Price): set<Price> {
    set i | 0 <= i < |q| && Beats(s, q[i].price, p) :: q[i].price
  }

  function TotalAt(q: seq<Slot>, p: Price): nat {
    if q == [] then 0 else (if q[0].price == p then q[0].units else 0) + TotalAt(q[1..], p)
  }

  function CountAt(q: seq<Slot>, p: Price): nat {
    if q == [] then 0 else (if q[0].price == p then 1 else 0) + CountAt(q[1..], p)
  }

  /** `d` quotes the level of side `s` that `i` other levels are better than. */
  predicate Ranked(s: Side, q: seq<Slot>, d: LevelQuote, i: nat) {
    && d.price in AllPrices(q) && |BetterThan(s, q, d.price)| == i
    && d.units == TotalAt(q, d.price) % 0x1_0000_0000_0000_0000 && d.orders == CountAt(q, d.price)
  }

  lemma {:induction false} AtCounts(q: seq<Slot>, p: Price)
    ensures Units(At(q, p)) == TotalAt(q, p) && |At(q, p)| == CountAt(q, p)
    decreases |q|
  {
    if q != [] {
      AtCounts(q[1..], p);
      var rest := At(q[1..], p);
      if q[0].price == p { assert ([q[0]] + rest)[1..] == rest; } else { assert [] + rest == rest; }
    }
  }

  lemma {:induction false} PricesOccur(q: seq<Slot>)
    ensures forall p :: p in Prices(q) ==> p in AllPrices(q)
    decreases |q|
  {
    if q != [] {
      PricesOccur(q[1..]);
      assert q[0].price in AllPrices(q);
      forall p | p in AllPrices(q[1..]) ensures p in AllPrices(q) {
        var i :| 0 <= i < |q[1..]| && q[1..][i].price == p;
        assert q[i + 1].price == p;
      }
    }
  }

  /** The set of the first `n` entries of a strictly ordered list. */
  function FirstOf(ps: seq<Price>, n: nat): set<Price>
    requires n <= |ps|
  {
    set i | 0 <= i < n :: ps[i]
  }

  lemma {:induction false} FirstCount(s: Side, ps: seq<Price>, n: nat)
    requires Descending(s, ps) && n <= |ps|
    ensures |FirstOf(ps, n)| == n
    decreases n
  {
    if n == 0 {
      assert FirstOf(ps, 0) == {};
    } else {
      FirstCount(s, ps, n - 1);
      assert ps[n - 1] !in FirstOf(ps, n - 1);
      assert FirstOf(ps, n) == FirstOf(ps, n - 1) + {ps[n - 1]};
    }
  }

  lemma PricesAreAll(s: Side, q: seq<Slot>)
    requires Sorted(s, q)
    ensures Descending(s, Prices(q)) && FirstOf(Prices(q), |Prices(q)|) == AllPrices(q) && |Prices(q)| == |AllPrices(q)|
  {
    var ps := Prices(q);
    PricesDescend(s, q);
    PricesOccur(q);
    FirstCount(s, ps, |ps|);
    forall p ensures p in FirstOf(ps, |ps|) <==> p in AllPrices(q) {
      if p in AllPrices(q) {
        var i :| 0 <= i < |q| && q[i].price == p;
        assert p in ps;
      }
    }
  }

  lemma RankIs(s: Side, q: seq<Slot>, i: nat)
    requires Sorted(s, q) && i < |Prices(q)|
    ensures BetterThan(s, q, Prices(q)[i]) == FirstOf(Prices(q), i) && |BetterThan(s, q, Prices(q)[i])| == i
  {
    var ps := Prices(q);
    PricesAreAll(s, q);
    FirstCount(s, ps, i);
    forall p ensures p in BetterThan(s, q, ps[i]) <==> p in FirstOf(ps, i) {
      assert p in AllPrices(q) <==> p in FirstOf(ps, |ps|);
      if p in FirstOf(ps, |ps|) {
        var j :| 0 <= j < |ps| && ps[j] == p;
        assert j < i ==> Better(s, ps[j], ps[i]);
        assert i < j ==> Better(s, ps[i], ps[j]);
      }
      if p in BetterThan(s, q, ps[i]) {
        var j :| 0 <= j < |q| && Beats(s, q[j].price, ps[i]) && q[j].price == p;
        assert p in AllPrices(q);
      }
      if p in FirstOf(ps, i) {
        var j :| 0 <= j < i && ps[j] == p;
        assert p in FirstOf(ps, |ps|);
        var k :| 0 <= k < |q| && q[k].price == p;
      }
    }
  }

  /** The depth of a side: as many quotes as there are prices, up to the limit, and the quote at
      each rank. */
  lemma DepthIsRanked(s: Side, q: seq<Slot>, limit: nat)
    requires Sorted(s, q)
    ensures |Depth(q, limit)| == if limit < |AllPrices(q)| then limit else |AllPrices(q)|
    ensures forall i :: 0 <= i < |Depth(q, limit)| ==> Ranked(s, q, Depth(q, limit)[i], i)
  {
    PricesAreAll(s, q);
    forall i | 0 <= i < |Depth(q, limit)| ensures Ranked(s, q, Depth(q, limit)[i], i) {
      var p := Prices(q)[i];
      RankIs(s, q, i);
      AtCounts(q, p);
      PricesOccur(q);
    }
  }
}
