/** What the state digest covers: a word for word account of the two sides, from which they can
    be read back. */
module BookCanon {
  import opened Types
  import opened Bytes
  import opened Fnv
  import opened BookSpec
  import opened BookInvariant
  import opened BookDigest
  import opened Differential
  import Ladder

  // ----- the account -----

  /** Words as little-endian bytes, one after the other. */
  function WordBytes(ws: seq<U64>): (bs: seq<byte>)
    ensures |bs| == 8 * |ws|
  {
    if ws == [] then [] else LE(8, ws[0]) + WordBytes(ws[1..])
  }

  /** Id, sequence number and remaining units of each order, in queue order. */
  function SlotWords(q: seq<Slot>): (ws: seq<U64>)
    ensures |ws| == 3 * |q|
  {
    if q == [] then [] else [q[0].id, q[0].sequence, q[0].units] + SlotWords(q[1..])
  }

  /** Price, 64-bit total and number of orders of a level, then its orders. */
  function LevelWords(p: Price, slots: seq<Slot>): seq<U64> {
    [p, Wrap(Units(slots)), Wrap(|slots|)] + SlotWords(slots)
  }

  function LadderWords(q: seq<Slot>, ps: seq<Price>): seq<U64>
    decreases |ps|
  {
    if ps == [] then [] else LevelWords(ps[0], At(q, ps[0])) + LadderWords(q, ps[1..])
  }

  /** The side's number, how many levels, and the levels from best to worst. */
  function SideWords(s: Side, q: seq<Slot>): seq<U64> {
    [if s.Buy? then 0 else 1, Wrap(|Prices(q)|)] + LadderWords(q, Prices(q))
  }

  /** A side, and what follows it. */
  function SideAnd(s: Side, q: seq<Slot>, t: seq<U64>): seq<U64> { SideWords(s, q) + t }

  /** The asks, and the number of orders in all. */
  function AskWords(b: Book): seq<U64> { SideAnd(Sell, b.asks, [Wrap(|b.bids| + |b.asks|)]) }

  function BookWords(b: Book): seq<U64> { SideAnd(Buy, b.bids, AskWords(b)) }

  function Canon(b: Book): seq<byte> { WordBytes(BookWords(b)) }

  // ----- the digest is the hash of the account -----

  lemma {:induction false} FoldConcat(h: U64, a: seq<byte>, b: seq<byte>)
    ensures Fold(h, a + b) == Fold(Fold(h, a), b)
    decreases |a|
  {
    if a == [] {
      assert a + b == b;
    } else {
      assert (a + b)[0] == a[0] && (a + b)[1..] == a[1..] + b;
      FoldConcat(Mix(h, a[0]), a[1..], b);
    }
  }

  lemma {:induction false} WordsConcat(a: seq<U64>, b: seq<U64>)
    ensures WordBytes(a + b) == WordBytes(a) + WordBytes(b)
    decreases |a|
  {
    if a == [] {
      assert a + b == b;
    } else {
      assert (a + b)[0] == a[0] && (a + b)[1..] == a[1..] + b;
      WordsConcat(a[1..], b);
      assert LE(8, a[0]) + (WordBytes(a[1..]) + WordBytes(b)) == LE(8, a[0]) + WordBytes(a[1..]) + WordBytes(b);
    }
  }

  function FoldWords(h: U64, ws: seq<U64>): U64 { Fold(h, WordBytes(ws)) }

  lemma FoldWordsConcat(h: U64, a: seq<U64>, b: seq<U64>)
    ensures FoldWords(h, a + b) == FoldWords(FoldWords(h, a), b)
  {
    WordsConcat(a, b);
    FoldConcat(h, WordBytes(a), WordBytes(b));
  }

  lemma OneWord(h: U64, w: U64)
    ensures FoldWords(h, [w]) == HashWord(h, w)
  {
    assert [w][1..] == [];
    assert WordBytes([w]) == LE(8, w);
  }

  lemma ThreeWordsFold(h: U64, a: U64, b: U64, c: U64)
    ensures FoldWords(h, [a, b, c]) == HashWord(HashWord(HashWord(h, a), b), c)
  {
    assert [a, b, c] == [a] + [b, c] && [b, c] == [b] + [c];
    FoldWordsConcat(h, [a], [b, c]);
    OneWord(h, a);
    FoldWordsConcat(HashWord(h, a), [b], [c]);
    OneWord(HashWord(h, a), b);
    OneWord(HashWord(HashWord(h, a), b), c);
  }

  lemma {:induction false} SlotsHash(h: U64, q: seq<Slot>)
    ensures HashSlots(h, q) == FoldWords(h, SlotWords(q))
    decreases |q|
  {
    if q != [] {
      ThreeWordsFold(h, q[0].id, q[0].sequence, q[0].units);
      FoldWordsConcat(h, [q[0].id, q[0].sequence, q[0].units], SlotWords(q[1..]));
      SlotsHash(FoldWords(h, [q[0].id, q[0].sequence, q[0].units]), q[1..]);
    }
  }

  lemma LevelHash(h: U64, q: seq<Slot>, p: Price)
    ensures HashSlots(HashHeader(h, Quote(q, p)), At(q, p)) == FoldWords(h, LevelWords(p, At(q, p)))
  {
    var head: seq<U64> := [p, Wrap(Units(At(q, p))), Wrap(|At(q, p)|)];
    ThreeWordsFold(h, p, Wrap(Units(At(q, p))), Wrap(|At(q, p)|));
    FoldWordsConcat(h, head, SlotWords(At(q, p)));
    SlotsHash(FoldWords(h, head), At(q, p));
  }

  lemma {:induction false} LadderHash(h: U64, q: seq<Slot>, ps: seq<Price>)
    ensures HashLevels(h, q, ps) == FoldWords(h, LadderWords(q, ps))
    decreases |ps|
  {
    if ps != [] {
      LevelHash(h, q, ps[0]);
      FoldWordsConcat(h, LevelWords(ps[0], At(q, ps[0])), LadderWords(q, ps[1..]));
      LadderHash(FoldWords(h, LevelWords(ps[0], At(q, ps[0]))), q, ps[1..]);
    }
  }

  lemma SideHash(h: U64, s: Side, q: seq<Slot>)
    ensures HashSide(h, s, q) == FoldWords(h, SideWords(s, q))
  {
    var n: U64, m: U64 := if s.Buy? then 0 else 1, Wrap(|Prices(q)|);
    assert [n, m] == [n] + [m];
    FoldWordsConcat(h, [n, m], LadderWords(q, Prices(q)));
    FoldWordsConcat(h, [n], [m]);
    OneWord(h, n);
    OneWord(HashWord(h, n), m);
    LadderHash(HashWord(HashWord(h, n), m), q, Prices(q));
  }

  lemma BookHash(h: U64, b: Book)
    ensures HashBook(h, b) == FoldWords(h, BookWords(b))
  {
    var x, y, z := SideWords(Buy, b.bids), SideWords(Sell, b.asks), [Wrap(|b.bids| + |b.asks|)];
    SideHash(h, Buy, b.bids);
    SideHash(FoldWords(h, x), Sell, b.asks);
    FoldWordsConcat(h, x, y + z);
    FoldWordsConcat(FoldWords(h, x), y, z);
    OneWord(FoldWords(FoldWords(h, x), y), z[0]);
  }

  /** The digest is the FNV-1a hash of the account. */
  lemma DigestCovers(b: Book)
    ensures Digest(b) == Fold(OFFSET_BASIS, Canon(b))
  {
    BookHash(OFFSET_BASIS, b);
  }

  // ----- the account determines the sides -----

  lemma {:induction false} WordsReadBack(ws: seq<U64>, ws': seq<U64>)
    requires WordBytes(ws) == WordBytes(ws')
    ensures ws == ws'
    decreases |ws|
  {
    if ws != [] {
      FirstWord(ws);
      FirstWord(ws');
      WordsReadBack(ws[1..], ws'[1..]);
      assert ws == [ws[0]] + ws[1..] && ws' == [ws'[0]] + ws'[1..];
    }
  }

  lemma FirstWord(ws: seq<U64>)
    requires ws != []
    ensures Val(WordBytes(ws)[..8]) == ws[0] && WordBytes(ws)[8..] == WordBytes(ws[1..])
  {
    Pow256Is64();
    ValOfLE(8, ws[0]);
    assert WordBytes(ws)[..8] == LE(8, ws[0]);
  }

  predicate AllAt(q: seq<Slot>, p: Price) { forall i :: 0 <= i < |q| ==> q[i].price == p }

  lemma {:induction false} SlotsReadBack(q: seq<Slot>, q': seq<Slot>, p: Price, t: seq<U64>, t': seq<U64>)
    requires |q| == |q'| && AllAt(q, p) && AllAt(q', p) && SlotWords(q) + t == SlotWords(q') + t'
    ensures q == q' && t == t'
    decreases |q|
  {
    if q == [] {
      assert [] + t == t && [] + t' == t';
    } else {
      var w, w' := SlotWords(q) + t, SlotWords(q') + t';
      assert w[0] == q[0].id && w[1] == q[0].sequence && w[2] == q[0].units;
      assert w'[0] == q'[0].id && w'[1] == q'[0].sequence && w'[2] == q'[0].units;
      assert q[0] == Slot(p, w[0], w[1], w[2]) && q'[0] == Slot(p, w'[0], w'[1], w'[2]);
      assert w[3..] == SlotWords(q[1..]) + t && w'[3..] == SlotWords(q'[1..]) + t';
      SlotsReadBack(q[1..], q'[1..], p, t, t');
      assert q == [q[0]] + q[1..] && q' == [q'[0]] + q'[1..];
    }
  }

  lemma LevelReadBack(p: Price, q: seq<Slot>, p': Price, q': seq<Slot>, t: seq<U64>, t': seq<U64>)
    requires AllAt(q, p) && AllAt(q', p') && |q| < TWO64 && |q'| < TWO64
    requires LevelWords(p, q) + t == LevelWords(p', q') + t'
    ensures p == p' && q == q' && t == t'
  {
    var w, w' := LevelWords(p, q) + t, LevelWords(p', q') + t';
    assert w[0] == p && w[2] == |q| && w'[0] == p' && w'[2] == |q'|;
    assert w[3..] == SlotWords(q) + t && w'[3..] == SlotWords(q') + t';
    SlotsReadBack(q, q', p, t, t');
  }

  lemma {:induction false} AtIsAt(q: seq<Slot>, p: Price)
    ensures AllAt(At(q, p), p) && |At(q, p)| <= |q|
    decreases |q|
  {
    if q != [] { AtIsAt(q[1..], p); }
  }

  /** The slots of the given levels, level by level. */
  function Stacked(q: seq<Slot>, ps: seq<Price>): seq<Slot>
    decreases |ps|
  {
    if ps == [] then [] else At(q, ps[0]) + Stacked(q, ps[1..])
  }

  lemma {:induction false} LadderReadBack(q: seq<Slot>, ps: seq<Price>, q': seq<Slot>, ps': seq<Price>, t: seq<U64>, t': seq<U64>)
    requires |ps| == |ps'| && |q| < TWO64 && |q'| < TWO64 && LadderWords(q, ps) + t == LadderWords(q', ps') + t'
    ensures Stacked(q, ps) == Stacked(q', ps') && t == t'
    decreases |ps|
  {
    if ps == [] {
      assert [] + t == t && [] + t' == t';
    } else {
      var a, a' := At(q, ps[0]), At(q', ps'[0]);
      var u, u' := LadderWords(q, ps[1..]) + t, LadderWords(q', ps'[1..]) + t';
      AtIsAt(q, ps[0]);
      AtIsAt(q', ps'[0]);
      assert LadderWords(q, ps) + t == LevelWords(ps[0], a) + u;
      assert LadderWords(q', ps') + t' == LevelWords(ps'[0], a') + u';
      LevelReadBack(ps[0], a, ps'[0], a', u, u');
      LadderReadBack(q, ps[1..], q', ps'[1..], t, t');
    }
  }

  lemma {:induction false} StackedSkips(x: Slot, q: seq<Slot>, ps: seq<Price>)
    requires x.price !in ps
    ensures Stacked([x] + q, ps) == Stacked(q, ps)
    decreases |ps|
  {
    if ps != [] {
      assert ([x] + q)[1..] == q;
      StackedSkips(x, q, ps[1..]);
    }
  }

  /** A sorted side is its levels stacked from best to worst. */
  lemma {:induction false} LevelsStack(s: Side, q: seq<Slot>)
    requires Sorted(s, q)
    ensures Stacked(q, Prices(q)) == q
    decreases |q|
  {
    if q != [] {
      var x, r := q[0], q[1..];
      assert q == [x] + r;
      LevelsStack(s, r);
      PricesDescend(s, q);
      PricesHead(r);
      if r != [] && r[0].price == x.price {
        StackSame(s, x, r);
      } else {
        StackNew(s, x, r);
      }
    }
  }

  lemma StackSame(s: Side, x: Slot, r: seq<Slot>)
    requires r != [] && r[0].price == x.price && Stacked(r, Prices(r)) == r && Descending(s, Prices(r))
    requires Prices(r) != [] && Prices(r)[0] == x.price
    ensures Prices([x] + r) == Prices(r) && Stacked([x] + r, Prices(r)) == [x] + r
  {
    var ps := Prices(r);
    PricesCons(x, r);
    NotLater(s, ps);
    StackedFirst([x] + r, ps);
    StackedFirst(r, ps);
    StackedSkips(x, r, ps[1..]);
    AtFront(x, r);
    Glue(x, At(r, x.price), Stacked(r, ps[1..]));
  }

  lemma StackedFirst(q: seq<Slot>, ps: seq<Price>)
    requires ps != []
    ensures Stacked(q, ps) == At(q, ps[0]) + Stacked(q, ps[1..])
  {
  }

  lemma AtFront(x: Slot, r: seq<Slot>)
    ensures At([x] + r, x.price) == [x] + At(r, x.price)
  {
    assert ([x] + r)[1..] == r;
  }

  lemma Glue(x: Slot, a: seq<Slot>, b: seq<Slot>)
    ensures [x] + a + b == [x] + (a + b)
  {
  }

  lemma NotLater(s: Side, ps: seq<Price>)
    requires ps != [] && Descending(s, ps)
    ensures ps[0] !in ps[1..]
  {
  }

  lemma StackNew(s: Side, x: Slot, r: seq<Slot>)
    requires Sorted(s, [x] + r) && (r == [] || r[0].price != x.price) && Stacked(r, Prices(r)) == r
    requires Descending(s, Prices([x] + r))
    ensures Stacked([x] + r, Prices([x] + r)) == [x] + r
  {
    var ps := Prices([x] + r);
    PricesCons(x, r);
    assert ps == [x.price] + Prices(r) && ps[1..] == Prices(r);
    assert x.price !in Prices(r) by { NotLater(s, ps); }
    StackedSkips(x, r, Prices(r));
    Ladder.AtNone(r, x.price);
    assert ([x] + r)[1..] == r;
    assert At([x] + r, x.price) == [x];
  }

  lemma {:induction false} FewPrices(q: seq<Slot>)
    ensures |Prices(q)| <= |q|
    decreases |q|
  {
    if q != [] { FewPrices(q[1..]); }
  }

  lemma SideSplits(s: Side, q: seq<Slot>, t: seq<U64>)
    requires |q| < TWO64
    ensures var w := SideWords(s, q) + t; |w| >= 2 && w[1] == |Prices(q)| && w[2..] == LadderWords(q, Prices(q)) + t
  {
    FewPrices(q);
    HeadTwo(if s.Buy? then 0 else 1, Wrap(|Prices(q)|), LadderWords(q, Prices(q)), t);
  }

  lemma HeadTwo(a: U64, b: U64, m: seq<U64>, t: seq<U64>)
    ensures var w := [a, b] + m + t; |w| >= 2 && w[1] == b && w[2..] == m + t
  {
  }

  lemma SideReadBack(s: Side, q: seq<Slot>, q': seq<Slot>, t: seq<U64>, t': seq<U64>)
    requires Sorted(s, q) && Sorted(s, q') && |q| < TWO64 && |q'| < TWO64
    requires SideAnd(s, q, t) == SideAnd(s, q', t')
    ensures q == q' && t == t'
  {
    SideSplits(s, q, t);
    SideSplits(s, q', t');
    LadderReadBack(q, Prices(q), q', Prices(q'), t, t');
    LevelsStack(s, q);
    LevelsStack(s, q');
  }

  /** Two books with the same account have the same bids and the same asks, order for order; the
      bound is that of a 64-bit size. */
  lemma AccountDetermines(b: Book, b': Book)
    requires Wf(b) && Wf(b') && |b.bids| < TWO64 && |b.asks| < TWO64 && |b'.bids| < TWO64 && |b'.asks| < TWO64
    requires Canon(b) == Canon(b')
    ensures b.bids == b'.bids && b.asks == b'.asks
  {
    WordsReadBack(BookWords(b), BookWords(b'));
    BothSorted(b);
    BothSorted(b');
    SidesReadBack(b, b');
  }

  lemma BothSorted(b: Book)
    requires Wf(b)
    ensures Sorted(Buy, b.bids) && Sorted(Sell, b.asks)
  {
    assert Sorted(Buy, b.On(Buy)) && Sorted(Sell, b.On(Sell));
  }

  lemma SidesReadBack(b: Book, b': Book)
    requires Sorted(Buy, b.bids) && Sorted(Sell, b.asks) && Sorted(Buy, b'.bids) && Sorted(Sell, b'.asks)
    requires |b.bids| < TWO64 && |b.asks| < TWO64 && |b'.bids| < TWO64 && |b'.asks| < TWO64
    requires BookWords(b) == BookWords(b')
    ensures b.bids == b'.bids && b.asks == b'.asks
  {
    SideReadBack(Buy, b.bids, b'.bids, AskWords(b), AskWords(b'));
    AsksReadBack(b, b');
  }

  lemma AsksReadBack(b: Book, b': Book)
    requires Sorted(Sell, b.asks) && Sorted(Sell, b'.asks) && |b.asks| < TWO64 && |b'.asks| < TWO64
    requires AskWords(b) == AskWords(b')
    ensures b.asks == b'.asks
  {
    var n: seq<U64>, n': seq<U64> := [Wrap(|b.bids| + |b.asks|)], [Wrap(|b'.bids| + |b'.asks|)];
    SideReadBack(Sell, b.asks, b'.asks, n, n');
  }

  // ----- one byte of one sequence number -----

  lemma Before(head: seq<U64>, a: seq<U64>, w: U64, b: seq<U64>)
    ensures head + (a + [w] + b) == head + a + [w] + b
  {
  }

  lemma Behind(a: seq<U64>, w: U64, b: seq<U64>, rest: seq<U64>)
    ensures a + [w] + b + rest == a + [w] + (b + rest)
  {
  }

  lemma {:induction false} SlotsAround(q: seq<Slot>, i: nat, n: Sequence) returns (pre: seq<U64>, post: seq<U64>)
    requires i < |q|
    ensures SlotWords(q) == pre + [q[i].sequence] + post && SlotWords(q[i := q[i].(sequence := n)]) == pre + [n] + post
    decreases i
  {
    var q' := q[i := q[i].(sequence := n)];
    if i == 0 {
      pre, post := [q[0].id], [q[0].units] + SlotWords(q[1..]);
      assert q'[1..] == q[1..];
    } else {
      var a, b := SlotsAround(q[1..], i - 1, n);
      var head: seq<U64> := [q[0].id, q[0].sequence, q[0].units];
      assert q'[1..] == q[1..][i - 1 := q[i].(sequence := n)];
      pre, post := head + a, b;
      Before(head, a, q[i].sequence, b);
      Before(head, a, n, b);
    }
  }

  /** Changing the sequence number of slot `i` changes one slot of its level and no other level. */
  lemma {:induction false} AtSet(q: seq<Slot>, i: nat, n: Sequence, p: Price) returns (j: nat)
    requires i < |q|
    ensures var q' := q[i := q[i].(sequence := n)];
            if q[i].price == p
            then j < |At(q, p)| && At(q, p)[j] == q[i] && At(q', p) == At(q, p)[j := q[i].(sequence := n)]
            else At(q', p) == At(q, p)
    decreases i
  {
    var q' := q[i := q[i].(sequence := n)];
    if i == 0 {
      j := 0;
      assert q'[1..] == q[1..];
    } else {
      assert q'[1..] == q[1..][i - 1 := q[i].(sequence := n)];
      j := AtSet(q[1..], i - 1, n, p);
      j := if q[0].price == p then j + 1 else j;
    }
  }

  lemma {:induction false} UnitsSame(q: seq<Slot>, q': seq<Slot>)
    requires |q| == |q'| && forall i :: 0 <= i < |q| ==> q[i].units == q'[i].units
    ensures Units(q) == Units(q')
    decreases |q|
  {
    if q != [] { UnitsSame(q[1..], q'[1..]); }
  }

  lemma {:induction false} PricesSame(q: seq<Slot>, q': seq<Slot>)
    requires |q| == |q'| && forall i :: 0 <= i < |q| ==> q[i].price == q'[i].price
    ensures Prices(q) == Prices(q')
    decreases |q|
  {
    if q != [] { PricesSame(q[1..], q'[1..]); }
  }

  lemma LevelAround(q: seq<Slot>, i: nat, n: Sequence, p: Price) returns (pre: seq<U64>, post: seq<U64>)
    requires i < |q| && q[i].price == p
    ensures var q' := q[i := q[i].(sequence := n)];
            LevelWords(p, At(q, p)) == pre + [q[i].sequence] + post && LevelWords(p, At(q', p)) == pre + [n] + post
  {
    var j := AtSet(q, i, n, p);
    var slots := At(q, p);
    var slots' := slots[j := slots[j].(sequence := n)];
    UnitsSame(slots, slots');
    var head: seq<U64> := [p, Wrap(Units(slots)), Wrap(|slots|)];
    var a, b := SlotsAround(slots, j, n);
    pre, post := head + a, b;
    Before(head, a, q[i].sequence, b);
    Before(head, a, n, b);
  }

  lemma {:induction false} LadderSame(q: seq<Slot>, i: nat, n: Sequence, ps: seq<Price>)
    requires i < |q| && q[i].price !in ps
    ensures LadderWords(q[i := q[i].(sequence := n)], ps) == LadderWords(q, ps)
    decreases |ps|
  {
    if ps != [] {
      var j := AtSet(q, i, n, ps[0]);
      LadderSame(q, i, n, ps[1..]);
    }
  }

  lemma {:induction false} LadderAround(q: seq<Slot>, i: nat, n: Sequence, ps: seq<Price>, s: Side) returns (pre: seq<U64>, post: seq<U64>)
    requires i < |q| && q[i].price in ps && Descending(s, ps)
    ensures var q' := q[i := q[i].(sequence := n)];
            LadderWords(q, ps) == pre + [q[i].sequence] + post && LadderWords(q', ps) == pre + [n] + post
    decreases |ps|
  {
    var q' := q[i := q[i].(sequence := n)];
    if ps[0] == q[i].price {
      NotLater(s, ps);
      var a, b := LevelAround(q, i, n, ps[0]);
      LadderSame(q, i, n, ps[1..]);
      var rest := LadderWords(q, ps[1..]);
      pre, post := a, b + rest;
      Behind(a, q[i].sequence, b, rest);
      Behind(a, n, b, rest);
    } else {
      var j := AtSet(q, i, n, ps[0]);
      var a, b := LadderAround(q, i, n, ps[1..], s);
      var head := LevelWords(ps[0], At(q, ps[0]));
      pre, post := head + a, b;
      Before(head, a, q[i].sequence, b);
      Before(head, a, n, b);
    }
  }

  lemma SideAround(s: Side, q: seq<Slot>, i: nat, n: Sequence) returns (pre: seq<U64>, post: seq<U64>)
    requires Sorted(s, q) && i < |q|
    ensures var q' := q[i := q[i].(sequence := n)];
            SideWords(s, q) == pre + [q[i].sequence] + post && SideWords(s, q') == pre + [n] + post
  {
    var q' := q[i := q[i].(sequence := n)];
    PricesSame(q, q');
    PricesDescend(s, q);
    var head: seq<U64> := [if s.Buy? then 0 else 1, Wrap(|Prices(q)|)];
    var a, b := LadderAround(q, i, n, Prices(q), s);
    pre, post := head + a, b;
    Before(head, a, q[i].sequence, b);
    Before(head, a, n, b);
  }

  lemma Amid(x: seq<U64>, a: seq<U64>, w: U64, c: seq<U64>, z: seq<U64>)
    ensures x + ((a + [w] + c) + z) == x + a + [w] + (c + z)
  {
    Behind(a, w, c, z);
    Before(x, a, w, c + z);
  }

  function Words(x: seq<U64>, y: seq<U64>, n: nat): seq<U64> { x + (y + [Wrap(n)]) }

  lemma BookWordsAre(b: Book, x: seq<U64>, y: seq<U64>, n: nat)
    requires x == SideWords(Buy, b.bids) && y == SideWords(Sell, b.asks) && n == |b.bids| + |b.asks|
    ensures BookWords(b) == Words(x, y, n)
  {
  }

  lemma BidsAround(b: Book, i: nat, n: Sequence) returns (pre: seq<U64>, post: seq<U64>)
    requires Sorted(Buy, b.bids) && i < |b.bids|
    ensures var b' := b.(bids := b.bids[i := b.bids[i].(sequence := n)]);
            BookWords(b) == pre + [b.bids[i].sequence] + post && BookWords(b') == pre + [n] + post
  {
    var w, y, m := b.bids[i].sequence, SideWords(Sell, b.asks), |b.bids| + |b.asks|;
    var a, c := SideAround(Buy, b.bids, i, n);
    BookWordsAre(b, a + [w] + c, y, m);
    BookWordsAre(b.(bids := b.bids[i := b.bids[i].(sequence := n)]), a + [n] + c, y, m);
    Behind(a, w, c, y + [Wrap(m)]);
    Behind(a, n, c, y + [Wrap(m)]);
    pre, post := a, c + (y + [Wrap(m)]);
  }

  lemma AsksAround(b: Book, i: nat, n: Sequence) returns (pre: seq<U64>, post: seq<U64>)
    requires Sorted(Sell, b.asks) && i < |b.asks|
    ensures var b' := b.(asks := b.asks[i := b.asks[i].(sequence := n)]);
            BookWords(b) == pre + [b.asks[i].sequence] + post && BookWords(b') == pre + [n] + post
  {
    var w, x, m := b.asks[i].sequence, SideWords(Buy, b.bids), |b.bids| + |b.asks|;
    var a, c := SideAround(Sell, b.asks, i, n);
    BookWordsAre(b, x, a + [w] + c, m);
    BookWordsAre(b.(asks := b.asks[i := b.asks[i].(sequence := n)]), x, a + [n] + c, m);
    Amid(x, a, w, c, [Wrap(m)]);
    Amid(x, a, n, c, [Wrap(m)]);
    pre, post := x + a, c + [Wrap(m)];
  }

  lemma BookAround(b: Book, s: Side, i: nat, n: Sequence) returns (pre: seq<U64>, post: seq<U64>)
    requires Wf(b) && i < |b.On(s)|
    ensures var b' := b.With(s, b.On(s)[i := b.On(s)[i].(sequence := n)]);
            BookWords(b) == pre + [b.On(s)[i].sequence] + post && BookWords(b') == pre + [n] + post
  {
    assert Sorted(s, b.On(s));
    if s.Buy? {
      pre, post := BidsAround(b, i, n);
    } else {
      pre, post := AsksAround(b, i, n);
    }
  }

  lemma FoldDiffers(h: U64, pre: seq<byte>, w: seq<byte>, j: nat, v: byte, post: seq<byte>)
    requires j < |w| && v != w[j]
    ensures Fold(h, pre + w + post) != Fold(h, pre + w[j := v] + post)
  {
    assert pre + w + post == pre + (w + post) && pre + w[j := v] + post == pre + (w[j := v] + post);
    FoldConcat(h, pre, w + post);
    FoldConcat(h, pre, w[j := v] + post);
    var g := Fold(h, pre);
    FoldConcat(g, w, post);
    FoldConcat(g, w[j := v], post);
    OneByteDetected(g, w, j, v);
    FoldInjective(Fold(g, w), Fold(g, w[j := v]), post);
  }

  lemma WordsAround(pre: seq<U64>, w: U64, post: seq<U64>)
    ensures WordBytes(pre + [w] + post) == WordBytes(pre) + LE(8, w) + WordBytes(post)
  {
    WordsConcat(pre + [w], post);
    WordsConcat(pre, [w]);
    assert [w][1..] == [];
    assert WordBytes([w]) == LE(8, w);
  }

  /** Changing one byte of one resting order's sequence number changes the digest. */
  lemma SequenceMatters(b: Book, s: Side, i: nat, n: Sequence, j: nat, v: byte)
    requires Wf(b) && i < |b.On(s)| && j < 8
    requires v != LE(8, b.On(s)[i].sequence)[j] && LE(8, n) == LE(8, b.On(s)[i].sequence)[j := v]
    ensures Digest(b.With(s, b.On(s)[i := b.On(s)[i].(sequence := n)])) != Digest(b)
  {
    var b' := b.With(s, b.On(s)[i := b.On(s)[i].(sequence := n)]);
    var pre, post := BookAround(b, s, i, n);
    DigestCovers(b);
    DigestCovers(b');
    WordsAround(pre, b.On(s)[i].sequence, post);
    WordsAround(pre, n, post);
    FoldDiffers(OFFSET_BASIS, WordBytes(pre), LE(8, b.On(s)[i].sequence), j, v, WordBytes(post));
  }
}
