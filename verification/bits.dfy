/** Bitwise operations on naturals, one binary digit at a time. */
module Bits {
  import opened Types

  function Pow2(k: nat): (p: nat)
    ensures p > 0
  {
    if k == 0 then 1 else 2 * Pow2(k - 1)
  }

  function And(a: nat, b: nat): nat
    decreases a
  {
    if a == 0 || b == 0 then 0 else 2 * And(a / 2, b / 2) + (a % 2) * (b % 2)
  }

  function Xor(a: nat, b: nat): nat
    decreases a + b
  {
    if a == 0 && b == 0 then 0 else 2 * Xor(a / 2, b / 2) + (a + b) % 2
  }

  lemma {:induction false} XorBound(a: nat, b: nat, k: nat)
    requires a < Pow2(k) && b < Pow2(k)
    ensures Xor(a, b) < Pow2(k)
    decreases k
  {
    if a != 0 || b != 0 { XorBound(a / 2, b / 2, k - 1); }
  }

  lemma XorStep(a: nat, b: nat)
    ensures Xor(a, b) == 2 * Xor(a / 2, b / 2) + (a + b) % 2
  {
  }

  lemma LowDigit(a: nat, b: nat, x: nat)
    requires x % 2 == (a + b) % 2
    ensures (x + b) % 2 == a % 2
  {
  }

  lemma {:induction false} XorCancels(a: nat, b: nat)
    ensures Xor(Xor(a, b), b) == a
    decreases a + b
  {
    if a != 0 || b != 0 {
      XorCancels(a / 2, b / 2);
      var x, h := Xor(a, b), Xor(a / 2, b / 2);
      assert x == 2 * h + (a + b) % 2;
      assert x / 2 == h && x % 2 == (a + b) % 2;
      XorStep(x, b);
      LowDigit(a, b, x);
    }
  }

  lemma {:induction false} XorCommutes(a: nat, b: nat)
    ensures Xor(a, b) == Xor(b, a)
    decreases a + b
  {
    if a != 0 || b != 0 { XorCommutes(a / 2, b / 2); }
  }

  /** Masking with 2^k - 1 is the remainder modulo 2^k. */
  lemma {:induction false} MaskIsRemainder(x: nat, k: nat)
    ensures And(x, Pow2(k) - 1) == x % Pow2(k)
    decreases k
  {
    if k == 0 {
    } else if x == 0 {
      Remainder(0, Pow2(k), 0, 0);
    } else {
      MaskIsRemainder(x / 2, k - 1);
      HalfRemainder(x, Pow2(k - 1));
      MaskStep(x, Pow2(k - 1));
    }
  }

  lemma MaskStep(x: nat, p: nat)
    requires x > 0 && p > 0
    ensures And(x, 2 * p - 1) == 2 * And(x / 2, p - 1) + x % 2
  {
    assert (2 * p - 1) / 2 == p - 1 && (2 * p - 1) % 2 == 1;
  }

  lemma HalfRemainder(x: nat, p: nat)
    requires p > 0
    ensures x % (2 * p) == 2 * (x / 2 % p) + x % 2
  {
    var h := x / 2;
    var q, r := h / p, h % p;
    assert h == p * q + r;
    assert x == (2 * p) * q + (2 * r + x % 2) by { assert 2 * (p * q) == (2 * p) * q; }
    Remainder(x, 2 * p, q, 2 * r + x % 2);
  }

  lemma Remainder(x: int, m: int, q: int, r: int)
    requires x == m * q + r && 0 <= r < m
    ensures x % m == r && x / m == q
  {
    var q', r' := x / m, x % m;
    assert x == m * q' + r' && 0 <= r' < m;
    Unique(m, q, r, q', r');
  }

  lemma Unique(m: int, q: int, r: int, q': int, r': int)
    requires m * q + r == m * q' + r' && 0 <= r < m && 0 <= r' < m
    ensures q == q' && r == r'
  {
    var d := q - q';
    assert m * d == r' - r by { assert m * (q - q') == m * q - m * q'; }
    assert m * (-d) == -(m * d);
    if d >= 1 { Grows(m, d); }
    if d <= -1 { Grows(m, -d); }
  }

  lemma RemaindersDiffer(n: int, x: int, y: int)
    requires n > 0 && x < y < x + n
    ensures x % n != y % n
  {
    if x % n == y % n { SameRemainder(n, x / n, y / n, x % n); }
  }

  lemma SameRemainder(n: int, q: int, q': int, r: int)
    requires n > 0 && q < q'
    ensures n * q + r + n <= n * q' + r
  {
    assert n * q' == n * q + n * (q' - q);
    Grows(n, q' - q);
  }

  /** A remainder modulo a multiple of `n` has the same remainder modulo `n`. */
  lemma NestedRemainder(x: int, n: int, m: int)
    requires n > 0 && m > 0 && n * m > 0
    ensures x % (n * m) % n == x % n
  {
    var q, y := x / (n * m), x % (n * m);
    var u, v := y / n, y % n;
    assert x == (n * m) * q + y && y == n * u + v;
    assert x == n * (m * q + u) + v by {
      assert (n * m) * q == n * (m * q);
      assert n * (m * q + u) == n * (m * q) + n * u;
    }
    Remainder(x, n, m * q + u, v);
  }

  lemma Grows(m: int, d: int)
    requires d >= 1 && m >= 0
    ensures m * d >= m
  {
    assert m * d == m + m * (d - 1);
    assert m * (d - 1) >= 0;
  }

  /** The power-of-two test `c & (c - 1) == 0` does what it is meant to do. */
  lemma {:induction false} PowerOfTwoTest(c: nat)
    requires c >= 1
    ensures And(c, c - 1) == 0 <==> exists k :: c == Pow2(k)
    decreases c
  {
    if c == 1 {
      assert c == Pow2(0);
    } else if c % 2 == 0 {
      PowerOfTwoTest(c / 2);
      assert (c - 1) / 2 == c / 2 - 1;
      assert And(c, c - 1) == 2 * And(c / 2, c / 2 - 1);
      DoubleIsPower(c / 2);
    } else {
      AndSelf(c / 2);
      assert (c - 1) / 2 == c / 2;
      assert And(c, c - 1) == 2 * (c / 2);
      assert forall k :: c == Pow2(k) ==> k == 0;
    }
  }

  lemma DoubleIsPower(d: nat)
    requires d >= 1
    ensures (exists k :: 2 * d == Pow2(k)) <==> (exists k :: d == Pow2(k))
  {
    if exists k :: d == Pow2(k) {
      var k: nat :| d == Pow2(k);
      assert 2 * d == Pow2(k + 1);
    }
    if exists k :: 2 * d == Pow2(k) {
      var k: nat :| 2 * d == Pow2(k);
      assert k != 0;
      assert Pow2(k) == 2 * Pow2(k - 1);
      assert d == Pow2(k - 1);
    }
  }

  lemma {:induction false} AndSelf(a: nat)
    ensures And(a, a) == a
    decreases a
  {
    if a > 0 { AndSelf(a / 2); }
  }

  lemma Pow2Is64()
    ensures Pow2(64) == TWO64
  {
    Doubled(2, 4);
    Doubled(4, 16);
    Doubled(8, 256);
    Doubled(16, 65536);
    Doubled(32, 0x1_0000_0000);
  }

  lemma Doubled(k: nat, p: nat)
    requires Pow2(k) == p
    ensures Pow2(2 * k) == p * p
  {
    Pow2Adds(k, k);
  }

  lemma {:induction false} Pow2Adds(a: nat, b: nat)
    ensures Pow2(a + b) == Pow2(a) * Pow2(b)
    decreases a
  {
    if a > 0 {
      Pow2Adds(a - 1, b);
      assert Pow2(a + b) == 2 * (Pow2(a - 1) * Pow2(b)) == (2 * Pow2(a - 1)) * Pow2(b);
    } else {
      assert Pow2(a) * Pow2(b) == 1 * Pow2(b);
    }
  }
}
