/** FNV-1a, 64 bits: exclusive-or a byte in, multiply by the prime modulo 2^64. */
module Fnv {
  import opened Types
  import opened Bits
  import opened Bytes

  const OFFSET_BASIS: U64 := 14695981039346656037
  const PRIME: int := 1099511628211
  const INVERSE: int := 0xCE965057AFF6957B

  function Mix(hash: U64, b: byte): U64 { Wrap(Xor(hash, b) * PRIME) }

  function Fold(hash: U64, bs: seq<byte>): U64
    decreases |bs|
  {
    if bs == [] then hash else Fold(Mix(hash, bs[0]), bs[1..])
  }

  /** The prime is odd, so multiplying by it modulo 2^64 can be undone. */
  lemma MultiplyUndone(a: U64)
    ensures Wrap(Wrap(a * PRIME) * INVERSE) == a
  {
    var p := a * PRIME;
    var q := p / TWO64;
    var r: int := Wrap(p);
    var k := (PRIME * INVERSE - 1) / TWO64;
    assert PRIME * INVERSE == k * TWO64 + 1;
    assert r == p - q * TWO64;
    assert r * INVERSE == a + TWO64 * (a * k - q * INVERSE) by {
      assert p * INVERSE == a * (PRIME * INVERSE);
      assert a * (k * TWO64 + 1) == TWO64 * (a * k) + a;
      assert (p - q * TWO64) * INVERSE == p * INVERSE - TWO64 * (q * INVERSE);
    }
    Remainder(r * INVERSE, TWO64, a * k - q * INVERSE, a);
  }

  /** One step never merges two different hashes, nor two different bytes. */
  lemma MixInjective(h: U64, x: byte, h': U64, x': byte)
    requires Mix(h, x) == Mix(h', x') && (h == h' || x == x')
    ensures h == h' && x == x'
  {
    Pow2Is64();
    assert x < TWO64 && x' < TWO64;
    XorBound(h, x, 64);
    XorBound(h', x', 64);
    MultiplyUndone(Xor(h, x));
    MultiplyUndone(Xor(h', x'));
    assert Xor(h, x) == Xor(h', x');
    if x == x' {
      XorCancels(h, x);
      XorCancels(h', x');
    } else {
      XorCommutes(h, x);
      XorCommutes(h, x');
      XorCancels(x, h);
      XorCancels(x', h);
    }
  }

  lemma {:induction false} FoldInjective(h: U64, h': U64, bs: seq<byte>)
    requires h != h'
    ensures Fold(h, bs) != Fold(h', bs)
    decreases |bs|
  {
    if bs != [] {
      if Mix(h, bs[0]) == Mix(h', bs[0]) { MixInjective(h, bs[0], h', bs[0]); }
      FoldInjective(Mix(h, bs[0]), Mix(h', bs[0]), bs[1..]);
    }
  }

  /** Changing any one byte changes the checksum. */
  lemma {:induction false} OneByteDetected(h: U64, bs: seq<byte>, i: nat, b: byte)
    requires i < |bs| && b != bs[i]
    ensures Fold(h, bs[i := b]) != Fold(h, bs)
    decreases |bs|
  {
    if i == 0 {
      if Mix(h, bs[0]) == Mix(h, b) { MixInjective(h, bs[0], h, b); }
      assert bs[0 := b][1..] == bs[1..];
      FoldInjective(Mix(h, b), Mix(h, bs[0]), bs[1..]);
    } else {
      assert bs[i := b][1..] == bs[1..][i - 1 := b];
      OneByteDetected(Mix(h, bs[0]), bs[1..], i - 1, b);
    }
  }
}
