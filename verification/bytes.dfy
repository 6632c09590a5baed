/** Bytes and little-endian integers. */
module Bytes {
  import opened Types

  type byte = b: int | 0 <= b < 256 witness 0

  /** The `n` low-order bytes of `v`, least significant first. */
  function LE(n: nat, v: nat): (bs: seq<byte>)
    ensures |bs| == n
  {
    if n == 0 then [] else [v % 256] + LE(n - 1, v / 256)
  }

  /** The number whose little-endian bytes are `bs`. */
  function Val(bs: seq<byte>): nat {
    if bs == [] then 0 else bs[0] + 256 * Val(bs[1..])
  }

  function Pow256(n: nat): (p: nat)
    ensures p > 0
  {
    if n == 0 then 1 else 256 * Pow256(n - 1)
  }

  lemma {:induction false} ValBound(bs: seq<byte>)
    ensures Val(bs) < Pow256(|bs|)
    decreases |bs|
  {
    if bs != [] { ValBound(bs[1..]); }
  }

  lemma {:induction false} ValOfLE(n: nat, v: nat)
    requires v < Pow256(n)
    ensures Val(LE(n, v)) == v
    decreases n
  {
    if n > 0 {
      ValOfLE(n - 1, v / 256);
      assert LE(n, v)[1..] == LE(n - 1, v / 256);
    }
  }

  lemma {:induction false} LEOfVal(bs: seq<byte>)
    ensures LE(|bs|, Val(bs)) == bs
    decreases |bs|
  {
    if bs != [] {
      LEOfVal(bs[1..]);
      assert Val(bs) % 256 == bs[0] && Val(bs) / 256 == Val(bs[1..]);
    }
  }

  /** Two's complement: the unsigned image of a signed 64-bit integer and back. */
  function ToUnsigned(x: int): U64 { Wrap(x) }

  function ToSigned(u: U64): int { if u < TWO63 then u else u - TWO64 }

  lemma SignedRoundTrip(x: int, u: U64)
    ensures -TWO63 <= x < TWO63 ==> ToSigned(ToUnsigned(x)) == x
    ensures -TWO63 <= ToSigned(u) < TWO63 && ToUnsigned(ToSigned(u)) == u
  {
  }

  /** A 64-bit field read from eight bytes. */
  function U64At(bs: seq<byte>, offset: nat): U64
    requires offset + 8 <= |bs|
  {
    Val8Bound(bs[offset..offset + 8]);
    Val(bs[offset..offset + 8])
  }

  lemma Val8Bound(bs: seq<byte>)
    requires |bs| == 8
    ensures 0 <= Val(bs) < TWO64
  {
    ValBound(bs);
    Pow256Is64();
  }

  lemma Pow256Is64()
    ensures Pow256(8) == TWO64 && Pow256(2) == 65536 && Pow256(4) == 0x1_0000_0000
  {
    assert Pow256(1) == 256;
    assert Pow256(2) == 65536;
    assert Pow256(4) == 0x1_0000_0000;
    assert Pow256(6) == 0x1_0000_0000_0000;
  }
}
