/** The codecs as code: integers accumulated byte by byte, buffers filled in place. */
module WireBuffers {
  import opened Types
  import opened Bytes
  import opened Wire
  import Bits

  lemma {:induction false} LESnoc(n: nat, v: nat)
    ensures LE(n + 1, v) == LE(n, v) + [v / Pow256(n) % 256]
    decreases n
  {
    if n > 0 {
      LESnoc(n - 1, v / 256);
      DivideTwice(v, Pow256(n - 1));
    }
  }

  lemma DivideTwice(v: nat, p: nat)
    requires p > 0
    ensures v / 256 / p == v / (256 * p)
  {
    var q, r := v / (256 * p), v % (256 * p);
    assert v == (256 * p) * q + r;
    assert v / 256 == p * q + r / 256 by {
      assert (256 * p) * q == 256 * (p * q);
    }
    assert 0 <= r / 256 < p;
    Bits.Remainder(v / 256, p, q, r / 256);
  }

  lemma {:induction false} ValSnoc(bs: seq<byte>, b: byte)
    ensures Val(bs + [b]) == Val(bs) + b * Pow256(|bs|)
    decreases |bs|
  {
    if bs == [] {
      assert bs + [b] == [b] && [b][1..] == [];
    } else {
      ValSnoc(bs[1..], b);
      assert (bs + [b])[1..] == bs[1..] + [b];
      assert 256 * (b * Pow256(|bs| - 1)) == b * Pow256(|bs|);
    }
  }

  /** Store the `n` low-order bytes of `v`, least significant first. */
  method WriteLE(out: array<byte>, offset: nat, n: nat, v: nat)
    requires offset + n <= out.Length
    modifies out
    ensures out[..offset] == old(out[..offset])
    ensures out[offset..offset + n] == LE(n, v)
    ensures out[offset + n..] == old(out[offset + n..])
  {
    var rest := v;
    for i := 0 to n
      invariant rest == v / Pow256(i)
      invariant out[..offset] == old(out[..offset]) && out[offset + n..] == old(out[offset + n..])
      invariant out[offset..offset + i] == LE(i, v)
    {
      LESnoc(i, v);
      assert v / Pow256(i) / 256 == v / Pow256(i + 1) by { DivideLast(v, Pow256(i)); }
      out[offset + i] := rest % 256;
      rest := rest / 256;
      assert out[offset..offset + i + 1] == out[offset..offset + i] + [out[offset + i]];
    }
  }

  lemma DivideLast(v: nat, p: nat)
    requires p > 0
    ensures v / p / 256 == v / (256 * p)
  {
    var u, w := v / p, v % p;
    var a, b := u / 256, u % 256;
    assert v == p * (256 * a + b) + w;
    assert p * (256 * a + b) == (256 * p) * a + p * b;
    assert p * b + w < 256 * p by { assert p * 256 == p * b + p * (256 - b); Bits.Grows(p, 256 - b); }
    Bits.Remainder(v, 256 * p, a, p * b + w);
  }

  /** Accumulate `n` bytes into a number. */
  method ReadLE(bs: seq<byte>, offset: nat, n: nat) returns (v: nat)
    requires offset + n <= |bs|
    ensures v == Val(bs[offset..offset + n])
  {
    v := 0;
    var scale: nat := 1;
    for i := 0 to n
      invariant v == Val(bs[offset..offset + i]) && scale == Pow256(i)
    {
      assert bs[offset..offset + i + 1] == bs[offset..offset + i] + [bs[offset + i]];
      ValSnoc(bs[offset..offset + i], bs[offset + i]);
      v := v + bs[offset + i] * scale;
      scale := scale * 256;
    }
  }

  method WriteZeros(out: array<byte>, offset: nat, n: nat)
    requires offset + n <= out.Length
    modifies out
    ensures out[..offset] == old(out[..offset])
    ensures out[offset..offset + n] == Zeros(n)
    ensures out[offset + n..] == old(out[offset + n..])
  {
    for i := 0 to n
      invariant out[..offset] == old(out[..offset]) && out[offset + n..] == old(out[offset + n..])
      invariant forall j :: offset <= j < offset + i ==> out[j] == 0
    {
      out[offset + i] := 0;
    }
  }

  /** A filled prefix followed by the next field. */
  lemma Extends(out: seq<byte>, before: seq<byte>, done: seq<byte>, field: seq<byte>)
    requires |before| == |out| && |done| + |field| <= |out| && before[..|done|] == done
    requires out[..|done|] == before[..|done|] && out[|done|..|done| + |field|] == field
    ensures out[..|done + field|] == done + field
  {
    assert out[..|done| + |field|] == out[..|done|] + out[|done|..|done| + |field|];
  }

  method EncodeFields(out: array<byte>, w: U64, x: U64, y: U64, z: U64)
    requires out.Length >= 32
    modifies out
    ensures out[..32] == LE(8, w) + LE(8, x) + LE(8, y) + LE(8, z) && out[32..] == old(out[32..])
  {
    ghost var f0, f1, f2, f3 := LE(8, w), LE(8, x), LE(8, y), LE(8, z);
    WriteLE(out, 0, 8, w);
    assert out[..8] == f0 by { assert out[0..8] == out[..8]; }
    ghost var a := out[..];
    WriteLE(out, 8, 8, x);
    Extends(out[..], a, f0, f1);
    ghost var b := out[..];
    WriteLE(out, 16, 8, y);
    Extends(out[..], b, f0 + f1, f2);
    ghost var c := out[..];
    WriteLE(out, 24, 8, z);
    Extends(out[..], c, f0 + f1 + f2, f3);
    assert a[32..] == a[8..][24..] && b[32..] == b[16..][16..] && c[32..] == c[24..][8..];
  }

  method EncodeNewOrder(o: NewOrder, out: array<byte>) returns (ok: bool)
    modifies out
    ensures ok <==> out.Length >= NEW_ORDER_SIZE
    ensures ok ==> out[..NEW_ORDER_SIZE] == NewOrderBytes(o) && out[NEW_ORDER_SIZE..] == old(out[NEW_ORDER_SIZE..])
    ensures !ok ==> out[..] == old(out[..])
  {
    if out.Length < NEW_ORDER_SIZE {
      return false;
    }
    var price: int := if o.limit.Some? then o.limit.value else 0;
    EncodeFields(out, o.sequence, o.id, o.quantity, ToUnsigned(price));
    ghost var a := out[..];
    out[32] := if o.side.Buy? then 0 else 1;
    out[33] := if o.kind.Limit? then 0 else 1;
    WriteZeros(out, 34, 6);
    assert out[..32] == a[..32] && out[32..40] == NewOrderTail(o);
    NewOrderSplits(o);
    Extends(out[..], a, a[..32], NewOrderTail(o));
    return true;
  }

  method DecodeNewOrder(bs: seq<byte>) returns (r: Result<NewOrder>)
    ensures r == DecodeNew(bs)
  {
    if |bs| != NEW_ORDER_SIZE {
      return Err(PayloadLengthInvalid);
    }
    var sequence := ReadLE(bs, 0, 8);
    var id := ReadLE(bs, 8, 8);
    var quantity := ReadLE(bs, 16, 8);
    var raw := ReadLE(bs, 24, 8);
    assert sequence == U64At(bs, 0) && id == U64At(bs, 8) && quantity == U64At(bs, 16) && raw == U64At(bs, 24);
    var price := ToSigned(raw);
    for i := 0 to 6
      invariant forall j :: 34 <= j < 34 + i ==> bs[j] == 0
    {
      if bs[34 + i] != 0 {
        assert bs[34..40][i] != Zeros(6)[i];
        return Err(InvalidField);
      }
    }
    assert bs[34..40] == Zeros(6);
    if sequence == 0 || id == 0 || quantity == 0 || bs[32] > 1 || bs[33] > 1 || price < 0 {
      return Err(InvalidField);
    }
    var side := if bs[32] == 0 then Buy else Sell;
    if bs[33] == 0 {
      if price == 0 {
        return Err(LimitMissingPrice);
      }
      return Ok(NewOrder(sequence, id, side, Limit, quantity, Some(price)));
    }
    if price != 0 {
      return Err(MarketHasPrice);
    }
    return Ok(NewOrder(sequence, id, side, Market, quantity, None));
  }
}
