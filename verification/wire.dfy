/** Wire protocol version 1: header validation and the inbound command codecs. */
module Wire {
  import opened Types
  import opened Bits
  import opened Bytes

  const MAGIC: nat := 0x584C
  const VERSION: byte := 1
  const HEADER_SIZE: nat := 8
  const MAX_PAYLOAD: nat := 1024
  const FLAG_RESERVED_MASK: nat := 0xFFFE

  const NEW_ORDER: byte := 1
  const CANCEL_ORDER: byte := 2
  const REPLACE_ORDER: byte := 3

  const NEW_ORDER_SIZE: nat := 40
  const CANCEL_ORDER_SIZE: nat := 16
  const REPLACE_ORDER_SIZE: nat := 32

  datatype ErrorCode =
    | MalformedFrame | UnsupportedVersion | UnknownMessageType | PayloadLengthInvalid | PayloadTooLarge
    | InvalidField | LimitMissingPrice | MarketHasPrice
    | SessionOverloaded | SequenceOutOfOrder

  datatype Result<+T> = Ok(value: T) | Err(error: ErrorCode)

  datatype Header = Header(magic: nat, version: byte, kind: byte, flags: nat, length: nat)

  /** The fixed payload length of a message type; none for a type outside the table. */
  function ExpectedLength(kind: byte): Option<nat> {
    if kind == NEW_ORDER then Some(NEW_ORDER_SIZE)
    else if kind == CANCEL_ORDER then Some(CANCEL_ORDER_SIZE)
    else if kind == REPLACE_ORDER then Some(REPLACE_ORDER_SIZE)
    else if kind == 18 then Some(40)
    else if kind == 23 then Some(8)
    else if 16 <= kind <= 22 then Some(24)
    else None
  }

  predicate IsInbound(kind: byte) { 1 <= kind <= 15 }

  function ValidateHeader(h: Header): Option<ErrorCode> {
    if h.magic != MAGIC then Some(MalformedFrame)
    else if h.version != VERSION then Some(UnsupportedVersion)
    else if h.length > MAX_PAYLOAD then Some(PayloadTooLarge)
    else if And(h.flags, FLAG_RESERVED_MASK) != 0 then Some(InvalidField)
    else
      match ExpectedLength(h.kind)
      case None => Some(UnknownMessageType)
      case Some(n) => if h.length != n then Some(PayloadLengthInvalid) else None
  }

  function HeaderBytes(h: Header): seq<byte> {
    LE(2, h.magic) + [h.version] + [h.kind] + LE(2, h.flags) + LE(2, h.length)
  }

  function DecodeHeader(bs: seq<byte>): Option<Header> {
    if |bs| < HEADER_SIZE then None
    else Some(Header(Val(bs[0..2]), bs[2], bs[3], Val(bs[4..6]), Val(bs[6..8])))
  }

  // ----- payloads -----

  function Zeros(n: nat): seq<byte> { seq(n, i => 0) }

  function NewOrderBytes(o: NewOrder): seq<byte> {
    LE(8, o.sequence) + LE(8, o.id) + LE(8, o.quantity)
    + LE(8, ToUnsigned(if o.limit.Some? then o.limit.value else 0))
    + [if o.side.Buy? then 0 else 1] + [if o.kind.Limit? then 0 else 1] + Zeros(6)
  }

  function CancelBytes(k: CancelOrder): seq<byte> { LE(8, k.sequence) + LE(8, k.id) }

  function ReplaceBytes(r: ReplaceOrder): seq<byte> {
    LE(8, r.sequence) + LE(8, r.id) + LE(8, r.quantity) + LE(8, ToUnsigned(r.price))
  }

  function DecodeNew(bs: seq<byte>): Result<NewOrder> {
    if |bs| != NEW_ORDER_SIZE then Err(PayloadLengthInvalid)
    else
      var sequence, id, quantity := U64At(bs, 0), U64At(bs, 8), U64At(bs, 16);
      var price := ToSigned(U64At(bs, 24));
      if bs[34..40] != Zeros(6) then Err(InvalidField)
      else if sequence == 0 || id == 0 || quantity == 0 || bs[32] > 1 || bs[33] > 1 || price < 0 then Err(InvalidField)
      else
        var side := if bs[32] == 0 then Buy else Sell;
        if bs[33] == 0 then
          if price == 0 then Err(LimitMissingPrice)
          else Ok(NewOrder(sequence, id, side, Limit, quantity, Some(price)))
        else
          if price != 0 then Err(MarketHasPrice)
          else Ok(NewOrder(sequence, id, side, Market, quantity, None))
  }

  function DecodeCancel(bs: seq<byte>): Result<CancelOrder> {
    if |bs| != CANCEL_ORDER_SIZE then Err(PayloadLengthInvalid)
    else
      var sequence, id := U64At(bs, 0), U64At(bs, 8);
      if sequence == 0 || id == 0 then Err(InvalidField) else Ok(CancelOrder(sequence, id))
  }

  function DecodeReplace(bs: seq<byte>): Result<ReplaceOrder> {
    if |bs| != REPLACE_ORDER_SIZE then Err(PayloadLengthInvalid)
    else
      var sequence, id, quantity := U64At(bs, 0), U64At(bs, 8), U64At(bs, 16);
      var price := ToSigned(U64At(bs, 24));
      if sequence == 0 || id == 0 || quantity == 0 || price <= 0 then Err(InvalidField)
      else Ok(ReplaceOrder(sequence, id, quantity, price))
  }

  function KindOf(c: Command): byte {
    match c
    case New(_) => NEW_ORDER
    case Cancel(_) => CANCEL_ORDER
    case Replace(_) => REPLACE_ORDER
  }

  function PayloadOf(c: Command): seq<byte> {
    match c
    case New(o) => NewOrderBytes(o)
    case Cancel(k) => CancelBytes(k)
    case Replace(r) => ReplaceBytes(r)
  }

  function DecodePayload(kind: byte, bs: seq<byte>): Result<Command> {
    if kind == NEW_ORDER then (match DecodeNew(bs) case Ok(o) => Ok(New(o)) case Err(e) => Err(e))
    else if kind == CANCEL_ORDER then (match DecodeCancel(bs) case Ok(k) => Ok(Cancel(k)) case Err(e) => Err(e))
    else if kind == REPLACE_ORDER then (match DecodeReplace(bs) case Ok(r) => Ok(Replace(r)) case Err(e) => Err(e))
    else Err(UnknownMessageType)
  }

  /** What the decoder must answer for the encoding of an order that `Validate` refuses. */
  function WireError(e: ValidationError): ErrorCode {
    match e
    case LimitOrderMissingPrice => LimitMissingPrice
    case MarketOrderHasPrice => MarketHasPrice
  }

  // ----- round trips -----

  lemma FieldIs(a: seq<byte>, v: U64, b: seq<byte>)
    ensures (a + LE(8, v) + b)[|a|..|a| + 8] == LE(8, v)
    ensures U64At(a + LE(8, v) + b, |a|) == v
  {
    Pow256Is64();
    ValOfLE(8, v);
    assert (a + LE(8, v) + b)[|a|..|a| + 8] == LE(8, v);
  }

  lemma ChunksAre(f0: seq<byte>, f1: seq<byte>, f2: seq<byte>, f3: seq<byte>, b: seq<byte>)
    requires |f0| == |f1| == |f2| == |f3| == 8
    ensures var bs := f0 + f1 + f2 + f3 + b;
            && |bs| == 32 + |b| && bs[32..] == b
            && bs[0..8] == f0 && bs[8..16] == f1 && bs[16..24] == f2 && bs[24..32] == f3
  {
  }

  lemma FieldOf(bs: seq<byte>, offset: nat, v: U64)
    requires offset + 8 <= |bs| && bs[offset..offset + 8] == LE(8, v)
    ensures U64At(bs, offset) == v
  {
    Pow256Is64();
    ValOfLE(8, v);
  }

  /** Four 64-bit fields and a tail. */
  lemma FieldsAre(bs: seq<byte>, w: U64, x: U64, y: U64, z: U64, b: seq<byte>)
    requires bs == LE(8, w) + LE(8, x) + LE(8, y) + LE(8, z) + b
    ensures |bs| == 32 + |b| && bs[32..] == b
    ensures U64At(bs, 0) == w && U64At(bs, 8) == x && U64At(bs, 16) == y && U64At(bs, 24) == z
  {
    ChunksAre(LE(8, w), LE(8, x), LE(8, y), LE(8, z), b);
    FieldOf(bs, 0, w);
    FieldOf(bs, 8, x);
    FieldOf(bs, 16, y);
    FieldOf(bs, 24, z);
  }

  lemma FieldBytes(bs: seq<byte>, offset: nat)
    requires offset + 8 <= |bs|
    ensures LE(8, U64At(bs, offset)) == bs[offset..offset + 8]
  {
    LEOfVal(bs[offset..offset + 8]);
  }

  lemma FourFields(bs: seq<byte>)
    requires |bs| >= 32
    ensures bs == LE(8, U64At(bs, 0)) + LE(8, U64At(bs, 8)) + LE(8, U64At(bs, 16)) + LE(8, U64At(bs, 24)) + bs[32..]
  {
    FieldBytes(bs, 0);
    FieldBytes(bs, 8);
    FieldBytes(bs, 16);
    FieldBytes(bs, 24);
    Chunks(bs);
  }

  lemma Chunks(bs: seq<byte>)
    requires |bs| >= 32
    ensures bs == bs[0..8] + bs[8..16] + bs[16..24] + bs[24..32] + bs[32..]
  {
    assert bs[0..16] == bs[0..8] + bs[8..16];
    assert bs[0..24] == bs[0..16] + bs[16..24];
    assert bs[0..32] == bs[0..24] + bs[24..32];
    assert bs == bs[0..32] + bs[32..];
  }

  /** Decoding the encoding of a new order returns it exactly when `Validate` accepts
      it, and otherwise reports the corresponding error. */
  lemma NewOrderRoundTrip(o: NewOrder)
    ensures |NewOrderBytes(o)| == NEW_ORDER_SIZE
    ensures DecodeNew(NewOrderBytes(o)) ==
            match Validate(o)
            case None => Ok(o)
            case Some(e) => Err(WireError(e))
  {
    var bs := NewOrderBytes(o);
    NewOrderSplits(o);
    FieldsAre(bs, o.sequence, o.id, o.quantity, ToUnsigned(PriceField(o)), NewOrderTail(o));
    TailIs(bs, NewOrderTail(o));
    SignedRoundTrip(PriceField(o), 0);
    NewOrderReads(o, bs);
  }

  function PriceField(o: NewOrder): int { if o.limit.Some? then o.limit.value else 0 }

  lemma NewOrderReads(o: NewOrder, bs: seq<byte>)
    requires |bs| == NEW_ORDER_SIZE
    requires U64At(bs, 0) == o.sequence && U64At(bs, 8) == o.id && U64At(bs, 16) == o.quantity
    requires ToSigned(U64At(bs, 24)) == PriceField(o)
    requires bs[32] == (if o.side.Buy? then 0 else 1) && bs[33] == (if o.kind.Limit? then 0 else 1) && bs[34..40] == Zeros(6)
    ensures DecodeNew(bs) ==
            match Validate(o)
            case None => Ok(o)
            case Some(e) => Err(WireError(e))
  {
  }

  function NewOrderTail(o: NewOrder): seq<byte> {
    [if o.side.Buy? then 0 else 1] + [if o.kind.Limit? then 0 else 1] + Zeros(6)
  }

  lemma NewOrderSplits(o: NewOrder)
    ensures NewOrderBytes(o) == LE(8, o.sequence) + LE(8, o.id) + LE(8, o.quantity)
                                + LE(8, ToUnsigned(if o.limit.Some? then o.limit.value else 0)) + NewOrderTail(o)
  {
  }

  lemma TailIs(bs: seq<byte>, tail: seq<byte>)
    requires |bs| == 40 && bs[32..] == tail
    ensures |tail| == 8 && bs[32] == tail[0] && bs[33] == tail[1] && bs[34..40] == tail[2..]
    ensures tail == [bs[32]] + [bs[33]] + bs[34..40]
  {
  }

  lemma NewOrderCanonical(bs: seq<byte>)
    requires DecodeNew(bs).Ok?
    ensures NewOrderBytes(DecodeNew(bs).value) == bs && Validate(DecodeNew(bs).value).None?
  {
    DecodedFields(bs);
    NewOrderSplits(DecodeNew(bs).value);
    FourFields(bs);
  }

  lemma DecodedFields(bs: seq<byte>)
    requires DecodeNew(bs).Ok?
    ensures var o := DecodeNew(bs).value;
            && |bs| == NEW_ORDER_SIZE && Validate(o).None?
            && o.sequence == U64At(bs, 0) && o.id == U64At(bs, 8) && o.quantity == U64At(bs, 16)
            && ToUnsigned(if o.limit.Some? then o.limit.value else 0) == U64At(bs, 24)
            && NewOrderTail(o) == bs[32..]
  {
    SignedRoundTrip(0, U64At(bs, 24));
    TailIs(bs, bs[32..]);
  }

  lemma CancelRoundTrip(k: CancelOrder)
    ensures |CancelBytes(k)| == CANCEL_ORDER_SIZE && DecodeCancel(CancelBytes(k)) == Ok(k)
  {
    assert CancelBytes(k) == [] + LE(8, k.sequence) + LE(8, k.id);
    FieldIs([], k.sequence, LE(8, k.id));
    assert CancelBytes(k) == LE(8, k.sequence) + LE(8, k.id) + [];
    FieldIs(LE(8, k.sequence), k.id, []);
  }

  lemma CancelCanonical(bs: seq<byte>)
    requires DecodeCancel(bs).Ok?
    ensures CancelBytes(DecodeCancel(bs).value) == bs
  {
    FieldBytes(bs, 0);
    FieldBytes(bs, 8);
    assert bs == bs[0..8] + bs[8..16];
  }

  lemma ReplaceRoundTrip(r: ReplaceOrder)
    ensures |ReplaceBytes(r)| == REPLACE_ORDER_SIZE && DecodeReplace(ReplaceBytes(r)) == Ok(r)
  {
    FieldsAre(ReplaceBytes(r), r.sequence, r.id, r.quantity, ToUnsigned(r.price), []);
    SignedRoundTrip(r.price, 0);
  }

  lemma ReplaceCanonical(bs: seq<byte>)
    requires DecodeReplace(bs).Ok?
    ensures ReplaceBytes(DecodeReplace(bs).value) == bs
  {
    FourFields(bs);
    SignedRoundTrip(0, U64At(bs, 24));
    assert bs[32..] == [];
  }

  predicate Encodable(c: Command) { c.New? ==> Validate(c.order).None? }

  /** Decoding inverts encoding for exactly the encodable commands. */
  lemma PayloadRoundTrip(c: Command)
    ensures ExpectedLength(KindOf(c)) == Some(|PayloadOf(c)|)
    ensures DecodePayload(KindOf(c), PayloadOf(c)) == Ok(c) <==> Encodable(c)
  {
    match c
    case New(o) => NewOrderRoundTrip(o);
    case Cancel(k) => CancelRoundTrip(k);
    case Replace(r) => ReplaceRoundTrip(r);
  }

  /** Every accepted payload is the encoding of what it decodes to. */
  lemma PayloadCanonical(kind: byte, bs: seq<byte>)
    requires DecodePayload(kind, bs).Ok?
    ensures var c := DecodePayload(kind, bs).value;
            KindOf(c) == kind && PayloadOf(c) == bs && Encodable(c)
  {
    if kind == NEW_ORDER { NewOrderCanonical(bs); }
    else if kind == CANCEL_ORDER { CancelCanonical(bs); }
    else if kind == REPLACE_ORDER { ReplaceCanonical(bs); }
  }

  lemma HeaderRoundTrip(h: Header)
    requires h.magic < 65536 && h.flags < 65536 && h.length < 65536
    ensures |HeaderBytes(h)| == HEADER_SIZE && DecodeHeader(HeaderBytes(h)) == Some(h)
  {
    Pow256Is64();
    ValOfLE(2, h.magic);
    ValOfLE(2, h.flags);
    ValOfLE(2, h.length);
    var bs := HeaderBytes(h);
    assert bs[0..2] == LE(2, h.magic) && bs[4..6] == LE(2, h.flags) && bs[6..8] == LE(2, h.length);
  }

  lemma HeaderCanonical(bs: seq<byte>)
    requires |bs| == HEADER_SIZE
    ensures HeaderBytes(DecodeHeader(bs).value) == bs
  {
    LEOfVal(bs[0..2]);
    LEOfVal(bs[4..6]);
    LEOfVal(bs[6..8]);
    assert bs == bs[0..2] + [bs[2]] + [bs[3]] + bs[4..6] + bs[6..8];
  }

  /** The reserved bits are clear exactly when the flags are zero or the one defined flag. */
  lemma ReservedBits(flags: nat)
    requires flags < 65536
    ensures And(flags, FLAG_RESERVED_MASK) == 0 <==> flags <= 1
  {
    MaskStepEven(flags, 0x7FFF);
    MaskIsRemainder(flags / 2, 15);
    assert Pow2(15) == 0x8000 by { assert Pow2(5) == 32; assert Pow2(10) == 1024; }
    assert flags / 2 < 0x8000;
  }

  lemma MaskStepEven(x: nat, m: nat)
    ensures And(x, 2 * m) == 2 * And(x / 2, m)
  {
    if x != 0 && m != 0 {
      assert 2 * m / 2 == m && 2 * m % 2 == 0;
      assert And(x, 2 * m) == 2 * And(x / 2, 2 * m / 2) + (x % 2) * (2 * m % 2);
    }
  }
}
