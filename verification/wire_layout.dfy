/** The wire formats by offset and value, as a peer written in another language has to know them. */
module WireLayout {
  import opened Types
  import opened Bits
  import opened Bytes
  import opened Fnv
  import opened Wire
  import opened BookSpec
  import opened ServiceSpec
  import opened SessionReader
  import opened Outbound
  import opened EventLog

  // ----- headers -----

  function U16(low: byte, high: byte): nat {
    var a: int, b: int := low, high;
    a + 256 * b
  }

  /** Magic at 0, version at 2, type at 3, flags at 4, payload length at 6. */
  lemma HeaderFields(h: Header)
    requires h.magic < 65536 && h.flags < 65536 && h.length < 65536
    ensures var bs := HeaderBytes(h);
            && |bs| == 8
            && U16(bs[0], bs[1]) == h.magic && bs[2] == h.version && bs[3] == h.kind
            && U16(bs[4], bs[5]) == h.flags && U16(bs[6], bs[7]) == h.length
  {
    TwoBytes(h.magic);
    TwoBytes(h.flags);
    TwoBytes(h.length);
  }

  lemma TwoBytes(v: nat)
    requires v < 65536
    ensures LE(2, v) == [v % 256, v / 256] && v % 256 + 256 * (v / 256) == v
  {
    assert LE(1, v / 256) == [v / 256 % 256] + LE(0, v / 256 / 256);
  }

  /** The fixed payload length of each known type. */
  function LengthTable(kind: byte): Option<nat> {
    match kind
    case 1 => Some(40) case 2 => Some(16) case 3 => Some(32)
    case 16 => Some(24) case 17 => Some(24) case 18 => Some(40) case 19 => Some(24)
    case 20 => Some(24) case 21 => Some(24) case 22 => Some(24) case 23 => Some(8)
    case _ => None
  }

  /** Which code a header gets: the first of these faults, in this order. */
  lemma HeaderCodes(h: Header)
    requires h.flags < 65536
    ensures h.magic != 0x584C ==> ValidateHeader(h) == Some(MalformedFrame)
    ensures h.magic == 0x584C && h.version != 1 ==> ValidateHeader(h) == Some(UnsupportedVersion)
    ensures h.magic == 0x584C && h.version == 1 && h.length > 1024 ==> ValidateHeader(h) == Some(PayloadTooLarge)
    ensures h.magic == 0x584C && h.version == 1 && h.length <= 1024 && h.flags > 1 ==> ValidateHeader(h) == Some(InvalidField)
    ensures h.magic == 0x584C && h.version == 1 && h.length <= 1024 && h.flags <= 1 ==>
              ValidateHeader(h) ==
              (match LengthTable(h.kind)
               case None => Some(UnknownMessageType)
               case Some(n) => if h.length == n then None else Some(PayloadLengthInvalid))
  {
    ReservedBits(h.flags);
  }

  /** The reader reports that code with the type byte as soon as eight bytes are there, and reads
      nothing further. */
  lemma BadHeaderStops(bs: seq<byte>, last: U64, code: ErrorCode)
    requires |bs| >= 8 && ValidateHeader(DecodeHeader(bs[..8]).value) == Some(code)
    ensures Judge(bs, last) == Verdict.Bad(ProtocolError(code, bs[3]))
  {
    assert bs[..8][3] == bs[3];
  }

  /** A complete payload that does not decode is reported with its code and the type byte. */
  lemma BadPayloadStops(bs: seq<byte>, last: U64, code: ErrorCode)
    requires |bs| >= 8
    requires var h := DecodeHeader(bs[..8]).value;
             ValidateHeader(h).None? && |bs| >= 8 + h.length && DecodePayload(h.kind, bs[8..][..h.length]) == Err(code)
    ensures Judge(bs, last) == Verdict.Bad(ProtocolError(code, bs[3]))
  {
    assert bs[..8][3] == bs[3];
  }

  /** A well-formed header of an outbound type passes, and its frame is then refused as unknown. */
  lemma OutboundTypesAreRefused(bs: seq<byte>, last: U64)
    requires |bs| >= 8
    requires var h := DecodeHeader(bs[..8]).value;
             16 <= h.kind <= 23 && ValidateHeader(h).None? && |bs| >= 8 + h.length
    ensures Judge(bs, last) == Verdict.Bad(ProtocolError(UnknownMessageType, bs[3]))
  {
    assert bs[..8][3] == bs[3];
  }

  // ----- inbound payloads -----

  lemma NewOrderFields(o: NewOrder)
    ensures var bs := NewOrderBytes(o);
            && |bs| == 40
            && U64At(bs, 0) == o.sequence && U64At(bs, 8) == o.id && U64At(bs, 16) == o.quantity
            && ToSigned(U64At(bs, 24)) == (if o.limit.Some? then o.limit.value else 0)
            && bs[32] == (if o.side.Buy? then 0 else 1) && bs[33] == (if o.kind.Limit? then 0 else 1)
            && forall i :: 34 <= i < 40 ==> bs[i] == 0
  {
    var bs, price := NewOrderBytes(o), if o.limit.Some? then o.limit.value else 0;
    NewOrderSplits(o);
    FieldsAre(bs, o.sequence, o.id, o.quantity, ToUnsigned(price), NewOrderTail(o));
    TailIs(bs, NewOrderTail(o));
    SignedRoundTrip(price, 0);
    ZerosBehind(bs);
  }

  lemma ZerosBehind(bs: seq<byte>)
    requires |bs| == 40 && bs[34..40] == Zeros(6)
    ensures forall i :: 34 <= i < 40 ==> bs[i] == 0
  {
    forall i | 34 <= i < 40 ensures bs[i] == 0 { assert bs[i] == bs[34..40][i - 34]; }
  }

  lemma CancelFields(k: CancelOrder)
    ensures var bs := CancelBytes(k); |bs| == 16 && U64At(bs, 0) == k.sequence && U64At(bs, 8) == k.id
  {
    var bs := CancelBytes(k);
    assert bs[0..8] == LE(8, k.sequence) && bs[8..16] == LE(8, k.id);
    FieldOf(bs, 0, k.sequence);
    FieldOf(bs, 8, k.id);
  }

  lemma ReplaceFields(r: ReplaceOrder)
    ensures var bs := ReplaceBytes(r);
            && |bs| == 32
            && U64At(bs, 0) == r.sequence && U64At(bs, 8) == r.id && U64At(bs, 16) == r.quantity && ToSigned(U64At(bs, 24)) == r.price
  {
    FieldsAre(ReplaceBytes(r), r.sequence, r.id, r.quantity, ToUnsigned(r.price), []);
    SignedRoundTrip(r.price, 0);
  }

  /** Types 1, 2 and 3 carry new orders, cancels and replaces; a frame's flags are its own. */
  lemma FrameKinds(f: Frame)
    requires Legal(f)
    ensures var bs := FrameBytes(f);
            && |bs| >= 8 && bs[0] == 0x4C && bs[1] == 0x58 && bs[2] == 1
            && bs[3] == (match f.command case New(_) => 1 case Cancel(_) => 2 case Replace(_) => 3)
            && bs[4] == f.flags && bs[5] == 0
  {
    HeaderPasses(f);
    HeaderFields(HeaderOf(f));
  }

  /** Which code a new-order payload gets, from its bytes. */
  lemma NewOrderCodes(bs: seq<byte>)
    ensures |bs| != 40 ==> DecodeNew(bs) == Err(PayloadLengthInvalid)
    ensures |bs| == 40 ==>
              var price := ToSigned(U64At(bs, 24));
              var unfit := (exists i :: 34 <= i < 40 && bs[i] != 0)
                           || U64At(bs, 0) == 0 || U64At(bs, 8) == 0 || U64At(bs, 16) == 0 || bs[32] > 1 || bs[33] > 1 || price < 0;
              && (unfit ==> DecodeNew(bs) == Err(InvalidField))
              && (!unfit && bs[33] == 0 && price == 0 ==> DecodeNew(bs) == Err(LimitMissingPrice))
              && (!unfit && bs[33] == 1 && price != 0 ==> DecodeNew(bs) == Err(MarketHasPrice))
              && (!unfit && (bs[33] == 0 <==> price != 0) ==> DecodeNew(bs).Ok?)
  {
    if |bs| == 40 {
      assert bs[34..40] == Zeros(6) <==> forall i :: 34 <= i < 40 ==> bs[i] == 0 by { ReservedZero(bs); }
    }
  }

  lemma ReservedZero(bs: seq<byte>)
    requires |bs| == 40
    ensures bs[34..40] == Zeros(6) <==> forall i :: 34 <= i < 40 ==> bs[i] == 0
  {
    if bs[34..40] == Zeros(6) { ZerosBehind(bs); }
    if forall i :: 34 <= i < 40 ==> bs[i] == 0 {
      forall j | 0 <= j < 6 ensures bs[34..40][j] == Zeros(6)[j] { assert bs[34..40][j] == bs[34 + j]; }
    }
  }

  lemma CancelCodes(bs: seq<byte>)
    ensures |bs| != 16 ==> DecodeCancel(bs) == Err(PayloadLengthInvalid)
    ensures |bs| == 16 && (U64At(bs, 0) == 0 || U64At(bs, 8) == 0) ==> DecodeCancel(bs) == Err(InvalidField)
    ensures |bs| == 16 && U64At(bs, 0) != 0 && U64At(bs, 8) != 0 ==> DecodeCancel(bs) == Ok(CancelOrder(U64At(bs, 0), U64At(bs, 8)))
  {
  }

  lemma ReplaceCodes(bs: seq<byte>)
    ensures |bs| != 32 ==> DecodeReplace(bs) == Err(PayloadLengthInvalid)
    ensures |bs| == 32 ==>
              var unfit := U64At(bs, 0) == 0 || U64At(bs, 8) == 0 || U64At(bs, 16) == 0 || ToSigned(U64At(bs, 24)) <= 0;
              && (unfit ==> DecodeReplace(bs) == Err(InvalidField))
              && (!unfit ==> DecodeReplace(bs) == Ok(ReplaceOrder(U64At(bs, 0), U64At(bs, 8), U64At(bs, 16), ToSigned(U64At(bs, 24)))))
  {
  }

  // ----- outbound frames -----

  /** Sequence at 0 of every event; ids, price and quantities behind it; type and flag in the header. */
  lemma EventFields(m: Message)
    ensures var bs := EventBytes(m);
            && |bs| >= 16 && U64At(bs, 0) == m.sequence
            && match m.body
               case Executed(e) =>
                 && |bs| == 40 && U64At(bs, 8) == e.resting && U64At(bs, 16) == e.incoming
                 && ToSigned(U64At(bs, 24)) == e.price && U64At(bs, 32) == e.quantity
               case OrderAccepted(id, left) => |bs| == 24 && U64At(bs, 8) == id && U64At(bs, 16) == left
               case ReplaceAccepted(id, left) => |bs| == 24 && U64At(bs, 8) == id && U64At(bs, 16) == left
               case CancelAccepted(id, quantity) => |bs| == 24 && U64At(bs, 8) == id && U64At(bs, 16) == quantity
               case OrderRejected(id, reason) => RefusalFields(bs, id, reason)
               case CancelRejected(id, reason) => RefusalFields(bs, id, reason)
               case ReplaceRejected(id, reason) => RefusalFields(bs, id, reason)
  {
    match m.body
    case Executed(e) =>
      var bs := EventBytes(m);
      FieldsAre(bs, m.sequence, e.resting, e.incoming, ToUnsigned(e.price), LE(8, e.quantity));
      assert bs[32..40] == LE(8, e.quantity);
      FieldOf(bs, 32, e.quantity);
      SignedRoundTrip(e.price, 0);
    case OrderAccepted(id, left) => ThreeWordsAre(m.sequence, id, left);
    case ReplaceAccepted(id, left) => ThreeWordsAre(m.sequence, id, left);
    case CancelAccepted(id, quantity) => ThreeWordsAre(m.sequence, id, quantity);
    case OrderRejected(id, reason) => RefusalFieldsAre(m.sequence, id, reason);
    case CancelRejected(id, reason) => RefusalFieldsAre(m.sequence, id, reason);
    case ReplaceRejected(id, reason) => RefusalFieldsAre(m.sequence, id, reason);
  }

  /** The reason as a number: 100 invalid order, 101 duplicate id, 102 not found. */
  predicate RefusalFields(bs: seq<byte>, id: OrderId, reason: RejectReason) {
    && |bs| == 24 && U64At(bs, 8) == id
    && bs[16] == (match reason case InvalidOrder => 100 case DuplicateOrderId => 101 case OrderNotFound => 102)
    && bs[17] == 0
  }

  lemma RefusalFieldsAre(sequence: Sequence, id: OrderId, reason: RejectReason)
    ensures var bs := RejectedBytes(sequence, id, CodeOf(reason));
            |bs| == 24 && U64At(bs, 0) == sequence && RefusalFields(bs, id, reason)
  {
    var bs := RejectedBytes(sequence, id, CodeOf(reason));
    RejectedFields(sequence, id, CodeOf(reason));
    TwoBytes(CodeOf(reason));
    assert bs[16..18] == LE(2, CodeOf(reason));
    assert bs[16] == bs[16..18][0] && bs[17] == bs[16..18][1];
  }

  /** Which code a reader of each event gives, from its bytes. */
  lemma EventCodes(bs: seq<byte>)
    ensures |bs| != 40 ==> DecodeExecution(bs) == Err(PayloadLengthInvalid)
    ensures |bs| == 40 ==>
              var unfit := U64At(bs, 0) == 0 || U64At(bs, 8) == 0 || U64At(bs, 16) == 0 || ToSigned(U64At(bs, 24)) <= 0 || U64At(bs, 32) == 0;
              if unfit then DecodeExecution(bs) == Err(InvalidField) else DecodeExecution(bs).Ok?
    ensures |bs| != 24 ==> DecodeAccepted(bs) == Err(PayloadLengthInvalid) && DecodeCancelled(bs) == Err(PayloadLengthInvalid)
                           && DecodeRejected(bs) == Err(PayloadLengthInvalid)
    ensures |bs| == 24 && (U64At(bs, 0) == 0 || U64At(bs, 8) == 0) ==>
              DecodeAccepted(bs) == Err(InvalidField) && DecodeCancelled(bs) == Err(InvalidField)
    ensures |bs| == 24 && U64At(bs, 0) != 0 && U64At(bs, 8) != 0 ==>
              && DecodeAccepted(bs) == Ok((U64At(bs, 0), U64At(bs, 8), U64At(bs, 16)))
              && (if U64At(bs, 16) == 0 then DecodeCancelled(bs) == Err(InvalidField) else DecodeCancelled(bs).Ok?)
    ensures |bs| == 24 && (U64At(bs, 0) == 0 || bs[18..24] != Zeros(6)) ==> DecodeRejected(bs) == Err(InvalidField)
  {
  }

  lemma OutboundKinds(m: Message)
    ensures var bs := Serialize(m);
            && |bs| >= 8 && bs[0] == 0x4C && bs[1] == 0x58 && bs[2] == 1
            && bs[3] == (match m.body
                         case OrderAccepted(_, _) => 16 case OrderRejected(_, _) => 17 case Executed(_) => 18
                         case CancelAccepted(_, _) => 19 case CancelRejected(_, _) => 20
                         case ReplaceAccepted(_, _) => 21 case ReplaceRejected(_, _) => 22)
            && bs[4] == (if m.more then 1 else 0) && bs[5] == 0
  {
    HeaderForPasses(m);
    EventRoundTrip(m);
    HeaderFields(HeaderFor(m));
  }

  // ----- log records -----

  /** Magic "LXLG" at 0, version at 4, type at 5, length at 6, checksum at 8, payload at 16. */
  predicate RecordFormat(bs: seq<byte>, kind: byte, p: seq<byte>, sum: U64) {
    && |bs| == 16 + |p|
    && bs[0..4] == [0x4C, 0x58, 0x4C, 0x47] && bs[4] == 1 && bs[5] == kind && U16(bs[6], bs[7]) == |p|
    && U64At(bs, 8) == sum && bs[16..] == p
  }

  /** A record of type 1, 2 or 3; its checksum is taken over version, type, length and payload. */
  lemma RecordFields(c: Command)
    ensures var p, kind := PayloadOf(c), match c case New(_) => 1 case Cancel(_) => 2 case Replace(_) => 3;
            && |p| < 65536
            && RecordFormat(Record(c), kind, p, Fold(OFFSET_BASIS, Summed(kind, p)))
  {
    var bs, p := Record(c), PayloadOf(c);
    RecordLayout(c);
    MagicBytes();
    TwoBytes(|p|);
    assert bs[6] == bs[6..8][0] && bs[7] == bs[6..8][1];
    FieldOf(bs, 8, Checksum(KindOf(c), p));
    CoveredIs(KindOf(c), p);
  }

  lemma MagicBytes()
    ensures LE(4, RECORD_MAGIC) == [0x4C, 0x58, 0x4C, 0x47]
  {
    assert LE(4, 0x474C584C) == [0x4C] + LE(3, 0x474C58);
    assert LE(3, 0x474C58) == [0x58] + LE(2, 0x474C);
    TwoBytes(0x474C);
  }

  /** What the checksum is taken over. */
  function Summed(kind: byte, p: seq<byte>): seq<byte> {
    [1] + [kind] + LE(2, |p|) + p
  }

  lemma CoveredIs(kind: byte, p: seq<byte>)
    requires |p| < 65536
    ensures Covered(kind, p) == Summed(kind, p)
  {
    TwoBytes(|p|);
  }

  lemma {:induction false} XorZero(k: nat)
    ensures Xor(k, 0) == k
    decreases k
  {
    if k > 0 { XorZero(k / 2); }
  }

  lemma {:induction false} XorSelf(k: nat)
    ensures Xor(k, k) == 0
    decreases k
  {
    if k > 0 { XorSelf(k / 2); }
  }

  lemma FoldOne(h: U64, x: byte)
    ensures Fold(h, []) == h && Fold(h, [x]) == Mix(h, x)
  {
    assert [x][1..] == [];
  }

  /** A zero byte leaves the product alone, and a byte equal to the hash wipes it out: the byte
      goes in before the multiplication. */
  lemma MixIsXorThenMultiply(h: U64, x: byte)
    ensures Mix(h, 0) == Wrap(h * 1099511628211)
    ensures h == x ==> Mix(h, x) == 0
  {
    XorZero(h);
    XorSelf(h);
  }

  /** The published hashes of the empty string and of one zero byte. */
  lemma FnvVectors()
    ensures Fold(OFFSET_BASIS, []) == 0xCBF29CE484222325
    ensures Fold(OFFSET_BASIS, [0]) == 0xAF63BD4C8601B7DF
  {
    FoldOne(OFFSET_BASIS, 0);
    MixIsXorThenMultiply(OFFSET_BASIS, 0);
  }
}
