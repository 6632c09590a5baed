/** The outbound event codecs and frames: what the service says, as bytes, and what a
    client reads back. */
module Outbound {
  import opened Types
  import opened Bytes
  import opened Wire
  import opened BookSpec
  import opened ServiceSpec
  import opened ServiceGrammar

  function KindOfBody(b: Body): byte {
    match b
    case OrderAccepted(_, _) => 16
    case OrderRejected(_, _) => 17
    case Executed(_) => 18
    case CancelAccepted(_, _) => 19
    case CancelRejected(_, _) => 20
    case ReplaceAccepted(_, _) => 21
    case ReplaceRejected(_, _) => 22
  }

  function CodeOf(reason: RejectReason): nat {
    match reason
    case InvalidOrder => 100
    case DuplicateOrderId => 101
    case OrderNotFound => 102
  }

  function ReasonOf(code: nat): Option<RejectReason> {
    if code == 100 then Some(InvalidOrder)
    else if code == 101 then Some(DuplicateOrderId)
    else if code == 102 then Some(OrderNotFound)
    else None
  }

  // ----- payloads -----

  function ThreeWords(a: U64, b: U64, c: U64): seq<byte> { LE(8, a) + LE(8, b) + LE(8, c) }

  function RejectedBytes(sequence: U64, id: U64, code: nat): seq<byte> {
    LE(8, sequence) + LE(8, id) + LE(2, code) + Zeros(6)
  }

  function ExecutionBytes(sequence: Sequence, e: Execution): seq<byte> {
    LE(8, sequence) + LE(8, e.resting) + LE(8, e.incoming) + LE(8, ToUnsigned(e.price)) + LE(8, e.quantity)
  }

  function EventBytes(m: Message): seq<byte> {
    match m.body
    case Executed(e) => ExecutionBytes(m.sequence, e)
    case OrderAccepted(id, left) => ThreeWords(m.sequence, id, left)
    case ReplaceAccepted(id, left) => ThreeWords(m.sequence, id, left)
    case CancelAccepted(id, quantity) => ThreeWords(m.sequence, id, quantity)
    case OrderRejected(id, reason) => RejectedBytes(m.sequence, id, CodeOf(reason))
    case CancelRejected(id, reason) => RejectedBytes(m.sequence, id, CodeOf(reason))
    case ReplaceRejected(id, reason) => RejectedBytes(m.sequence, id, CodeOf(reason))
  }

  function DecodeExecution(bs: seq<byte>): Result<(Sequence, Execution)> {
    if |bs| != 40 then Err(PayloadLengthInvalid)
    else
      var sequence, resting, incoming, quantity := U64At(bs, 0), U64At(bs, 8), U64At(bs, 16), U64At(bs, 32);
      var price := ToSigned(U64At(bs, 24));
      if sequence == 0 || resting == 0 || incoming == 0 || price <= 0 || quantity == 0 then Err(InvalidField)
      else Ok((sequence, Execution(resting, incoming, price, quantity)))
  }

  function DecodeAccepted(bs: seq<byte>): Result<(Sequence, OrderId, U64)> {
    if |bs| != 24 then Err(PayloadLengthInvalid)
    else
      var sequence, id := U64At(bs, 0), U64At(bs, 8);
      if sequence == 0 || id == 0 then Err(InvalidField) else Ok((sequence, id, U64At(bs, 16)))
  }

  function DecodeCancelled(bs: seq<byte>): Result<(Sequence, OrderId, Quantity)> {
    match DecodeAccepted(bs)
    case Err(e) => Err(e)
    case Ok((sequence, id, quantity)) => if quantity == 0 then Err(InvalidField) else Ok((sequence, id, quantity))
  }

  /** An order id of zero is read as one. */
  function DecodeRejected(bs: seq<byte>): Result<(Sequence, OrderId, nat)> {
    if |bs| != 24 then Err(PayloadLengthInvalid)
    else if bs[18..24] != Zeros(6) then Err(InvalidField)
    else
      var sequence, id := U64At(bs, 0), U64At(bs, 8);
      if sequence == 0 then Err(InvalidField)
      else Ok((sequence, if id == 0 then 1 else id, Val(bs[16..18])))
  }

  /** The event in a payload of the given type. */
  function DecodeEvent(s: Session, more: bool, kind: byte, bs: seq<byte>): Option<Message> {
    if kind == 18 then
      (match DecodeExecution(bs)
       case Err(_) => None
       case Ok((n, e)) => Some(Message(s, more, n, Executed(e))))
    else if kind == 16 || kind == 21 then
      (match DecodeAccepted(bs)
       case Err(_) => None
       case Ok((n, id, left)) => Some(Message(s, more, n, if kind == 16 then OrderAccepted(id, left) else ReplaceAccepted(id, left))))
    else if kind == 19 then
      (match DecodeCancelled(bs)
       case Err(_) => None
       case Ok((n, id, quantity)) => Some(Message(s, more, n, CancelAccepted(id, quantity))))
    else if kind == 17 || kind == 20 || kind == 22 then
      (match DecodeRejected(bs)
       case Err(_) => None
       case Ok((n, id, code)) =>
         if ReasonOf(code).None? then None
         else
           var reason := ReasonOf(code).value;
           Some(Message(s, more, n, if kind == 17 then OrderRejected(id, reason)
                                    else if kind == 20 then CancelRejected(id, reason)
                                    else ReplaceRejected(id, reason))))
    else None
  }

  lemma ThreeWordsAre(a: U64, b: U64, c: U64)
    ensures var bs := ThreeWords(a, b, c);
            |bs| == 24 && U64At(bs, 0) == a && U64At(bs, 8) == b && U64At(bs, 16) == c
  {
    var bs := ThreeWords(a, b, c);
    assert bs[0..8] == LE(8, a) && bs[8..16] == LE(8, b) && bs[16..24] == LE(8, c);
    FieldOf(bs, 0, a);
    FieldOf(bs, 8, b);
    FieldOf(bs, 16, c);
  }

  lemma RejectedFields(sequence: U64, id: U64, code: nat)
    requires code < 65536
    ensures var bs := RejectedBytes(sequence, id, code);
            && |bs| == 24 && U64At(bs, 0) == sequence && U64At(bs, 8) == id && Val(bs[16..18]) == code && bs[18..24] == Zeros(6)
  {
    var bs := RejectedBytes(sequence, id, code);
    assert bs[0..8] == LE(8, sequence) && bs[8..16] == LE(8, id) && bs[16..18] == LE(2, code) && bs[18..24] == Zeros(6);
    FieldOf(bs, 0, sequence);
    FieldOf(bs, 8, id);
    Pow256Is64();
    ValOfLE(2, code);
  }

  lemma RejectedRoundTrip(sequence: Sequence, id: OrderId, code: nat)
    requires code < 65536
    ensures |RejectedBytes(sequence, id, code)| == 24
    ensures DecodeRejected(RejectedBytes(sequence, id, code)) == Ok((sequence, id, code))
  {
    RejectedFields(sequence, id, code);
  }

  /** Reading is not injective on foreign bytes: a rejection of order 0 reads as one of order 1. */
  lemma RejectedIdZero(sequence: Sequence, code: nat)
    requires code < 65536
    ensures DecodeRejected(RejectedBytes(sequence, 0, code)) == Ok((sequence, 1, code))
  {
    RejectedFields(sequence, 0, code);
  }

  lemma ExecutionRoundTrip(sequence: Sequence, e: Execution)
    ensures |ExecutionBytes(sequence, e)| == 40 && DecodeExecution(ExecutionBytes(sequence, e)) == Ok((sequence, e))
  {
    var bs := ExecutionBytes(sequence, e);
    FieldsAre(bs, sequence, e.resting, e.incoming, ToUnsigned(e.price), LE(8, e.quantity));
    assert bs[32..40] == LE(8, e.quantity);
    FieldOf(bs, 32, e.quantity);
    SignedRoundTrip(e.price, 0);
  }

  lemma RefusalRoundTrip(m: Message)
    requires m.body.OrderRejected? || m.body.CancelRejected? || m.body.ReplaceRejected?
    ensures |EventBytes(m)| == 24
    ensures DecodeEvent(m.session, m.more, KindOfBody(m.body), EventBytes(m)) == Some(m)
  {
    RejectedRoundTrip(m.sequence, m.body.id, CodeOf(m.body.reason));
  }

  lemma AcceptanceRoundTrip(m: Message)
    requires m.body.OrderAccepted? || m.body.CancelAccepted? || m.body.ReplaceAccepted?
    ensures |EventBytes(m)| == 24
    ensures DecodeEvent(m.session, m.more, KindOfBody(m.body), EventBytes(m)) == Some(m)
  {
    var third: U64 := if m.body.CancelAccepted? then m.body.quantity else m.body.remaining;
    ThreeWordsAre(m.sequence, m.body.id, third);
  }

  /** Every message the service can send is recovered from its payload. */
  lemma EventRoundTrip(m: Message)
    ensures ExpectedLength(KindOfBody(m.body)) == Some(|EventBytes(m)|)
    ensures DecodeEvent(m.session, m.more, KindOfBody(m.body), EventBytes(m)) == Some(m)
  {
    match m.body
    case Executed(e) => ExecutionRoundTrip(m.sequence, e);
    case OrderRejected(_, _) => RefusalRoundTrip(m);
    case CancelRejected(_, _) => RefusalRoundTrip(m);
    case ReplaceRejected(_, _) => RefusalRoundTrip(m);
    case OrderAccepted(_, _) => AcceptanceRoundTrip(m);
    case CancelAccepted(_, _) => AcceptanceRoundTrip(m);
    case ReplaceAccepted(_, _) => AcceptanceRoundTrip(m);
  }

  // ----- frames -----

  function HeaderFor(m: Message): Header {
    Header(MAGIC, VERSION, KindOfBody(m.body), if m.more then 1 else 0, |EventBytes(m)|)
  }

  function Serialize(m: Message): seq<byte> { HeaderBytes(HeaderFor(m)) + EventBytes(m) }

  function SerializeAll(ms: seq<Message>): seq<byte>
    decreases |ms|
  {
    if ms == [] then [] else Serialize(ms[0]) + SerializeAll(ms[1..])
  }

  /** The first message of a client's input and what follows it. */
  function ReadMessage(s: Session, bs: seq<byte>): (r: Option<(Message, seq<byte>)>)
    ensures r.Some? ==> |r.value.1| < |bs|
  {
    if |bs| < HEADER_SIZE then None
    else
      var h := DecodeHeader(bs[..HEADER_SIZE]).value;
      if ValidateHeader(h).Some? || |bs| < HEADER_SIZE + h.length then None
      else
        match DecodeEvent(s, h.flags == 1, h.kind, bs[HEADER_SIZE..HEADER_SIZE + h.length])
        case None => None
        case Some(m) => Some((m, bs[HEADER_SIZE + h.length..]))
  }

  function ReadAll(s: Session, bs: seq<byte>): Option<seq<Message>>
    decreases |bs|
  {
    if bs == [] then Some([])
    else
      match ReadMessage(s, bs)
      case None => None
      case Some((m, rest)) =>
        var later := ReadAll(s, rest);
        if later.None? then None else Some([m] + later.value)
  }

  lemma HeaderForPasses(m: Message)
    ensures |HeaderBytes(HeaderFor(m))| == HEADER_SIZE && DecodeHeader(HeaderBytes(HeaderFor(m))) == Some(HeaderFor(m))
    ensures ValidateHeader(HeaderFor(m)).None?
  {
    EventRoundTrip(m);
    HeaderRoundTrip(HeaderFor(m));
    ReservedBits(HeaderFor(m).flags);
  }

  lemma MessageRoundTrip(m: Message, rest: seq<byte>)
    ensures ReadMessage(m.session, Serialize(m) + rest) == Some((m, rest))
  {
    var h, bs := HeaderFor(m), Serialize(m) + rest;
    HeaderForPasses(m);
    EventRoundTrip(m);
    assert bs[..HEADER_SIZE] == HeaderBytes(h);
    assert bs[HEADER_SIZE..HEADER_SIZE + h.length] == EventBytes(m);
    assert bs[HEADER_SIZE + h.length..] == rest;
  }

  lemma ReadOne(s: Session, bs: seq<byte>, m: Message, rest: seq<byte>, later: seq<Message>)
    requires ReadMessage(s, bs) == Some((m, rest)) && ReadAll(s, rest) == Some(later)
    ensures ReadAll(s, bs) == Some([m] + later)
  {
  }

  lemma {:induction false} AllRoundTrip(s: Session, ms: seq<Message>)
    requires forall i :: 0 <= i < |ms| ==> ms[i].session == s
    ensures ReadAll(s, SerializeAll(ms)) == Some(ms)
    decreases |ms|
  {
    if ms != [] {
      MessageRoundTrip(ms[0], SerializeAll(ms[1..]));
      AllRoundTrip(s, ms[1..]);
      ReadOne(s, SerializeAll(ms), ms[0], SerializeAll(ms[1..]), ms[1..]);
      assert [ms[0]] + ms[1..] == ms;
    }
  }

  lemma {:induction false} ProjectSession(out: seq<Message>, s: Session)
    ensures forall i :: 0 <= i < |Project(out, s)| ==> Project(out, s)[i].session == s
    decreases |out|
  {
    if out != [] { ProjectSession(out[1..], s); }
  }

  /** From the bytes written to a session, its client recovers every reply and every
      notice due to it, in order. */
  lemma ClientReadsItsReplies(ins: seq<Inbound>, s: Session)
    ensures var told := ReadAll(s, SerializeAll(Project(Serve(IDLE, ins).1, s)));
            told.Some? && Parse(told.value, []) == Some(AllDue(IDLE, ins, s))
  {
    ProjectSession(Serve(IDLE, ins).1, s);
    AllRoundTrip(s, Project(Serve(IDLE, ins).1, s));
    StreamParses(IDLE, ins, s);
  }
}
