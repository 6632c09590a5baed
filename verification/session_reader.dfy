/** The reader of one session: a byte stream in, commands and at most one protocol
    error out, however the bytes are chunked and whenever the inbound queue is full. */
module SessionReader {
  import opened Types
  import opened Bytes
  import opened Wire

  datatype ProtocolError = ProtocolError(code: ErrorCode, kind: byte)

  /** An inbound frame; the `more` flag is legal and ignored. */
  datatype Frame = Frame(flags: nat, command: Command)

  predicate Legal(f: Frame) { f.flags <= 1 && Encodable(f.command) }

  function HeaderOf(f: Frame): Header {
    Header(MAGIC, VERSION, KindOf(f.command), f.flags, |PayloadOf(f.command)|)
  }

  function FrameBytes(f: Frame): seq<byte> { HeaderBytes(HeaderOf(f)) + PayloadOf(f.command) }

  function Stream(fs: seq<Frame>): seq<byte>
    decreases |fs|
  {
    if fs == [] then [] else FrameBytes(fs[0]) + Stream(fs[1..])
  }

  // ----- one frame -----

  datatype Verdict =
    | Incomplete
    | Bad(error: ProtocolError)
    | Good(frame: Frame, rest: seq<byte>)

  /** The payload handler's view: a valid header and what follows it. */
  function JudgePayload(h: Header, bs: seq<byte>, last: U64): Verdict {
    if |bs| < h.length then Incomplete
    else
      match DecodePayload(h.kind, bs[..h.length])
      case Err(code) => Bad(ProtocolError(code, h.kind))
      case Ok(c) =>
        if c.Sequence() <= last then Bad(ProtocolError(SequenceOutOfOrder, h.kind))
        else Good(Frame(h.flags, c), bs[h.length..])
  }

  function Judge(bs: seq<byte>, last: U64): Verdict {
    if |bs| < HEADER_SIZE then Incomplete
    else
      var h := DecodeHeader(bs[..HEADER_SIZE]).value;
      match ValidateHeader(h)
      case Some(code) => Bad(ProtocolError(code, h.kind))
      case None => JudgePayload(h, bs[HEADER_SIZE..], last)
  }

  /** Verdicts are exact: a frame is taken only if it stands at the front, byte for byte. */
  lemma JudgeSound(bs: seq<byte>, last: U64)
    requires Judge(bs, last).Good?
    ensures var g := Judge(bs, last);
            Legal(g.frame) && g.frame.command.Sequence() > last && bs == FrameBytes(g.frame) + g.rest
  {
    var h := DecodeHeader(bs[..HEADER_SIZE]).value;
    HeaderCanonical(bs[..HEADER_SIZE]);
    HeaderRange(bs[..HEADER_SIZE]);
    ReservedBits(h.flags);
    PayloadSound(h, bs[HEADER_SIZE..], last);
    var g := JudgePayload(h, bs[HEADER_SIZE..], last);
    assert HeaderOf(g.frame) == h;
    Rejoin(bs, HeaderBytes(h), PayloadOf(g.frame.command), g.rest);
  }

  lemma Rejoin(bs: seq<byte>, a: seq<byte>, b: seq<byte>, c: seq<byte>)
    requires |bs| >= HEADER_SIZE && bs[..HEADER_SIZE] == a && bs[HEADER_SIZE..] == b + c
    ensures bs == a + b + c
  {
    assert bs == bs[..HEADER_SIZE] + bs[HEADER_SIZE..];
  }

  lemma PayloadSound(h: Header, bs: seq<byte>, last: U64)
    requires JudgePayload(h, bs, last).Good?
    ensures var g := JudgePayload(h, bs, last);
            var c := g.frame.command;
            && g.frame.flags == h.flags && Encodable(c) && c.Sequence() > last
            && KindOf(c) == h.kind && |PayloadOf(c)| == h.length && bs == PayloadOf(c) + g.rest
  {
    PayloadCanonical(h.kind, bs[..h.length]);
    assert bs == bs[..h.length] + bs[h.length..];
  }

  lemma HeaderRange(bs: seq<byte>)
    requires |bs| == HEADER_SIZE
    ensures DecodeHeader(bs).value.flags < 65536
  {
    ValBound(bs[4..6]);
    Pow256Is64();
  }

  lemma HeaderPasses(f: Frame)
    requires Legal(f)
    ensures |HeaderBytes(HeaderOf(f))| == HEADER_SIZE && DecodeHeader(HeaderBytes(HeaderOf(f))) == Some(HeaderOf(f))
    ensures ValidateHeader(HeaderOf(f)).None?
  {
    PayloadRoundTrip(f.command);
    HeaderRoundTrip(HeaderOf(f));
    ReservedBits(f.flags);
  }

  /** Every legal frame with a larger sequence number is taken, and one without is an error. */
  lemma JudgeComplete(f: Frame, rest: seq<byte>, last: U64)
    requires Legal(f)
    ensures Judge(FrameBytes(f) + rest, last) ==
            if f.command.Sequence() > last then Good(f, rest)
            else Bad(ProtocolError(SequenceOutOfOrder, KindOf(f.command)))
  {
    var bs := FrameBytes(f) + rest;
    HeaderPasses(f);
    PayloadRoundTrip(f.command);
    Cut(HeaderBytes(HeaderOf(f)), PayloadOf(f.command), rest);
    PayloadTaken(f, rest, last);
  }

  lemma Cut(a: seq<byte>, b: seq<byte>, c: seq<byte>)
    ensures (a + b + c)[..|a|] == a && (a + b + c)[|a|..] == b + c
  {
  }

  lemma PayloadTaken(f: Frame, rest: seq<byte>, last: U64)
    requires Legal(f)
    ensures JudgePayload(HeaderOf(f), PayloadOf(f.command) + rest, last) ==
            if f.command.Sequence() > last then Good(f, rest)
            else Bad(ProtocolError(SequenceOutOfOrder, KindOf(f.command)))
  {
    var p := PayloadOf(f.command);
    PayloadRoundTrip(f.command);
    assert (p + rest)[..|p|] == p && (p + rest)[|p|..] == rest;
  }

  // ----- a whole stream -----

  /** `last` and `rest` are where reading stands: the sequence number last taken and the unread bytes. */
  datatype Reading = Reading(frames: seq<Frame>, error: Option<ProtocolError>, last: U64, rest: seq<byte>)
  {
    function After(fs: seq<Frame>): Reading { this.(frames := fs + frames) }
  }

  /** Read until the bytes run out or something is wrong.  `room` answers the attempts to
      enqueue, in order; reading pauses at an attempt that has no answer yet. */
  function Read(bs: seq<byte>, last: U64, room: seq<bool>): Reading
    decreases |room|, 1
  {
    Proceed(Judge(bs, last), bs, last, room)
  }

  function Proceed(v: Verdict, bs: seq<byte>, last: U64, room: seq<bool>): Reading
    decreases |room|, 0
  {
    match v
    case Incomplete => Reading([], None, last, bs)
    case Bad(e) => Reading([], Some(e), last, bs)
    case Good(f, rest) =>
      if room == [] then Reading([], None, last, bs)
      else if !room[0] then Reading([], Some(Overload(f)), last, bs)
      else Read(rest, f.command.Sequence(), room[1..]).After([f])
  }

  function Overload(f: Frame): ProtocolError { ProtocolError(SessionOverloaded, KindOf(f.command)) }

  /** Strictly increasing sequence numbers, all above `last`. */
  predicate Increasing(last: U64, fs: seq<Frame>)
    decreases |fs|
  {
    fs == [] || (fs[0].command.Sequence() > last && Increasing(fs[0].command.Sequence(), fs[1..]))
  }

  function LastOf(last: U64, fs: seq<Frame>): U64 {
    if fs == [] then last else fs[|fs| - 1].command.Sequence()
  }

  /** Why reading stands where it does. */
  predicate Justified(r: Reading, room: seq<bool>) {
    var v, n := Judge(r.rest, r.last), |r.frames|;
    match r.error
    case None => v.Incomplete? || (v.Good? && n == |room|)
    case Some(e) => v == Bad(e) || (v.Good? && n < |room| && !room[n] && e == ProtocolError(SessionOverloaded, KindOf(v.frame.command)))
  }

  /** What was taken is a prefix of the stream, frame by frame, with increasing sequence
      numbers and room for each. */
  predicate Faithful(bs: seq<byte>, last: U64, room: seq<bool>, r: Reading) {
    && bs == Stream(r.frames) + r.rest
    && AllLegal(r.frames) && RoomFor(|r.frames|, room)
    && Increasing(last, r.frames) && r.last == LastOf(last, r.frames)
  }

  lemma FaithfulAfter(f: Frame, rest: seq<byte>, last: U64, room: seq<bool>, t: Reading)
    requires Legal(f) && f.command.Sequence() > last && room != [] && room[0]
    requires Faithful(rest, f.command.Sequence(), room[1..], t)
    ensures Faithful(FrameBytes(f) + rest, last, room, t.After([f]))
  {
    var r := t.After([f]);
    assert r.frames[1..] == t.frames;
    assert FrameBytes(f) + (Stream(t.frames) + t.rest) == FrameBytes(f) + Stream(t.frames) + t.rest;
    assert forall i :: 0 < i < |r.frames| ==> r.frames[i] == t.frames[i - 1] && room[i] == room[1..][i - 1];
  }

  lemma JustifiedAfter(f: Frame, room: seq<bool>, t: Reading)
    requires room != [] && Justified(t, room[1..])
    ensures Justified(t.After([f]), room)
  {
  }

  /** Whatever the bytes and the queue: reading is faithful, and stands at the first frame
      that is incomplete, wrong or refused. */
  lemma {:induction false} ReadSound(bs: seq<byte>, last: U64, room: seq<bool>)
    ensures Faithful(bs, last, room, Read(bs, last, room)) && Justified(Read(bs, last, room), room)
    decreases |room|
  {
    var v := Judge(bs, last);
    if v.Good? && room != [] && room[0] {
      var t := Read(v.rest, v.frame.command.Sequence(), room[1..]);
      JudgeSound(bs, last);
      ReadSound(v.rest, v.frame.command.Sequence(), room[1..]);
      ReadOn(bs, last, room);
      FaithfulAfter(v.frame, v.rest, last, room, t);
      JustifiedAfter(v.frame, room, t);
    }
  }

  lemma ReadOn(bs: seq<byte>, last: U64, room: seq<bool>)
    requires Judge(bs, last).Good? && room != [] && room[0]
    ensures var v := Judge(bs, last);
            Read(bs, last, room) == Read(v.rest, v.frame.command.Sequence(), room[1..]).After([v.frame])
  {
  }

  lemma ReadFrame(f: Frame, rest: seq<byte>, last: U64, room: seq<bool>)
    requires Legal(f) && f.command.Sequence() > last && room != [] && room[0]
    ensures Read(FrameBytes(f) + rest, last, room) == Read(rest, f.command.Sequence(), room[1..]).After([f])
  {
    JudgeComplete(f, rest, last);
    ReadOn(FrameBytes(f) + rest, last, room);
  }

  lemma AfterAll(fs: seq<Frame>, t: Reading)
    requires fs != []
    ensures t.After(fs[1..]).After([fs[0]]) == t.After(fs)
  {
    assert [fs[0]] + (fs[1..] + t.frames) == fs + t.frames;
  }

  predicate AllLegal(fs: seq<Frame>) { forall i :: 0 <= i < |fs| ==> Legal(fs[i]) }

  /** There is room for the next `n` commands. */
  predicate RoomFor(n: nat, room: seq<bool>) { n <= |room| && forall i :: 0 <= i < n ==> room[i] }

  lemma Shifted(fs: seq<Frame>, room: seq<bool>)
    requires fs != [] && AllLegal(fs) && RoomFor(|fs|, room)
    ensures Legal(fs[0]) && room[0] && AllLegal(fs[1..]) && RoomFor(|fs[1..]|, room[1..])
    ensures room[1..][|fs[1..]|..] == room[|fs|..] && LastOf(fs[0].command.Sequence(), fs[1..]) == LastOf(0, fs)
  {
  }

  /** Legal frames with increasing sequence numbers are all taken, whatever follows them. */
  lemma {:induction false} ReadComplete(fs: seq<Frame>, tail: seq<byte>, last: U64, room: seq<bool>)
    requires AllLegal(fs) && Increasing(last, fs) && RoomFor(|fs|, room)
    ensures Read(Stream(fs) + tail, last, room) == Read(tail, LastOf(last, fs), room[|fs|..]).After(fs)
    decreases |fs|
  {
    if fs == [] {
      assert [] + tail == tail && room[0..] == room;
    } else {
      var rest := Stream(fs[1..]) + tail;
      Shifted(fs, room);
      assert Stream(fs) + tail == FrameBytes(fs[0]) + rest;
      ReadFrame(fs[0], rest, last, room);
      ReadComplete(fs[1..], tail, fs[0].command.Sequence(), room[1..]);
      AfterAll(fs, Read(tail, LastOf(last, fs), room[|fs|..]));
    }
  }

  /** The encodings of encodable commands in sequence order, one after the other, read
      back as the same commands with nothing left over. */
  lemma StreamRoundTrip(fs: seq<Frame>, room: seq<bool>)
    requires AllLegal(fs) && Increasing(0, fs) && RoomFor(|fs|, room)
    ensures Read(Stream(fs), 0, room) == Reading(fs, None, LastOf(0, fs), [])
  {
    ReadComplete(fs, [], 0, room);
    assert Stream(fs) + [] == Stream(fs);
    assert fs + [] == fs;
  }

  /** Good frames and then a fault: the good ones are taken, the fault is reported, and
      nothing behind it matters. */
  lemma FirstFaultStops(fs: seq<Frame>, tail: seq<byte>, room: seq<bool>, e: ProtocolError)
    requires AllLegal(fs) && Increasing(0, fs) && RoomFor(|fs|, room) && Judge(tail, LastOf(0, fs)) == Bad(e)
    ensures Read(Stream(fs) + tail, 0, room) == Reading(fs, Some(e), LastOf(0, fs), tail)
  {
    ReadComplete(fs, tail, 0, room);
    assert fs + [] == fs;
  }

  // ----- the reader as a state machine -----

  datatype Stage = AwaitHeader | AwaitPayload(h: Header) | Stopped

  /** `input` holds the bytes that have arrived and are not consumed. */
  datatype Session = Session(stage: Stage, last: U64, input: seq<byte>, taken: seq<Frame>, errors: seq<ProtocolError>)
  {
    function Fail(e: ProtocolError): Session { this.(stage := Stopped, errors := errors + [e]) }
  }

  const CONNECTED: Session := Session(AwaitHeader, 0, [], [], [])

  /** Bytes arrive in any chunks; the two completion handlers run whenever they can. */
  datatype Event = Arrive(bytes: seq<byte>) | HeaderRead | PayloadRead(room: bool)

  predicate Enabled(s: Session, e: Event) {
    match e
    case Arrive(_) => true
    case HeaderRead => s.stage.AwaitHeader? && |s.input| >= HEADER_SIZE
    case PayloadRead(_) => s.stage.AwaitPayload? && |s.input| >= s.stage.h.length
  }

  function OnHeader(s: Session): Session
    requires Enabled(s, HeaderRead)
  {
    var h := DecodeHeader(s.input[..HEADER_SIZE]).value;
    match ValidateHeader(h)
    case Some(code) => s.Fail(ProtocolError(code, h.kind))
    case None => s.(stage := AwaitPayload(h), input := s.input[HEADER_SIZE..])
  }

  function OnPayload(s: Session, room: bool): Session
    requires Enabled(s, PayloadRead(room))
  {
    var h := s.stage.h;
    match DecodePayload(h.kind, s.input[..h.length])
    case Err(code) => s.Fail(ProtocolError(code, h.kind))
    case Ok(c) =>
      if c.Sequence() <= s.last then s.Fail(ProtocolError(SequenceOutOfOrder, h.kind))
      else if !room then s.Fail(ProtocolError(SessionOverloaded, h.kind))
      else Session(AwaitHeader, c.Sequence(), s.input[h.length..], s.taken + [Frame(h.flags, c)], s.errors)
  }

  function Step(s: Session, e: Event): Session {
    if !Enabled(s, e) then s
    else
      match e
      case Arrive(bytes) => s.(input := s.input + bytes)
      case HeaderRead => OnHeader(s)
      case PayloadRead(room) => OnPayload(s, room)
  }

  /** The queue's answer, if this event tries to enqueue. */
  function Asked(s: Session, e: Event): seq<bool> {
    if e.PayloadRead? && Enabled(s, e) && JudgePayload(s.stage.h, s.input, s.last).Good? then [e.room] else []
  }

  function Came(e: Event): seq<byte> { if e.Arrive? then e.bytes else [] }

  function Run(s: Session, es: seq<Event>): Session
    decreases |es|
  {
    if es == [] then s else Run(Step(s, es[0]), es[1..])
  }

  function Arrived(es: seq<Event>): seq<byte>
    decreases |es|
  {
    if es == [] then [] else Came(es[0]) + Arrived(es[1..])
  }

  function Answers(s: Session, es: seq<Event>): seq<bool>
    decreases |es|
  {
    if es == [] then [] else Asked(s, es[0]) + Answers(Step(s, es[0]), es[1..])
  }

  function Errors(r: Reading): seq<ProtocolError> { if r.error.Some? then [r.error.value] else [] }

  /** What will have been taken and reported once `more` bytes and the answers `room` are used up. */
  function Outcome(s: Session, more: seq<byte>, room: seq<bool>): (seq<Frame>, seq<ProtocolError>) {
    match s.stage
    case Stopped => (s.taken, s.errors)
    case AwaitHeader => Join(s, Read(s.input + more, s.last, room))
    case AwaitPayload(h) => Join(s, Proceed(JudgePayload(h, s.input + more, s.last), [], s.last, room))
  }

  function Join(s: Session, r: Reading): (seq<Frame>, seq<ProtocolError>) {
    (s.taken + r.frames, s.errors + Errors(r))
  }

  lemma HeaderStep(s: Session, more: seq<byte>, room: seq<bool>)
    requires Enabled(s, HeaderRead)
    ensures Outcome(OnHeader(s), more, room) == Outcome(s, more, room)
  {
    assert (s.input + more)[..HEADER_SIZE] == s.input[..HEADER_SIZE];
    assert (s.input + more)[HEADER_SIZE..] == s.input[HEADER_SIZE..] + more;
    ProceedAny(Judge(s.input + more, s.last), s.input + more, [], s.last, room);
    assert s.taken + [] == s.taken;
  }

  lemma ProceedAny(v: Verdict, bs: seq<byte>, bs': seq<byte>, last: U64, room: seq<bool>)
    ensures Proceed(v, bs, last, room).frames == Proceed(v, bs', last, room).frames
    ensures Proceed(v, bs, last, room).error == Proceed(v, bs', last, room).error
  {
  }

  lemma PayloadStep(s: Session, answer: bool, more: seq<byte>, room: seq<bool>)
    requires Enabled(s, PayloadRead(answer))
    ensures Outcome(OnPayload(s, answer), more, room) == Outcome(s, more, Asked(s, PayloadRead(answer)) + room)
  {
    var h := s.stage.h;
    assert (s.input + more)[..h.length] == s.input[..h.length];
    assert (s.input + more)[h.length..] == s.input[h.length..] + more;
    assert s.taken + [] == s.taken;
    var v := JudgePayload(h, s.input + more, s.last);
    if v.Good? {
      assert ([answer] + room)[1..] == room;
      if answer {
        var t := Read(v.rest, v.frame.command.Sequence(), room);
        assert s.taken + ([v.frame] + t.frames) == s.taken + [v.frame] + t.frames;
      }
    } else {
      assert [] + room == room;
    }
  }

  lemma StepKeeps(s: Session, e: Event, more: seq<byte>, room: seq<bool>)
    ensures Outcome(Step(s, e), more, room) == Outcome(s, Came(e) + more, Asked(s, e) + room)
  {
    assert [] + more == more && [] + room == room;
    if Enabled(s, e) {
      match e
      case Arrive(bytes) => assert s.input + bytes + more == s.input + (bytes + more);
      case HeaderRead => HeaderStep(s, more, room);
      case PayloadRead(answer) => PayloadStep(s, answer, more, room);
    }
  }

  lemma {:induction false} RunKeeps(s: Session, es: seq<Event>, more: seq<byte>, room: seq<bool>)
    ensures Outcome(Run(s, es), more, room) == Outcome(s, Arrived(es) + more, Answers(s, es) + room)
    decreases |es|
  {
    if es == [] {
      assert [] + more == more && [] + room == room;
    } else {
      var s', t := Step(s, es[0]), es[1..];
      RunKeeps(s', t, more, room);
      StepKeeps(s, es[0], Arrived(t) + more, Answers(s', t) + room);
      assert Came(es[0]) + (Arrived(t) + more) == Came(es[0]) + Arrived(t) + more;
      assert Asked(s, es[0]) + (Answers(s', t) + room) == Asked(s, es[0]) + Answers(s', t) + room;
    }
  }

  /** No handler can run. */
  predicate Quiet(s: Session) {
    match s.stage
    case Stopped => true
    case AwaitHeader => |s.input| < HEADER_SIZE
    case AwaitPayload(h) => |s.input| < h.length
  }

  lemma Finished(s: Session)
    ensures var (frames, errors) := Outcome(s, [], []);
            s.taken <= frames && (Quiet(s) ==> frames == s.taken && errors == s.errors)
  {
    assert s.input + [] == s.input && s.taken + [] == s.taken;
  }

  lemma AtFirst(bs: seq<byte>, room: seq<bool>)
    ensures var r := Read(bs, 0, room); Outcome(CONNECTED, bs, room) == (r.frames, Errors(r))
  {
    var r := Read(bs, 0, room);
    assert [] + bs == bs && [] + r.frames == r.frames && [] + Errors(r) == Errors(r);
  }

  /** For every byte stream, every chunking of it, every interleaving of the handlers and
      every pattern of queue-full answers: what has been taken is a prefix of what `Read`
      takes from all the bytes that arrived; once no handler can run, frames and errors
      are exactly those of `Read`. */
  lemma ReaderIsExact(es: seq<Event>)
    ensures var s, r := Run(CONNECTED, es), Read(Arrived(es), 0, Answers(CONNECTED, es));
            && s.taken <= r.frames
            && (Quiet(s) ==> s.taken == r.frames && s.errors == Errors(r))
  {
    var bs, room := Arrived(es), Answers(CONNECTED, es);
    RunKeeps(CONNECTED, es, [], []);
    assert bs + [] == bs && room + [] == room;
    AtFirst(bs, room);
    Finished(Run(CONNECTED, es));
  }

  /** A stopped session takes nothing more and reports nothing more. */
  lemma {:induction false} StoppedForGood(s: Session, es: seq<Event>)
    requires s.stage.Stopped?
    ensures var s' := Run(s, es); s'.stage.Stopped? && s'.taken == s.taken && s'.errors == s.errors
    decreases |es|
  {
    if es != [] { StoppedForGood(Step(s, es[0]), es[1..]); }
  }

  predicate OneError(s: Session) { |s.errors| == if s.stage.Stopped? then 1 else 0 }

  lemma {:induction false} ErrorStops(s: Session, es: seq<Event>)
    requires OneError(s)
    ensures OneError(Run(s, es))
    decreases |es|
  {
    if es != [] { ErrorStops(Step(s, es[0]), es[1..]); }
  }

  /** The enqueued commands are the in-order decodings of a prefix of the stream, with
      strictly increasing sequence numbers, and there is one error exactly when reading stopped. */
  lemma ReaderIsSafe(es: seq<Event>)
    ensures var s := Run(CONNECTED, es);
            && Stream(s.taken) <= Arrived(es)
            && AllLegal(s.taken) && Increasing(0, s.taken)
            && (s.stage.Stopped? <==> |s.errors| == 1) && |s.errors| <= 1
  {
    var s, r := Run(CONNECTED, es), Read(Arrived(es), 0, Answers(CONNECTED, es));
    ReaderIsExact(es);
    ReadSound(Arrived(es), 0, Answers(CONNECTED, es));
    ErrorStops(CONNECTED, es);
    StreamPrefix(r.frames, |s.taken|);
    IncreasingPrefix(0, r.frames, |s.taken|);
    assert s.taken == r.frames[..|s.taken|];
  }

  lemma {:induction false} StreamPrefix(fs: seq<Frame>, n: nat)
    requires n <= |fs|
    ensures Stream(fs[..n]) <= Stream(fs)
    decreases n
  {
    if n > 0 {
      StreamPrefix(fs[1..], n - 1);
      assert fs[..n][1..] == fs[1..][..n - 1] && fs[..n][0] == fs[0];
      PrefixBehind(FrameBytes(fs[0]), Stream(fs[1..][..n - 1]), Stream(fs[1..]));
    }
  }

  lemma PrefixBehind(a: seq<byte>, b: seq<byte>, c: seq<byte>)
    requires b <= c
    ensures a + b <= a + c
  {
  }

  lemma {:induction false} IncreasingPrefix(last: U64, fs: seq<Frame>, n: nat)
    requires n <= |fs| && Increasing(last, fs)
    ensures Increasing(last, fs[..n])
    decreases n
  {
    if n > 0 {
      IncreasingPrefix(fs[0].command.Sequence(), fs[1..], n - 1);
      assert fs[..n][1..] == fs[1..][..n - 1];
    }
  }
}
