/** The event log: framed, checksummed command records, and their replay. */
module EventLog {
  import opened Types
  import opened Bytes
  import opened Fnv
  import opened Wire

  const RECORD_MAGIC: nat := 0x474C584C
  const RECORD_VERSION: byte := 1
  const RECORD_HEADER: nat := 16
  const RECORD_PAYLOAD_MAX: nat := 40

  datatype LogError =
    | IoError | TruncatedHeader | MalformedHeader | TruncatedPayload | ChecksumMismatch | InvalidCommand | CommandRejected

  /** The bytes the checksum covers: version, type, length, payload. */
  function Covered(kind: byte, payload: seq<byte>): seq<byte> {
    [RECORD_VERSION, kind, |payload| % 256, |payload| / 256 % 256] + payload
  }

  function Checksum(kind: byte, payload: seq<byte>): U64 {
    Fold(OFFSET_BASIS, Covered(kind, payload))
  }

  function RecordHeader(kind: byte, payload: seq<byte>): seq<byte> {
    LE(4, RECORD_MAGIC) + [RECORD_VERSION] + [kind] + LE(2, |payload|) + LE(8, Checksum(kind, payload))
  }

  function Record(c: Command): seq<byte> {
    RecordHeader(KindOf(c), PayloadOf(c)) + PayloadOf(c)
  }

  /** The file after these commands were appended. */
  function Log(cs: seq<Command>): seq<byte> {
    if cs == [] then [] else Record(cs[0]) + Log(cs[1..])
  }

  datatype ReadResult = End | Bad(error: LogError) | Got(command: Command, rest: seq<byte>)

  predicate HeaderOk(bs: seq<byte>)
    requires |bs| >= RECORD_HEADER
  {
    && Val(bs[0..4]) == RECORD_MAGIC && bs[4] == RECORD_VERSION && IsInbound(bs[5])
    && ExpectedLength(bs[5]) == Some(Val(bs[6..8])) && Val(bs[6..8]) <= RECORD_PAYLOAD_MAX
  }

  function ReadRecord(bs: seq<byte>): (r: ReadResult)
    ensures r.Got? ==> |r.rest| < |bs|
  {
    if |bs| == 0 then End
    else if |bs| < RECORD_HEADER then Bad(TruncatedHeader)
    else if !HeaderOk(bs) then Bad(MalformedHeader)
    else
      var kind, size := bs[5], Val(bs[6..8]);
      if |bs| < RECORD_HEADER + size then Bad(TruncatedPayload)
      else
        var payload := bs[RECORD_HEADER..RECORD_HEADER + size];
        if Checksum(kind, payload) != U64At(bs, 8) then Bad(ChecksumMismatch)
        else
          match DecodePayload(kind, payload)
          case Err(_) => Bad(InvalidCommand)
          case Ok(c) => Got(c, bs[RECORD_HEADER + size..])
  }

  /** A deterministic engine: the next state, and whether the command was accepted. */
  type Engine<!S> = (S, Command) -> (S, bool)

  datatype Replayed<+S> = Replayed(error: Option<LogError>, count: nat, state: S)
  {
    function Later(n: nat): Replayed<S> { this.(count := count + n) }
  }

  /** Apply the records from `s` on, stopping at the first that cannot be read or is rejected. */
  function Replay<S>(step: Engine<S>, s: S, bs: seq<byte>): Replayed<S>
    decreases |bs|
  {
    match ReadRecord(bs)
    case End => Replayed(None, 0, s)
    case Bad(e) => Replayed(Some(e), 0, s)
    case Got(c, rest) =>
      var (s', accepted) := step(s, c);
      if accepted then Replay(step, s', rest).Later(1) else Replayed(Some(CommandRejected), 0, s')
  }

  function Drive<S>(step: Engine<S>, s: S, cs: seq<Command>): S
    decreases |cs|
  {
    if cs == [] then s else Drive(step, step(s, cs[0]).0, cs[1..])
  }

  /** What the log relies on: rejected commands change nothing, accepted ones can be encoded. */
  ghost predicate Sound<S(!new)>(step: Engine<S>) {
    forall s, c :: if step(s, c).1 then Encodable(c) else step(s, c).0 == s
  }

  // ----- reading back a record -----

  lemma RecordLayout(c: Command)
    ensures var r, p := Record(c), PayloadOf(c);
            && |r| == RECORD_HEADER + |p| && |p| <= RECORD_PAYLOAD_MAX
            && r[0..4] == LE(4, RECORD_MAGIC) && r[4] == RECORD_VERSION && r[5] == KindOf(c)
            && r[6..8] == LE(2, |p|) && r[8..16] == LE(8, Checksum(KindOf(c), p)) && r[16..] == p
            && ExpectedLength(KindOf(c)) == Some(|p|)
  {
    PayloadRoundTrip(c);
    HeaderLayout(KindOf(c), PayloadOf(c));
  }

  lemma HeaderLayout(kind: byte, p: seq<byte>)
    ensures var h := RecordHeader(kind, p);
            && |h| == RECORD_HEADER
            && h[0..4] == LE(4, RECORD_MAGIC) && h[4] == RECORD_VERSION && h[5] == kind
            && h[6..8] == LE(2, |p|) && h[8..16] == LE(8, Checksum(kind, p))
            && (h + p)[0..4] == h[0..4] && (h + p)[6..8] == h[6..8] && (h + p)[8..16] == h[8..16] && (h + p)[16..] == p
  {
    LayoutIs(LE(4, RECORD_MAGIC), RECORD_VERSION, kind, LE(2, |p|), LE(8, Checksum(kind, p)), p);
  }

  lemma LayoutIs(m: seq<byte>, v: byte, k: byte, n: seq<byte>, s: seq<byte>, p: seq<byte>)
    requires |m| == 4 && |n| == 2 && |s| == 8
    ensures var h := m + [v] + [k] + n + s;
            && |h| == 16 && h[0..4] == m && h[4] == v && h[5] == k && h[6..8] == n && h[8..16] == s
            && (h + p)[0..4] == h[0..4] && (h + p)[6..8] == h[6..8] && (h + p)[8..16] == h[8..16] && (h + p)[16..] == p
  {
  }

  /** What the reader sees depends on the slices of the header alone. */
  lemma ReadBack(c: Command, rest: seq<byte>)
    requires Encodable(c)
    ensures ReadRecord(Record(c) + rest) == Got(c, rest)
  {
    var r, p := Record(c), PayloadOf(c);
    var bs := r + rest;
    RecordLayout(c);
    PayloadRoundTrip(c);
    SameHeader(r, rest);
    HeaderReads(bs, c);
    FieldOf(bs, 8, Checksum(KindOf(c), p));
    PayloadFollows(r, p, rest);
  }

  lemma PayloadFollows(r: seq<byte>, p: seq<byte>, rest: seq<byte>)
    requires |r| == RECORD_HEADER + |p| && r[16..] == p
    ensures (r + rest)[16..16 + |p|] == p && (r + rest)[16 + |p|..] == rest
  {
  }

  lemma SameHeader(r: seq<byte>, rest: seq<byte>)
    requires |r| >= RECORD_HEADER
    ensures var bs := r + rest;
            && bs[0..4] == r[0..4] && bs[4] == r[4] && bs[5] == r[5] && bs[6..8] == r[6..8] && bs[8..16] == r[8..16]
            && bs[16..] == r[16..] + rest
  {
  }

  // ----- accepted histories -----

  /** Every command of the history is accepted when the history is replayed. */
  predicate AllAccepted<S>(step: Engine<S>, s: S, cs: seq<Command>)
    decreases |cs|
  {
    cs == [] || (step(s, cs[0]).1 && AllAccepted(step, step(s, cs[0]).0, cs[1..]))
  }

  lemma LogCons(cs: seq<Command>, tail: seq<byte>)
    requires cs != []
    ensures Log(cs) + tail == Record(cs[0]) + (Log(cs[1..]) + tail)
  {
    Associates(Record(cs[0]), Log(cs[1..]), tail);
  }

  lemma ReplayGot<S(!new)>(step: Engine<S>, s: S, c: Command, rest: seq<byte>)
    requires Sound(step) && step(s, c).1
    ensures Replay(step, s, Record(c) + rest) == Replay(step, step(s, c).0, rest).Later(1)
  {
    ReadBack(c, rest);
  }

  lemma ReplayStops<S>(step: Engine<S>, s: S, bs: seq<byte>)
    requires !ReadRecord(bs).Got?
    ensures Replay(step, s, bs) == Replayed(if ReadRecord(bs).End? then None else Some(ReadRecord(bs).error), 0, s)
  {
  }

  /** The whole records at the front of a log are applied before anything else is read. */
  lemma {:induction false} ReplayThrough<S(!new)>(step: Engine<S>, s: S, cs: seq<Command>, tail: seq<byte>)
    requires Sound(step) && AllAccepted(step, s, cs)
    ensures Replay(step, s, Log(cs) + tail) == Replay(step, Drive(step, s, cs), tail).Later(|cs|)
    decreases |cs|
  {
    if cs == [] {
      assert Log(cs) + tail == tail;
    } else {
      LogCons(cs, tail);
      ReplayGot(step, s, cs[0], Log(cs[1..]) + tail);
      ReplayThrough(step, step(s, cs[0]).0, cs[1..], tail);
    }
  }

  /** The accepted commands of an inbound stream: what the service captures. */
  function Captured<S>(step: Engine<S>, s: S, cs: seq<Command>): seq<Command>
    decreases |cs|
  {
    if cs == [] then []
    else (if step(s, cs[0]).1 then [cs[0]] else []) + Captured(step, step(s, cs[0]).0, cs[1..])
  }

  lemma {:induction false} CapturedReplays<S(!new)>(step: Engine<S>, s: S, cs: seq<Command>)
    requires Sound(step)
    ensures AllAccepted(step, s, Captured(step, s, cs))
    ensures Drive(step, s, Captured(step, s, cs)) == Drive(step, s, cs)
    decreases |cs|
  {
    if cs != [] {
      var s' := step(s, cs[0]).0;
      CapturedReplays(step, s', cs[1..]);
      if step(s, cs[0]).1 {
        assert Captured(step, s, cs)[1..] == Captured(step, s', cs[1..]);
      } else {
        assert s' == s && Captured(step, s, cs) == Captured(step, s, cs[1..]);
      }
    }
  }

  /** For every inbound stream, accepted and rejected commands mixed: replaying the
      log of what was captured succeeds, counts the accepted commands, and
      rebuilds the live state. */
  lemma ReplayRebuilds<S(!new)>(step: Engine<S>, s: S, cs: seq<Command>)
    requires Sound(step)
    ensures Replay(step, s, Log(Captured(step, s, cs))) ==
            Replayed(None, |Captured(step, s, cs)|, Drive(step, s, cs))
  {
    var kept := Captured(step, s, cs);
    CapturedReplays(step, s, cs);
    ReplayThrough(step, s, kept, []);
    assert Log(kept) + [] == Log(kept);
  }

  // ----- positions in a log -----

  /** The record that byte `k` of a log belongs to, and its offset in that record;
      the number of records and 0 for the end of the log. */
  function Locate(cs: seq<Command>, k: nat): (nat, nat)
    requires k <= |Log(cs)|
  {
    if cs == [] then (0, 0)
    else if k < |Record(cs[0])| then (0, k)
    else var (i, j) := Locate(cs[1..], k - |Record(cs[0])|); (i + 1, j)
  }

  lemma {:induction false} LogSplits(cs: seq<Command>, i: nat)
    requires i <= |cs|
    ensures Log(cs) == Log(cs[..i]) + Log(cs[i..])
    decreases i
  {
    if i == 0 {
      assert cs[..0] == [] && cs[0..] == cs;
      assert [] + Log(cs) == Log(cs);
    } else {
      LogSplits(cs[1..], i - 1);
      assert cs[1..][i - 1..] == cs[i..];
      LogPrefix(cs, i);
      LogFirst(cs);
      Associates(Record(cs[0]), Log(cs[1..][..i - 1]), Log(cs[i..]));
    }
  }

  lemma LogFirst(cs: seq<Command>)
    requires cs != []
    ensures Log(cs) == Record(cs[0]) + Log(cs[1..])
  {
  }

  lemma Associates(a: seq<byte>, b: seq<byte>, c: seq<byte>)
    ensures (a + b) + c == a + (b + c)
  {
  }

  lemma LogPrefix(cs: seq<Command>, i: nat)
    requires 0 < i <= |cs|
    ensures Log(cs[..i]) == Record(cs[0]) + Log(cs[1..][..i - 1])
  {
    assert cs[..i][1..] == cs[1..][..i - 1];
  }

  /** Byte `k` of the log is byte `j` of record `i`, or the end of the log. */
  predicate Found(cs: seq<Command>, k: nat, i: nat, j: nat) {
    && i <= |cs| && (if i < |cs| then j < |Record(cs[i])| else j == 0)
    && k == |Log(cs[..i])| + j && (k < |Log(cs)| ==> i < |cs|)
  }

  lemma FoundFirst(cs: seq<Command>, k: nat)
    requires if cs == [] then k == 0 else k < |Record(cs[0])|
    ensures Found(cs, k, 0, k)
  {
    assert cs[..0] == [];
  }

  lemma FoundLater(cs: seq<Command>, k: nat, i: nat, j: nat)
    requires cs != [] && k >= |Record(cs[0])| && Found(cs[1..], k - |Record(cs[0])|, i, j)
    ensures Found(cs, k, i + 1, j)
  {
    LogFirst(cs);
    LogPrefix(cs, i + 1);
  }

  lemma {:induction false} Located(cs: seq<Command>, k: nat)
    requires k <= |Log(cs)|
    ensures Found(cs, k, Locate(cs, k).0, Locate(cs, k).1)
    decreases |cs|
  {
    if cs == [] || k < |Record(cs[0])| {
      FoundFirst(cs, k);
    } else {
      var n := |Record(cs[0])|;
      LogFirst(cs);
      Located(cs[1..], k - n);
      FoundLater(cs, k, Locate(cs[1..], k - n).0, Locate(cs[1..], k - n).1);
    }
  }

  lemma {:induction false} AcceptedPrefix<S>(step: Engine<S>, s: S, cs: seq<Command>, i: nat)
    requires AllAccepted(step, s, cs) && i <= |cs|
    ensures AllAccepted(step, s, cs[..i])
    ensures i < |cs| ==> step(Drive(step, s, cs[..i]), cs[i]).1
    decreases i
  {
    if i > 0 {
      AcceptedPrefix(step, step(s, cs[0]).0, cs[1..], i - 1);
      assert cs[..i][1..] == cs[1..][..i - 1];
    } else {
      assert cs[..i] == [];
    }
  }

  // ----- truncation -----

  lemma ReadTruncated(c: Command, j: nat)
    requires j < |Record(c)|
    ensures ReadRecord(Record(c)[..j]) ==
            if j == 0 then End else if j < RECORD_HEADER then Bad(TruncatedHeader) else Bad(TruncatedPayload)
  {
    if j >= RECORD_HEADER {
      RecordLayout(c);
      CutHeader(Record(c), j);
      HeaderReads(Record(c)[..j], c);
    }
  }

  lemma CutHeader(r: seq<byte>, j: nat)
    requires RECORD_HEADER <= j <= |r|
    ensures r[..j][0..4] == r[0..4] && r[..j][4] == r[4] && r[..j][5] == r[5] && r[..j][6..8] == r[6..8]
  {
  }

  /** A header with a command's magic, version, type and length passes. */
  lemma HeaderReads(bs: seq<byte>, c: Command)
    requires |bs| >= RECORD_HEADER && bs[0..4] == LE(4, RECORD_MAGIC) && bs[4] == RECORD_VERSION
    requires bs[5] == KindOf(c) && bs[6..8] == LE(2, |PayloadOf(c)|)
    ensures HeaderOk(bs) && Val(bs[6..8]) == |PayloadOf(c)|
  {
    RecordLayout(c);
    Pow256Is64();
    ValOfLE(4, RECORD_MAGIC);
    ValOfLE(2, |PayloadOf(c)|);
  }

  /** Replaying any byte prefix of the log of an accepted history applies exactly
      the whole records of the prefix: it succeeds at a record boundary, reports a
      truncated header for 1 to 15 leftover bytes, and a truncated payload otherwise. */
  lemma TruncationIsReported<S(!new)>(step: Engine<S>, s: S, cs: seq<Command>, k: nat)
    requires Sound(step) && AllAccepted(step, s, cs) && k <= |Log(cs)|
    ensures var (i, j) := Locate(cs, k);
            && i <= |cs|
            && Replay(step, s, Log(cs)[..k]) ==
               Replayed(if j == 0 then None else if j < RECORD_HEADER then Some(TruncatedHeader) else Some(TruncatedPayload),
                        i, Drive(step, s, cs[..i]))
  {
    var i, j := Where(cs, k);
    var left := CutTail(cs, k, i, j);
    AcceptedPrefix(step, s, cs, i);
    EndsBehind(step, s, cs[..i], left);
  }

  lemma Where(cs: seq<Command>, k: nat) returns (i: nat, j: nat)
    requires k <= |Log(cs)|
    ensures (i, j) == Locate(cs, k) && i <= |cs| && k == |Log(cs[..i])| + j
    ensures if i < |cs| then j < |Record(cs[i])| else j == 0
    ensures k < |Log(cs)| ==> i < |cs|
  {
    Located(cs, k);
    i, j := Locate(cs, k).0, Locate(cs, k).1;
  }

  /** What reading gives for a record cut after `j` bytes, or for nothing at the end of the log. */
  function CutReads(j: nat): ReadResult {
    if j == 0 then End else if j < RECORD_HEADER then Bad(TruncatedHeader) else Bad(TruncatedPayload)
  }

  /** The log cut `j` bytes into record `i`: the records before it, then bytes that do not read as a record. */
  lemma CutTail(cs: seq<Command>, k: nat, i: nat, j: nat) returns (left: seq<byte>)
    requires i <= |cs| && (if i < |cs| then j < |Record(cs[i])| else j == 0) && k == |Log(cs[..i])| + j && k <= |Log(cs)|
    ensures Log(cs)[..k] == Log(cs[..i]) + left && ReadRecord(left) == CutReads(j)
  {
    left := if i < |cs| then Record(cs[i])[..j] else [];
    LogSplits(cs, i);
    PrefixIs(cs, i, j, left);
    if i < |cs| { ReadTruncated(cs[i], j); }
  }

  /** An accepted history followed by bytes that do not read as a record. */
  lemma EndsBehind<S(!new)>(step: Engine<S>, s: S, cs: seq<Command>, left: seq<byte>)
    requires Sound(step) && AllAccepted(step, s, cs) && !ReadRecord(left).Got?
    ensures Replay(step, s, Log(cs) + left) ==
            Replayed(if ReadRecord(left).Bad? then Some(ReadRecord(left).error) else None, |cs|, Drive(step, s, cs))
  {
    ReplayThrough(step, s, cs, left);
    ReplayStops(step, Drive(step, s, cs), left);
  }

  lemma PrefixIs(cs: seq<Command>, i: nat, j: nat, left: seq<byte>)
    requires i <= |cs| && Log(cs) == Log(cs[..i]) + Log(cs[i..])
    requires if i < |cs| then j < |Record(cs[i])| && left == Record(cs[i])[..j] else j == 0 && left == []
    ensures |Log(cs[..i])| + j <= |Log(cs)| && Log(cs)[..|Log(cs[..i])| + j] == Log(cs[..i]) + left
  {
    if i < |cs| { assert Log(cs[i..]) == Record(cs[i]) + Log(cs[i + 1..]) by { assert cs[i..][1..] == cs[i + 1..]; } }
  }

  // ----- corruption -----

  lemma ValDiffers(bs: seq<byte>, v: nat)
    requires bs != LE(|bs|, v)
    ensures Val(bs) != v
  {
    LEOfVal(bs);
  }

  lemma CorruptHeader(c: Command, j: nat, v: byte, rest: seq<byte>)
    requires j < 8 && j < |Record(c)| && v != Record(c)[j]
    ensures ReadRecord(Record(c)[j := v] + rest) == Bad(MalformedHeader)
  {
    var r := Record(c);
    var r' := r[j := v];
    RecordLayout(c);
    SameHeader(r', rest);
    HeaderFails(r', c, j);
  }

  /** Damage to magic, version, type or length never passes: no other inbound type
      has the same fixed length. */
  lemma HeaderFails(r: seq<byte>, c: Command, j: nat)
    requires |r| >= RECORD_HEADER && j < 8 && j < |Record(c)| && r[j] != Record(c)[j]
    requires forall i :: 0 <= i < 8 && i != j && i < |Record(c)| ==> r[i] == Record(c)[i]
    ensures !HeaderOk(r)
  {
    RecordLayout(c);
    if j < 4 {
      MagicFails(r, Record(c), j);
    } else if j == 5 {
      assert r[6..8] == Record(c)[6..8];
      TypeFails(r, c);
    } else if j >= 6 {
      LengthFails(r, Record(c), |PayloadOf(c)|, j);
    }
  }

  lemma MagicFails(r: seq<byte>, was: seq<byte>, j: nat)
    requires |r| >= RECORD_HEADER && |was| >= RECORD_HEADER && was[0..4] == LE(4, RECORD_MAGIC) && j < 4 && r[j] != was[j]
    ensures Val(r[0..4]) != RECORD_MAGIC
  {
    assert r[0..4][j] == r[j] && was[0..4][j] == was[j];
    ValDiffers(r[0..4], RECORD_MAGIC);
  }

  lemma LengthFails(r: seq<byte>, was: seq<byte>, n: nat, j: nat)
    requires |r| >= RECORD_HEADER && |was| >= RECORD_HEADER && was[6..8] == LE(2, n) && 6 <= j < 8 && r[j] != was[j]
    ensures Val(r[6..8]) != n
  {
    assert r[6..8][j - 6] == r[j] && was[6..8][j - 6] == was[j];
    ValDiffers(r[6..8], n);
  }

  lemma TypeFails(r: seq<byte>, c: Command)
    requires |r| >= RECORD_HEADER && r[5] != KindOf(c) && r[6..8] == LE(2, |PayloadOf(c)|)
    ensures !HeaderOk(r)
  {
    PayloadRoundTrip(c);
    Pow256Is64();
    ValOfLE(2, |PayloadOf(c)|);
  }

  lemma CorruptChecksum(c: Command, j: nat, v: byte, rest: seq<byte>)
    requires 8 <= j < RECORD_HEADER && j < |Record(c)| && v != Record(c)[j]
    ensures ReadRecord(Record(c)[j := v] + rest) == Bad(ChecksumMismatch)
  {
    var p, r' := PayloadOf(c), Record(c)[j := v];
    RecordLayout(c);
    SameHeader(r', rest);
    assert r'[0..4] == Record(c)[0..4] && r'[6..8] == Record(c)[6..8] && r'[16..] == p;
    var bs := r' + rest;
    HeaderReads(bs, c);
    assert bs[16..16 + |p|] == p;
    assert bs[8..16][j - 8] != LE(8, Checksum(KindOf(c), p))[j - 8];
    ValDiffers(bs[8..16], Checksum(KindOf(c), p));
  }

  lemma CorruptPayload(c: Command, j: nat, v: byte, rest: seq<byte>)
    requires RECORD_HEADER <= j < |Record(c)| && v != Record(c)[j]
    ensures ReadRecord(Record(c)[j := v] + rest) == Bad(ChecksumMismatch)
  {
    var kind, p, r' := KindOf(c), PayloadOf(c), Record(c)[j := v];
    RecordLayout(c);
    SameHeader(r', rest);
    assert r'[0..4] == Record(c)[0..4] && r'[6..8] == Record(c)[6..8] && r'[8..16] == Record(c)[8..16];
    var bs := r' + rest;
    HeaderReads(bs, c);
    FieldOf(bs, 8, Checksum(kind, p));
    PayloadDamaged(kind, p, j - 16, v);
    assert bs[16..16 + |p|] == p[j - 16 := v];
  }

  lemma PayloadDamaged(kind: byte, p: seq<byte>, i: nat, v: byte)
    requires i < |p| && v != p[i]
    ensures Checksum(kind, p[i := v]) != Checksum(kind, p)
  {
    var head := Covered(kind, p)[..4];
    assert Covered(kind, p) == head + p && Covered(kind, p[i := v]) == head + p[i := v];
    SetBehind(head, p, i, v);
    OneByteDetected(OFFSET_BASIS, Covered(kind, p), i + 4, v);
  }

  lemma SetBehind(a: seq<byte>, p: seq<byte>, i: nat, v: byte)
    requires i < |p|
    ensures a + p[i := v] == (a + p)[|a| + i := v] && (a + p)[|a| + i] == p[i]
  {
  }

  lemma CorruptRecord(c: Command, j: nat, v: byte, rest: seq<byte>)
    requires j < |Record(c)| && v != Record(c)[j]
    ensures ReadRecord(Record(c)[j := v] + rest) == Bad(if j < 8 then MalformedHeader else ChecksumMismatch)
  {
    if j < 8 {
      CorruptHeader(c, j, v, rest);
    } else if j < RECORD_HEADER {
      CorruptChecksum(c, j, v, rest);
    } else {
      CorruptPayload(c, j, v, rest);
    }
  }

  lemma LogAround(cs: seq<Command>, i: nat)
    requires i < |cs|
    ensures Log(cs) == Log(cs[..i]) + (Record(cs[i]) + Log(cs[i + 1..]))
  {
    LogSplits(cs, i);
    assert cs[i..][1..] == cs[i + 1..];
  }

  /** The tail of a log from record `i` on, with byte `j` of that record changed. */
  function Damaged(cs: seq<Command>, i: nat, j: nat, v: byte): seq<byte>
    requires i < |cs| && j < |Record(cs[i])|
  {
    Record(cs[i])[j := v] + Log(cs[i + 1..])
  }

  lemma DamagedAt(cs: seq<Command>, k: nat, i: nat, j: nat, v: byte)
    requires i < |cs| && j < |Record(cs[i])| && k == |Log(cs[..i])| + j
    ensures k < |Log(cs)| && Record(cs[i])[j] == Log(cs)[k]
    ensures Log(cs)[k := v] == Log(cs[..i]) + Damaged(cs, i, j, v)
  {
    LogAround(cs, i);
    SetInWhole(Log(cs), Log(cs[..i]), Record(cs[i]), Log(cs[i + 1..]), k, j, v);
  }

  lemma DamagedReads(cs: seq<Command>, i: nat, j: nat, v: byte)
    requires i < |cs| && j < |Record(cs[i])| && v != Record(cs[i])[j]
    ensures ReadRecord(Damaged(cs, i, j, v)) == Bad(if j < 8 then MalformedHeader else ChecksumMismatch)
  {
    CorruptRecord(cs[i], j, v, Log(cs[i + 1..]));
  }

  lemma SetInWhole(w: seq<byte>, a: seq<byte>, r: seq<byte>, b: seq<byte>, k: nat, j: nat, v: byte)
    requires j < |r| && w == a + (r + b) && k == |a| + j
    ensures k < |w| && w[k] == r[j] && w[k := v] == a + (r[j := v] + b)
  {
    SetInMiddle(a, r, b, j, v);
  }

  lemma SetInMiddle(a: seq<byte>, r: seq<byte>, b: seq<byte>, j: nat, v: byte)
    requires j < |r|
    ensures |a| + j < |a + (r + b)| && (a + (r + b))[|a| + j] == r[j]
    ensures (a + (r + b))[|a| + j := v] == a + (r[j := v] + b)
  {
  }

  /** The log with byte `j` of record `i` changed to `v`: the records before it, then bytes that
      do not read as a record. */
  lemma CorruptTail(cs: seq<Command>, k: nat, i: nat, j: nat, v: byte) returns (bad: seq<byte>)
    requires i < |cs| && j < |Record(cs[i])| && k == |Log(cs[..i])| + j && k < |Log(cs)| && v != Log(cs)[k]
    ensures Log(cs)[k := v] == Log(cs[..i]) + bad
    ensures ReadRecord(bad) == Bad(if j < 8 then MalformedHeader else ChecksumMismatch)
  {
    bad := Damaged(cs, i, j, v);
    DamagedAt(cs, k, i, j, v);
    DamagedReads(cs, i, j, v);
  }

  /** Changing any one byte of the log of an accepted history to any other value
      makes replay stop at the record that holds the byte, with everything before
      it applied: a malformed header for its first 8 bytes, a checksum mismatch
      for every later byte. */
  lemma CorruptionIsDetected<S(!new)>(step: Engine<S>, s: S, cs: seq<Command>, k: nat, v: byte)
    requires Sound(step) && AllAccepted(step, s, cs) && k < |Log(cs)| && v != Log(cs)[k]
    ensures var (i, j) := Locate(cs, k);
            && i < |cs|
            && Replay(step, s, Log(cs)[k := v]) ==
               Replayed(Some(if j < 8 then MalformedHeader else ChecksumMismatch), i, Drive(step, s, cs[..i]))
  {
    var i, j := Where(cs, k);
    var bad := CorruptTail(cs, k, i, j, v);
    AcceptedPrefix(step, s, cs, i);
    EndsBehind(step, s, cs[..i], bad);
  }

  // ----- sound records that cannot be applied -----

  /** A record of any type and payload, with the right length and checksum. */
  function RawRecord(kind: byte, p: seq<byte>): seq<byte> { RecordHeader(kind, p) + p }

  lemma RawHeaderReads(bs: seq<byte>, kind: byte, n: nat)
    requires |bs| >= RECORD_HEADER && bs[0..4] == LE(4, RECORD_MAGIC) && bs[4] == RECORD_VERSION
    requires bs[5] == kind && bs[6..8] == LE(2, n) && IsInbound(kind) && ExpectedLength(kind) == Some(n)
    ensures HeaderOk(bs) && Val(bs[6..8]) == n
  {
    Pow256Is64();
    ValOfLE(4, RECORD_MAGIC);
    ValOfLE(2, n);
  }

  lemma UndecodableReads(kind: byte, p: seq<byte>, rest: seq<byte>)
    requires IsInbound(kind) && ExpectedLength(kind) == Some(|p|) && DecodePayload(kind, p).Err?
    ensures ReadRecord(RawRecord(kind, p) + rest) == Bad(InvalidCommand)
  {
    var r := RawRecord(kind, p);
    var bs := r + rest;
    HeaderLayout(kind, p);
    SameHeader(r, rest);
    RawHeaderReads(bs, kind, |p|);
    FieldOf(bs, 8, Checksum(kind, p));
    PayloadFollows(r, p, rest);
  }

  /** Behind an accepted history, a record whose checksum is right and whose payload decodes to
      nothing stops replay with everything before it applied. */
  lemma UndecodableStops<S(!new)>(step: Engine<S>, s: S, cs: seq<Command>, kind: byte, p: seq<byte>, rest: seq<byte>)
    requires Sound(step) && AllAccepted(step, s, cs)
    requires IsInbound(kind) && ExpectedLength(kind) == Some(|p|) && DecodePayload(kind, p).Err?
    ensures Replay(step, s, Log(cs) + (RawRecord(kind, p) + rest)) == Replayed(Some(InvalidCommand), |cs|, Drive(step, s, cs))
  {
    UndecodableReads(kind, p, rest);
    EndsBehind(step, s, cs, RawRecord(kind, p) + rest);
  }

  /** And a record whose command the engine refuses stops it as a rejected command. */
  lemma RefusedStops<S(!new)>(step: Engine<S>, s: S, cs: seq<Command>, c: Command, rest: seq<byte>)
    requires Sound(step) && AllAccepted(step, s, cs) && Encodable(c) && !step(Drive(step, s, cs), c).1
    ensures Replay(step, s, Log(cs) + (Record(c) + rest)) == Replayed(Some(CommandRejected), |cs|, Drive(step, s, cs))
  {
    var tail := Record(c) + rest;
    ReadBack(c, rest);
    ReplayThrough(step, s, cs, tail);
    ReplayRefuses(step, Drive(step, s, cs), c, tail);
  }

  lemma ReplayRefuses<S(!new)>(step: Engine<S>, s: S, c: Command, bs: seq<byte>)
    requires Sound(step) && ReadRecord(bs).Got? && ReadRecord(bs).command == c && !step(s, c).1
    ensures Replay(step, s, bs) == Replayed(Some(CommandRejected), 0, s)
  {
  }
}
