/** Replaying a log into the order book: the log writer, the checksum loop and the
    replay loop, and what replaying the log of the accepted commands gives. */
module LogReplay {
  import opened Types
  import opened Bytes
  import opened Fnv
  import opened Wire
  import opened BookSpec
  import opened BookInvariant
  import opened BookDigest
  import opened EventLog
  import opened OrderBooks
  import ReferenceBooks
  import Spsc

  /** The order book as an engine. */
  function BookStep(b: Book, c: Command): (Book, bool) {
    (Apply(b, c).0, Apply(b, c).1.Accepted())
  }

  lemma BookStepSound()
    ensures Sound(BookStep)
  {
    forall b, c ensures if BookStep(b, c).1 then Encodable(c) else BookStep(b, c).0 == b {
      if !BookStep(b, c).1 { RejectedChangesNothing(b, c); }
    }
  }

  lemma {:induction false} DriveIsRun(b: Book, cs: seq<Command>)
    ensures Drive(BookStep, b, cs) == Run(b, cs)
    decreases |cs|
  {
    if cs != [] { DriveIsRun(Apply(b, cs[0]).0, cs[1..]); }
  }

  /** Replaying the log of the accepted commands
      succeeds, counts them, and ends in a book with the live book's digest. */
  lemma AcceptedLogReplays(cs: seq<Command>)
    ensures var kept := Captured(BookStep, EMPTY, cs);
            var r := Replay(BookStep, EMPTY, Log(kept));
            r.error == None && r.count == |kept| && r.state == Run(EMPTY, cs) && Digest(r.state) == Digest(Run(EMPTY, cs))
  {
    BookStepSound();
    ReplayRebuilds(BookStep, EMPTY, cs);
    DriveIsRun(EMPTY, cs);
  }

  /** Mixing the next byte brings the fold of all bytes one byte nearer. */
  lemma FoldNext(h: U64, bs: seq<byte>, k: nat)
    requires k < |bs|
    ensures Fold(h, bs[k..]) == Fold(Mix(h, bs[k]), bs[k + 1..])
  {
    assert bs[k..][0] == bs[k] && bs[k..][1..] == bs[k + 1..];
  }

  method MixByte(h: U64, x: byte, ghost bs: seq<byte>, ghost k: nat) returns (h': U64)
    requires k < |bs| && bs[k] == x
    ensures Fold(h', bs[k + 1..]) == Fold(h, bs[k..])
  {
    FoldNext(h, bs, k);
    h' := Mix(h, x);
  }

  /** The checksum, one byte at a time. */
  method ComputeChecksum(kind: byte, payload: seq<byte>) returns (hash: U64)
    ensures hash == Checksum(kind, payload)
  {
    ghost var all := Covered(kind, payload);
    assert all[0..] == all;
    hash := OFFSET_BASIS;
    hash := MixByte(hash, RECORD_VERSION, all, 0);
    hash := MixByte(hash, kind, all, 1);
    hash := MixByte(hash, |payload| % 256, all, 2);
    hash := MixByte(hash, |payload| / 256 % 256, all, 3);
    for i := 0 to |payload|
      invariant Fold(hash, all[i + 4..]) == Checksum(kind, payload)
    {
      hash := MixByte(hash, payload[i], all, i + 4);
    }
  }

  /** The bytes of a record that reach the file if the stream takes at most `n`. */
  function Taken(record: seq<byte>, n: nat): seq<byte> { record[..if n < |record| then n else |record|] }

  /** What appending `c` adds to the file: a whole record, or the part a failing stream took. */
  function Landed(good: bool, c: Command, written: Option<nat>): seq<byte> {
    if !good then [] else if written.None? then Record(c) else Taken(Record(c), written.value)
  }

  lemma LandedIs(c: Command, written: Option<nat>)
    ensures Landed(false, c, written) == [] && Landed(true, c, None) == Record(c)
    ensures written.Some? ==>
              var n := |Landed(true, c, written)|;
              n == (if written.value < |Record(c)| then written.value else |Record(c)|) && Landed(true, c, written) == Record(c)[..n]
  {
  }

  /** An append-only file.  `good` is the stream state. */
  class EventLogWriter {
    var output: seq<byte>
    var good: bool

    constructor (isOpen: bool)
      ensures output == [] && good == isOpen
    {
      output, good := [], isOpen;
    }

    /** `written` is how many of the record's bytes the stream takes before it fails,
        none if it does not fail.  An empty capture slot has nothing to append. */
    method Append(command: Option<Command>, written: Option<nat>) returns (ok: bool)
      modifies this
      ensures ok <==> old(good) && command.Some? && written.None?
      ensures good <==> old(good) && (command.None? || written.None?)
      ensures output == old(output) + (if command.None? then [] else Landed(old(good), command.value, written))
    {
      if !good || command.None? {
        return false;
      }
      var c := command.value;
      var payload := PayloadOf(c);
      var sum := ComputeChecksum(KindOf(c), payload);
      var header := LE(4, RECORD_MAGIC) + [RECORD_VERSION] + [KindOf(c)] + LE(2, |payload|) + LE(8, sum);
      var record := header + payload;
      if written.None? {
        output := output + record;
      } else {
        output := output + Taken(record, written.value);
        good := false;
      }
      return good;
    }
  }

  const NO_COMMAND: Command := Cancel(CancelOrder(1, 1))

  /** The recorder's step: move the oldest captured command to the file. */
  method DrainOne(queue: Spsc.BoundedQueue<Command>, writer: EventLogWriter, written: Option<nat>) returns (ok: bool)
    requires queue.Valid()
    modifies queue, queue.buffer, writer
    ensures queue.Valid()
    ensures ok <==> old(queue.Queue()) != [] && old(writer.good) && written.None?
    ensures old(queue.Queue()) == [] ==>
              queue.Queue() == [] && writer.output == old(writer.output) && writer.good == old(writer.good)
    ensures old(queue.Queue()) != [] ==>
              && queue.Queue() == old(queue.Queue())[1..]
              && writer.output == old(writer.output) + Landed(old(writer.good), old(queue.Queue())[0], written)
              && writer.good == (old(writer.good) && written.None?)
  {
    var got, message := queue.TryPop(NO_COMMAND);
    if !got {
      return false;
    }
    ok := writer.Append(Some(message), written);
  }

  lemma ReplayMoves(b: Book, bs: seq<byte>)
    requires ReadRecord(bs).Got?
    ensures var c, rest := ReadRecord(bs).command, ReadRecord(bs).rest;
            Replay(BookStep, b, bs) ==
            if BookStep(b, c).1 then Replay(BookStep, BookStep(b, c).0, rest).Later(1)
            else Replayed(Some(CommandRejected), 0, BookStep(b, c).0)
  {
  }

  /** Rebuild a fresh book from a log; `file` is none if it cannot be opened. */
  method ReplayEventLog(file: Option<seq<byte>>) returns (error: Option<LogError>, count: nat, digest: U64)
    ensures file.None? ==> error == Some(IoError) && count == 0 && digest == 0
    ensures file.Some? ==>
              var r := Replay(BookStep, EMPTY, file.value);
              error == r.error && count == r.count && digest == Digest(r.state)
  {
    if file.None? {
      return Some(IoError), 0, 0;
    }
    var bs := file.value;
    var book := new OrderBook();
    ghost var target := Replay(BookStep, EMPTY, bs);
    var rest := bs;
    count, error := 0, None;
    var record := ReadRecord(rest);
    while record.Got? && error.None?
      invariant book.Valid() && record == ReadRecord(rest)
      invariant error.None? ==> target == Replay(BookStep, book.Model(), rest).Later(count)
      invariant error.Some? ==> target == Replayed(error, count, book.Model())
      decreases |rest|, error.None?
    {
      ghost var b := book.Model();
      ReplayMoves(b, rest);
      var outcome := ReferenceBooks.ProcessOn(book, record.command);
      assert BookStep(b, record.command) == (book.Model(), outcome.Accepted());
      if outcome.Accepted() {
        rest := record.rest;
        record := ReadRecord(rest);
        count := count + 1;
      } else {
        error := Some(CommandRejected);
      }
    }
    if error.None? {
      ReplayStops(BookStep, book.Model(), rest);
      if record.Bad? {
        error := Some(record.error);
      }
    }
    digest := book.StateDigest();
  }
}
