/** The service, the bounded capture queue and the log file together: a recorder thread drains
    the queue to the file while the matching thread goes on. */
module Recorder {
  import opened Types
  import opened Bytes
  import opened BookSpec
  import opened BookDigest
  import opened EventLog
  import opened LogReplay
  import opened ServiceSpec

  /** `dropped` counts accepted commands that found the queue full; `failed` says that some
      append did not succeed. */
  datatype Recording = Recording(service: Service, queue: seq<Command>, file: seq<byte>, good: bool, dropped: nat, failed: bool)

  /** A turn of the service on one inbound message, or one drain; `written` as in the log writer. */
  datatype Action = Turn(message: Inbound) | Drain(written: Option<nat>)

  function Start(isOpen: bool): Recording { Recording(IDLE, [], [], isOpen, 0, false) }

  /** A queue of capacity `n` after an accepted command was offered to it. */
  function Offered(q: seq<Command>, n: nat, c: Command, ok: bool): seq<Command> {
    if ok && |q| < n then q + [c] else q
  }

  function Missed(q: seq<Command>, n: nat, ok: bool): nat { if ok && |q| >= n then 1 else 0 }

  function Step(n: nat, r: Recording, a: Action): Recording {
    match a
    case Turn(i) =>
      var (v, _, ok) := Handle(r.service, i.session, i.command);
      r.(service := v, queue := Offered(r.queue, n, i.command, ok), dropped := r.dropped + Missed(r.queue, n, ok))
    case Drain(written) =>
      if r.queue == [] then r
      else
        var fine := r.good && written.None?;
        r.(queue := r.queue[1..], file := r.file + Landed(r.good, r.queue[0], written), good := fine, failed := r.failed || !fine)
  }

  function Run(n: nat, r: Recording, actions: seq<Action>): Recording
    decreases |actions|
  {
    if actions == [] then r else Run(n, Step(n, r, actions[0]), actions[1..])
  }

  lemma {:induction false} RunSnoc(n: nat, r: Recording, actions: seq<Action>, a: Action)
    ensures Run(n, r, actions + [a]) == Step(n, Run(n, r, actions), a)
    decreases |actions|
  {
    if actions == [] {
      assert actions + [a] == [a] && [a][1..] == [];
      assert Run(n, Step(n, r, a), []) == Step(n, r, a);
    } else {
      assert (actions + [a])[1..] == actions[1..] + [a];
      RunSnoc(n, Step(n, r, actions[0]), actions[1..], a);
    }
  }

  /** The commands the service has handled. */
  function Handled(actions: seq<Action>): seq<Command>
    decreases |actions|
  {
    if actions == [] then []
    else (if actions[0].Turn? then [actions[0].message.command] else []) + Handled(actions[1..])
  }

  /** What the file will hold once the queue is drained. */
  function Pending(r: Recording): seq<byte> { r.file + Log(r.queue) }

  // ----- one step -----

  lemma {:induction false} LogSnoc(cs: seq<Command>, c: Command)
    ensures Log(cs + [c]) == Log(cs) + Record(c)
    decreases |cs|
  {
    if cs == [] {
      assert [c][1..] == [] && [] + [c] == [c];
      assert Record(c) + [] == Record(c);
    } else {
      assert (cs + [c])[1..] == cs[1..] + [c] && (cs + [c])[0] == cs[0];
      LogSnoc(cs[1..], c);
      Associates(Record(cs[0]), Log(cs[1..]), Record(c));
    }
  }

  lemma TurnRecords(n: nat, r: Recording, i: Inbound)
    ensures var r' := Step(n, r, Turn(i));
            var (b, o) := Apply(r.service.book, i.command);
            && r'.service.book == b && r'.dropped >= r.dropped && r'.failed == r.failed
            && (r'.dropped == r.dropped ==> Pending(r') == Pending(r) + if o.Accepted() then Record(i.command) else [])
  {
    OfferedRecords(r.file, r.queue, n, i.command, Handle(r.service, i.session, i.command).2);
  }

  lemma OfferedRecords(file: seq<byte>, q: seq<Command>, n: nat, c: Command, ok: bool)
    ensures Missed(q, n, ok) == 0 ==> file + Log(Offered(q, n, c, ok)) == file + Log(q) + if ok then Record(c) else []
  {
    LogSnoc(q, c);
    Associates(file, Log(q), Record(c));
    assert file + Log(q) + [] == file + Log(q);
  }

  lemma DrainRecords(n: nat, r: Recording, written: Option<nat>)
    ensures var r' := Step(n, r, Drain(written));
            && r'.service == r.service && r'.dropped == r.dropped && (r.failed ==> r'.failed)
            && (!r'.failed ==> Pending(r') == Pending(r))
  {
    if r.queue != [] { Associates(r.file, Record(r.queue[0]), Log(r.queue[1..])); }
  }

  // ----- whole runs -----

  lemma CapturedOne(b: Book, c: Command, cs: seq<Command>)
    ensures Captured(BookStep, b, [c] + cs) ==
            (if Apply(b, c).1.Accepted() then [c] else []) + Captured(BookStep, Apply(b, c).0, cs)
  {
    assert ([c] + cs)[1..] == cs;
  }

  lemma {:induction false} LogConcat(a: seq<Command>, b: seq<Command>)
    ensures Log(a + b) == Log(a) + Log(b)
    decreases |a|
  {
    LogSplits(a + b, |a|);
    assert (a + b)[..|a|] == a && (a + b)[|a|..] == b;
  }

  /** What was recorded, from any state on: nothing is lost between service and file unless a
      command was dropped or an append failed. */
  lemma {:induction false} RunRecords(n: nat, r: Recording, actions: seq<Action>)
    ensures var r' := Run(n, r, actions);
            && r'.service.book == BookSpec.Run(r.service.book, Handled(actions))
            && r'.dropped >= r.dropped && (r.failed ==> r'.failed)
            && (r'.dropped == r.dropped && !r'.failed ==>
                  Pending(r') == Pending(r) + Log(Captured(BookStep, r.service.book, Handled(actions))))
    decreases |actions|
  {
    if actions == [] {
      assert Pending(r) + [] == Pending(r);
    } else {
      var r1, rest := Step(n, r, actions[0]), actions[1..];
      RunRecords(n, r1, rest);
      match actions[0]
      case Turn(i) => TurnThen(n, r, i, rest);
      case Drain(written) =>
        DrainRecords(n, r, written);
        assert Handled(actions) == Handled(rest);
    }
  }

  lemma TurnThen(n: nat, r: Recording, i: Inbound, rest: seq<Action>)
    requires var r1 := Step(n, r, Turn(i));
             var r' := Run(n, r1, rest);
             && r'.dropped >= r1.dropped
             && r'.service.book == BookSpec.Run(r1.service.book, Handled(rest))
             && (r'.dropped == r1.dropped && !r'.failed ==>
                   Pending(r') == Pending(r1) + Log(Captured(BookStep, r1.service.book, Handled(rest))))
    ensures var r' := Run(n, Step(n, r, Turn(i)), rest);
            && r'.dropped >= r.dropped
            && r'.service.book == BookSpec.Run(r.service.book, [i.command] + Handled(rest))
            && (r'.dropped == r.dropped && !r'.failed ==>
                  Pending(r') == Pending(r) + Log(Captured(BookStep, r.service.book, [i.command] + Handled(rest))))
  {
    var c, b := i.command, r.service.book;
    var first := if Apply(b, c).1.Accepted() then [c] else [];
    var later := Captured(BookStep, Apply(b, c).0, Handled(rest));
    TurnRecords(n, r, i);
    CapturedOne(b, c, Handled(rest));
    assert ([c] + Handled(rest))[1..] == Handled(rest);
    LogConcat(first, later);
    assert Log(first) == if first == [] then [] else Record(c) by { LogSnoc([], c); assert [] + [c] == [c]; }
    Associates(Pending(r), Log(first), Log(later));
  }

  /** For every interleaving of turns and drains, with a queue of any capacity and a stream that
      may fail at any byte: if nothing was dropped and no append failed, the file and the queue
      together are exactly the log of the accepted commands. */
  lemma RecordingIsComplete(n: nat, isOpen: bool, actions: seq<Action>)
    ensures var r := Run(n, Start(isOpen), actions);
            && r.service.book == BookSpec.Run(EMPTY, Handled(actions))
            && (r.dropped == 0 && !r.failed ==> Pending(r) == Log(Captured(BookStep, EMPTY, Handled(actions))))
  {
    var kept := Captured(BookStep, EMPTY, Handled(actions));
    RunRecords(n, Start(isOpen), actions);
    NothingPending(isOpen, Log(kept));
  }

  lemma NothingPending(isOpen: bool, bs: seq<byte>)
    ensures Pending(Start(isOpen)) + bs == bs
  {
    assert Pending(Start(isOpen)) == [];
    assert [] + bs == bs;
  }

  /** Then, once the queue is drained, replaying the written bytes succeeds, counts exactly the
      accepted commands and gives the live book, hence its digest. */
  lemma RecordedReplay(n: nat, isOpen: bool, actions: seq<Action>)
    ensures var r := Run(n, Start(isOpen), actions);
            r.dropped == 0 && !r.failed && r.queue == [] ==>
              && Replay(BookStep, EMPTY, r.file) ==
                 Replayed(None, |Captured(BookStep, EMPTY, Handled(actions))|, r.service.book)
              && Digest(Replay(BookStep, EMPTY, r.file).state) == Digest(r.service.book)
  {
    var r := Run(n, Start(isOpen), actions);
    RecordingIsComplete(n, isOpen, actions);
    AcceptedLogReplays(Handled(actions));
    if r.queue == [] { assert r.file + [] == r.file; }
  }
}
