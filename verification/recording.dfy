/** Service, capture feed and log writer as objects, run in any order of turns and drains,
    checked against the recorder's machine; and the replay of the file they leave behind. */
module Recordings {
  import opened Types
  import opened BookSpec
  import opened EventLog
  import opened LogReplay
  import opened ServiceSpec
  import opened MarketDataObjects
  import opened MatchingService
  import Spsc
  import Recorder

  /** Which of the two threads moves next. */
  datatype Move = Serving | Draining(written: Option<nat>)

  lemma TurnIsStep(n: nat, r: Recorder.Recording, out: seq<Message>, i: Inbound, v: Service, log: LogView)
    requires log.queue == r.queue && log.n == n && log.dropped == r.dropped
    requires v == Turned(r.service, out, i).0
    ensures var ok := Apply(r.service.book, i.command).1.Accepted();
            var log' := LogTurn(Some(log), i.command, ok).value;
            Recorder.Step(n, r, Recorder.Turn(i)) == r.(service := v, queue := log'.queue, dropped := log'.dropped)
  {
    TurnAccepts(r.service, out, i);
  }

  class Exchange {
    const service: MatchingEngineService
    const inbound: Spsc.BoundedQueue<Inbound>
    const log: EventCaptureFeed
    const feed: MarketDataFeed?
    const writer: EventLogWriter
    ghost var failed: bool

    ghost predicate Valid()
      reads this, service, service.book, inbound, inbound.buffer, LogCells(log), FeedCells(feed), writer
    {
      && service.Valid() && inbound.Valid() && LogReady(log) && FeedReady(feed)
      && service.Apart(inbound, log, feed) && Outside(writer, log, feed)
    }

    /** The writer and this object are not part of a feed. */
    ghost predicate Outside(writer: EventLogWriter, log: EventCaptureFeed, feed: MarketDataFeed?) {
      var mine: set<object> := {this, writer};
      mine !! LogCells(log) && mine !! FeedCells(feed)
    }

    ghost function State(): Recorder.Recording
      reads this, service, service.book, LogCells(log), writer
      requires service.Valid()
    {
      Recorder.Recording(service.State(), log.queue.Queue(), writer.output, writer.good, log.dropped, failed)
    }

    constructor (service: MatchingEngineService, inbound: Spsc.BoundedQueue<Inbound>, log: EventCaptureFeed, feed: MarketDataFeed?,
                 writer: EventLogWriter)
      requires service.Valid() && inbound.Valid() && LogReady(log) && FeedReady(feed) && service.Apart(inbound, log, feed)
      ensures Valid() && !failed
      ensures this.service == service && this.inbound == inbound && this.log == log && this.feed == feed && this.writer == writer
    {
      this.service, this.inbound, this.log, this.feed, this.writer, failed := service, inbound, log, feed, writer, false;
    }

    /** The matching thread's turn; nothing happens if there is nothing inbound. */
    method Turn() returns (busy: bool)
      requires Valid()
      modifies service, service.book, inbound, inbound.buffer, LogCells(log), FeedCells(feed)
      ensures Valid()
      ensures busy <==> old(inbound.Queue()) != []
      ensures State() == if busy then Recorder.Step(log.queue.n, old(State()), Recorder.Turn(old(inbound.Queue())[0])) else old(State())
    {
      ghost var n, r, out, q, view := log.queue.n, State(), service.outbound, inbound.Queue(), LogState(log);
      busy := service.ProcessOne(inbound, log, feed);
      if busy {
        TurnIsStep(n, r, out, q[0], service.State(), view.value);
      }
    }

    /** The recorder thread's step. */
    method Drain(written: Option<nat>)
      requires Valid()
      modifies this, log.queue, log.queue.buffer, writer
      ensures Valid()
      ensures State() == Recorder.Step(log.queue.n, old(State()), Recorder.Drain(written))
    {
      ghost var q := log.queue.Queue();
      var ok := DrainOne(log.queue, writer, written);
      if q != [] && !ok {
        failed := true;
      }
    }

    /** Any schedule of the two threads; `actions` is what it made the machine do. */
    method Perform(moves: seq<Move>) returns (ghost actions: seq<Recorder.Action>)
      requires Valid()
      modifies this, service, service.book, inbound, inbound.buffer, LogCells(log), FeedCells(feed), writer
      ensures Valid() && State() == Recorder.Run(log.queue.n, old(State()), actions)
    {
      ghost var n, r := log.queue.n, State();
      actions := [];
      for k := 0 to |moves|
        invariant Valid() && State() == Recorder.Run(n, r, actions)
      {
        match moves[k] {
          case Serving =>
            ghost var q := inbound.Queue();
            var busy := Turn();
            if busy {
              Recorder.RunSnoc(n, r, actions, Recorder.Turn(q[0]));
              actions := actions + [Recorder.Turn(q[0])];
            }
          case Draining(written) =>
            Drain(written);
            Recorder.RunSnoc(n, r, actions, Recorder.Drain(written));
            actions := actions + [Recorder.Drain(written)];
        }
      }
    }

    /** The file replayed against the live book: error, count of commands, and whether the digests agree. */
    method ReplayFile(ghost isOpen: bool, ghost actions: seq<Recorder.Action>)
      returns (error: Option<LogError>, count: nat, same: bool)
      requires Valid() && State() == Recorder.Run(log.queue.n, Recorder.Start(isOpen), actions)
      ensures log.dropped == 0 && !failed && log.queue.Queue() == [] ==>
                error.None? && count == |Captured(BookStep, EMPTY, Recorder.Handled(actions))| && same
    {
      Recorder.RecordedReplay(log.queue.n, isOpen, actions);
      var live := service.book.StateDigest();
      var digest;
      error, count, digest := ReplayEventLog(Some(writer.output));
      same := digest == live;
    }
  }
}
