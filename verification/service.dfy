/** The matching service as an object: the handlers, their reporting loop, and one
    turn of the engine between its queues. */
module MatchingService {
  import opened Types
  import opened BookSpec
  import opened OrderBooks
  import opened Spsc
  import opened ServiceSpec
  import MarketData
  import opened MarketDataObjects
  import opened EventLog
  import opened LogReplay
  import opened Recorder

  /** The matching thread's end of the capture queue. */
  class EventCaptureFeed {
    const queue: BoundedQueue<Command>
    var captured: nat
    var dropped: nat

    constructor (queue: BoundedQueue<Command>)
      ensures this.queue == queue && captured == dropped == 0
    {
      this.queue := queue;
      captured, dropped := 0, 0;
    }

    method Capture(c: Command)
      requires queue.Valid()
      modifies this, queue, queue.buffer
      ensures queue.Valid()
      ensures queue.Queue() == Offered(old(queue.Queue()), queue.n, c, true)
      ensures dropped == old(dropped) + Missed(old(queue.Queue()), queue.n, true)
      ensures captured + dropped == old(captured + dropped) + 1
    {
      var pushed := queue.TryPush(c);
      if !pushed {
        dropped := dropped + 1;
        return;
      }
      captured := captured + 1;
    }
  }

  /** The table and the outbound stream after reporting `es`. */
  function Reported(owners: map<OrderId, Session>, out: seq<Message>, es: seq<Execution>, after: Book, session: Session,
                    sequence: Sequence): (map<OrderId, Session>, seq<Message>)
  {
    var (final, told) := ReportFills(owners, es, after, session, sequence);
    (final, out + told)
  }

  lemma ReportOne(owners: map<OrderId, Session>, out: seq<Message>, es: seq<Execution>, k: nat, after: Book, session: Session,
                  sequence: Sequence)
    requires k < |es|
    ensures var owners' := if Rests(after, es[k].resting) then owners else owners - {es[k].resting};
            var out' := out + FillMessages(Owner(owners, es[k].resting), es[k], session, sequence);
            Reported(owners, out, es[k..], after, session, sequence) == Reported(owners', out', es[k + 1..], after, session, sequence)
  {
    assert es[k..][1..] == es[k + 1..] && es[k..][0] == es[k];
    var owners' := if Rests(after, es[k].resting) then owners else owners - {es[k].resting};
    var f := FillMessages(Owner(owners, es[k].resting), es[k], session, sequence);
    var rest := ReportFills(owners', es[k + 1..], after, session, sequence).1;
    assert out + (f + rest) == out + f + rest;
  }

  predicate Settled(owners: map<OrderId, Session>, out: seq<Message>, session: Session, c: Command, b: Book, r: Outcome,
                    owners': map<OrderId, Session>, out': seq<Message>, ok: bool)
  {
    var (final, told, good) := Settle(owners, session, c, b, r);
    owners' == final && out' == out + told && ok == good
  }

  lemma SubmitIsApply(b: Book, o: NewOrder)
    ensures Apply(b, New(o)) == Submit(b, o)
  {
  }

  lemma ReplaceIsApply(b: Book, r: ReplaceOrder)
    ensures Apply(b, Replace(r)) == ReplaceOne(b, r)
  {
  }

  /** What the service becomes, what it has said, and whether it accepted the command. */
  function Turned(v: Service, out: seq<Message>, i: Inbound): (Service, seq<Message>, bool) {
    var (v', told, ok) := Handle(v, i.session, i.command);
    (v', out + told, ok)
  }

  lemma TurnAccepts(v: Service, out: seq<Message>, i: Inbound)
    ensures (Turned(v, out, i).0.book, Turned(v, out, i).2) == BookStep(v.book, i.command)
  {
  }

  function Served(v: Service, out: seq<Message>, ins: seq<Inbound>): (Service, seq<Message>) {
    var (v', told) := Serve(v, ins);
    (v', out + told)
  }

  lemma ServeOne(v: Service, out: seq<Message>, ins: seq<Inbound>)
    requires ins != []
    ensures var t := Turned(v, out, ins[0]); Served(v, out, ins) == Served(t.0, t.1, ins[1..])
  {
    var (v', told, _) := Handle(v, ins[0].session, ins[0].command);
    assert out + (told + Serve(v', ins[1..]).1) == out + told + Serve(v', ins[1..]).1;
  }

  /** A feed as the service sees it; none if the service was not given one. */
  datatype LogView = LogView(queue: seq<Command>, n: nat, dropped: nat)
  datatype FeedView = FeedView(feed: MarketData.Feed, queue: seq<MarketData.Event>, n: nat)

  /** The capture feed after a command: an accepted one is queued or counted as dropped. */
  function LogTurn(log: Option<LogView>, c: Command, ok: bool): Option<LogView> {
    match log
    case None => None
    case Some(v) => Some(LogView(Offered(v.queue, v.n, c, ok), v.n, v.dropped + Missed(v.queue, v.n, ok)))
  }

  /** The market-data feed after the book was published. */
  function FeedTurn(feed: Option<FeedView>, b: Book): Option<FeedView> {
    match feed
    case None => None
    case Some(v) =>
      var (f, e) := MarketData.Publish(v.feed, MarketData.ImageOf(b), |v.queue| < v.n);
      Some(FeedView(f, v.queue + if e.Some? then [e.value] else [], v.n))
  }

  /** The feed after a run of commands: the book is published after each of them, accepted or not. */
  function FeedAfter(feed: Option<FeedView>, b: Book, ins: seq<Inbound>): Option<FeedView>
    decreases |ins|
  {
    if ins == [] then feed
    else
      var b' := Apply(b, ins[0].command).0;
      FeedAfter(FeedTurn(feed, b'), b', ins[1..])
  }

  function CommandsOf(ins: seq<Inbound>): seq<Command> {
    seq(|ins|, i requires 0 <= i < |ins| => ins[i].command)
  }

  /** The capture queue once everything inbound has been handled and nothing was dropped. */
  function Logged(q: seq<Command>, b: Book, ins: seq<Inbound>): seq<Command> {
    q + Captured(BookStep, b, CommandsOf(ins))
  }

  lemma LogOne(q: seq<Command>, n: nat, b: Book, ins: seq<Inbound>)
    requires ins != []
    ensures var c := ins[0].command;
            var (b', r) := Apply(b, c);
            Missed(q, n, r.Accepted()) == 0 ==> Logged(q, b, ins) == Logged(Offered(q, n, c, r.Accepted()), b', ins[1..])
  {
    assert CommandsOf(ins) == [ins[0].command] + CommandsOf(ins[1..]);
    CapturedOne(b, ins[0].command, CommandsOf(ins[1..]));
  }

  /** The capture feed, with `ins` still to be handled from book `b`, is on its way from `first`:
      unless something is dropped it will have gained all of `due`. */
  predicate OnTheWay(now: Option<LogView>, b: Book, ins: seq<Inbound>, first: Option<LogView>, due: seq<Command>) {
    match first
    case None => now.None?
    case Some(f) =>
      && now.Some? && now.value.dropped >= f.dropped
      && (now.value.dropped == f.dropped ==> Logged(now.value.queue, b, ins) == due)
  }

  lemma OnTheWayOne(now: Option<LogView>, b: Book, ins: seq<Inbound>, first: Option<LogView>, due: seq<Command>)
    requires OnTheWay(now, b, ins, first, due) && ins != []
    ensures var (b', r) := Apply(b, ins[0].command);
            OnTheWay(LogTurn(now, ins[0].command, r.Accepted()), b', ins[1..], first, due)
  {
    if now.Some? { LogOne(now.value.queue, now.value.n, b, ins); }
  }

  lemma Arrived(now: Option<LogView>, b: Book, first: Option<LogView>, due: seq<Command>)
    requires OnTheWay(now, b, [], first, due)
    ensures first.Some? && now.value.dropped == first.value.dropped ==> now.value.queue == due
  {
    if now.Some? { assert now.value.queue + [] == now.value.queue; }
  }

  /** What a default-constructed slot holds; never read as a command. */
  const NO_MESSAGE: Inbound := Inbound(0, NO_COMMAND)

  /** The objects behind a feed, if the service was given one. */
  ghost function LogCells(log: EventCaptureFeed?): set<object> {
    if log == null then {} else {log, log.queue, log.queue.buffer}
  }

  ghost function FeedCells(feed: MarketDataFeed?): set<object> {
    if feed == null then {} else {feed, feed.queue, feed.queue.buffer}
  }

  ghost predicate LogReady(log: EventCaptureFeed?)
    reads LogCells(log)
  {
    log == null || log.queue.Valid()
  }

  ghost predicate FeedReady(feed: MarketDataFeed?)
    reads FeedCells(feed)
  {
    feed == null || feed.queue.Valid()
  }

  ghost function LogState(log: EventCaptureFeed?): Option<LogView>
    reads LogCells(log)
  {
    if log == null then None else Some(LogView(log.queue.Queue(), log.queue.n, log.dropped))
  }

  ghost function FeedState(feed: MarketDataFeed?): Option<FeedView>
    reads FeedCells(feed)
  {
    if feed == null then None else Some(FeedView(feed.State(), feed.queue.Queue(), feed.queue.n))
  }

  class MatchingEngineService {
    const book: OrderBook
    var owners: map<OrderId, Session>
    var outbound: seq<Message>
    var executions: nat
    var accepted: nat
    var rejected: nat
    var acceptedCancels: nat
    var rejectedCancels: nat

    ghost predicate Valid()
      reads this, book
    {
      book.Valid()
    }

    ghost function State(): Service
      reads this, book
      requires Valid()
    {
      Service(book.Model(), owners)
    }

    constructor ()
      ensures Valid() && State() == IDLE && outbound == [] && fresh(book)
      ensures executions == accepted == rejected == acceptedCancels == rejectedCancels == 0
    {
      book := new OrderBook();
      owners, outbound := map[], [];
      executions, accepted, rejected, acceptedCancels, rejectedCancels := 0, 0, 0, 0, 0;
    }

    method PushOutbound(m: Message)
      modifies this`outbound
      ensures outbound == old(outbound) + [m]
    {
      outbound := outbound + [m];
    }

    /** Tell both sides of one fill, and forget the resting order if it is gone. */
    method ReportFill(e: Execution, session: Session, sequence: Sequence)
      requires book.Steady()
      modifies this`owners, this`outbound, this`executions
      ensures owners == if Rests(book.Model(), e.resting) then old(owners) else old(owners) - {e.resting}
      ensures outbound == old(outbound) + FillMessages(Owner(old(owners), e.resting), e, session, sequence)
      ensures executions == old(executions) + 1
    {
      executions := executions + 1;
      var resting := if e.resting in owners then owners[e.resting] else 0;
      var rests := book.Contains(e.resting);
      if !rests {
        owners := owners - {e.resting};
      }
      PushOutbound(Message(session, true, sequence, Executed(e)));
      if resting != 0 && resting != session {
        PushOutbound(Message(resting, false, sequence, Executed(e)));
      }
    }

    /** The loop of both handlers over the executions of one match. */
    method ReportExecutions(es: seq<Execution>, session: Session, sequence: Sequence)
      requires book.Steady()
      modifies this`owners, this`outbound, this`executions
      ensures (owners, outbound) == Reported(old(owners), old(outbound), es, book.Model(), session, sequence)
      ensures executions == old(executions) + |es|
    {
      ghost var b := book.Model();
      ghost var target := Reported(owners, outbound, es, b, session, sequence);
      assert es[0..] == es;
      for k := 0 to |es|
        invariant executions == old(executions) + k
        invariant Reported(owners, outbound, es[k..], b, session, sequence) == target
      {
        ReportOne(owners, outbound, es, k, b, session, sequence);
        ReportFill(es[k], session, sequence);
      }
      assert es[|es|..] == [] && outbound + [] == outbound;
    }

    method HandleNewOrder(session: Session, order: NewOrder) returns (ok: bool)
      requires Valid()
      modifies this`owners, this`outbound, this`executions, book
      ensures Valid() && book.Model() == Apply(old(book.Model()), New(order)).0
      ensures var r := Apply(old(book.Model()), New(order)).1;
              && Settled(old(owners), old(outbound), session, New(order), book.Model(), r, owners, outbound, ok)
              && executions == old(executions) + |r.executions|
    {
      var r := book.Submit(order);
      SubmitIsApply(old(book.Model()), order);
      ok := AnswerNewOrder(session, order, r);
    }

    /** The rest of the handler, once the book has answered. */
    method AnswerNewOrder(session: Session, order: NewOrder, r: Outcome) returns (ok: bool)
      requires book.Steady()
      modifies this`owners, this`outbound, this`executions
      ensures Settled(old(owners), old(outbound), session, New(order), book.Model(), r, owners, outbound, ok)
      ensures executions == old(executions) + (if r.Accepted() then |r.executions| else 0)
    {
      if r.rejection.Some? {
        PushOutbound(Message(session, false, order.sequence, OrderRejected(order.id, r.rejection.value)));
        return false;
      }
      ReportExecutions(r.executions, session, order.sequence);
      var left := if r.remaining.Some? then r.remaining.value else 0;
      PushOutbound(Message(session, false, order.sequence, OrderAccepted(order.id, left)));
      var rests := book.Contains(order.id);
      if left > 0 && rests {
        owners := owners[order.id := session];
      }
      return true;
    }

    method HandleCancelOrder(session: Session, order: CancelOrder) returns (ok: bool)
      requires Valid()
      modifies this`owners, this`outbound, book
      ensures Valid() && book.Model() == Apply(old(book.Model()), Cancel(order)).0
      ensures var r := Apply(old(book.Model()), Cancel(order)).1;
              Settled(old(owners), old(outbound), session, Cancel(order), book.Model(), r, owners, outbound, ok)
    {
      var r := book.Cancel(order);
      if r.Accepted() {
        owners := owners - {order.id};
        PushOutbound(Message(session, false, order.sequence, CancelAccepted(order.id, r.cancelled.value)));
        return true;
      }
      PushOutbound(Message(session, false, order.sequence, CancelRejected(order.id, r.rejection.value)));
      return false;
    }

    method HandleReplaceOrder(session: Session, order: ReplaceOrder) returns (ok: bool)
      requires Valid()
      modifies this`owners, this`outbound, this`executions, book
      ensures Valid() && book.Model() == Apply(old(book.Model()), Replace(order)).0
      ensures var r := Apply(old(book.Model()), Replace(order)).1;
              && Settled(old(owners), old(outbound), session, Replace(order), book.Model(), r, owners, outbound, ok)
              && executions == old(executions) + |r.executions|
    {
      var r := book.Replace(order);
      ReplaceIsApply(old(book.Model()), order);
      ok := AnswerReplace(session, order, r);
    }

    /** The rest of the handler, once the book has answered. */
    method AnswerReplace(session: Session, order: ReplaceOrder, r: Outcome) returns (ok: bool)
      requires book.Steady()
      modifies this`owners, this`outbound, this`executions
      ensures Settled(old(owners), old(outbound), session, Replace(order), book.Model(), r, owners, outbound, ok)
      ensures executions == old(executions) + (if r.Accepted() then |r.executions| else 0)
    {
      if r.rejection.Some? {
        PushOutbound(Message(session, false, order.sequence, ReplaceRejected(order.id, r.rejection.value)));
        return false;
      }
      ReportExecutions(r.executions, session, order.sequence);
      var left := if r.remaining.Some? then r.remaining.value else 0;
      var rests := book.Contains(order.id);
      if left > 0 && rests {
        owners := owners[order.id := session];
      } else {
        owners := owners - {order.id};
      }
      PushOutbound(Message(session, false, order.sequence, ReplaceAccepted(order.id, left)));
      return true;
    }

    method RecordCommandResult(c: Command, ok: bool)
      modifies this`accepted, this`rejected, this`acceptedCancels, this`rejectedCancels
      ensures accepted + rejected == old(accepted + rejected) + 1
      ensures accepted == old(accepted) + (if ok then 1 else 0)
      ensures acceptedCancels == old(acceptedCancels) + (if c.Cancel? && ok then 1 else 0)
      ensures rejectedCancels == old(rejectedCancels) + (if c.Cancel? && !ok then 1 else 0)
    {
      if ok { accepted := accepted + 1; } else { rejected := rejected + 1; }
      if c.Cancel? {
        if ok { acceptedCancels := acceptedCancels + 1; } else { rejectedCancels := rejectedCancels + 1; }
      }
    }

    method Dispatch(session: Session, c: Command) returns (ok: bool)
      requires Valid()
      modifies this, book
      ensures Valid()
      ensures var (v, told, good) := Handle(old(State()), session, c);
              State() == v && outbound == old(outbound) + told && ok == good
      ensures accepted == old(accepted) + (if ok then 1 else 0) && rejected == old(rejected) + (if ok then 0 else 1)
    {
      match c {
        case New(o) => ok := HandleNewOrder(session, o);
        case Cancel(k) => ok := HandleCancelOrder(session, k);
        case Replace(p) => ok := HandleReplaceOrder(session, p);
      }
      RecordCommandResult(c, ok);
    }

    /** Take the oldest inbound command and handle it. */
    method TakeOne(inbound: BoundedQueue<Inbound>) returns (got: bool, i: Inbound, ok: bool)
      requires Valid() && inbound.Valid()
      modifies this, book, inbound, inbound.buffer
      ensures Valid() && inbound.Valid()
      ensures got <==> old(inbound.Queue()) != []
      ensures if got then i == old(inbound.Queue())[0] && inbound.Queue() == old(inbound.Queue())[1..]
              else inbound.Queue() == old(inbound.Queue())
      ensures if got then (State(), outbound, ok) == Turned(old(State()), old(outbound), i)
              else State() == old(State()) && outbound == old(outbound)
      ensures got ==> (book.Model(), ok) == BookStep(old(book.Model()), i.command)
    {
      ghost var v := State();
      ok := false;
      got, i := inbound.TryPop(NO_MESSAGE);
      if got {
        TurnAccepts(v, outbound, i);
        ok := Dispatch(i.session, i.command);
      }
    }

    /** Capture an accepted command, if there is a capture feed. */
    method CaptureAccepted(log: EventCaptureFeed?, c: Command, ok: bool)
      requires LogReady(log)
      modifies LogCells(log)
      ensures LogReady(log) && LogState(log) == LogTurn(old(LogState(log)), c, ok)
    {
      if ok && log != null {
        log.Capture(c);
      }
    }

    /** Publish the book, if there is a market-data feed. */
    method PublishDepth(feed: MarketDataFeed?)
      requires book.Steady() && FeedReady(feed)
      modifies FeedCells(feed)
      ensures FeedReady(feed) && FeedState(feed) == FeedTurn(old(FeedState(feed)), book.Model())
    {
      if feed != null {
        feed.PublishBook(book);
      }
    }

    /** Both, one after the other. */
    method Emit(log: EventCaptureFeed?, feed: MarketDataFeed?, c: Command, ok: bool)
      requires book.Steady() && LogReady(log) && FeedReady(feed) && LogCells(log) !! FeedCells(feed)
      modifies LogCells(log), FeedCells(feed)
      ensures LogReady(log) && LogState(log) == LogTurn(old(LogState(log)), c, ok)
      ensures FeedReady(feed) && FeedState(feed) == FeedTurn(old(FeedState(feed)), book.Model())
    {
      CaptureAccepted(log, c, ok);
      PublishDepth(feed);
    }

    ghost function Mine(inbound: BoundedQueue<Inbound>): set<object> { {this, book, inbound, inbound.buffer} }

    /** The queues and feeds share no storage. */
    ghost predicate Apart(inbound: BoundedQueue<Inbound>, log: EventCaptureFeed?, feed: MarketDataFeed?) {
      LogCells(log) !! FeedCells(feed) && Mine(inbound) !! LogCells(log) && Mine(inbound) !! FeedCells(feed)
    }

    /** One turn: take the oldest inbound command, handle it, capture it if it was
        accepted, and publish the book whether or not it was. */
    method ProcessOne(inbound: BoundedQueue<Inbound>, log: EventCaptureFeed?, feed: MarketDataFeed?) returns (busy: bool)
      requires Valid() && inbound.Valid() && LogReady(log) && FeedReady(feed) && Apart(inbound, log, feed)
      modifies this, book, inbound, inbound.buffer, LogCells(log), FeedCells(feed)
      ensures Valid() && inbound.Valid() && LogReady(log) && FeedReady(feed)
      ensures busy <==> old(inbound.Queue()) != []
      ensures !busy ==> State() == old(State()) && outbound == old(outbound) && inbound.Queue() == old(inbound.Queue())
      ensures !busy ==> LogState(log) == old(LogState(log)) && FeedState(feed) == old(FeedState(feed))
      ensures busy ==>
                var i := old(inbound.Queue())[0];
                var (b, ok) := BookStep(old(book.Model()), i.command);
                && inbound.Queue() == old(inbound.Queue())[1..]
                && book.Model() == b && (State(), outbound, ok) == Turned(old(State()), old(outbound), i)
                && LogState(log) == LogTurn(old(LogState(log)), i.command, ok)
                && FeedState(feed) == FeedTurn(old(FeedState(feed)), b)
    {
      var got, i, ok := TakeOne(inbound);
      if got {
        Emit(log, feed, i.command, ok);
      }
      return got;
    }

    /** Turns until nothing is left to take. */
    method ProcessAvailable(inbound: BoundedQueue<Inbound>, log: EventCaptureFeed?, feed: MarketDataFeed?) returns (count: nat)
      requires Valid() && inbound.Valid() && LogReady(log) && FeedReady(feed) && Apart(inbound, log, feed)
      modifies this, book, inbound, inbound.buffer, LogCells(log), FeedCells(feed)
      ensures Valid() && inbound.Valid() && LogReady(log) && FeedReady(feed)
      ensures inbound.Queue() == [] && count == |old(inbound.Queue())|
      ensures (State(), outbound) == Served(old(State()), old(outbound), old(inbound.Queue()))
      ensures log != null && log.dropped == old(log.dropped) ==>
                log.queue.Queue() == Logged(old(log.queue.Queue()), old(book.Model()), old(inbound.Queue()))
      ensures FeedState(feed) == FeedAfter(old(FeedState(feed)), old(book.Model()), old(inbound.Queue()))
    {
      ghost var shown := FeedAfter(FeedState(feed), book.Model(), inbound.Queue());
      ghost var target := Served(State(), outbound, inbound.Queue());
      ghost var first := LogState(log);
      ghost var due := if log == null then [] else Logged(log.queue.Queue(), book.Model(), inbound.Queue());
      count := 0;
      var busy := true;
      while busy
        invariant Valid() && inbound.Valid() && LogReady(log) && FeedReady(feed)
        invariant Served(State(), outbound, inbound.Queue()) == target
        invariant OnTheWay(LogState(log), book.Model(), inbound.Queue(), first, due)
        invariant FeedAfter(FeedState(feed), book.Model(), inbound.Queue()) == shown
        invariant count + |inbound.Queue()| == |old(inbound.Queue())|
        invariant !busy ==> inbound.Queue() == []
        decreases |inbound.Queue()|, busy
      {
        if inbound.Queue() != [] {
          ServeOne(State(), outbound, inbound.Queue());
          OnTheWayOne(LogState(log), book.Model(), inbound.Queue(), first, due);
        }
        busy := ProcessOne(inbound, log, feed);
        if busy {
          count := count + 1;
        }
      }
      assert outbound + [] == outbound;
      Arrived(LogState(log), book.Model(), first, due);
    }
  }
}
