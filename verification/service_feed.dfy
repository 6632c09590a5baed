/** The service and the market-data machine together: after every command the book is published,
    and a subscriber that drains the queue shows the live book. */
module ServiceFeed {
  import opened Types
  import opened BookSpec
  import opened BookInvariant
  import opened ServiceSpec
  import opened MatchingService
  import opened MarketData
  import opened MarketDataObjects
  import Spsc

  /** The book after each command. */
  function BooksAfter(b: Book, ins: seq<Inbound>): seq<Book>
    decreases |ins|
  {
    if ins == [] then []
    else
      var b' := Apply(b, ins[0].command).0;
      [b'] + BooksAfter(b', ins[1..])
  }

  lemma {:induction false} BooksAreWf(b: Book, ins: seq<Inbound>)
    requires Wf(b)
    ensures |BooksAfter(b, ins)| == |ins|
    ensures forall k :: 0 <= k < |ins| ==> Wf(BooksAfter(b, ins)[k])
    ensures ins != [] ==> BooksAfter(b, ins)[|ins| - 1] == BookSpec.Run(b, CommandsOf(ins))
    decreases |ins|
  {
    if ins != [] {
      ApplyKeeps(b, ins[0].command);
      BooksAreWf(Apply(b, ins[0].command).0, ins[1..]);
      assert CommandsOf(ins)[1..] == CommandsOf(ins[1..]);
      if |ins| == 1 { assert CommandsOf(ins[1..]) == []; }
    }
  }

  // ----- turns and deliveries in any order -----

  datatype Desk = Desk(service: Service, system: System)

  datatype Move = Turn(message: Inbound) | Delivery

  function Opened(interval: nat): Desk { Desk(IDLE, Start(interval)) }

  /** A turn publishes the book as the command left it, into a queue of capacity `n`. */
  function DeskStep(n: nat, d: Desk, m: Move): Desk {
    match m
    case Turn(i) =>
      var v := Handle(d.service, i.session, i.command).0;
      Desk(v, Step(d.system, PublishBook(v.book, |d.system.sent| - d.system.delivered < n)))
    case Delivery => d.(system := Step(d.system, Deliver))
  }

  function DeskRun(n: nat, d: Desk, ms: seq<Move>): Desk
    decreases |ms|
  {
    if ms == [] then d else DeskRun(n, DeskStep(n, d, ms[0]), ms[1..])
  }

  function Taken(ms: seq<Move>): seq<Inbound>
    decreases |ms|
  {
    if ms == [] then [] else (if ms[0].Turn? then [ms[0].message] else []) + Taken(ms[1..])
  }

  /** What a run of the desk makes the market-data machine do. */
  function Feeding(n: nat, d: Desk, ms: seq<Move>): seq<Action>
    decreases |ms|
  {
    if ms == [] then []
    else
      var d' := DeskStep(n, d, ms[0]);
      [if ms[0].Turn? then PublishBook(d'.service.book, |d.system.sent| - d.system.delivered < n) else Deliver]
      + Feeding(n, d', ms[1..])
  }

  lemma {:induction false} DeskFeeds(n: nat, d: Desk, ms: seq<Move>)
    ensures DeskRun(n, d, ms).system == MarketData.Run(d.system, Feeding(n, d, ms))
    ensures Published(Feeding(n, d, ms)) == BooksAfter(d.service.book, Taken(ms))
    ensures DeskRun(n, d, ms).service.book == BookSpec.Run(d.service.book, CommandsOf(Taken(ms)))
    decreases |ms|
  {
    if ms != [] {
      var d', rest := DeskStep(n, d, ms[0]), Feeding(n, DeskStep(n, d, ms[0]), ms[1..]);
      DeskFeeds(n, d', ms[1..]);
      assert Feeding(n, d, ms)[1..] == rest;
      if ms[0].Turn? {
        TakenCommands(ms);
      } else {
        assert Taken(ms) == Taken(ms[1..]);
      }
    }
  }

  lemma TakenCommands(ms: seq<Move>)
    requires ms != [] && ms[0].Turn?
    ensures Taken(ms)[0] == ms[0].message && Taken(ms)[1..] == Taken(ms[1..])
    ensures CommandsOf(Taken(ms))[0] == ms[0].message.command && CommandsOf(Taken(ms))[1..] == CommandsOf(Taken(ms[1..]))
  {
  }

  /** For every order of turns and deliveries and every capacity, with fewer than 2^64 - 1 turns:
      the subscriber shows the five best bids and asks of the book right after the turn with its
      last number; with the number of the last turn, that is the live book. */
  lemma SubscriberShowsTheBook(n: nat, interval: nat, ms: seq<Move>)
    requires |Taken(ms)| < LAST_SEQUENCE
    ensures var d := DeskRun(n, Opened(interval), ms);
            var u, k := d.system.subscriber, |Taken(ms)|;
            && |BooksAfter(EMPTY, Taken(ms))| == k
            && (u.last.Some? ==>
                  && u.synchronized && u.last.value <= k
                  && Shows(u.image, BooksAfter(EMPTY, Taken(ms))[u.last.value - 1])
                  && (u.last.value == k ==> Shows(u.image, d.service.book)))
  {
    var d := DeskReached(n, interval, ms);
    var acts := Feeding(n, Opened(interval), ms);
    DeskFeeds(n, Opened(interval), ms);
    BooksAreWf(EMPTY, Taken(ms));
    SubscriberIsExact(interval, acts);
  }

  lemma DeskReached(n: nat, interval: nat, ms: seq<Move>) returns (d: Desk)
    requires |Taken(ms)| < LAST_SEQUENCE
    ensures d == DeskRun(n, Opened(interval), ms) && Inv(d.system) && Wf(d.service.book)
    ensures d.system.history == BooksAfter(EMPTY, Taken(ms)) && |d.system.history| == |Taken(ms)|
  {
    var acts := Feeding(n, Opened(interval), ms);
    d := DeskRun(n, Opened(interval), ms);
    DeskFeeds(n, Opened(interval), ms);
    BooksAreWf(EMPTY, Taken(ms));
    StartHolds(interval);
    MarketData.RunKeeps(Start(interval), acts);
    HistoryGrows(Start(interval), acts);
    assert [] + Published(acts) == Published(acts);
    BookInvariant.RunKeeps(EMPTY, CommandsOf(Taken(ms)));
  }

  lemma PublishThenDrain(s: System, b: Book, more: nat)
    requires Inv(s) && Wf(b) && |s.history| + 1 < LAST_SEQUENCE && more >= |s.sent| - s.delivered + 1
    ensures var u := Delivered(Step(s, PublishBook(b, true)), more).subscriber; u.synchronized && Shows(u.image, b)
  {
    RoomMeansSent(s, b);
    PublishKeeps(s, b, true);
    DeliveredAll(Step(s, PublishBook(b, true)), more);
    ImageShows(b);
  }

  /** A turn that finds room, then enough deliveries to drain the queue: the subscriber shows the
      live book. */
  lemma DrainedShowsLive(n: nat, interval: nat, ms: seq<Move>, i: Inbound, more: nat)
    requires |Taken(ms)| + 1 < LAST_SEQUENCE
    requires var s := DeskRun(n, Opened(interval), ms).system; |s.sent| - s.delivered < n && more >= |s.sent| - s.delivered + 1
    ensures var d := DeskStep(n, DeskRun(n, Opened(interval), ms), Turn(i));
            var u := Delivered(d.system, more).subscriber;
            u.synchronized && Shows(u.image, d.service.book)
  {
    var d := DeskReached(n, interval, ms);
    ApplyKeeps(d.service.book, i.command);
    PublishThenDrain(d.system, Apply(d.service.book, i.command).0, more);
  }

  function Delivered(s: System, n: nat): System
    decreases n
  {
    if n == 0 then s else Delivered(Step(s, Deliver), n - 1)
  }

  lemma RoomMeansSent(s: System, b: Book)
    requires Inv(s) && |s.history| + 1 < LAST_SEQUENCE
    ensures var s' := Step(s, PublishBook(b, true));
            && |s'.sent| == |s.sent| + 1 && s'.delivered == s.delivered && s'.sent[|s.sent|].image == ImageOf(b)
  {
  }

  lemma {:induction false} DeliveredAll(s: System, n: nat)
    requires Inv(s) && s.sent != [] && n >= |s.sent| - s.delivered
    ensures Delivered(s, n).subscriber == CaughtUp(s.sent[|s.sent| - 1])
    decreases n
  {
    DeliverKeeps(s);
    if n > 0 {
      DeliveredAll(Step(s, Deliver), n - 1);
    }
  }

  // ----- the feed object's view -----

  /** A feed and its queue are those of a system. */
  predicate Follows(v: FeedView, s: System) {
    v.feed == s.feed && s.delivered <= |s.sent| && v.queue == s.sent[s.delivered..]
  }

  lemma TurnIsPublish(v: FeedView, s: System, b: Book)
    requires Follows(v, s)
    ensures var v' := FeedTurn(Some(v), b).value;
            v'.n == v.n && Follows(v', Step(s, PublishBook(b, |s.sent| - s.delivered < v.n)))
  {
    var e := Publish(v.feed, ImageOf(b), |v.queue| < v.n).1;
    if e.Some? { assert (s.sent + [e.value])[s.delivered..] == v.queue + [e.value]; } else { assert v.queue + [] == v.queue; }
  }

  /** The service's feed over a whole run is the desk's: one publish per command. */
  lemma {:induction false} FeedAfterIsRun(v: FeedView, d: Desk, ins: seq<Inbound>)
    requires Follows(v, d.system)
    ensures var v' := FeedAfter(Some(v), d.service.book, ins);
            v'.Some? && v'.value.n == v.n && Follows(v'.value, DeskRun(v.n, d, Turns(ins)).system)
    decreases |ins|
  {
    if ins != [] {
      var d' := DeskStep(v.n, d, Turn(ins[0]));
      TurnIsPublish(v, d.system, d'.service.book);
      FeedAfterIsRun(FeedTurn(Some(v), d'.service.book).value, d', ins[1..]);
      assert Turns(ins)[1..] == Turns(ins[1..]);
    }
  }

  function Turns(ins: seq<Inbound>): seq<Move> { seq(|ins|, k requires 0 <= k < |ins| => Turn(ins[k])) }

  lemma {:induction false} TurnsOnly(n: nat, d: Desk, ins: seq<Inbound>)
    ensures DeskRun(n, d, Turns(ins)).system.delivered == d.system.delivered
    ensures Taken(Turns(ins)) == ins
    decreases |ins|
  {
    if ins != [] {
      assert Turns(ins)[1..] == Turns(ins[1..]);
      TurnsOnly(n, DeskStep(n, d, Turn(ins[0])), ins[1..]);
      assert [ins[0]] + ins[1..] == ins;
    }
  }

  /** From inbound commands to the screen: what the service leaves in the feed's queue, drained
      into a new subscriber, shows the book after the command of its last number; if the last
      publish was queued, the live book. */
  lemma ScreenShowsTheBook(interval: nat, n: nat, ins: seq<Inbound>)
    requires |ins| < LAST_SEQUENCE
    ensures var v := FeedAfter(Some(FeedView(NewFeed(interval), [], n)), EMPTY, ins);
            v.Some? &&
            var u := ReceiveAll(NEW_SUBSCRIBER, v.value.queue);
            && |BooksAfter(EMPTY, ins)| == |ins|
            && (v.value.queue != [] ==>
                  && u.synchronized && u.last.Some? && u.last.value <= |ins|
                  && Shows(u.image, BooksAfter(EMPTY, ins)[u.last.value - 1])
                  && (u.last.value == |ins| ==> Shows(u.image, Serve(IDLE, ins).0.book)))
  {
    var d0, v0 := Opened(interval), FeedView(NewFeed(interval), [], n);
    TurnsOnly(n, d0, ins);
    FeedAfterIsRun(v0, d0, ins);
    var d := DeskReached(n, interval, Turns(ins));
    BooksAreWf(EMPTY, ins);
    ServeIsRun(IDLE, ins);
    QueueShows(d.system);
  }

  /** The whole queue, delivered to a new subscriber. */
  lemma QueueShows(s: System)
    requires Inv(s) && s.delivered == 0
    ensures s.sent[0..] == s.sent
    ensures s.sent != [] ==>
              var u := ReceiveAll(NEW_SUBSCRIBER, s.sent);
              && u.synchronized && u.last.Some? && u.last.value <= |s.history|
              && (Wf(s.history[u.last.value - 1]) ==> Shows(u.image, s.history[u.last.value - 1]))
  {
    assert s.sent[0..] == s.sent;
    if s.sent != [] {
      var k := |s.sent|;
      assert SentAt(s.sent, s.history, 0) && SentAt(s.sent, s.history, k - 1);
      CatchesUp(s, NEW_SUBSCRIBER, 0, 0, k);
      assert s.sent[0..k] == s.sent;
      GenuineShows(s.sent[k - 1], s.history);
    }
  }

  lemma GenuineShows(e: Event, history: seq<Book>)
    requires Genuine(e, history)
    ensures var b := history[e.sequence.value - 1]; Wf(b) ==> Shows(e.image, b)
  {
    var b := history[e.sequence.value - 1];
    if Wf(b) { ImageShows(b); }
  }

  lemma {:induction false} ServeIsRun(v: Service, ins: seq<Inbound>)
    ensures Serve(v, ins).0.book == BookSpec.Run(v.book, CommandsOf(ins))
    decreases |ins|
  {
    if ins != [] {
      ServeIsRun(Handle(v, ins[0].session, ins[0].command).0, ins[1..]);
      assert CommandsOf(ins)[1..] == CommandsOf(ins[1..]);
    }
  }

  /** Draining the queue leaves the service alone. */
  method Drain(service: MatchingEngineService, ghost inbound: Spsc.BoundedQueue<Inbound>, feed: MarketDataFeed, subscriber: MarketDataBook)
    requires service.Valid() && feed.queue.Valid() && service.Mine(inbound) !! FeedCells(feed)
    modifies feed.queue, feed.queue.buffer, subscriber
    ensures service.Valid() && service.book.Model() == old(service.book.Model())
    ensures subscriber.State() == ReceiveAll(old(subscriber.State()), old(feed.queue.Queue()))
  {
    var applied := PublishAvailable(feed.queue, subscriber);
  }

  /** The same with the objects: serve everything inbound, then drain the feed's queue into a new subscriber. */
  method ServeAndShow(service: MatchingEngineService, inbound: Spsc.BoundedQueue<Inbound>, log: EventCaptureFeed?, feed: MarketDataFeed,
                      subscriber: MarketDataBook, ghost interval: nat) returns (count: nat)
    requires service.Valid() && inbound.Valid() && LogReady(log) && FeedReady(feed) && service.Apart(inbound, log, feed)
    requires service.State() == IDLE && feed.State() == NewFeed(interval) && feed.queue.Queue() == []
    requires subscriber.State() == NEW_SUBSCRIBER && |inbound.Queue()| < LAST_SEQUENCE
    modifies service, service.book, inbound, inbound.buffer, LogCells(log), FeedCells(feed), subscriber
    ensures service.Valid() && count == |old(inbound.Queue())|
    ensures subscriber.last == Some(count) ==> Shows(subscriber.image, service.book.Model())
  {
    ghost var ins, n := inbound.Queue(), feed.queue.n;
    assert FeedState(feed) == Some(FeedView(NewFeed(interval), [], n));
    count := Serving(service, inbound, log, feed, subscriber);
    if subscriber.last == Some(count) { LastIsLive(interval, n, ins); }
  }

  /** What a subscriber shows once everything was served and the queue drained. */
  function Screen(u: Subscriber, feed: Option<FeedView>, b: Book, ins: seq<Inbound>): Subscriber {
    var v := FeedAfter(feed, b, ins);
    if v.None? then u else ReceiveAll(u, v.value.queue)
  }

  lemma LastIsLive(interval: nat, n: nat, ins: seq<Inbound>)
    requires |ins| < LAST_SEQUENCE
    ensures var u := Screen(NEW_SUBSCRIBER, Some(FeedView(NewFeed(interval), [], n)), EMPTY, ins);
            u.last.Some? && u.last.value == |ins| ==> Shows(u.image, Serve(IDLE, ins).0.book)
  {
    ScreenShowsTheBook(interval, n, ins);
  }

  method Serving(service: MatchingEngineService, inbound: Spsc.BoundedQueue<Inbound>, log: EventCaptureFeed?, feed: MarketDataFeed,
                 subscriber: MarketDataBook) returns (count: nat)
    requires service.Valid() && inbound.Valid() && LogReady(log) && FeedReady(feed) && service.Apart(inbound, log, feed)
    modifies service, service.book, inbound, inbound.buffer, LogCells(log), FeedCells(feed), subscriber
    ensures service.Valid() && count == |old(inbound.Queue())|
    ensures service.book.Model() == Serve(old(service.State()), old(inbound.Queue())).0.book
    ensures subscriber.State() ==
            Screen(old(subscriber.State()), old(FeedState(feed)), old(service.book.Model()), old(inbound.Queue()))
  {
    ghost var u := subscriber.State();
    count := service.ProcessAvailable(inbound, log, feed);
    assert subscriber.State() == u && FeedState(feed).Some? && FeedState(feed).value.queue == feed.queue.Queue();
    Drain(service, inbound, feed, subscriber);
  }
}
