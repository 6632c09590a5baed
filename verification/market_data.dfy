/** The market-data feed: sequenced depth images, dropped when the queue is full,
    with snapshots that let a subscriber recover. */
module MarketData {
  import opened Types
  import opened BookSpec
  import opened BookInvariant
  import opened BookLevels

  const DEPTH: nat := 5
  const LAST_SEQUENCE: int := TWO64 - 1

  datatype Kind = Snapshot | DepthUpdate

  /** The best five levels of each side, padded with nothing. */
  datatype Image = Image(bids: seq<Option<LevelQuote>>, asks: seq<Option<LevelQuote>>)

  function ImageOf(b: Book): Image {
    Image(Padded(Depth(b.bids, DEPTH), DEPTH), Padded(Depth(b.asks, DEPTH), DEPTH))
  }

  /** Five entries of one side: entry `i` quotes the level that `i` others are better than, and is
      empty if there are no more than `i` levels. */
  predicate SideShown(s: Side, q: seq<Slot>, shown: seq<Option<LevelQuote>>) {
    && |shown| == 5
    && forall i :: 0 <= i < 5 ==>
         if i < |AllPrices(q)| then shown[i].Some? && Ranked(s, q, shown[i].value, i) else shown[i].None?
  }

  /** The image shows the five best bids and the five best asks of the book. */
  predicate Shows(image: Image, b: Book) {
    SideShown(Buy, b.bids, image.bids) && SideShown(Sell, b.asks, image.asks)
  }

  lemma SideIsShown(s: Side, q: seq<Slot>)
    requires Sorted(s, q)
    ensures SideShown(s, q, Padded(Depth(q, DEPTH), DEPTH))
  {
    DepthIsRanked(s, q, DEPTH);
  }

  lemma ImageShows(b: Book)
    requires Wf(b)
    ensures Shows(ImageOf(b), b)
  {
    assert Sorted(Buy, b.On(Buy)) && Sorted(Sell, b.On(Sell));
    SideIsShown(Buy, b.bids);
    SideIsShown(Sell, b.asks);
  }

  datatype Event = Event(sequence: Option<Sequence>, kind: Kind, image: Image)

  // ----- the feed -----

  datatype Feed = Feed(next: U64, interval: nat, updates: nat, pending: bool)

  function NewFeed(interval: nat): Feed {
    Feed(1, if interval < 1 then 1 else interval, 0, true)
  }

  /** One publish: the feed afterwards and the event offered to the queue, if any.
      `room` says whether the queue takes it. */
  function Publish(f: Feed, image: Image, room: bool): (Feed, Option<Event>) {
    if f.next == 0 || f.next == LAST_SEQUENCE then (f.(pending := true), None)
    else
      var g := f.(next := f.next + 1);
      var kind := if f.pending then Snapshot else DepthUpdate;
      if !room then (g.(pending := true), None)
      else if kind.Snapshot? then (g.(pending := false, updates := 0), Some(Event(Some(f.next), kind, image)))
      else
        (g.(updates := f.updates + 1, pending := f.updates + 1 >= f.interval),
         Some(Event(Some(f.next), kind, image)))
  }

  // ----- the subscriber -----

  datatype Subscriber = Subscriber(image: Image, last: Option<Sequence>, synchronized: bool)

  const NO_LEVELS: seq<Option<LevelQuote>> := [None, None, None, None, None]

  const NEW_SUBSCRIBER: Subscriber := Subscriber(Image(NO_LEVELS, NO_LEVELS), None, false)

  predicate IsNext(previous: Sequence, current: Sequence) {
    previous != LAST_SEQUENCE && current == previous + 1
  }

  function Receive(u: Subscriber, e: Event): (Subscriber, bool) {
    if e.sequence.None? then (u, false)
    else if e.kind.Snapshot? then (Subscriber(e.image, e.sequence, true), true)
    else if !u.synchronized || u.last.None? || !IsNext(u.last.value, e.sequence.value) then
      (u.(synchronized := false), false)
    else (u.(image := e.image, last := e.sequence), true)
  }

  /** An event without a number is refused and changes nothing, not even the synchronization. */
  lemma UnnumberedIsIgnored(u: Subscriber, e: Event)
    requires e.sequence.None?
    ensures Receive(u, e) == (u, false)
  {
  }

  function ReceiveAll(u: Subscriber, es: seq<Event>): Subscriber
    decreases |es|
  {
    if es == [] then u else ReceiveAll(Receive(u, es[0]).0, es[1..])
  }

  // ----- feed, queue and subscriber together -----

  /** `sent` records every event the queue ever took, `history` the book of every
      numbered publish; the queue is what of `sent` was not yet delivered. */
  datatype System = System(feed: Feed, sent: seq<Event>, delivered: nat, subscriber: Subscriber,
                           rejected: nat, history: seq<Book>)

  datatype Action = PublishBook(book: Book, room: bool) | Deliver

  function Start(interval: nat): System {
    System(NewFeed(interval), [], 0, NEW_SUBSCRIBER, 0, [])
  }

  function Step(s: System, a: Action): System {
    match a
    case PublishBook(b, room) =>
      var image := ImageOf(b);
      var (f, e) := Publish(s.feed, image, room);
      s.(feed := f, sent := if e.Some? then s.sent + [e.value] else s.sent,
         history := if f.next != s.feed.next then s.history + [b] else s.history)
    case Deliver =>
      if s.delivered >= |s.sent| then s
      else
        var (u, ok) := Receive(s.subscriber, s.sent[s.delivered]);
        s.(subscriber := u, delivered := s.delivered + 1, rejected := if ok then s.rejected else s.rejected + 1)
  }

  function Run(s: System, actions: seq<Action>): System
    decreases |actions|
  {
    if actions == [] then s else Run(Step(s, actions[0]), actions[1..])
  }

  // ----- the invariant -----

  /** An event is numbered, and carries the image of the book published under that number. */
  predicate Genuine(e: Event, history: seq<Book>) {
    e.sequence.Some? && e.sequence.value <= |history| && e.image == ImageOf(history[e.sequence.value - 1])
  }

  /** What a queued event owes its predecessor: a snapshot owes nothing but order,
      an update carries the very next number. */
  predicate Continues(previous: Event, e: Event)
    requires previous.sequence.Some? && e.sequence.Some?
  {
    previous.sequence.value < e.sequence.value
    && (e.kind.DepthUpdate? ==> e.sequence.value == previous.sequence.value + 1)
  }

  predicate SentAt(sent: seq<Event>, history: seq<Book>, i: nat)
    requires i < |sent|
  {
    && Genuine(sent[i], history)
    && (i == 0 ==> sent[i].kind.Snapshot?)
    && (i > 0 ==> sent[i - 1].sequence.Some? && Continues(sent[i - 1], sent[i]))
  }

  /** The number of updates after the last snapshot. */
  function SinceSnapshot(es: seq<Event>): nat {
    if es == [] || es[|es| - 1].kind.Snapshot? then 0 else 1 + SinceSnapshot(es[..|es| - 1])
  }

  predicate Numbered(s: System) {
    && 1 <= s.feed.next <= LAST_SEQUENCE && |s.history| == s.feed.next - 1
    && s.feed.interval >= 1
    && (forall i :: 0 <= i < |s.sent| ==> SentAt(s.sent, s.history, i))
  }

  predicate Paced(s: System) {
    && s.feed.updates == SinceSnapshot(s.sent) <= s.feed.interval
    && (forall k :: 0 <= k <= |s.sent| ==> SinceSnapshot(s.sent[..k]) <= s.feed.interval)
    && (!s.feed.pending ==>
          s.sent != [] && s.feed.updates < s.feed.interval
          && s.sent[|s.sent| - 1].sequence == Some(s.feed.next - 1))
  }

  predicate Followed(s: System) {
    && s.delivered <= |s.sent| && s.rejected == 0
    && (s.delivered == 0 ==> s.subscriber == NEW_SUBSCRIBER)
    && (s.delivered > 0 ==>
          var e := s.sent[s.delivered - 1];
          s.subscriber == Subscriber(e.image, e.sequence, true))
  }

  predicate Inv(s: System) { Numbered(s) && Paced(s) && Followed(s) }

  lemma SentKeeps(sent: seq<Event>, history: seq<Book>, more: seq<Event>, history': seq<Book>)
    requires forall i :: 0 <= i < |sent| ==> SentAt(sent, history, i)
    requires history <= history'
    ensures forall i :: 0 <= i < |sent| ==> SentAt(sent + more, history', i)
  {
    forall i | 0 <= i < |sent| ensures SentAt(sent + more, history', i) {
      assert SentAt(sent, history, i);
    }
  }

  lemma SinceSnoc(es: seq<Event>, e: Event)
    ensures SinceSnapshot(es + [e]) == if e.kind.Snapshot? then 0 else 1 + SinceSnapshot(es)
  {
    assert (es + [e])[..|es|] == es;
  }

  lemma SentMore(sent: seq<Event>, history: seq<Book>, e: Event, history': seq<Book>)
    requires forall i :: 0 <= i < |sent| ==> SentAt(sent, history, i)
    requires history <= history' && SentAt(sent + [e], history', |sent|)
    ensures forall i :: 0 <= i < |sent| + 1 ==> SentAt(sent + [e], history', i)
  {
    SentKeeps(sent, history, [e], history');
  }

  lemma PacedMore(sent: seq<Event>, e: Event, interval: nat)
    requires forall k :: 0 <= k <= |sent| ==> SinceSnapshot(sent[..k]) <= interval
    requires SinceSnapshot(sent + [e]) <= interval
    ensures forall k :: 0 <= k <= |sent| + 1 ==> SinceSnapshot((sent + [e])[..k]) <= interval
  {
    var more := sent + [e];
    forall k | 0 <= k <= |sent| + 1 ensures SinceSnapshot(more[..k]) <= interval {
      if k <= |sent| { assert more[..k] == sent[..k]; } else { assert more[..k] == more; }
    }
  }

  /** A publish that queues nothing. */
  lemma DropKeeps(s: System, b: Book, room: bool)
    requires Inv(s) && Publish(s.feed, ImageOf(b), room).1.None?
    ensures Inv(Step(s, PublishBook(b, room)))
  {
    SentKeeps(s.sent, s.history, [], Step(s, PublishBook(b, room)).history);
    assert s.sent + [] == s.sent;
  }

  /** A publish that queues event `e` keeps numbers, pace and subscriber in order. */
  lemma QueueKeeps(s: System, b: Book, room: bool, e: Event)
    requires Inv(s) && Publish(s.feed, ImageOf(b), room).1 == Some(e)
    ensures Inv(Step(s, PublishBook(b, room)))
  {
    var s' := Step(s, PublishBook(b, room));
    var n := |s.sent|;
    if n > 0 { assert SentAt(s.sent, s.history, n - 1); }
    assert SentAt(s'.sent, s'.history, n);
    SentMore(s.sent, s.history, e, s'.history);
    SinceSnoc(s.sent, e);
    PacedMore(s.sent, e, s.feed.interval);
  }

  lemma PublishKeeps(s: System, b: Book, room: bool)
    requires Inv(s)
    ensures Inv(Step(s, PublishBook(b, room)))
  {
    match Publish(s.feed, ImageOf(b), room).1
    case None => DropKeeps(s, b, room);
    case Some(e) => QueueKeeps(s, b, room, e);
  }

  lemma DeliverKeeps(s: System)
    requires Inv(s)
    ensures Inv(Step(s, Deliver))
  {
    if s.delivered < |s.sent| {
      assert SentAt(s.sent, s.history, s.delivered);
      if s.delivered > 0 { assert SentAt(s.sent, s.history, s.delivered - 1); }
    }
  }

  lemma StepKeeps(s: System, a: Action)
    requires Inv(s)
    ensures Inv(Step(s, a))
  {
    match a
    case PublishBook(b, room) => PublishKeeps(s, b, room);
    case Deliver => DeliverKeeps(s);
  }

  lemma {:induction false} RunKeeps(s: System, actions: seq<Action>)
    requires Inv(s)
    ensures Inv(Run(s, actions))
    decreases |actions|
  {
    if actions != [] {
      StepKeeps(s, actions[0]);
      RunKeeps(Step(s, actions[0]), actions[1..]);
    }
  }

  lemma StartHolds(interval: nat)
    ensures Inv(Start(interval))
  {
  }

  /** The books published, in order. */
  function Published(actions: seq<Action>): seq<Book>
    decreases |actions|
  {
    if actions == [] then []
    else (if actions[0].PublishBook? then [actions[0].book] else []) + Published(actions[1..])
  }

  /** Every publish is numbered, until the numbers run out. */
  lemma {:induction false} HistoryGrows(s: System, actions: seq<Action>)
    requires Inv(s)
    ensures var s' := Run(s, actions);
            && s'.history <= s.history + Published(actions)
            && (|s.history| + |Published(actions)| < LAST_SEQUENCE ==> s'.history == s.history + Published(actions))
            && s'.feed.interval == s.feed.interval && s.history <= s'.history && |s'.history| < LAST_SEQUENCE
    decreases |actions|
  {
    if actions == [] {
      assert s.history + [] == s.history;
    } else {
      var s1, rest := Step(s, actions[0]), Published(actions[1..]);
      StepKeeps(s, actions[0]);
      HistoryGrows(s1, actions[1..]);
      HistoryStep(s, actions[0]);
      if actions[0].PublishBook? { PrefixMore(s.history, actions[0].book, rest, s1.history, Run(s1, actions[1..]).history); }
      assert [] + rest == rest;
    }
  }

  lemma HistoryStep(s: System, a: Action)
    requires Inv(s)
    ensures var h, h' := s.history, Step(s, a).history;
            && (a.Deliver? ==> h' == h)
            && (a.PublishBook? ==> h' == h + [a.book] || (h' == h && |h| >= LAST_SEQUENCE - 1))
            && Step(s, a).feed.interval == s.feed.interval
  {
  }

  lemma PrefixMore(h: seq<Book>, b: Book, rest: seq<Book>, h1: seq<Book>, h2: seq<Book>)
    requires (h1 == h + [b] || (h1 == h && |h| >= LAST_SEQUENCE - 1)) && h1 <= h2 <= h1 + rest && |h2| < LAST_SEQUENCE
    requires |h1| + |rest| < LAST_SEQUENCE ==> h2 == h1 + rest
    ensures h2 <= h + ([b] + rest)
    ensures |h| + |[b] + rest| < LAST_SEQUENCE ==> h2 == h + ([b] + rest)
  {
    assert h + [b] + rest == h + ([b] + rest);
  }

  /** Every interleaving of publishes, drops and deliveries: the subscriber rejects nothing, and
      what it shows are the five best bids and asks of the book at the publish that carried its
      last sequence number. */
  lemma SubscriberIsExact(interval: nat, actions: seq<Action>)
    ensures var s := Run(Start(interval), actions);
            && s.rejected == 0 && s.history <= Published(actions)
            && (s.subscriber.last.None? ==> s.delivered == 0 && s.subscriber.image == Image(NO_LEVELS, NO_LEVELS))
            && (s.subscriber.last.Some? ==>
                  && s.subscriber.synchronized && s.subscriber.last.value <= |s.history|
                  && var b := s.history[s.subscriber.last.value - 1];
                     Wf(b) ==> Shows(s.subscriber.image, b))
  {
    var s := Reached(interval, actions);
    HistoryGrows(Start(interval), actions);
    assert [] + Published(actions) == Published(actions);
    FollowedShows(s);
    if s.subscriber.last.Some? && Wf(s.history[s.subscriber.last.value - 1]) {
      ImageShows(s.history[s.subscriber.last.value - 1]);
    }
  }

  lemma Reached(interval: nat, actions: seq<Action>) returns (s: System)
    ensures s == Run(Start(interval), actions) && Inv(s)
    ensures s.feed.interval == if interval < 1 then 1 else interval
  {
    StartHolds(interval);
    HistoryGrows(Start(interval), actions);
    RunKeeps(Start(interval), actions);
    s := Run(Start(interval), actions);
  }

  lemma FollowedShows(s: System)
    requires Inv(s)
    ensures s.rejected == 0
    ensures s.subscriber.last.None? ==> s.delivered == 0 && s.subscriber.image == Image(NO_LEVELS, NO_LEVELS)
    ensures s.subscriber.last.Some? ==>
              && s.subscriber.synchronized && s.subscriber.last.value <= |s.history|
              && s.subscriber.image == ImageOf(s.history[s.subscriber.last.value - 1])
  {
    if s.delivered > 0 { assert SentAt(s.sent, s.history, s.delivered - 1); }
  }

  // ----- gap recovery -----

  /** The subscriber shows the image of its last number, if it has one. */
  predicate Showing(u: Subscriber, history: seq<Book>) {
    u.last.Some? ==> u.last.value <= |history| && u.image == ImageOf(history[u.last.value - 1])
  }

  /** However many events a subscriber misses, an update it applies follows its
      predecessor's number directly, and it never shows anything but the image of
      its last number. */
  lemma MissingEventsAreHarmless(s: System, u: Subscriber, i: nat)
    requires Inv(s) && i < |s.sent| && Showing(u, s.history)
    ensures var (u', ok) := Receive(u, s.sent[i]);
            && Showing(u', s.history)
            && (ok ==> u'.synchronized && u'.last == s.sent[i].sequence)
            && (ok && s.sent[i].kind.DepthUpdate? ==>
                  u.synchronized && u.last.Some? && s.sent[i].sequence == Some(u.last.value + 1))
            && (!ok ==> u' == u.(synchronized := false))
  {
    assert SentAt(s.sent, s.history, i);
    ReceiveOne(u, s.sent[i], s.history);
  }

  lemma ReceiveOne(u: Subscriber, e: Event, history: seq<Book>)
    requires Genuine(e, history) && Showing(u, history)
    ensures var (u', ok) := Receive(u, e);
            && Showing(u', history)
            && (ok ==> u'.synchronized && u'.last == e.sequence)
            && (ok && e.kind.DepthUpdate? ==> u.synchronized && u.last.Some? && e.sequence == Some(u.last.value + 1))
            && (!ok ==> u' == u.(synchronized := false))
  {
  }

  /** The events at the given positions, in the given order. */
  function Picked(es: seq<Event>, picks: seq<nat>): seq<Event>
    requires forall k :: 0 <= k < |picks| ==> picks[k] < |es|
  {
    seq(|picks|, k requires 0 <= k < |picks| => es[picks[k]])
  }

  lemma {:induction false} SubsetShows(s: System, u: Subscriber, picks: seq<nat>)
    requires Inv(s) && Showing(u, s.history) && forall k :: 0 <= k < |picks| ==> picks[k] < |s.sent|
    ensures Showing(ReceiveAll(u, Picked(s.sent, picks)), s.history)
    decreases |picks|
  {
    if picks != [] {
      MissingEventsAreHarmless(s, u, picks[0]);
      assert Picked(s.sent, picks)[1..] == Picked(s.sent, picks[1..]);
      SubsetShows(s, Receive(u, s.sent[picks[0]]).0, picks[1..]);
    }
  }

  /** A subscriber that sees any subset of the queued events shows, at the end, the five best
      levels of the book published under the last number it accepted. */
  lemma AnySubsetIsHarmless(interval: nat, actions: seq<Action>, picks: seq<nat>)
    requires forall k :: 0 <= k < |picks| ==> picks[k] < |Run(Start(interval), actions).sent|
    ensures var s := Run(Start(interval), actions);
            var u := ReceiveAll(NEW_SUBSCRIBER, Picked(s.sent, picks));
            u.last.Some? ==>
              && u.last.value <= |s.history|
              && (Wf(s.history[u.last.value - 1]) ==> Shows(u.image, s.history[u.last.value - 1]))
  {
    var s := Reached(interval, actions);
    SubsetShows(s, NEW_SUBSCRIBER, picks);
    var u := ReceiveAll(NEW_SUBSCRIBER, Picked(s.sent, picks));
    if u.last.Some? && Wf(s.history[u.last.value - 1]) { ImageShows(s.history[u.last.value - 1]); }
  }

  lemma {:induction false} UpdatesCount(es: seq<Event>, n: nat)
    requires n <= |es| && forall i :: |es| - n <= i < |es| ==> es[i].kind.DepthUpdate?
    ensures SinceSnapshot(es) >= n
    decreases n
  {
    if n > 0 { UpdatesCount(es[..|es| - 1], n - 1); }
  }

  /** Any interval + 1 consecutive queued events contain a snapshot. */
  lemma SnapshotsRecur(s: System, i: nat)
    requires Inv(s) && i + s.feed.interval + 1 <= |s.sent|
    ensures exists j :: i <= j <= i + s.feed.interval && s.sent[j].kind.Snapshot?
  {
    var k := i + s.feed.interval + 1;
    if forall j :: i <= j < k ==> s.sent[j].kind.DepthUpdate? {
      UpdatesCount(s.sent[..k], s.feed.interval + 1);
    }
  }

  /** The subscriber shows exactly event `e` and is synchronized. */
  function CaughtUp(e: Event): Subscriber { Subscriber(e.image, e.sequence, true) }

  /** Once it shows an event, a subscriber that misses nothing goes on to show each event after it. */
  lemma {:induction false} StaysSynchronized(s: System, u: Subscriber, i: nat, k: nat)
    requires Inv(s) && 0 < i <= k <= |s.sent| && u == CaughtUp(s.sent[i - 1])
    ensures ReceiveAll(u, s.sent[i..k]) == CaughtUp(s.sent[k - 1])
    decreases k - i
  {
    if i < k {
      assert SentAt(s.sent, s.history, i) && SentAt(s.sent, s.history, i - 1);
      assert s.sent[i..k][0] == s.sent[i] && s.sent[i..k][1..] == s.sent[i + 1..k];
      StaysSynchronized(s, Receive(u, s.sent[i]).0, i + 1, k);
    }
  }

  lemma {:induction false} CatchesUp(s: System, u: Subscriber, i: nat, j: nat, k: nat)
    requires Inv(s) && i <= j < k <= |s.sent| && s.sent[j].kind.Snapshot?
    ensures ReceiveAll(u, s.sent[i..k]) == CaughtUp(s.sent[k - 1])
    decreases j - i
  {
    assert SentAt(s.sent, s.history, i);
    assert s.sent[i..k][0] == s.sent[i] && s.sent[i..k][1..] == s.sent[i + 1..k];
    var u' := Receive(u, s.sent[i]).0;
    if i == j {
      StaysSynchronized(s, u', i + 1, k);
    } else {
      CatchesUp(s, u', i + 1, j, k);
    }
  }

  lemma RecoversWithin(s: System, u: Subscriber, i: nat, k: nat)
    requires Inv(s) && k == i + s.feed.interval + 1 <= |s.sent|
    ensures ReceiveAll(u, s.sent[i..k]) == CaughtUp(s.sent[k - 1])
    ensures Genuine(s.sent[k - 1], s.history)
  {
    SnapshotsRecur(s, i);
    var j :| i <= j <= i + s.feed.interval && s.sent[j].kind.Snapshot?;
    CatchesUp(s, u, i, j, k);
    assert SentAt(s.sent, s.history, k - 1);
  }

  /** Any max(interval, 1) + 1 consecutive queued events contain a snapshot. */
  lemma SnapshotsAreFrequent(interval: nat, actions: seq<Action>, i: nat)
    requires i + (if interval < 1 then 1 else interval) + 1 <= |Run(Start(interval), actions).sent|
    ensures var s := Run(Start(interval), actions);
            exists j :: i <= j <= i + (if interval < 1 then 1 else interval) && s.sent[j].kind.Snapshot?
  {
    var s := Reached(interval, actions);
    SnapshotsRecur(s, i);
  }

  /** A subscriber in any state that stops missing events has caught up after
      max(interval, 1) + 1 of them: it is synchronized on the last one's number and shows the
      five best levels of the book published under it. */
  lemma GapRecovery(interval: nat, actions: seq<Action>, u: Subscriber, i: nat, k: nat)
    requires k == i + (if interval < 1 then 1 else interval) + 1 <= |Run(Start(interval), actions).sent|
    ensures var s := Run(Start(interval), actions);
            var u' := ReceiveAll(u, s.sent[i..k]);
            && u'.synchronized && u'.last.Some? && u'.last == s.sent[k - 1].sequence && u'.last.value <= |s.history|
            && u'.image == s.sent[k - 1].image
            && (Wf(s.history[u'.last.value - 1]) ==> Shows(u'.image, s.history[u'.last.value - 1]))
  {
    var s := Reached(interval, actions);
    RecoversWithin(s, u, i, k);
    var n := s.sent[k - 1].sequence.value;
    if Wf(s.history[n - 1]) { ImageShows(s.history[n - 1]); }
  }

  // ----- which events are updates -----

  /** The feed asks for a snapshot only at first, after a gap, or when enough updates were sent. */
  predicate PendingIsDue(s: System) {
    s.feed.pending && s.feed.next < LAST_SEQUENCE ==>
      || s.sent == [] || s.sent[|s.sent| - 1].sequence != Some(s.feed.next - 1) || s.feed.updates >= s.feed.interval
  }

  /** Event `i` is an update unless it is the first, follows a gap, or ends a full interval. */
  predicate KindAt(s: System, i: nat)
    requires i < |s.sent|
  {
    s.sent[i].kind.DepthUpdate? <==>
      && i > 0 && s.sent[i].sequence.Some? && s.sent[i - 1].sequence.Some?
      && s.sent[i].sequence.value == s.sent[i - 1].sequence.value + 1
      && SinceSnapshot(s.sent[..i]) < s.feed.interval
  }

  predicate Kinds(s: System) {
    PendingIsDue(s) && forall i :: 0 <= i < |s.sent| ==> KindAt(s, i)
  }

  lemma KindStays(s: System, s': System, i: nat)
    requires i < |s.sent| && KindAt(s, i) && s.sent <= s'.sent && s'.feed.interval == s.feed.interval
    ensures KindAt(s', i)
  {
    assert s'.sent[..i] == s.sent[..i];
  }

  lemma QueuedKind(s: System, b: Book, e: Event)
    requires Inv(s) && Kinds(s) && Publish(s.feed, ImageOf(b), true).1 == Some(e)
    ensures var s' := Step(s, PublishBook(b, true)); KindAt(s', |s.sent|) && PendingIsDue(s')
  {
    var s' := Step(s, PublishBook(b, true));
    assert s'.sent[..|s.sent|] == s.sent;
    if s.sent != [] { assert SentAt(s.sent, s.history, |s.sent| - 1); }
  }

  lemma KindsKeep(s: System, a: Action)
    requires Inv(s) && Kinds(s)
    ensures Kinds(Step(s, a))
  {
    var s' := Step(s, a);
    forall i | 0 <= i < |s.sent| ensures KindAt(s', i) { KindStays(s, s', i); }
    if a.PublishBook? {
      var e := Publish(s.feed, ImageOf(a.book), a.room).1;
      if e.Some? { QueuedKind(s, a.book, e.value); } else { DroppedKind(s, a.book, a.room); }
    }
  }

  lemma DroppedKind(s: System, b: Book, room: bool)
    requires Inv(s) && Kinds(s) && Publish(s.feed, ImageOf(b), room).1.None?
    ensures var s' := Step(s, PublishBook(b, room)); s'.sent == s.sent && PendingIsDue(s')
  {
    if s.sent != [] { assert SentAt(s.sent, s.history, |s.sent| - 1); }
  }

  lemma {:induction false} KindsHold(s: System, actions: seq<Action>)
    requires Inv(s) && Kinds(s)
    ensures Kinds(Run(s, actions))
    decreases |actions|
  {
    if actions != [] {
      StepKeeps(s, actions[0]);
      KindsKeep(s, actions[0]);
      KindsHold(Step(s, actions[0]), actions[1..]);
    }
  }

  /** Every queued event is a depth update exactly if its predecessor was queued right before it
      and fewer than max(interval, 1) updates came since the last snapshot; otherwise a snapshot. */
  lemma SnapshotsOnlyWhenDue(interval: nat, actions: seq<Action>, i: nat)
    requires i < |Run(Start(interval), actions).sent|
    ensures KindAt(Run(Start(interval), actions), i)
  {
    StartHolds(interval);
    KindsHold(Start(interval), actions);
  }
}
