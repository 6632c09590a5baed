/** The feed, the subscriber's book and the publisher as mutable objects around
    the bounded queue, checked against MarketData. */
module MarketDataObjects {
  import opened Types
  import opened BookSpec
  import BookInvariant
  import opened MarketData
  import opened OrderBooks
  import opened Spsc

  class MarketDataFeed {
    var next: U64
    const interval: nat
    const queue: BoundedQueue<Event>
    var updates: nat
    var pending: bool
    var published: nat
    var dropped: nat

    ghost function State(): Feed
      reads this
    {
      Feed(next, interval, updates, pending)
    }

    constructor (queue: BoundedQueue<Event>, snapshotInterval: nat)
      ensures State() == NewFeed(snapshotInterval) && published == dropped == 0 && this.queue == queue
    {
      this.queue := queue;
      next, updates, pending, published, dropped := 1, 0, true, 0, 0;
      interval := if snapshotInterval < 1 then 1 else snapshotInterval;
    }

    /** The five-level image of the book, copied level by level. */
    method MakeEvent(book: OrderBook, kind: Kind, sequence: Sequence) returns (e: Event)
      requires book.Steady()
      ensures e == Event(Some(sequence), kind, ImageOf(book.Model()))
      ensures BookInvariant.Wf(book.Model()) ==> Shows(e.image, book.Model())
    {
      if BookInvariant.Wf(book.Model()) { ImageShows(book.Model()); }
      var bids := new Option<LevelQuote>[DEPTH](_ => None);
      var asks := new Option<LevelQuote>[DEPTH](_ => None);
      book.CopyDepth(bids, asks);
      e := Event(Some(sequence), kind, Image(bids[..], asks[..]));
    }

    /** Queue an event; without room the next event has to be a snapshot. */
    method Offer(e: Event)
      requires queue.Valid()
      modifies this`updates, this`pending, this`published, this`dropped, queue, queue.buffer
      ensures queue.Valid()
      ensures var room := |old(queue.Queue())| < queue.n;
              && queue.Queue() == old(queue.Queue()) + (if room then [e] else [])
              && published == old(published) + (if room then 1 else 0)
              && dropped == old(dropped) + (if room then 0 else 1)
              && updates == (if !room then old(updates) else if e.kind.Snapshot? then 0 else old(updates) + 1)
              && pending == (!room || (!e.kind.Snapshot? && updates >= interval))
    {
      var queued := queue.TryPush(e);
      if !queued {
        dropped, pending := dropped + 1, true;
        return;
      }
      published := published + 1;
      if e.kind.Snapshot? {
        pending, updates := false, 0;
      } else {
        updates := updates + 1;
        pending := updates >= interval;
      }
    }

    method PublishBook(book: OrderBook)
      requires book.Steady() && queue.Valid()
      modifies this, queue, queue.buffer
      ensures queue.Valid()
      ensures var (f, e) := Publish(old(State()), ImageOf(book.Model()), |old(queue.Queue())| < queue.n);
              && State() == f
              && queue.Queue() == old(queue.Queue()) + (if e.Some? then [e.value] else [])
              && published == old(published) + (if e.Some? then 1 else 0)
              && dropped == old(dropped) + (if e.Some? then 0 else 1)
    {
      if next == 0 || next == LAST_SEQUENCE {
        dropped, pending := dropped + 1, true;
        return;
      }
      var sequence := next;
      next := next + 1;
      var e := MakeEvent(book, if pending then Snapshot else DepthUpdate, sequence);
      Offer(e);
    }
  }

  class MarketDataBook {
    var image: Image
    var last: Option<Sequence>
    var synchronized: bool

    ghost function State(): Subscriber
      reads this
    {
      Subscriber(image, last, synchronized)
    }

    constructor ()
      ensures State() == NEW_SUBSCRIBER
    {
      image, last, synchronized := Image(NO_LEVELS, NO_LEVELS), None, false;
    }

    method Apply(e: Event) returns (ok: bool)
      modifies this
      ensures (State(), ok) == Receive(old(State()), e)
    {
      if e.sequence.None? {
        return false;
      }
      if e.kind.Snapshot? {
        image, last, synchronized := e.image, e.sequence, true;
        return true;
      }
      if !synchronized || last.None? || !IsNext(last.value, e.sequence.value) {
        synchronized := false;
        return false;
      }
      image, last := e.image, e.sequence;
      return true;
    }
  }

  /** How many of these events the subscriber applies. */
  function Applied(u: Subscriber, es: seq<Event>): nat
    decreases |es|
  {
    if es == [] then 0 else (if Receive(u, es[0]).1 then 1 else 0) + Applied(Receive(u, es[0]).0, es[1..])
  }

  lemma ReceiveNext(u: Subscriber, e: Event, es: seq<Event>)
    ensures ReceiveAll(u, [e] + es) == ReceiveAll(Receive(u, e).0, es)
    ensures Applied(u, [e] + es) == (if Receive(u, e).1 then 1 else 0) + Applied(Receive(u, e).0, es)
  {
    assert ([e] + es)[1..] == es;
  }

  /** Drain the queue into a subscriber. */
  method PublishAvailable(queue: BoundedQueue<Event>, subscriber: MarketDataBook) returns (applied: nat)
    requires queue.Valid()
    modifies queue, queue.buffer, subscriber
    ensures queue.Valid() && queue.Queue() == []
    ensures subscriber.State() == ReceiveAll(old(subscriber.State()), old(queue.Queue()))
    ensures applied == Applied(old(subscriber.State()), old(queue.Queue()))
  {
    var junk := Event(None, Snapshot, Image(NO_LEVELS, NO_LEVELS));
    ghost var u, es := subscriber.State(), queue.Queue();
    applied := 0;
    ghost var before := queue.Queue();
    var more, e := queue.TryPop(junk);
    while more
      invariant queue.Valid()
      invariant more ==> Remaining(subscriber.State(), [e] + queue.Queue(), applied, u, es)
      invariant !more ==> queue.Queue() == [] && Remaining(subscriber.State(), [], applied, u, es)
      decreases |queue.Queue()|, more
    {
      ReceiveNext(subscriber.State(), e, queue.Queue());
      var ok := subscriber.Apply(e);
      if ok {
        applied := applied + 1;
      }
      before := queue.Queue();
      more, e := queue.TryPop(junk);
      assert more ==> before == [e] + queue.Queue();
    }
  }

  /** Receiving `rest` from `v`, with `done` applied so far, ends where receiving `es` from `u` does. */
  ghost predicate Remaining(v: Subscriber, rest: seq<Event>, done: nat, u: Subscriber, es: seq<Event>) {
    ReceiveAll(v, rest) == ReceiveAll(u, es) && done + Applied(v, rest) == Applied(u, es)
  }
}
