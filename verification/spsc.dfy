/** The single-producer single-consumer ring as interleaved atomic steps.  Every
    load of the other thread's index, every slot access and every index store is
    a step of its own; a run is any sequence of steps of the two threads. */
module Spsc {
  import opened Types
  import opened Bits

  /** Where the producer is inside try_push; `w` is its local copy of the write index. */
  datatype Producer<T> = PushIdle | PushRefresh(item: T, w: nat) | PushStore(item: T, w: nat) | PushPublish(item: T, w: nat)

  /** Where the consumer is inside try_pop; `r` is its local copy of the read index. */
  datatype Consumer<T> = PopIdle | PopRefresh(r: nat) | PopLoad(r: nat) | PopPublish(r: nat, out: T)

  /** `pushed` and `popped` record the completed operations. */
  datatype Ring<T> = Ring(buffer: seq<T>, write: nat, read: nat, cachedRead: nat, cachedWrite: nat,
                          p: Producer<T>, c: Consumer<T>, pushed: seq<T>, popped: seq<T>)

  /** `Push(item)` starts a push; `PopStep(junk)` may leave any value in a slot it moves from. */
  datatype Action<T> = Push(item: T) | PushStep | Pop | PopStep(junk: T)

  /** Index arithmetic: 64-bit, or without bound. */
  datatype Counters = Wrapped | Unbounded
  {
    function Next(x: nat): nat { if Wrapped? then Wrap(x + 1) else x + 1 }

    function Distance(x: nat, y: nat): int { if Wrapped? then Wrap(x - y) else x - y }
  }

  /** The static assertion on the capacity, which also fits a 64-bit size. */
  predicate Capacity(n: nat) { 2 <= n < TWO64 && And(n, n - 1) == 0 }

  function Slot(n: nat, x: nat): nat
    requires n >= 1
  {
    And(x, n - 1)
  }

  predicate Shaped<T>(n: nat, s: Ring<T>) { Capacity(n) && |s.buffer| == n }

  function Step<T>(k: Counters, n: nat, s: Ring<T>, a: Action<T>): (s': Ring<T>)
    requires Shaped(n, s)
    ensures Shaped(n, s')
  {
    SlotInRange(n, if s.p.PushStore? then s.p.w else 0);
    SlotInRange(n, if s.c.PopLoad? then s.c.r else 0);
    match a
    case Push(item) =>
      if !s.p.PushIdle? then s
      else if k.Distance(s.write, s.cachedRead) >= n then s.(p := PushRefresh(item, s.write))
      else s.(p := PushStore(item, s.write))
    case PushStep =>
      (match s.p
       case PushIdle => s
       case PushRefresh(item, w) =>
         if k.Distance(w, s.read) >= n then s.(cachedRead := s.read, p := PushIdle)
         else s.(cachedRead := s.read, p := PushStore(item, w))
       case PushStore(item, w) => s.(buffer := s.buffer[Slot(n, w) := item], p := PushPublish(item, w))
       case PushPublish(item, w) => s.(write := k.Next(w), p := PushIdle, pushed := s.pushed + [item]))
    case Pop =>
      if !s.c.PopIdle? then s
      else if s.read == s.cachedWrite then s.(c := PopRefresh(s.read))
      else s.(c := PopLoad(s.read))
    case PopStep(junk) =>
      (match s.c
       case PopIdle => s
       case PopRefresh(r) =>
         if r == s.write then s.(cachedWrite := s.write, c := PopIdle)
         else s.(cachedWrite := s.write, c := PopLoad(r))
       case PopLoad(r) =>
         s.(buffer := s.buffer[Slot(n, r) := junk], c := PopPublish(r, s.buffer[Slot(n, r)]))
       case PopPublish(r, out) => s.(read := k.Next(r), c := PopIdle, popped := s.popped + [out]))
  }

  function Run<T>(k: Counters, n: nat, s: Ring<T>, actions: seq<Action<T>>): Ring<T>
    requires Shaped(n, s)
    decreases |actions|
  {
    if actions == [] then s else Run(k, n, Step(k, n, s, actions[0]), actions[1..])
  }

  /** The ring as constructed. */
  function Fresh<T>(buffer: seq<T>): Ring<T> {
    Ring(buffer, 0, 0, 0, 0, PushIdle, PopIdle, [], [])
  }

  // ----- slots -----

  lemma SlotIsRemainder(n: nat, x: nat)
    requires Capacity(n)
    ensures Slot(n, x) == x % n
  {
    PowerOfTwoTest(n);
    var k: nat :| n == Pow2(k);
    MaskIsRemainder(x, k);
  }

  lemma SlotInRange(n: nat, x: nat)
    requires Capacity(n)
    ensures Slot(n, x) < n
  {
    SlotIsRemainder(n, x);
  }

  /** Indices less than a capacity apart use different slots. */
  lemma SlotsDiffer(n: nat, x: nat, y: nat)
    requires Capacity(n) && x < y < x + n
    ensures Slot(n, x) != Slot(n, y)
  {
    SlotIsRemainder(n, x);
    SlotIsRemainder(n, y);
    RemaindersDiffer(n, x, y);
  }

  // ----- the invariant, with unbounded counters -----

  predicate Indices<T>(n: nat, s: Ring<T>) {
    && s.write == |s.pushed| && s.read == |s.popped|
    && s.read <= s.cachedWrite <= s.write
    && s.cachedRead <= s.read
    && s.write - s.cachedRead <= n
  }

  predicate Positions<T>(n: nat, s: Ring<T>) {
    && (s.p.PushRefresh? ==> s.p.w == s.write)
    && (s.p.PushStore? || s.p.PushPublish? ==> s.p.w == s.write && s.write < s.cachedRead + n)
    && (s.c.PopRefresh? ==> s.c.r == s.read)
    && (s.c.PopLoad? || s.c.PopPublish? ==> s.c.r == s.read && s.read < s.cachedWrite)
  }

  /** The first index whose slot still holds what was pushed. */
  function FirstHeld<T>(s: Ring<T>): nat { if s.c.PopPublish? then s.read + 1 else s.read }

  ghost predicate Held<T>(n: nat, s: Ring<T>, i: nat)
    requires Shaped(n, s) && i < |s.pushed|
  {
    SlotInRange(n, i);
    s.buffer[Slot(n, i)] == s.pushed[i]
  }

  ghost predicate Data<T>(n: nat, s: Ring<T>)
    requires Shaped(n, s) && Indices(n, s)
  {
    && s.popped == s.pushed[..s.read]
    && (forall i :: FirstHeld(s) <= i < s.write ==> Held(n, s, i))
    && (s.c.PopPublish? && s.read < s.write ==> s.c.out == s.pushed[s.read])
    && (s.p.PushPublish? ==> (SlotInRange(n, s.write); s.buffer[Slot(n, s.write)] == s.p.item))
  }

  ghost predicate Inv<T>(n: nat, s: Ring<T>) {
    Shaped(n, s) && Indices(n, s) && Positions(n, s) && Data(n, s)
  }

  lemma PushKeeps<T>(n: nat, s: Ring<T>)
    requires Inv(n, s)
    ensures Inv(n, Step(Unbounded, n, s, PushStep))
  {
    var s' := Step(Unbounded, n, s, PushStep);
    match s.p
    case PushIdle =>
    case PushRefresh(item, w) =>
      forall i | FirstHeld(s) <= i < s.write ensures Held(n, s', i) { assert Held(n, s, i); }
    case PushStore(item, w) =>
      SlotInRange(n, w);
      forall i | FirstHeld(s) <= i < s.write ensures Held(n, s', i) {
        assert Held(n, s, i);
        SlotsDiffer(n, i, w);
        SlotInRange(n, i);
      }
    case PushPublish(item, w) =>
      forall i | FirstHeld(s) <= i < s'.write ensures Held(n, s', i) {
        if i < s.write { assert Held(n, s, i); }
      }
  }

  lemma PopKeeps<T>(n: nat, s: Ring<T>, junk: T)
    requires Inv(n, s)
    ensures Inv(n, Step(Unbounded, n, s, PopStep(junk)))
  {
    var s' := Step(Unbounded, n, s, PopStep(junk));
    match s.c
    case PopIdle =>
    case PopRefresh(r) =>
      forall i | FirstHeld(s) <= i < s.write ensures Held(n, s', i) { assert Held(n, s, i); }
    case PopLoad(r) =>
      SlotInRange(n, r);
      assert Held(n, s, r);
      forall i | r + 1 <= i < s.write ensures Held(n, s', i) {
        assert Held(n, s, i);
        SlotsDiffer(n, r, i);
        SlotInRange(n, i);
      }
      if s.p.PushPublish? {
        SlotsDiffer(n, r, s.write);
        SlotInRange(n, s.write);
      }
    case PopPublish(r, out) =>
      forall i | r + 1 <= i < s.write ensures Held(n, s', i) { assert Held(n, s, i); }
  }

  lemma StartKeeps<T>(n: nat, s: Ring<T>, a: Action<T>)
    requires Inv(n, s) && (a.Push? || a.Pop?)
    ensures Inv(n, Step(Unbounded, n, s, a))
  {
    var s' := Step(Unbounded, n, s, a);
    forall i | FirstHeld(s) <= i < s.write ensures Held(n, s', i) { assert Held(n, s, i); }
  }

  lemma StepKeeps<T>(n: nat, s: Ring<T>, a: Action<T>)
    requires Inv(n, s)
    ensures Inv(n, Step(Unbounded, n, s, a))
  {
    match a
    case Push(_) => StartKeeps(n, s, a);
    case Pop => StartKeeps(n, s, a);
    case PushStep => PushKeeps(n, s);
    case PopStep(junk) => PopKeeps(n, s, junk);
  }

  // ----- 64-bit counters make the same decisions -----

  function WrapProducer<T>(p: Producer<T>): Producer<T> {
    match p
    case PushIdle => p
    case PushRefresh(item, w) => PushRefresh(item, Wrap(w))
    case PushStore(item, w) => PushStore(item, Wrap(w))
    case PushPublish(item, w) => PushPublish(item, Wrap(w))
  }

  function WrapConsumer<T>(c: Consumer<T>): Consumer<T> {
    match c
    case PopIdle => c
    case PopRefresh(r) => PopRefresh(Wrap(r))
    case PopLoad(r) => PopLoad(Wrap(r))
    case PopPublish(r, out) => PopPublish(Wrap(r), out)
  }

  /** The 64-bit image of a ring with unbounded counters. */
  function Image<T>(s: Ring<T>): Ring<T> {
    s.(write := Wrap(s.write), read := Wrap(s.read), cachedRead := Wrap(s.cachedRead),
       cachedWrite := Wrap(s.cachedWrite), p := WrapProducer(s.p), c := WrapConsumer(s.c))
  }

  lemma SlotWraps(n: nat, x: nat)
    requires Capacity(n)
    ensures Slot(n, Wrap(x)) == Slot(n, x)
  {
    SlotIsRemainder(n, x);
    SlotIsRemainder(n, Wrap(x));
    PowerOfTwoTest(n);
    var k: nat :| n == Pow2(k);
    CapacityDivides(k);
    NestedRemainder(x, n, TWO64 / n);
  }

  lemma CapacityDivides(k: nat)
    requires Pow2(k) < TWO64
    ensures TWO64 / Pow2(k) > 0 && TWO64 == Pow2(k) * (TWO64 / Pow2(k))
  {
    Pow2Monotone(k);
    Pow2Adds(k, 64 - k);
    Pow2Is64();
    Remainder(TWO64, Pow2(k), Pow2(64 - k), 0);
  }

  lemma {:induction false} Pow2Monotone(k: nat)
    requires Pow2(k) < TWO64
    ensures k < 64
    decreases k
  {
    if k >= 64 {
      Pow2Is64();
      Pow2Adds(64, k - 64);
      Grows(TWO64, Pow2(k - 64));
    }
  }

  /** Distances within a capacity survive reduction modulo 2^64. */
  lemma DistanceWraps(x: nat, y: nat)
    requires y <= x < y + TWO64
    ensures Wrapped.Distance(Wrap(x), Wrap(y)) == Unbounded.Distance(x, y)
    ensures Wrap(x) == Wrap(y) <==> x == y
    ensures Wrapped.Next(Wrap(x)) == Wrap(x + 1)
  {
    WrapDifference(x, y);
    WrapAdd(x, 1);
  }

  lemma StepWraps<T>(n: nat, s: Ring<T>, a: Action<T>)
    requires Inv(n, s)
    ensures Image(Step(Unbounded, n, s, a)) == Step(Wrapped, n, Image(s), a)
  {
    DistanceWraps(s.write, s.cachedRead);
    DistanceWraps(s.write, s.read);
    DistanceWraps(s.cachedWrite, s.read);
    DistanceWraps(s.read, s.read);
    SlotWraps(n, s.write);
    SlotWraps(n, s.read);
  }

  /** For runs of any length, counter overflow included, the 64-bit ring does step
      for step what the ring with unbounded counters does. */
  lemma {:induction false} RunWraps<T>(n: nat, s: Ring<T>, actions: seq<Action<T>>)
    requires Inv(n, s)
    ensures Run(Wrapped, n, Image(s), actions) == Image(Run(Unbounded, n, s, actions))
    ensures Inv(n, Run(Unbounded, n, s, actions))
    decreases |actions|
  {
    if actions != [] {
      StepKeeps(n, s, actions[0]);
      StepWraps(n, s, actions[0]);
      RunWraps(n, Step(Unbounded, n, s, actions[0]), actions[1..]);
    }
  }

  // ----- safety of the 64-bit ring -----

  /** Occupancy, fullness and emptiness at one instant. */
  function Occupancy<T>(s: Ring<T>): nat { Wrapped.Distance(s.write, s.read) }

  predicate Full<T>(n: nat, s: Ring<T>) { Occupancy(s) >= n }

  predicate Empty<T>(s: Ring<T>) { s.write == s.read }

  /** The queue as the slots between the two indices show it. */
  function Contents<T>(n: nat, s: Ring<T>): seq<T>
    requires Shaped(n, s)
  {
    seq(Occupancy(s), i requires 0 <= i => SlotInRange(n, Wrap(s.read + i)); s.buffer[Slot(n, Wrap(s.read + i))])
  }

  lemma ContentsAre<T>(n: nat, u: Ring<T>)
    requires Inv(n, u)
    ensures Occupancy(Image(u)) == u.write - u.read
    ensures forall i :: FirstHeld(u) - u.read <= i < u.write - u.read ==> Contents(n, Image(u))[i] == u.pushed[u.read + i]
  {
    DistanceWraps(u.write, u.read);
    forall i | FirstHeld(u) - u.read <= i < u.write - u.read ensures Contents(n, Image(u))[i] == u.pushed[u.read + i] {
      SlotShows(n, u, u.read + i);
      WrapAdd(u.read, i);
    }
  }

  lemma SlotShows<T>(n: nat, u: Ring<T>, i: nat)
    requires Inv(n, u) && FirstHeld(u) <= i < u.write
    ensures Slot(n, Wrap(i)) < n && u.buffer[Slot(n, Wrap(i))] == u.pushed[i]
  {
    assert Held(n, u, i);
    SlotWraps(n, i);
    SlotInRange(n, i);
  }

  /** Every interleaving, any number of operations: first in, first out, nothing
      lost, duplicated or overwritten; never more than `n` elements; and the two
      threads are never inside the same slot. */
  lemma QueueIsSafe<T>(n: nat, buffer: seq<T>, actions: seq<Action<T>>)
    requires Capacity(n) && |buffer| == n
    ensures var s := Run(Wrapped, n, Fresh(buffer), actions);
            && Shaped(n, s)
            && Occupancy(s) == |s.pushed| - |s.popped| <= n
            && s.popped <= s.pushed
            && (!s.c.PopPublish? ==> s.pushed == s.popped + Contents(n, s))
            && (s.c.PopPublish? ==> Occupancy(s) > 0 && s.pushed == s.popped + [s.c.out] + Contents(n, s)[1..])
            && (s.p.PushStore? && s.c.PopLoad? ==> Slot(n, s.p.w) != Slot(n, s.c.r))
            && (Full(n, s) <==> |s.pushed| - |s.popped| == n)
            && (Empty(s) <==> s.pushed == s.popped)
  {
    var u := Reached(n, buffer, actions);
    var s := Run(Wrapped, n, Fresh(buffer), actions);
    DistanceWraps(u.write, u.read);
    ContentsAre(n, u);
    assert s.pushed == s.popped + s.pushed[u.read..];
    if s.c.PopPublish? {
      assert s.pushed[u.read..] == [s.c.out] + Contents(n, s)[1..];
      assert s.popped + s.pushed[u.read..] == s.popped + [s.c.out] + Contents(n, s)[1..];
    } else {
      assert s.pushed[u.read..] == Contents(n, s);
    }
    if s.p.PushStore? && s.c.PopLoad? {
      SlotWraps(n, u.write);
      SlotWraps(n, u.read);
      SlotsDiffer(n, u.read, u.write);
    }
  }

  lemma Reached<T>(n: nat, buffer: seq<T>, actions: seq<Action<T>>) returns (u: Ring<T>)
    requires Capacity(n) && |buffer| == n
    ensures Inv(n, u) && Run(Wrapped, n, Fresh(buffer), actions) == Image(u)
  {
    var s := Fresh(buffer);
    assert Image(s) == s && Inv(n, s);
    RunWraps(n, s, actions);
    u := Run(Unbounded, n, s, actions);
  }

  /** A refused push means the ring was full, and a refused pop that it was empty,
      at the very load that refreshed the cached index. */
  lemma RefusalsAreHonest<T>(n: nat, buffer: seq<T>, actions: seq<Action<T>>, junk: T)
    requires Capacity(n) && |buffer| == n
    ensures var s := Run(Wrapped, n, Fresh(buffer), actions);
            && Shaped(n, s)
            && (s.p.PushRefresh? ==> (Step(Wrapped, n, s, PushStep).p.PushIdle? <==> |s.pushed| - |s.popped| == n))
            && (s.c.PopRefresh? ==> (Step(Wrapped, n, s, PopStep(junk)).c.PopIdle? <==> s.pushed == s.popped))
  {
    var u := Reached(n, buffer, actions);
    DistanceWraps(u.write, u.read);
  }

  // ----- full() and empty(), which load the two indices one after the other -----

  /** The answers, given the write index loaded first and the read index loaded after it. */
  predicate SaysFull(n: nat, w: nat, r: nat) { Wrapped.Distance(w, r) >= n }

  predicate SaysEmpty(w: nat, r: nat) { w == r }

  predicate ProducerActs<T>(a: Action<T>) { a.Push? || a.PushStep? }

  /** Between the two loads, the thread that makes them does nothing else. */
  predicate ProducerLoads<T>(between: seq<Action<T>>) { forall i :: 0 <= i < |between| ==> !ProducerActs(between[i]) }

  predicate ConsumerLoads<T>(between: seq<Action<T>>) { forall i :: 0 <= i < |between| ==> ProducerActs(between[i]) }

  /** Counters never run backwards, and only their own thread moves them. */
  lemma {:induction false} OnlyOwnersMove<T>(n: nat, u: Ring<T>, between: seq<Action<T>>)
    requires Inv(n, u)
    ensures var u' := Run(Unbounded, n, u, between);
            && Inv(n, u') && u.read <= u'.read && u.write <= u'.write
            && (ProducerLoads(between) ==> u'.write == u.write)
            && (ConsumerLoads(between) ==> u'.read == u.read)
    decreases |between|
  {
    if between != [] {
      StepKeeps(n, u, between[0]);
      OneMoves(n, u, between[0]);
      OnlyOwnersMove(n, Step(Unbounded, n, u, between[0]), between[1..]);
    }
  }

  lemma OneMoves<T>(n: nat, u: Ring<T>, a: Action<T>)
    requires Inv(n, u)
    ensures var u' := Step(Unbounded, n, u, a);
            && u.read <= u'.read && u.write <= u'.write
            && (ProducerActs(a) ==> u'.read == u.read) && (!ProducerActs(a) ==> u'.write == u.write)
  {
  }

  /** For a caller on any thread: what the answers compute, modulo 2^64, from the number of
      pushes at the first load and the number of pops at the second. */
  lemma LoadsCompute<T>(n: nat, buffer: seq<T>, before: seq<Action<T>>, between: seq<Action<T>>)
    requires Capacity(n) && |buffer| == n
    ensures var s := Run(Wrapped, n, Fresh(buffer), before);
            Shaped(n, s)
            && var s' := Run(Wrapped, n, s, between);
               && (SaysFull(n, s.write, s'.read) <==> Wrap(|s.pushed| - |s'.popped|) >= n)
               && (SaysEmpty(s.write, s'.read) <==> Wrap(|s.pushed| - |s'.popped|) == 0)
  {
    var u := Reached(n, buffer, before);
    RunWraps(n, u, between);
    LoadsAre(n, u, Run(Unbounded, n, u, between));
  }

  lemma LoadsAre<T>(n: nat, u: Ring<T>, u': Ring<T>)
    requires Inv(n, u) && Inv(n, u')
    ensures var w, r := Image(u).write, Image(u').read;
            && (SaysFull(n, w, r) <==> Wrap(|u.pushed| - |u'.popped|) >= n)
            && (SaysEmpty(w, r) <==> Wrap(|u.pushed| - |u'.popped|) == 0)
  {
    WrapDifference(u.write, u'.read);
  }

  /** The producer's call answers for the moment of its second load, the consumer's for the
      moment of its first: for those two callers `full` and `empty` are exact. */
  lemma OwnThreadsSeeExactly<T>(n: nat, buffer: seq<T>, before: seq<Action<T>>, between: seq<Action<T>>)
    requires Capacity(n) && |buffer| == n
    ensures var s := Run(Wrapped, n, Fresh(buffer), before);
            Shaped(n, s)
            && var s' := Run(Wrapped, n, s, between);
               && (ProducerLoads(between) ==>
                     && (SaysFull(n, s.write, s'.read) <==> |s'.pushed| - |s'.popped| == n)
                     && (SaysEmpty(s.write, s'.read) <==> s'.pushed == s'.popped))
               && (ConsumerLoads(between) ==>
                     && (SaysFull(n, s.write, s'.read) <==> |s.pushed| - |s.popped| == n)
                     && (SaysEmpty(s.write, s'.read) <==> s.pushed == s.popped))
  {
    var u := Reached(n, buffer, before);
    RunWraps(n, u, between);
    OnlyOwnersMove(n, u, between);
    var u' := Run(Unbounded, n, u, between);
    if ProducerLoads(between) { DistanceWraps(u'.write, u'.read); }
    if ConsumerLoads(between) { DistanceWraps(u.write, u.read); }
  }

  lemma {:induction false} RunConcat<T>(k: Counters, n: nat, s: Ring<T>, a: seq<Action<T>>, b: seq<Action<T>>)
    requires Shaped(n, s)
    ensures var s' := Run(k, n, s, a); Shaped(n, s') && Run(k, n, s, a + b) == Run(k, n, s', b)
    decreases |a|
  {
    if a == [] {
      assert a + b == b;
    } else {
      assert (a + b)[1..] == a[1..] + b;
      RunConcat(k, n, Step(k, n, s, a[0]), a[1..], b);
    }
  }

  // ----- the operations as code -----

  lemma OneStep<T>(k: Counters, n: nat, s: Ring<T>, a: Action<T>, rest: seq<Action<T>>)
    requires Shaped(n, s)
    ensures Run(k, n, s, [a] + rest) == Run(k, n, Step(k, n, s, a), rest)
  {
    assert ([a] + rest)[1..] == rest;
  }

  lemma FourSteps<T>(k: Counters, n: nat, s: Ring<T>, a: Action<T>, b: Action<T>, c: Action<T>, d: Action<T>)
    requires Shaped(n, s)
    ensures Run(k, n, s, [a, b, c, d]) == Step(k, n, Step(k, n, Step(k, n, Step(k, n, s, a), b), c), d)
  {
    var last: seq<Action<T>> := [];
    var r3 := [d] + last;
    var r2 := [c] + r3;
    var r1 := [b] + r2;
    assert [a, b, c, d] == [a] + r1;
    var s1 := Step(k, n, s, a);
    OneStep(k, n, s, a, r1);
    var s2 := Step(k, n, s1, b);
    OneStep(k, n, s1, b, r2);
    var s3 := Step(k, n, s2, c);
    OneStep(k, n, s2, c, r3);
    OneStep(k, n, s3, d, last);
  }

  function WholePush<T>(item: T): seq<Action<T>> { [Push(item), PushStep, PushStep, PushStep] }

  function WholePop<T>(junk: T): seq<Action<T>> { [Pop, PopStep(junk), PopStep(junk), PopStep(junk)] }

  predicate Idle<T>(s: Ring<T>) { s.p.PushIdle? && s.c.PopIdle? }

  /** An uninterrupted push succeeds exactly when there is room. */
  lemma PushWhole<T>(n: nat, u: Ring<T>, item: T)
    requires Inv(n, u) && Idle(u)
    ensures var u' := Run(Unbounded, n, u, WholePush(item));
            && Idle(u') && u'.popped == u.popped
            && u'.pushed == if |u.pushed| - |u.popped| < n then u.pushed + [item] else u.pushed
  {
    FourSteps(Unbounded, n, u, Push(item), PushStep, PushStep, PushStep);
  }

  /** An uninterrupted pop succeeds exactly when there is something to pop, the oldest element. */
  lemma PopWhole<T>(n: nat, u: Ring<T>, junk: T)
    requires Inv(n, u) && Idle(u)
    ensures var u' := Run(Unbounded, n, u, WholePop(junk));
            && Idle(u') && u'.pushed == u.pushed
            && u'.popped == if |u.popped| < |u.pushed| then u.popped + [u.pushed[|u.popped|]] else u.popped
  {
    FourSteps(Unbounded, n, u, Pop, PopStep(junk), PopStep(junk), PopStep(junk));
    if u.read < u.write {
      assert Held(n, u, u.read);
      SlotInRange(n, u.read);
    }
  }

  // ----- an operation while the other thread does as it likes -----

  /** The actions of one thread among those of both. */
  function Of<T>(producer: bool, actions: seq<Action<T>>): seq<Action<T>>
    decreases |actions|
  {
    if actions == [] then []
    else (if ProducerActs(actions[0]) == producer then [actions[0]] else []) + Of(producer, actions[1..])
  }

  /** The other thread's actions leave this one where it is. */
  lemma OtherActs<T>(n: nat, u: Ring<T>, a: Action<T>)
    requires Inv(n, u)
    ensures var u' := Step(Unbounded, n, u, a);
            && (!ProducerActs(a) ==> u'.p == u.p && u'.pushed == u.pushed && |u.popped| <= |u'.popped|)
            && (ProducerActs(a) ==> u'.c == u.c && u'.popped == u.popped && u.pushed <= u'.pushed)
  {
  }

  /** How many more steps of its own a push or a pop may still take. */
  function PushLeft<T>(p: Producer<T>): nat {
    match p case PushIdle => 0 case PushRefresh(_, _) => 3 case PushStore(_, _) => 2 case PushPublish(_, _) => 1
  }

  function PopLeft<T>(c: Consumer<T>): nat {
    match c case PopIdle => 0 case PopRefresh(_) => 3 case PopLoad(_) => 2 case PopPublish(_, _) => 1
  }

  predicate Steps<T>(actions: seq<Action<T>>) { forall i :: 0 <= i < |actions| ==> actions[i].PushStep? || actions[i].PopStep? }

  /** A push under way ends with its item pushed, unless it was refused at its refresh because
      the ring was full after the first `k` actions. */
  lemma {:induction false} PushEnds<T>(n: nat, u: Ring<T>, actions: seq<Action<T>>) returns (k: nat)
    requires Inv(n, u) && Steps(Of(true, actions)) && |Of(true, actions)| >= PushLeft(u.p)
    ensures k <= |actions|
    ensures var u' := Run(Unbounded, n, u, actions);
            && u'.p.PushIdle?
            && (u.p.PushIdle? ==> u'.pushed == u.pushed)
            && (!u.p.PushIdle? ==>
                  || u'.pushed == u.pushed + [u.p.item]
                  || (u.p.PushRefresh? && u'.pushed == u.pushed && Crowded(n, u, actions[..k])))
            && (u.p.PushRefresh? && |u.pushed| - |u.popped| < n ==> u'.pushed == u.pushed + [u.p.item])
    decreases |actions|
  {
    k := 0;
    if actions != [] {
      var a, u1 := actions[0], Step(Unbounded, n, u, actions[0]);
      StepKeeps(n, u, a);
      OtherActs(n, u, a);
      StepsTail(true, actions);
      if a.PushStep? && u.p.PushRefresh? && u1.p.PushIdle? {
        k := PushEnds(n, u1, actions[1..]);
        k := 0;
        assert actions[..0] == [];
      } else {
        k := PushEnds(n, u1, actions[1..]);
        assert actions[..k + 1][1..] == actions[1..][..k];
        k := k + 1;
      }
    }
  }

  lemma {:induction false} PushCompletes<T>(n: nat, u: Ring<T>, actions: seq<Action<T>>, item: T) returns (k: nat)
    requires Inv(n, u) && u.p.PushIdle? && Of(true, actions) == WholePush(item)
    ensures k <= |actions|
    ensures var u' := Run(Unbounded, n, u, actions);
            && u'.p.PushIdle?
            && (u'.pushed == u.pushed + [item] || (u'.pushed == u.pushed && Crowded(n, u, actions[..k])))
            && (|u.pushed| - |u.popped| < n ==> u'.pushed == u.pushed + [item])
    decreases |actions|
  {
    var a, u1 := actions[0], Step(Unbounded, n, u, actions[0]);
    StepKeeps(n, u, a);
    OtherActs(n, u, a);
    if ProducerActs(a) {
      assert Of(true, actions)[1..] == Of(true, actions[1..]) && Of(true, actions)[0] == a;
      k := PushEnds(n, u1, actions[1..]);
    } else {
      assert Of(true, actions) == Of(true, actions[1..]);
      k := PushCompletes(n, u1, actions[1..], item);
    }
    assert actions[..k + 1][1..] == actions[1..][..k];
    k := k + 1;
  }

  /** A pop under way ends with the oldest element popped, unless it was refused at its refresh
      because the ring was empty after the first `k` actions. */
  lemma {:induction false} PopEnds<T>(n: nat, u: Ring<T>, actions: seq<Action<T>>) returns (k: nat)
    requires Inv(n, u) && Steps(Of(false, actions)) && |Of(false, actions)| >= PopLeft(u.c)
    ensures k <= |actions|
    ensures var u' := Run(Unbounded, n, u, actions);
            && u'.c.PopIdle? && u.pushed <= u'.pushed
            && (u.c.PopIdle? ==> u'.popped == u.popped)
            && (!u.c.PopIdle? ==>
                  || (|u.popped| < |u'.pushed| && u'.popped == u.popped + [u'.pushed[|u.popped|]])
                  || (u.c.PopRefresh? && u'.popped == u.popped && Drained(n, u, actions[..k])))
            && (u.c.PopRefresh? && |u.popped| < |u.pushed| ==> u'.popped == u.popped + [u.pushed[|u.popped|]])
    decreases |actions|
  {
    k := 0;
    if actions != [] {
      var a, u1 := actions[0], Step(Unbounded, n, u, actions[0]);
      StepKeeps(n, u, a);
      OtherActs(n, u, a);
      StepsTail(false, actions);
      if a.PopStep? && u.c.PopRefresh? && u1.c.PopIdle? {
        k := PopEnds(n, u1, actions[1..]);
        k := 0;
        assert actions[..0] == [];
      } else {
        k := PopEnds(n, u1, actions[1..]);
        assert actions[..k + 1][1..] == actions[1..][..k];
        k := k + 1;
      }
    }
  }

  predicate PopActions<T>(actions: seq<Action<T>>) {
    |actions| == 4 && actions[0].Pop? && forall i :: 1 <= i < 4 ==> actions[i].PopStep?
  }

  lemma {:induction false} PopCompletes<T>(n: nat, u: Ring<T>, actions: seq<Action<T>>) returns (k: nat)
    requires Inv(n, u) && u.c.PopIdle? && PopActions(Of(false, actions))
    ensures k <= |actions|
    ensures var u' := Run(Unbounded, n, u, actions);
            && u'.c.PopIdle? && u.pushed <= u'.pushed
            && (|| (|u.popped| < |u'.pushed| && u'.popped == u.popped + [u'.pushed[|u.popped|]])
                || (u'.popped == u.popped && Drained(n, u, actions[..k])))
            && (|u.popped| < |u.pushed| ==> u'.popped == u.popped + [u.pushed[|u.popped|]])
    decreases |actions|
  {
    var a, u1 := actions[0], Step(Unbounded, n, u, actions[0]);
    StepKeeps(n, u, a);
    OtherActs(n, u, a);
    if !ProducerActs(a) {
      assert Of(false, actions)[1..] == Of(false, actions[1..]) && Of(false, actions)[0] == a;
      k := PopEnds(n, u1, actions[1..]);
    } else {
      assert Of(false, actions) == Of(false, actions[1..]);
      k := PopCompletes(n, u1, actions[1..]);
    }
    assert actions[..k + 1][1..] == actions[1..][..k];
    k := k + 1;
  }

  /** The ring is empty after these actions. */
  ghost predicate Drained<T>(n: nat, u: Ring<T>, actions: seq<Action<T>>)
    requires Shaped(n, u)
  {
    var u' := Run(Unbounded, n, u, actions);
    u'.pushed == u'.popped
  }

  /** The 64-bit ring, from any reachable state, whatever the consumer does meanwhile: a push
      that found room succeeds, and a refused one was refused because the ring was full at a
      moment between its start and its end. */
  lemma PushUnderInterference<T>(n: nat, buffer: seq<T>, before: seq<Action<T>>, actions: seq<Action<T>>, item: T)
    returns (k: nat)
    requires Capacity(n) && |buffer| == n
    requires Run(Wrapped, n, Fresh(buffer), before).p.PushIdle? && Of(true, actions) == WholePush(item)
    ensures k <= |actions|
    ensures var s := Run(Wrapped, n, Fresh(buffer), before);
            Shaped(n, s)
            && var s', m := Run(Wrapped, n, s, actions), Run(Wrapped, n, s, actions[..k]);
               && s'.p.PushIdle?
               && (s'.pushed == s.pushed + [item] || (s'.pushed == s.pushed && |m.pushed| - |m.popped| == n))
               && (|s.pushed| - |s.popped| < n ==> s'.pushed == s.pushed + [item])
  {
    var u := Reached(n, buffer, before);
    k := PushCompletes(n, u, actions, item);
    RunWraps(n, u, actions);
    RunWraps(n, u, actions[..k]);
  }

  /** The same for a pop: with an element present at its start it takes the oldest one, and a
      refused one was refused because the ring was empty at a moment between its start and its end. */
  lemma PopUnderInterference<T>(n: nat, buffer: seq<T>, before: seq<Action<T>>, actions: seq<Action<T>>) returns (k: nat)
    requires Capacity(n) && |buffer| == n
    requires Run(Wrapped, n, Fresh(buffer), before).c.PopIdle? && PopActions(Of(false, actions))
    ensures k <= |actions|
    ensures var s := Run(Wrapped, n, Fresh(buffer), before);
            Shaped(n, s)
            && var s', m := Run(Wrapped, n, s, actions), Run(Wrapped, n, s, actions[..k]);
               && s'.c.PopIdle? && s.pushed <= s'.pushed
               && (|| (|s.popped| < |s'.pushed| && s'.popped == s.popped + [s'.pushed[|s.popped|]])
                   || (s'.popped == s.popped && m.pushed == m.popped))
               && (|s.popped| < |s.pushed| ==> s'.popped == s.popped + [s.pushed[|s.popped|]])
  {
    var u := Reached(n, buffer, before);
    k := PopCompletes(n, u, actions);
    RunWraps(n, u, actions);
    RunWraps(n, u, actions[..k]);
  }

  lemma StepsTail<T>(producer: bool, actions: seq<Action<T>>)
    requires actions != [] && Steps(Of(producer, actions))
    ensures Steps(Of(producer, actions[1..]))
    ensures |Of(producer, actions)| == |Of(producer, actions[1..])| + if ProducerActs(actions[0]) == producer then 1 else 0
    ensures ProducerActs(actions[0]) == producer ==> actions[0].PushStep? || actions[0].PopStep?
  {
    var rest := Of(producer, actions[1..]);
    if ProducerActs(actions[0]) == producer {
      assert Of(producer, actions)[0] == actions[0] && Of(producer, actions)[1..] == rest;
    } else {
      assert Of(producer, actions) == rest;
    }
  }

  /** The ring is full after these actions. */
  predicate Crowded<T>(n: nat, u: Ring<T>, actions: seq<Action<T>>)
    requires Shaped(n, u)
  {
    var u' := Run(Unbounded, n, u, actions);
    |u'.pushed| - |u'.popped| == n
  }

  /** What a push leaves behind when nothing intervenes. */
  function PushResult<T>(n: nat, s: Ring<T>, item: T): Ring<T>
    requires Shaped(n, s)
  {
    SlotInRange(n, s.write);
    var s1 := if Wrapped.Distance(s.write, s.cachedRead) >= n then s.(cachedRead := s.read) else s;
    if Wrapped.Distance(s.write, s1.cachedRead) >= n then s1
    else s1.(buffer := s.buffer[Slot(n, s.write) := item], write := Wrapped.Next(s.write), pushed := s.pushed + [item])
  }

  lemma PushResultIs<T>(n: nat, s: Ring<T>, item: T)
    requires Shaped(n, s) && Idle(s)
    ensures Run(Wrapped, n, s, WholePush(item)) == PushResult(n, s, item)
  {
    FourSteps(Wrapped, n, s, Push(item), PushStep, PushStep, PushStep);
  }

  function PopResult<T>(n: nat, s: Ring<T>, junk: T): Ring<T>
    requires Shaped(n, s)
  {
    SlotInRange(n, s.read);
    var s1 := if s.read == s.cachedWrite then s.(cachedWrite := s.write) else s;
    if s.read == s1.cachedWrite then s1
    else s1.(buffer := s.buffer[Slot(n, s.read) := junk], read := Wrapped.Next(s.read), popped := s.popped + [s.buffer[Slot(n, s.read)]])
  }

  lemma PopResultIs<T>(n: nat, s: Ring<T>, junk: T)
    requires Shaped(n, s) && Idle(s)
    ensures Run(Wrapped, n, s, WholePop(junk)) == PopResult(n, s, junk)
  {
    FourSteps(Wrapped, n, s, Pop, PopStep(junk), PopStep(junk), PopStep(junk));
  }

  /** A third thread can be misled: it loads the write index of an empty ring, one element
      passes through, and `full` answers true while the ring is empty again. */
  lemma OthersCanBeMisled<T>(x: T)
    ensures Capacity(2)
    ensures var s := Fresh([x, x]);
            var s' := Run(Wrapped, 2, s, WholePush(x) + WholePop(x));
            SaysFull(2, s.write, s'.read) && s'.pushed == s'.popped
  {
    CapacityTwo();
    var s := Fresh([x, x]);
    RunConcat(Wrapped, 2, s, WholePush(x), WholePop(x));
    PushResultIs(2, s, x);
    PassesThrough(s, x);
    PopResultIs(2, PushResult(2, s, x), x);
  }

  lemma CapacityTwo()
    ensures Capacity(2) && Slot(2, 0) == 0
  {
    assert And(1, 0) == 0 && And(0, 1) == 0;
  }

  lemma PassesThrough<T>(s: Ring<T>, x: T)
    requires s == Fresh([x, x]) && Shaped(2, s)
    ensures var s1 := PushResult(2, s, x);
            Shaped(2, s1) && Idle(s1) && PopResult(2, s1, x).read == 1 && PopResult(2, s1, x).pushed == PopResult(2, s1, x).popped
  {
    CapacityTwo();
    assert PushResult(2, s, x) == Ring([x, x], 1, 0, 0, 0, PushIdle, PopIdle, [x], []);
  }

  /** The result of a whole push on the 64-bit image of `u`, and the ring it is the image of. */
  lemma PushOnImage<T>(n: nat, u: Ring<T>, item: T) returns (u': Ring<T>)
    requires Inv(n, u) && Idle(u)
    ensures Inv(n, u') && Idle(u') && Shaped(n, Image(u)) && Image(u') == PushResult(n, Image(u), item)
    ensures u'.popped == u.popped && u'.pushed == if |u.pushed| - |u.popped| < n then u.pushed + [item] else u.pushed
    ensures |u.popped| <= |u.pushed|
  {
    u' := Run(Unbounded, n, u, WholePush(item));
    PushWhole(n, u, item);
    RunWraps(n, u, WholePush(item));
    PushResultIs(n, Image(u), item);
  }

  lemma PopOnImage<T>(n: nat, u: Ring<T>, junk: T) returns (u': Ring<T>)
    requires Inv(n, u) && Idle(u)
    ensures Inv(n, u') && Idle(u') && Shaped(n, Image(u)) && Image(u') == PopResult(n, Image(u), junk)
    ensures u'.pushed == u.pushed
    ensures u'.popped == if |u.popped| < |u.pushed| then u.popped + [u.pushed[|u.popped|]] else u.popped
    ensures |u.popped| <= |u.pushed|
  {
    u' := Run(Unbounded, n, u, WholePop(junk));
    PopWhole(n, u, junk);
    RunWraps(n, u, WholePop(junk));
    PopResultIs(n, Image(u), junk);
  }

  /** try_push and try_pop as one thread executes them while the other is between
      operations.  `ring` is the ring with unbounded counters whose 64-bit image
      the fields are. */
  class BoundedQueue<T> {
    const n: nat
    const buffer: array<T>
    var write: nat
    var read: nat
    var cachedRead: nat
    var cachedWrite: nat
    ghost var ring: Ring<T>

    ghost function State(): Ring<T>
      reads this, buffer
    {
      Ring(buffer[..], write, read, cachedRead, cachedWrite, PushIdle, PopIdle, ring.pushed, ring.popped)
    }

    ghost predicate Valid()
      reads this, buffer
    {
      Capacity(n) && buffer.Length == n && Inv(n, ring) && Idle(ring) && State() == Image(ring)
    }

    /** The elements in the queue, oldest first. */
    ghost function Queue(): seq<T>
      reads this
    {
      if |ring.popped| <= |ring.pushed| then ring.pushed[|ring.popped|..] else []
    }

    constructor (storage: array<T>)
      requires Capacity(storage.Length)
      ensures Valid() && buffer == storage && n == storage.Length && Queue() == []
    {
      n, buffer := storage.Length, storage;
      write, read, cachedRead, cachedWrite := 0, 0, 0, 0;
      ring := Fresh(storage[..]);
    }

    method TryPush(item: T) returns (ok: bool)
      requires Valid()
      modifies this, buffer
      ensures Valid()
      ensures ok <==> |old(Queue())| < n
      ensures Queue() == if ok then old(Queue()) + [item] else old(Queue())
    {
      ring := PushOnImage(n, ring, item);
      var current := write;
      if Wrapped.Distance(current, cachedRead) >= n {
        cachedRead := read;
        if Wrapped.Distance(current, cachedRead) >= n {
          return false;
        }
      }
      SlotInRange(n, current);
      buffer[Slot(n, current)] := item;
      write := Wrapped.Next(current);
      return true;
    }

    /** The slot popped from keeps `junk`, whatever moving out of it leaves there. */
    method TryPop(junk: T) returns (ok: bool, out: T)
      requires Valid()
      modifies this, buffer
      ensures Valid()
      ensures ok <==> old(Queue()) != []
      ensures ok ==> out == old(Queue())[0] && Queue() == old(Queue())[1..]
      ensures !ok ==> Queue() == old(Queue())
    {
      ring := PopOnImage(n, ring, junk);
      out := junk;
      var current := read;
      if current == cachedWrite {
        cachedWrite := write;
        if current == cachedWrite {
          return false, out;
        }
      }
      SlotInRange(n, current);
      out := buffer[Slot(n, current)];
      buffer[Slot(n, current)] := junk;
      read := Wrapped.Next(current);
      return true, out;
    }
  }
}
