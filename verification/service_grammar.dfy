/** What each session sees of the outbound stream: its own commands answered one
    group at a time, in order, and notices of fills on its resting orders. */
module ServiceGrammar {
  import opened Types
  import opened BookSpec
  import opened BookInvariant
  import opened BookPriority
  import opened BookConservation
  import opened BookEffects
  import opened ServiceSpec
  import opened ServiceOwnership

  function Project(out: seq<Message>, s: Session): seq<Message>
    decreases |out|
  {
    if out == [] then [] else (if out[0].session == s then [out[0]] else []) + Project(out[1..], s)
  }

  lemma {:induction false} ProjectConcat(a: seq<Message>, b: seq<Message>, s: Session)
    ensures Project(a + b, s) == Project(a, s) + Project(b, s)
    decreases |a|
  {
    if a == [] {
      assert a + b == b;
    } else {
      assert (a + b)[1..] == a[1..] + b && (a + b)[0] == a[0];
      ProjectConcat(a[1..], b, s);
      var head := if a[0].session == s then [a[0]] else [];
      assert head + (Project(a[1..], s) + Project(b, s)) == head + Project(a[1..], s) + Project(b, s);
    }
  }

  lemma ProjectOne(m: Message, s: Session)
    ensures Project([m], s) == if m.session == s then [m] else []
  {
    assert [m][1..] == [];
  }

  // ----- the grammar, as a client would read it -----

  datatype Item =
    | Reply(executions: seq<Message>, terminal: Message)
    | Notice(notice: Message)

  function Prepend(item: Item, rest: Option<seq<Item>>): Option<seq<Item>> {
    if rest.None? then None else Some([item] + rest.value)
  }

  /** Split a session's stream into replies and notices; `group` is the group being
      collected.  A flagged message that is not an execution, a notice inside a group, a
      group with two sequence numbers and a group with no terminal are all refused. */
  function Parse(p: seq<Message>, group: seq<Message>): Option<seq<Item>>
    decreases |p|
  {
    if p == [] then (if group == [] then Some([]) else None)
    else
      var m := p[0];
      if group != [] && m.sequence != group[0].sequence then None
      else if m.more then (if m.body.Executed? then Parse(p[1..], group + [m]) else None)
      else if m.body.Executed? then (if group == [] then Prepend(Notice(m), Parse(p[1..], [])) else None)
      else Prepend(Reply(group, m), Parse(p[1..], []))
  }

  // ----- what it should say -----

  function Flagged(es: seq<Execution>, session: Session, n: Sequence): seq<Message> {
    seq(|es|, i requires 0 <= i < |es| => Message(session, true, n, Executed(es[i])))
  }

  /** The answer that ends the group of a command with outcome `r`. */
  function Answer(c: Command, r: Outcome): Body {
    if r.rejection.Some? then Refusal(c, r.rejection.value)
    else
      match c
      case New(o) => OrderAccepted(o.id, Left(r))
      case Cancel(k) => CancelAccepted(k.id, if r.cancelled.Some? then r.cancelled.value else 1)
      case Replace(p) => ReplaceAccepted(p.id, Left(r))
  }

  /** The fills of one command on orders that session `s` owned when the command arrived. */
  function Told(owners: map<OrderId, Session>, es: seq<Execution>, s: Session, n: Sequence): seq<Message>
    decreases |es|
  {
    if es == [] then []
    else
      (if s != 0 && Owner(owners, es[0].resting) == s then [Message(s, false, n, Executed(es[0]))] else [])
      + Told(owners, es[1..], s, n)
  }

  function Notices(ms: seq<Message>): seq<Item> {
    seq(|ms|, i requires 0 <= i < |ms| => Notice(ms[i]))
  }

  /** All that one command gives session `s`. */
  function Due(v: Service, i: Inbound, s: Session): seq<Item> {
    var r, n := Apply(v.book, i.command).1, i.command.Sequence();
    if i.session == s then [Reply(Flagged(r.executions, s, n), Message(s, false, n, Answer(i.command, r)))]
    else Notices(Told(v.owners, r.executions, s, n))
  }

  function AllDue(v: Service, ins: seq<Inbound>, s: Session): seq<Item>
    decreases |ins|
  {
    if ins == [] then []
    else Due(v, ins[0], s) + AllDue(Handle(v, ins[0].session, ins[0].command).0, ins[1..], s)
  }

  // ----- one command -----

  lemma HandleTells(v: Service, session: Session, c: Command)
    requires Wf(v.book)
    ensures var r := Apply(v.book, c).1;
            && Handle(v, session, c).0.book == Apply(v.book, c).0
            && Handle(v, session, c).1 == Announce(v.owners, r.executions, session, c.Sequence())
                                          + [Message(session, false, c.Sequence(), Answer(c, r))]
  {
    FillsAreDistinct(v.book, c);
    ReportIsAnnounce(v.owners, Apply(v.book, c).1.executions, Apply(v.book, c).0, session, c.Sequence());
    QuietOutcomes(v.book, c);
  }

  lemma QuietOutcomes(b: Book, c: Command)
    ensures !Apply(b, c).1.Accepted() || c.Cancel? ==> Apply(b, c).1.executions == []
  {
  }

  lemma {:induction false} OwnFills(owners: map<OrderId, Session>, es: seq<Execution>, s: Session, n: Sequence)
    ensures Project(Announce(owners, es, s, n), s) == Flagged(es, s, n)
    decreases |es|
  {
    if es != [] {
      var f := FillMessages(Owner(owners, es[0].resting), es[0], s, n);
      ProjectConcat(f, Announce(owners, es[1..], s, n), s);
      OwnFills(owners, es[1..], s, n);
      ProjectFill(Owner(owners, es[0].resting), es[0], s, n, s);
      assert Flagged(es, s, n) == [Message(s, true, n, Executed(es[0]))] + Flagged(es[1..], s, n);
    }
  }

  lemma ProjectFill(owner: Session, e: Execution, session: Session, n: Sequence, s: Session)
    ensures Project(FillMessages(owner, e, session, n), s) ==
            if session == s then [Message(s, true, n, Executed(e))]
            else if s != 0 && owner == s then [Message(s, false, n, Executed(e))]
            else []
  {
    var f := FillMessages(owner, e, session, n);
    ProjectOne(f[0], s);
    if owner != 0 && owner != session {
      ProjectConcat([f[0]], [f[1]], s);
      ProjectOne(f[1], s);
    } else {
      assert f == [f[0]];
    }
  }

  lemma {:induction false} OtherFills(owners: map<OrderId, Session>, es: seq<Execution>, session: Session, s: Session, n: Sequence)
    requires session != s
    ensures Project(Announce(owners, es, session, n), s) == Told(owners, es, s, n)
    decreases |es|
  {
    if es != [] {
      ProjectConcat(FillMessages(Owner(owners, es[0].resting), es[0], session, n), Announce(owners, es[1..], session, n), s);
      ProjectFill(Owner(owners, es[0].resting), es[0], session, n, s);
      OtherFills(owners, es[1..], session, s, n);
    }
  }

  predicate Unflagged(ms: seq<Message>) {
    forall i :: 0 <= i < |ms| ==> !ms[i].more && ms[i].body.Executed?
  }

  lemma {:induction false} ToldIsUnflagged(owners: map<OrderId, Session>, es: seq<Execution>, s: Session, n: Sequence)
    ensures Unflagged(Told(owners, es, s, n))
    decreases |es|
  {
    if es != [] { ToldIsUnflagged(owners, es[1..], s, n); }
  }

  /** Parsing notices between groups. */
  lemma {:induction false} NoticesParse(ms: seq<Message>, p: seq<Message>, items: seq<Item>)
    requires Unflagged(ms) && Parse(p, []) == Some(items)
    ensures Parse(ms + p, []) == Some(Notices(ms) + items)
    decreases |ms|
  {
    if ms == [] {
      assert ms + p == p && Notices(ms) + items == items;
    } else {
      NoticesParse(ms[1..], p, items);
      assert (ms + p)[1..] == ms[1..] + p;
      assert Notices(ms) + items == [Notice(ms[0])] + (Notices(ms[1..]) + items);
    }
  }

  /** Parsing one group: the flagged executions are collected, then the terminal closes it. */
  lemma {:induction false} GroupParses(es: seq<Execution>, s: Session, n: Sequence, body: Body, p: seq<Message>, done: nat)
    requires done <= |es| && !body.Executed?
    ensures Parse(Flagged(es, s, n)[done..] + [Message(s, false, n, body)] + p, Flagged(es, s, n)[..done])
            == Prepend(Reply(Flagged(es, s, n), Message(s, false, n, body)), Parse(p, []))
    decreases |es| - done
  {
    var f, t := Flagged(es, s, n), Message(s, false, n, body);
    var q := f[done..] + [t] + p;
    if done == |es| {
      assert f[..done] == f && q[0] == t && q[1..] == p;
    } else {
      assert q[0] == f[done] && q[1..] == f[done + 1..] + [t] + p && f[..done] + [f[done]] == f[..done + 1];
      GroupParses(es, s, n, body, p, done + 1);
    }
  }

  lemma DueParses(v: Service, i: Inbound, s: Session, p: seq<Message>, items: seq<Item>)
    requires Wf(v.book) && Parse(p, []) == Some(items)
    ensures Parse(Project(Handle(v, i.session, i.command).1, s) + p, []) == Some(Due(v, i, s) + items)
  {
    var r, n := Apply(v.book, i.command).1, i.command.Sequence();
    var t := Message(i.session, false, n, Answer(i.command, r));
    HandleTells(v, i.session, i.command);
    ProjectConcat(Announce(v.owners, r.executions, i.session, n), [t], s);
    ProjectOne(t, s);
    if i.session == s {
      OwnFills(v.owners, r.executions, s, n);
      GroupParses(r.executions, s, n, t.body, p, 0);
      assert Flagged(r.executions, s, n)[0..] == Flagged(r.executions, s, n) && Flagged(r.executions, s, n)[..0] == [];
    } else {
      var told := Told(v.owners, r.executions, s, n);
      OtherFills(v.owners, r.executions, i.session, s, n);
      ToldIsUnflagged(v.owners, r.executions, s, n);
      NoticesParse(told, p, items);
      assert told + [] == told;
    }
  }

  // ----- whole runs -----

  /** Every session's stream obeys the grammar, and reads back as exactly what is due:
      one reply per command of its own, with the executions and the answer the book gave,
      and one notice per fill of an order it owned, in the order of the commands. */
  lemma {:induction false} StreamParses(v: Service, ins: seq<Inbound>, s: Session)
    requires Wf(v.book)
    ensures Parse(Project(Serve(v, ins).1, s), []) == Some(AllDue(v, ins, s))
    decreases |ins|
  {
    if ins != [] {
      var c := ins[0].command;
      var (v', told, _) := Handle(v, ins[0].session, c);
      ApplyKeeps(v.book, c);
      HandleTells(v, ins[0].session, c);
      StreamParses(v', ins[1..], s);
      ProjectConcat(told, Serve(v', ins[1..]).1, s);
      DueParses(v, ins[0], s, Project(Serve(v', ins[1..]).1, s), AllDue(v', ins[1..], s));
    }
  }

  // ----- who hears of a fill -----

  /** The messages that report execution `e`. */
  function About(out: seq<Message>, e: Execution): seq<Message>
    decreases |out|
  {
    if out == [] then [] else (if out[0].body == Executed(e) then [out[0]] else []) + About(out[1..], e)
  }

  lemma {:induction false} AboutConcat(a: seq<Message>, b: seq<Message>, e: Execution)
    ensures About(a + b, e) == About(a, e) + About(b, e)
    decreases |a|
  {
    if a == [] {
      assert a + b == b;
    } else {
      assert (a + b)[1..] == a[1..] + b && (a + b)[0] == a[0];
      AboutConcat(a[1..], b, e);
      var head := if a[0].body == Executed(e) then [a[0]] else [];
      assert head + (About(a[1..], e) + About(b, e)) == head + About(a[1..], e) + About(b, e);
    }
  }

  lemma {:induction false} AboutAll(out: seq<Message>, e: Execution, same: bool)
    requires forall i :: 0 <= i < |out| ==> (out[i].body == Executed(e)) == same
    ensures About(out, e) == if same then out else []
    decreases |out|
  {
    if out != [] { AboutAll(out[1..], e, same); }
  }

  lemma {:induction false} AboutOther(owners: map<OrderId, Session>, es: seq<Execution>, session: Session, n: Sequence, e: Execution)
    requires forall i :: 0 <= i < |es| ==> es[i].resting != e.resting
    ensures About(Announce(owners, es, session, n), e) == []
    decreases |es|
  {
    if es != [] {
      var f := FillMessages(Owner(owners, es[0].resting), es[0], session, n);
      AboutConcat(f, Announce(owners, es[1..], session, n), e);
      AboutAll(f, e, false);
      AboutOther(owners, es[1..], session, n, e);
    }
  }

  lemma {:induction false} AnnouncedOnce(owners: map<OrderId, Session>, es: seq<Execution>, session: Session, n: Sequence, k: nat)
    requires DistinctFills(es) && k < |es|
    ensures About(Announce(owners, es, session, n), es[k]) == FillMessages(Owner(owners, es[k].resting), es[k], session, n)
    decreases |es|
  {
    var f := FillMessages(Owner(owners, es[0].resting), es[0], session, n);
    AboutConcat(f, Announce(owners, es[1..], session, n), es[k]);
    AboutAll(f, es[k], k == 0);
    if k == 0 {
      AboutOther(owners, es[1..], session, n, es[0]);
    } else {
      assert es[k] == es[1..][k - 1];
      AnnouncedOnce(owners, es[1..], session, n, k - 1);
    }
  }

  /** After any history, every fill of the next command is reported to the incoming
      session once, and once more to the session that last submitted or replaced the
      resting order if that is another one; and to nobody else. */
  lemma FillReachesBothSides(ins: seq<Inbound>, i: Inbound, k: nat)
    requires k < |Apply(Serve(IDLE, ins).0.book, i.command).1.executions|
    ensures var v := Serve(IDLE, ins).0;
            var e := Apply(v.book, i.command).1.executions[k];
            var owner := LastOwner(IDLE, ins, e.resting);
            && owner.Some?
            && About(Handle(v, i.session, i.command).1, e) == FillMessages(owner.value, e, i.session, i.command.Sequence())
  {
    var v := Serve(IDLE, ins).0;
    var r, n := Apply(v.book, i.command).1, i.command.Sequence();
    var t := Message(i.session, false, n, Answer(i.command, r));
    OwnersAfter(IDLE, ins, r.executions[k].resting);
    ExecutionsFollowPriority(v.book, i.command, k);
    HasAt(v.book.On(TakerSide(v.book, i.command).Opposite()), k);
    FillsAreDistinct(v.book, i.command);
    AnnouncedOnce(v.owners, r.executions, i.session, n, k);
    HandleTells(v, i.session, i.command);
    AboutConcat(Announce(v.owners, r.executions, i.session, n), [t], r.executions[k]);
    AboutAll([t], r.executions[k], false);
  }

  // ----- the flag over a whole command -----

  /** Every message but the last carries the flag. */
  predicate FlaggedButLast(ms: seq<Message>) {
    ms != [] && forall i :: 0 <= i < |ms| ==> (ms[i].more <==> i < |ms| - 1)
  }

  predicate AllFlagged(ms: seq<Message>) { forall i :: 0 <= i < |ms| ==> ms[i].more }

  /** No fill of `es` has to be told to a session other than `session`. */
  predicate NobodyElse(owners: map<OrderId, Session>, es: seq<Execution>, session: Session) {
    forall k :: 0 <= k < |es| ==> Owner(owners, es[k].resting) == 0 || Owner(owners, es[k].resting) == session
  }

  lemma {:induction false} AnnounceFlags(owners: map<OrderId, Session>, es: seq<Execution>, session: Session, n: Sequence)
    ensures AllFlagged(Announce(owners, es, session, n)) <==> NobodyElse(owners, es, session)
    decreases |es|
  {
    if es != [] {
      var f, later := FillMessages(Owner(owners, es[0].resting), es[0], session, n), Announce(owners, es[1..], session, n);
      AnnounceFlags(owners, es[1..], session, n);
      assert AllFlagged(f + later) <==> AllFlagged(f) && AllFlagged(later) by { FlagsConcat(f, later); }
      assert NobodyElse(owners, es, session) <==> NobodyElse(owners, es[..1], session) && NobodyElse(owners, es[1..], session) by {
        assert forall k :: 0 <= k < |es| ==> es[k] == if k < 1 then es[..1][k] else es[1..][k - 1];
      }
      if |f| == 2 { assert !f[1].more; }
    }
  }

  lemma FlagsConcat(a: seq<Message>, b: seq<Message>)
    ensures AllFlagged(a + b) <==> AllFlagged(a) && AllFlagged(b)
  {
    assert forall i :: 0 <= i < |a| ==> (a + b)[i] == a[i];
    assert forall i :: 0 <= i < |b| ==> b[i] == (a + b)[|a| + i];
  }

  /** Exactly when all events of a command but the last carry the flag: when every resting
      order it fills belongs to the incoming session or to nobody. */
  lemma FlagsAreExact(v: Service, session: Session, c: Command)
    requires Wf(v.book)
    ensures FlaggedButLast(Handle(v, session, c).1) <==> NobodyElse(v.owners, Apply(v.book, c).1.executions, session)
  {
    var r := Apply(v.book, c).1;
    var told, t := Announce(v.owners, r.executions, session, c.Sequence()), Message(session, false, c.Sequence(), Answer(c, r));
    HandleTells(v, session, c);
    AnnounceFlags(v.owners, r.executions, session, c.Sequence());
    LastUnflagged(told, t);
  }

  lemma LastUnflagged(told: seq<Message>, t: Message)
    requires !t.more
    ensures FlaggedButLast(told + [t]) <==> AllFlagged(told)
  {
    assert forall i :: 0 <= i < |told| ==> (told + [t])[i] == told[i];
  }

  const OFFER: Command := New(NewOrder(1, 1, Sell, Limit, 1, Some(1)))
  const TAKE: Command := New(NewOrder(2, 2, Buy, Limit, 1, Some(1)))

  /** Session 2 fills session 1's resting order: the second of the three messages is unflagged. */
  lemma FlagIsMissing()
    ensures var v := Serve(IDLE, [Inbound(1, OFFER)]).0;
            var ms := Handle(v, 2, TAKE).1;
            |ms| == 3 && !ms[1].more && ms[1].session == 1 && !FlaggedButLast(ms)
  {
    var x := Slot(1, 1, 1, 1);
    assert Insert(Sell, [], x) == [x];
    assert Rests(Book([], [x], {1}), 1) by { HasAt([x], 0); }
    OneServed(IDLE, 1, OFFER);
    var v := Service(Book([], [x], {1}), map[1 := 1]);
    assert Handle(IDLE, 1, OFFER).0 == v;
    var e := Execution(1, 2, 1, 1);
    assert [x][1..] == [];
    assert Sweep(Sell, [x], Some(1), 2, 1).executions == [e];
    assert Wf(v.book);
    HandleTells(v, 2, TAKE);
    assert Apply(v.book, TAKE).1.executions == [e];
    assert [e][1..] == [];
    assert Announce(v.owners, [e], 2, 2) == FillMessages(1, e, 2, 2) + [];
  }

  lemma OneServed(v: Service, session: Session, c: Command)
    ensures Serve(v, [Inbound(session, c)]).0 == Handle(v, session, c).0
  {
    assert [Inbound(session, c)][1..] == [];
  }

  // ----- accounting -----

  function Own(ins: seq<Inbound>, s: Session): seq<Command>
    decreases |ins|
  {
    if ins == [] then [] else (if ins[0].session == s then [ins[0].command] else []) + Own(ins[1..], s)
  }

  /** A command together with the book it found. */
  datatype Asked = Asked(book: Book, command: Command)

  function AllAsked(b: Book, ins: seq<Inbound>, s: Session): seq<Asked>
    decreases |ins|
  {
    if ins == [] then []
    else
      var c := ins[0].command;
      (if ins[0].session == s then [Asked(b, c)] else []) + AllAsked(Apply(b, c).0, ins[1..], s)
  }

  lemma {:induction false} AskedIsOwn(b: Book, ins: seq<Inbound>, s: Session)
    ensures |AllAsked(b, ins, s)| == |Own(ins, s)|
    ensures forall k :: 0 <= k < |Own(ins, s)| ==> AllAsked(b, ins, s)[k].command == Own(ins, s)[k]
    decreases |ins|
  {
    if ins != [] { AskedIsOwn(Apply(b, ins[0].command).0, ins[1..], s); }
  }

  function Replies(items: seq<Item>): seq<Item>
    decreases |items|
  {
    if items == [] then [] else (if items[0].Reply? then [items[0]] else []) + Replies(items[1..])
  }

  function Quantities(ms: seq<Message>): nat
    decreases |ms|
  {
    if ms == [] then 0
    else (if ms[0].body.Executed? then ms[0].body.e.quantity else 0) + Quantities(ms[1..])
  }

  predicate Malformed(o: NewOrder) {
    (o.kind.Limit? && o.limit.None?) || (o.kind.Market? && o.limit.Some?)
  }

  /** Item `i` is the right reply to `a`: it carries its sequence number and an answer of its
      kind; an accepted limit order or replace is accounted for in full, a cancel reports what
      rested, and a refusal gives the true reason. */
  predicate Answers(i: Item, a: Asked) {
    var b, c := a.book, a.command;
    && i.Reply? && i.terminal.sequence == c.Sequence()
    && match i.terminal.body
       case OrderAccepted(id, left) =>
         && c.New? && c.Id() == id && !Malformed(c.order) && id !in b.seen
         && (if c.order.limit.Some? then Quantities(i.executions) + left == c.order.quantity
             else left == 0 && Quantities(i.executions) <= c.order.quantity)
       case ReplaceAccepted(id, left) =>
         c.Replace? && c.Id() == id && Rests(b, id) && Quantities(i.executions) + left == c.replace.quantity
       case CancelAccepted(id, quantity) =>
         c.Cancel? && c.Id() == id && Rests(b, id) && quantity == Find(b, id).units && i.executions == []
       case OrderRejected(id, reason) =>
         && c.New? && c.Id() == id && i.executions == []
         && (if Malformed(c.order) then reason == InvalidOrder else id in b.seen && reason == DuplicateOrderId)
       case CancelRejected(id, reason) =>
         c.Cancel? && c.Id() == id && i.executions == [] && !Rests(b, id) && reason == OrderNotFound
       case ReplaceRejected(id, reason) =>
         c.Replace? && c.Id() == id && i.executions == [] && !Rests(b, id) && reason == OrderNotFound
       case Executed(_) => false
  }

  lemma {:induction false} FlaggedQuantities(es: seq<Execution>, s: Session, n: Sequence)
    ensures Quantities(Flagged(es, s, n)) == Traded(es)
    decreases |es|
  {
    if es != [] {
      assert Flagged(es, s, n)[1..] == Flagged(es[1..], s, n);
      FlaggedQuantities(es[1..], s, n);
    }
  }

  lemma AcceptedAccounts(b: Book, c: Command)
    requires Apply(b, c).1.Accepted()
    ensures var r := Apply(b, c).1;
            match c
            case New(o) => if o.limit.Some? then Traded(r.executions) + Left(r) == o.quantity
                           else Left(r) == 0 && Traded(r.executions) <= o.quantity
            case Cancel(_) => r.executions == []
            case Replace(p) => Traded(r.executions) + Left(r) == p.quantity
  {
    match c
    case New(o) => EnterConserves(b.(seen := b.seen + {o.id}), o.side, o.id, o.sequence, o.limit, o.quantity);
    case Cancel(_) =>
    case Replace(p) =>
      if !KeepsPlace(b, p) { EnterConserves(Remove(b, p.id), SideOf(b, p.id), p.id, p.sequence, Some(p.price), p.quantity); }
  }

  lemma ReplyAnswers(b: Book, c: Command, s: Session)
    ensures var r, n := Apply(b, c).1, c.Sequence();
            Answers(Reply(Flagged(r.executions, s, n), Message(s, false, n, Answer(c, r))), Asked(b, c))
  {
    var r := Apply(b, c).1;
    FlaggedQuantities(r.executions, s, c.Sequence());
    RefusalsAreExact(b, c);
    if r.Accepted() { AcceptedAccounts(b, c); } else { assert r.executions == []; }
  }

  lemma {:induction false} RepliesConcat(a: seq<Item>, b: seq<Item>)
    ensures Replies(a + b) == Replies(a) + Replies(b)
    decreases |a|
  {
    if a == [] {
      assert a + b == b;
    } else {
      assert (a + b)[1..] == a[1..] + b && (a + b)[0] == a[0];
      RepliesConcat(a[1..], b);
      var head := if a[0].Reply? then [a[0]] else [];
      assert head + (Replies(a[1..]) + Replies(b)) == head + Replies(a[1..]) + Replies(b);
    }
  }

  lemma {:induction false} NoticesOnly(ms: seq<Message>)
    ensures Replies(Notices(ms)) == []
    decreases |ms|
  {
    if ms != [] {
      assert Notices(ms)[1..] == Notices(ms[1..]);
      NoticesOnly(ms[1..]);
    }
  }

  lemma {:induction false} RepliesAnswer(v: Service, ins: seq<Inbound>, s: Session)
    ensures var rs, asked := Replies(AllDue(v, ins, s)), AllAsked(v.book, ins, s);
            |rs| == |asked| && forall k :: 0 <= k < |rs| ==> Answers(rs[k], asked[k])
    decreases |ins|
  {
    if ins != [] {
      var v' := Handle(v, ins[0].session, ins[0].command).0;
      RepliesAnswer(v', ins[1..], s);
      var due := Due(v, ins[0], s);
      RepliesConcat(due, AllDue(v', ins[1..], s));
      if ins[0].session == s {
        ReplyAnswers(v.book, ins[0].command, s);
        assert due[1..] == [] && Replies(due) == due;
      } else {
        NoticesOnly(Told(v.owners, Apply(v.book, ins[0].command).1.executions, s, ins[0].command.Sequence()));
      }
    }
  }

  /** For any mix of sessions and commands: what a session reads parses, and its replies answer
      its commands one for one and in order, each truly for the book it found: every accepted
      limit order and replace with executions plus remainder equal to what was asked, every
      refusal with its reason. */
  lemma EveryCommandIsAnswered(ins: seq<Inbound>, s: Session)
    ensures var items, asked := Parse(Project(Serve(IDLE, ins).1, s), []), AllAsked(EMPTY, ins, s);
            && items.Some?
            && |Replies(items.value)| == |asked| == |Own(ins, s)|
            && forall k :: 0 <= k < |asked| ==> asked[k].command == Own(ins, s)[k] && Answers(Replies(items.value)[k], asked[k])
  {
    StreamParses(IDLE, ins, s);
    RepliesAnswer(IDLE, ins, s);
    AskedIsOwn(EMPTY, ins, s);
  }
}
