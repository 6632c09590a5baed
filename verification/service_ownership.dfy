/** The owner table tracks the book exactly, over every run. */
module ServiceOwnership {
  import opened Types
  import opened BookSpec
  import opened BookInvariant
  import opened BookPriority
  import opened ServiceSpec

  // ----- which ids rest after a command -----

  lemma HasAt(q: seq<Slot>, i: nat)
    requires i < |q|
    ensures Has(q, q[i].id)
  {
  }

  lemma HasInsert(s: Side, q: seq<Slot>, x: Slot, id: OrderId)
    ensures Has(Insert(s, q, x), id) <==> Has(q, id) || id == x.id
  {
    var r, k := Insert(s, q, x), InsertionPoint(s, q, x.price);
    InsertedAt(s, q, x);
    HasAt(r, k);
    if Has(q, id) {
      var i := Index(q, id);
      HasAt(r, if i < k then i else i + 1);
    }
    if Has(r, id) && id != x.id {
      var i := Index(r, id);
      HasAt(q, if i < k then i else i - 1);
    }
  }

  lemma HasRemove(q: seq<Slot>, i: nat, id: OrderId)
    requires Distinct(q) && i < |q|
    ensures Has(RemoveAt(q, i), id) <==> Has(q, id) && id != q[i].id
  {
    var r := RemoveAt(q, i);
    assert forall j :: 0 <= j < |r| ==> r[j] == q[if j < i then j else j + 1];
    if Has(q, id) && id != q[i].id {
      var m := Index(q, id);
      HasAt(r, if m < i then m else m - 1);
    }
    if Has(r, id) {
      var m := Index(r, id);
      HasAt(q, if m < i then m else m + 1);
    }
  }

  lemma HasSwept(s: Side, q: seq<Slot>, limit: Option<Price>, incoming: OrderId, units: nat, id: OrderId)
    requires units < TWO64
    ensures var t := Sweep(s, q, limit, incoming, units);
            && (Has(t.rest, id) ==> Has(q, id))
            && (Has(q, id) && id !in Filled(t.executions) ==> Has(t.rest, id))
            && (id in Filled(t.executions) ==> Has(q, id))
  {
    var t := Sweep(s, q, limit, incoming, units);
    SweepShape(s, q, limit, incoming, units);
    RestIsSuffix(s, q, limit, incoming, t);
    var k := Consumed(q, t);
    if Has(t.rest, id) { HasAt(q, k + Index(t.rest, id)); }
    if Has(q, id) && Index(q, id) >= k { HasAt(t.rest, Index(q, id) - k); }
    if Has(q, id) && Index(q, id) < k { FilledAt(t.executions, Index(q, id)); }
    if id in Filled(t.executions) {
      var i := FillOf(t.executions, id);
      HasAt(q, i);
    }
  }

  lemma FilledAt(es: seq<Execution>, i: nat)
    requires i < |es|
    ensures es[i].resting in Filled(es)
  {
    assert es[i] in es;
  }

  lemma FillOf(es: seq<Execution>, id: OrderId) returns (i: nat)
    requires id in Filled(es)
    ensures i < |es| && es[i].resting == id
  {
    var e :| e in es && e.resting == id;
    i :| 0 <= i < |es| && es[i] == e;
  }

  /** After an order entered: nothing rests that did not rest before but itself,
      and what rested and was not filled still rests. */
  lemma RestsAfterEnter(b: Book, s: Side, x: OrderId, sequence: Sequence, limit: Option<Price>, quantity: Quantity, id: OrderId)
    requires !Rests(b, x)
    ensures var (b', r) := Enter(b, s, x, sequence, limit, quantity);
            && (id == x ==> (Rests(b', id) <==> r.remaining.Some?))
            && (id != x && Rests(b', id) ==> Rests(b, id))
            && (id != x && Rests(b, id) && id !in Filled(r.executions) ==> Rests(b', id))
            && (id in Filled(r.executions) ==> Rests(b, id))
  {
    var c := s.Opposite();
    var t := Sweep(c, b.On(c), limit, x, quantity);
    HasSwept(c, b.On(c), limit, x, quantity, id);
    SweepLeft(c, b.On(c), limit, x, quantity);
    if limit.Some? && t.left > 0 { HasInsert(s, b.On(s), Slot(limit.value, x, sequence, t.left), id); }
    OnBoth(b, s, id);
    OnBoth(Enter(b, s, x, sequence, limit, quantity).0, s, id);
  }

  lemma OnBoth(b: Book, s: Side, id: OrderId)
    ensures Rests(b, id) <==> Has(b.On(s), id) || Has(b.On(s.Opposite()), id)
  {
  }

  lemma RestsAfterRemove(b: Book, x: OrderId, id: OrderId)
    requires Wf(b) && Rests(b, x)
    ensures Rests(Remove(b, x), id) <==> Rests(b, id) && id != x
  {
    RemoveKeeps(b, x);
    var s := SideOf(b, x);
    HasRemove(b.On(s), Index(b.On(s), x), id);
    OnBoth(b, s, id);
    OnBoth(Remove(b, x), s, id);
  }

  lemma RestsAfterResize(b: Book, r: ReplaceOrder, id: OrderId)
    requires Rests(b, r.id) && KeepsPlace(b, r)
    ensures Rests(ReplaceOne(b, r).0, id) <==> Rests(b, id)
  {
    var s := SideOf(b, r.id);
    var q, q' := b.On(s), ReplaceOne(b, r).0.On(s);
    if Has(q, id) { HasAt(q', Index(q, id)); }
    if Has(q', id) { HasAt(q, Index(q', id)); }
    OnBoth(b, s, id);
    OnBoth(ReplaceOne(b, r).0, s, id);
  }

  /** The effect of any accepted command on who rests. */
  lemma RestsAfter(b: Book, c: Command, id: OrderId)
    requires Wf(b) && Apply(b, c).1.Accepted()
    ensures var (b', r) := Apply(b, c);
            && (id == c.Id() ==> (Rests(b', id) <==> !c.Cancel? && r.remaining.Some?))
            && (id != c.Id() && Rests(b', id) ==> Rests(b, id))
            && (id != c.Id() && Rests(b, id) && id !in Filled(r.executions) ==> Rests(b', id))
            && (id in Filled(r.executions) ==> id != c.Id())
            && (c.New? ==> !Rests(b, c.Id()))
  {
    match c
    case New(o) =>
      NewIdKeeps(b, o.id);
      RestsAfterEnter(b.(seen := b.seen + {o.id}), o.side, o.id, o.sequence, o.limit, o.quantity, id);
    case Cancel(k) => RestsAfterRemove(b, k.id, id);
    case Replace(r) =>
      if KeepsPlace(b, r) {
        RestsAfterResize(b, r, id);
      } else {
        RemoveKeeps(b, r.id);
        RestsAfterRemove(b, r.id, id);
        RestsAfterEnter(Remove(b, r.id), SideOf(b, r.id), r.id, r.sequence, Some(r.price), r.quantity, id);
      }
  }

  // ----- the table -----

  /** The keys of the table are exactly the resting ids. */
  predicate Tracks(v: Service) {
    forall id :: id in v.owners <==> Rests(v.book, id)
  }

  /** What one command does to one entry. */
  lemma EntryAfter(v: Service, session: Session, c: Command, id: OrderId)
    requires Wf(v.book) && (id in v.owners <==> Rests(v.book, id))
    ensures var (v', _, ok) := Handle(v, session, c);
            && (id in v'.owners <==> Rests(v'.book, id))
            && (id in v'.owners ==>
                  if ok && !c.Cancel? && c.Id() == id then v'.owners[id] == session
                  else id in v.owners && v'.owners[id] == v.owners[id])
  {
    var (b, r) := Apply(v.book, c);
    if r.Accepted() {
      RestsAfter(v.book, c, id);
      ReportKeys(v.owners, r.executions, b, session, c.Sequence());
    } else {
      RejectedChangesNothing(v.book, c);
    }
  }

  lemma HandleTracks(v: Service, session: Session, c: Command)
    requires Wf(v.book) && Tracks(v)
    ensures Tracks(Handle(v, session, c).0) && Wf(Handle(v, session, c).0.book)
  {
    ApplyKeeps(v.book, c);
    forall id ensures id in Handle(v, session, c).0.owners <==> Rests(Handle(v, session, c).0.book, id) {
      EntryAfter(v, session, c, id);
    }
  }

  /** The session of the last accepted new order or replace for this id in the run. */
  function LastOwner(v: Service, ins: seq<Inbound>, id: OrderId): Option<Session>
    decreases |ins|
  {
    if ins == [] then None
    else
      var c := ins[0].command;
      var (v', _, ok) := Handle(v, ins[0].session, c);
      var later := LastOwner(v', ins[1..], id);
      if later.Some? then later
      else if ok && !c.Cancel? && c.Id() == id then Some(ins[0].session)
      else None
  }

  lemma {:induction false} OwnersAfter(v: Service, ins: seq<Inbound>, id: OrderId)
    requires Wf(v.book) && Tracks(v)
    ensures var v' := Serve(v, ins).0;
            && Wf(v'.book) && Tracks(v')
            && (id in v'.owners ==>
                  match LastOwner(v, ins, id)
                  case Some(session) => v'.owners[id] == session
                  case None => id in v.owners && v'.owners[id] == v.owners[id])
    decreases |ins|
  {
    if ins != [] {
      HandleTracks(v, ins[0].session, ins[0].command);
      EntryAfter(v, ins[0].session, ins[0].command, id);
      OwnersAfter(Handle(v, ins[0].session, ins[0].command).0, ins[1..], id);
    }
  }

  /** After any run of commands from any sessions, the table's keys are exactly the
      resting ids, and each is owned by the session that last submitted or replaced it. */
  lemma OwnershipIsExact(ins: seq<Inbound>, id: OrderId)
    ensures var v := Serve(IDLE, ins).0;
            && (id in v.owners <==> Rests(v.book, id))
            && (id in v.owners ==> LastOwner(IDLE, ins, id) == Some(v.owners[id]))
  {
    OwnersAfter(IDLE, ins, id);
  }

  lemma FillsAreDistinct(b: Book, c: Command)
    requires Wf(b)
    ensures DistinctFills(Apply(b, c).1.executions)
  {
    var es := Apply(b, c).1.executions;
    forall i, j | 0 <= i < j < |es| ensures es[i].resting != es[j].resting {
      ExecutionsFollowPriority(b, c, i);
      ExecutionsFollowPriority(b, c, j);
      var s := TakerSide(b, c).Opposite();
      assert Distinct(b.On(s));
    }
  }
}
