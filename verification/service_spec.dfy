/** The matching service: who owns each resting order, and what every session is told. */
module ServiceSpec {
  import opened Types
  import opened BookSpec

  type Session = U64

  datatype Body =
    | Executed(e: Execution)
    | OrderAccepted(id: OrderId, remaining: U64)
    | ReplaceAccepted(id: OrderId, remaining: U64)
    | CancelAccepted(id: OrderId, quantity: Quantity)
    | OrderRejected(id: OrderId, reason: RejectReason)
    | CancelRejected(id: OrderId, reason: RejectReason)
    | ReplaceRejected(id: OrderId, reason: RejectReason)

  /** `more` is the flag; `sequence` is that of the command that caused the message. */
  datatype Message = Message(session: Session, more: bool, sequence: Sequence, body: Body)

  datatype Service = Service(book: Book, owners: map<OrderId, Session>)

  datatype Inbound = Inbound(session: Session, command: Command)

  const IDLE: Service := Service(EMPTY, map[])

  // ----- one command -----

  function Owner(owners: map<OrderId, Session>, id: OrderId): Session {
    if id in owners then owners[id] else 0
  }

  /** What one fill tells: the incoming session, and the resting one if there is another. */
  function FillMessages(owner: Session, e: Execution, session: Session, sequence: Sequence): seq<Message> {
    [Message(session, true, sequence, Executed(e))]
    + if owner != 0 && owner != session then [Message(owner, false, sequence, Executed(e))] else []
  }

  /** The loop over the executions: each looks its owner up in the table as it is
      by then, and drops the entry if the order no longer rests. */
  function ReportFills(owners: map<OrderId, Session>, es: seq<Execution>, after: Book, session: Session, sequence: Sequence)
    : (map<OrderId, Session>, seq<Message>)
    decreases |es|
  {
    if es == [] then (owners, [])
    else
      var e := es[0];
      var owners' := if Rests(after, e.resting) then owners else owners - {e.resting};
      var (final, rest) := ReportFills(owners', es[1..], after, session, sequence);
      (final, FillMessages(Owner(owners, e.resting), e, session, sequence) + rest)
  }

  function Left(r: Outcome): U64 { if r.remaining.Some? then r.remaining.value else 0 }

  function Refusal(c: Command, reason: RejectReason): Body {
    match c
    case New(o) => OrderRejected(o.id, reason)
    case Cancel(k) => CancelRejected(k.id, reason)
    case Replace(p) => ReplaceRejected(p.id, reason)
  }

  /** The table, the messages and the verdict, once the book has answered `r` and become `b`. */
  function Settle(owners: map<OrderId, Session>, session: Session, c: Command, b: Book, r: Outcome)
    : (map<OrderId, Session>, seq<Message>, bool)
  {
    var n := c.Sequence();
    if r.rejection.Some? then (owners, [Message(session, false, n, Refusal(c, r.rejection.value))], false)
    else
      match c
      case New(o) =>
        var (owners', told) := ReportFills(owners, r.executions, b, session, n);
        (if Left(r) > 0 && Rests(b, o.id) then owners'[o.id := session] else owners',
         told + [Message(session, false, n, OrderAccepted(o.id, Left(r)))], true)
      case Cancel(k) =>
        var quantity := if r.cancelled.Some? then r.cancelled.value else 1;
        (owners - {k.id}, [Message(session, false, n, CancelAccepted(k.id, quantity))], true)
      case Replace(p) =>
        var (owners', told) := ReportFills(owners, r.executions, b, session, n);
        (if Left(r) > 0 && Rests(b, p.id) then owners'[p.id := session] else owners' - {p.id},
         told + [Message(session, false, n, ReplaceAccepted(p.id, Left(r)))], true)
  }

  function Handle(v: Service, session: Session, c: Command): (Service, seq<Message>, bool) {
    var (b, r) := Apply(v.book, c);
    var (owners, told, ok) := Settle(v.owners, session, c, b, r);
    (Service(b, owners), told, ok)
  }

  function Serve(v: Service, ins: seq<Inbound>): (Service, seq<Message>)
    decreases |ins|
  {
    if ins == [] then (v, [])
    else
      var (v', told, _) := Handle(v, ins[0].session, ins[0].command);
      var (final, rest) := Serve(v', ins[1..]);
      (final, told + rest)
  }

  // ----- distinct fills -----

  predicate DistinctFills(es: seq<Execution>) {
    forall i, j :: 0 <= i < j < |es| ==> es[i].resting != es[j].resting
  }

  /** The same report with every owner taken from the table as it was when the command arrived. */
  function Announce(owners: map<OrderId, Session>, es: seq<Execution>, session: Session, sequence: Sequence): seq<Message>
    decreases |es|
  {
    if es == [] then []
    else FillMessages(Owner(owners, es[0].resting), es[0], session, sequence) + Announce(owners, es[1..], session, sequence)
  }

  lemma {:induction false} AnnounceSame(owners: map<OrderId, Session>, owners': map<OrderId, Session>, es: seq<Execution>,
                                        session: Session, sequence: Sequence)
    requires forall i :: 0 <= i < |es| ==> Owner(owners, es[i].resting) == Owner(owners', es[i].resting)
    ensures Announce(owners, es, session, sequence) == Announce(owners', es, session, sequence)
    decreases |es|
  {
    if es != [] { AnnounceSame(owners, owners', es[1..], session, sequence); }
  }

  /** No resting order trades twice in one match, so dropping entries on the way
      never hides an owner: every fill reaches the owner at arrival. */
  lemma {:induction false} ReportIsAnnounce(owners: map<OrderId, Session>, es: seq<Execution>, after: Book, session: Session, sequence: Sequence)
    requires DistinctFills(es)
    ensures ReportFills(owners, es, after, session, sequence).1 == Announce(owners, es, session, sequence)
    decreases |es|
  {
    if es != [] {
      var e := es[0];
      var owners' := if Rests(after, e.resting) then owners else owners - {e.resting};
      ReportIsAnnounce(owners', es[1..], after, session, sequence);
      forall i | 0 <= i < |es[1..]| ensures Owner(owners, es[1..][i].resting) == Owner(owners', es[1..][i].resting) {
        assert es[1..][i] == es[i + 1];
      }
      AnnounceSame(owners, owners', es[1..], session, sequence);
    }
  }

  function Filled(es: seq<Execution>): set<OrderId> { set e | e in es :: e.resting }

  lemma {:induction false} ReportKeys(owners: map<OrderId, Session>, es: seq<Execution>, after: Book, session: Session, sequence: Sequence)
    ensures var final := ReportFills(owners, es, after, session, sequence).0;
            && (forall id :: id in final <==> id in owners && (id in Filled(es) ==> Rests(after, id)))
            && (forall id :: id in final ==> final[id] == owners[id])
    decreases |es|
  {
    if es != [] {
      var e := es[0];
      var owners' := if Rests(after, e.resting) then owners else owners - {e.resting};
      ReportKeys(owners', es[1..], after, session, sequence);
      assert forall x :: x in es <==> x == e || x in es[1..];
      assert Filled(es) == {e.resting} + Filled(es[1..]);
    }
  }
}
