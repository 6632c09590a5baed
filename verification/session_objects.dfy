/** The session object: its two completion handlers and the enqueue step, checked
    against the reader's state machine. */
module SessionObjects {
  import opened Types
  import opened Bytes
  import opened Wire
  import Spsc
  import ServiceSpec
  import opened SessionReader

  function Commands(id: ServiceSpec.Session, fs: seq<Frame>): seq<ServiceSpec.Inbound> {
    seq(|fs|, i requires 0 <= i < |fs| => ServiceSpec.Inbound(id, fs[i].command))
  }

  lemma {:induction false} RunSnoc(s: Session, es: seq<Event>, e: Event)
    ensures Run(s, es + [e]) == Step(Run(s, es), e)
    ensures Arrived(es + [e]) == Arrived(es) + Came(e)
    decreases |es|
  {
    if es == [] {
      assert [e][1..] == [] && es + [e] == [e];
      assert Run(Step(s, e), []) == Step(s, e) && Came(e) + [] == Came(e);
    } else {
      var s', t := Step(s, es[0]), es[1..];
      assert (es + [e])[1..] == t + [e] && (es + [e])[0] == es[0];
      RunSnoc(s', t, e);
      assert Came(es[0]) + (Arrived(t) + Came(e)) == Came(es[0]) + Arrived(t) + Came(e);
    }
  }

  lemma CommandsGrow(id: ServiceSpec.Session, fs: seq<Frame>, fs': seq<Frame>, n: nat)
    requires n <= |fs| && fs <= fs'
    ensures Commands(id, fs'[n..]) == Commands(id, fs[n..]) + Commands(id, fs'[|fs|..])
  {
  }

  class TcpSession {
    const id: ServiceSpec.Session
    const inbound: Spsc.BoundedQueue<ServiceSpec.Inbound>
    var input: seq<byte>
    var pending: Option<Header>
    var last: U64
    var errors: seq<ProtocolError>
    var closeAfterWrite: bool
    ghost var taken: seq<Frame>

    ghost function State(): Session
      reads this
    {
      Session(
        if closeAfterWrite then Stopped else if pending.Some? then AwaitPayload(pending.value) else AwaitHeader,
        last, input, taken, errors)
    }

    constructor (id: ServiceSpec.Session, inbound: Spsc.BoundedQueue<ServiceSpec.Inbound>)
      ensures State() == CONNECTED && this.id == id && this.inbound == inbound
    {
      this.id, this.inbound := id, inbound;
      input, pending, last, errors, closeAfterWrite, taken := [], None, 0, [], false, [];
    }

    method Arrive(bytes: seq<byte>)
      modifies this`input
      ensures State() == Step(old(State()), Event.Arrive(bytes))
    {
      input := input + bytes;
    }

    method SendProtocolError(code: ErrorCode, kind: byte)
      modifies this`errors, this`closeAfterWrite
      ensures State() == old(State()).Fail(ProtocolError(code, kind))
    {
      closeAfterWrite := true;
      errors := errors + [ProtocolError(code, kind)];
    }

    /** Refuse a sequence number that does not grow, then try the queue. */
    method EnqueueCommand(kind: byte, c: Command) returns (ok: bool)
      requires inbound.Valid()
      modifies this`last, this`errors, this`closeAfterWrite, inbound, inbound.buffer
      ensures inbound.Valid()
      ensures ok <==> c.Sequence() > old(last) && |old(inbound.Queue())| < inbound.n
      ensures inbound.Queue() == old(inbound.Queue()) + (if ok then [ServiceSpec.Inbound(id, c)] else [])
      ensures State() ==
              if ok then old(State()).(last := c.Sequence())
              else old(State()).Fail(ProtocolError(if c.Sequence() <= old(last) then SequenceOutOfOrder else SessionOverloaded, kind))
    {
      if c.Sequence() <= last {
        SendProtocolError(SequenceOutOfOrder, kind);
        return false;
      }
      var pushed := inbound.TryPush(ServiceSpec.Inbound(id, c));
      if !pushed {
        SendProtocolError(SessionOverloaded, kind);
        return false;
      }
      last := c.Sequence();
      return true;
    }

    method ReadHeader()
      requires Enabled(State(), HeaderRead)
      modifies this
      ensures State() == Step(old(State()), HeaderRead) && taken == old(taken)
      ensures closeAfterWrite || |input| < |old(input)|
    {
      var h := DecodeHeader(input[..HEADER_SIZE]).value;
      var fault := ValidateHeader(h);
      if fault.Some? {
        SendProtocolError(fault.value, h.kind);
        return;
      }
      input, pending := input[HEADER_SIZE..], Some(h);
    }

    method ReadPayload() returns (ghost room: bool)
      requires Enabled(State(), PayloadRead(true)) && inbound.Valid()
      modifies this, inbound, inbound.buffer
      ensures inbound.Valid() && room == (|old(inbound.Queue())| < inbound.n)
      ensures State() == Step(old(State()), PayloadRead(room))
      ensures closeAfterWrite || |input| < |old(input)|
      ensures old(taken) <= taken
      ensures inbound.Queue() == old(inbound.Queue()) + Commands(id, taken[|old(taken)|..])
    {
      var h := pending.value;
      var payload := input[..h.length];
      room := |inbound.Queue()| < inbound.n;
      match DecodePayload(h.kind, payload) {
        case Err(code) => SendProtocolError(code, h.kind);
        case Ok(c) =>
          var ok := EnqueueCommand(h.kind, c);
          if ok {
            input, pending := input[h.length..], None;
            taken := taken + [Frame(h.flags, c)];
          }
      }
    }

    /** Run the one handler that can run. */
    method ReadNext() returns (ghost e: Event)
      requires inbound.Valid() && !Quiet(State())
      modifies this, inbound, inbound.buffer
      ensures inbound.Valid() && Came(e) == [] && State() == Step(old(State()), e)
      ensures closeAfterWrite || |input| < |old(input)|
      ensures old(taken) <= taken
      ensures inbound.Queue() == old(inbound.Queue()) + Commands(id, taken[|old(taken)|..])
    {
      if pending.Some? {
        ghost var room := ReadPayload();
        e := PayloadRead(room);
      } else {
        ReadHeader();
        e := HeaderRead;
      }
    }

    predicate Idle()
      reads this
      ensures Idle() <==> Quiet(State())
    {
      closeAfterWrite || |input| < (if pending.Some? then pending.value.length else HEADER_SIZE)
    }

    /** Run the handlers until neither can; `es` is what happened. */
    method ReadAvailable() returns (ghost es: seq<Event>)
      requires inbound.Valid()
      modifies this, inbound, inbound.buffer
      ensures inbound.Valid() && Arrived(es) == []
      ensures State() == Run(old(State()), es) && Quiet(State())
      ensures old(taken) <= taken
      ensures inbound.Queue() == old(inbound.Queue()) + Commands(id, taken[|old(taken)|..])
    {
      ghost var s, n, q := State(), |taken|, inbound.Queue();
      es := [];
      while !Idle()
        invariant inbound.Valid() && Arrived(es) == [] && State() == Run(s, es)
        invariant old(taken) <= taken
        invariant inbound.Queue() == q + Commands(id, taken[n..])
        decreases if closeAfterWrite then 0 else 1 + |input|
      {
        ghost var before := taken;
        ghost var e := ReadNext();
        RunSnoc(s, es, e);
        es := es + [e];
        CommandsGrow(id, before, taken, n);
      }
    }
  }
}
