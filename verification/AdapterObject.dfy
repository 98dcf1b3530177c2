/** The adapter's send as a method on the bus object, and a frame's whole way across the bridge. */
module AdapterObject {
  import opened Wrappers
  import opened Lin
  import opened Relay
  import opened BusRuns
  import opened BusObject
  import opened Delivery
  import B = Bus
  import A = Adapter
  import C = Channel

  class LinAdapter {
    const bus: VirtualBus

    constructor (bus: VirtualBus)
      ensures this.bus == bus
    {
      this.bus := bus;
    }

    method Send(m: Message) returns (error: Option<A.SendError>)
      requires Inv(bus.Now()) && (FromMessage(m).Some? ==> bus.headers == map[])
      modifies bus
      ensures Inv(bus.Now())
      ensures var sent := A.Send(old(bus.responses), old(bus.closed), m);
        && error == (if sent.NotSent? then Some(sent.error) else None)
        && bus.Now() == old(bus.Now()).(
             responses := if sent.Registered? then sent.responses else old(bus.responses),
             errors := old(bus.errors) + if sent.NotSent? && sent.error.BusError? then 1 else 0)
    {
      hide Inv, FromMessage;
      match FromMessage(m)
      case None =>
        error := Some(A.PayloadTooLarge);
      case Some(f) =>
        var refused: Option<B.Error>;
        if f.checksumType == Classic || f.id == DIAG_REQUEST_ID || f.id == DIAG_RESPONSE_ID {
          refused := bus.DoPublish(f.id, f.data, Classic);
        } else {
          refused := bus.DoPublish(f.id, f.data, Enhanced);
        }
        error := match refused case Some(e) => Some(A.BusError(e)) case None => None;
    }
  }

  /** The thread that subscribe starts.  Every method is one step of the pipeline: one pass of a channel
      call's wait loop, and what the thread does once the call has returned. */
  class ForwardingThread {
    const policy: Policy
    var inner: C.Chan<Frame>
    var outer: C.Chan<Message>
    var seqNo: nat
    var state: A.Forwarder
    ghost var taken: seq<Frame>
    ghost var tries: seq<Try<Message>>

    ghost function Now(): A.Pipe
      reads this
    {
      A.Pipe(inner, outer, policy, seqNo, state, taken, tries)
    }

    constructor (innerDepth: nat, policy: Policy, depth: int)
      requires 1 <= innerDepth
      ensures Now() == A.Start(innerDepth, policy, depth) && A.Inv(Now())
    {
      this.policy := policy;
      inner, outer := C.Create(innerDepth), C.Create(EffectiveDepth(depth));
      seqNo, state, taken, tries := 0, A.Receiving, [], [];
      new;
      A.StartInv(innerDepth, policy, depth);
    }

    /** One pass of recv on the bus's channel. */
    method Receive(choice: Option<C.Tid>)
      requires A.Inv(Now()) && A.Enabled(Now(), A.Receive(choice))
      modifies this
      ensures Now() == A.Apply(old(Now()), A.Receive(choice)) && A.Inv(Now())
    {
      hide C.Apply, C.ReplyOf, C.Enabled, A.Inv, ToMessage;
      ghost var before := Now();
      var call := C.RecvPass(A.FORWARDER, choice);
      A.ReceiveKeepsInv(before, choice);
      var reply := C.ReplyOf(inner, call);
      inner := C.Apply(inner, call);
      match reply {
        case Got(Some(f)) =>
          seqNo := (seqNo + 1) % A.TWO64;
          state := A.Offering(ToMessage(f).(seqNo := seqNo));
          taken := taken + [f];
        case Got(None) =>
          state := A.Ending;
        case _ =>
      }
    }

    /** One pass of the send that the policy picks. */
    method Offer(choice: Option<C.Tid>)
      requires A.Inv(Now()) && A.Enabled(Now(), A.Offer(choice))
      modifies this
      ensures Now() == A.Apply(old(Now()), A.Offer(choice)) && A.Inv(Now())
    {
      hide C.Apply, C.ReplyOf, C.Enabled, A.Inv;
      A.OfferKeepsInv(Now(), choice);
      var call := CallFor(policy, A.FORWARDER, state.message, choice);
      var reply := C.ReplyOf(outer, call);
      tries := OfferItem(policy, outer, tries, A.FORWARDER, state.message, choice).1;
      outer := C.Apply(outer, call);
      if reply.Sent? {
        state := A.Receiving;
      }
    }

    method Finish()
      requires A.Inv(Now()) && A.Enabled(Now(), A.Finish)
      modifies this
      ensures Now() == A.Apply(old(Now()), A.Finish) && A.Inv(Now())
    {
      hide A.Inv;
      A.StepKeepsInv(Now(), A.Finish);
      outer := C.Apply(outer, C.Event.Close);
      state := A.Gone;
    }
  }

  /** A frame sent over the bridge of an open bus comes back from the next header exactly when it has data,
      a 6-bit identifier, the right checksum and, on the diagnostic identifiers, the classic type. */
  method SendThenCollect(adapter: LinAdapter, t: C.Tid, f: Frame, env: Env) returns (same: bool, done: bool)
    requires Inv(adapter.bus.Now()) && adapter.bus.headers == map[] && !adapter.bus.closed
    requires forall p :: 0 <= p < |adapter.bus.ports| ==> t !in adapter.bus.ports[p].chan.waiters
    modifies adapter.bus
    ensures same <==> A.SurvivesBridge(f)
  {
    hide Inv, A.Send, B.Exchange, A.SurvivesBridge, FromMessage, ToMessage, MatchCount, Reached;
    ghost var before := adapter.bus.responses;
    var error := adapter.Send(ToMessage(f));
    A.BridgeIdentityIff(before, f);
    if error.Some? {
      return false, true;
    }
    var r: B.HeaderResult;
    r, done := adapter.bus.SendHeader(t, f.id, env);
    same := r == B.Exchanged(f);
  }
}
