/** The bus as an object: every method is one or more steps of the bus machine. */
module BusObject {
  import opened Wrappers
  import opened Bytes
  import opened Lin
  import opened Checksum
  import opened Bus
  import opened Delivery
  import opened BusRuns
  import C = Channel

  class VirtualBus {
    var responses: map<byte, Entry>
    var ports: seq<Port>
    var closed: bool
    var headers: map<C.Tid, Header>
    var due: map<C.Tid, Due>
    var writes: nat
    var delivers: nat
    var drops: nat
    var bytesWritten: nat
    var bytesDelivered: nat
    var errors: nat
    var log: seq<Frame>

    function Now(): State
      reads this
    {
      State(responses, ports, closed, headers, due, writes, delivers, drops, bytesWritten, bytesDelivered, errors, log)
    }

    constructor ()
      ensures Now() == INITIAL && Inv(Now())
    {
      responses, ports, closed, headers, due := map[], [], false, map[], map[];
      writes, delivers, drops, bytesWritten, bytesDelivered, errors, log := 0, 0, 0, 0, 0, 0, [];
    }

    method DoPublish(id: byte, data: seq<byte>, ct: ChecksumType) returns (error: Option<Error>)
      requires Inv(Now()) && Enabled(Now(), Publish(id, data, ct))
      modifies this
      ensures Now() == Apply(old(Now()), Publish(id, data, ct)) && Inv(Now())
      ensures error == match Bus.DoPublish(old(responses), old(closed), id, data, ct)
                       case Published(_) => None
                       case Refused(e) => Some(e)
    {
      hide Inv;
      ghost var before := Now();
      error := None;
      if id > MAX_ID {
        errors := errors + 1;
        error := Some(InvalidFrame);
      } else if closed {
        errors := errors + 1;
        error := Some(BusClosed);
      } else if data == [] {
        responses := responses - {id};
      } else {
        var kind := ct;
        if id == DIAG_REQUEST_ID || id == DIAG_RESPONSE_ID {
          kind := Classic;
        }
        responses := responses[id := Entry(data, kind)];
      }
      PublishKeepsInv(before, id, data, ct);
    }

    method Subscribe(filters: seq<Filter>, policy: Policy, depth: int) returns (port: Option<nat>)
      requires Inv(Now()) && Enabled(Now(), Event.Subscribe(filters, policy, depth))
      modifies this
      ensures Now() == Apply(old(Now()), Event.Subscribe(filters, policy, depth)) && Inv(Now())
      ensures port == if old(closed) then None else Some(|old(ports)|)
    {
      hide Inv;
      ghost var before := Now();
      if closed {
        errors := errors + 1;
        port := None;
      } else {
        port := Some(|ports|);
        ports := ports + [Port(filters, policy, C.Create(EffectiveDepth(depth)), |log|, [])];
      }
      SubscribeKeepsInv(before, filters, policy, depth);
    }

    method Close()
      requires Inv(Now()) && Enabled(Now(), Event.Close)
      modifies this
      ensures Now() == Apply(old(Now()), Event.Close) && Inv(Now())
    {
      hide Inv, ClosePort;
      ghost var before := Now();
      if !closed {
        closed := true;
        for p := 0 to |ports|
          invariant |ports| == |before.ports|
          invariant forall q :: 0 <= q < p ==> ports[q] == ClosePort(before.ports[q])
          invariant forall q :: p <= q < |ports| ==> ports[q] == before.ports[q]
          invariant Now() == before.(closed := true, ports := ports)
        {
          ports := ports[p := ClosePort(ports[p])];
        }
        assert ports == CloseAll(before.ports);
      }
      CloseKeepsInv(before);
    }

    /** The part of send_header before the counters and the subscriber loop. */
    method BeginHeader(t: C.Tid, id: byte) returns (r: HeaderResult)
      requires Inv(Now()) && Enabled(Now(), Event.BeginHeader(t, id))
      modifies this
      ensures Now() == Apply(old(Now()), Event.BeginHeader(t, id)) && Inv(Now())
      ensures r == Exchange(old(responses), old(closed), id)
    {
      hide Inv, ChecksumOf, ProtectId;
      ghost var before := Now();
      if id > MAX_ID {
        errors := errors + 1;
        r := Failed(InvalidFrame);
      } else if closed {
        errors := errors + 1;
        r := Failed(BusClosed);
      } else if id !in responses {
        errors := errors + 1;
        r := Failed(NoResponse);
      } else {
        var entry := responses[id];
        var checksum := CalcChecksum(ProtectId(id), entry.data, entry.checksumType);
        var f := Frame(id, entry.data, checksum, entry.checksumType);
        log := log + [f];
        headers, due := headers[t := Header(f, 0, None)], due[t := Write];
        r := Exchanged(f);
      }
      BeginKeepsInv(before, t, id);
    }

    /** The atomic increment that is due. */
    method Account(t: C.Tid)
      requires Inv(Now()) && Enabled(Now(), Event.Account(t))
      modifies this
      ensures Now() == Apply(old(Now()), Event.Account(t)) && Inv(Now())
    {
      hide Inv;
      ghost var before := Now();
      var size := |headers[t].frame.data|;
      match due[t] {
        case Write =>
          writes, due := writes + 1, due[t := WrittenBytes];
        case WrittenBytes =>
          bytesWritten, due := bytesWritten + size, due - {t};
        case DeliveredBytes =>
          bytesDelivered, due := bytesDelivered + size, due - {t};
      }
      AccountKeepsInv(before, t);
    }

    /** The channel call of the loop's switch; false means that a Block send now waits. */
    method Offer(t: C.Tid) returns (returned: bool, choice: Option<C.Tid>)
      requires Inv(Now()) && Ready(Now(), t) && headers[t].pending.None?
      requires MatchesAny(ports[headers[t].next].filters, headers[t].frame)
      requires C.MayRun(ports[headers[t].next].chan, t, Some(headers[t].frame))
      modifies this
      ensures Enabled(old(Now()), Event.Offer(t, choice))
      ensures Now() == Apply(old(Now()), Event.Offer(t, choice)) && Inv(Now())
      ensures returned == OfferTo(old(ports[headers[t].next]), t, old(headers[t].frame), choice).1.Sent?
    {
      hide Inv, C.Apply, C.ReplyOf, C.CanNotify, MatchesAny;
      ghost var before := Now();
      var h := headers[t];
      var port := ports[h.next];
      UsableChannel(before, h.next);
      choice := AnyQueued(port.chan.waiters);
      assert Enabled(before, Event.Offer(t, choice));
      var (port', reply) := OfferTo(port, t, h.frame, choice);
      ports := ports[h.next := port'];
      if reply.Sent? {
        headers := headers[t := h.(pending := Some(CountFor(port.policy, reply.result)))];
      }
      returned := reply.Sent?;
      OfferKeepsInv(before, t, choice);
    }

    /** The counter after the channel call, and on to the next subscriber. */
    method Increment(t: C.Tid)
      requires Inv(Now()) && Enabled(Now(), Event.Increment(t))
      modifies this
      ensures Now() == Apply(old(Now()), Event.Increment(t)) && Inv(Now())
    {
      hide Inv;
      ghost var before := Now();
      var h := headers[t];
      if h.pending.value == Delivered {
        delivers, due := delivers + 1, due[t := DeliveredBytes];
      } else if h.pending.value == Dropped {
        drops := drops + 1;
      }
      headers := headers[t := Header(h.frame, h.next + 1, None)];
      IncrementKeepsInv(before, t);
    }

    /** A step of a subscriber. */
    method ConsumerStep(p: nat, e: C.Event<Frame>)
      requires Inv(Now()) && Enabled(Now(), Consume(p, e))
      modifies this
      ensures Now() == Apply(old(Now()), Consume(p, e)) && Inv(Now())
    {
      hide Inv, C.Enabled, C.Apply;
      ghost var before := Now();
      ports := ports[p := ports[p].(chan := C.Apply(ports[p].chan, e))];
      ConsumeKeepsInv(before, p, e);
    }

    /** The port as it was when the send began to wait is `start`: one step of its subscriber, and another
        pass of the send if that woke it. */
    method WaitStep(t: C.Tid, e: C.Event<Frame>, ghost start: Port) returns (returned: bool)
      requires Inv(Now()) && Ready(Now(), t) && headers[t].pending.None?
      requires StillWaits(start, ports[headers[t].next], t, headers[t].frame)
      requires MatchesAny(start.filters, headers[t].frame)
      modifies this
      ensures Inv(Now()) && Now() == old(Now()).(ports := ports, headers := headers)
      ensures OnlyPort(old(ports), ports, old(headers[t].next))
      ensures OfferResult(start, ports[old(headers[t].next)], t, old(headers), headers, returned)
    {
      hide Inv, C.Apply, C.ReplyOf, C.Enabled, MatchesAny, OfferTo, CountFor, AfterOneTry, StillWaits;
      ghost var before := Now();
      var k := headers[t].next;
      returned := false;
      WaitingMayRun(start, ports[k], t, headers[t].frame);
      if Enabled(Now(), Consume(k, e)) {
        ConsumerStep(k, e);
        WaitsOn(start, before.ports[k], t, headers[t].frame, e);
        WaitingMayRun(start, ports[k], t, headers[t].frame);
        if ports[k].chan.waiters[t].woken {
          ghost var room := Now();
          ChannelOf(room, k);
          ghost var choice: Option<C.Tid>;
          returned, choice := Offer(t);
          NextOffer(start, room.ports[k], t, room.headers[t].frame, choice);
        }
      }
    }

    /** The channel call, however often it has to wait.  `env` is what the subscriber's threads do at this
        channel in the meantime; steps that cannot happen are left out.  False means that after all of that
        the send still waits. */
    method OfferBlocking(t: C.Tid, env: seq<C.Event<Frame>>) returns (returned: bool)
      requires Inv(Now()) && Ready(Now(), t) && headers[t].pending.None?
      requires MatchesAny(ports[headers[t].next].filters, headers[t].frame)
      requires t !in ports[headers[t].next].chan.waiters
      modifies this
      ensures Inv(Now()) && Now() == old(Now()).(ports := ports, headers := headers)
      ensures OnlyPort(old(ports), ports, old(headers[t].next))
      ensures OfferResult(old(ports[headers[t].next]), ports[old(headers[t].next)], t, old(headers), headers, returned)
    {
      hide Inv, C.Apply, C.ReplyOf, C.Enabled, MatchesAny, OfferTo, CountFor, AfterOneTry, StillWaits;
      ghost var before := Now();
      var k := headers[t].next;
      ChannelOf(before, k);
      ghost var choice: Option<C.Tid>;
      returned, choice := Offer(t);
      FirstOffer(before.ports[k], t, before.headers[t].frame, choice);
      var i := 0;
      while !returned && i < |env|
        invariant Inv(Now()) && Now() == before.(ports := ports, headers := headers)
        invariant OnlyPort(before.ports, ports, k)
        invariant OfferResult(before.ports[k], ports[k], t, before.headers, headers, returned)
        decreases |env| - i
      {
        returned := WaitStep(t, env[i], before.ports[k]);
        i := i + 1;
      }
    }

    /** The increments after an offer. */
    method CountOffer(t: C.Tid)
      requires Inv(Now()) && Enabled(Now(), Event.Increment(t)) && headers[t].pending.value != Nothing
      modifies this
      ensures Inv(Now())
      ensures Now() == old(Now()).(headers := headers, delivers := delivers, drops := drops,
                                   bytesDelivered := bytesDelivered)
      ensures headers == old(headers)[t := Header(old(headers[t].frame), old(headers[t].next) + 1, None)]
      ensures delivers + drops == old(delivers + drops) + 1
    {
      hide Inv;
      ghost var before := Now();
      Increment(t);
      if t in due {
        Account(t);
      }
      assert due == before.due;
    }

    /** One turn of send_header's loop; false means that its Block send still waits. */
    method DeliverTo(t: C.Tid, env: seq<C.Event<Frame>>) returns (done: bool)
      requires Inv(Now()) && Ready(Now(), t) && headers[t].pending.None?
      requires t !in ports[headers[t].next].chan.waiters
      modifies this
      ensures Inv(Now())
      ensures Now() == old(Now()).(ports := ports, headers := headers, delivers := delivers, drops := drops,
                                   bytesDelivered := bytesDelivered)
      ensures OnlyPort(old(ports), ports, old(headers[t].next))
      ensures var k := old(headers[t].next);
              var f := old(headers[t].frame);
              if done then
                && headers == old(headers)[t := old(headers[t]).(next := k + 1)]
                && Offered(old(ports[k]), ports[k], f)
                && delivers + drops == old(delivers + drops) + (if MatchesAny(old(ports[k].filters), f) then 1 else 0)
              else
                && headers == old(headers) && StillWaits(old(ports[k]), ports[k], t, f)
                && delivers == old(delivers) && drops == old(drops) && bytesDelivered == old(bytesDelivered)
    {
      hide Inv, MatchesAny, AfterOneTry, StillWaits;
      var h := headers[t];
      done := true;
      if MatchesAny(ports[h.next].filters, h.frame) {
        done := OfferBlocking(t, env);
        if done {
          CountOffer(t);
        }
      } else {
        SkipKeepsInv(Now(), t);
        headers := headers[t := h.(next := h.next + 1)];
      }
    }

    /** send_header's subscriber loop. */
    method Broadcast(t: C.Tid, env: Env) returns (done: bool)
      requires Inv(Now()) && t in headers && t !in due && headers[t].next == 0 && headers[t].pending.None?
      requires forall p :: 0 <= p < |ports| ==> t !in ports[p].chan.waiters
      modifies this
      ensures Inv(Now()) && |ports| == |old(ports)|
      ensures Now() == old(Now()).(ports := ports, headers := headers, delivers := delivers, drops := drops,
                                   bytesDelivered := bytesDelivered)
      ensures t in headers && headers == old(headers)[t := old(headers[t]).(next := headers[t].next)]
      ensures Reached(old(ports), ports, headers[t].next, t, old(headers[t].frame), done)
      ensures delivers + drops == old(delivers + drops) + MatchCount(old(ports)[..headers[t].next], old(headers[t].frame))
    {
      hide Inv, MatchesAny, AfterOneTry, StillWaits, Offered;
      ghost var begun := Now();
      ghost var h := headers[t];
      done := true;
      for i := 0 to |ports|
        invariant |ports| == |begun.ports| && Inv(Now()) && done
        invariant Now() == begun.(ports := ports, headers := headers, delivers := delivers, drops := drops,
                                  bytesDelivered := bytesDelivered)
        invariant headers == begun.headers[t := h.(next := i)]
        invariant forall p :: 0 <= p < i ==> Offered(begun.ports[p], ports[p], h.frame)
        invariant forall p :: i <= p < |ports| ==> ports[p] == begun.ports[p]
        invariant delivers + drops == begun.delivers + begun.drops + MatchCount(begun.ports[..i], h.frame)
      {
        assert begun.ports[..i + 1][..i] == begun.ports[..i];
        done := DeliverTo(t, env(i));
        if !done {
          return;
        }
      }
    }

    /** send_header up to the subscriber loop. */
    method StartHeader(t: C.Tid, id: byte) returns (r: HeaderResult)
      requires Inv(Now()) && Enabled(Now(), Event.BeginHeader(t, id))
      modifies this
      ensures Inv(Now()) && r == Exchange(old(responses), old(closed), id)
      ensures r.Failed? ==> Now() == old(Now()).(errors := old(errors) + 1)
      ensures r.Exchanged? ==>
        Now() == old(Now()).(headers := old(headers)[t := Header(r.frame, 0, None)], log := old(log) + [r.frame],
                             writes := old(writes) + 1, bytesWritten := old(bytesWritten) + |r.frame.data|)
      ensures t !in due
    {
      hide Inv, Exchange;
      ghost var before := Now();
      NewHeaderOwes(before, t);
      r := BeginHeader(t, id);
      if r.Exchanged? {
        Account(t);
        Account(t);
        assert due == before.due;
      }
    }

    method EndHeader(t: C.Tid)
      requires Inv(Now()) && Enabled(Now(), Event.EndHeader(t))
      modifies this
      ensures Now() == Apply(old(Now()), Event.EndHeader(t)) && Inv(Now())
    {
      hide Inv;
      EndKeepsInv(Now(), t);
      headers := headers - {t};
    }

    /** A header exchange: the collected frame is offered once to every matching subscriber, and each offer
        is counted once.  `env` says what a subscriber's threads do at its channel while a Block send waits
        there; if that does not let the send through, the header stays at that subscriber, with all before it
        served and none after it touched. */
    method SendHeader(t: C.Tid, id: byte, env: Env) returns (r: HeaderResult, done: bool)
      requires Inv(Now()) && Enabled(Now(), Event.BeginHeader(t, id))
      modifies this
      ensures Inv(Now()) && r == Exchange(old(responses), old(closed), id)
      ensures r.Failed? ==> done && Now() == old(Now()).(errors := old(errors) + 1)
      ensures r.Exchanged? ==>
        && Now() == old(Now()).(ports := ports, headers := headers, delivers := delivers, drops := drops,
                                bytesDelivered := bytesDelivered, writes := old(writes) + 1,
                                bytesWritten := old(bytesWritten) + |r.frame.data|, log := old(log) + [r.frame])
        && |ports| == |old(ports)|
        && (done ==>
             && AllServed(old(ports), ports, r.frame)
             && headers == old(headers) && Reached(old(ports), ports, |ports|, t, r.frame, true)
             && delivers + drops == old(delivers + drops) + MatchCount(old(ports), r.frame))
        && (!done ==>
             && t in headers && headers == old(headers)[t := Header(r.frame, headers[t].next, None)]
             && Reached(old(ports), ports, headers[t].next, t, r.frame, false)
             && delivers + drops == old(delivers + drops) + MatchCount(old(ports)[..headers[t].next], r.frame))
    {
      hide Inv, MatchesAny, Exchange, Reached, AllServed;
      ghost var before := Now();
      done := true;
      r := StartHeader(t, id);
      if r.Exchanged? {
        done := Broadcast(t, env);
        if done {
          ReachedServes(before.ports, ports, headers[t].next, t, r.frame);
          EndHeader(t);
          assert headers == before.headers;
        }
      }
    }
  }

  /** What the threads of subscriber p do at its channel while a sender waits there. */
  type Env = nat -> seq<C.Event<Frame>>

  /** Nobody outside a header has an increment to make. */
  lemma NewHeaderOwes(s: State, t: C.Tid)
    requires Inv(s) && t !in s.headers
    ensures t !in s.due
  {
  }

  ghost predicate OnlyPort(before: seq<Port>, after: seq<Port>, k: nat) {
    k < |before| && |after| == |before| && after == before[k := after[k]]
  }

  function MatchCount(ports: seq<Port>, f: Frame): nat {
    if ports == [] then 0
    else MatchCount(ports[..|ports| - 1], f) + if MatchesAny(ports[|ports| - 1].filters, f) then 1 else 0
  }

  /** The frame has been offered to the first n ports; when it got no further, the send to the next one
      still waits. */
  ghost predicate Reached(before: seq<Port>, after: seq<Port>, n: nat, t: C.Tid, f: Frame, done: bool) {
    && |after| == |before| && n <= |before|
    && (done <==> n == |before|)
    && (forall p :: 0 <= p < n ==> Offered(before[p], after[p], f))
    && (!done ==> StillWaits(before[n], after[n], t, f))
    && (forall p :: n < p < |before| ==> after[p] == before[p])
  }

  /** The frame has been offered once to the subscribers that gave no filter, one for every frame, or one for
      its identifier, and to no other. */
  ghost predicate AllServed(before: seq<Port>, after: seq<Port>, f: Frame) {
    && |after| == |before|
    && forall p :: 0 <= p < |before| ==>
         Tried(after[p].tries) == Tried(before[p].tries) +
         if AsksForAll(before[p].filters) || f.id in IdsOf(before[p].filters) then [f] else []
  }

  lemma ReachedServes(before: seq<Port>, after: seq<Port>, n: nat, t: C.Tid, f: Frame)
    requires Reached(before, after, n, t, f, true)
    ensures n == |before| && before[..n] == before && AllServed(before, after, f)
  {
    hide MatchesAny, AsksForAll, IdsOf;
    forall p | 0 <= p < |before|
      ensures Tried(after[p].tries) == Tried(before[p].tries) +
              if AsksForAll(before[p].filters) || f.id in IdsOf(before[p].filters) then [f] else []
    {
      AskedIff(before[p].filters, f);
      assert Offered(before[p], after[p], f);
      assert Tried(before[p].tries) + [] == Tried(before[p].tries);
    }
  }

  ghost predicate Offered(before: Port, after: Port, f: Frame) {
    if MatchesAny(before.filters, f) then AfterOneTry(before, after, f) else after == before
  }

  ghost predicate SameSubscription(before: Port, after: Port) {
    after.filters == before.filters && after.policy == before.policy && after.since == before.since
  }

  /** The port was offered f exactly once: DropNewest leaves it out when full, DropOldest then evicts the
      oldest item for it, and Block queues it after whatever its subscriber received meanwhile. */
  ghost predicate AfterOneTry(before: Port, after: Port, f: Frame) {
    && SameSubscription(before, after)
    && Tried(after.tries) == Tried(before.tries) + [f]
    && var c, c' := before.chan, after.chan;
       var full := |c.buf| == c.capacity;
       match before.policy
       case DropNewest => c'.pushed == (if full then c.pushed else c.pushed + [f]) && c'.removed == c.removed
       case DropOldest =>
         && c'.pushed == c.pushed + [f] && (full ==> c.buf != [])
         && c'.removed == (if full then c.removed + [C.Removal(c.buf[0], C.Dropped)] else c.removed)
       case Block => c'.pushed == c.pushed + [f] && C.OnlyReceivedSince(c.removed, c'.removed)
  }

  /** The channel call of header t returned, with a counter to increment, or it still waits. */
  ghost predicate OfferResult(before: Port, after: Port, t: C.Tid, headers: map<C.Tid, Header>,
                              headers': map<C.Tid, Header>, returned: bool)
    requires t in headers
  {
    if returned then
      && AfterOneTry(before, after, headers[t].frame)
      && t in headers' && headers' == headers[t := headers[t].(pending := headers'[t].pending)]
      && headers'[t].pending.Some? && headers'[t].pending.value != Nothing
    else headers' == headers && StillWaits(before, after, t, headers[t].frame)
  }

  /** The send of f by t waits; its subscriber may have received items meanwhile. */
  ghost predicate StillWaits(before: Port, after: Port, t: C.Tid, f: Frame) {
    && SameSubscription(before, after) && before.policy == Block
    && after.tries == before.tries && after.chan.pushed == before.chan.pushed
    && C.OnlyReceivedSince(before.chan.removed, after.chan.removed)
    && t in after.chan.waiters && after.chan.waiters[t].item == Some(f)
  }

  lemma ChannelOf(s: State, p: nat)
    requires Inv(s) && p < |s.ports| && s.headers != map[]
    ensures ChannelInv(s.ports[p], false)
  {
    assert PortInv(s, p);
  }

  /** What the first pass of a channel call leaves behind. */
  lemma FirstOffer(port: Port, t: C.Tid, f: Frame, choice: Option<C.Tid>)
    requires ChannelInv(port, false) && C.Enabled(port.chan, CallFor(port.policy, t, f, choice))
    requires t !in port.chan.waiters
    ensures var (port', r) := OfferTo(port, t, f, choice);
      && (r.Sent? ==> AfterOneTry(port, port', f) && CountFor(port.policy, r.result) != Nothing)
      && (!r.Sent? ==> StillWaits(port, port', t, f))
  {
    hide C.Enabled, C.Apply, C.ReplyOf;
    OfferReply(port, t, f, choice);
    WaitersAfter(port.chan, CallFor(port.policy, t, f, choice));
    AfterSend(port.chan, CallFor(port.policy, t, f, choice));
    var (port', r) := OfferTo(port, t, f, choice);
    if r.Sent? {
      assert Tried(port'.tries) == Tried(port.tries) + [f];
    }
  }

  /** What a later pass leaves behind. */
  lemma NextOffer(start: Port, port: Port, t: C.Tid, f: Frame, choice: Option<C.Tid>)
    requires ChannelInv(port, false) && C.Enabled(port.chan, CallFor(port.policy, t, f, choice))
    requires StillWaits(start, port, t, f)
    ensures var (port', r) := OfferTo(port, t, f, choice);
      && (r.Sent? ==> AfterOneTry(start, port', f) && CountFor(port.policy, r.result) != Nothing)
      && (!r.Sent? ==> StillWaits(start, port', t, f))
  {
    hide C.Enabled, C.Apply, C.ReplyOf;
    OfferReply(port, t, f, choice);
    WaitersAfter(port.chan, CallFor(port.policy, t, f, choice));
    AfterSend(port.chan, CallFor(port.policy, t, f, choice));
    var (port', r) := OfferTo(port, t, f, choice);
    if r.Sent? {
      assert Tried(port'.tries) == Tried(port.tries) + [f];
    }
  }

  /** A step of the subscriber leaves the send waiting. */
  lemma WaitsOn(start: Port, port: Port, t: C.Tid, f: Frame, e: C.Event<Frame>)
    requires StillWaits(start, port, t, f) && C.Enabled(port.chan, e) && IsConsumerEvent(e)
    requires e.RecvPass? ==> e.t != t
    ensures StillWaits(start, port.(chan := C.Apply(port.chan, e)), t, f)
  {
    hide C.Enabled, C.Apply, C.ReplyOf;
    WaitersAfter(port.chan, e);
    AfterConsume(port.chan, e);
  }

  lemma WaitingMayRun(before: Port, after: Port, t: C.Tid, f: Frame)
    requires StillWaits(before, after, t, f)
    ensures t in after.chan.waiters && (after.chan.waiters[t].woken ==> C.MayRun(after.chan, t, Some(f)))
    ensures after.filters == before.filters && after.policy == Block
  {
  }

  method AnyQueued(waiters: map<C.Tid, C.Waiter<Frame>>) returns (choice: Option<C.Tid>)
    ensures C.CanNotify(waiters, C.NotEmpty, choice)
  {
    var queued := C.Queued(waiters, C.NotEmpty);
    if queued == {} {
      choice := None;
    } else {
      var u :| u in queued;
      choice := Some(u);
    }
  }
}
