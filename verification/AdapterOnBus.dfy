/** The adapter joined to the bus: what is sent through it, and what its subscriber gets of the bus log. */
module AdapterOnBus {
  import opened Wrappers
  import opened Bytes
  import opened Lin
  import opened Checksum
  import opened Relay
  import opened Delivery
  import opened BusRuns
  import opened BusLaws
  import A = Adapter
  import B = Bus
  import C = Channel

  // ---- Sending, in a run of the bus ----

  /** What the adapter does to the bus for a bridged frame. */
  function PublishOf(f: Frame): B.Event {
    B.Publish(f.id, f.data, if f.checksumType == Classic || IsDiagnostic(f.id) then Classic else Enhanced)
  }

  lemma SendIsPublish(s: B.State, f: Frame)
    requires B.Enabled(s, PublishOf(f))
    ensures B.Apply(s, PublishOf(f)).responses ==
            match A.Send(s.responses, s.closed, ToMessage(f))
            case Registered(responses) => responses
            case NotSent(_) => s.responses
  {
    hide ToMessage, FromMessage;
    BridgeRoundTrip(f);
  }

  /** No event from m on, before n, publishes for this identifier. */
  ghost predicate NoPublishFor(events: seq<B.Event>, m: nat, n: nat, id: byte)
    requires n <= |events|
  {
    forall i :: m <= i < n ==> !(events[i].Publish? && events[i].id == id)
  }

  /** A table entry stays until something is published for its identifier, and a bus that is open was open. */
  lemma {:induction false} EntryStays(states: seq<B.State>, events: seq<B.Event>, m: nat, n: nat, id: byte)
    requires B.IsRun(states, events) && m <= n <= |events| && NoPublishFor(events, m, n, id)
    ensures id in states[n].responses <==> id in states[m].responses
    ensures id in states[m].responses ==> states[n].responses[id] == states[m].responses[id]
    ensures states[m].closed ==> states[n].closed
  {
    hide B.Enabled, B.Apply;
    if m < n {
      EntryStays(states, events, m, n - 1, id);
      EntryStaysStep(states[n - 1], events[n - 1], id);
    }
  }

  lemma EntryStaysStep(s: B.State, e: B.Event, id: byte)
    requires B.Enabled(s, e) && !(e.Publish? && e.id == id)
    ensures id in B.Apply(s, e).responses <==> id in s.responses
    ensures id in s.responses ==> B.Apply(s, e).responses[id] == s.responses[id]
    ensures s.closed ==> B.Apply(s, e).closed
  {
    hide B.OfferTo, B.CloseAll, B.Exchange, B.HeadersAfterOffer, C.Apply, C.Enabled;
  }

  /** In every run of an open bus, whatever else happens: a frame sent over the bridge is what the next header
      for its identifier exchanges, unless somebody publishes for it in between, if and only if it survives the
      bridge. */
  lemma BridgedInRun(states: seq<B.State>, events: seq<B.Event>, m: nat, n: nat, f: Frame, t: C.Tid)
    requires B.IsRun(states, events) && m < n < |events| && !states[n].closed
    requires events[m] == PublishOf(f) && events[n] == B.BeginHeader(t, f.id)
    requires NoPublishFor(events, m + 1, n, f.id)
    ensures states[n + 1].log == states[n].log + [f] <==> A.SurvivesBridge(f)
  {
    hide B.Enabled, B.Apply;
    EntryStays(states, events, m + 1, n, f.id);
    OpenBefore(states, events, m);
    Registered(states[m], f);
    Collected(states[n], t, f);
  }

  lemma OpenBefore(states: seq<B.State>, events: seq<B.Event>, m: nat)
    requires B.IsRun(states, events) && m < |events|
    ensures states[m].closed ==> states[m + 1].closed
  {
    hide B.OfferTo, B.CloseAll, B.Exchange, B.HeadersAfterOffer, C.Apply, C.Enabled;
  }

  /** The entry that sending leaves behind. */
  lemma Registered(s: B.State, f: Frame)
    requires B.Enabled(s, PublishOf(f)) && !s.closed
    ensures var responses := B.Apply(s, PublishOf(f)).responses;
      f.id <= MAX_ID ==>
        && (f.id in responses <==> f.data != [])
        && (f.data != [] ==> responses[f.id] == B.Entry(f.data, PublishOf(f).ct))
  {
  }

  lemma Collected(s: B.State, t: C.Tid, f: Frame)
    requires B.Enabled(s, B.BeginHeader(t, f.id)) && !s.closed
    requires f.id <= MAX_ID ==>
      && (f.id in s.responses <==> f.data != [])
      && (f.data != [] ==> s.responses[f.id] == B.Entry(f.data, PublishOf(f).ct))
    ensures B.Apply(s, B.BeginHeader(t, f.id)).log == s.log + [f] <==> A.SurvivesBridge(f)
  {
    hide ChecksumOf, ProtectId;
    var s' := B.Apply(s, B.BeginHeader(t, f.id));
    assert |s.log + [f]| == |s.log| + 1;
    if s'.log != s.log {
      assert s'.log[|s.log|] == B.Exchange(s.responses, s.closed, f.id).frame;
      assert (s.log + [f])[|s.log|] == f;
    }
  }

  // ---- The adapter's subscription, joined to the bus ----

  /** The adapter's port of the bus, and its pipeline. */
  datatype Link = Link(port: nat, pipe: A.Pipe)

  datatype Joint = Joint(bus: B.State, link: Option<Link>)

  datatype Event =
    | OnBus(e: B.Event)                        // anybody else on the bus
    | Attach(policy: Policy, depth: int)       // the adapter's subscribe
    | Forward(step: A.Event)                    // the forwarding thread, or the message channel's subscriber

  /** subscribe asks the bus for every frame, with the default options. */
  const SUBSCRIPTION: B.Event := B.Subscribe([], DropNewest, 0)

  /** Only the forwarding thread receives from the adapter's port, and it sends no headers. */
  predicate Enabled(s: Joint, e: Event) {
    match e
    case OnBus(be) =>
      && B.Enabled(s.bus, be)
      && (s.link.Some? ==>
           && (be.BeginHeader? ==> be.t != A.FORWARDER)
           && (be.Consume? && be.p == s.link.value.port ==> be.e.SpuriousWakeup?))
    case Attach(_, _) => s.link.None? && !s.bus.closed && B.Enabled(s.bus, SUBSCRIPTION)
    case Forward(ae) =>
      && s.link.Some? && !ae.Inner? && A.Enabled(s.link.value.pipe, ae)
      && (ae.Receive? ==> B.Enabled(s.bus, B.Consume(s.link.value.port, C.RecvPass(A.FORWARDER, ae.choice))))
  }

  /** The adapter's port and the pipeline's inner channel are one. */
  function Joined(bus: B.State, link: Option<Link>): Joint {
    match link
    case None => Joint(bus, None)
    case Some(l) =>
      if l.port < |bus.ports| then Joint(bus, Some(l.(pipe := l.pipe.(inner := bus.ports[l.port].chan)))) else Joint(bus, link)
  }

  function Apply(s: Joint, e: Event): Joint
    requires Enabled(s, e)
  {
    match e
    case OnBus(be) => Joined(B.Apply(s.bus, be), s.link)
    case Attach(policy, depth) =>
      Joint(B.Apply(s.bus, SUBSCRIPTION), Some(Link(|s.bus.ports|, A.Start(DEFAULT_DEPTH, policy, depth))))
    case Forward(ae) =>
      var l := s.link.value;
      Joint(if ae.Receive? then B.Apply(s.bus, B.Consume(l.port, C.RecvPass(A.FORWARDER, ae.choice))) else s.bus,
            Some(l.(pipe := A.Apply(l.pipe, ae))))
  }

  ghost predicate IsRun(states: seq<Joint>, events: seq<Event>) {
    && |states| == |events| + 1
    && states[0] == Joint(B.INITIAL, None)
    && forall i :: 0 <= i < |events| ==> Enabled(states[i], events[i]) && states[i + 1] == Apply(states[i], events[i])
  }

  /** The step that the bus makes, if any. */
  function BusEvent(s: Joint, e: Event): Option<B.Event> {
    match e
    case OnBus(be) => Some(be)
    case Attach(_, _) => Some(SUBSCRIPTION)
    case Forward(ae) =>
      if ae.Receive? && s.link.Some? then Some(B.Consume(s.link.value.port, C.RecvPass(A.FORWARDER, ae.choice))) else None
  }

  lemma BusFollows(s: Joint, e: Event)
    requires Enabled(s, e)
    ensures BusEvent(s, e).None? ==> Apply(s, e).bus == s.bus
    ensures BusEvent(s, e).Some? ==>
      B.Enabled(s.bus, BusEvent(s, e).value) && Apply(s, e).bus == B.Apply(s.bus, BusEvent(s, e).value)
  {
    hide B.Enabled, B.Apply, A.Apply, A.Enabled, A.Start;
  }

  /** Both machines keep their invariants, and share the channel. */
  ghost predicate LinkInv(bus: B.State, l: Link) {
    && l.port < |bus.ports| && A.Inv(l.pipe) && l.pipe.inner == bus.ports[l.port].chan
    && bus.ports[l.port].filters == [] && bus.ports[l.port].policy == DropNewest
  }

  ghost predicate JointInv(s: Joint) {
    Inv(s.bus) && (s.link.Some? ==> LinkInv(s.bus, s.link.value))
  }

  /** What a step of the bus is to one of its channels. */
  function ChannelEvent(s: B.State, e: B.Event, p: nat): Option<C.Event<Frame>>
    requires p < |s.ports| && B.Enabled(s, e)
  {
    match e
    case Offer(t, choice) =>
      if s.headers[t].next == p then Some(CallFor(s.ports[p].policy, t, s.headers[t].frame, choice)) else None
    case Close => if s.closed then None else Some(C.Event.Close)
    case Consume(q, ce) => if q == p then Some(ce) else None
    case _ => None
  }

  lemma ChannelFollows(s: B.State, e: B.Event, p: nat)
    requires p < |s.ports| && B.Enabled(s, e)
    ensures var s' := B.Apply(s, e);
      && p < |s'.ports| && s'.ports[p].filters == s.ports[p].filters && s'.ports[p].policy == s.ports[p].policy
      && match ChannelEvent(s, e, p)
         case None => s'.ports[p].chan == s.ports[p].chan
         case Some(ce) => C.Enabled(s.ports[p].chan, ce) && s'.ports[p].chan == C.Apply(s.ports[p].chan, ce)
  {
    hide C.Enabled, C.Apply, C.ReplyOf, CallFor, B.MatchesAny, B.Exchange;
    if e.Close? {
      CloseEnabled(s.ports[p].chan);
    }
  }

  lemma CloseEnabled(c: C.Chan<Frame>)
    requires 1 <= c.capacity
    ensures C.Enabled(c, C.Event.Close)
  {
  }

  lemma BusStepKeepsLink(s: Joint, e: B.Event)
    requires JointInv(s) && Enabled(s, OnBus(e)) && s.link.Some?
    ensures LinkInv(B.Apply(s.bus, e), Apply(s, OnBus(e)).link.value)
  {
    hide Inv, A.Inv, B.Apply, C.Enabled, C.Apply;
    var l := s.link.value;
    ChannelFollows(s.bus, e, l.port);
    var ce := ChannelEvent(s.bus, e, l.port);
    if ce.Some? {
      A.StepKeepsInv(l.pipe, A.Inner(ce.value));
    }
    assert l.pipe.(inner := l.pipe.inner) == l.pipe;
  }

  lemma ForwardKeepsLink(s: Joint, e: A.Event)
    requires JointInv(s) && Enabled(s, Forward(e))
    ensures LinkInv(Apply(s, Forward(e)).bus, Apply(s, Forward(e)).link.value)
  {
    hide Inv, A.Inv, C.Enabled, C.Apply, C.ReplyOf, OfferItem;
    A.StepKeepsInv(s.link.value.pipe, e);
  }

  lemma StepKeepsJoint(s: Joint, e: Event)
    requires JointInv(s) && Enabled(s, e)
    ensures JointInv(Apply(s, e))
  {
    hide Inv, A.Inv, B.Apply, B.Enabled, A.Apply, A.Enabled, LinkInv;
    BusFollows(s, e);
    var be := BusEvent(s, e);
    if be.Some? {
      StepKeepsInv(s.bus, be.value);
    }
    match e {
      case OnBus(e) =>
        if s.link.Some? {
          BusStepKeepsLink(s, e);
        }
      case Attach(policy, depth) => AttachLinks(s, policy, depth);
      case Forward(ae) => ForwardKeepsLink(s, ae);
    }
  }

  lemma AttachLinks(s: Joint, policy: Policy, depth: int)
    requires Enabled(s, Attach(policy, depth))
    ensures var s' := Apply(s, Attach(policy, depth)); s'.link.Some? && LinkInv(s'.bus, s'.link.value)
  {
    hide A.Inv;
    A.StartInv(DEFAULT_DEPTH, policy, depth);
  }

  lemma {:induction false} RunJoint(states: seq<Joint>, events: seq<Event>, n: nat)
    requires IsRun(states, events) && n <= |events|
    requires forall i :: 0 <= i < |states| ==> OneMaster(states[i].bus)
    ensures JointInv(states[n]) && Views(states[n].bus)
  {
    hide JointInv, Views, Enabled, Apply, OneMaster;
    if n == 0 {
      InitialJoint();
    } else {
      RunJoint(states, events, n - 1);
      StepKeepsJoint(states[n - 1], events[n - 1]);
      assert OneMaster(states[n].bus);
      JointKeepsViews(states[n - 1], events[n - 1]);
    }
  }

  lemma InitialJoint()
    ensures JointInv(Joint(B.INITIAL, None)) && Views(B.INITIAL)
  {
  }

  lemma JointKeepsViews(s: Joint, e: Event)
    requires JointInv(s) && Enabled(s, e) && Views(s.bus) && OneMaster(Apply(s, e).bus)
    ensures Views(Apply(s, e).bus)
  {
    hide Inv, LinkInv, Views, Enabled, Apply, OneMaster;
    BusFollows(s, e);
    if BusEvent(s, e).Some? {
      StepKeepsViews(s.bus, BusEvent(s, e).value);
    }
  }

  // ---- From the bus log to the messages ----

  lemma {:induction false} FilteredAll(log: seq<Frame>)
    ensures Filtered(log, []) == log
  {
    if log != [] {
      FilteredAll(log[..|log| - 1]);
    }
  }

  /** Without an eviction, the pushed items are all that were tried exactly when none was refused. */
  lemma {:induction false} PushedAllIff(tries: seq<Try<Frame>>)
    requires forall i :: 0 <= i < |tries| ==> tries[i].result == C.Ok || tries[i].result == C.Full
    ensures |Pushed(tries)| <= |tries|
    ensures |Pushed(tries)| == |tries| <==> forall i :: 0 <= i < |tries| ==> tries[i].result == C.Ok
    ensures Pushed(tries) == Tried(tries) <==> |Pushed(tries)| == |tries|
  {
    if tries != [] {
      var k := |tries| - 1;
      PushedAllIff(tries[..k]);
      assert Tried(tries) == Tried(tries[..k]) + [tries[k].item];
      assert forall i :: 0 <= i < k ==> tries[..k][i] == tries[i];
    }
  }

  /** A DropNewest channel: every item that left it was received. */
  lemma NothingEvicted(port: B.Port, closed: bool)
    requires ChannelInv(port, closed) && port.policy == DropNewest
    ensures forall i :: 0 <= i < |port.tries| ==> port.tries[i].result == C.Ok || port.tries[i].result == C.Full
    ensures C.ReceivedItems(port.chan.removed) + port.chan.buf == Pushed(port.tries)
  {
    forall i | 0 <= i < |port.tries| ensures port.tries[i].result == C.Ok || port.tries[i].result == C.Full {
      assert TryInv(port.policy, port.chan.capacity, port.tries[i]);
    }
    DeliveredArePushed(port.tries);
    AllReceived(port.chan.removed);
    ReceivedAreItems(port.chan.removed);
  }

  lemma {:induction false} DeliveredArePushed(tries: seq<Try<Frame>>)
    requires forall i :: 0 <= i < |tries| ==> tries[i].result == C.Ok || tries[i].result == C.Full
    ensures CountTries(tries, DropNewest, Delivered) == |Pushed(tries)|
  {
    if tries != [] {
      DeliveredArePushed(tries[..|tries| - 1]);
    }
  }

  lemma {:induction false} ReceivedAreItems(removed: seq<C.Removal<Frame>>)
    requires forall i :: 0 <= i < |removed| ==> removed[i].fate == C.Received
    ensures C.ReceivedItems(removed) == C.Items(removed)
  {
    if removed != [] {
      var k := |removed| - 1;
      ReceivedAreItems(removed[..k]);
      assert C.Items(removed) == C.Items(removed[..k]) + [removed[k].item];
    }
  }

  /** The message in the forwarding thread's hand. */
  function InHand(pipe: A.Pipe): seq<Message> {
    if pipe.forwarder.Offering? then [pipe.forwarder.message] else []
  }

  /** With one master and between headers: the bus has offered the adapter every frame since it subscribed;
      what the adapter took, followed by what its port buffers, is what the port had room for; and what was
      taken is offered as messages in order.  Under Block none of these messages is lost, so that the whole
      log gets through if and only if the port, which is always DropNewest, was never full. */
  lemma WholeWay(states: seq<Joint>, events: seq<Event>, n: nat)
    requires IsRun(states, events) && n <= |events|
    requires forall i :: 0 <= i < |states| ==> OneMaster(states[i].bus)
    requires states[n].link.Some? && states[n].bus.headers == map[]
    ensures states[n].link.value.port < |states[n].bus.ports|
    ensures var s, l := states[n].bus, states[n].link.value;
      var port, pipe := s.ports[l.port], l.pipe;
      && port.since <= |s.log| && Tried(port.tries) == s.log[port.since..]
      && pipe.taken + port.chan.buf == Pushed(port.tries)
      && Tried(pipe.tries) + InHand(pipe) == A.Messages(pipe.taken)
      && (pipe.policy == Block ==>
           C.Items(pipe.outer.removed) + pipe.outer.buf + InHand(pipe) == A.Messages(pipe.taken))
      && (pipe.taken + port.chan.buf == s.log[port.since..] <==>
           forall i :: 0 <= i < |port.tries| ==> port.tries[i].result != C.Full)
  {
    hide Enabled, Apply;
    RunJoint(states, events, n);
    var s, l := states[n].bus, states[n].link.value;
    var port, pipe := s.ports[l.port], l.pipe;
    hide A.Inv, Inv, View, Views;
    PortWay(s, l.port);
    PipeWay(pipe);
    PushedAllIff(port.tries);
  }

  lemma PortWay(s: B.State, p: nat)
    requires Inv(s) && Views(s) && p < |s.ports| && s.headers == map[]
    requires s.ports[p].filters == [] && s.ports[p].policy == DropNewest
    ensures var port := s.ports[p];
      && port.since <= |s.log| && Tried(port.tries) == s.log[port.since..]
      && (forall i :: 0 <= i < |port.tries| ==> port.tries[i].result == C.Ok || port.tries[i].result == C.Full)
      && C.ReceivedItems(port.chan.removed) + port.chan.buf == Pushed(port.tries)
  {
    hide ChannelInv, OfferInv;
    assert PortInv(s, p) && ViewOf(s.log, s.headers, p, s.ports[p]);
    NothingEvicted(s.ports[p], s.closed);
    FilteredAll(s.log[s.ports[p].since..]);
  }

  lemma PipeWay(pipe: A.Pipe)
    requires A.Inv(pipe)
    ensures pipe.taken == C.ReceivedItems(pipe.inner.removed)
    ensures Tried(pipe.tries) + InHand(pipe) == A.Messages(pipe.taken)
    ensures pipe.policy == Block ==>
      C.Items(pipe.outer.removed) + pipe.outer.buf + InHand(pipe) == A.Messages(pipe.taken)
  {
    if pipe.policy == Block {
      A.BlockPushesAll(pipe.tries, pipe.outer.capacity);
    }
  }

  // ---- A frame that never gets through ----

  const SAMPLE: Frame := Frame(0, [1], ChecksumOf(ProtectId(0), [1], Classic), Classic)

  /** The master's thread. */
  const MASTER: C.Tid := 1

  /** k frames have been exchanged and nobody has received any. */
  ghost predicate Filled(s: Joint, k: nat) {
    && s.link.Some? && s.link.value.port == 0 && s.link.value.pipe.policy == Block && s.link.value.pipe.taken == []
    && s.bus.responses == map[0 := B.Entry([1], Classic)] && !s.bus.closed
    && s.bus.headers == map[] && s.bus.due == map[] && |s.bus.log| == k
    && |s.bus.ports| == 1 && UntouchedPort(s.bus.ports[0])
  }

  ghost predicate UntouchedPort(port: B.Port) {
    && port.filters == [] && port.policy == DropNewest && port.since == 0
    && !port.chan.closed && port.chan.waiters == map[] && port.chan.capacity == DEFAULT_DEPTH
  }

  lemma Extend(states: seq<Joint>, events: seq<Event>, e: Event) returns (states': seq<Joint>, events': seq<Event>)
    requires IsRun(states, events) && Enabled(states[|events|], e)
    requires forall i :: 0 <= i < |states| ==> OneMaster(states[i].bus)
    requires OneMaster(Apply(states[|events|], e).bus)
    ensures IsRun(states', events') && states'[|events'|] == Apply(states[|events|], e)
    ensures forall i :: 0 <= i < |states'| ==> OneMaster(states'[i].bus)
  {
    hide Enabled, Apply, OneMaster;
    states', events' := states + [Apply(states[|events|], e)], events + [e];
  }

  /** The state inside a round: the header stands at subscriber `next`. */
  ghost predicate InRound(s: Joint, k: nat, next: nat, pending: Option<Count>, due: Option<B.Due>) {
    && s.link.Some? && s.link.value.port == 0 && s.link.value.pipe.policy == Block && s.link.value.pipe.taken == []
    && s.bus.responses == map[0 := B.Entry([1], Classic)] && !s.bus.closed
    && s.bus.headers == map[MASTER := B.Header(SAMPLE, next, pending)]
    && s.bus.due == (match due case None => map[] case Some(d) => map[MASTER := d])
    && |s.bus.log| == k + 1
    && |s.bus.ports| == 1 && UntouchedPort(s.bus.ports[0])
  }

  lemma RoundBegins(s: Joint, k: nat)
    requires Filled(s, k)
    ensures Enabled(s, OnBus(B.BeginHeader(MASTER, 0)))
    ensures InRound(Apply(s, OnBus(B.BeginHeader(MASTER, 0))), k, 0, None, Some(B.Write))
  {
    hide ChecksumOf, ProtectId;
  }

  lemma RoundAccounts(s: Joint, k: nat, next: nat, due: B.Due)
    requires InRound(s, k, next, None, Some(due))
    ensures Enabled(s, OnBus(B.Account(MASTER)))
    ensures InRound(Apply(s, OnBus(B.Account(MASTER))), k, next, None, if due == B.Write then Some(B.WrittenBytes) else None)
  {
    hide ChecksumOf, ProtectId;
  }

  lemma RoundOffers(s: Joint, k: nat)
    requires InRound(s, k, 0, None, None)
    ensures Enabled(s, OnBus(B.Offer(MASTER, None)))
    ensures var s' := Apply(s, OnBus(B.Offer(MASTER, None)));
      InRound(s', k, 0, Some(Delivered), None) || InRound(s', k, 0, Some(Dropped), None)
  {
    hide ChecksumOf, ProtectId;
  }

  lemma RoundIncrements(s: Joint, k: nat, count: Count)
    requires InRound(s, k, 0, Some(count), None) && count != Nothing
    ensures Enabled(s, OnBus(B.Increment(MASTER)))
    ensures InRound(Apply(s, OnBus(B.Increment(MASTER))), k, 1, None, if count == Delivered then Some(B.DeliveredBytes) else None)
  {
    hide ChecksumOf, ProtectId;
  }

  lemma RoundEnds(s: Joint, k: nat)
    requires InRound(s, k, 1, None, None)
    ensures Enabled(s, OnBus(B.EndHeader(MASTER)))
    ensures Filled(Apply(s, OnBus(B.EndHeader(MASTER))), k + 1)
  {
    hide ChecksumOf, ProtectId;
  }

  lemma InRoundOneMaster(s: Joint, k: nat, next: nat, pending: Option<Count>, due: Option<B.Due>)
    ensures InRound(s, k, next, pending, due) || Filled(s, k) ==> OneMaster(s.bus)
  {
  }

  lemma OneRound(states: seq<Joint>, events: seq<Event>, k: nat) returns (states': seq<Joint>, events': seq<Event>)
    requires IsRun(states, events) && Filled(states[|events|], k)
    requires forall i :: 0 <= i < |states| ==> OneMaster(states[i].bus)
    ensures IsRun(states', events') && Filled(states'[|events'|], k + 1)
    ensures forall i :: 0 <= i < |states'| ==> OneMaster(states'[i].bus)
  {
    hide Enabled, Apply, InRound, Filled, OneMaster;
    forall s: Joint, k, next, pending, due
      ensures InRound(s, k, next, pending, due) || Filled(s, k) ==> OneMaster(s.bus)
    {
      InRoundOneMaster(s, k, next, pending, due);
    }
    RoundBegins(states[|events|], k);
    states', events' := Extend(states, events, OnBus(B.BeginHeader(MASTER, 0)));
    RoundAccounts(states'[|events'|], k, 0, B.Write);
    states', events' := Extend(states', events', OnBus(B.Account(MASTER)));
    RoundAccounts(states'[|events'|], k, 0, B.WrittenBytes);
    states', events' := Extend(states', events', OnBus(B.Account(MASTER)));
    RoundOffers(states'[|events'|], k);
    states', events' := Extend(states', events', OnBus(B.Offer(MASTER, None)));
    var count := if InRound(states'[|events'|], k, 0, Some(Delivered), None) then Delivered else Dropped;
    RoundIncrements(states'[|events'|], k, count);
    states', events' := Extend(states', events', OnBus(B.Increment(MASTER)));
    if count == Delivered {
      RoundAccounts(states'[|events'|], k, 1, B.DeliveredBytes);
      states', events' := Extend(states', events', OnBus(B.Account(MASTER)));
    }
    RoundEnds(states'[|events'|], k);
    InRoundOneMaster(Apply(states'[|events'|], OnBus(B.EndHeader(MASTER))), k + 1, 0, None, None);
    states', events' := Extend(states', events', OnBus(B.EndHeader(MASTER)));
  }

  /** A response is published and the adapter subscribes with Block. */
  lemma FirstSteps() returns (states: seq<Joint>, events: seq<Event>)
    ensures IsRun(states, events) && Filled(states[|events|], 0)
    ensures forall i :: 0 <= i < |states| ==> OneMaster(states[i].bus)
  {
    hide ChecksumOf, ProtectId;
    var s0 := Joint(B.INITIAL, None);
    var publish := OnBus(B.Publish(0, [1], Classic));
    assert Enabled(s0, publish);
    var s1 := Apply(s0, publish);
    assert Enabled(s1, Attach(Block, 0));
    states, events := [s0, s1, Apply(s1, Attach(Block, 0))], [publish, Attach(Block, 0)];
  }

  lemma {:induction false} FilledRun(k: nat) returns (states: seq<Joint>, events: seq<Event>)
    ensures IsRun(states, events) && Filled(states[|events|], k)
    ensures forall i :: 0 <= i < |states| ==> OneMaster(states[i].bus)
  {
    hide IsRun, Filled, OneMaster;
    if k == 0 {
      states, events := FirstSteps();
    } else {
      states, events := FilledRun(k - 1);
      states, events := OneRound(states, events, k - 1);
    }
  }

  /** Even under Block frames can vanish without a trace: there is a run in which the adapter's port has
      refused one, while the messages are numbered without a gap. */
  lemma BlockCanMissFrames()
    ensures exists states: seq<Joint>, events: seq<Event> ::
      && IsRun(states, events) && states[|events|].link.Some? && states[|events|].link.value.pipe.policy == Block
      && states[|events|].link.value.port < |states[|events|].bus.ports|
      && exists i :: 0 <= i < |states[|events|].bus.ports[states[|events|].link.value.port].tries|
                     && states[|events|].bus.ports[states[|events|].link.value.port].tries[i].result == C.Full
  {
    var states, events := FilledRun(DEFAULT_DEPTH + 1);
    hide IsRun, OneMaster, Inv, Views;
    RunJoint(states, events, |events|);
    WholeWay(states, events, |events|);
    TooMany(states[|events|]);
  }

  /** More frames than the port has room for. */
  lemma TooMany(s: Joint)
    requires Filled(s, DEFAULT_DEPTH + 1) && JointInv(s)
    ensures s.link.value.pipe.taken + s.bus.ports[0].chan.buf != s.bus.log[0..]
  {
    hide A.Inv;
    assert PortInv(s.bus, 0);
    assert |s.bus.ports[0].chan.buf| <= DEFAULT_DEPTH;
  }
}
