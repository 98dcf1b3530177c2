/** The RELAY adapter of src/lin.cpp: sending through the bus, and the thread that forwards frames from the
    bus's channel to a channel of messages. */
module Adapter {
  import opened Wrappers
  import opened Bytes
  import opened Lin
  import opened Checksum
  import opened Relay
  import opened Delivery
  import B = Bus
  import C = Channel

  // ---- send ----

  datatype SendError = PayloadTooLarge | BusError(error: B.Error)

  datatype SendResult = Registered(responses: map<byte, B.Entry>) | NotSent(error: SendError)

  /** Classic frames and diagnostic identifiers go through publish_classic, the rest through publish. */
  function Send(responses: map<byte, B.Entry>, closed: bool, m: Message): SendResult {
    match FromMessage(m)
    case None => NotSent(PayloadTooLarge)
    case Some(f) =>
      var ct := if f.checksumType == Classic || IsDiagnostic(f.id) then Classic else Enhanced;
      match B.DoPublish(responses, closed, f.id, f.data, ct)
      case Published(after) => Registered(after)
      case Refused(e) => NotSent(BusError(e))
  }

  /** What send reports: too large a payload for every message that is no frame, otherwise what publish says. */
  lemma SendOutcome(responses: map<byte, B.Entry>, closed: bool, m: Message)
    ensures var r := Send(responses, closed, m);
      && (r == NotSent(PayloadTooLarge) <==> FromMessage(m).None?)
      && (r == NotSent(BusError(B.BusClosed)) <==> FromMessage(m).Some? && closed)
      && (r.Registered? <==> FromMessage(m).Some? && !closed)
  {
  }

  /** The checks of validate_frame. */
  predicate ValidFrame(f: Frame) {
    && f.id <= MAX_ID
    && 0 < |f.data| <= MAX_DATA_LEN
    && (IsDiagnostic(f.id) ==> f.checksumType == Classic)
  }

  /** validate_frame, with its numbers. */
  lemma ValidFrameIff(f: Frame)
    ensures ValidFrame(f) <==>
      f.id <= 63 && 1 <= |f.data| <= 8 && (f.checksumType == Classic || (f.id != 0x3C && f.id != 0x3D))
  {
  }

  /** Exactly these frames come back unchanged from the next header for their identifier; the bus, unlike
      validate_frame, does not mind more than eight data bytes. */
  predicate SurvivesBridge(f: Frame) {
    && f.id <= MAX_ID
    && f.data != []
    && (IsDiagnostic(f.id) ==> f.checksumType == Classic)
    && VerifyChecksum(ProtectId(f.id), f.data, f.checksum, f.checksumType)
  }

  lemma BridgeIdentityIff(responses: map<byte, B.Entry>, f: Frame)
    ensures var sent := Send(responses, false, ToMessage(f));
            (sent.Registered? && B.Exchange(sent.responses, false, f.id) == B.Exchanged(f)) <==> SurvivesBridge(f)
  {
    hide ChecksumOf, ProtectId, ToMessage, FromMessage;
    BridgeRoundTrip(f);
  }

  /** Every valid frame with the right checksum is bridged unchanged. */
  lemma ValidFramesSurvive(responses: map<byte, B.Entry>, f: Frame)
    requires ValidFrame(f) && VerifyChecksum(ProtectId(f.id), f.data, f.checksum, f.checksumType)
    ensures var sent := Send(responses, false, ToMessage(f));
            sent.Registered? && B.Exchange(sent.responses, false, f.id) == B.Exchanged(f)
  {
    hide Send, B.Exchange;
    BridgeIdentityIff(responses, f);
  }

  // ---- subscribe: the forwarding thread ----

  /** Receiving from the bus, offering a message, finished receiving, or gone. */
  datatype Forwarder = Receiving | Offering(message: Message) | Ending | Gone

  const TWO64: nat := 0x1_0000_0000_0000_0000

  /** `taken` lists the frames received from the bus's channel, `tries` the offers to the outer one. */
  datatype Pipe = Pipe(
    inner: C.Chan<Frame>, outer: C.Chan<Message>, policy: Policy, seqNo: nat,
    forwarder: Forwarder, taken: seq<Frame>, tries: seq<Try<Message>>)

  /** The forwarding thread. */
  const FORWARDER: C.Tid := 0

  datatype Event =
    | Inner(bus: C.Event<Frame>)                    // the bus sends or closes
    | Receive(choice: Option<C.Tid>)            // frame_ch->recv()
    | Offer(choice: Option<C.Tid>)              // the switch
    | Finish                                      // out->close()
    | Outer(user: C.Event<Message>)                  // a subscriber's thread, or a spurious wakeup

  predicate IsBusEvent(e: C.Event<Frame>) {
    e.SendPass? || e.TrySend? || e.SendDropOldest? || e.Close? || e.SpuriousWakeup?
  }

  /** Nobody else holds the inner channel's receiving end or closes the outer channel. */
  predicate Enabled(s: Pipe, e: Event) {
    match e
    case Inner(ce) => IsBusEvent(ce) && C.Enabled(s.inner, ce) && (ce.SendPass? ==> ce.t != FORWARDER)
    case Receive(choice) => s.forwarder == Receiving && C.Enabled(s.inner, C.RecvPass(FORWARDER, choice))
    case Offer(choice) =>
      s.forwarder.Offering? && C.Enabled(s.outer, CallFor(s.policy, FORWARDER, s.forwarder.message, choice))
    case Finish => s.forwarder == Ending && C.Enabled(s.outer, C.Event.Close)
    case Outer(ce) => IsConsumerEvent(ce) && C.Enabled(s.outer, ce) && (ce.RecvPass? ==> ce.t != FORWARDER)
  }

  /** The message for the frame received n-th, counting from 1. */
  function MessageFor(f: Frame, n: nat): Message {
    ToMessage(f).(seqNo := n % TWO64)
  }

  function Apply(s: Pipe, e: Event): Pipe
    requires Enabled(s, e)
  {
    match e
    case Inner(ce) => s.(inner := C.Apply(s.inner, ce))
    case Receive(choice) =>
      var call := C.RecvPass(FORWARDER, choice);
      var received := s.(inner := C.Apply(s.inner, call));
      (match C.ReplyOf(s.inner, call)
       case Got(Some(f)) =>
         var n := (s.seqNo + 1) % TWO64;
         received.(seqNo := n, taken := s.taken + [f], forwarder := Offering(ToMessage(f).(seqNo := n)))
       case Got(None) => received.(forwarder := Ending)
       case _ => received)
    case Offer(choice) =>
      var (outer, tries, reply) := OfferItem(s.policy, s.outer, s.tries, FORWARDER, s.forwarder.message, choice);
      s.(outer := outer, tries := tries, forwarder := if reply.Sent? then Receiving else s.forwarder)
    case Finish => s.(outer := C.Apply(s.outer, C.Event.Close), forwarder := Gone)
    case Outer(ce) => s.(outer := C.Apply(s.outer, ce))
  }

  function Start(depth: nat, policy: Policy, outerDepth: int): Pipe {
    Pipe(C.Create(depth), C.Create(EffectiveDepth(outerDepth)), policy, 0, Receiving, [], [])
  }

  /** A subscription begins with empty open channels, the outer one of the requested depth or of 64 if that is not
      positive, and numbers from one. */
  lemma StartOutcome(depth: nat, policy: Policy, outerDepth: int)
    ensures var s := Start(depth, policy, outerDepth);
      && s.outer.capacity == (if outerDepth > 0 then outerDepth else 64) && s.policy == policy
      && s.outer.buf == [] && s.inner.buf == [] && !s.outer.closed && !s.inner.closed
      && s.seqNo == 0 && s.taken == [] && s.tries == [] && s.forwarder == Receiving
  {
  }

  ghost predicate IsRun(depth: nat, policy: Policy, outerDepth: int, states: seq<Pipe>, events: seq<Event>) {
    && |states| == |events| + 1
    && states[0] == Start(depth, policy, outerDepth)
    && forall i :: 0 <= i < |events| ==>
         Enabled(states[i], events[i]) && states[i + 1] == Apply(states[i], events[i])
  }

  // ---- Invariant ----

  function Messages(taken: seq<Frame>): (m: seq<Message>)
    ensures |m| == |taken|
  {
    seq(|taken|, i requires 0 <= i < |taken| => MessageFor(taken[i], i + 1))
  }

  ghost predicate Inv(s: Pipe) {
    && C.Ledger(s.inner) && C.WakeupInv(s.inner)
    && s.taken == C.ReceivedItems(s.inner.removed)
    && s.seqNo == |s.taken| % TWO64
    && OutletInv(s.policy, s.outer, s.tries, s.forwarder == Gone)
    && Tried(s.tries) + (if s.forwarder.Offering? then [s.forwarder.message] else []) == Messages(s.taken)
    && (s.forwarder == Ending || s.forwarder == Gone ==> s.inner.closed && s.inner.buf == [])
  }

  lemma InnerKeeps(c: C.Chan<Frame>, e: C.Event<Frame>)
    requires C.Ledger(c) && C.Enabled(c, e) && IsBusEvent(e)
    ensures C.ReceivedItems(C.Apply(c, e).removed) == C.ReceivedItems(c.removed)
    ensures c.closed ==> C.Apply(c, e).closed && C.Apply(c, e).buf == c.buf
  {
    hide C.CanNotify, C.Notify;
    var c' := C.Apply(c, e);
    if c'.removed != c.removed {
      assert c'.removed[..|c.removed|] == c.removed;
    }
  }

  lemma ReceiveTakes(c: C.Chan<Frame>, choice: Option<C.Tid>)
    requires C.Ledger(c) && C.Enabled(c, C.RecvPass(FORWARDER, choice))
    ensures var c', r := C.Apply(c, C.RecvPass(FORWARDER, choice)), C.ReplyOf(c, C.RecvPass(FORWARDER, choice));
      && (r.Got? || r == C.Waits)
      && (r.Got? && r.item.Some? ==> C.ReceivedItems(c'.removed) == C.ReceivedItems(c.removed) + [r.item.value])
      && (r == C.Waits || (r.Got? && r.item.None?) ==> c'.removed == c.removed && c'.buf == [])
      && (r.Got? && r.item.None? ==> c.closed && c'.closed)
  {
    hide C.CanNotify, C.Notify;
    var c' := C.Apply(c, C.RecvPass(FORWARDER, choice));
    if c'.removed != c.removed {
      assert c'.removed[..|c.removed|] == c.removed;
    }
  }

  lemma ReceiveKeepsInv(s: Pipe, choice: Option<C.Tid>)
    requires Inv(s) && Enabled(s, Receive(choice))
    ensures Inv(Apply(s, Receive(choice)))
  {
    hide C.Enabled, C.Apply, C.ReplyOf, OutletInv, ToMessage, C.WakeupInv, C.Ledger, C.ReceivedItems, Messages, Tried;
    var s' := Apply(s, Receive(choice));
    NextNumber(|s.taken|);
    C.StepKeepsLedger(s.inner, C.RecvPass(FORWARDER, choice));
    C.StepKeepsWakeups(s.inner, C.RecvPass(FORWARDER, choice));
    ReceiveTakes(s.inner, choice);
    if s'.forwarder.Offering? {
      MessagesSnoc(s.taken, s'.taken[|s.taken|]);
    }
  }

  lemma MessagesSnoc(taken: seq<Frame>, f: Frame)
    ensures Messages(taken + [f]) == Messages(taken) + [MessageFor(f, |taken| + 1)]
  {
    hide MessageFor;
  }

  lemma NextNumber(n: nat)
    ensures (n % TWO64 + 1) % TWO64 == (n + 1) % TWO64
  {
  }

  lemma OfferKeepsInv(s: Pipe, choice: Option<C.Tid>)
    requires Inv(s) && Enabled(s, Offer(choice))
    ensures Inv(Apply(s, Offer(choice)))
  {
    hide C.Enabled, OutletInv, CallFor, C.Apply, C.ReplyOf, C.WakeupInv;
    var s' := Apply(s, Offer(choice));
    OfferKeepsOutlet(s.policy, s.outer, s.tries, FORWARDER, s.forwarder.message, choice);
    if s'.tries != s.tries {
      assert Tried(s'.tries) == Tried(s.tries) + [s.forwarder.message];
    }
  }

  lemma StepKeepsInv(s: Pipe, e: Event)
    requires Inv(s) && Enabled(s, e)
    ensures Inv(Apply(s, e))
  {
    match e {
      case Inner(ce) =>
        hide C.Enabled, C.Apply, OutletInv, C.WakeupInv;
        C.StepKeepsLedger(s.inner, ce);
        C.StepKeepsWakeups(s.inner, ce);
        InnerKeeps(s.inner, ce);
      case Receive(choice) => ReceiveKeepsInv(s, choice);
      case Offer(choice) => OfferKeepsInv(s, choice);
      case Finish =>
        hide OutletInv;
        CloseKeepsOutlet(s.policy, s.outer, s.tries, false);
      case Outer(ce) =>
        hide C.Enabled, C.Apply, OutletInv;
        ConsumeKeepsOutlet(s.policy, s.outer, s.tries, ce, s.forwarder == Gone);
    }
  }

  lemma {:induction false} RunInv(depth: nat, policy: Policy, outerDepth: int, states: seq<Pipe>,
                                  events: seq<Event>, n: nat)
    requires 1 <= depth && IsRun(depth, policy, outerDepth, states, events) && n <= |events|
    ensures Inv(states[n]) && states[n].policy == policy
  {
    hide Inv, Enabled;
    if n == 0 {
      StartInv(depth, policy, outerDepth);
    } else {
      RunInv(depth, policy, outerDepth, states, events, n - 1);
      StepKeepsInv(states[n - 1], events[n - 1]);
    }
  }

  lemma StartInv(depth: nat, policy: Policy, outerDepth: int)
    requires 1 <= depth
    ensures Inv(Start(depth, policy, outerDepth))
  {
  }

  // ---- What the subscriber sees ----

  /** Offers refused because the outer channel was full. */
  function Refused(tries: seq<Try<Message>>): nat {
    if tries == [] then 0
    else Refused(tries[..|tries| - 1]) + if tries[|tries| - 1].result == C.Full then 1 else 0
  }

  ghost predicate OnlyOpenResults(tries: seq<Try<Message>>) {
    forall i :: 0 <= i < |tries| ==> tries[i].result != C.Closed
  }

  /** The j-th pushed message was the offer with j pushes and all its refusals before it. */
  lemma {:induction false} PushedPosition(tries: seq<Try<Message>>, j: nat) returns (i: nat)
    requires OnlyOpenResults(tries) && j < |Pushed(tries)|
    ensures j <= i < |tries| && Pushed(tries)[j] == tries[i].item
    ensures i == j + Refused(tries[..i])
  {
    var k := |tries| - 1;
    PushedPlusRefused(tries[..k]);
    if j < |Pushed(tries[..k])| {
      i := PushedPosition(tries[..k], j);
      assert tries[..k][..i] == tries[..i];
    } else {
      i := k;
    }
  }

  lemma {:induction false} PushedPlusRefused(tries: seq<Try<Message>>)
    requires OnlyOpenResults(tries)
    ensures |Pushed(tries)| + Refused(tries) == |tries|
  {
    if tries != [] {
      PushedPlusRefused(tries[..|tries| - 1]);
    }
  }

  lemma {:induction false} FatesAddUp<T>(removed: seq<C.Removal<T>>)
    ensures CountFate(removed, C.Received) + CountFate(removed, C.Dropped) == |removed|
  {
    if removed != [] {
      FatesAddUp(removed[..|removed| - 1]);
    }
  }

  lemma OpenResults(s: Pipe)
    requires Inv(s)
    ensures OnlyOpenResults(s.tries)
  {
    forall i | 0 <= i < |s.tries| ensures s.tries[i].result != C.Closed {
      assert TryInv(s.policy, s.outer.capacity, s.tries[i]);
    }
  }

  /** The message that left the outer channel j-th is the one for the i-th received frame, numbered i+1,
      and i counts what came before it: what was received, evicted and refused. */
  ghost predicate NumberedByDrops(s: Pipe, j: nat, i: nat)
    requires j < |s.outer.removed|
  {
    && i < |s.taken| && i < |s.tries|
    && s.outer.removed[j].item == MessageFor(s.taken[i], i + 1)
    && s.outer.removed[j].item.seqNo == (i + 1) % 0x1_0000_0000_0000_0000
    && s.outer.removed[j].item == ToMessage(s.taken[i]).(seqNo := s.outer.removed[j].item.seqNo)
    && i == CountFate(s.outer.removed[..j], C.Received) + CountFate(s.outer.removed[..j], C.Dropped)
            + Refused(s.tries[..i])
  }

  /** In every run the subscriber gets the bridged frames in order, and the gaps in their numbers are
      exactly the outer drops. */
  lemma GapsAreDrops(depth: nat, policy: Policy, outerDepth: int, states: seq<Pipe>, events: seq<Event>,
                     n: nat, j: nat)
    requires 1 <= depth && IsRun(depth, policy, outerDepth, states, events) && n <= |events|
    requires j < |states[n].outer.removed|
    ensures exists i: nat :: NumberedByDrops(states[n], j, i)
  {
    RunInv(depth, policy, outerDepth, states, events, n);
    var i := RemovedPosition(states[n], j);
  }

  lemma RemovedPosition(s: Pipe, j: nat) returns (i: nat)
    requires Inv(s) && j < |s.outer.removed|
    ensures i <= |s.tries| && i == j + Refused(s.tries[..i]) && NumberedByDrops(s, j, i)
  {
    hide C.WakeupInv, ToMessage;
    OpenResults(s);
    assert s.outer.pushed[j] == s.outer.removed[j].item;
    i := PushedPosition(s.tries, j);
    assert Tried(s.tries)[i] == Messages(s.taken)[i];
    FatesAddUp(s.outer.removed[..j]);
  }

  /** Sequence numbers strictly increase, while fewer than 2^64 frames have been taken. */
  lemma NumbersIncrease(depth: nat, policy: Policy, outerDepth: int, states: seq<Pipe>, events: seq<Event>,
                        n: nat, j: nat, k: nat)
    requires 1 <= depth && IsRun(depth, policy, outerDepth, states, events) && n <= |events|
    requires j < k < |states[n].outer.removed| && |states[n].taken| < TWO64
    ensures states[n].outer.removed[j].item.seqNo < states[n].outer.removed[k].item.seqNo
  {
    RunInv(depth, policy, outerDepth, states, events, n);
    LaterMeansLarger(states[n], j, k);
  }

  lemma LaterMeansLarger(s: Pipe, j: nat, k: nat)
    requires Inv(s) && j < k < |s.outer.removed| && |s.taken| < TWO64
    ensures s.outer.removed[j].item.seqNo < s.outer.removed[k].item.seqNo
  {
    hide Inv, ToMessage, Refused;
    var a := RemovedPosition(s, j);
    var b := RemovedPosition(s, k);
    if b < a {
      RefusedMonotone(s.tries, b, a);
    }
  }

  lemma {:induction false} RefusedMonotone(tries: seq<Try<Message>>, a: nat, b: nat)
    requires a <= b <= |tries|
    ensures Refused(tries[..a]) <= Refused(tries[..b]) <= Refused(tries[..a]) + (b - a)
  {
    if a < b {
      RefusedMonotone(tries, a, b - 1);
      assert tries[..b][..b - 1] == tries[..b - 1];
    }
  }

  /** Every frame taken from the bus is accounted for: received, buffered, dropped or in hand. */
  lemma NothingUnaccounted(depth: nat, policy: Policy, outerDepth: int, states: seq<Pipe>, events: seq<Event>, n: nat)
    requires 1 <= depth && IsRun(depth, policy, outerDepth, states, events) && n <= |events|
    ensures var s := states[n];
            |s.taken| == CountFate(s.outer.removed, C.Received) + |s.outer.buf|
                         + CountFate(s.outer.removed, C.Dropped) + Refused(s.tries)
                         + (if s.forwarder.Offering? then 1 else 0)
  {
    RunInv(depth, policy, outerDepth, states, events, n);
    var s := states[n];
    OpenResults(s);
    PushedPlusRefused(s.tries);
    FatesAddUp(s.outer.removed);
    assert |Messages(s.taken)| == |s.taken|;
  }

  /** Under Block nothing is missing: received and buffered messages are 1, 2, 3, ... without a gap. */
  lemma BlockForwardsAll(depth: nat, outerDepth: int, states: seq<Pipe>, events: seq<Event>, n: nat)
    requires 1 <= depth && IsRun(depth, Block, outerDepth, states, events) && n <= |events|
    ensures var s := states[n];
            && C.Items(s.outer.removed) + s.outer.buf
               + (if s.forwarder.Offering? then [s.forwarder.message] else []) == Messages(s.taken)
            && forall j :: 0 <= j < |s.outer.removed| ==> s.outer.removed[j].fate == C.Received
  {
    RunInv(depth, Block, outerDepth, states, events, n);
    var s := states[n];
    BlockPushesAll(s.tries, s.outer.capacity);
    AllReceived(s.outer.removed);
    FatesAddUp(s.outer.removed);
  }

  lemma {:induction false} BlockPushesAll(tries: seq<Try<Message>>, capacity: nat)
    requires forall i :: 0 <= i < |tries| ==> TryInv(Block, capacity, tries[i])
    ensures Pushed(tries) == Tried(tries) && CountTries(tries, Block, Delivered) == |tries|
  {
    if tries != [] {
      var k := |tries| - 1;
      BlockPushesAll(tries[..k], capacity);
      assert TryInv(Block, capacity, tries[k]);
      assert Tried(tries) == Tried(tries[..k]) + [tries[k].item];
    }
  }

  /** The outer channel closes only after the bus's channel was closed and drained and every frame from it
      was offered. */
  lemma ClosesLast(depth: nat, policy: Policy, outerDepth: int, states: seq<Pipe>, events: seq<Event>, n: nat)
    requires 1 <= depth && IsRun(depth, policy, outerDepth, states, events) && n <= |events|
    requires states[n].outer.closed
    ensures var s := states[n];
            && s.inner.closed && s.inner.buf == [] && s.forwarder == Gone
            && Tried(s.tries) == Messages(s.taken) && s.taken == C.ReceivedItems(s.inner.removed)
  {
    RunInv(depth, policy, outerDepth, states, events, n);
  }
}
