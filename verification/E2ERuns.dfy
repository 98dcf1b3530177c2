/** Whole runs of one sender, an unreliable channel and one receiver. */
module E2ERuns {
  import opened Bytes
  import opened E2E
  import opened E2EDetection

  type Tid = nat

  /** What a protecting thread has fetched from the atomic counter but not yet sent. */
  datatype Job = Job(counter: uint32, payload: seq<byte>)

  /** `log` lists the payloads in the order the counter was incremented for them; `wire` holds every
      frame sent so far, which the channel may lose, repeat or reorder. */
  datatype System = System(
    counter: uint32,
    log: seq<seq<byte>>,
    jobs: map<Tid, Job>,
    wire: set<seq<byte>>,
    receiver: ReceiverState,
    accepted: seq<Job>)

  datatype Event =
    | Fetch(t: Tid, payload: seq<byte>)   // seq_++
    | Send(t: Tid)                        // the rest of protect()
    | Deliver(frame: seq<byte>)           // unwrap()

  const INITIAL: System := System(0, [], map[], {}, FRESH, [])

  /** The channel delivers frames that were sent, or damaged ones that fail the CRC comparison. */
  predicate Enabled(cfg: Config, s: System, e: Event) {
    match e
    case Fetch(t, _) => t !in s.jobs
    case Send(t) => t in s.jobs
    case Deliver(w) => w in s.wire || |w| < HEADER_SIZE || !CrcOk(cfg, w)
  }

  function Apply(cfg: Config, s: System, e: Event): System
    requires Enabled(cfg, s, e)
  {
    match e
    case Fetch(t, p) =>
      s.(counter := Next(s.counter), log := s.log + [p], jobs := s.jobs[t := Job(s.counter, p)])
    case Send(t) =>
      s.(wire := s.wire + {Frame(cfg, s.jobs[t].counter, s.jobs[t].payload)}, jobs := s.jobs - {t})
    case Deliver(w) =>
      var (st, out) := Receive(cfg, s.receiver, w);
      s.(receiver := st,
         accepted := if out.Accepted? then s.accepted + [Job(Counter(w), out.payload)] else s.accepted)
  }

  /** states[i + 1] follows from states[i] by events[i]. */
  ghost predicate IsRun(cfg: Config, states: seq<System>, events: seq<Event>) {
    && |states| == |events| + 1
    && states[0] == INITIAL
    && forall i :: 0 <= i < |events| ==>
         Enabled(cfg, states[i], events[i]) && states[i + 1] == Apply(cfg, states[i], events[i])
  }

  // ---- Invariant ----

  /** The job was fetched i-th. */
  ghost predicate FetchedAs(s: System, j: Job, i: nat) {
    i < |s.log| && j == Job(i % TWO32, s.log[i])
  }

  ghost predicate Fetched(s: System, j: Job) {
    exists i: nat :: FetchedAs(s, j, i)
  }

  ghost predicate OnWire(cfg: Config, s: System, w: seq<byte>) {
    exists j: Job :: Fetched(s, j) && w == Frame(cfg, j.counter, j.payload)
  }

  ghost predicate SenderInv(cfg: Config, s: System) {
    && s.counter == |s.log| % TWO32
    && (forall t :: t in s.jobs ==> Fetched(s, s.jobs[t]))
    && (forall w :: w in s.wire ==> OnWire(cfg, s, w))
  }

  /** The receiver's fields describe the last accepted job, and counters step by one. */
  ghost predicate ReceiverInv(s: System) {
    && (s.receiver.first <==> s.accepted == [])
    && (s.accepted != [] ==> s.receiver.lastSeq == s.accepted[|s.accepted| - 1].counter)
    && (forall i :: 0 <= i < |s.accepted| ==> Fetched(s, s.accepted[i]))
    && (forall i :: 1 <= i < |s.accepted| ==> s.accepted[i].counter == Next(s.accepted[i - 1].counter))
  }

  lemma FetchedGrows(s: System, s': System, j: Job)
    requires Fetched(s, j) && s.log <= s'.log
    ensures Fetched(s', j)
  {
    var i: nat :| FetchedAs(s, j, i);
    assert FetchedAs(s', j, i);
  }

  lemma OnWireGrows(cfg: Config, s: System, s': System, w: seq<byte>)
    requires OnWire(cfg, s, w) && s.log <= s'.log
    ensures OnWire(cfg, s', w)
  {
    var j: Job :| Fetched(s, j) && w == Frame(cfg, j.counter, j.payload);
    FetchedGrows(s, s', j);
  }

  lemma StepKeepsSender(cfg: Config, s: System, e: Event)
    requires SenderInv(cfg, s) && Enabled(cfg, s, e)
    ensures SenderInv(cfg, Apply(cfg, s, e))
  {
    hide Frame, CrcOk, Receive;
    var s' := Apply(cfg, s, e);
    forall t | t in s'.jobs ensures Fetched(s', s'.jobs[t]) {
      if t in s.jobs && s'.jobs[t] == s.jobs[t] {
        FetchedGrows(s, s', s.jobs[t]);
      } else {
        assert FetchedAs(s', s'.jobs[t], |s.log|);
      }
    }
    forall w | w in s'.wire ensures OnWire(cfg, s', w) {
      if w in s.wire {
        OnWireGrows(cfg, s, s', w);
      } else {
        FetchedGrows(s, s', s.jobs[e.t]);
      }
    }
  }

  lemma StepKeepsReceiver(cfg: Config, s: System, e: Event)
    requires SenderInv(cfg, s) && ReceiverInv(s) && Enabled(cfg, s, e)
    ensures ReceiverInv(Apply(cfg, s, e))
  {
    hide Frame, CrcOk, Counter;
    var s' := Apply(cfg, s, e);
    forall i | 0 <= i < |s.accepted| ensures Fetched(s', s.accepted[i]) {
      FetchedGrows(s, s', s.accepted[i]);
    }
    if e.Deliver? && |s'.accepted| > |s.accepted| {
      var j: Job :| Fetched(s, j) && e.frame == Frame(cfg, j.counter, j.payload);
      GenuinePasses(cfg, j.counter, j.payload);
      FetchedGrows(s, s', j);
      assert s'.accepted == s.accepted + [j];
    }
  }

  lemma {:induction false} RunInv(cfg: Config, states: seq<System>, events: seq<Event>, n: nat)
    requires IsRun(cfg, states, events) && n <= |events|
    ensures SenderInv(cfg, states[n]) && ReceiverInv(states[n])
  {
    if n > 0 {
      hide Apply, Enabled, SenderInv, ReceiverInv;
      RunInv(cfg, states, events, n - 1);
      StepKeepsSender(cfg, states[n - 1], events[n - 1]);
      StepKeepsReceiver(cfg, states[n - 1], events[n - 1]);
    }
  }

  // ---- Safety of whole runs ----

  /** accepted is log[first..first + |accepted|], each with its own position as counter. */
  ghost predicate Segment(s: System, first: nat) {
    && first + |s.accepted| <= |s.log|
    && forall i :: 0 <= i < |s.accepted| ==>
         s.accepted[i].counter == first + i && s.accepted[i].payload == s.log[first + i]
  }

  lemma {:induction false} AcceptedPosition(s: System, n: nat)
    requires ReceiverInv(s) && |s.log| < TWO32 && n < |s.accepted|
    ensures s.accepted[n].counter == s.accepted[0].counter + n
    ensures FetchedAs(s, s.accepted[n], s.accepted[n].counter)
  {
    var i: nat :| FetchedAs(s, s.accepted[n], i);
    if n > 0 {
      AcceptedPosition(s, n - 1);
    }
  }

  /** In every run with fewer than 2^32 protected payloads, whatever the channel loses, repeats, reorders
      or damages detectably, the accepted payloads are one contiguous part of the sent ones, in order. */
  lemma AcceptedIsSegment(cfg: Config, states: seq<System>, events: seq<Event>, n: nat)
    requires IsRun(cfg, states, events) && n <= |events|
    requires |states[n].log| < TWO32
    ensures exists first: nat :: Segment(states[n], first)
  {
    hide Apply, Enabled, SenderInv;
    RunInv(cfg, states, events, n);
    var s := states[n];
    var first := if s.accepted == [] then 0 else s.accepted[0].counter;
    forall i | 0 <= i < |s.accepted|
      ensures first + i < |s.log|
      ensures s.accepted[i].counter == first + i && s.accepted[i].payload == s.log[first + i]
    {
      AcceptedPosition(s, i);
    }
    if s.accepted != [] {
      AcceptedPosition(s, |s.accepted| - 1);
    }
    assert Segment(s, first);
  }

  /** A rejected frame changes nothing but the outcome reported to the caller. */
  lemma RejectedChangesNothing(cfg: Config, s: System, w: seq<byte>)
    requires Enabled(cfg, s, Deliver(w))
    ensures Receive(cfg, s.receiver, w).1.Rejected? ==> Apply(cfg, s, Deliver(w)) == s
  {
    hide CrcOk, Counter;
  }

  /** The first n events but for the deliveries that the receiver rejected. */
  function WithoutRejected(cfg: Config, states: seq<System>, events: seq<Event>, n: nat): seq<Event>
    requires n <= |events| <= |states|
  {
    if n == 0 then []
    else
      var rest, e := WithoutRejected(cfg, states, events, n - 1), events[n - 1];
      if e.Deliver? && Receive(cfg, states[n - 1].receiver, e.frame).1.Rejected? then rest else rest + [e]
  }

  /** Rejected deliveries might as well not have happened: without them the same events lead to the same
      state. */
  lemma {:induction false} RejectionsInvisible(cfg: Config, states: seq<System>, events: seq<Event>, n: nat)
    returns (states': seq<System>)
    requires IsRun(cfg, states, events) && n <= |events|
    ensures IsRun(cfg, states', WithoutRejected(cfg, states, events, n))
    ensures states'[|states'| - 1] == states[n]
  {
    hide Apply, Enabled, Receive;
    if n == 0 {
      states' := [INITIAL];
    } else {
      var e := events[n - 1];
      states' := RejectionsInvisible(cfg, states, events, n - 1);
      if e.Deliver? && Receive(cfg, states[n - 1].receiver, e.frame).1.Rejected? {
        RejectedChangesNothing(cfg, states[n - 1], e.frame);
      } else {
        var events': seq<Event>;
        states', events' := Extend(cfg, states', WithoutRejected(cfg, states, events, n - 1), e);
      }
    }
  }

  // ---- In-order delivery ----

  function ReceiveAll(cfg: Config, st: ReceiverState, frames: seq<seq<byte>>): (ReceiverState, seq<Outcome>) {
    if frames == [] then (st, [])
    else
      var (st1, outs) := ReceiveAll(cfg, st, frames[..|frames| - 1]);
      var (st2, out) := Receive(cfg, st1, frames[|frames| - 1]);
      (st2, outs + [out])
  }

  /** The frames of a protector whose counter starts at `start`. */
  function ProtectAll(cfg: Config, start: nat, payloads: seq<seq<byte>>): (frames: seq<seq<byte>>)
    ensures |frames| == |payloads|
  {
    seq(|payloads|, i requires 0 <= i < |payloads| => Frame(cfg, (start + i) % TWO32, payloads[i]))
  }

  /** Delivered in order, every payload is returned, however many there are and wherever the counter
      wraps round. */
  lemma {:induction false} InOrderDelivery(cfg: Config, start: nat, payloads: seq<seq<byte>>)
    ensures var (st, outs) := ReceiveAll(cfg, FRESH, ProtectAll(cfg, start, payloads));
            && |outs| == |payloads|
            && (forall i :: 0 <= i < |payloads| ==> outs[i] == Accepted(payloads[i]))
            && st.first == (payloads == [])
            && (payloads != [] ==> st.lastSeq == (start + |payloads| - 1) % TWO32)
  {
    hide Frame, CrcOk, Counter, Next;
    if payloads != [] {
      var k := |payloads| - 1;
      InOrderDelivery(cfg, start, payloads[..k]);
      assert ProtectAll(cfg, start, payloads)[..k] == ProtectAll(cfg, start, payloads[..k]);
      GenuinePasses(cfg, (start + k) % TWO32, payloads[k]);
      NextModulo(start + k);
    }
  }

  lemma NextModulo(n: nat)
    ensures n > 0 ==> Next((n - 1) % TWO32) == n % TWO32
    ensures Next(n % TWO32) == (n + 1) % TWO32
  {
  }

  // ---- The bound on the number of frames is exact ----

  /** What the system looks like after `log` was sent and received in order. */
  ghost predicate Relayed(cfg: Config, s: System, log: seq<seq<byte>>) {
    && s.log == log && s.counter == |log| % TWO32 && s.jobs == map[]
    && |s.accepted| == |log|
    && (forall i :: 0 <= i < |log| ==> Frame(cfg, i % TWO32, log[i]) in s.wire)
    && (log == [] ==> s.receiver == FRESH)
    && (log != [] ==> s.receiver == ReceiverState(false, (|log| - 1) % TWO32))
  }

  lemma {:induction false} InOrderRun(cfg: Config, log: seq<seq<byte>>)
    returns (states: seq<System>, events: seq<Event>)
    ensures IsRun(cfg, states, events) && Relayed(cfg, states[|events|], log)
  {
    if log == [] {
      states, events := [INITIAL], [];
    } else {
      states, events := InOrderRun(cfg, log[..|log| - 1]);
      states, events := RelayOne(cfg, states, events, log);
    }
  }

  lemma RelayOne(cfg: Config, states: seq<System>, events: seq<Event>, log: seq<seq<byte>>)
    returns (states': seq<System>, events': seq<Event>)
    requires log != [] && IsRun(cfg, states, events)
    requires Relayed(cfg, states[|events|], log[..|log| - 1])
    ensures IsRun(cfg, states', events') && Relayed(cfg, states'[|events'|], log)
  {
    var k := |log| - 1;
    RelayStep(cfg, states[|events|], log);
    hide Apply, Enabled, Relayed;
    states', events' := Extend(cfg, states, events, Fetch(0, log[k]));
    states', events' := Extend(cfg, states', events', Send(0));
    states', events' := Extend(cfg, states', events', Deliver(Frame(cfg, k % TWO32, log[k])));
  }

  lemma RelayStep(cfg: Config, s: System, log: seq<seq<byte>>)
    requires log != [] && Relayed(cfg, s, log[..|log| - 1])
    ensures var k := |log| - 1;
            && Enabled(cfg, s, Fetch(0, log[k]))
            && var s1 := Apply(cfg, s, Fetch(0, log[k]));
            && Enabled(cfg, s1, Send(0))
            && var s2 := Apply(cfg, s1, Send(0));
            && Enabled(cfg, s2, Deliver(Frame(cfg, k % TWO32, log[k])))
            && Relayed(cfg, Apply(cfg, s2, Deliver(Frame(cfg, k % TWO32, log[k]))), log)
  {
    hide Frame, CrcOk, Counter, Next;
    var k := |log| - 1;
    GenuinePasses(cfg, k % TWO32, log[k]);
    NextModulo(k);
    assert log[..k] + [log[k]] == log;
    forall i | 0 <= i < k ensures Frame(cfg, i % TWO32, log[i]) in s.wire {
      assert Frame(cfg, i % TWO32, log[..k][i]) in s.wire;
    }
  }

  lemma Extend(cfg: Config, states: seq<System>, events: seq<Event>, e: Event)
    returns (states': seq<System>, events': seq<Event>)
    requires IsRun(cfg, states, events) && Enabled(cfg, states[|events|], e)
    ensures |states'| == |events'| + 1
    ensures IsRun(cfg, states', events')
    ensures states'[|events'|] == Apply(cfg, states[|events|], e) && events' == events + [e]
  {
    states', events' := states + [Apply(cfg, states[|events|], e)], events + [e];
  }

  /** With 2^32 payloads sent, the counter has come round: there is a run in which the first frame is
      accepted a second time, so the accepted payloads are not a part of the sent ones. */
  lemma ReplayAfterWrap(cfg: Config, log: seq<seq<byte>>)
    requires |log| == TWO32
    ensures exists states: seq<System>, events: seq<Event> ::
      && IsRun(cfg, states, events)
      && states[|events|].log == log
      && |states[|events|].accepted| == |log| + 1
      && forall first: nat :: !Segment(states[|events|], first)
  {
    hide Frame, CrcOk, Counter;
    var states, events := InOrderRun(cfg, log);
    GenuinePasses(cfg, 0, log[0]);
    assert Frame(cfg, 0 % TWO32, log[0]) in states[|events|].wire;
    states, events := Extend(cfg, states, events, Deliver(Frame(cfg, 0, log[0])));
  }
}
