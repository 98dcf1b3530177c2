/** The bus's other counters in every run: exchanges, errors and bytes. */
module BusCounters {
  import opened Wrappers
  import opened Lin
  import opened Bus
  import opened Delivery
  import opened BusRuns
  import C = Channel

  // ---- Errors ----

  /** The calls that return an error. */
  predicate Fails(s: State, e: Event) {
    match e
    case Publish(id, data, ct) => DoPublish(s.responses, s.closed, id, data, ct).Refused?
    case Subscribe(_, _, _) => s.closed
    case BeginHeader(_, id) => Exchange(s.responses, s.closed, id).Failed?
    case _ => false
  }

  function Failures(states: seq<State>, events: seq<Event>, n: nat): nat
    requires n <= |events| <= |states|
  {
    if n == 0 then 0 else Failures(states, events, n - 1) + if Fails(states[n - 1], events[n - 1]) then 1 else 0
  }

  lemma StepCountsErrors(s: State, e: Event)
    requires Enabled(s, e)
    ensures Apply(s, e).errors == s.errors + if Fails(s, e) then 1 else 0
  {
    hide OfferTo, CloseAll, HeadersAfterOffer;
  }

  /** The error counter is the number of failed calls. */
  lemma {:induction false} ErrorsCounted(states: seq<State>, events: seq<Event>, n: nat)
    requires IsRun(states, events) && n <= |events|
    ensures states[n].errors == Failures(states, events, n)
  {
    hide Enabled, Apply, Fails;
    if n > 0 {
      ErrorsCounted(states, events, n - 1);
      StepCountsErrors(states[n - 1], events[n - 1]);
    }
  }

  // ---- Frames in hand ----

  /** The bytes of the frames that these threads have in hand. */
  ghost function SizesOf(headers: map<C.Tid, Header>, threads: set<C.Tid>): nat
    requires threads <= headers.Keys
  {
    if threads == {} then 0
    else var t :| t in threads; |headers[t].frame.data| + SizesOf(headers, threads - {t})
  }

  lemma {:induction false} SizesWithout(headers: map<C.Tid, Header>, threads: set<C.Tid>, t: C.Tid)
    requires threads <= headers.Keys && t in threads
    ensures SizesOf(headers, threads) == |headers[t].frame.data| + SizesOf(headers, threads - {t})
  {
    var u :| u in threads && SizesOf(headers, threads) == |headers[u].frame.data| + SizesOf(headers, threads - {u});
    if u != t {
      SizesWithout(headers, threads - {u}, t);
      SizesWithout(headers, threads - {t}, u);
      assert threads - {u} - {t} == threads - {t} - {u};
    }
  }

  lemma {:induction false} SizesSame(headers: map<C.Tid, Header>, headers': map<C.Tid, Header>, threads: set<C.Tid>)
    requires threads <= headers.Keys && threads <= headers'.Keys
    requires forall t :: t in threads ==> headers'[t].frame == headers[t].frame
    ensures SizesOf(headers', threads) == SizesOf(headers, threads)
  {
    if threads != {} {
      var t :| t in threads;
      SizesWithout(headers, threads, t);
      SizesWithout(headers', threads, t);
      SizesSame(headers, headers', threads - {t});
    }
  }

  /** The threads with one of these increments to make. */
  function Owing(s: State, kinds: set<Due>): set<C.Tid> {
    set t | t in s.headers && t in s.due && s.due[t] in kinds
  }

  /** Apart from t, the headers have the same frames and the same increments to make. */
  ghost predicate OnlyMoves(s: State, s': State, t: C.Tid) {
    forall u :: u != t ==>
      && (u in s'.headers <==> u in s.headers)
      && (u in s'.due <==> u in s.due)
      && (u in s.headers ==> s'.headers[u].frame == s.headers[u].frame && s'.headers[u].pending == s.headers[u].pending)
      && (u in s.due ==> s'.due[u] == s.due[u])
  }

  function SizeOf(headers: map<C.Tid, Header>, threads: set<C.Tid>, t: C.Tid): nat {
    if t in threads && t in headers then |headers[t].frame.data| else 0
  }

  lemma SizesLess(headers: map<C.Tid, Header>, a: set<C.Tid>, t: C.Tid)
    requires a <= headers.Keys
    ensures SizesOf(headers, a) == SizesOf(headers, a - {t}) + SizeOf(headers, a, t)
  {
    if t in a {
      SizesWithout(headers, a, t);
    } else {
      assert a - {t} == a;
    }
  }

  lemma SizesMoved(headers: map<C.Tid, Header>, headers': map<C.Tid, Header>, a: set<C.Tid>, a': set<C.Tid>, t: C.Tid)
    requires a <= headers.Keys && a' <= headers'.Keys && a - {t} == a' - {t}
    requires forall u :: u in a - {t} ==> headers'[u].frame == headers[u].frame
    ensures SizesOf(headers', a') - SizeOf(headers', a', t) == SizesOf(headers, a) - SizeOf(headers, a, t)
  {
    hide SizesOf, SizeOf;
    SizesSame(headers, headers', a - {t});
    SizesLess(headers, a, t);
    SizesLess(headers', a', t);
  }

  lemma OthersOwe(s: State, s': State, t: C.Tid, kinds: set<Due>)
    requires OnlyMoves(s, s', t)
    ensures Owing(s, kinds) <= s.headers.Keys && Owing(s', kinds) <= s'.headers.Keys
    ensures Owing(s, kinds) - {t} == Owing(s', kinds) - {t}
    ensures forall u :: u in Owing(s, kinds) - {t} ==> s'.headers[u].frame == s.headers[u].frame
  {
  }

  lemma OwingMoved(s: State, s': State, t: C.Tid, kinds: set<Due>)
    requires OnlyMoves(s, s', t)
    ensures SizesOf(s'.headers, Owing(s', kinds)) - SizeOf(s'.headers, Owing(s', kinds), t) ==
            SizesOf(s.headers, Owing(s, kinds)) - SizeOf(s.headers, Owing(s, kinds), t)
    ensures |Owing(s', kinds)| - (if t in Owing(s', kinds) then 1 else 0) ==
            |Owing(s, kinds)| - (if t in Owing(s, kinds) then 1 else 0)
  {
    hide SizesOf, SizeOf, Owing, OnlyMoves;
    OthersOwe(s, s', t, kinds);
    SizesMoved(s.headers, s'.headers, Owing(s, kinds), Owing(s', kinds), t);
    Without(Owing(s, kinds), t);
    Without(Owing(s', kinds), t);
  }

  lemma InFlightMoved(s: State, s': State, t: C.Tid)
    requires OnlyMoves(s, s', t)
    ensures var a, a' := InFlight(s.headers, Delivered), InFlight(s'.headers, Delivered);
            SizesOf(s'.headers, a') - SizeOf(s'.headers, a', t) == SizesOf(s.headers, a) - SizeOf(s.headers, a, t)
  {
    hide SizesOf, SizeOf;
    SizesMoved(s.headers, s'.headers, InFlight(s.headers, Delivered), InFlight(s'.headers, Delivered), t);
  }

  // ---- Exchanges ----

  function BytesIn(frames: seq<Frame>): nat {
    if frames == [] then 0 else BytesIn(frames[..|frames| - 1]) + |frames[|frames| - 1].data|
  }

  ghost predicate WritesInv(s: State) {
    && s.writes + |Owing(s, {Write})| == |s.log|
    && s.bytesWritten + SizesOf(s.headers, Owing(s, {Write, WrittenBytes})) == BytesIn(s.log)
  }

  // ---- Bytes delivered ----

  /** The bytes of the attempts that count as deliveries. */
  function TryBytes(tries: seq<Try<Frame>>, policy: Policy): nat {
    if tries == [] then 0
    else
      var k := |tries| - 1;
      TryBytes(tries[..k], policy) + if CountFor(policy, tries[k].result) == Delivered then |tries[k].item.data| else 0
  }

  function PortBytes(ports: seq<Port>): nat {
    if ports == [] then 0
    else PortBytes(ports[..|ports| - 1]) + TryBytes(ports[|ports| - 1].tries, ports[|ports| - 1].policy)
  }

  ghost predicate BytesInv(s: State) {
    s.bytesDelivered + SizesOf(s.headers, InFlight(s.headers, Delivered)) + SizesOf(s.headers, Owing(s, {DeliveredBytes}))
    == PortBytes(s.ports)
  }

  lemma {:induction false} PortBytesUpdate(ports: seq<Port>, k: nat, port: Port)
    requires k < |ports|
    ensures PortBytes(ports[k := port]) ==
            PortBytes(ports) - TryBytes(ports[k].tries, ports[k].policy) + TryBytes(port.tries, port.policy)
  {
    var last := |ports| - 1;
    if k == last {
      assert ports[k := port][..last] == ports[..last];
    } else {
      PortBytesUpdate(ports[..last], k, port);
      assert ports[k := port][..last] == ports[..last][k := port];
    }
  }

  lemma {:induction false} PortBytesSame(ports: seq<Port>, ports': seq<Port>)
    requires |ports| == |ports'|
    requires forall p :: 0 <= p < |ports| ==> ports'[p].tries == ports[p].tries && ports'[p].policy == ports[p].policy
    ensures PortBytes(ports') == PortBytes(ports)
  {
    if ports != [] {
      PortBytesSame(ports[..|ports| - 1], ports'[..|ports| - 1]);
    }
  }

  lemma PortsAdded(ports: seq<Port>, ports': seq<Port>)
    requires ports' == ports || (|ports'| == |ports| + 1 && ports'[..|ports|] == ports && ports'[|ports|].tries == [])
    ensures PortBytes(ports') == PortBytes(ports)
  {
  }

  // ---- Steps ----

  /** Whose step it is. */
  function MoverOf(e: Event): Option<C.Tid> {
    match e
    case BeginHeader(t, _) => Some(t)
    case Skip(t) => Some(t)
    case Offer(t, _) => Some(t)
    case Increment(t) => Some(t)
    case Account(t) => Some(t)
    case EndHeader(t) => Some(t)
    case _ => None
  }

  lemma MoverMoves(s: State, e: Event)
    requires Enabled(s, e)
    ensures MoverOf(e).Some? ==> OnlyMoves(s, Apply(s, e), MoverOf(e).value)
    ensures MoverOf(e).None? ==> Apply(s, e).headers == s.headers && Apply(s, e).due == s.due
  {
    hide C.Enabled, OfferTo, MatchesAny, Exchange;
  }

  /** What a mover's own step does to the counters and to what it owes. */
  lemma MoverCounts(s: State, e: Event)
    requires Inv(s) && Enabled(s, e) && MoverOf(e).Some?
    ensures var s', t := Apply(s, e), MoverOf(e).value;
      var owes, owes' := Owing(s, {Write}), Owing(s', {Write});
      var sizes, sizes' := Owing(s, {Write, WrittenBytes}), Owing(s', {Write, WrittenBytes});
      && (s'.log != s.log ==> s'.log == s.log + [s'.log[|s.log|]])
      && s'.writes + (if t in owes' then 1 else 0) - |s'.log| == s.writes + (if t in owes then 1 else 0) - |s.log|
      && s'.bytesWritten + SizeOf(s'.headers, sizes', t) - BytesIn(s'.log)
         == s.bytesWritten + SizeOf(s.headers, sizes, t) - BytesIn(s.log)
  {
    hide C.Enabled, OfferTo, MatchesAny, PortInv, CounterInv;
    var s' := Apply(s, e);
    if e.BeginHeader? && s'.log != s.log {
      assert s'.log[..|s.log|] == s.log;
    }
  }

  lemma StepKeepsWrites(s: State, e: Event)
    requires Inv(s) && WritesInv(s) && Enabled(s, e)
    ensures WritesInv(Apply(s, e))
  {
    hide Inv, Enabled, OnlyMoves, SizeOf;
    var s' := Apply(s, e);
    MoverMoves(s, e);
    if MoverOf(e).Some? {
      hide Apply, Owing;
      var t := MoverOf(e).value;
      MoverCounts(s, e);
      OwingMoved(s, s', t, {Write});
      OwingMoved(s, s', t, {Write, WrittenBytes});
    } else {
      OthersLeave(s, e);
      assert forall kinds :: Owing(s', kinds) == Owing(s, kinds);
    }
  }

  lemma OthersLeave(s: State, e: Event)
    requires Enabled(s, e) && MoverOf(e).None?
    ensures var s' := Apply(s, e);
      && s'.writes == s.writes && s'.bytesWritten == s.bytesWritten && s'.log == s.log
      && s'.bytesDelivered == s.bytesDelivered && PortBytes(s'.ports) == PortBytes(s.ports)
  {
    hide C.Enabled, C.Apply, PortBytes;
    var s' := Apply(s, e);
    if e.Subscribe? {
      PortsAdded(s.ports, s'.ports);
    } else {
      PortBytesSame(s.ports, s'.ports);
    }
  }

  /** The same for the bytes delivered. */
  lemma MoverBytes(s: State, e: Event)
    requires Inv(s) && Enabled(s, e) && MoverOf(e).Some?
    ensures var s', t := Apply(s, e), MoverOf(e).value;
      s'.bytesDelivered + SizeOf(s'.headers, InFlight(s'.headers, Delivered), t)
      + SizeOf(s'.headers, Owing(s', {DeliveredBytes}), t) - PortBytes(s'.ports)
      == s.bytesDelivered + SizeOf(s.headers, InFlight(s.headers, Delivered), t)
         + SizeOf(s.headers, Owing(s, {DeliveredBytes}), t) - PortBytes(s.ports)
  {
    hide C.Enabled, C.Apply, C.ReplyOf, CallFor, MatchesAny, PortInv, CounterInv, PortBytes, CountFor;
    if e.Offer? {
      var h := s.headers[e.t];
      var port := s.ports[h.next];
      var (port', reply) := OfferTo(port, e.t, h.frame, e.choice);
      PortBytesUpdate(s.ports, h.next, port');
      if reply.Sent? {
        assert port'.tries[..|port.tries|] == port.tries;
      }
    } else if e.EndHeader? {
      assert HeaderInv(s, e.t);
    }
  }

  lemma StepKeepsBytes(s: State, e: Event)
    requires Inv(s) && BytesInv(s) && Enabled(s, e)
    ensures BytesInv(Apply(s, e))
  {
    hide Inv, Enabled, OnlyMoves, SizeOf, PortBytes;
    var s' := Apply(s, e);
    MoverMoves(s, e);
    if MoverOf(e).Some? {
      hide Apply, Owing, InFlight;
      var t := MoverOf(e).value;
      MoverBytes(s, e);
      InFlightMoved(s, s', t);
      OwingMoved(s, s', t, {DeliveredBytes});
    } else {
      OthersLeave(s, e);
      assert Owing(s', {DeliveredBytes}) == Owing(s, {DeliveredBytes});
    }
  }

  // ---- The laws ----

  /** In every reachable state the write counters, with the increments still to be made, are the exchanged
      frames and their bytes. */
  lemma {:induction false} WritesCounted(states: seq<State>, events: seq<Event>, n: nat)
    requires IsRun(states, events) && n <= |events|
    ensures WritesInv(states[n])
    ensures states[n].headers == map[] ==>
      states[n].writes == |states[n].log| && states[n].bytesWritten == BytesIn(states[n].log)
  {
    hide Inv, Enabled, Apply, WritesInv;
    if n == 0 {
      NothingCounted();
    } else {
      WritesCounted(states, events, n - 1);
      RunInv(states, events, n - 1);
      StepKeepsWrites(states[n - 1], events[n - 1]);
    }
    if states[n].headers == map[] {
      QuiescentCounters(states[n]);
    }
  }

  /** In every reachable state bytes_delivered, with the increments still to be made, is the bytes of all
      attempts that counted as deliveries.  Where a frame displaced an older one, the older one's bytes stay
      counted and its own are not. */
  lemma {:induction false} BytesDelivered(states: seq<State>, events: seq<Event>, n: nat)
    requires IsRun(states, events) && n <= |events|
    ensures BytesInv(states[n])
    ensures states[n].headers == map[] ==> states[n].bytesDelivered == PortBytes(states[n].ports)
  {
    hide Inv, Enabled, Apply, PortBytes, BytesInv;
    if n == 0 {
      NothingCounted();
    } else {
      BytesDelivered(states, events, n - 1);
      RunInv(states, events, n - 1);
      StepKeepsBytes(states[n - 1], events[n - 1]);
    }
    if states[n].headers == map[] {
      QuiescentCounters(states[n]);
    }
  }

  lemma QuiescentCounters(s: State)
    requires s.headers == map[]
    ensures WritesInv(s) <==> s.writes == |s.log| && s.bytesWritten == BytesIn(s.log)
    ensures BytesInv(s) <==> s.bytesDelivered == PortBytes(s.ports)
  {
    hide SizesOf, BytesIn, PortBytes;
    NothingInHand(s);
  }

  lemma NothingCounted()
    ensures WritesInv(INITIAL) && BytesInv(INITIAL)
  {
    hide WritesInv, BytesInv;
    QuiescentCounters(INITIAL);
  }

  lemma NothingInHand(s: State)
    requires s.headers == map[]
    ensures InFlight(s.headers, Delivered) == {} && SizesOf(s.headers, {}) == 0
    ensures forall kinds :: Owing(s, kinds) == {}
  {
  }
}
