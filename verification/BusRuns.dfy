/** What every run of the bus keeps: counters, subscriber views, shutdown and progress. */
module BusRuns {
  import opened Wrappers
  import opened Bytes
  import opened Lin
  import opened Bus
  import opened Delivery
  import C = Channel

  // ---- Vocabulary ----

  /** No filter at all, or one for every frame. */
  ghost predicate AsksForAll(filters: seq<Filter>) {
    filters == [] || exists i :: 0 <= i < |filters| && filters[i].all
  }

  function IdsOf(filters: seq<Filter>): set<byte> {
    set i | 0 <= i < |filters| :: filters[i].id
  }

  lemma AskedIff(filters: seq<Filter>, f: Frame)
    ensures MatchesAny(filters, f) <==> AsksForAll(filters) || f.id in IdsOf(filters)
  {
    if MatchesAny(filters, f) && filters != [] {
      var i :| 0 <= i < |filters| && Matches(filters[i], f);
    }
    if i :| 0 <= i < |filters| && (filters[i].all || filters[i].id == f.id) {
      assert Matches(filters[i], f);
    }
  }

  /** The frames of a log that a subscriber asked for. */
  function Filtered(log: seq<Frame>, filters: seq<Filter>): seq<Frame> {
    if log == [] then []
    else
      var rest := Filtered(log[..|log| - 1], filters);
      if MatchesAny(filters, log[|log| - 1]) then rest + [log[|log| - 1]] else rest
  }

  /** The filtered log since a subscription. */
  function View(log: seq<Frame>, since: nat, filters: seq<Filter>): seq<Frame>
    requires since <= |log|
  {
    Filtered(log[since..], filters)
  }

  function SumCounts(ports: seq<Port>, n: Count): nat {
    if ports == [] then 0
    else SumCounts(ports[..|ports| - 1], n)
         + CountTries(ports[|ports| - 1].tries, ports[|ports| - 1].policy, n)
  }

  /** Threads between the channel call and this counter. */
  function InFlight(headers: map<C.Tid, Header>, n: Count): set<C.Tid> {
    set t | t in headers && headers[t].pending == Some(n)
  }

  /** A header still has subscriber p before it. */
  predicate IsAhead(h: Header, p: nat) {
    h.next < p || (h.next == p && h.pending.None?)
  }

  /** Threads that will still offer their frame to subscriber p. */
  function Ahead(headers: map<C.Tid, Header>, p: nat, filters: seq<Filter>): set<C.Tid> {
    set t | t in headers && IsAhead(headers[t], p) && MatchesAny(filters, headers[t].frame)
  }

  // ---- Invariants ----

  ghost predicate ChannelInv(port: Port, closed: bool) {
    OutletInv(port.policy, port.chan, port.tries, closed)
  }

  /** A thread waiting to send on the channel is a header blocked at this subscriber. */
  ghost predicate SendersInv(headers: map<C.Tid, Header>, p: nat, port: Port) {
    forall t :: t in port.chan.waiters && port.chan.waiters[t].item.Some? ==>
      && t in headers && headers[t].next == p && headers[t].pending.None?
      && port.chan.waiters[t].item.value == headers[t].frame
      && port.policy == Block && MatchesAny(port.filters, headers[t].frame)
  }

  /** Conversely, a header is in no other wait. */
  ghost predicate ReceiversInv(headers: map<C.Tid, Header>, port: Port) {
    forall t :: t in port.chan.waiters && port.chan.waiters[t].item.None? ==> t !in headers
  }

  /** Every exchanged frame that the subscriber asked for has been offered to it, or will be. */
  ghost predicate OfferInv(log: seq<Frame>, headers: map<C.Tid, Header>, p: nat, port: Port) {
    && port.since <= |log|
    && |port.tries| + |Ahead(headers, p, port.filters)| == |View(log, port.since, port.filters)|
  }

  ghost predicate HeaderInv(s: State, t: C.Tid)
    requires t in s.headers
  {
    && s.headers[t].next <= |s.ports|
    && (s.headers[t].pending.Some? ==> s.headers[t].next < |s.ports| && s.headers[t].pending.value != Nothing)
  }

  ghost predicate PortInv(s: State, p: nat)
    requires p < |s.ports|
  {
    && ChannelInv(s.ports[p], s.closed)
    && SendersInv(s.headers, p, s.ports[p])
    && ReceiversInv(s.headers, s.ports[p])
    && OfferInv(s.log, s.headers, p, s.ports[p])
  }

  ghost predicate CounterInv(s: State) {
    && s.delivers + |InFlight(s.headers, Delivered)| == SumCounts(s.ports, Delivered)
    && s.drops + |InFlight(s.headers, Dropped)| == SumCounts(s.ports, Dropped)
  }

  /** A thread with an increment to make is in a header, and waits nowhere. */
  ghost predicate DueInv(s: State) {
    && (forall t :: t in s.due ==> t in s.headers)
    && (forall t, p :: t in s.due && 0 <= p < |s.ports| ==> t !in s.ports[p].chan.waiters)
    && (forall t :: t in s.due && s.due[t] != DeliveredBytes ==> s.headers[t].next == 0 && s.headers[t].pending.None?)
  }

  ghost predicate Inv(s: State) {
    && DueInv(s)
    && (s.closed ==> s.headers == map[])
    && (forall t :: t in s.headers ==> HeaderInv(s, t))
    && (forall p :: 0 <= p < |s.ports| ==> PortInv(s, p))
    && CounterInv(s)
  }

  lemma UsableChannel(s: State, p: nat)
    requires Inv(s) && p < |s.ports|
    ensures 1 <= s.ports[p].chan.capacity
  {
    assert PortInv(s, p);
  }

  // ---- One port under each step ----

  lemma OfferKeepsChannel(port: Port, t: C.Tid, f: Frame, choice: Option<C.Tid>)
    requires ChannelInv(port, false) && C.Enabled(port.chan, CallFor(port.policy, t, f, choice))
    ensures ChannelInv(OfferTo(port, t, f, choice).0, false)
  {
    OfferKeepsOutlet(port.policy, port.chan, port.tries, t, f, choice);
  }

  lemma ConsumeKeepsChannel(port: Port, e: C.Event<Frame>, closed: bool)
    requires ChannelInv(port, closed) && C.Enabled(port.chan, e) && IsConsumerEvent(e)
    ensures ChannelInv(port.(chan := C.Apply(port.chan, e)), closed)
  {
    ConsumeKeepsOutlet(port.policy, port.chan, port.tries, e, closed);
  }

  // ---- Sums and sets ----

  lemma {:induction false} SumUpdate(ports: seq<Port>, k: nat, port: Port, n: Count)
    requires k < |ports|
    ensures SumCounts(ports[k := port], n) ==
            SumCounts(ports, n) - CountTries(ports[k].tries, ports[k].policy, n)
            + CountTries(port.tries, port.policy, n)
  {
    var last := |ports| - 1;
    if k == last {
      assert ports[k := port][..last] == ports[..last];
    } else {
      SumUpdate(ports[..last], k, port, n);
      assert ports[k := port][..last] == ports[..last][k := port];
    }
  }

  lemma {:induction false} SumSame(ports: seq<Port>, ports': seq<Port>, n: Count)
    requires |ports| == |ports'|
    requires forall p :: 0 <= p < |ports| ==>
      ports'[p].tries == ports[p].tries && ports'[p].policy == ports[p].policy
    ensures SumCounts(ports', n) == SumCounts(ports, n)
  {
    if ports != [] {
      SumSame(ports[..|ports| - 1], ports'[..|ports| - 1], n);
    }
  }

  /** Thread t, at subscriber k, has moved on to h'. */
  lemma AheadAfter(headers: map<C.Tid, Header>, t: C.Tid, h': Header, p: nat, filters: seq<Filter>)
    requires t in headers && h'.frame == headers[t].frame
    ensures var after := Ahead(headers[t := h'], p, filters);
      if MatchesAny(filters, h'.frame) && IsAhead(headers[t], p) && !IsAhead(h', p)
      then t in Ahead(headers, p, filters) && after == Ahead(headers, p, filters) - {t}
      else (IsAhead(h', p) ==> IsAhead(headers[t], p)) ==> after == Ahead(headers, p, filters)
  {
  }

  lemma FilteredSnoc(log: seq<Frame>, f: Frame, filters: seq<Filter>)
    ensures Filtered(log + [f], filters) ==
            if MatchesAny(filters, f) then Filtered(log, filters) + [f] else Filtered(log, filters)
  {
    assert (log + [f])[..|log|] == log;
  }

  // ---- Every step keeps the invariant ----

  /** Only log, headers and one port's own state matter to its invariants. */
  ghost predicate LocalInv(log: seq<Frame>, headers: map<C.Tid, Header>, p: nat, port: Port) {
    && SendersInv(headers, p, port) && ReceiversInv(headers, port) && OfferInv(log, headers, p, port)
  }

  lemma BeginKeepsPort(log: seq<Frame>, headers: map<C.Tid, Header>, t: C.Tid, f: Frame, p: nat, port: Port)
    requires LocalInv(log, headers, p, port) && t !in headers && t !in port.chan.waiters
    ensures LocalInv(log + [f], headers[t := Header(f, 0, None)], p, port)
  {
    hide MatchesAny, View, Ahead;
    ViewSnoc(log, f, port.since, port.filters);
    AheadBegin(headers, t, f, p, port.filters);
  }

  lemma ViewSnoc(log: seq<Frame>, f: Frame, since: nat, filters: seq<Filter>)
    requires since <= |log|
    ensures View(log + [f], since, filters) ==
            if MatchesAny(filters, f) then View(log, since, filters) + [f] else View(log, since, filters)
  {
    hide MatchesAny, Filtered;
    assert (log + [f])[since..] == log[since..] + [f];
    FilteredSnoc(log[since..], f, filters);
  }

  lemma AheadBegin(headers: map<C.Tid, Header>, t: C.Tid, f: Frame, p: nat, filters: seq<Filter>)
    requires t !in headers
    ensures var after := Ahead(headers[t := Header(f, 0, None)], p, filters);
            after == Ahead(headers, p, filters) + (if MatchesAny(filters, f) then {t} else {})
            && t !in Ahead(headers, p, filters)
  {
    hide MatchesAny;
  }

  lemma BeginKeepsDue(s: State, t: C.Tid, id: byte)
    requires DueInv(s) && Enabled(s, BeginHeader(t, id))
    ensures DueInv(Apply(s, BeginHeader(t, id)))
  {
    hide Exchange;
  }

  lemma BeginKeepsInv(s: State, t: C.Tid, id: byte)
    requires Inv(s) && Enabled(s, BeginHeader(t, id))
    ensures Inv(Apply(s, BeginHeader(t, id)))
  {
    hide ChannelInv, SendersInv, ReceiversInv, OfferInv, InFlight, DueInv;
    var s' := Apply(s, BeginHeader(t, id));
    BeginKeepsDue(s, t, id);
    forall p | 0 <= p < |s.ports| ensures PortInv(s', p) {
      assert PortInv(s, p);
      if s'.headers != s.headers {
        BeginKeepsPort(s.log, s.headers, t, s'.headers[t].frame, p, s.ports[p]);
      }
    }
    if s'.headers != s.headers {
      InFlightNew(s.headers, t, s'.headers[t], Delivered);
      InFlightNew(s.headers, t, s'.headers[t], Dropped);
    }
  }

  lemma InFlightNew(headers: map<C.Tid, Header>, t: C.Tid, h: Header, n: Count)
    requires t !in headers && h.pending.None?
    ensures InFlight(headers[t := h], n) == InFlight(headers, n)
  {
  }

  /** A header that is, or moves, past subscriber p, or stays before it, leaves p's invariants alone. */
  lemma MoveKeepsPort(log: seq<Frame>, headers: map<C.Tid, Header>, t: C.Tid, h': Header, p: nat, port: Port)
    requires LocalInv(log, headers, p, port) && t in headers && h'.frame == headers[t].frame
    requires IsAhead(h', p) == IsAhead(headers[t], p) || !MatchesAny(port.filters, h'.frame)
    requires t in port.chan.waiters ==> h' == headers[t]
    ensures LocalInv(log, headers[t := h'], p, port)
  {
    hide MatchesAny, Filtered, View;
    AheadAfter(headers, t, h', p, port.filters);
    assert Ahead(headers[t := h'], p, port.filters) == Ahead(headers, p, port.filters);
  }

  lemma SkipKeepsInv(s: State, t: C.Tid)
    requires Inv(s) && Enabled(s, Skip(t))
    ensures Inv(Apply(s, Skip(t)))
  {
    hide ChannelInv, ReceiversInv, OfferInv;
    var s' := Apply(s, Skip(t));
    forall p | 0 <= p < |s.ports| ensures PortInv(s', p) {
      assert PortInv(s, p);
      if t in s.ports[p].chan.waiters {
        NotWaitingElsewhere(s, t, p);
      }
      MoveKeepsPort(s.log, s.headers, t, s'.headers[t], p, s.ports[p]);
    }
    assert InFlight(s'.headers, Delivered) == InFlight(s.headers, Delivered);
    assert InFlight(s'.headers, Dropped) == InFlight(s.headers, Dropped);
  }

  /** A header waits only at its own subscriber, and only for a channel call it is making there. */
  lemma NotWaitingElsewhere(s: State, t: C.Tid, p: nat)
    requires Inv(s) && t in s.headers && p < |s.ports| && t in s.ports[p].chan.waiters
    ensures s.headers[t].next == p && s.headers[t].pending.None?
    ensures MatchesAny(s.ports[p].filters, s.headers[t].frame) && s.ports[p].policy == Block
    ensures s.ports[p].chan.waiters[t].item == Some(s.headers[t].frame)
  {
    hide ChannelInv, OfferInv;
    assert PortInv(s, p);
  }

  lemma OfferKeepsOthers(s: State, t: C.Tid, choice: Option<C.Tid>, p: nat)
    requires Inv(s) && Enabled(s, Offer(t, choice)) && p < |s.ports| && p != s.headers[t].next
    ensures PortInv(Apply(s, Offer(t, choice)), p)
  {
    hide ChannelInv, ReceiversInv, OfferInv, MatchesAny, OfferTo, CallFor, C.Enabled, CountFor;
    var s' := Apply(s, Offer(t, choice));
    assert PortInv(s, p);
    if t in s.ports[p].chan.waiters {
      NotWaitingElsewhere(s, t, p);
    }
    MoveKeepsPort(s.log, s.headers, t, s'.headers[t], p, s.ports[p]);
    assert s'.headers == s.headers[t := s'.headers[t]];
  }

  /** Only Block waits, and what comes back leads to one of the two counters. */
  lemma OfferReply(port: Port, t: C.Tid, f: Frame, choice: Option<C.Tid>)
    requires ChannelInv(port, false) && C.Enabled(port.chan, CallFor(port.policy, t, f, choice))
    ensures var r := OfferTo(port, t, f, choice).1;
      && (r == C.Waits ==> port.policy == Block && |port.chan.buf| == port.chan.capacity)
      && (r != C.Waits ==> r.Sent? && CountFor(port.policy, r.result) != Nothing)
  {
    OfferItemReply(port.policy, port.chan, port.tries, t, f, choice);
  }

  lemma OfferKeepsPort(log: seq<Frame>, headers: map<C.Tid, Header>, t: C.Tid, choice: Option<C.Tid>, port: Port)
    requires t in headers && headers[t].pending.None? && MatchesAny(port.filters, headers[t].frame)
    requires LocalInv(log, headers, headers[t].next, port) && ChannelInv(port, false)
    requires C.Enabled(port.chan, CallFor(port.policy, t, headers[t].frame, choice))
    ensures var (port', r) := OfferTo(port, t, headers[t].frame, choice);
            LocalInv(log, HeadersAfterOffer(headers, t, port.policy, r), headers[t].next, port')
  {
    hide MatchesAny, ChannelInv, C.Enabled, C.Apply, C.ReplyOf, View, Ahead, CountFor;
    var h := headers[t];
    OfferReply(port, t, h.frame, choice);
    WaitersAfter(port.chan, CallFor(port.policy, t, h.frame, choice));
    var headers' := HeadersAfterOffer(headers, t, port.policy, OfferTo(port, t, h.frame, choice).1);
    AheadAfter(headers, t, headers'[t], h.next, port.filters);
    assert headers' == headers[t := headers'[t]];
  }

  lemma InFlightAfter(headers: map<C.Tid, Header>, t: C.Tid, h': Header, n: Count)
    requires t in headers
    ensures |InFlight(headers[t := h'], n)| ==
            |InFlight(headers, n)| - (if headers[t].pending == Some(n) then 1 else 0)
            + (if h'.pending == Some(n) then 1 else 0)
  {
    var before, after := InFlight(headers, n), InFlight(headers[t := h'], n);
    assert after - {t} == before - {t};
    Without(before, t);
    Without(after, t);
  }

  lemma Without(threads: set<C.Tid>, t: C.Tid)
    ensures |threads| == |threads - {t}| + if t in threads then 1 else 0
  {
    if t in threads {
      assert threads == threads - {t} + {t};
    } else {
      assert threads == threads - {t};
    }
  }

  lemma OfferKeepsCounter(ports: seq<Port>, headers: map<C.Tid, Header>, t: C.Tid, choice: Option<C.Tid>, n: Count)
    requires t in headers && headers[t].pending.None? && headers[t].next < |ports|
    requires ChannelInv(ports[headers[t].next], false)
    requires C.Enabled(ports[headers[t].next].chan,
                       CallFor(ports[headers[t].next].policy, t, headers[t].frame, choice))
    ensures var k := headers[t].next;
            var (port', r) := OfferTo(ports[k], t, headers[t].frame, choice);
            SumCounts(ports[k := port'], n) - SumCounts(ports, n) ==
            |InFlight(HeadersAfterOffer(headers, t, ports[k].policy, r), n)| - |InFlight(headers, n)|
  {
    hide ChannelInv, C.Enabled, C.Apply, C.ReplyOf, InFlight, SumCounts, CountFor;
    var k, port := headers[t].next, ports[headers[t].next];
    var (port', r) := OfferTo(port, t, headers[t].frame, choice);
    SumUpdate(ports, k, port', n);
    if r.Sent? {
      assert port'.tries[..|port.tries|] == port.tries;
      InFlightAfter(headers, t, headers[t].(pending := Some(CountFor(port.policy, r.result))), n);
    }
  }

  lemma OfferKeepsDue(s: State, t: C.Tid, choice: Option<C.Tid>)
    requires DueInv(s) && Enabled(s, Offer(t, choice))
    ensures DueInv(Apply(s, Offer(t, choice)))
  {
    hide C.Enabled, C.Apply, C.ReplyOf, MatchesAny;
    var port := s.ports[s.headers[t].next];
    WaitersAfter(port.chan, CallFor(port.policy, t, s.headers[t].frame, choice));
  }

  lemma OfferKeepsInv(s: State, t: C.Tid, choice: Option<C.Tid>)
    requires Inv(s) && Enabled(s, Offer(t, choice))
    ensures Inv(Apply(s, Offer(t, choice)))
  {
    hide ChannelInv, SendersInv, ReceiversInv, OfferInv, MatchesAny, C.Enabled, OfferTo, CallFor, InFlight, DueInv;
    var s' := Apply(s, Offer(t, choice));
    OfferKeepsDue(s, t, choice);
    var k, port := s.headers[t].next, s.ports[s.headers[t].next];
    var (port', reply) := OfferTo(port, t, s.headers[t].frame, choice);
    assert s' == s.(ports := s.ports[k := port'], headers := HeadersAfterOffer(s.headers, t, port'.policy, reply));
    assert PortInv(s, k);
    OfferKeepsPort(s.log, s.headers, t, choice, port);
    OfferKeepsChannel(port, t, s.headers[t].frame, choice);
    OfferKeepsCounter(s.ports, s.headers, t, choice, Delivered);
    OfferKeepsCounter(s.ports, s.headers, t, choice, Dropped);
    OfferReply(port, t, s.headers[t].frame, choice);
    forall p | 0 <= p < |s.ports| && p != k ensures PortInv(s', p) {
      OfferKeepsOthers(s, t, choice, p);
    }
  }

  lemma IncrementKeepsDue(s: State, t: C.Tid)
    requires Inv(s) && Enabled(s, Increment(t))
    ensures DueInv(Apply(s, Increment(t)))
  {
    hide ChannelInv, OfferInv, CounterInv;
    forall p | 0 <= p < |s.ports| ensures t !in s.ports[p].chan.waiters {
      assert PortInv(s, p);
    }
  }

  lemma IncrementKeepsInv(s: State, t: C.Tid)
    requires Inv(s) && Enabled(s, Increment(t))
    ensures Inv(Apply(s, Increment(t)))
  {
    hide ChannelInv, ReceiversInv, OfferInv, InFlight, DueInv;
    var s' := Apply(s, Increment(t));
    IncrementKeepsDue(s, t);
    forall p | 0 <= p < |s.ports| ensures PortInv(s', p) {
      assert PortInv(s, p);
      if t in s.ports[p].chan.waiters {
        NotWaitingElsewhere(s, t, p);
      }
      MoveKeepsPort(s.log, s.headers, t, s'.headers[t], p, s.ports[p]);
    }
    InFlightAfter(s.headers, t, s'.headers[t], Delivered);
    InFlightAfter(s.headers, t, s'.headers[t], Dropped);
  }

  lemma AccountKeepsInv(s: State, t: C.Tid)
    requires Inv(s) && Enabled(s, Account(t))
    ensures Inv(Apply(s, Account(t)))
  {
    hide ChannelInv, SendersInv, ReceiversInv, OfferInv;
    forall p | 0 <= p < |s.ports| ensures PortInv(Apply(s, Account(t)), p) {
      assert PortInv(s, p);
    }
  }

  lemma EndKeepsInv(s: State, t: C.Tid)
    requires Inv(s) && Enabled(s, EndHeader(t))
    ensures Inv(Apply(s, EndHeader(t)))
  {
    hide ChannelInv, OfferInv, MatchesAny, View;
    var s' := Apply(s, EndHeader(t));
    forall p | 0 <= p < |s.ports| ensures PortInv(s', p) {
      assert PortInv(s, p);
      EndKeepsPort(s, t, p);
    }
    assert InFlight(s'.headers, Delivered) == InFlight(s.headers, Delivered);
    assert InFlight(s'.headers, Dropped) == InFlight(s.headers, Dropped);
  }

  lemma EndKeepsPort(s: State, t: C.Tid, p: nat)
    requires Inv(s) && Enabled(s, EndHeader(t)) && p < |s.ports|
    ensures LocalInv(s.log, s.headers - {t}, p, s.ports[p])
  {
    hide ChannelInv, MatchesAny, View;
    assert PortInv(s, p);
    if t in s.ports[p].chan.waiters {
      NotWaitingElsewhere(s, t, p);
    }
    assert Ahead(s.headers - {t}, p, s.ports[p].filters) == Ahead(s.headers, p, s.ports[p].filters);
  }

  lemma ConsumeKeepsPort(log: seq<Frame>, headers: map<C.Tid, Header>, p: nat, port: Port, e: C.Event<Frame>)
    requires LocalInv(log, headers, p, port) && C.Enabled(port.chan, e) && IsConsumerEvent(e)
    requires e.RecvPass? ==> e.t !in headers
    ensures LocalInv(log, headers, p, port.(chan := C.Apply(port.chan, e)))
  {
    hide MatchesAny, View, Ahead, C.Enabled, C.Apply, C.ReplyOf;
    WaitersAfter(port.chan, e);
  }

  lemma ConsumeKeepsDue(s: State, p: nat, e: C.Event<Frame>)
    requires DueInv(s) && Enabled(s, Consume(p, e))
    ensures DueInv(Apply(s, Consume(p, e)))
  {
    hide C.Enabled, C.Apply, C.ReplyOf;
    WaitersAfter(s.ports[p].chan, e);
  }

  lemma ConsumeKeepsInv(s: State, p: nat, e: C.Event<Frame>)
    requires Inv(s) && Enabled(s, Consume(p, e))
    ensures Inv(Apply(s, Consume(p, e)))
  {
    hide ChannelInv, SendersInv, ReceiversInv, OfferInv, C.Enabled, C.Apply, DueInv;
    var s' := Apply(s, Consume(p, e));
    ConsumeKeepsDue(s, p, e);
    assert PortInv(s, p);
    ConsumeKeepsChannel(s.ports[p], e, s.closed);
    ConsumeKeepsPort(s.log, s.headers, p, s.ports[p], e);
    forall q | 0 <= q < |s.ports| ensures PortInv(s', q) {
      assert PortInv(s, q);
    }
    SumSame(s.ports, s'.ports, Delivered);
    SumSame(s.ports, s'.ports, Dropped);
  }

  lemma SubscribeKeepsInv(s: State, filters: seq<Filter>, policy: Policy, depth: int)
    requires Inv(s) && Enabled(s, Subscribe(filters, policy, depth))
    ensures Inv(Apply(s, Subscribe(filters, policy, depth)))
  {
    hide Apply, Enabled, PortInv, InFlight, SumCounts, DueInv;
    var s' := Apply(s, Subscribe(filters, policy, depth));
    SubscribeKeepsDue(s, filters, policy, depth);
    SubscribeKeepsRest(s, filters, policy, depth);
    forall p | 0 <= p < |s'.ports| ensures PortInv(s', p) {
      SubscribeKeepsPort(s, filters, policy, depth, p);
    }
  }

  lemma SubscribeKeepsRest(s: State, filters: seq<Filter>, policy: Policy, depth: int)
    requires Enabled(s, Subscribe(filters, policy, depth))
    ensures var s' := Apply(s, Subscribe(filters, policy, depth));
      && s'.headers == s.headers && s'.closed == s.closed && s'.delivers == s.delivers && s'.drops == s.drops
      && |s.ports| <= |s'.ports|
      && SumCounts(s'.ports, Delivered) == SumCounts(s.ports, Delivered)
      && SumCounts(s'.ports, Dropped) == SumCounts(s.ports, Dropped)
  {
    var s' := Apply(s, Subscribe(filters, policy, depth));
    if !s.closed {
      assert s'.ports[..|s.ports|] == s.ports;
    }
  }

  lemma SubscribeKeepsDue(s: State, filters: seq<Filter>, policy: Policy, depth: int)
    requires DueInv(s) && Enabled(s, Subscribe(filters, policy, depth))
    ensures DueInv(Apply(s, Subscribe(filters, policy, depth)))
  {
  }

  lemma SubscribeKeepsPort(s: State, filters: seq<Filter>, policy: Policy, depth: int, p: nat)
    requires Enabled(s, Subscribe(filters, policy, depth)) && p < |Apply(s, Subscribe(filters, policy, depth)).ports|
    requires p < |s.ports| ==> PortInv(s, p)
    ensures PortInv(Apply(s, Subscribe(filters, policy, depth)), p)
  {
    hide ChannelInv, SendersInv, ReceiversInv, OfferInv;
    if p == |s.ports| {
      NewPort(s.log, filters, policy, depth, p);
    }
  }

  lemma NewPort(log: seq<Frame>, filters: seq<Filter>, policy: Policy, depth: int, p: nat)
    ensures var port := Port(filters, policy, C.Create(EffectiveDepth(depth)), |log|, []);
      ChannelInv(port, false) && SendersInv(map[], p, port) && ReceiversInv(map[], port) && OfferInv(log, map[], p, port)
  {
    hide MatchesAny;
    assert Ahead(map[], p, filters) == {};
  }

  lemma CloseKeepsInv(s: State)
    requires Inv(s) && Enabled(s, Event.Close)
    ensures Inv(Apply(s, Event.Close))
  {
    hide MatchesAny, View, Ahead, OutletInv;
    var s' := Apply(s, Event.Close);
    if !s.closed {
      forall p | 0 <= p < |s.ports| ensures PortInv(s', p) {
        assert PortInv(s, p);
        CloseKeepsOutlet(s.ports[p].policy, s.ports[p].chan, s.ports[p].tries, false);
      }
      SumSame(s.ports, s'.ports, Delivered);
      SumSame(s.ports, s'.ports, Dropped);
    }
  }

  lemma PublishKeepsInv(s: State, id: byte, data: seq<byte>, ct: ChecksumType)
    requires Inv(s) && Enabled(s, Publish(id, data, ct))
    ensures Inv(Apply(s, Publish(id, data, ct)))
  {
    hide ChannelInv, SendersInv, ReceiversInv, OfferInv;
    forall p | 0 <= p < |s.ports| ensures PortInv(Apply(s, Publish(id, data, ct)), p) {
      assert PortInv(s, p);
    }
  }

  lemma StepKeepsInv(s: State, e: Event)
    requires Inv(s) && Enabled(s, e)
    ensures Inv(Apply(s, e))
  {
    hide Inv, Enabled, Apply;
    match e {
      case Publish(id, data, ct) => PublishKeepsInv(s, id, data, ct);
      case Subscribe(filters, policy, depth) => SubscribeKeepsInv(s, filters, policy, depth);
      case Close => CloseKeepsInv(s);
      case BeginHeader(t, id) => BeginKeepsInv(s, t, id);
      case Skip(t) => SkipKeepsInv(s, t);
      case Offer(t, choice) => OfferKeepsInv(s, t, choice);
      case Increment(t) => IncrementKeepsInv(s, t);
      case Account(t) => AccountKeepsInv(s, t);
      case EndHeader(t) => EndKeepsInv(s, t);
      case Consume(p, ce) => ConsumeKeepsInv(s, p, ce);
    }
  }

  lemma {:induction false} RunInv(states: seq<State>, events: seq<Event>, n: nat)
    requires IsRun(states, events) && n <= |events|
    ensures Inv(states[n])
  {
    if n > 0 {
      hide Inv, Enabled, Apply;
      RunInv(states, events, n - 1);
      StepKeepsInv(states[n - 1], events[n - 1]);
    }
  }
}
