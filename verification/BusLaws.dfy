/** What follows for every run of the bus: conservation, subscriber views and shutdown. */
module BusLaws {
  import opened Wrappers
  import opened Bytes
  import opened Lin
  import opened Bus
  import opened Delivery
  import opened BusRuns
  import C = Channel

  // ---- Conservation ----

  /** Frames received from, or still buffered in, every channel ever subscribed. */
  function Held(ports: seq<Port>): nat {
    if ports == [] then 0
    else
      var chan := ports[|ports| - 1].chan;
      Held(ports[..|ports| - 1]) + CountFate(chan.removed, C.Received) + |chan.buf|
  }

  /** (exchanged frame, matching subscriber) pairs. */
  function Pairs(log: seq<Frame>, ports: seq<Port>): nat
    requires forall p :: 0 <= p < |ports| ==> ports[p].since <= |log|
  {
    if ports == [] then 0
    else
      var port := ports[|ports| - 1];
      Pairs(log, ports[..|ports| - 1]) + |View(log, port.since, port.filters)|
  }

  lemma {:induction false} HeldIsDelivered(ports: seq<Port>, closed: bool)
    requires forall p :: 0 <= p < |ports| ==> ChannelInv(ports[p], closed)
    ensures Held(ports) == SumCounts(ports, Delivered)
  {
    if ports != [] {
      HeldIsDelivered(ports[..|ports| - 1], closed);
      assert ChannelInv(ports[|ports| - 1], closed);
    }
  }

  /** In every reachable state, whatever threads are doing: deliveries counted, plus those about to be
      counted, are the frames received or buffered over all channels ever subscribed. */
  lemma DeliveriesConserved(states: seq<State>, events: seq<Event>, n: nat)
    requires IsRun(states, events) && n <= |events|
    ensures states[n].delivers + |InFlight(states[n].headers, Delivered)| == Held(states[n].ports)
  {
    hide Enabled, Apply, PortInv;
    RunInv(states, events, n);
    var s := states[n];
    forall p | 0 <= p < |s.ports| ensures ChannelInv(s.ports[p], s.closed) {
      PortInvParts(s, p);
    }
    HeldIsDelivered(s.ports, s.closed);
  }

  lemma PortInvParts(s: State, p: nat)
    requires p < |s.ports| && PortInv(s, p)
    ensures ChannelInv(s.ports[p], s.closed) && LocalInv(s.log, s.headers, p, s.ports[p])
  {
  }

  lemma {:induction false} EveryTryCounted(port: Port, tries: seq<Try<Frame>>)
    requires forall i :: 0 <= i < |tries| ==> TryInv(port.policy, port.chan.capacity, tries[i])
    ensures CountTries(tries, port.policy, Delivered) + CountTries(tries, port.policy, Dropped) == |tries|
  {
    if tries != [] {
      EveryTryCounted(port, tries[..|tries| - 1]);
      assert TryInv(port.policy, port.chan.capacity, tries[|tries| - 1]);
    }
  }

  lemma {:induction false} PairsAreTries(log: seq<Frame>, ports: seq<Port>, closed: bool)
    requires forall p :: 0 <= p < |ports| ==>
      ports[p].since <= |log| && ChannelInv(ports[p], closed) && OfferInv(log, map[], p, ports[p])
    ensures SumCounts(ports, Delivered) + SumCounts(ports, Dropped) == Pairs(log, ports)
  {
    if ports != [] {
      var k := |ports| - 1;
      PairsAreTries(log, ports[..k], closed);
      EveryTryCounted(ports[k], ports[k].tries);
      assert Ahead(map[], k, ports[k].filters) == {};
    }
  }

  /** Whenever no header is in progress, every pair was counted exactly once, as delivered or as dropped. */
  lemma QuiescentTotals(states: seq<State>, events: seq<Event>, n: nat)
    requires IsRun(states, events) && n <= |events|
    requires states[n].headers == map[]
    ensures forall p :: 0 <= p < |states[n].ports| ==> states[n].ports[p].since <= |states[n].log|
    ensures states[n].delivers + states[n].drops == Pairs(states[n].log, states[n].ports)
  {
    hide Enabled, Apply, PortInv;
    RunInv(states, events, n);
    var s := states[n];
    forall p | 0 <= p < |s.ports|
      ensures ChannelInv(s.ports[p], s.closed) && OfferInv(s.log, map[], p, s.ports[p])
    {
      PortInvParts(s, p);
    }
    PairsAreTries(s.log, s.ports, s.closed);
    assert InFlight(s.headers, Delivered) == {} && InFlight(s.headers, Dropped) == {};
  }

  // ---- Subscriber views under one master ----

  ghost predicate OneMaster(s: State) {
    forall t, u :: t in s.headers && u in s.headers ==> t == u
  }

  /** Subscriber p has been offered exactly the filtered log since it subscribed, but for the frame that
      thread t has still to offer it. */
  ghost predicate ViewOf(log: seq<Frame>, headers: map<C.Tid, Header>, p: nat, port: Port) {
    && port.since <= |log|
    && (headers == map[] ==> Tried(port.tries) == View(log, port.since, port.filters))
    && forall t :: t in headers ==>
         Tried(port.tries) + (if t in Ahead(headers, p, port.filters) then [headers[t].frame] else [])
         == View(log, port.since, port.filters)
  }

  ghost predicate Views(s: State) {
    OneMaster(s) && forall p :: 0 <= p < |s.ports| ==> ViewOf(s.log, s.headers, p, s.ports[p])
  }

  lemma MoveKeepsView(log: seq<Frame>, headers: map<C.Tid, Header>, t: C.Tid, h': Header, p: nat, port: Port)
    requires ViewOf(log, headers, p, port) && headers.Keys == {t} && h'.frame == headers[t].frame
    requires IsAhead(h', p) == IsAhead(headers[t], p) || !MatchesAny(port.filters, h'.frame)
    ensures ViewOf(log, headers[t := h'], p, port)
  {
    hide MatchesAny, View;
  }

  lemma OfferKeepsView(log: seq<Frame>, headers: map<C.Tid, Header>, t: C.Tid, port: Port, port': Port,
                       headers': map<C.Tid, Header>, result: C.SendResult)
    requires headers.Keys == {t} && ViewOf(log, headers, headers[t].next, port)
    requires headers[t].pending.None? && MatchesAny(port.filters, headers[t].frame)
    requires port'.since == port.since && port'.filters == port.filters
    requires port'.tries == port.tries + [Try(headers[t].frame, result, |port.chan.buf|)]
    requires headers' == HeadersAfterOffer(headers, t, port.policy, C.Sent(result))
    ensures ViewOf(log, headers', headers[t].next, port')
  {
    hide MatchesAny, View;
    assert t in Ahead(headers, headers[t].next, port.filters);
    assert Tried(port'.tries) == Tried(port.tries) + [headers[t].frame];
  }

  lemma OnlyHeader(s: State, t: C.Tid)
    requires OneMaster(s) && t in s.headers
    ensures s.headers.Keys == {t}
  {
  }

  lemma BeginKeepsViews(s: State, t: C.Tid, id: byte)
    requires Inv(s) && Views(s) && Enabled(s, BeginHeader(t, id)) && OneMaster(Apply(s, BeginHeader(t, id)))
    ensures Views(Apply(s, BeginHeader(t, id)))
  {
    hide Inv, MatchesAny, View, ViewOf, Exchange;
    var s' := Apply(s, BeginHeader(t, id));
    if s'.headers != s.headers {
      var f := s'.headers[t].frame;
      assert s.headers == map[] by {
        assert forall u :: u in s.headers ==> u in s'.headers && t in s'.headers;
      }
      forall p | 0 <= p < |s.ports| ensures ViewOf(s'.log, s'.headers, p, s'.ports[p]) {
        BeginKeepsView(s.log, t, f, p, s.ports[p]);
      }
    }
  }

  lemma StepKeepsViews(s: State, e: Event)
    requires Inv(s) && Views(s) && Enabled(s, e) && OneMaster(Apply(s, e))
    ensures Views(Apply(s, e))
  {
    hide MatchesAny, View, PortInv, CounterInv, DueInv, HeaderInv, C.Apply, C.Enabled, C.ReplyOf, CallFor, Ahead;
    var s' := Apply(s, e);
    match e {
      case BeginHeader(t, id) =>
        BeginKeepsViews(s, t, id);
      case Skip(t) =>
        OnlyHeader(s, t);
        forall p | 0 <= p < |s.ports| ensures ViewOf(s'.log, s'.headers, p, s'.ports[p]) {
          MoveKeepsView(s.log, s.headers, t, s'.headers[t], p, s.ports[p]);
        }
      case Increment(t) =>
        OnlyHeader(s, t);
        forall p | 0 <= p < |s.ports| ensures ViewOf(s'.log, s'.headers, p, s'.ports[p]) {
          MoveKeepsView(s.log, s.headers, t, s'.headers[t], p, s.ports[p]);
        }
      case Offer(t, choice) =>
        OfferKeepsViews(s, t, choice);
      case EndHeader(t) =>
        OnlyHeader(s, t);
        forall p | 0 <= p < |s.ports| ensures ViewOf(s'.log, s'.headers, p, s'.ports[p]) {
          assert ViewOf(s.log, s.headers, p, s.ports[p]);
          NotAheadAtEnd(s.headers, t, p, s.ports[p].filters, |s.ports|);
        }
      case Subscribe(filters, policy, depth) =>
        if !s.closed {
          EmptyView(s.log, filters);
          forall p | 0 <= p < |s'.ports| ensures ViewOf(s'.log, s'.headers, p, s'.ports[p]) {
            if p < |s.ports| {
              assert ViewOf(s.log, s.headers, p, s.ports[p]);
            }
          }
        }
      case _ =>
        forall p | 0 <= p < |s.ports| ensures ViewOf(s'.log, s'.headers, p, s'.ports[p]) {
          assert ViewOf(s.log, s.headers, p, s.ports[p]);
        }
    }
  }

  lemma BeginKeepsView(log: seq<Frame>, t: C.Tid, f: Frame, p: nat, port: Port)
    requires ViewOf(log, map[], p, port)
    ensures ViewOf(log + [f], map[t := Header(f, 0, None)], p, port)
  {
    hide MatchesAny, View;
    ViewSnoc(log, f, port.since, port.filters);
    assert Tried(port.tries) + [] == Tried(port.tries);
    var headers := map[t := Header(f, 0, None)];
    assert t in Ahead(headers, p, port.filters) <==> MatchesAny(port.filters, f);
  }

  lemma NotAheadAtEnd(headers: map<C.Tid, Header>, t: C.Tid, p: nat, filters: seq<Filter>, n: nat)
    requires t in headers && headers[t].next == n && p < n
    ensures t !in Ahead(headers, p, filters)
  {
  }

  lemma EmptyView(log: seq<Frame>, filters: seq<Filter>)
    ensures View(log, |log|, filters) == []
  {
  }

  lemma OfferKeepsViews(s: State, t: C.Tid, choice: Option<C.Tid>)
    requires Inv(s) && Views(s) && Enabled(s, Offer(t, choice))
    ensures Views(Apply(s, Offer(t, choice)))
  {
    hide MatchesAny, View, PortInv, CounterInv, C.Apply, C.Enabled, C.ReplyOf, CallFor, Ahead, ViewOf;
    var s' := Apply(s, Offer(t, choice));
    var h := s.headers[t];
    var k, port := h.next, s.ports[h.next];
    var (port', reply) := OfferTo(port, t, h.frame, choice);
    OnlyHeader(s, t);
    if reply.Sent? {
      OfferKeepsView(s.log, s.headers, t, port, port', s'.headers, reply.result);
    } else {
      SameTries(s.log, s.headers, k, port, port');
    }
    forall p | 0 <= p < |s.ports| && p != k ensures ViewOf(s'.log, s'.headers, p, s'.ports[p]) {
      assert ViewOf(s.log, s.headers, p, s.ports[p]);
      MoveKeepsView(s.log, s.headers, t, s'.headers[t], p, s.ports[p]);
      assert s'.headers == s.headers[t := s'.headers[t]];
    }
  }

  lemma SameTries(log: seq<Frame>, headers: map<C.Tid, Header>, p: nat, port: Port, port': Port)
    requires ViewOf(log, headers, p, port) && port' == port.(chan := port'.chan)
    ensures ViewOf(log, headers, p, port')
  {
  }

  lemma {:induction false} RunViews(states: seq<State>, events: seq<Event>, n: nat)
    requires IsRun(states, events) && n <= |events|
    requires forall i :: 0 <= i < |states| ==> OneMaster(states[i])
    ensures Inv(states[n]) && Views(states[n])
  {
    hide Inv, Views, Enabled, Apply, OneMaster;
    RunInv(states, events, n);
    if n == 0 {
      InitialViews();
    } else {
      RunViews(states, events, n - 1);
      StepKeepsViews(states[n - 1], events[n - 1]);
    }
  }

  lemma InitialViews()
    ensures Views(INITIAL)
  {
  }

  lemma {:induction false} PushedUnlessFull(tries: seq<Try<Frame>>)
    requires forall i :: 0 <= i < |tries| ==> tries[i].result == C.Ok || tries[i].result == C.Evicted
    ensures Pushed(tries) == Tried(tries)
  {
    if tries != [] {
      var k := |tries| - 1;
      PushedUnlessFull(tries[..k]);
      assert Tried(tries) == Tried(tries[..k]) + [tries[k].item];
    }
  }

  /** One master: between headers, each subscriber has been offered exactly the filtered log since it
      subscribed.  Under Block and DropOldest all of it was pushed, and what is buffered is the end of it;
      under DropNewest a frame was left out only when the buffer was full. */
  lemma SubscriberView(states: seq<State>, events: seq<Event>, n: nat, p: nat)
    requires IsRun(states, events) && n <= |events|
    requires forall i :: 0 <= i < |states| ==> OneMaster(states[i])
    requires states[n].headers == map[] && p < |states[n].ports|
    ensures states[n].ports[p].since <= |states[n].log|
    ensures var port := states[n].ports[p];
            var view := View(states[n].log, port.since, port.filters);
            && Tried(port.tries) == view && Pushed(port.tries) == port.chan.pushed
            && port.chan.pushed == C.Items(port.chan.removed) + port.chan.buf
            && (port.policy != DropNewest ==> port.chan.pushed == view)
            && forall i :: 0 <= i < |port.tries| ==>
                 port.tries[i].result == C.Ok || port.tries[i].result == C.Evicted
                 || (port.policy == DropNewest && port.tries[i].level == port.chan.capacity)
  {
    hide Enabled, Apply, View;
    RunViews(states, events, n);
    var s := states[n];
    var port := s.ports[p];
    PortInvParts(s, p);
    assert ViewOf(s.log, s.headers, p, port);
    forall i | 0 <= i < |port.tries|
      ensures port.tries[i].result == C.Ok || port.tries[i].result == C.Evicted
              || (port.policy == DropNewest && port.tries[i].level == port.chan.capacity)
    {
      assert TryInv(port.policy, port.chan.capacity, port.tries[i]);
    }
    if port.policy != DropNewest {
      PushedUnlessFull(port.tries);
    }
  }

  // ---- Which frames a subscriber asked for ----

  /** The frames of a log with one of these identifiers. */
  function WithIds(log: seq<Frame>, ids: set<byte>): seq<Frame> {
    if log == [] then []
    else if log[|log| - 1].id in ids then WithIds(log[..|log| - 1], ids) + [log[|log| - 1]]
    else WithIds(log[..|log| - 1], ids)
  }

  lemma {:induction false} FilteredByIds(log: seq<Frame>, filters: seq<Filter>)
    ensures Filtered(log, filters) == if AsksForAll(filters) then log else WithIds(log, IdsOf(filters))
  {
    hide MatchesAny, AsksForAll, IdsOf;
    if log != [] {
      FilteredByIds(log[..|log| - 1], filters);
      AskedIff(filters, log[|log| - 1]);
    }
  }

  /** One master: between headers a subscriber was offered the whole log since it subscribed if it gave no
      filter or one for every frame, and otherwise exactly the frames whose identifiers its filters name. */
  lemma SubscriberIds(states: seq<State>, events: seq<Event>, n: nat, p: nat)
    requires IsRun(states, events) && n <= |events|
    requires forall i :: 0 <= i < |states| ==> OneMaster(states[i])
    requires states[n].headers == map[] && p < |states[n].ports|
    ensures states[n].ports[p].since <= |states[n].log|
    ensures var port := states[n].ports[p];
            var log := states[n].log[port.since..];
            Tried(port.tries) == if AsksForAll(port.filters) then log else WithIds(log, IdsOf(port.filters))
  {
    hide Enabled, Apply, AsksForAll, IdsOf, WithIds;
    SubscriberView(states, events, n, p);
    var port := states[n].ports[p];
    FilteredByIds(states[n].log[port.since..], port.filters);
  }

  /** One more filter never takes a frame away, except that the first one does: what passes the old filters is
      still among what passes the new ones. */
  lemma {:induction false} FilterAdded(log: seq<Frame>, filters: seq<Filter>, filter: Filter)
    requires filters != [] || filter.all
    ensures Filtered(Filtered(log, filters + [filter]), filters) == Filtered(log, filters)
  {
    hide MatchesAny;
    if log != [] {
      var rest, f := log[..|log| - 1], log[|log| - 1];
      FilterAdded(rest, filters, filter);
      FilterAddedToOne(filters, filter, f);
      FilteredSnoc(Filtered(rest, filters + [filter]), f, filters);
    }
  }

  lemma FilterAddedToOne(filters: seq<Filter>, filter: Filter, f: Frame)
    requires filters != [] || filter.all
    ensures MatchesAny(filters, f) ==> MatchesAny(filters + [filter], f)
  {
    AskedIff(filters, f);
    AskedIff(filters + [filter], f);
    if i :| 0 <= i < |filters| && (filters[i].all || filters[i].id == f.id) {
      assert (filters + [filter])[i] == filters[i];
    } else {
      assert (filters + [filter])[|filters|] == filter;
    }
  }

  lemma FirstFilterNarrows(f: Frame, id: byte)
    ensures Filtered([f], []) == [f]
    ensures Filtered([f], [Filter(id, false)]) == if f.id == id then [f] else []
  {
    AskedIff([], f);
    AskedIff([Filter(id, false)], f);
    assert [f][..0] == [];
    assert Filtered([], []) == [] && Filtered([], [Filter(id, false)]) == [];
    assert [Filter(id, false)][0].id == id;
  }

  /** A Block subscriber loses nothing: what it received, then what is buffered, is its whole view. */
  lemma BlockLosesNothing(states: seq<State>, events: seq<Event>, n: nat, p: nat)
    requires IsRun(states, events) && n <= |events|
    requires forall i :: 0 <= i < |states| ==> OneMaster(states[i])
    requires states[n].headers == map[] && p < |states[n].ports| && states[n].ports[p].policy == Block
    ensures states[n].ports[p].since <= |states[n].log|
    ensures var port := states[n].ports[p];
            && C.Items(port.chan.removed) + port.chan.buf == View(states[n].log, port.since, port.filters)
            && forall i :: 0 <= i < |port.chan.removed| ==> port.chan.removed[i].fate == C.Received
  {
    hide Enabled, Apply, View;
    SubscriberView(states, events, n, p);
    RunInv(states, events, n);
    var port := states[n].ports[p];
    PortInvParts(states[n], p);
    EveryTryCounted(port, port.tries);
    BlockCounts(port.tries);
    PushedUnlessFull(port.tries);
    AllReceived(port.chan.removed);
  }

  lemma {:induction false} BlockCounts(tries: seq<Try<Frame>>)
    ensures CountTries(tries, Block, Delivered) == |tries|
  {
    if tries != [] {
      BlockCounts(tries[..|tries| - 1]);
    }
  }

  // ---- Shutdown ----

  /** Nothing is pushed on a channel or evicted from it between these two states. */
  ghost predicate OnlyDrained(before: C.Chan<Frame>, after: C.Chan<Frame>) {
    after.closed && after.pushed == before.pushed && C.OnlyReceivedSince(before.removed, after.removed)
  }

  /** Once the bus is closed nothing is ever pushed on any channel again, and only receives take out what
      is left. */
  lemma {:induction false} ClosedStaysDrained(states: seq<State>, events: seq<Event>, m: nat, n: nat)
    requires IsRun(states, events) && m <= n <= |events| && states[m].closed
    ensures states[n].closed && |states[n].ports| == |states[m].ports|
    ensures states[n].log == states[m].log
    ensures forall p :: 0 <= p < |states[m].ports| ==> OnlyDrained(states[m].ports[p].chan, states[n].ports[p].chan)
  {
    hide Enabled, Apply, Inv;
    RunInv(states, events, n);
    if n > m {
      ClosedStaysDrained(states, events, m, n - 1);
      RunInv(states, events, n - 1);
      ClosedStep(states[n - 1], events[n - 1]);
    } else {
      ClosedChannels(states[n]);
    }
  }

  lemma ClosedChannels(s: State)
    requires Inv(s) && s.closed
    ensures forall p :: 0 <= p < |s.ports| ==> s.ports[p].chan.closed
  {
    forall p | 0 <= p < |s.ports| ensures s.ports[p].chan.closed {
      assert PortInv(s, p);
    }
  }

  lemma ClosedStep(s: State, e: Event)
    requires Inv(s) && Enabled(s, e) && s.closed
    ensures var s' := Apply(s, e);
      && s'.closed && |s'.ports| == |s.ports| && s'.log == s.log && s'.headers == map[]
      && forall p :: 0 <= p < |s.ports| ==> OnlyDrained(s.ports[p].chan, s'.ports[p].chan)
  {
    hide C.Enabled, PortInv, CounterInv;
    ClosedChannels(s);
    if e.Consume? {
      AfterConsume(s.ports[e.p].chan, e.e);
    }
  }

  /** After close, each consumer receives exactly what was buffered, in order, and then the end of the
      stream: whatever is taken out is received, and what was taken out, followed by what is left, stays what
      was pushed. */
  lemma DrainsExactly(states: seq<State>, events: seq<Event>, m: nat, n: nat, p: nat)
    requires IsRun(states, events) && m <= n <= |events| && states[m].closed && p < |states[m].ports|
    ensures |states[n].ports| == |states[m].ports|
    ensures var before, after := states[m].ports[p].chan, states[n].ports[p].chan;
            && C.OnlyReceivedSince(before.removed, after.removed)
            && C.Items(after.removed[|before.removed|..]) + after.buf == before.buf
            && after.closed
            && forall t, choice :: C.Enabled(after, C.RecvPass(t, choice)) && after.buf == [] ==>
                 C.ReplyOf(after, C.RecvPass(t, choice)) == C.Got(None)
  {
    hide Enabled, Apply;
    ClosedStaysDrained(states, events, m, n);
    RunInv(states, events, m);
    RunInv(states, events, n);
    PortInvParts(states[m], p);
    PortInvParts(states[n], p);
    ItemsSplit(states[m].ports[p].chan, states[n].ports[p].chan);
  }

  lemma ItemsSplit(before: C.Chan<Frame>, after: C.Chan<Frame>)
    requires C.Ledger(before) && C.Ledger(after) && OnlyDrained(before, after)
    ensures C.Items(after.removed[|before.removed|..]) + after.buf == before.buf
  {
    var later := after.removed[|before.removed|..];
    ItemsConcat(before.removed, later);
    assert after.removed == before.removed + later;
    hide C.Items;
    var a, b := C.Items(before.removed), C.Items(later);
    assert a + b + after.buf == a + (b + after.buf);
    CancelPrefix(a, b + after.buf, before.buf);
  }

  lemma ItemsConcat(a: seq<C.Removal<Frame>>, b: seq<C.Removal<Frame>>)
    ensures C.Items(a + b) == C.Items(a) + C.Items(b)
  {
  }

  lemma CancelPrefix(a: seq<Frame>, b: seq<Frame>, c: seq<Frame>)
    requires a + b == a + c
    ensures b == c
  {
    assert b == (a + b)[|a|..] && c == (a + c)[|a|..];
  }
}
