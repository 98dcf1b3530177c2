/** When the bus is stuck: only behind a full Block subscriber that nobody receives from. */
module BusProgress {
  import opened Wrappers
  import opened Lin
  import opened Bus
  import opened Delivery
  import opened BusRuns
  import C = Channel

  /** The thread is queued for room in the full channel of a Block subscriber. */
  ghost predicate BlockedOnFull(s: State, t: C.Tid) {
    && AtPort(s, t)
    && var port := s.ports[s.headers[t].next];
    && port.policy == Block
    && |port.chan.buf| == port.chan.capacity
    && t in port.chan.waiters && !port.chan.waiters[t].woken
  }

  /** The next step of a header that is not queued. */
  ghost function NextOf(s: State, t: C.Tid): Event
    requires t in s.headers
  {
    var h := s.headers[t];
    if t in s.due then Account(t)
    else if h.next >= |s.ports| then EndHeader(t)
    else if h.pending.Some? then Increment(t)
    else if !MatchesAny(s.ports[h.next].filters, h.frame) then Skip(t)
    else Offer(t, C.AnyChoice(s.ports[h.next].chan.waiters, C.NotEmpty))
  }

  lemma HeaderMoves(s: State, t: C.Tid)
    requires Inv(s) && t in s.headers
    ensures Enabled(s, NextOf(s, t))
            || (AtPort(s, t) && var c := s.ports[s.headers[t].next].chan;
                t in c.waiters && !c.waiters[t].woken && s.ports[s.headers[t].next].policy == Block)
  {
    hide CounterInv, ChannelInv, OfferInv, MatchesAny, C.CanNotify;
    assert HeaderInv(s, t);
    var k := s.headers[t].next;
    if k < |s.ports| {
      assert PortInv(s, k);
      UsableChannel(s, k);
    }
  }

  /** Nothing is ever stuck but behind a full Block subscriber: either every header in progress is queued
      at one, or some header can take its next step. */
  lemma StuckOnlyOnFullBlock(s: State)
    requires Inv(s)
    ensures (forall t :: t in s.headers ==> BlockedOnFull(s, t))
            || (exists t :: t in s.headers && Enabled(s, NextOf(s, t)))
  {
    hide Enabled, Inv;
    if t :| t in s.headers && !BlockedOnFull(s, t) {
      HeaderMoves(s, t);
      if !Enabled(s, NextOf(s, t)) {
        var u := WokenPeer(s, t);
        HeaderMoves(s, u);
      }
    }
  }

  /** A header queued although there is room has a woken peer at the same subscriber. */
  lemma WokenPeer(s: State, t: C.Tid) returns (u: C.Tid)
    requires Inv(s) && AtPort(s, t) && !BlockedOnFull(s, t)
    requires s.ports[s.headers[t].next].policy == Block
    requires var c := s.ports[s.headers[t].next].chan; t in c.waiters && !c.waiters[t].woken
    ensures AtPort(s, u) && s.headers[u].next == s.headers[t].next
    ensures var c := s.ports[s.headers[u].next].chan; u in c.waiters && c.waiters[u].woken
  {
    hide MatchesAny, CounterInv, OfferInv, C.CanNotify;
    var k := s.headers[t].next;
    assert PortInv(s, k);
    var c := s.ports[k].chan;
    assert c.waiters[t].item.Some?;
    assert t in C.Queued(c.waiters, C.NotFull);
    assert |C.Woken(c.waiters, C.NotFull)| > 0;
    u :| u in C.Woken(c.waiters, C.NotFull);
  }

  /** With no header in progress, publish, subscribe and close can all run. */
  lemma ExclusiveLockFree(s: State, e: Event)
    requires Inv(s) && s.headers == map[]
    requires e.Publish? || e.Subscribe? || e.Close?
    ensures Enabled(s, e)
  {
    forall p | 0 <= p < |s.ports| ensures 1 <= s.ports[p].chan.capacity {
      UsableChannel(s, p);
    }
  }

  // ---- Receivers ----

  /** Thread r is inside recv on this channel. */
  predicate Receiving(c: C.Chan<Frame>, r: C.Tid) {
    r in c.waiters && c.waiters[r].item.None?
  }

  /** The thread is queued for room, and nobody is receiving from the channel. */
  ghost predicate Abandoned(s: State, t: C.Tid) {
    BlockedOnFull(s, t) && forall r: C.Tid :: !Receiving(s.ports[s.headers[t].next].chan, r)
  }

  /** Header u's next step is a channel call at subscriber p that returns. */
  ghost predicate Delivers(s: State, u: C.Tid, p: nat) {
    && AtPort(s, u) && s.headers[u].next == p
    && Enabled(s, NextOf(s, u)) && NextOf(s, u).Offer?
    && OfferTo(s.ports[p], u, s.headers[u].frame, NextOf(s, u).choice).1.Sent?
  }

  /** Receiver r's next step takes an item from port p. */
  ghost predicate Takes(s: State, r: C.Tid, p: nat)
    requires p < |s.ports|
  {
    var c := s.ports[p].chan;
    && Receiving(c, r) && c.buf != []
    && Enabled(s, Consume(p, C.Resume(c, r)))
    && C.ReplyOf(c, C.Resume(c, r)) == C.Got(Some(c.buf[0]))
  }

  /** Wherever a header waits for room and there is some, a header there has been woken, and its next step
      delivers. */
  lemma RoomIsUsed(s: State, t: C.Tid, p: nat) returns (u: C.Tid)
    requires Inv(s) && p < |s.ports| && t in s.ports[p].chan.waiters && s.ports[p].chan.waiters[t].item.Some?
    requires !s.closed && |s.ports[p].chan.buf| < s.ports[p].chan.capacity
    ensures Delivers(s, u, p)
  {
    hide MatchesAny, CounterInv, OfferInv, C.CanNotify;
    assert PortInv(s, p);
    var c := s.ports[p].chan;
    u := t;
    if !c.waiters[t].woken {
      C.QueuedMeansServed(c, t);
      u :| u in c.waiters && C.Proceeds(c, u, C.NotFull);
    }
    assert c.waiters[u].item == Some(s.headers[u].frame);
  }

  /** Any receive from the full channel lets a blocked header through. */
  lemma ReceiveFrees(s: State, t: C.Tid, e: C.Event<Frame>) returns (u: C.Tid)
    requires Inv(s) && t in s.headers && BlockedOnFull(s, t) && (e.RecvPass? || e.TryRecv?)
    requires Enabled(s, Consume(s.headers[t].next, e))
    ensures Delivers(Apply(s, Consume(s.headers[t].next, e)), u, s.headers[t].next)
  {
    hide Inv, Enabled, Apply, MatchesAny, C.Enabled, C.Apply, C.ReplyOf;
    var p := s.headers[t].next;
    var s' := Apply(s, Consume(p, e));
    ConsumeKeepsInv(s, p, e);
    TakenFrom(s, t, e);
    u := RoomIsUsed(s', t, p);
  }

  lemma TakenFrom(s: State, t: C.Tid, e: C.Event<Frame>)
    requires Inv(s) && t in s.headers && BlockedOnFull(s, t) && (e.RecvPass? || e.TryRecv?)
    requires Enabled(s, Consume(s.headers[t].next, e))
    ensures var p := s.headers[t].next;
      var s' := Apply(s, Consume(p, e));
      && !s'.closed && p < |s'.ports| && |s'.ports[p].chan.buf| < s'.ports[p].chan.capacity
      && t in s'.ports[p].chan.waiters && s'.ports[p].chan.waiters[t].item.Some?
  {
    hide CounterInv, OfferInv, MatchesAny, C.CanNotify;
    var p := s.headers[t].next;
    UsableChannel(s, p);
    assert HeaderInv(s, t) && PortInv(s, p);
    var c := s.ports[p].chan;
    WaitersAfter(c, e);
    BlockedSender(s, t);
  }

  lemma BlockedSender(s: State, t: C.Tid)
    requires Inv(s) && t in s.headers && BlockedOnFull(s, t)
    ensures s.ports[s.headers[t].next].chan.waiters[t].item.Some?
  {
    assert PortInv(s, s.headers[t].next);
  }

  /** Beside a buffered item no receiver is forgotten: one of them has been woken, and its next step takes
      the item. */
  lemma ReceiverIsServed(s: State, p: nat, r: C.Tid) returns (u: C.Tid)
    requires Inv(s) && p < |s.ports| && Receiving(s.ports[p].chan, r) && s.ports[p].chan.buf != []
    ensures Takes(s, u, p)
  {
    hide MatchesAny, CounterInv, OfferInv, C.CanNotify;
    assert PortInv(s, p);
    var c := s.ports[p].chan;
    u := r;
    if !c.waiters[r].woken {
      C.QueuedMeansServed(c, r);
      u :| u in c.waiters && C.Proceeds(c, u, C.NotEmpty);
    }
  }

  // ---- The law ----

  /** No header can take its next step, and no receiver can take an item from a subscriber where one waits. */
  ghost predicate Stuck(s: State) {
    && (forall t :: t in s.headers ==> !Enabled(s, NextOf(s, t)))
    && (forall t, r: C.Tid :: t in s.headers && s.headers[t].next < |s.ports| ==> !Takes(s, r, s.headers[t].next))
  }

  /** In every reachable state the headers in progress are stuck if and only if every one of them waits at
      the full channel of a Block subscriber that nobody is receiving from. */
  lemma StuckIff(states: seq<State>, events: seq<Event>, n: nat)
    requires IsRun(states, events) && n <= |events|
    ensures Stuck(states[n]) <==> forall t :: t in states[n].headers ==> Abandoned(states[n], t)
  {
    hide Inv, Enabled, Apply, BlockedOnFull, Takes, Receiving;
    RunInv(states, events, n);
    var s := states[n];
    if Stuck(s) {
      StuckOnlyOnFullBlock(s);
      forall t | t in s.headers ensures Abandoned(s, t) {
        StuckIsAbandoned(s, t);
      }
    }
    if forall t :: t in s.headers ==> Abandoned(s, t) {
      forall t | t in s.headers
        ensures !Enabled(s, NextOf(s, t))
        ensures forall r: C.Tid :: s.headers[t].next < |s.ports| ==> !Takes(s, r, s.headers[t].next)
      {
        AbandonedIsStuck(s, t);
      }
    }
  }

  lemma StuckIsAbandoned(s: State, t: C.Tid)
    requires Inv(s) && t in s.headers && BlockedOnFull(s, t)
    requires forall r: C.Tid :: s.headers[t].next < |s.ports| ==> !Takes(s, r, s.headers[t].next)
    ensures Abandoned(s, t)
  {
    hide Inv, Takes;
    var p := s.headers[t].next;
    UsableChannel(s, p);
    if r: C.Tid :| Receiving(s.ports[p].chan, r) {
      var u := ReceiverIsServed(s, p, r);
      assert false;
    }
  }

  lemma AbandonedIsStuck(s: State, t: C.Tid)
    requires Inv(s) && t in s.headers && Abandoned(s, t)
    ensures !Enabled(s, NextOf(s, t))
    ensures forall r: C.Tid :: !Takes(s, r, s.headers[t].next)
  {
    hide PortInv, CounterInv, C.CanNotify;
    NotWaitingElsewhere(s, t, s.headers[t].next);
  }

  /** With one receive at any of those subscribers a header goes on. */
  lemma OneReceiveSuffices(states: seq<State>, events: seq<Event>, n: nat, t: C.Tid, e: C.Event<Frame>) returns (u: C.Tid)
    requires IsRun(states, events) && n <= |events|
    requires t in states[n].headers && BlockedOnFull(states[n], t) && (e.RecvPass? || e.TryRecv?)
    requires Enabled(states[n], Consume(states[n].headers[t].next, e))
    ensures Delivers(Apply(states[n], Consume(states[n].headers[t].next, e)), u, states[n].headers[t].next)
  {
    hide Inv, Enabled, Apply, BlockedOnFull, Delivers;
    RunInv(states, events, n);
    u := ReceiveFrees(states[n], t, e);
  }
}
