/** Back-pressure policies over a channel: which call a sender makes and what it leads to. */
module Delivery {
  import opened Wrappers
  import C = Channel

  datatype Policy = DropNewest | DropOldest | Block

  /** One delivery attempt: the item, what the channel answered, and how full its buffer was. */
  datatype Try<T> = Try(item: T, result: C.SendResult, level: nat)

  /** The counter a delivery attempt still has to increment. */
  datatype Count = Delivered | Dropped | Nothing

  const DEFAULT_DEPTH: nat := 64

  function EffectiveDepth(depth: int): (d: nat)
    ensures d >= 1
  {
    if depth > 0 then depth else DEFAULT_DEPTH
  }

  /** The channel call for a frame under a policy. */
  function CallFor<T>(policy: Policy, t: C.Tid, v: T, choice: Option<C.Tid>): C.Event<T> {
    match policy
    case DropNewest => C.TrySend(v, choice)
    case DropOldest => C.SendDropOldest(v, choice)
    case Block => C.SendPass(t, v, choice)
  }

  /** Which counter the channel's answer leads to.  Block counts a delivery whatever send returned. */
  function CountFor(policy: Policy, result: C.SendResult): Count {
    match policy
    case DropNewest => if result == C.Ok then Delivered else if result == C.Full then Dropped else Nothing
    case DropOldest => if result == C.Evicted then Dropped else if result == C.Ok then Delivered else Nothing
    case Block => Delivered
  }

  predicate IsConsumerEvent<T>(e: C.Event<T>) {
    e.RecvPass? || e.TryRecv? || e.SpuriousWakeup?
  }

  function Pushed<T>(tries: seq<Try<T>>): seq<T> {
    if tries == [] then []
    else
      var rest, last := Pushed(tries[..|tries| - 1]), tries[|tries| - 1];
      if last.result == C.Ok || last.result == C.Evicted then rest + [last.item] else rest
  }

  function Tried<T>(tries: seq<Try<T>>): (items: seq<T>)
    ensures |items| == |tries|
  {
    seq(|tries|, i requires 0 <= i < |tries| => tries[i].item)
  }

  /** How many attempts led to this counter. */
  function CountTries<T>(tries: seq<Try<T>>, policy: Policy, n: Count): nat {
    if tries == [] then 0
    else CountTries(tries[..|tries| - 1], policy, n)
         + (if CountFor(policy, tries[|tries| - 1].result) == n then 1 else 0)
  }

  /** Items that left a channel in this way. */
  function CountFate<T>(removed: seq<C.Removal<T>>, fate: C.Fate): nat {
    if removed == [] then 0
    else CountFate(removed[..|removed| - 1], fate) + (if removed[|removed| - 1].fate == fate then 1 else 0)
  }

  // ---- What one channel step does ----

  /** The thread that a channel event may put into, or take out of, a wait. */
  function Actor<T>(e: C.Event<T>): Option<C.Tid> {
    match e
    case SendPass(t, _, _) => Some(t)
    case RecvPass(t, _) => Some(t)
    case _ => None
  }

  /** Apart from the acting thread, nobody enters or leaves a wait or changes its item. */
  lemma WaitersAfter<T>(c: C.Chan<T>, e: C.Event<T>)
    requires C.Enabled(c, e)
    ensures forall u :: Some(u) != Actor(e) ==>
      && (u in C.Apply(c, e).waiters <==> u in c.waiters)
      && (u in c.waiters ==> C.Apply(c, e).waiters[u].item == c.waiters[u].item)
    ensures Actor(e).Some? ==>
      && (Actor(e).value in C.Apply(c, e).waiters <==> C.ReplyOf(c, e) == C.Waits)
      && (C.ReplyOf(c, e) == C.Waits ==>
           C.Apply(c, e).waiters[Actor(e).value].item == if e.SendPass? then Some(e.v) else None)
  {
  }

  lemma AfterSend<T>(c: C.Chan<T>, e: C.Event<T>)
    requires C.Enabled(c, e) && C.Ledger(c) && !c.closed
    requires e.TrySend? || e.SendDropOldest? || e.SendPass?
    ensures var c', r := C.Apply(c, e), C.ReplyOf(c, e);
      && c'.capacity == c.capacity && c'.closed == c.closed
      && (r == C.Waits ==> e.SendPass? && |c.buf| == c.capacity)
      && (r == C.Waits || r == C.Sent(C.Full) ==>
           c'.buf == c.buf && c'.pushed == c.pushed && c'.removed == c.removed)
      && (r != C.Waits ==> r.Sent? && r.result != C.Closed)
      && (r == C.Sent(C.Full) ==> e.TrySend? && |c.buf| == c.capacity)
      && (r == C.Sent(C.Ok) ==>
           && |c.buf| < c.capacity
           && c'.buf == c.buf + [e.v] && c'.pushed == c.pushed + [e.v] && c'.removed == c.removed)
      && (r == C.Sent(C.Evicted) ==>
           && e.SendDropOldest? && |c.buf| == c.capacity
           && c'.buf == c.buf[1..] + [e.v] && c'.pushed == c.pushed + [e.v]
           && c'.removed == c.removed + [C.Removal(c.buf[0], C.Dropped)])
  {
    hide C.CanNotify, C.Notify;
  }

  lemma AfterConsume<T>(c: C.Chan<T>, e: C.Event<T>)
    requires C.Enabled(c, e) && IsConsumerEvent(e)
    ensures var c' := C.Apply(c, e);
      && c'.capacity == c.capacity && c'.closed == c.closed && c'.pushed == c.pushed
      && (|| (c'.buf == c.buf && c'.removed == c.removed)
          || (c.buf != [] && c'.buf == c.buf[1..] && c'.removed == c.removed + [C.Removal(c.buf[0], C.Received)]))
  {
    hide C.CanNotify, C.Notify;
  }

  lemma {:induction false} AllReceived<T>(removed: seq<C.Removal<T>>)
    ensures CountFate(removed, C.Received) <= |removed|
    ensures CountFate(removed, C.Received) == |removed| ==>
            forall i :: 0 <= i < |removed| ==> removed[i].fate == C.Received
  {
    if removed != [] {
      AllReceived(removed[..|removed| - 1]);
    }
  }

  // ---- One offer ----

  /** The channel and the record of attempts after the call, and what it returned. */
  function OfferItem<T(==)>(policy: Policy, chan: C.Chan<T>, tries: seq<Try<T>>, t: C.Tid, v: T,
                            choice: Option<C.Tid>): (C.Chan<T>, seq<Try<T>>, C.Reply<T>)
    requires C.Enabled(chan, CallFor(policy, t, v, choice))
  {
    var call := CallFor(policy, t, v, choice);
    var reply := C.ReplyOf(chan, call);
    (C.Apply(chan, call),
     if reply.Sent? then tries + [Try(v, reply.result, |chan.buf|)] else tries,
     reply)
  }

  /** An attempt on an open channel: refused only under DropNewest, evicting only under DropOldest, and
      either only when the buffer was full. */
  ghost predicate TryInv<T>(policy: Policy, capacity: nat, t: Try<T>) {
    && CountFor(policy, t.result) != Nothing
    && t.result != C.Closed
    && (t.result == C.Full ==> policy == DropNewest && t.level == capacity)
    && (t.result == C.Evicted ==> policy == DropOldest && t.level == capacity)
  }

  /** The channel holds what the attempts pushed, and deliveries are what was received or is buffered. */
  ghost predicate OutletInv<T>(policy: Policy, chan: C.Chan<T>, tries: seq<Try<T>>, closed: bool) {
    && C.Ledger(chan) && C.WakeupInv(chan)
    && chan.closed == closed
    && chan.pushed == Pushed(tries)
    && (forall i :: 0 <= i < |tries| ==> TryInv(policy, chan.capacity, tries[i]))
    && CountTries(tries, policy, Delivered) == CountFate(chan.removed, C.Received) + |chan.buf|
  }

  /** Only Block waits, and what comes back leads to one of the two counters. */
  lemma OfferItemReply<T>(policy: Policy, chan: C.Chan<T>, tries: seq<Try<T>>, t: C.Tid, v: T,
                          choice: Option<C.Tid>)
    requires OutletInv(policy, chan, tries, false) && C.Enabled(chan, CallFor(policy, t, v, choice))
    ensures var r := OfferItem(policy, chan, tries, t, v, choice).2;
      && (r == C.Waits ==> policy == Block && |chan.buf| == chan.capacity)
      && (r != C.Waits ==> r.Sent? && CountFor(policy, r.result) != Nothing)
  {
    hide C.Apply, C.Enabled, C.ReplyOf;
    AfterSend(chan, CallFor(policy, t, v, choice));
  }

  lemma OfferKeepsOutlet<T>(policy: Policy, chan: C.Chan<T>, tries: seq<Try<T>>, t: C.Tid, v: T,
                            choice: Option<C.Tid>)
    requires OutletInv(policy, chan, tries, false) && C.Enabled(chan, CallFor(policy, t, v, choice))
    ensures var (chan', tries', _) := OfferItem(policy, chan, tries, t, v, choice);
            OutletInv(policy, chan', tries', false)
  {
    hide C.Apply, C.Enabled, C.ReplyOf, C.WakeupInv;
    var call := CallFor(policy, t, v, choice);
    var (chan', tries', r) := OfferItem(policy, chan, tries, t, v, choice);
    C.StepKeepsLedger(chan, call);
    C.StepKeepsWakeups(chan, call);
    AfterSend(chan, call);
    if r.Sent? {
      assert tries'[..|tries|] == tries;
      assert TryInv(policy, chan.capacity, Try(v, r.result, |chan.buf|));
      if r.result == C.Evicted {
        assert chan'.removed[..|chan.removed|] == chan.removed;
      }
    }
  }

  lemma ConsumeKeepsOutlet<T>(policy: Policy, chan: C.Chan<T>, tries: seq<Try<T>>, e: C.Event<T>, closed: bool)
    requires OutletInv(policy, chan, tries, closed) && C.Enabled(chan, e) && IsConsumerEvent(e)
    ensures OutletInv(policy, C.Apply(chan, e), tries, closed)
  {
    hide C.Apply, C.Enabled, C.WakeupInv;
    var chan' := C.Apply(chan, e);
    C.StepKeepsLedger(chan, e);
    C.StepKeepsWakeups(chan, e);
    AfterConsume(chan, e);
    if chan'.removed != chan.removed {
      assert chan'.removed[..|chan.removed|] == chan.removed;
    }
  }

  lemma CloseKeepsOutlet<T>(policy: Policy, chan: C.Chan<T>, tries: seq<Try<T>>, closed: bool)
    requires OutletInv(policy, chan, tries, closed)
    ensures C.Enabled(chan, C.Event.Close)
    ensures OutletInv(policy, C.Apply(chan, C.Event.Close), tries, true)
  {
    C.StepKeepsWakeups(chan, C.Event.Close);
  }
}
