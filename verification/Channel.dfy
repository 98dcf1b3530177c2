/** The bounded channel of include/lin/channel.hpp: its critical sections as steps of many threads. */
module Channel {
  import opened Wrappers


  type Tid = nat

  datatype SendResult = Ok | Full | Closed | Evicted

  /** A thread inside a condition-variable wait.  A sender waits on cv_not_full_ with the item it wants to
      push, a receiver on cv_not_empty_.  It is `woken` once a notification, or a spurious wakeup, has
      taken it off the condition variable's queue but it has not re-taken the mutex yet. */
  datatype Waiter<T> = Waiter(item: Option<T>, woken: bool)

  datatype Fate = Received | Dropped

  /** An item that left the buffer, and how. */
  datatype Removal<T> = Removal(item: T, fate: Fate)

  /** `pushed` and `removed` are the ledger; the other fields are the channel's own. */
  datatype Chan<T> = Chan(
    buf: seq<T>, capacity: nat, closed: bool,
    waiters: map<Tid, Waiter<T>>,
    pushed: seq<T>, removed: seq<Removal<T>>)

  function Create<T>(capacity: nat): Chan<T> {
    Chan([], capacity, false, map[], [], [])
  }

  // ---- Condition variables ----

  /** The two condition variables: cv_not_empty_ for receivers, cv_not_full_ for senders. */
  datatype Side = NotEmpty | NotFull

  function SideOf<T>(w: Waiter<T>): Side {
    if w.item.None? then NotEmpty else NotFull
  }

  /** Threads still queued on the condition variable. */
  function Queued<T>(waiters: map<Tid, Waiter<T>>, side: Side): set<Tid> {
    set t | t in waiters && SideOf(waiters[t]) == side && !waiters[t].woken
  }

  /** Threads taken off it that have not resumed. */
  function Woken<T>(waiters: map<Tid, Waiter<T>>, side: Side): set<Tid> {
    set t | t in waiters && SideOf(waiters[t]) == side && waiters[t].woken
  }

  /** notify_one takes any one queued thread off the queue, and does nothing when there is none. */
  predicate CanNotify<T>(waiters: map<Tid, Waiter<T>>, side: Side, choice: Option<Tid>) {
    match choice
    case Some(t) => t in Queued(waiters, side)
    case None => Queued(waiters, side) == {}
  }

  function Notify<T>(waiters: map<Tid, Waiter<T>>, choice: Option<Tid>): map<Tid, Waiter<T>>
    requires choice.Some? ==> choice.value in waiters
  {
    match choice
    case Some(t) => waiters[t := waiters[t].(woken := true)]
    case None => waiters
  }

  function NotifyAll<T>(waiters: map<Tid, Waiter<T>>): map<Tid, Waiter<T>> {
    map t | t in waiters :: waiters[t].(woken := true)
  }

  // ---- Critical sections ----

  /** push_back and notify a receiver. */
  function Push<T>(c: Chan<T>, v: T, choice: Option<Tid>): Chan<T>
    requires CanNotify(c.waiters, NotEmpty, choice)
  {
    c.(buf := c.buf + [v], pushed := c.pushed + [v], waiters := Notify(c.waiters, choice))
  }

  /** Takes the front item out. */
  function Take<T>(c: Chan<T>, fate: Fate): Chan<T>
    requires c.buf != []
  {
    c.(buf := c.buf[1..], removed := c.removed + [Removal(c.buf[0], fate)])
  }

  /** pop_front and notify a sender. */
  function Pop<T>(c: Chan<T>, choice: Option<Tid>): Chan<T>
    requires c.buf != [] && CanNotify(c.waiters, NotFull, choice)
  {
    Take(c, Received).(waiters := Notify(c.waiters, choice))
  }

  /** What the threads do.  `choice` resolves which queued thread a notification takes. */
  datatype Event<T> =
    | SendPass(t: Tid, v: T, choice: Option<Tid>)   // send: one test of the wait predicate
    | TrySend(v: T, choice: Option<Tid>)
    | SendDropOldest(v: T, choice: Option<Tid>)
    | RecvPass(t: Tid, choice: Option<Tid>)         // recv: one test of the wait predicate
    | TryRecv(choice: Option<Tid>)
    | Close
    | SpuriousWakeup(t: Tid)

  /** A thread calls send or recv anew, or holds the mutex again after being woken there. */
  predicate MayRun<T(==)>(c: Chan<T>, t: Tid, item: Option<T>) {
    t in c.waiters ==> c.waiters[t] == Waiter(item, true)
  }

  function Leave<T>(c: Chan<T>, t: Tid): Chan<T> {
    c.(waiters := c.waiters - {t})
  }

  function Enqueue<T>(c: Chan<T>, t: Tid, item: Option<T>): Chan<T> {
    c.(waiters := c.waiters[t := Waiter(item, false)])
  }

  predicate Enabled<T(==)>(c: Chan<T>, e: Event<T>) {
    1 <= c.capacity &&
    match e
    case SendPass(t, v, choice) => MayRun(c, t, Some(v)) && CanNotify(c.waiters, NotEmpty, choice)
    case TrySend(v, choice) => CanNotify(c.waiters, NotEmpty, choice)
    case SendDropOldest(v, choice) => CanNotify(c.waiters, NotEmpty, choice)
    case RecvPass(t, choice) => MayRun(c, t, None) && CanNotify(c.waiters, NotFull, choice)
    case TryRecv(choice) => CanNotify(c.waiters, NotFull, choice)
    case Close => true
    case SpuriousWakeup(t) => t in c.waiters
  }

  function Apply<T(==)>(c: Chan<T>, e: Event<T>): Chan<T>
    requires Enabled(c, e)
  {
    match e
    case SendPass(t, v, choice) =>
      if c.closed then Leave(c, t)
      else if |c.buf| < c.capacity then Leave(Push(c, v, choice), t)
      else Enqueue(c, t, Some(v))
    case TrySend(v, choice) =>
      if c.closed || |c.buf| >= c.capacity then c else Push(c, v, choice)
    case SendDropOldest(v, choice) =>
      if c.closed then c
      else if |c.buf| >= c.capacity then Push(Take(c, Dropped), v, choice)
      else Push(c, v, choice)
    case RecvPass(t, choice) =>
      if c.buf != [] then Leave(Pop(c, choice), t)
      else if c.closed then Leave(c, t)
      else Enqueue(c, t, None)
    case TryRecv(choice) =>
      if c.buf == [] then c else Pop(c, choice)
    case Close =>
      c.(closed := true, waiters := NotifyAll(c.waiters))
    case SpuriousWakeup(t) =>
      c.(waiters := Notify(c.waiters, Some(t)))
  }

  /** What the call returns, or that the thread now waits. */
  datatype Reply<T> = Waits | Sent(result: SendResult) | Got(item: Option<T>) | Done

  function ReplyOf<T(==)>(c: Chan<T>, e: Event<T>): Reply<T>
    requires Enabled(c, e)
  {
    match e
    case SendPass(t, v, choice) =>
      if c.closed then Sent(Closed) else if |c.buf| < c.capacity then Sent(Ok) else Waits
    case TrySend(v, choice) =>
      if c.closed then Sent(Closed) else if |c.buf| >= c.capacity then Sent(Full) else Sent(Ok)
    case SendDropOldest(v, choice) =>
      if c.closed then Sent(Closed) else if |c.buf| >= c.capacity then Sent(Evicted) else Sent(Ok)
    case RecvPass(t, choice) =>
      if c.buf != [] then Got(Some(c.buf[0])) else if c.closed then Got(None) else Waits
    case TryRecv(choice) =>
      if c.buf == [] then Got(None) else Got(Some(c.buf[0]))
    case Close => Done
    case SpuriousWakeup(t) => Done
  }

  // ---- Ledger ----

  function Items<T>(removed: seq<Removal<T>>): (items: seq<T>)
    ensures |items| == |removed|
    ensures forall i :: 0 <= i < |items| ==> items[i] == removed[i].item
  {
    seq(|removed|, i requires 0 <= i < |removed| => removed[i].item)
  }

  /** Nothing is lost, invented or reordered: what was removed, followed by the buffer, is what was pushed. */
  ghost predicate Ledger<T>(c: Chan<T>) {
    && c.pushed == Items(c.removed) + c.buf
    && |c.buf| <= c.capacity
    && 1 <= c.capacity
  }

  lemma StepKeepsLedger<T>(c: Chan<T>, e: Event<T>)
    requires Ledger(c) && Enabled(c, e)
    ensures Ledger(Apply(c, e))
  {
    hide CanNotify, Notify;
    var c' := Apply(c, e);
    if |c'.removed| > |c.removed| {
      assert Items(c'.removed) == Items(c.removed) + [c.buf[0]];
      assert c.buf == [c.buf[0]] + c.buf[1..];
    }
  }

  /** A step takes out at most one item, from the front; it is evicted only to make room in a full, open
      channel. */
  lemma RemovalStep<T>(c: Chan<T>, e: Event<T>)
    requires Ledger(c) && Enabled(c, e)
    ensures var c' := Apply(c, e);
      && c'.capacity == c.capacity
      && (|| c'.removed == c.removed
          || (&& c.buf != []
              && (|| (c'.removed == c.removed + [Removal(c.buf[0], Received)] && (e.RecvPass? || e.TryRecv?))
                  || (&& c'.removed == c.removed + [Removal(c.buf[0], Dropped)]
                      && e.SendDropOldest? && !c.closed && |c.buf| == c.capacity))))
  {
    hide CanNotify, Notify;
  }

  /** What left after `before` did so through a receive. */
  ghost predicate OnlyReceivedSince<T>(before: seq<Removal<T>>, after: seq<Removal<T>>) {
    && |before| <= |after| && after[..|before|] == before
    && forall i :: |before| <= i < |after| ==> after[i].fate == Received
  }

  // ---- No lost wakeup ----

  /** How many threads of this side could proceed at once. */
  function Available<T>(c: Chan<T>, side: Side): int {
    if side == NotEmpty then |c.buf| else c.capacity - |c.buf|
  }

  /** While a thread is queued, enough others are already on their way to use up whatever is available. */
  ghost predicate Covered<T>(c: Chan<T>, side: Side) {
    Queued(c.waiters, side) != {} ==> Available(c, side) <= |Woken(c.waiters, side)|
  }

  ghost predicate WakeupInv<T>(c: Chan<T>) {
    && Covered(c, NotEmpty)
    && Covered(c, NotFull)
    && (c.closed ==> Queued(c.waiters, NotEmpty) == {} && Queued(c.waiters, NotFull) == {})
  }

  lemma NotifyCounts<T>(waiters: map<Tid, Waiter<T>>, side: Side, other: Side, choice: Option<Tid>)
    requires CanNotify(waiters, side, choice) && other != side
    ensures choice.Some? ==> choice.value in waiters
    ensures var after := Notify(waiters, choice);
            && (forall t :: t in waiters && waiters[t].woken ==> t in after && after[t] == waiters[t])
            && (forall t :: t in after ==> t in waiters)
            && Queued(after, other) == Queued(waiters, other)
            && Woken(after, other) == Woken(waiters, other)
            && Queued(after, side) <= Queued(waiters, side)
            && (Queued(after, side) != {} ==> |Woken(after, side)| == |Woken(waiters, side)| + 1)
  {
    var after := Notify(waiters, choice);
    if choice.Some? {
      var t := choice.value;
      NotifySets(waiters, side, other, t);
      hide Queued, Woken, SideOf;
      assert t !in Woken(waiters, side);
    } else {
      assert after == waiters && Queued(after, side) == {};
    }
  }

  lemma NotifySets<T>(waiters: map<Tid, Waiter<T>>, side: Side, other: Side, t: Tid)
    requires t in Queued(waiters, side) && other != side
    ensures var after := Notify(waiters, Some(t));
            && Queued(after, other) == Queued(waiters, other) && Woken(after, other) == Woken(waiters, other)
            && Queued(after, side) <= Queued(waiters, side)
            && t !in Woken(waiters, side) && Woken(after, side) == Woken(waiters, side) + {t}
  {
  }

  /** Removing a woken or absent thread takes at most one off the woken ones of its side. */
  lemma LeaveCounts<T>(waiters: map<Tid, Waiter<T>>, t: Tid, side: Side, other: Side)
    requires t in waiters ==> waiters[t].woken && SideOf(waiters[t]) == side
    requires other != side
    ensures var after := waiters - {t};
            && Queued(after, side) == Queued(waiters, side)
            && Queued(after, other) == Queued(waiters, other)
            && Woken(after, other) == Woken(waiters, other)
            && |Woken(after, side)| >= |Woken(waiters, side)| - 1
  {
    assert Woken(waiters - {t}, side) == Woken(waiters, side) - {t};
    assert Woken(waiters - {t}, other) == Woken(waiters, other);
  }

  lemma EnqueueCounts<T>(waiters: map<Tid, Waiter<T>>, t: Tid, item: Option<T>, other: Side)
    requires t in waiters ==> waiters[t] == Waiter(item, true)
    requires other != SideOf(Waiter(item, false))
    ensures var after := waiters[t := Waiter(item, false)];
            && Queued(after, other) == Queued(waiters, other)
            && Woken(after, other) == Woken(waiters, other)
  {
  }

  lemma NotifyAllEmpties<T>(waiters: map<Tid, Waiter<T>>, side: Side)
    ensures Queued(NotifyAll(waiters), side) == {}
  {
  }

  lemma SpuriousCounts<T>(waiters: map<Tid, Waiter<T>>, t: Tid, side: Side)
    requires t in waiters
    ensures var after := Notify(waiters, Some(t));
            && Queued(after, side) <= Queued(waiters, side)
            && |Woken(after, side)| >= |Woken(waiters, side)|
  {
    var after := Notify(waiters, Some(t));
    if waiters[t].woken {
      assert after == waiters;
    } else if SideOf(waiters[t]) == side {
      assert Woken(after, side) == Woken(waiters, side) + {t};
    } else {
      assert Woken(after, side) == Woken(waiters, side);
    }
  }

  lemma StepKeepsWakeups<T>(c: Chan<T>, e: Event<T>)
    requires Ledger(c) && WakeupInv(c) && Enabled(c, e)
    ensures WakeupInv(Apply(c, e))
  {
    hide Queued, Woken, Notify, NotifyAll, CanNotify;
    match e {
      case SendPass(t, v, choice) =>
        NotifyCounts(c.waiters, NotEmpty, NotFull, choice);
        LeaveCounts(c.waiters, t, NotFull, NotEmpty);
        LeaveCounts(Notify(c.waiters, choice), t, NotFull, NotEmpty);
        EnqueueCounts(c.waiters, t, Some(v), NotEmpty);
      case TrySend(v, choice) =>
        NotifyCounts(c.waiters, NotEmpty, NotFull, choice);
      case SendDropOldest(v, choice) =>
        NotifyCounts(c.waiters, NotEmpty, NotFull, choice);
      case RecvPass(t, choice) =>
        NotifyCounts(c.waiters, NotFull, NotEmpty, choice);
        LeaveCounts(c.waiters, t, NotEmpty, NotFull);
        LeaveCounts(Notify(c.waiters, choice), t, NotEmpty, NotFull);
        EnqueueCounts(c.waiters, t, None, NotFull);
      case TryRecv(choice) =>
        NotifyCounts(c.waiters, NotFull, NotEmpty, choice);
      case Close =>
        NotifyAllEmpties(c.waiters, NotEmpty);
        NotifyAllEmpties(c.waiters, NotFull);
      case SpuriousWakeup(t) =>
        SpuriousCounts(c.waiters, t, NotEmpty);
        SpuriousCounts(c.waiters, t, NotFull);
    }
  }

  /** Whom a step wakes: a successful send one queued receiver if there is one, a successful receive one
      queued sender, close everybody.  Nobody else leaves a queue, but for a spurious wakeup. */
  lemma StepWakes<T>(c: Chan<T>, e: Event<T>)
    requires Ledger(c) && Enabled(c, e) && !e.SpuriousWakeup?
    ensures var c', r := Apply(c, e), ReplyOf(c, e);
      var receivers, senders := Queued(c.waiters, NotEmpty), Queued(c.waiters, NotFull);
      var receivers', senders' := Queued(c'.waiters, NotEmpty), Queued(c'.waiters, NotFull);
      && (e.Close? ==> receivers' == {} && senders' == {})
      && (r == Sent(Ok) || r == Sent(Evicted) ==>
           senders' == senders && receivers' <= receivers && |receivers'| == if receivers == {} then 0 else |receivers| - 1)
      && (r.Got? && r.item.Some? ==>
           receivers' == receivers && senders' <= senders && |senders'| == if senders == {} then 0 else |senders| - 1)
      && (r == Waits ==>
           && receivers' == (if e.RecvPass? then receivers + {e.t} else receivers)
           && senders' == (if e.SendPass? then senders + {e.t} else senders))
      && (r == Sent(Full) || r == Sent(Closed) || r == Got(None) ==> receivers' == receivers && senders' == senders)
  {
    hide Notify, CanNotify, Queued, Ledger, SideOf;
    assert |c.buf| <= c.capacity by { LedgerFits(c); }
    match e {
      case SendPass(t, v, choice) =>
        NotifyTakesOne(c.waiters, NotEmpty, NotFull, choice);
        LeavesQueues(Notify(c.waiters, choice), t);
        LeavesQueues(c.waiters, t);
        EntersQueue(c.waiters, t, Some(v));
      case TrySend(v, choice) => NotifyTakesOne(c.waiters, NotEmpty, NotFull, choice);
      case SendDropOldest(v, choice) => NotifyTakesOne(c.waiters, NotEmpty, NotFull, choice);
      case RecvPass(t, choice) =>
        NotifyTakesOne(c.waiters, NotFull, NotEmpty, choice);
        LeavesQueues(Notify(c.waiters, choice), t);
        LeavesQueues(c.waiters, t);
        EntersQueue(c.waiters, t, None);
      case TryRecv(choice) => NotifyTakesOne(c.waiters, NotFull, NotEmpty, choice);
      case Close =>
        NotifyAllEmpties(c.waiters, NotEmpty);
        NotifyAllEmpties(c.waiters, NotFull);
    }
  }

  lemma LedgerFits<T>(c: Chan<T>)
    requires Ledger(c)
    ensures |c.buf| <= c.capacity
  {
  }

  lemma NotifyTakesOne<T>(waiters: map<Tid, Waiter<T>>, side: Side, other: Side, choice: Option<Tid>)
    requires CanNotify(waiters, side, choice) && other != side
    ensures choice.Some? ==> choice.value in waiters
    ensures var after := Notify(waiters, choice);
      && Queued(after, other) == Queued(waiters, other) && Queued(after, side) <= Queued(waiters, side)
      && |Queued(after, side)| == if Queued(waiters, side) == {} then 0 else |Queued(waiters, side)| - 1
    ensures forall t :: t in waiters && waiters[t].woken ==> Notify(waiters, choice)[t] == waiters[t]
    ensures forall t :: t in Notify(waiters, choice) <==> t in waiters
  {
    if choice.Some? {
      assert Queued(Notify(waiters, choice), side) == Queued(waiters, side) - {choice.value};
    }
  }

  /** A thread that was not queued leaves no queue, and enters only its own side's. */
  lemma LeavesQueues<T>(waiters: map<Tid, Waiter<T>>, t: Tid)
    requires t in waiters ==> waiters[t].woken
    ensures forall side :: Queued(waiters - {t}, side) == Queued(waiters, side)
  {
  }

  lemma EntersQueue<T>(waiters: map<Tid, Waiter<T>>, t: Tid, item: Option<T>)
    requires t in waiters ==> waiters[t].woken
    ensures var after := waiters[t := Waiter(item, false)];
      && Queued(after, NotEmpty) == Queued(waiters, NotEmpty) + (if item.None? then {t} else {})
      && Queued(after, NotFull) == Queued(waiters, NotFull) + (if item.Some? then {t} else {})
  {
  }

  // ---- Whole runs ----

  ghost predicate IsRun<T>(capacity: nat, states: seq<Chan<T>>, events: seq<Event<T>>)
    requires 1 <= capacity
  {
    && |states| == |events| + 1
    && states[0] == Create(capacity)
    && forall i :: 0 <= i < |events| ==>
         Enabled(states[i], events[i]) && states[i + 1] == Apply(states[i], events[i])
  }

  /** In every reachable state of any number of threads: the ledger balances, no wakeup has been lost, and
      after close nobody is left queued. */
  lemma {:induction false} RunInv<T>(capacity: nat, states: seq<Chan<T>>, events: seq<Event<T>>, n: nat)
    requires 1 <= capacity && IsRun(capacity, states, events) && n <= |events|
    ensures Ledger(states[n]) && WakeupInv(states[n])
  {
    hide Apply, Enabled;
    if n > 0 {
      hide Ledger, WakeupInv;
      RunInv(capacity, states, events, n - 1);
      StepKeepsLedger(states[n - 1], events[n - 1]);
      StepKeepsWakeups(states[n - 1], events[n - 1]);
    }
  }

  /** The step a woken thread takes when it runs. */
  ghost function Resume<T>(c: Chan<T>, t: Tid): Event<T>
    requires t in c.waiters
  {
    match c.waiters[t].item
    case Some(v) => SendPass(t, v, AnyChoice(c.waiters, NotEmpty))
    case None => RecvPass(t, AnyChoice(c.waiters, NotFull))
  }

  ghost function AnyChoice<T>(waiters: map<Tid, Waiter<T>>, side: Side): (choice: Option<Tid>)
    ensures CanNotify(waiters, side, choice)
  {
    if Queued(waiters, side) == {} then None else var t :| t in Queued(waiters, side); Some(t)
  }

  /** u has been woken on this side, and its next step completes its call. */
  ghost predicate Proceeds<T>(c: Chan<T>, u: Tid, side: Side)
    requires u in c.waiters && 1 <= c.capacity
  {
    && c.waiters[u].woken && SideOf(c.waiters[u]) == side
    && Enabled(c, Resume(c, u)) && ReplyOf(c, Resume(c, u)) != Waits
  }

  /** A queued receiver is never left beside a non-empty buffer, nor a queued sender beside a free slot:
      some thread of its side has been woken, and its next step completes. */
  lemma QueuedMeansServed<T>(c: Chan<T>, t: Tid)
    requires Ledger(c) && WakeupInv(c)
    requires t in c.waiters && !c.waiters[t].woken && Available(c, SideOf(c.waiters[t])) > 0
    ensures exists u: Tid :: u in c.waiters && Proceeds(c, u, SideOf(c.waiters[t]))
  {
    hide CanNotify;
    var side := SideOf(c.waiters[t]);
    assert t in Queued(c.waiters, side);
    assert |Woken(c.waiters, side)| > 0;
    var u :| u in Woken(c.waiters, side);
    assert Proceeds(c, u, side);
  }

  /** After close, every thread still inside a wait has been woken, and its next step returns: a sender
      with Closed, a receiver with what is left of the buffer, and once that is drained with nothing. */
  lemma ClosedDrains<T>(c: Chan<T>, u: Tid)
    requires Ledger(c) && WakeupInv(c) && c.closed && u in c.waiters
    ensures c.waiters[u].woken && Enabled(c, Resume(c, u))
    ensures ReplyOf(c, Resume(c, u)) == if c.waiters[u].item.Some? then Sent(Closed)
                                        else if c.buf == [] then Got(None) else Got(Some(c.buf[0]))
  {
    hide CanNotify;
    assert u !in Queued(c.waiters, SideOf(c.waiters[u]));
    assert Enabled(c, Resume(c, u));
  }

  /** In every run each removed item was the front of the buffer when it left: received through a receive,
      or evicted by a sender that found the channel open and full. */
  lemma {:induction false} RemovalsInRun<T>(capacity: nat, states: seq<Chan<T>>, events: seq<Event<T>>, n: nat, j: nat)
    returns (i: nat)
    requires 1 <= capacity && IsRun(capacity, states, events) && n <= |events| && j < |states[n].removed|
    ensures i < n && |states[i].removed| == j && states[i].buf != []
    ensures states[n].removed[j].item == states[i].buf[0]
    ensures states[n].removed[j].fate == Received ==> events[i].RecvPass? || events[i].TryRecv?
    ensures states[n].removed[j].fate == Dropped ==>
      events[i].SendDropOldest? && !states[i].closed && |states[i].buf| == states[i].capacity == capacity
  {
    hide Apply, Enabled, Ledger, WakeupInv;
    CapacityFixed(capacity, states, events, n - 1);
    RunInv(capacity, states, events, n - 1);
    RemovalStep(states[n - 1], events[n - 1]);
    i := n - 1;
    if j < |states[n - 1].removed| {
      i := RemovalsInRun(capacity, states, events, n - 1, j);
    }
  }

  lemma {:induction false} CapacityFixed<T>(capacity: nat, states: seq<Chan<T>>, events: seq<Event<T>>, n: nat)
    requires 1 <= capacity && IsRun(capacity, states, events) && n <= |events|
    ensures states[n].capacity == capacity
  {
    hide Apply, Enabled, Ledger, WakeupInv;
    if n > 0 {
      CapacityFixed(capacity, states, events, n - 1);
      RunInv(capacity, states, events, n - 1);
      RemovalStep(states[n - 1], events[n - 1]);
    }
  }

  lemma ClosedStep<T>(c: Chan<T>, e: Event<T>)
    requires c.closed && Enabled(c, e)
    ensures Apply(c, e).closed && Apply(c, e).pushed == c.pushed
    ensures OnlyReceivedSince(c.removed, Apply(c, e).removed)
  {
    hide CanNotify, Notify;
  }

  /** Once closed, a channel stays closed and nothing is pushed or evicted: only receives still take out
      what was left. */
  lemma {:induction false} ClosedForever<T>(capacity: nat, states: seq<Chan<T>>, events: seq<Event<T>>, m: nat, n: nat)
    requires 1 <= capacity && IsRun(capacity, states, events) && m <= n <= |events| && states[m].closed
    ensures states[n].closed && states[n].pushed == states[m].pushed
    ensures OnlyReceivedSince(states[m].removed, states[n].removed)
    ensures Items(states[n].removed) + states[n].buf == Items(states[m].removed) + states[m].buf
  {
    hide Apply, Enabled, Items;
    RunInv(capacity, states, events, m);
    RunInv(capacity, states, events, n);
    if m < n {
      ClosedForever(capacity, states, events, m, n - 1);
      ClosedStep(states[n - 1], events[n - 1]);
    }
  }

  // ---- What the calls return ----

  /** What left the channel through a receive, in order. */
  function ReceivedItems<T>(removed: seq<Removal<T>>): seq<T> {
    if removed == [] then []
    else
      var rest, last := ReceivedItems(removed[..|removed| - 1]), removed[|removed| - 1];
      if last.fate == Received then rest + [last.item] else rest
  }

  predicate IsSend<T>(e: Event<T>) {
    e.SendPass? || e.TrySend? || e.SendDropOldest?
  }

  /** A receive hands out the front item, and exactly what it hands out is removed as received; try_recv
      returns empty-handed if and only if the buffer is empty, recv if and only if the channel is closed as
      well, and it waits if and only if the channel is empty and open. */
  lemma ReceiveReplies<T>(c: Chan<T>, e: Event<T>)
    requires Enabled(c, e)
    ensures var c', r := Apply(c, e), ReplyOf(c, e);
      && (if r.Got? && r.item.Some? then
            && (e.RecvPass? || e.TryRecv?) && c.buf == [r.item.value] + c'.buf
            && c'.removed == c.removed + [Removal(r.item.value, Received)]
          else ReceivedItems(c'.removed) == ReceivedItems(c.removed))
      && (e.TryRecv? ==> r.Got? && (r.item.None? <==> c.buf == []))
      && (e.RecvPass? ==> (r.Got? || r == Waits) && (r == Waits <==> c.buf == [] && !c.closed)
                          && (r == Got(None) <==> c.buf == [] && c.closed))
  {
    hide CanNotify, Notify;
    var c' := Apply(c, e);
    if c'.removed != c.removed {
      assert c'.removed[..|c.removed|] == c.removed;
    }
  }

  /** A send pushes its item exactly when it reports success: it reports the closed channel, Full only from
      try_send and Evicted only from send_drop_oldest on a full one, and only send waits for room. */
  lemma SendReplies<T>(c: Chan<T>, e: Event<T>)
    requires Ledger(c) && Enabled(c, e)
    ensures var c', r := Apply(c, e), ReplyOf(c, e);
      var full := |c.buf| == c.capacity;
      && c'.pushed == (if r == Sent(Ok) || r == Sent(Evicted) then c.pushed + [ItemOf(e)] else c.pushed)
      && (IsSend(e) ==>
           && (r == Sent(Closed) <==> c.closed)
           && (r == Waits <==> !c.closed && full && e.SendPass?)
           && (r == Sent(Full) <==> !c.closed && full && e.TrySend?)
           && (r == Sent(Evicted) <==> !c.closed && full && e.SendDropOldest?)
           && (r == Sent(Ok) <==> !c.closed && !full))
      && (!IsSend(e) ==> !r.Sent?)
  {
    hide CanNotify, Notify;
  }

  /** The item that a send offers. */
  function ItemOf<T>(e: Event<T>): T
    requires IsSend(e)
  {
    e.v
  }

  /** What the receives of the first n steps handed out, in order. */
  function HandedOut<T(==)>(states: seq<Chan<T>>, events: seq<Event<T>>, n: nat): seq<T>
    requires n <= |events| <= |states| && forall i :: 0 <= i < |events| ==> Enabled(states[i], events[i])
  {
    if n == 0 then []
    else
      var rest := HandedOut(states, events, n - 1);
      match ReplyOf(states[n - 1], events[n - 1])
      case Got(Some(v)) => rest + [v]
      case _ => rest
  }

  /** What the sends of the first n steps reported as taken, in order. */
  function TakenIn<T(==)>(states: seq<Chan<T>>, events: seq<Event<T>>, n: nat): seq<T>
    requires n <= |events| <= |states| && forall i :: 0 <= i < |events| ==> Enabled(states[i], events[i])
  {
    if n == 0 then []
    else
      var rest, r := TakenIn(states, events, n - 1), ReplyOf(states[n - 1], events[n - 1]);
      if IsSend(events[n - 1]) && (r == Sent(Ok) || r == Sent(Evicted)) then rest + [ItemOf(events[n - 1])] else rest
  }

  /** In every run what the receives handed out, in order, is what left the channel as received, and what the
      sends reported as taken is what was pushed: so what went in is what came out, was evicted, or is still
      there. */
  lemma {:induction false} RepliesInRun<T>(capacity: nat, states: seq<Chan<T>>, events: seq<Event<T>>, n: nat)
    requires 1 <= capacity && IsRun(capacity, states, events) && n <= |events|
    ensures HandedOut(states, events, n) == ReceivedItems(states[n].removed)
    ensures TakenIn(states, events, n) == states[n].pushed == Items(states[n].removed) + states[n].buf
  {
    hide Enabled, Apply, ReplyOf, Items, WakeupInv;
    RunInv(capacity, states, events, n);
    if n > 0 {
      RepliesInRun(capacity, states, events, n - 1);
      RunInv(capacity, states, events, n - 1);
      ReceiveReplies(states[n - 1], events[n - 1]);
      SendReplies(states[n - 1], events[n - 1]);
      assert forall v: T :: (states[n - 1].removed + [Removal(v, Received)])[..|states[n - 1].removed|] == states[n - 1].removed;
    }
  }

  // ---- The methods ----

  /** c' follows from c by e, and both invariants hold again. */
  ghost predicate Step<T>(c: Chan<T>, e: Event<T>, c': Chan<T>) {
    Enabled(c, e) && c' == Apply(c, e) && Ledger(c') && WakeupInv(c')
  }

  class BoundedChannel<T(==)> {
    const capacity: nat
    var buf: seq<T>
    var closed: bool
    var waiters: map<Tid, Waiter<T>>
    ghost var pushed: seq<T>
    ghost var removed: seq<Removal<T>>

    ghost function State(): Chan<T>
      reads this
    {
      Chan(buf, capacity, closed, waiters, pushed, removed)
    }

    constructor (capacity: nat)
      requires 1 <= capacity
      ensures State() == Create(capacity) && Ledger(State()) && WakeupInv(State())
    {
      this.capacity := capacity;
      buf, closed, waiters, pushed, removed := [], false, map[], [], [];
    }

    method NotifyOne(side: Side) returns (ghost choice: Option<Tid>)
      modifies this`waiters
      ensures CanNotify(old(waiters), side, choice) && waiters == Notify(old(waiters), choice)
    {
      var queued := Queued(waiters, side);
      if queued == {} {
        choice := None;
      } else {
        var t :| t in queued;
        waiters := waiters[t := waiters[t].(woken := true)];
        choice := Some(t);
      }
    }

    /** One pass of send's wait loop; None means that the thread now waits. */
    method SendPass(t: Tid, v: T) returns (done: Option<bool>, ghost choice: Option<Tid>)
      requires Ledger(State()) && WakeupInv(State()) && MayRun(State(), t, Some(v))
      modifies this
      ensures Step(old(State()), Event.SendPass(t, v, choice), State())
      ensures ReplyOf(old(State()), Event.SendPass(t, v, choice)) ==
              if done.None? then Waits else Sent(if done.value then Ok else SendResult.Closed)
    {
      hide Queued, Woken, Notify, CanNotify, Ledger, WakeupInv;
      ghost var before := State();
      choice := AnyChoice(waiters, NotEmpty);
      assert 1 <= capacity by { LedgerCapacity(before); }
      if closed {
        waiters := waiters - {t};
        done := Some(false);
      } else if |buf| < capacity {
        buf, pushed := buf + [v], pushed + [v];
        choice := NotifyOne(NotEmpty);
        waiters := waiters - {t};
        done := Some(true);
      } else {
        waiters := waiters[t := Waiter(Some(v), false)];
        done := None;
      }
      StepKeepsLedger(before, Event.SendPass(t, v, choice));
      StepKeepsWakeups(before, Event.SendPass(t, v, choice));
    }

    method TrySend(v: T) returns (r: SendResult, ghost choice: Option<Tid>)
      requires Ledger(State()) && WakeupInv(State())
      modifies this
      ensures Step(old(State()), Event.TrySend(v, choice), State())
      ensures ReplyOf(old(State()), Event.TrySend(v, choice)) == Sent(r)
    {
      hide Queued, Woken, Notify, CanNotify, Ledger, WakeupInv;
      ghost var before := State();
      choice := AnyChoice(waiters, NotEmpty);
      assert 1 <= capacity by { LedgerCapacity(before); }
      if closed {
        r := SendResult.Closed;
      } else if |buf| >= capacity {
        r := Full;
      } else {
        buf, pushed := buf + [v], pushed + [v];
        choice := NotifyOne(NotEmpty);
        r := Ok;
      }
      StepKeepsLedger(before, Event.TrySend(v, choice));
      StepKeepsWakeups(before, Event.TrySend(v, choice));
    }

    method SendDropOldest(v: T) returns (r: SendResult, ghost choice: Option<Tid>)
      requires Ledger(State()) && WakeupInv(State())
      modifies this
      ensures Step(old(State()), Event.SendDropOldest(v, choice), State())
      ensures ReplyOf(old(State()), Event.SendDropOldest(v, choice)) == Sent(r)
    {
      hide Queued, Woken, Notify, CanNotify, Ledger, WakeupInv;
      ghost var before := State();
      choice := AnyChoice(waiters, NotEmpty);
      assert 1 <= capacity by { LedgerCapacity(before); }
      if closed {
        r := SendResult.Closed;
      } else {
        r := Ok;
        if |buf| >= capacity {
          removed := removed + [Removal(buf[0], Dropped)];
          buf := buf[1..];
          r := Evicted;
        }
        buf, pushed := buf + [v], pushed + [v];
        choice := NotifyOne(NotEmpty);
      }
      StepKeepsLedger(before, Event.SendDropOldest(v, choice));
      StepKeepsWakeups(before, Event.SendDropOldest(v, choice));
    }

    /** One pass of recv's wait loop; None means that the thread now waits. */
    method RecvPass(t: Tid) returns (done: Option<Option<T>>, ghost choice: Option<Tid>)
      requires Ledger(State()) && WakeupInv(State()) && MayRun(State(), t, None)
      modifies this
      ensures Step(old(State()), Event.RecvPass(t, choice), State())
      ensures ReplyOf(old(State()), Event.RecvPass(t, choice)) == if done.None? then Waits else Got(done.value)
      ensures done == if old(buf) != [] then Some(Some(old(buf)[0])) else if closed then Some(None) else None
    {
      hide Queued, Woken, Notify, CanNotify, Ledger, WakeupInv;
      ghost var before := State();
      choice := AnyChoice(waiters, NotFull);
      assert 1 <= capacity by { LedgerCapacity(before); }
      if buf != [] {
        done := Some(Some(buf[0]));
        removed := removed + [Removal(buf[0], Received)];
        buf := buf[1..];
        choice := NotifyOne(NotFull);
        waiters := waiters - {t};
      } else if closed {
        waiters := waiters - {t};
        done := Some(None);
      } else {
        waiters := waiters[t := Waiter(None, false)];
        done := None;
      }
      StepKeepsLedger(before, Event.RecvPass(t, choice));
      StepKeepsWakeups(before, Event.RecvPass(t, choice));
    }

    method TryRecv() returns (r: Option<T>, ghost choice: Option<Tid>)
      requires Ledger(State()) && WakeupInv(State())
      modifies this
      ensures Step(old(State()), Event.TryRecv(choice), State())
      ensures ReplyOf(old(State()), Event.TryRecv(choice)) == Got(r)
      ensures r == if old(buf) == [] then None else Some(old(buf)[0])
    {
      hide Queued, Woken, Notify, CanNotify, Ledger, WakeupInv;
      ghost var before := State();
      choice := AnyChoice(waiters, NotFull);
      assert 1 <= capacity by { LedgerCapacity(before); }
      if buf == [] {
        r := None;
      } else {
        r := Some(buf[0]);
        removed := removed + [Removal(buf[0], Received)];
        buf := buf[1..];
        choice := NotifyOne(NotFull);
      }
      StepKeepsLedger(before, Event.TryRecv(choice));
      StepKeepsWakeups(before, Event.TryRecv(choice));
    }

    method Close()
      requires Ledger(State()) && WakeupInv(State())
      modifies this
      ensures Step(old(State()), Event.Close, State())
    {
      hide Queued, Woken, Ledger, WakeupInv;
      ghost var before := State();
      assert 1 <= capacity by { LedgerCapacity(before); }
      closed := true;
      waiters := map t | t in waiters :: waiters[t].(woken := true);
      StepKeepsLedger(before, Event.Close);
      StepKeepsWakeups(before, Event.Close);
    }
  }

  lemma LedgerCapacity<T>(c: Chan<T>)
    requires Ledger(c)
    ensures 1 <= c.capacity
  {
  }
}
