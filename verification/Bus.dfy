/** The virtual bus of src/virtual/bus.cpp, as steps of many threads over its lock, its subscribers'
    channels and its counters. */
module Bus {
  import opened Wrappers
  import opened Bytes
  import opened Lin
  import opened Checksum
  import opened Delivery
  import C = Channel

  datatype Error = InvalidFrame | NoResponse | BusClosed

  datatype Filter = Filter(id: byte, all: bool)

  predicate Matches(filter: Filter, f: Frame) {
    filter.all || f.id == filter.id
  }

  predicate MatchesAny(filters: seq<Filter>, f: Frame) {
    filters == [] || exists i :: 0 <= i < |filters| && Matches(filters[i], f)
  }

  /** A subscription and its channel.  `since` is the length of the bus log when it was made, `tries` the
      delivery attempts so far. */
  datatype Port = Port(filters: seq<Filter>, policy: Policy, chan: C.Chan<Frame>, since: nat, tries: seq<Try<Frame>>)

  datatype Entry = Entry(data: seq<byte>, checksumType: ChecksumType)

  /** A send_header call under the shared lock: it is at subscriber `next`, and between the channel call
      and the counter increment when `pending` is set. */
  datatype Header = Header(frame: Frame, next: nat, pending: Option<Count>)

  /** The atomic increments that a thread still has to make before it goes on: of write_count and then
      bytes_written, of bytes_written alone, or of bytes_delivered after deliver_count. */
  datatype Due = Write | WrittenBytes | DeliveredBytes

  /** `log` lists the exchanged frames.  Subscribers are never removed before close, which empties the
      source's list; here the ports stay, and `closed` says that the list is empty. */
  datatype State = State(
    responses: map<byte, Entry>, ports: seq<Port>, closed: bool, headers: map<C.Tid, Header>, due: map<C.Tid, Due>,
    writes: nat, delivers: nat, drops: nat, bytesWritten: nat, bytesDelivered: nat, errors: nat,
    log: seq<Frame>)

  const INITIAL: State := State(map[], [], false, map[], map[], 0, 0, 0, 0, 0, 0, [])

  // ---- The response table ----

  datatype PublishResult = Published(responses: map<byte, Entry>) | Refused(error: Error)

  /** Diagnostic frames are forced to the classic checksum; empty data removes the entry. */
  function DoPublish(responses: map<byte, Entry>, closed: bool, id: byte, data: seq<byte>, ct: ChecksumType)
    : PublishResult
  {
    if id > MAX_ID then Refused(InvalidFrame)
    else if closed then Refused(BusClosed)
    else if data == [] then Published(responses - {id})
    else Published(responses[id := Entry(data, if IsDiagnostic(id) then Classic else ct)])
  }

  datatype HeaderResult = Exchanged(frame: Frame) | Failed(error: Error)

  /** The frame that a header for this identifier collects. */
  function Exchange(responses: map<byte, Entry>, closed: bool, id: byte): HeaderResult {
    if id > MAX_ID then Failed(InvalidFrame)
    else if closed then Failed(BusClosed)
    else if id !in responses then Failed(NoResponse)
    else
      var e := responses[id];
      Exchanged(Frame(id, e.data, ChecksumOf(ProtectId(id), e.data, e.checksumType), e.checksumType))
  }

  // ---- Steps ----

  datatype Event =
    | Publish(id: byte, data: seq<byte>, ct: ChecksumType)
    | Subscribe(filters: seq<Filter>, policy: Policy, depth: int)
    | Close
    | BeginHeader(t: C.Tid, id: byte)
    | Skip(t: C.Tid)                                // a subscriber whose filters do not match
    | Offer(t: C.Tid, choice: Option<C.Tid>)      // the channel call of the switch
    | Increment(t: C.Tid)                           // the counter after it
    | Account(t: C.Tid)                             // the increment that is due
    | EndHeader(t: C.Tid)
    | Consume(p: nat, e: C.Event<Frame>)            // a subscriber's thread, or a spurious wakeup

  /** Thread t is in send_header, at a subscriber. */
  predicate AtPort(s: State, t: C.Tid) {
    t in s.headers && s.headers[t].next < |s.ports|
  }

  /** It has made all increments that were due. */
  predicate Ready(s: State, t: C.Tid) {
    AtPort(s, t) && t !in s.due
  }

  /** publish, subscribe and close need the lock exclusively, except that publish refuses a bad identifier
      before it takes the lock; send_header shares it.  Subscribers only
      receive: the bus alone sends and closes.  A thread inside a header does nothing else. */
  predicate Enabled(s: State, e: Event) {
    match e
    case Publish(id, _, _) => id > MAX_ID || s.headers == map[]
    case Subscribe(_, _, _) => s.headers == map[]
    case Close => s.headers == map[] && ChannelsUsable(s)
    case BeginHeader(t, _) =>
      t !in s.headers && forall p :: 0 <= p < |s.ports| ==> t !in s.ports[p].chan.waiters
    case Skip(t) =>
      Ready(s, t) && s.headers[t].pending.None? &&
      !MatchesAny(s.ports[s.headers[t].next].filters, s.headers[t].frame)
    case Offer(t, choice) =>
      Ready(s, t) && s.headers[t].pending.None? &&
      var h := s.headers[t];
      var port := s.ports[h.next];
      MatchesAny(port.filters, h.frame) && C.Enabled(port.chan, CallFor(port.policy, t, h.frame, choice))
    case Increment(t) => Ready(s, t) && s.headers[t].pending.Some?
    case Account(t) => t in s.due && t in s.headers
    case EndHeader(t) => t in s.headers && s.headers[t].next == |s.ports| && t !in s.due
    case Consume(p, ce) =>
      p < |s.ports| && IsConsumerEvent(ce) && C.Enabled(s.ports[p].chan, ce) &&
      (ce.RecvPass? ==> ce.t !in s.headers)
  }

  /** The port after the channel call, and whether the call returned. */
  function OfferTo(port: Port, t: C.Tid, f: Frame, choice: Option<C.Tid>): (r: (Port, C.Reply<Frame>))
    requires C.Enabled(port.chan, CallFor(port.policy, t, f, choice))
    ensures r.0.policy == port.policy && r.0.filters == port.filters && r.0.since == port.since
  {
    var (chan, tries, reply) := OfferItem(port.policy, port.chan, port.tries, t, f, choice);
    (port.(chan := chan, tries := tries), reply)
  }

  /** The caller, once the channel call has returned, has a counter to increment. */
  function HeadersAfterOffer(headers: map<C.Tid, Header>, t: C.Tid, policy: Policy, reply: C.Reply<Frame>)
    : map<C.Tid, Header>
    requires t in headers
  {
    if reply.Sent? then headers[t := headers[t].(pending := Some(CountFor(policy, reply.result)))] else headers
  }

  function ClosePort(port: Port): Port
    requires 1 <= port.chan.capacity
  {
    port.(chan := C.Apply(port.chan, C.Event.Close))
  }

  function CloseAll(ports: seq<Port>): (r: seq<Port>)
    requires forall p :: 0 <= p < |ports| ==> 1 <= ports[p].chan.capacity
    ensures |r| == |ports| && forall p :: 0 <= p < |ports| ==> r[p] == ClosePort(ports[p])
  {
    seq(|ports|, p requires 0 <= p < |ports| => ClosePort(ports[p]))
  }

  /** Every channel was created with room for at least one item. */
  predicate ChannelsUsable(s: State) {
    forall p :: 0 <= p < |s.ports| ==> 1 <= s.ports[p].chan.capacity
  }

  function Apply(s: State, e: Event): State
    requires Enabled(s, e)
  {
    match e
    case Publish(id, data, ct) =>
      (match DoPublish(s.responses, s.closed, id, data, ct)
       case Published(responses) => s.(responses := responses)
       case Refused(_) => s.(errors := s.errors + 1))
    case Subscribe(filters, policy, depth) =>
      if s.closed then s.(errors := s.errors + 1)
      else s.(ports := s.ports + [Port(filters, policy, C.Create(EffectiveDepth(depth)), |s.log|, [])])
    case Close =>
      if s.closed then s else s.(closed := true, ports := CloseAll(s.ports))
    case BeginHeader(t, id) =>
      (match Exchange(s.responses, s.closed, id)
       case Failed(_) => s.(errors := s.errors + 1)
       case Exchanged(f) =>
         s.(headers := s.headers[t := Header(f, 0, None)], due := s.due[t := Write], log := s.log + [f]))
    case Skip(t) =>
      s.(headers := s.headers[t := s.headers[t].(next := s.headers[t].next + 1)])
    case Offer(t, choice) =>
      var h := s.headers[t];
      var (port, reply) := OfferTo(s.ports[h.next], t, h.frame, choice);
      s.(ports := s.ports[h.next := port],
         headers := HeadersAfterOffer(s.headers, t, port.policy, reply))
    case Increment(t) =>
      var h := s.headers[t];
      var n := h.pending.value;
      s.(headers := s.headers[t := Header(h.frame, h.next + 1, None)],
         due := if n == Delivered then s.due[t := DeliveredBytes] else s.due,
         delivers := s.delivers + (if n == Delivered then 1 else 0),
         drops := s.drops + (if n == Dropped then 1 else 0))
    case Account(t) =>
      var size := |s.headers[t].frame.data|;
      (match s.due[t]
       case Write => s.(writes := s.writes + 1, due := s.due[t := WrittenBytes])
       case WrittenBytes => s.(bytesWritten := s.bytesWritten + size, due := s.due - {t})
       case DeliveredBytes => s.(bytesDelivered := s.bytesDelivered + size, due := s.due - {t}))
    case EndHeader(t) => s.(headers := s.headers - {t})
    case Consume(p, ce) =>
      s.(ports := s.ports[p := s.ports[p].(chan := C.Apply(s.ports[p].chan, ce))])
  }

  /** states[i + 1] follows from states[i] by events[i]. */
  ghost predicate IsRun(states: seq<State>, events: seq<Event>) {
    && |states| == |events| + 1
    && states[0] == INITIAL
    && forall i :: 0 <= i < |events| ==>
         Enabled(states[i], events[i]) && states[i + 1] == Apply(states[i], events[i])
  }
}
