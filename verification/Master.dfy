/** The master's schedule loop of src/master/node.cpp. */
module Master {
  import opened Wrappers
  import opened Bytes
  import opened Lin
  import opened Ldf
  import B = Bus

  // ---- Schedules ----

  predicate ScheduleOk(entries: seq<ScheduleEntry>) {
    forall i :: 0 <= i < |entries| ==> entries[i].id <= MAX_ID
  }

  /** A master takes every schedule table that the LDF parser delivers, for whatever text. */
  lemma ParsedSchedulesAccepted(stod: Stod, text: string, name: string)
    requires name in Parse(stod, text).schedules
    ensures ScheduleOk(Parse(stod, text).schedules[name])
    ensures forall i :: 0 <= i < |Parse(stod, text).schedules[name]| ==>
              Parse(stod, text).schedules[name][i].id in Parse(stod, text).frames
  {
    hide Parse;
    ParseKeeps(stod, text);
    var db := Parse(stod, text);
    assert EntriesInv(db.frames, db.schedules[name]);
  }

  // ---- What a run does ----

  /** Where the stop flag is looked at: at the start of a round, before a slot, or while a slot's delay runs. */
  datatype Check = Round | Slot | Delay

  /** A load of the stop flag, or a header with what came of it. */
  datatype Action = Load(at: Check, stop: bool) | Header(id: byte, result: B.HeaderResult)

  /** A callback. */
  datatype Report = OnFrame(frame: Frame) | OnError(error: B.Error)

  /** What the n-th load of the stop flag sees, what the bus answers to the n-th header, and whether a slot's
      delay is over at the n-th look at the clock. */
  type Flag = nat -> bool
  type Bus = (nat, byte) -> B.HeaderResult
  type Clock = nat -> bool

  datatype World = World(flag: Flag, bus: Bus, clock: Clock)

  function LoadsIn(trace: seq<Action>): nat {
    if trace == [] then 0 else LoadsIn(trace[..|trace| - 1]) + if trace[|trace| - 1].Load? then 1 else 0
  }

  /** The clock is looked at after every load of false in a delay. */
  function LooksIn(trace: seq<Action>): nat {
    if trace == [] then 0 else LooksIn(trace[..|trace| - 1]) + if trace[|trace| - 1] == Load(Delay, false) then 1 else 0
  }

  function HeadersIn(trace: seq<Action>): seq<Action> {
    if trace == [] then []
    else HeadersIn(trace[..|trace| - 1]) + if trace[|trace| - 1].Header? then [trace[|trace| - 1]] else []
  }

  /** The callbacks due for a trace, for the handlers that are set. */
  function Reports(trace: seq<Action>, frameHandler: bool, errorHandler: bool): seq<Report> {
    if trace == [] then []
    else
      Reports(trace[..|trace| - 1], frameHandler, errorHandler) +
      match trace[|trace| - 1]
      case Load(_, _) => []
      case Header(_, Exchanged(f)) => if frameHandler then [OnFrame(f)] else []
      case Header(_, Failed(e)) => if errorHandler then [OnError(e)] else []
  }

  /** The loop condition is tested at the start of each round, the slot check before each slot. */
  function CheckAt(headers: nat, n: nat): Check
    requires n > 0
  {
    if headers % n == 0 then Round else Slot
  }

  /** The slot whose turn it is after n headers. */
  function SlotOf(schedule: seq<ScheduleEntry>, n: nat): ScheduleEntry
    requires schedule != []
  {
    schedule[n % |schedule|]
  }

  /** What comes next, or None when the run is over. */
  function NextAction(schedule: seq<ScheduleEntry>, w: World, trace: seq<Action>): Option<Action>
    requires schedule != []
  {
    var n := |HeadersIn(trace)|;
    var check := Load(CheckAt(n, |schedule|), w.flag(LoadsIn(trace)));
    var wait := Load(Delay, w.flag(LoadsIn(trace)));
    if trace == [] then Some(check)
    else match trace[|trace| - 1]
      case Load(Round, stop) => if stop then None else Some(Load(Slot, w.flag(LoadsIn(trace))))
      case Load(Slot, stop) => if stop then None else Some(Header(SlotOf(schedule, n).id, w.bus(n, SlotOf(schedule, n).id)))
      case Load(Delay, stop) => Some(if stop || w.clock(LooksIn(trace) - 1) then check else wait)
      case Header(_, _) => Some(if n > 0 && SlotOf(schedule, n - 1).delayMs > 0 then wait else check)
  }

  /** A run from its start; it may be unfinished. */
  ghost predicate Follows(schedule: seq<ScheduleEntry>, w: World, trace: seq<Action>)
    requires schedule != []
  {
    forall j :: 0 <= j < |trace| ==> NextAction(schedule, w, trace[..j]) == Some(trace[j])
  }

  lemma Appended(schedule: seq<ScheduleEntry>, w: World, trace: seq<Action>, a: Action)
    requires schedule != [] && Follows(schedule, w, trace) && NextAction(schedule, w, trace) == Some(a)
    ensures var trace' := trace + [a];
      && Follows(schedule, w, trace')
      && LoadsIn(trace') == LoadsIn(trace) + (if a.Load? then 1 else 0)
      && LooksIn(trace') == LooksIn(trace) + (if a == Load(Delay, false) then 1 else 0)
      && HeadersIn(trace') == HeadersIn(trace) + (if a.Header? then [a] else [])
  {
    hide NextAction;
    var trace' := trace + [a];
    assert trace'[..|trace|] == trace;
    forall j | 0 <= j < |trace'| ensures NextAction(schedule, w, trace'[..j]) == Some(trace'[j]) {
      assert trace'[..j] == trace[..j];
      if j == |trace| {
        assert trace[..j] == trace;
      }
    }
  }

  /** What follows an action, by what it was. */
  lemma NextAfter(schedule: seq<ScheduleEntry>, w: World, trace: seq<Action>, a: Action)
    requires schedule != []
    ensures var trace' := trace + [a];
      var n, loads := |HeadersIn(trace')|, LoadsIn(trace');
      var check := Some(Load(CheckAt(n, |schedule|), w.flag(loads)));
      NextAction(schedule, w, trace') ==
        match a
        case Load(Round, stop) => if stop then None else Some(Load(Slot, w.flag(loads)))
        case Load(Slot, stop) =>
          if stop then None else Some(Header(SlotOf(schedule, n).id, w.bus(n, SlotOf(schedule, n).id)))
        case Load(Delay, stop) =>
          if stop || w.clock(LooksIn(trace)) then check else Some(Load(Delay, w.flag(loads)))
        case Header(_, _) =>
          if SlotOf(schedule, n - 1).delayMs > 0 then Some(Load(Delay, w.flag(loads))) else check
  {
    hide CheckAt, SlotOf;
    var trace' := trace + [a];
    assert trace'[|trace|] == a && trace'[..|trace|] == trace;
  }

  class Node {
    const bus: Bus
    var schedule: seq<ScheduleEntry>
    var frameHandler: bool
    var errorHandler: bool
    var reports: seq<Report>

    constructor (bus: Bus)
      ensures this.bus == bus && schedule == [] && reports == [] && !frameHandler && !errorHandler
    {
      this.bus := bus;
      schedule, reports, frameHandler, errorHandler := [], [], false, false;
    }

    /** Takes the whole table or nothing. */
    method SetSchedule(entries: seq<ScheduleEntry>) returns (error: Option<B.Error>)
      modifies this`schedule
      ensures error == if forall i :: 0 <= i < |entries| ==> entries[i].id <= 63 then None else Some(B.InvalidFrame)
      ensures schedule == if ScheduleOk(entries) then entries else old(schedule)
    {
      for i := 0 to |entries|
        invariant forall j :: 0 <= j < i ==> entries[j].id <= MAX_ID
        invariant schedule == old(schedule)
      {
        if entries[i].id > MAX_ID {
          return Some(B.InvalidFrame);
        }
      }
      schedule := entries;
      error := None;
    }

    /** A whole run, for a flag that changes at will until some load from which on it is set, without which
        the source loops for ever.  An empty schedule does nothing. */
    method Run(flag: Flag, clock: Clock, ghost last: nat) returns (trace: seq<Action>)
      requires forall k: nat :: k >= last ==> flag(k)
      modifies this`reports
      ensures schedule == [] ==> trace == []
      ensures schedule != [] ==>
        && Follows(schedule, World(flag, bus, clock), trace)
        && NextAction(schedule, World(flag, bus, clock), trace) == None
      ensures reports == old(reports) + Reports(trace, frameHandler, errorHandler)
    {
      hide Follows, NextAction, LoadsIn, LooksIn, HeadersIn, Reports, SlotIs, CheckAt, SlotOf;
      trace := [];
      ghost var w := World(flag, bus, clock);
      EmptyTrace(schedule, w, frameHandler, errorHandler);
      if schedule == [] {
        return;
      }
      var loads, looks, headers := 0, 0, 0;
      while true
        invariant At(schedule, w, trace, loads, looks, headers) && SlotIs(headers, |schedule|, 0)
        invariant NextAction(schedule, w, trace) == Some(Load(Round, flag(loads)))
        invariant reports == old(reports) + Reports(trace, frameHandler, errorHandler)
        decreases last - loads
      {
        ghost var started := loads;
        var stop := flag(loads);
        LoadTaken(schedule, w, trace, Round, loads, looks, headers, frameHandler, errorHandler);
        trace, loads := trace + [Load(Round, stop)], loads + 1;
        if stop {
          return;
        }
        for i := 0 to |schedule|
          invariant At(schedule, w, trace, loads, looks, headers) && SlotIs(headers, |schedule|, i)
          invariant NextAction(schedule, w, trace) == Some(Load(if i < |schedule| then Slot else Round, flag(loads)))
          invariant reports == old(reports) + Reports(trace, frameHandler, errorHandler)
          invariant started < loads
        {
          stop := flag(loads);
          LoadTaken(schedule, w, trace, Slot, loads, looks, headers, frameHandler, errorHandler);
          trace, loads := trace + [Load(Slot, stop)], loads + 1;
          if stop {
            return;
          }
          var slot := schedule[i];
          var header := Header(slot.id, bus(headers, slot.id));
          NextSlot(schedule, headers, i);
          HeaderTaken(schedule, w, trace, header, loads, looks, headers, frameHandler, errorHandler);
          match header.result {
            case Failed(error) =>
              if errorHandler {
                reports := reports + [OnError(error)];
              }
            case Exchanged(f) =>
              if frameHandler {
                reports := reports + [OnFrame(f)];
              }
          }
          trace, headers := trace + [header], headers + 1;
          if slot.delayMs > 0 {
            var due := false;
            while !due
              invariant At(schedule, w, trace, loads, looks, headers)
              invariant NextAction(schedule, w, trace) ==
                        Some(Load(if due then CheckAt(headers, |schedule|) else Delay, flag(loads)))
              invariant reports == old(reports) + Reports(trace, frameHandler, errorHandler)
              invariant started < loads
              decreases !due, last - loads
            {
              stop := flag(loads);
              LoadTaken(schedule, w, trace, Delay, loads, looks, headers, frameHandler, errorHandler);
              trace, loads := trace + [Load(Delay, stop)], loads + 1;
              if stop {
                due := true;
              } else {
                due := clock(looks);
                looks := looks + 1;
              }
            }
          }
        }
        RoundEnds(headers, |schedule|);
      }
    }
  }

  /** An unfinished run and the counts that go with it. */
  ghost predicate At(schedule: seq<ScheduleEntry>, w: World, trace: seq<Action>, loads: nat, looks: nat, headers: nat)
    requires schedule != []
  {
    && Follows(schedule, w, trace)
    && loads == LoadsIn(trace) && looks == LooksIn(trace) && headers == |HeadersIn(trace)|
  }

  lemma LoadTaken(schedule: seq<ScheduleEntry>, w: World, trace: seq<Action>, at: Check, loads: nat, looks: nat,
                  headers: nat, fh: bool, eh: bool)
    requires schedule != [] && At(schedule, w, trace, loads, looks, headers)
    requires NextAction(schedule, w, trace) == Some(Load(at, w.flag(loads)))
    ensures var stop := w.flag(loads);
      var trace' := trace + [Load(at, stop)];
      && At(schedule, w, trace', loads + 1, looks + (if at == Delay && !stop then 1 else 0), headers)
      && Reports(trace', fh, eh) == Reports(trace, fh, eh)
      && NextAction(schedule, w, trace') ==
         match at
         case Round => if stop then None else Some(Load(Slot, w.flag(loads + 1)))
         case Slot => if stop then None else Some(Header(SlotOf(schedule, headers).id, w.bus(headers, SlotOf(schedule, headers).id)))
         case Delay => Some(Load(if stop || w.clock(looks) then CheckAt(headers, |schedule|) else Delay, w.flag(loads + 1)))
  {
    hide NextAction, Follows, LoadsIn, LooksIn, HeadersIn, SlotOf, CheckAt;
    var a := Load(at, w.flag(loads));
    Appended(schedule, w, trace, a);
    NextAfter(schedule, w, trace, a);
    assert (trace + [a])[..|trace|] == trace;
  }

  lemma HeaderTaken(schedule: seq<ScheduleEntry>, w: World, trace: seq<Action>, header: Action, loads: nat, looks: nat,
                    headers: nat, fh: bool, eh: bool)
    requires schedule != [] && At(schedule, w, trace, loads, looks, headers) && header.Header?
    requires NextAction(schedule, w, trace) == Some(header)
    ensures var trace' := trace + [header];
      && At(schedule, w, trace', loads, looks, headers + 1)
      && Reports(trace', fh, eh) == Reports(trace, fh, eh) +
         (match header.result
          case Exchanged(f) => if fh then [OnFrame(f)] else []
          case Failed(e) => if eh then [OnError(e)] else [])
      && NextAction(schedule, w, trace') ==
         Some(Load(if SlotOf(schedule, headers).delayMs > 0 then Delay else CheckAt(headers + 1, |schedule|), w.flag(loads)))
  {
    hide NextAction, Follows, LoadsIn, LooksIn, HeadersIn, SlotOf, CheckAt;
    Appended(schedule, w, trace, header);
    NextAfter(schedule, w, trace, header);
    assert (trace + [header])[..|trace|] == trace;
  }

  lemma EmptyTrace(schedule: seq<ScheduleEntry>, w: World, fh: bool, eh: bool)
    ensures Reports([], fh, eh) == []
    ensures schedule != [] ==>
      && At(schedule, w, [], 0, 0, 0) && SlotIs(0, |schedule|, 0)
      && NextAction(schedule, w, []) == Some(Load(Round, w.flag(0)))
  {
  }

  /** After `headers` headers, slot i of n is next; i == n stands for the end of a round. */
  predicate SlotIs(headers: nat, n: nat, i: nat)
    requires n > 0
  {
    if i == n then headers % n == 0 else i < n && headers % n == i
  }

  lemma RoundEnds(headers: nat, n: nat)
    requires n > 0 && SlotIs(headers, n, n)
    ensures SlotIs(headers, n, 0)
  {
  }

  lemma NextSlot(schedule: seq<ScheduleEntry>, headers: nat, i: nat)
    requires schedule != [] && i < |schedule| && SlotIs(headers, |schedule|, i)
    ensures SlotOf(schedule, headers) == schedule[i]
    ensures SlotIs(headers + 1, |schedule|, i + 1)
    ensures CheckAt(headers + 1, |schedule|) == if i + 1 < |schedule| then Slot else Round
  {
    var n := |schedule|;
    var q := headers / n;
    assert headers == q * n + i;
    if i + 1 == n {
      assert headers + 1 == (q + 1) * n;
      DivUnique(headers + 1, n, q + 1, 0);
    } else {
      DivUnique(headers + 1, n, q, i + 1);
    }
  }

  // ---- What a run promises ----

  /** The i-th header serves slot i mod n, whatever the answers were. */
  lemma {:induction false} SlotsInTurn(schedule: seq<ScheduleEntry>, w: World, trace: seq<Action>, i: nat)
    requires schedule != [] && Follows(schedule, w, trace) && i < |HeadersIn(trace)|
    ensures HeadersIn(trace)[i].Header? && HeadersIn(trace)[i].id == schedule[i % |schedule|].id
    ensures HeadersIn(trace)[i].result == w.bus(i, schedule[i % |schedule|].id)
  {
    var k := |trace| - 1;
    PrefixFollows(schedule, w, trace);
    if i < |HeadersIn(trace[..k])| {
      SlotsInTurn(schedule, w, trace[..k], i);
    } else {
      HeaderServesSlot(schedule, w, trace, k);
    }
  }

  lemma HeaderServesSlot(schedule: seq<ScheduleEntry>, w: World, trace: seq<Action>, j: nat)
    requires schedule != [] && Follows(schedule, w, trace) && j < |trace| && trace[j].Header?
    ensures var n := |HeadersIn(trace[..j])|; trace[j] == Header(SlotOf(schedule, n).id, w.bus(n, SlotOf(schedule, n).id))
  {
    hide CheckAt, SlotOf;
    assert NextAction(schedule, w, trace[..j]) == Some(trace[j]);
  }

  lemma PrefixFollows(schedule: seq<ScheduleEntry>, w: World, trace: seq<Action>)
    requires schedule != [] && Follows(schedule, w, trace) && trace != []
    ensures Follows(schedule, w, trace[..|trace| - 1])
  {
    hide NextAction;
    var t := trace[..|trace| - 1];
    forall j | 0 <= j < |t| ensures NextAction(schedule, w, t[..j]) == Some(t[j]) {
      assert t[..j] == trace[..j] && t[j] == trace[j];
    }
  }

  /** With both handlers set, every header is reported exactly once, frames and errors in the order in which
      they came. */
  lemma {:induction false} OneReportEach(trace: seq<Action>)
    ensures var headers, reports := HeadersIn(trace), Reports(trace, true, true);
      && |reports| == |headers|
      && forall i :: 0 <= i < |reports| ==>
           headers[i].Header? && match headers[i].result
                                 case Exchanged(f) => reports[i] == OnFrame(f)
                                 case Failed(e) => reports[i] == OnError(e)
  {
    if trace != [] {
      OneReportEach(trace[..|trace| - 1]);
    }
  }

  lemma {:induction false} LoadsGrow(trace: seq<Action>, p: nat, q: nat)
    requires p <= q <= |trace|
    ensures LoadsIn(trace[..p]) <= LoadsIn(trace[..q])
  {
    if p < q {
      assert trace[..q][..q - 1] == trace[..q - 1];
      LoadsGrow(trace, p, q - 1);
    }
  }

  /** If the flag is set after p actions and stays set, at most the header whose check came just before still
      goes out. */
  lemma OneHeaderAfterStop(schedule: seq<ScheduleEntry>, w: World, trace: seq<Action>, p: nat, j: nat)
    requires schedule != [] && Follows(schedule, w, trace)
    requires p <= j < |trace| && trace[j].Header?
    requires forall k: nat :: k >= LoadsIn(trace[..p]) ==> w.flag(k)
    ensures j == p && 0 < p && trace[p - 1] == Load(Slot, false)
  {
    hide LoadsIn, Follows;
    HeaderNeedsLoad(schedule, w, trace, j);
    if p < j {
      LoadsGrow(trace, p, j - 1);
    }
  }

  lemma HeaderNeedsLoad(schedule: seq<ScheduleEntry>, w: World, trace: seq<Action>, j: nat)
    requires schedule != [] && Follows(schedule, w, trace) && j < |trace| && trace[j].Header?
    ensures 0 < j && trace[j - 1] == Load(Slot, false) && !w.flag(LoadsIn(trace[..j - 1]))
  {
    hide LoadsIn, LooksIn, HeadersIn, CheckAt, SlotOf;
    assert NextAction(schedule, w, trace[..j]) == Some(trace[j]);
    var k := j - 1;
    assert trace[..j][k] == trace[k];
    assert NextAction(schedule, w, trace[..k]) == Some(trace[k]);
  }

  /** A load that sees the flag set ends the run exactly when it is a round or slot check: the one that ends
      a delay early does not, and if the flag is cleared again before the next check the run goes on. */
  lemma SeenSetEndsIff(schedule: seq<ScheduleEntry>, w: World, trace: seq<Action>, j: nat)
    requires schedule != [] && Follows(schedule, w, trace)
    requires j < |trace| && trace[j].Load? && trace[j].stop
    ensures NextAction(schedule, w, trace[..j + 1]) == None <==> trace[j].at != Delay
    ensures trace[j].at != Delay ==> j == |trace| - 1
  {
    hide LoadsIn, LooksIn, HeadersIn, CheckAt, SlotOf;
    assert trace[..j + 1][j] == trace[j];
    if j + 1 < |trace| {
      assert NextAction(schedule, w, trace[..j + 1]) == Some(trace[j + 1]);
    }
  }

  /** Conversely a run ends in no other way. */
  lemma EndsOnlySet(schedule: seq<ScheduleEntry>, w: World, trace: seq<Action>)
    requires schedule != [] && Follows(schedule, w, trace) && NextAction(schedule, w, trace) == None
    ensures trace != [] && trace[|trace| - 1] in {Load(Round, true), Load(Slot, true)}
  {
    hide CheckAt, SlotOf;
  }

  /** A run in which the flag is seen set and a header still goes out two checks later. */
  lemma SetAndClearedMissed(bus: Bus, clock: Clock)
    ensures var schedule, w := [ScheduleEntry(0, 1)], World(n => n == 2, bus, clock);
      var trace := [Load(Round, false), Load(Slot, false), Header(0, bus(0, 0)), Load(Delay, true),
                    Load(Round, false), Load(Slot, false), Header(0, bus(1, 0))];
      Follows(schedule, w, trace)
  {
    hide NextAction, Follows, LoadsIn, LooksIn, HeadersIn, Reports;
    var schedule, w := [ScheduleEntry(0, 1)], World(n => n == 2, bus, clock);
    assert forall n: nat :: SlotOf(schedule, n) == schedule[0] && CheckAt(n, 1) == Round;
    var h0, h1 := Header(0, bus(0, 0)), Header(0, bus(1, 0));
    EmptyTrace(schedule, w, true, true);
    LoadTaken(schedule, w, [], Round, 0, 0, 0, true, true);
    var t1 := [] + [Load(Round, false)];
    LoadTaken(schedule, w, t1, Slot, 1, 0, 0, true, true);
    var t2 := t1 + [Load(Slot, false)];
    HeaderTaken(schedule, w, t2, h0, 2, 0, 0, true, true);
    var t3 := t2 + [h0];
    LoadTaken(schedule, w, t3, Delay, 2, 0, 1, true, true);
    var t4 := t3 + [Load(Delay, true)];
    LoadTaken(schedule, w, t4, Round, 3, 0, 1, true, true);
    var t5 := t4 + [Load(Round, false)];
    LoadTaken(schedule, w, t5, Slot, 4, 0, 1, true, true);
    var t6 := t5 + [Load(Slot, false)];
    HeaderTaken(schedule, w, t6, h1, 5, 0, 1, true, true);
    assert t6 + [h1] == [Load(Round, false), Load(Slot, false), h0, Load(Delay, true), Load(Round, false),
                         Load(Slot, false), h1];
  }

  // ---- Every step of a trace ----

  /** Where each action of a trace comes from: a round check starts the run and every round, when all slots have
      had their turn, and a slot check precedes every header.  After a header its slot's delay is waited for,
      if it has one, looking at the flag until that is set or the clock says that the delay is over. */
  lemma TraceSteps(schedule: seq<ScheduleEntry>, w: World, trace: seq<Action>, j: nat)
    requires schedule != [] && Follows(schedule, w, trace) && j + 1 < |trace|
    ensures trace[0] == Load(Round, w.flag(0))
    ensures trace[j + 1].Load? ==> trace[j + 1].stop == w.flag(LoadsIn(trace[..j + 1]))
    ensures var n := |HeadersIn(trace[..j + 1])|;
      match trace[j]
      case Load(Round, stop) => !stop && trace[j + 1].Load? && trace[j + 1].at == Slot
      case Load(Slot, stop) => !stop && trace[j + 1].Header?
      case Header(_, _) =>
        n > 0 && trace[j + 1].Load? &&
        trace[j + 1].at == (if schedule[(n - 1) % |schedule|].delayMs > 0 then Delay
                            else if n % |schedule| == 0 then Round else Slot)
      case Load(Delay, stop) =>
        trace[j + 1].Load? &&
        trace[j + 1].at == (if !stop && !w.clock(LooksIn(trace[..j])) then Delay
                            else if n % |schedule| == 0 then Round else Slot)
  {
    hide LoadsIn, HeadersIn;
    assert trace[..0] == [];
    assert NextAction(schedule, w, trace[..0]) == Some(trace[0]);
    assert LoadsIn([]) == 0 && HeadersIn([]) == [] by { EmptyTrace(schedule, w, true, true); }
    assert trace[..j] + [trace[j]] == trace[..j + 1];
    NextAfter(schedule, w, trace[..j], trace[j]);
    assert NextAction(schedule, w, trace[..j + 1]) == Some(trace[j + 1]);
    HeaderCounted(trace[..j], trace[j]);
  }

  lemma HeaderCounted(trace: seq<Action>, a: Action)
    ensures a.Header? ==> |HeadersIn(trace + [a])| > 0
  {
    assert (trace + [a])[..|trace|] == trace;
  }

  /** A handler that is not set is not called, and the other one is called as if both were. */
  lemma {:induction false} ReportsByHandler(trace: seq<Action>, frameHandler: bool, errorHandler: bool)
    ensures Reports(trace, frameHandler, errorHandler) == Heard(Reports(trace, true, true), frameHandler, errorHandler)
  {
    if trace != [] {
      var k := |trace| - 1;
      ReportsByHandler(trace[..k], frameHandler, errorHandler);
      var all := Reports(trace, true, true);
      if trace[k].Header? {
        assert all[..|all| - 1] == Reports(trace[..k], true, true);
      } else {
        assert all == Reports(trace[..k], true, true);
      }
    }
  }

  function Heard(reports: seq<Report>, frameHandler: bool, errorHandler: bool): seq<Report> {
    if reports == [] then []
    else
      var rest, last := Heard(reports[..|reports| - 1], frameHandler, errorHandler), reports[|reports| - 1];
      if (last.OnFrame? && frameHandler) || (last.OnError? && errorHandler) then rest + [last] else rest
  }
}
