/** The LDF database of src/ldf/parser.cpp: what each line of a description means, what a description
    amounts to, and what every database keeps. */
module Ldf {
  import opened Bytes
  import opened Lin
  import opened Text
  import opened Wrappers

  datatype SignalRef = SignalRef(name: string, bitOffset: int)

  datatype LdfFrame = LdfFrame(name: string, id: byte, publisher: string, length: int, signals: seq<SignalRef>)

  datatype Signal = Signal(name: string, bitWidth: int, initValue: nat, publisher: string, subscribers: seq<string>)

  type Frames = map<byte, LdfFrame>
  type Signals = map<string, Signal>
  type Schedules = map<string, seq<ScheduleEntry>>

  datatype Content = Content(
    protocolVersion: string, languageVersion: string, speed: real, masterNode: string, slaveNodes: seq<string>,
    signals: Signals, frames: Frames, schedules: Schedules)

  const EMPTY: Content := Content("", "", 0.0, "", [], map[], map[], map[])

  // ---- Numbers ----

  /** std::stod, of which nothing is assumed; None stands for its exceptions. */
  type Stod = string -> Option<real>

  predicate HasHexPrefix(t: string) {
    |t| > 2 && (t[..2] == "0x" || t[..2] == "0X")
  }

  function ParseInt(s: string): Option<int> {
    var t := StripSemicolon(s);
    if HasHexPrefix(t) then ParseSigned(t[2..], 16) else ParseSigned(t, 10)
  }

  /** Drops the fraction. */
  function Truncate(x: real): (n: int)
    ensures if x >= 0.0 then 0 <= n && n as real <= x < n as real + 1.0
            else n <= 0 && n as real - 1.0 < x <= n as real
  {
    if x >= 0.0 then x.Floor else -(-x).Floor
  }

  /** The conversion from double to uint64_t is undefined where the truncated value is outside the type's
      range; here it wraps. */
  function ParseUint(stod: Stod, s: string): Option<nat> {
    var t := StripSemicolon(s);
    if HasHexPrefix(t) then ParseUnsigned(t[2..], 16)
    else match stod(t)
      case Some(x) => Some(Truncate(x) % 0x1_0000_0000_0000_0000)
      case None => ParseUnsigned(t, 10)
  }

  /** A cast to a 32-bit int. */
  function ToInt(x: int): (r: int)
    ensures -0x8000_0000 <= r <= 0x7FFF_FFFF && (x - r) % 0x1_0000_0000 == 0
  {
    var r := x % 0x1_0000_0000;
    if r > 0x7FFF_FFFF then r - 0x1_0000_0000 else r
  }

  function OrElse<T>(o: Option<T>, default: T): T {
    match o case Some(x) => x case None => default
  }

  /** The first word that std::stod accepts. */
  function FloatValue(stod: Stod, words: seq<string>): real {
    if words == [] then 0.0
    else match stod(StripSemicolon(words[0]))
      case Some(x) => x
      case None => FloatValue(stod, words[1..])
  }

  function QuotedValue(line: string): string {
    var start := Find(line, '"');
    if start == |line| then ""
    else
      var end := Find(line[start + 1..], '"');
      if start + 1 + end == |line| then "" else line[start + 1..start + 1 + end]
  }

  // ---- Lines ----

  function Fields(s: string): seq<string> {
    TrimAll(Split(s, ','))
  }

  /** What follows "Master:" and "Slaves:". */
  function MasterName(text: string): string {
    var rest := Trim(text);
    StripSemicolon(rest[..Find(rest, ',')])
  }

  function SlaveNames(text: string): seq<string> {
    NonEmpty(Fields(StripSemicolon(Trim(text))))
  }

  function Clamp(width: int): (w: int)
    ensures 0 <= w <= 64 && (0 <= width <= 64 ==> w == width)
  {
    if width < 0 then 0 else if width > 64 then 64 else width
  }

  function Subscribers(parts: seq<string>): seq<string> {
    if parts == [] then [] else NonEmpty(Fields(parts[0])) + Subscribers(parts[1..])
  }

  /** "name : width, init, publisher, subscribers ;" */
  function SignalLine(stod: Stod, line: string): (r: Option<Signal>)
    ensures r.Some? ==> 0 <= r.value.bitWidth <= 64
  {
    var l := StripSemicolon(line);
    var colon := Find(l, ':');
    if colon == |l| then None
    else
      var parts := Fields(Trim(l[colon + 1..]));
      if |parts| < 3 then None
      else Some(Signal(Trim(l[..colon]), Clamp(ToInt(OrElse(ParseInt(parts[0]), 0))),
                       OrElse(ParseUint(stod, parts[1]), 0), Trim(parts[2]), Subscribers(parts[3..])))
  }

  function BeforeBrace(line: string): string {
    var brace := FindLast(line, '{');
    if brace >= 0 then Trim(line[..brace]) else line
  }

  /** A frame without its signals; what cannot be read stays zero. */
  function FrameOf(name: string, parts: seq<string>): LdfFrame {
    if |parts| < 3 then LdfFrame(name, 0, "", 0, [])
    else LdfFrame(name, OrElse(ParseInt(parts[0]), 0) % 256, Trim(parts[1]), ToInt(OrElse(ParseInt(parts[2]), 0)), [])
  }

  /** "name : id, publisher, length {" */
  function FrameHeader(line: string): Option<LdfFrame> {
    var hdr := BeforeBrace(line);
    var colon := Find(hdr, ':');
    if colon == |hdr| then None
    else Some(FrameOf(Trim(hdr[..colon]), Fields(Trim(hdr[colon + 1..]))))
  }

  /** "signal, offset ;" */
  function RefLine(line: string): Option<SignalRef> {
    var l := StripSemicolon(line);
    var comma := Find(l, ',');
    if comma == |l| then None
    else Some(SignalRef(Trim(l[..comma]), ToInt(OrElse(ParseInt(Trim(l[comma + 1..])), 0))))
  }

  const NO_FRAME: byte := 0xFF

  /** The lowest identifier from k on of a frame with this name. */
  function IdOfName(frames: Frames, name: string, k: nat): (id: byte)
    requires k <= 256
    ensures (id in frames && frames[id].name == name) || id == NO_FRAME
    decreases 256 - k
  {
    if k == 256 then NO_FRAME
    else if k in frames && frames[k].name == name then k
    else IdOfName(frames, name, k + 1)
  }

  /** The position of the delay keyword from i on, if something follows it. */
  function DelayAt(words: seq<string>, i: nat): (k: nat)
    requires i <= |words|
    ensures i <= k <= |words| && (k < |words| ==> k + 1 < |words|)
    decreases |words| - i
  {
    if i == |words| then |words|
    else if Lower(words[i]) == "delay" && i + 1 < |words| then i
    else DelayAt(words, i + 1)
  }

  /** "frame delay N ms ;" */
  function ScheduleLine(stod: Stod, frames: Frames, line: string): (r: Option<ScheduleEntry>)
    ensures r.Some? ==> r.value.id in frames && r.value.id <= MAX_ID
  {
    var l := StripSemicolon(line);
    if StartsWith(l, "AssignFrameId") then None
    else
      var words := Words(l);
      if |words| < 3 then None
      else
        var k := DelayAt(words, 1);
        if k == |words| then None
        else
          var id := IdOfName(frames, words[0], 0);
          if id <= MAX_ID then Some(ScheduleEntry(id, OrElse(ParseUint(stod, words[k + 1]), 0) % TWO32))
          else None
  }

  // ---- Sections ----
  // Each takes the lines from the current one on, and gives back those that it leaves.

  function SkipBrace(lines: seq<string>): (rest: seq<string>)
    ensures |rest| <= |lines|
  {
    if lines != [] && lines[0] != "" && lines[0][0] == '{' then lines[1..] else lines
  }

  function NodesSection(lines: seq<string>, master: string, slaves: seq<string>): (r: (string, seq<string>, seq<string>))
    ensures |r.2| <= |lines|
  {
    if lines == [] then (master, slaves, [])
    else if lines[0] == "}" then (master, slaves, lines[1..])
    else if StartsWith(lines[0], "Master:") then NodesSection(lines[1..], MasterName(lines[0][7..]), slaves)
    else if StartsWith(lines[0], "Slaves:") then NodesSection(lines[1..], master, slaves + SlaveNames(lines[0][7..]))
    else NodesSection(lines[1..], master, slaves)
  }

  function SignalsSection(stod: Stod, lines: seq<string>, signals: Signals): (r: (Signals, seq<string>))
    ensures |r.1| <= |lines|
  {
    if lines == [] then (signals, [])
    else if lines[0] == "}" then (signals, lines[1..])
    else match SignalLine(stod, lines[0])
      case None => SignalsSection(stod, lines[1..], signals)
      case Some(s) => SignalsSection(stod, lines[1..], signals[s.name := s])
  }

  function RefLines(lines: seq<string>, refs: seq<SignalRef>): (r: (seq<SignalRef>, seq<string>))
    ensures |r.1| <= |lines|
  {
    if lines == [] then (refs, [])
    else if lines[0] == "}" then (refs, lines[1..])
    else match RefLine(lines[0])
      case None => RefLines(lines[1..], refs)
      case Some(ref) => RefLines(lines[1..], refs + [ref])
  }

  function FramesSection(lines: seq<string>, frames: Frames): (r: (Frames, seq<string>))
    ensures |r.1| <= |lines|
    decreases |lines|
  {
    if lines == [] then (frames, [])
    else if lines[0] == "}" then (frames, lines[1..])
    else if '{' !in lines[0] then FramesSection(lines[1..], frames)
    else match FrameHeader(lines[0])
      case None => FramesSection(lines[1..], frames)
      case Some(f) =>
        var (refs, rest) := RefLines(lines[1..], []);
        FramesSection(rest, frames[f.id := f.(signals := refs)])
  }

  function EntryLines(stod: Stod, frames: Frames, lines: seq<string>, entries: seq<ScheduleEntry>)
    : (r: (seq<ScheduleEntry>, seq<string>))
    ensures |r.1| <= |lines|
  {
    if lines == [] then (entries, [])
    else if lines[0] == "}" then (entries, lines[1..])
    else match ScheduleLine(stod, frames, lines[0])
      case None => EntryLines(stod, frames, lines[1..], entries)
      case Some(e) => EntryLines(stod, frames, lines[1..], entries + [e])
  }

  predicate EndsWithBrace(line: string) {
    line != "" && line[|line| - 1] == '{'
  }

  function TablesSection(stod: Stod, frames: Frames, lines: seq<string>, schedules: Schedules)
    : (r: (Schedules, seq<string>))
    ensures |r.1| <= |lines|
    decreases |lines|
  {
    if lines == [] then (schedules, [])
    else if lines[0] == "}" then (schedules, lines[1..])
    else if EndsWithBrace(lines[0]) then
      var (entries, rest) := EntryLines(stod, frames, lines[1..], []);
      TablesSection(stod, frames, rest, schedules[Trim(lines[0][..|lines[0]| - 1]) := entries])
    else TablesSection(stod, frames, lines[1..], schedules)
  }

  datatype Section = ProtocolVersion | LanguageVersion | Speed | NodesHead | SignalsHead | FramesHead | TablesHead | Other

  function SectionOf(line: string): Section {
    if StartsWith(line, "LIN_protocol_version") then ProtocolVersion
    else if StartsWith(line, "LIN_language_version") then LanguageVersion
    else if StartsWith(line, "LIN_speed") then Speed
    else if StartsWith(line, "Nodes") then NodesHead
    else if StartsWith(line, "Signals") then SignalsHead
    else if StartsWith(line, "Frames") then FramesHead
    else if StartsWith(line, "Schedule_tables") then TablesHead
    else Other
  }

  /** One turn of the outer loop. */
  function TopStep(stod: Stod, lines: seq<string>, db: Content): (r: (Content, seq<string>))
    requires lines != []
    ensures |r.1| < |lines|
  {
    var line, body := lines[0], SkipBrace(lines[1..]);
    match SectionOf(line)
    case ProtocolVersion => (db.(protocolVersion := QuotedValue(line)), lines[1..])
    case LanguageVersion => (db.(languageVersion := QuotedValue(line)), lines[1..])
    case Speed => (db.(speed := FloatValue(stod, Words(line))), lines[1..])
    case NodesHead =>
      var (master, slaves, rest) := NodesSection(body, db.masterNode, db.slaveNodes);
      (db.(masterNode := master, slaveNodes := slaves), rest)
    case SignalsHead =>
      var (signals, rest) := SignalsSection(stod, body, db.signals);
      (db.(signals := signals), rest)
    case FramesHead =>
      var (frames, rest) := FramesSection(body, db.frames);
      (db.(frames := frames), rest)
    case TablesHead =>
      var (schedules, rest) := TablesSection(stod, db.frames, body, db.schedules);
      (db.(schedules := schedules), rest)
    case Other => (db, lines[1..])
  }

  function Top(stod: Stod, lines: seq<string>, db: Content): Content
    decreases |lines|
  {
    if lines == [] then db
    else
      var (db', rest) := TopStep(stod, lines, db);
      Top(stod, rest, db')
  }

  /** The lines that count: comments and surrounding blanks removed, empty ones dropped. */
  function LinesOf(raw: seq<string>): (r: seq<string>)
    ensures "" !in r
  {
    if raw == [] then []
    else (if StripComment(raw[0]) == "" then [] else [StripComment(raw[0])]) + LinesOf(raw[1..])
  }

  function Parse(stod: Stod, text: string): Content {
    Top(stod, LinesOf(Split(text, '\n')), EMPTY)
  }

  // ---- What every database keeps ----

  ghost predicate SignalsInv(signals: Signals) {
    forall name :: name in signals ==> signals[name].name == name && 0 <= signals[name].bitWidth <= 64
  }

  ghost predicate FramesInv(frames: Frames) {
    forall id :: id in frames ==> frames[id].id == id
  }

  ghost predicate EntriesInv(frames: Frames, entries: seq<ScheduleEntry>) {
    forall i :: 0 <= i < |entries| ==> entries[i].id in frames && entries[i].id <= MAX_ID
  }

  ghost predicate SchedulesInv(frames: Frames, schedules: Schedules) {
    forall name :: name in schedules ==> EntriesInv(frames, schedules[name])
  }

  ghost predicate ContentInv(db: Content) {
    SignalsInv(db.signals) && FramesInv(db.frames) && SchedulesInv(db.frames, db.schedules)
  }

  lemma {:induction false} SignalsSectionKeeps(stod: Stod, lines: seq<string>, signals: Signals)
    requires SignalsInv(signals)
    ensures SignalsInv(SignalsSection(stod, lines, signals).0)
  {
    hide SignalLine;
    if lines != [] && lines[0] != "}" {
      match SignalLine(stod, lines[0])
      case None => SignalsSectionKeeps(stod, lines[1..], signals);
      case Some(s) => SignalsSectionKeeps(stod, lines[1..], signals[s.name := s]);
    }
  }

  /** Frames are only added or replaced. */
  lemma {:induction false} FramesSectionKeeps(lines: seq<string>, frames: Frames)
    requires FramesInv(frames)
    ensures FramesInv(FramesSection(lines, frames).0)
    ensures forall id :: id in frames ==> id in FramesSection(lines, frames).0
    decreases |lines|
  {
    hide FrameHeader, RefLines;
    if lines != [] && lines[0] != "}" {
      if '{' !in lines[0] || FrameHeader(lines[0]).None? {
        FramesSectionKeeps(lines[1..], frames);
      } else {
        var f := FrameHeader(lines[0]).value;
        var (refs, rest) := RefLines(lines[1..], []);
        FramesSectionKeeps(rest, frames[f.id := f.(signals := refs)]);
      }
    }
  }

  lemma {:induction false} EntryLinesKeep(stod: Stod, frames: Frames, lines: seq<string>, entries: seq<ScheduleEntry>)
    requires EntriesInv(frames, entries)
    ensures EntriesInv(frames, EntryLines(stod, frames, lines, entries).0)
  {
    hide ScheduleLine;
    if lines != [] && lines[0] != "}" {
      match ScheduleLine(stod, frames, lines[0])
      case None => EntryLinesKeep(stod, frames, lines[1..], entries);
      case Some(e) => EntryLinesKeep(stod, frames, lines[1..], entries + [e]);
    }
  }

  lemma {:induction false} TablesSectionKeeps(stod: Stod, frames: Frames, lines: seq<string>, schedules: Schedules)
    requires SchedulesInv(frames, schedules)
    ensures SchedulesInv(frames, TablesSection(stod, frames, lines, schedules).0)
    decreases |lines|
  {
    hide EntryLines, Trim;
    if lines != [] && lines[0] != "}" {
      if EndsWithBrace(lines[0]) {
        var (entries, rest) := EntryLines(stod, frames, lines[1..], []);
        EntryLinesKeep(stod, frames, lines[1..], []);
        TablesSectionKeeps(stod, frames, rest, schedules[Trim(lines[0][..|lines[0]| - 1]) := entries]);
      } else {
        TablesSectionKeeps(stod, frames, lines[1..], schedules);
      }
    }
  }

  lemma SchedulesStay(frames: Frames, frames': Frames, schedules: Schedules)
    requires SchedulesInv(frames, schedules) && forall id :: id in frames ==> id in frames'
    ensures SchedulesInv(frames', schedules)
  {
  }

  lemma TopStepKeeps(stod: Stod, lines: seq<string>, db: Content)
    requires lines != [] && ContentInv(db)
    ensures ContentInv(TopStep(stod, lines, db).0)
  {
    hide SectionOf, SkipBrace, NodesSection, SignalsSection, FramesSection, TablesSection, SignalsInv, FramesInv,
      SchedulesInv, QuotedValue, FloatValue, Words;
    var body := SkipBrace(lines[1..]);
    SignalsSectionKeeps(stod, body, db.signals);
    FramesSectionKeeps(body, db.frames);
    SchedulesStay(db.frames, FramesSection(body, db.frames).0, db.schedules);
    TablesSectionKeeps(stod, db.frames, body, db.schedules);
  }

  lemma {:induction false} TopKeeps(stod: Stod, lines: seq<string>, db: Content)
    requires ContentInv(db)
    ensures ContentInv(Top(stod, lines, db))
    decreases |lines|
  {
    hide ContentInv, TopStep;
    if lines != [] {
      TopStepKeeps(stod, lines, db);
      var (db', rest) := TopStep(stod, lines, db);
      TopKeeps(stod, rest, db');
    }
  }

  /** Whatever the text, the database keeps its invariants. */
  lemma ParseKeeps(stod: Stod, text: string)
    ensures ContentInv(Parse(stod, text))
  {
    hide Top, LinesOf, Split;
    TopKeeps(stod, LinesOf(Split(text, '\n')), EMPTY);
  }
}
