/** The database object and the line-driven parser of src/ldf/parser.cpp. */
module LdfParser {
  import opened Bytes
  import opened Lin
  import opened Text
  import opened Decode
  import opened Ldf
  import opened Wrappers

  // ---- Loops over the tokens of a line ----

  /** getline at commas, each token trimmed. */
  method CommaFields(s: string) returns (parts: seq<string>)
    ensures parts == Fields(s)
  {
    hide Trim, Find, AfterToken;
    parts := [];
    var rest := s;
    while rest != []
      invariant parts + Fields(rest) == Fields(s)
      decreases |rest|
    {
      FirstField(rest);
      parts := parts + [Trim(rest[..Find(rest, ',')])];
      rest := AfterToken(rest, ',');
    }
  }

  lemma FirstField(s: string)
    requires s != []
    ensures Fields(s) == [Trim(s[..Find(s, ',')])] + Fields(AfterToken(s, ','))
  {
    hide Trim, Find, AfterToken;
  }

  /** Tokens between blanks. */
  method BlankFields(s: string) returns (words: seq<string>)
    ensures words == Words(s)
  {
    hide IsSpace, WordLength;
    words := [];
    var rest := s;
    while rest != []
      invariant words + Words(rest) == Words(s)
      decreases |rest|
    {
      if IsSpace(rest[0]) {
        rest := rest[1..];
      } else {
        words := words + [rest[..WordLength(rest)]];
        FirstWord(rest);
        rest := rest[WordLength(rest)..];
      }
    }
  }

  lemma FirstWord(s: string)
    requires s != [] && !IsSpace(s[0])
    ensures WordLength(s) > 0
  {
  }

  /** Appends the tokens that are not empty. */
  method KeepNonEmpty(names: seq<string>, parts: seq<string>) returns (r: seq<string>)
    ensures r == names + NonEmpty(parts)
  {
    r := names;
    for i := 0 to |parts|
      invariant r + NonEmpty(parts[i..]) == names + NonEmpty(parts)
    {
      assert parts[i..][1..] == parts[i + 1..];
      if parts[i] != "" {
        r := r + [parts[i]];
      }
    }
  }

  method SubscriberNames(parts: seq<string>) returns (names: seq<string>)
    ensures names == Subscribers(parts)
  {
    hide NonEmpty, Fields;
    names := [];
    for i := 0 to |parts|
      invariant names + Subscribers(parts[i..]) == Subscribers(parts)
    {
      assert parts[i..][1..] == parts[i + 1..];
      var tokens := CommaFields(parts[i]);
      names := KeepNonEmpty(names, tokens);
    }
  }

  // ---- The database ----

  class Database {
    var protocolVersion: string
    var languageVersion: string
    var speed: real
    var masterNode: string
    var slaveNodes: seq<string>
    var signals: Signals
    var frames: Frames
    var schedules: Schedules

    ghost function Now(): Content
      reads this
    {
      Content(protocolVersion, languageVersion, speed, masterNode, slaveNodes, signals, frames, schedules)
    }

    constructor ()
      ensures Now() == EMPTY
    {
      protocolVersion, languageVersion, speed, masterNode, slaveNodes := "", "", 0.0, "", [];
      signals, frames, schedules := map[], map[], map[];
    }

    /** Every declared signal of the frame gets its field of the payload; where a frame names a signal twice
        the last offset counts, and an unknown frame gives nothing. */
    method Decode(id: byte, data: seq<byte>) returns (r: map<string, nat>)
      requires ContentInv(Now())
      requires id in frames ==> RefsAddressable(signals, frames[id].signals, data)
      ensures id !in frames ==> r == map[]
      ensures id in frames ==> IsDecoded(r, signals, frames[id].signals, |frames[id].signals|, data)
    {
      if id !in frames {
        return map[];
      }
      r := DecodeRefs(signals, frames[id].signals, data);
    }
  }

  method DecodeRefs(signals: Signals, refs: seq<SignalRef>, data: seq<byte>) returns (r: map<string, nat>)
    requires SignalsInv(signals) && RefsAddressable(signals, refs, data)
    ensures IsDecoded(r, signals, refs, |refs|, data)
  {
    r := map[];
    for i := 0 to |refs|
      invariant IsDecoded(r, signals, refs, i, data)
    {
      hide FieldValue, IsDecoded;
      if refs[i].name in signals {
        var value := ExtractField(data, refs[i].bitOffset, signals[refs[i].name].bitWidth);
        DecodedOneMore(r, signals, refs, i, data);
        r := r[refs[i].name := value];
      } else {
        UnknownSkipped(r, signals, refs, i, data);
      }
    }
  }

  /** What the extraction needs of the offsets that a frame gives its known signals. */
  predicate RefsAddressable(signals: Signals, refs: seq<SignalRef>, data: seq<byte>) {
    forall i :: 0 <= i < |refs| && refs[i].name in signals ==>
      Addressable(data, refs[i].bitOffset, signals[refs[i].name].bitWidth)
  }

  /** Another of the first n references names the same signal again. */
  predicate NamedLater(refs: seq<SignalRef>, i: nat, n: nat)
    requires i < n <= |refs|
  {
    exists j :: i < j < n && refs[j].name == refs[i].name
  }

  /** The values that the first n references select from a payload. */
  ghost predicate IsDecoded(r: map<string, nat>, signals: Signals, refs: seq<SignalRef>, n: nat, data: seq<byte>)
    requires SignalsInv(signals) && RefsAddressable(signals, refs, data) && n <= |refs|
  {
    && (forall name :: name in r ==> name in signals && exists i :: 0 <= i < n && refs[i].name == name)
    && (forall i :: 0 <= i < n && refs[i].name in signals ==> refs[i].name in r)
    && (forall i :: 0 <= i < n && refs[i].name in signals && !NamedLater(refs, i, n) ==>
          r[refs[i].name] == FieldValue(data, refs[i].bitOffset, signals[refs[i].name].bitWidth))
  }

  lemma DecodedOneMore(r: map<string, nat>, signals: Signals, refs: seq<SignalRef>, n: nat, data: seq<byte>)
    requires SignalsInv(signals) && RefsAddressable(signals, refs, data) && n < |refs| && refs[n].name in signals
    requires IsDecoded(r, signals, refs, n, data)
    ensures IsDecoded(r[refs[n].name := FieldValue(data, refs[n].bitOffset, signals[refs[n].name].bitWidth)],
                      signals, refs, n + 1, data)
  {
    hide FieldValue, NamedLater;
    forall i | 0 <= i < n
      ensures NamedLater(refs, i, n + 1) <==> NamedLater(refs, i, n) || refs[n].name == refs[i].name
    {
      LaterOneMore(refs, i, n);
    }
  }

  lemma LaterOneMore(refs: seq<SignalRef>, i: nat, n: nat)
    requires i < n < |refs|
    ensures NamedLater(refs, i, n + 1) <==> NamedLater(refs, i, n) || refs[n].name == refs[i].name
  {
  }

  lemma UnknownSkipped(r: map<string, nat>, signals: Signals, refs: seq<SignalRef>, n: nat, data: seq<byte>)
    requires SignalsInv(signals) && RefsAddressable(signals, refs, data) && n < |refs| && refs[n].name !in signals
    requires IsDecoded(r, signals, refs, n, data)
    ensures IsDecoded(r, signals, refs, n + 1, data)
  {
    hide FieldValue, NamedLater;
    forall i | 0 <= i < n
      ensures NamedLater(refs, i, n + 1) <==> NamedLater(refs, i, n) || refs[n].name == refs[i].name
    {
      LaterOneMore(refs, i, n);
    }
  }

  // ---- The parser ----

  class Parser {
    const stod: Stod
    const lines: seq<string>
    var pos: nat

    constructor (stod: Stod, lines: seq<string>)
      ensures this.stod == stod && this.lines == lines && pos == 0
    {
      this.stod, this.lines, pos := stod, lines, 0;
    }

    function Rest(): seq<string>
      reads this
      requires pos <= |lines|
    {
      lines[pos..]
    }

    method SkipOpeningBrace()
      requires pos <= |lines|
      modifies this
      ensures pos <= |lines| && Rest() == SkipBrace(old(Rest()))
    {
      if pos < |lines| && lines[pos] != "" && lines[pos][0] == '{' {
        pos := pos + 1;
      }
    }

    method ParseNodes(db: Database)
      requires pos <= |lines|
      modifies this, db`masterNode, db`slaveNodes
      ensures pos <= |lines|
      ensures (db.masterNode, db.slaveNodes, Rest()) ==
              NodesSection(SkipBrace(old(Rest())), old(db.masterNode), old(db.slaveNodes))
    {
      hide StripSemicolon, Trim, NonEmpty, Fields;
      SkipOpeningBrace();
      ghost var section := NodesSection(Rest(), db.masterNode, db.slaveNodes);
      while pos < |lines|
        invariant pos <= |lines| && section == NodesSection(Rest(), db.masterNode, db.slaveNodes)
        decreases |lines| - pos
      {
        var line := lines[pos];
        pos := pos + 1;
        if line == "}" {
          return;
        }
        if StartsWith(line, "Master:") {
          var rest := Trim(line[7..]);
          db.masterNode := StripSemicolon(rest[..Find(rest, ',')]);
        } else if StartsWith(line, "Slaves:") {
          var tokens := CommaFields(StripSemicolon(Trim(line[7..])));
          db.slaveNodes := KeepNonEmpty(db.slaveNodes, tokens);
        }
      }
    }

    /** A line of the signals section. */
    method ParseSignal(text: string) returns (signal: Option<Signal>)
      ensures signal == SignalLine(stod, text)
    {
      hide StripSemicolon, Trim, Fields, ParseInt, ParseUint, Subscribers;
      var line := StripSemicolon(text);
      var colon := Find(line, ':');
      if colon == |line| {
        return None;
      }
      var name := Trim(line[..colon]);
      var parts := CommaFields(Trim(line[colon + 1..]));
      if |parts| < 3 {
        return None;
      }
      var width := match ParseInt(parts[0]) case Some(x) => ToInt(x) case None => 0;
      if width < 0 {
        width := 0;
      } else if width > 64 {
        width := 64;
      }
      var init := match ParseUint(stod, parts[1]) case Some(x) => x case None => 0;
      var subscribers := SubscriberNames(parts[3..]);
      signal := Some(Signal(name, width, init, Trim(parts[2]), subscribers));
    }

    method ParseSignals(db: Database)
      requires pos <= |lines|
      modifies this, db`signals
      ensures pos <= |lines|
      ensures (db.signals, Rest()) == SignalsSection(stod, SkipBrace(old(Rest())), old(db.signals))
    {
      hide SignalLine;
      SkipOpeningBrace();
      ghost var section := SignalsSection(stod, Rest(), db.signals);
      while pos < |lines|
        invariant pos <= |lines| && section == SignalsSection(stod, Rest(), db.signals)
        decreases |lines| - pos
      {
        var line := lines[pos];
        pos := pos + 1;
        if line == "}" {
          return;
        }
        var signal := ParseSignal(line);
        if signal.Some? {
          db.signals := db.signals[signal.value.name := signal.value];
        }
      }
    }

    method ParseFrameHeader(line: string) returns (frame: Option<LdfFrame>)
      ensures frame == FrameHeader(line)
    {
      hide Trim, Fields, FrameOf;
      var hdr := line;
      var brace := FindLast(hdr, '{');
      if brace >= 0 {
        hdr := Trim(hdr[..brace]);
      }
      var colon := Find(hdr, ':');
      if colon == |hdr| {
        return None;
      }
      var name := Trim(hdr[..colon]);
      var parts := CommaFields(Trim(hdr[colon + 1..]));
      var fields := ParseFrameFields(name, parts);
      frame := Some(fields);
    }

    method ParseFrameFields(name: string, parts: seq<string>) returns (frame: LdfFrame)
      ensures frame == FrameOf(name, parts)
    {
      hide Trim, ParseInt;
      frame := LdfFrame(name, 0, "", 0, []);
      if |parts| >= 3 {
        match ParseInt(parts[0]) {
          case Some(x) => frame := frame.(id := x % 256);
          case None =>
        }
        frame := frame.(publisher := Trim(parts[1]));
        match ParseInt(parts[2]) {
          case Some(x) => frame := frame.(length := ToInt(x));
          case None =>
        }
      }
    }

    /** The signal references of a frame. */
    method ParseRefs() returns (refs: seq<SignalRef>)
      requires pos <= |lines|
      modifies this
      ensures pos <= |lines| && (refs, Rest()) == RefLines(old(Rest()), [])
    {
      hide StripSemicolon, Trim, ParseInt;
      refs := [];
      ghost var section := RefLines(Rest(), refs);
      while pos < |lines|
        invariant pos <= |lines| && section == RefLines(Rest(), refs)
        decreases |lines| - pos
      {
        var inner := lines[pos];
        pos := pos + 1;
        if inner == "}" {
          return;
        }
        var l := StripSemicolon(inner);
        var comma := Find(l, ',');
        if comma < |l| {
          var offset := match ParseInt(Trim(l[comma + 1..])) case Some(x) => ToInt(x) case None => 0;
          refs := refs + [SignalRef(Trim(l[..comma]), offset)];
        }
      }
    }

    method ParseFrames(db: Database)
      requires pos <= |lines|
      modifies this, db`frames
      ensures pos <= |lines|
      ensures (db.frames, Rest()) == FramesSection(SkipBrace(old(Rest())), old(db.frames))
    {
      hide FrameHeader, RefLines;
      SkipOpeningBrace();
      ghost var section := FramesSection(Rest(), db.frames);
      while pos < |lines|
        invariant pos <= |lines| && section == FramesSection(Rest(), db.frames)
        decreases |lines| - pos
      {
        var line := lines[pos];
        pos := pos + 1;
        if line == "}" {
          return;
        }
        if '{' in line {
          var frame := ParseFrameHeader(line);
          if frame.Some? {
            var refs := ParseRefs();
            db.frames := db.frames[frame.value.id := frame.value.(signals := refs)];
          }
        }
      }
    }

    /** The first frame with this name, in the order of the map. */
    method FrameId(db: Database, name: string) returns (id: byte)
      ensures id == IdOfName(db.frames, name, 0)
    {
      for k := 0 to 256
        invariant IdOfName(db.frames, name, k) == IdOfName(db.frames, name, 0)
      {
        if k in db.frames && db.frames[k].name == name {
          return k;
        }
      }
      id := NO_FRAME;
    }

    /** A line of a schedule table. */
    method ParseEntry(db: Database, text: string) returns (entry: Option<ScheduleEntry>)
      ensures entry == ScheduleLine(stod, db.frames, text)
    {
      hide StripSemicolon, Words, ParseUint, Lower;
      var inner := StripSemicolon(text);
      if StartsWith(inner, "AssignFrameId") {
        return None;
      }
      var parts := BlankFields(inner);
      if |parts| < 3 {
        return None;
      }
      for i := 1 to |parts|
        invariant DelayAt(parts, i) == DelayAt(parts, 1)
      {
        if Lower(parts[i]) == "delay" && i + 1 < |parts| {
          var delay := match ParseUint(stod, parts[i + 1]) case Some(x) => x % TWO32 case None => 0;
          var id := FrameId(db, parts[0]);
          return if id <= MAX_ID then Some(ScheduleEntry(id, delay)) else None;
        }
      }
      entry := None;
    }

    method ParseEntries(db: Database) returns (entries: seq<ScheduleEntry>)
      requires pos <= |lines|
      modifies this
      ensures pos <= |lines| && (entries, Rest()) == EntryLines(stod, db.frames, old(Rest()), [])
    {
      hide ScheduleLine;
      entries := [];
      ghost var section := EntryLines(stod, db.frames, Rest(), entries);
      while pos < |lines|
        invariant pos <= |lines| && section == EntryLines(stod, db.frames, Rest(), entries)
        decreases |lines| - pos
      {
        var inner := lines[pos];
        pos := pos + 1;
        if inner == "}" {
          return;
        }
        var entry := ParseEntry(db, inner);
        if entry.Some? {
          entries := entries + [entry.value];
        }
      }
    }

    method ParseScheduleTables(db: Database)
      requires pos <= |lines|
      modifies this, db`schedules
      ensures pos <= |lines|
      ensures (db.schedules, Rest()) == TablesSection(stod, db.frames, SkipBrace(old(Rest())), old(db.schedules))
    {
      hide EntryLines, Trim;
      SkipOpeningBrace();
      ghost var section := TablesSection(stod, db.frames, Rest(), db.schedules);
      while pos < |lines|
        invariant pos <= |lines| && section == TablesSection(stod, db.frames, Rest(), db.schedules)
        decreases |lines| - pos
      {
        var line := lines[pos];
        pos := pos + 1;
        if line == "}" {
          return;
        }
        if EndsWithBrace(line) {
          var name := Trim(line[..|line| - 1]);
          var entries := ParseEntries(db);
          db.schedules := db.schedules[name := entries];
        }
      }
    }

    method FirstFloat(words: seq<string>) returns (x: real)
      ensures x == FloatValue(stod, words)
    {
      hide StripSemicolon;
      for i := 0 to |words|
        invariant FloatValue(stod, words[i..]) == FloatValue(stod, words)
      {
        assert words[i..][1..] == words[i + 1..];
        match stod(StripSemicolon(words[i]))
        case Some(value) => return value;
        case None =>
      }
      x := 0.0;
    }

    /** One turn of the outer loop. */
    method ParseSection(db: Database)
      requires pos < |lines|
      modifies this, db
      ensures pos <= |lines| && (db.Now(), Rest()) == TopStep(stod, old(Rest()), old(db.Now()))
      ensures pos > old(pos)
    {
      hide NodesSection, SignalsSection, FramesSection, TablesSection, SectionOf, SkipBrace, QuotedValue, Words,
        FloatValue;
      var line := lines[pos];
      pos := pos + 1;
      match SectionOf(line)
      case ProtocolVersion => db.protocolVersion := QuotedValue(line);
      case LanguageVersion => db.languageVersion := QuotedValue(line);
      case Speed =>
        var words := BlankFields(line);
        db.speed := FirstFloat(words);
      case NodesHead => ParseNodes(db);
      case SignalsHead => ParseSignals(db);
      case FramesHead => ParseFrames(db);
      case TablesHead => ParseScheduleTables(db);
      case Other =>
    }

    method ParseTop(db: Database)
      requires pos <= |lines|
      modifies this, db
      ensures pos == |lines| && db.Now() == Top(stod, old(Rest()), old(db.Now()))
    {
      hide TopStep;
      ghost var all := Top(stod, Rest(), db.Now());
      while pos < |lines|
        invariant pos <= |lines| && all == Top(stod, Rest(), db.Now())
        decreases |lines| - pos
      {
        ParseSection(db);
      }
    }
  }

  /** The lines of a stream, without comments and empty lines. */
  method ReadLines(text: string) returns (lines: seq<string>)
    ensures lines == LinesOf(Split(text, '\n'))
  {
    hide StripComment, Find, AfterToken, Split, LinesOf;
    NoLines();
    lines := [];
    var rest := text;
    while rest != []
      invariant lines + LinesOf(Split(rest, '\n')) == LinesOf(Split(text, '\n'))
      decreases |rest|
    {
      FirstLine(rest);
      var line := StripComment(rest[..Find(rest, '\n')]);
      if line != "" {
        lines := lines + [line];
      }
      rest := AfterToken(rest, '\n');
    }
  }

  lemma NoLines()
    ensures LinesOf(Split("", '\n')) == []
  {
  }

  lemma FirstLine(s: string)
    requires s != []
    ensures var line := StripComment(s[..Find(s, '\n')]);
            LinesOf(Split(s, '\n')) == (if line == "" then [] else [line]) + LinesOf(Split(AfterToken(s, '\n'), '\n'))
  {
    hide StripComment, Find, AfterToken;
  }

  method ParseText(stod: Stod, text: string) returns (db: Database)
    ensures fresh(db) && db.Now() == Parse(stod, text) && ContentInv(db.Now())
  {
    hide Top, LinesOf, Split;
    db := new Database();
    var lines := ReadLines(text);
    var parser := new Parser(stod, lines);
    parser.ParseTop(db);
    ParseKeeps(stod, text);
  }
}
