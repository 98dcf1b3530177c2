/** What the LDF parser makes of single lines and numbers, also of those that no well-formed description
    holds. */
module LdfLaws {
  import opened Wrappers
  import opened Bytes
  import opened Lin
  import opened Text
  import opened Ldf
  import opened LdfPrint

  // ---- Numbers ----

  /** Signed decimals, and what is none. */
  lemma ParseIntDecimal(sign: string, n: nat)
    requires sign == "" || sign == "+" || sign == "-"
    ensures ParseInt(sign + Decimal(n)) ==
            if sign == "-" then if n > 0x8000_0000_0000_0000 then None else Some(-(n as int))
            else if n > 0x7FFF_FFFF_FFFF_FFFF then None else Some(n as int)
  {
    hide ParseSigned;
    var text := sign + Decimal(n);
    ParseDecimal("", sign, n, "");
    assert "" + (sign + (Decimal(n) + "")) == text;
    SignedText(sign, n);
  }

  lemma SignedText(sign: string, n: nat)
    requires sign == "" || sign == "+" || sign == "-"
    ensures StripSemicolon(sign + Decimal(n)) == sign + Decimal(n) && !HasHexPrefix(sign + Decimal(n))
  {
    var d := Decimal(n);
    DecimalWord(n);
    WordTrimmed(d);
    if sign == "" {
      assert sign + d == d;
      NoHexPrefix(n);
    } else {
      var text := sign + d;
      assert text[0] == sign[0] && text[|text| - 1] == d[|d| - 1];
      StripTerminated(text);
      if |text| > 2 {
        assert text[..2][0] == sign[0];
      }
    }
  }

  lemma ParseIntOfText(text: string)
    requires IsWord(text) && !IsDigit(text[0], 10) && text[0] != '+' && text[0] != '-'
    ensures ParseInt(text) == None
  {
    hide ParseSigned, IsWord;
    WordTrimmed(text);
    StripTerminated(text);
    DarkStart(text);
    assert "" + ("" + text) == text;
    ParseNoNumber("", "", text);
    if |text| > 2 {
      assert text[..2][0] == text[0];
    }
  }

  lemma DarkStart(text: string)
    requires IsWord(text)
    ensures StartsDark(text)
  {
    assert IsPlain(text[0]);
  }

  /** What std::stod reads is cut down to an integer towards zero; what it does not read is tried as a decimal
      integer. */
  lemma ParseUintByStod(stod: Stod, text: string)
    requires IsWord(text) && !HasHexPrefix(text)
    ensures match stod(text)
            case None => ParseUint(stod, text) == ParseUnsigned(text, 10)
            case Some(x) =>
              && (0.0 <= x < 18446744073709551616.0 ==>
                   exists n: nat :: ParseUint(stod, text) == Some(n) && n as real <= x < n as real + 1.0)
              && (-1.0 < x < 0.0 ==> ParseUint(stod, text) == Some(0))
  {
    hide IsWord;
    WordTrimmed(text);
    StripTerminated(text);
    match stod(text)
    case None =>
    case Some(x) =>
      if 0.0 <= x < 18446744073709551616.0 {
        var n := Truncate(x);
        assert n % 0x1_0000_0000_0000_0000 == n;
        assert ParseUint(stod, text) == Some(n as nat);
      }
  }

  // ---- Signals ----

  /** Two's complement in 32 bits. */
  function Wrap32(x: int): int {
    (x + 0x8000_0000) % 0x1_0000_0000 - 0x8000_0000
  }

  lemma WrapIsCast()
    ensures forall x :: ToInt(x) == Wrap32(x)
  {
  }

  /** A signal line with any words for its numbers: what cannot be read is zero, and widths are cut down to 0
      and 64. */
  lemma SignalLineRead(stod: Stod, name: string, width: string, init: string, publisher: string, subscribers: seq<string>)
    requires IsWord(name) && IsWord(width) && IsWord(init) && IsWord(publisher) && AreWords(subscribers)
    ensures var line := PrintSignal(Signal(name, 0, 0, publisher, subscribers), width, init);
      var w := match ParseInt(width) case Some(x) => Wrap32(x) case None => 0;
      var v := match ParseUint(stod, init) case Some(x) => x case None => 0;
      SignalLine(stod, line) ==
      Some(Signal(name, if w < 0 then 0 else if w > 64 then 64 else w, v, publisher, subscribers))
  {
    hide IsWord, Fields, Trim, Find, StripSemicolon, Subscribers, ParseInt, ParseUint, IsTrimmed, Listed;
    var parts := [width, init, publisher] + subscribers;
    NameAndRest(name, parts);
    StripTerminated(name + (":" + (" " + Listed(parts))));
    SubscribersListed(subscribers);
    WordTrimmed(publisher);
    TrimTrimmed(publisher);
    assert parts[3..] == subscribers;
  }

  /** Too few fields, or no colon, and there is no signal. */
  lemma SignalLineShort(stod: Stod, name: string, parts: seq<string>)
    requires IsWord(name) && parts != [] && AreWords(parts) && |parts| < 3
    ensures SignalLine(stod, name + (":" + (" " + Listed(parts))) + ";") == None
    ensures SignalLine(stod, name) == None
  {
    hide IsWord, Fields, Trim, Find, StripSemicolon, ParseInt, ParseUint, IsTrimmed, Listed;
    NameAndRest(name, parts);
    StripTerminated(name + (":" + (" " + Listed(parts))));
    WordTrimmed(name);
    StripTerminated(name);
    FindAt(name, ':', []);
  }

  /** Empty subscriber fields are dropped. */
  lemma {:induction false} EmptyDropped(a: seq<string>, b: seq<string>)
    ensures NonEmpty(a + [""] + b) == NonEmpty(a + b)
  {
    if a == [] {
      assert (a + [""] + b)[1..] == b && a + b == b;
    } else {
      assert (a + [""] + b)[1..] == a[1..] + [""] + b && (a + b)[1..] == a[1..] + b;
      EmptyDropped(a[1..], b);
    }
  }

  // ---- Frames ----

  /** A frame header with any words for its numbers, and one with too few fields. */
  lemma FrameHeaderRead(name: string, id: string, publisher: string, length: string)
    requires IsWord(name) && IsWord(id) && IsWord(publisher) && IsWord(length)
    ensures var f := LdfFrame(name, 0, publisher, 0, []);
      FrameHeader(PrintHeader(f, id, length)) ==
      Some(f.(id := (match ParseInt(id) case Some(x) => x % 256 case None => 0),
              length := (match ParseInt(length) case Some(x) => Wrap32(x) case None => 0)))
  {
    hide Trim, ParseInt, Fields, IsWord, Find, IsTrimmed, Listed, FrameOf;
    var f := LdfFrame(name, 0, publisher, 0, []);
    var parts := [id, publisher, length];
    var l := name + (":" + (" " + Listed(parts)));
    NameAndRest(name, parts);
    TrimTrimmed(l);
    var line := PrintHeader(f, id, length);
    assert line == l + " " + "{" && line[|line| - 1] == '{' && line[..|line| - 1] == l + " ";
    FrameOfRead(name, id, publisher, length);
  }

  lemma FrameOfRead(name: string, id: string, publisher: string, length: string)
    requires IsWord(publisher)
    ensures FrameOf(name, [id, publisher, length]) ==
            LdfFrame(name, match ParseInt(id) case Some(x) => x % 256 case None => 0, publisher,
                     match ParseInt(length) case Some(x) => Wrap32(x) case None => 0, [])
  {
    hide Trim, ParseInt, IsWord;
    WordTrimmed(publisher);
    TrimTrimmed(publisher);
  }

  lemma FrameHeaderShort(name: string, parts: seq<string>)
    requires IsWord(name) && parts != [] && AreWords(parts) && |parts| < 3
    ensures FrameHeader(name + (":" + (" " + Listed(parts))) + " " + "{") == Some(LdfFrame(name, 0, "", 0, []))
    ensures FrameHeader(name + " " + "{") == None
  {
    hide Trim, ParseInt, Fields, IsWord, Find, IsTrimmed, Listed;
    var l := name + (":" + (" " + Listed(parts)));
    NameAndRest(name, parts);
    TrimTrimmed(l);
    var line := l + " " + "{";
    assert line[|line| - 1] == '{' && line[..|line| - 1] == l + " ";
    WordTrimmed(name);
    TrimTrimmed(name);
    var bare := name + " " + "{";
    assert bare[|bare| - 1] == '{' && bare[..|bare| - 1] == name + " ";
    FindAt(name, ':', []);
  }

  /** A reference with any word for its offset, and a line without a comma. */
  lemma RefLineRead(name: string, offset: string)
    requires IsWord(name) && IsWord(offset)
    ensures RefLine(PrintRef(SignalRef(name, 0), offset)) ==
            Some(SignalRef(name, match ParseInt(offset) case Some(x) => Wrap32(x) case None => 0))
    ensures RefLine(name + ";") == None
  {
    hide IsWord, Trim, StripSemicolon, ParseInt, IsBlank, Find, ToInt;
    var l := name + ("," + (" " + offset));
    WordTrimmed(name);
    WordTrimmed(offset);
    StripTerminated(l);
    StripTerminated(name);
    WrapIsCast();
    FindAt(name, ',', " " + offset);
    TrimTrimmed(name);
    TrimTrimmed(offset);
    assert l[..|name|] == name && l[|name| + 1..] == " " + offset;
  }

  // ---- Schedules ----

  /** The lowest identifier of a frame with this name, or 255 if there is none. */
  lemma {:induction false} IdOfNameIff(frames: Frames, name: string, k: nat)
    requires k <= 256
    ensures var id := IdOfName(frames, name, k);
      if exists i: byte :: k <= i && i in frames && frames[i].name == name then
        && k <= id && id in frames && frames[id].name == name
        && forall i: byte :: k <= i < id && i in frames ==> frames[i].name != name
      else id == 255
    decreases 256 - k
  {
    if k < 256 && !(k in frames && frames[k].name == name) {
      IdOfNameIff(frames, name, k + 1);
    }
  }

  /** A schedule line with any word for the delay: the frame is looked up by name, and there is no entry when the
      lookup gives an identifier above 63. */
  lemma ScheduleLineRead(stod: Stod, frames: Frames, name: string, delay: string, ms: string)
    requires IsWord(name) && IsWord(ms) && IsDelay(delay) && !StartsWith(name, "AssignFrameId")
    ensures var id := IdOfName(frames, name, 0);
      ScheduleLine(stod, frames, PrintEntry(name, delay, ms)) ==
      if id > 63 then None
      else Some(ScheduleEntry(id, (match ParseUint(stod, ms) case Some(x) => x case None => 0) % 0x1_0000_0000))
  {
    hide IsWord, Words, StripSemicolon, ParseUint, Lower, IsBlank, IdOfName, StartsWith, IsDelay;
    var tail := " " + (delay + (" " + (ms + (" " + "ms"))));
    var l := name + tail;
    WordTrimmed(name);
    assert !IsBlank('s') by { LetterNotBlank(); }
    assert l[|l| - 1] == 's';
    StripTerminated(l);
    NotAssign(name, tail);
    LowerDelay(delay);
    EntryWords(name, delay, ms);
  }

  /** AssignFrameId commands are no entries. */
  lemma AssignSkipped(stod: Stod, frames: Frames, rest: string)
    requires IsTrimmed("AssignFrameId" + rest)
    ensures ScheduleLine(stod, frames, "AssignFrameId" + rest + ";") == None
  {
    hide Words, IdOfName, ParseUint, IsTrimmed;
    var l := "AssignFrameId" + rest;
    StripTerminated(l);
    assert l[..13] == "AssignFrameId";
  }

  /** The keyword is the first word after the name that spells it and is followed by another. */
  lemma {:induction false} DelayAtFirst(words: seq<string>, i: nat)
    requires i <= |words|
    ensures var k := DelayAt(words, i);
      && (forall j :: i <= j < k ==> Lower(words[j]) != "delay" || j + 1 == |words|)
      && (k < |words| ==> Lower(words[k]) == "delay" && k + 1 < |words|)
    decreases |words| - i
  {
    hide Lower;
    if i < |words| {
      DelayAtFirst(words, i + 1);
    }
  }

  /** A schedule line by its words: the keyword may stand anywhere after the name, the number follows it, and
      what comes then does not matter.  Without the keyword and a number there is no entry. */
  lemma ScheduleLineByWords(stod: Stod, frames: Frames, line: string, k: nat)
    requires !StartsWith(StripSemicolon(line), "AssignFrameId")
    ensures var words := Words(StripSemicolon(line));
      && (1 <= k && k + 1 < |words| && Lower(words[k]) == "delay"
          && (forall j :: 1 <= j < k ==> Lower(words[j]) != "delay") ==>
            var id := IdOfName(frames, words[0], 0);
            ScheduleLine(stod, frames, line) ==
            if id > 63 then None
            else Some(ScheduleEntry(id, (match ParseUint(stod, words[k + 1]) case Some(x) => x case None => 0) % 0x1_0000_0000)))
      && ((forall j :: 1 <= j && j + 1 < |words| ==> Lower(words[j]) != "delay") ==> ScheduleLine(stod, frames, line) == None)
  {
    hide StripSemicolon, Words, Lower, StartsWith, IdOfName, ParseUint, DelayAt;
    var words := Words(StripSemicolon(line));
    if |words| >= 1 {
      DelayAtFirst(words, 1);
      if 1 <= k && k + 1 < |words| && Lower(words[k]) == "delay" && (forall j :: 1 <= j < k ==> Lower(words[j]) != "delay") {
        assert DelayAt(words, 1) == k;
      }
    }
  }

  // ---- Lines that do not belong ----

  /** In each section a line that declares nothing is passed over, and the end of the text ends it. */
  lemma LinePassedOver(stod: Stod, frames: Frames, line: string, rest: seq<string>)
    requires line != "}"
    ensures ':' !in StripSemicolon(line) ==>
      forall signals :: SignalsSection(stod, [line] + rest, signals) == SignalsSection(stod, rest, signals)
    ensures '{' !in line ==> forall known :: FramesSection([line] + rest, known) == FramesSection(rest, known)
    ensures ',' !in StripSemicolon(line) ==> forall refs :: RefLines([line] + rest, refs) == RefLines(rest, refs)
    ensures |Words(StripSemicolon(line))| < 3 ==>
      forall entries :: EntryLines(stod, frames, [line] + rest, entries) == EntryLines(stod, frames, rest, entries)
    ensures line != "" && line[|line| - 1] != '{' ==>
      forall known :: TablesSection(stod, frames, [line] + rest, known) == TablesSection(stod, frames, rest, known)
    ensures !StartsWith(line, "Master:") && !StartsWith(line, "Slaves:") ==>
      forall m, s :: NodesSection([line] + rest, m, s) == NodesSection(rest, m, s)
  {
    hide StripSemicolon, Words, Find, FrameHeader, StartsWith;
    var all := [line] + rest;
    assert all[0] == line && all[1..] == rest;
    NotFound(StripSemicolon(line), ':');
    NotFound(StripSemicolon(line), ',');
  }

  lemma NotFound(s: string, c: char)
    ensures c !in s ==> Find(s, c) == |s|
  {
    if c !in s {
      FindAt(s, c, []);
    }
  }

  lemma SectionsEnd(stod: Stod, frames: Frames)
    ensures forall signals :: SignalsSection(stod, [], signals) == (signals, [])
    ensures forall known :: FramesSection([], known) == (known, [])
    ensures forall refs :: RefLines([], refs) == (refs, [])
    ensures forall entries :: EntryLines(stod, frames, [], entries) == (entries, [])
    ensures forall known :: TablesSection(stod, frames, [], known) == (known, [])
    ensures forall m, s :: NodesSection([], m, s) == (m, s, [])
  {
  }

  /** Outside the sections every line that is none of the seven heads is passed over. */
  lemma TopLinePassedOver(stod: Stod, line: string, rest: seq<string>, db: Content)
    requires !StartsWith(line, "LIN_protocol_version") && !StartsWith(line, "LIN_language_version")
    requires !StartsWith(line, "LIN_speed") && !StartsWith(line, "Nodes") && !StartsWith(line, "Signals")
    requires !StartsWith(line, "Frames") && !StartsWith(line, "Schedule_tables")
    ensures Top(stod, [line] + rest, db) == Top(stod, rest, db)
  {
    hide StartsWith;
    var all := [line] + rest;
    assert all[0] == line && all[1..] == rest;
  }

  /** Only what stands between two quotation marks is a version. */
  lemma QuotedIff(before: string, value: string, rest: string)
    requires '"' !in before && '"' !in value
    ensures QuotedValue(before + (['"'] + (value + (['"'] + rest)))) == value
    ensures QuotedValue(before + (['"'] + value)) == "" && QuotedValue(before) == ""
  {
    hide Find;
    var line := before + (['"'] + (value + (['"'] + rest)));
    FindAt(before, '"', value + (['"'] + rest));
    FindAt(value, '"', rest);
    FindAt(before, '"', value);
    assert line[|before| + 1..] == value + (['"'] + rest);
    assert line[|before| + 1..|before| + 1 + |value|] == value;
    var open := before + (['"'] + value);
    assert open[|before| + 1..] == value;
  }

  /** The speed is the first word that std::stod reads once a semicolon is gone, and zero if there is none. */
  lemma {:induction false} FloatValueIff(stod: Stod, words: seq<string>)
    ensures (forall i :: 0 <= i < |words| ==> stod(StripSemicolon(words[i])) == None) ==> FloatValue(stod, words) == 0.0
    ensures forall i :: 0 <= i < |words| && stod(StripSemicolon(words[i])).Some?
                        && (forall j :: 0 <= j < i ==> stod(StripSemicolon(words[j])) == None) ==>
              FloatValue(stod, words) == stod(StripSemicolon(words[i])).value
  {
    hide StripSemicolon;
    if words != [] {
      FloatValueIff(stod, words[1..]);
      if stod(StripSemicolon(words[0])) == None {
        forall i | 0 <= i < |words| && stod(StripSemicolon(words[i])).Some?
                   && (forall j :: 0 <= j < i ==> stod(StripSemicolon(words[j])) == None)
          ensures FloatValue(stod, words) == stod(StripSemicolon(words[i])).value
        {
          assert words[1..][i - 1] == words[i];
          assert forall j :: 0 <= j < i - 1 ==> words[1..][j] == words[j + 1];
        }
      }
    }
  }

  /** A master line without a comma. */
  lemma MasterAlone(master: string)
    requires IsWord(master)
    ensures MasterName(" " + (master + ";")) == master && MasterName(" " + master) == master
  {
    hide IsWord, Find, IsBlank;
    WordTrimmed(master);
    NoBlank(';');
    TrimTrimmed(master);
    TrimTrimmed(master + ";");
    FindAt(master, ',', []);
    FindAt(master + ";", ',', []);
    assert master[..|master|] == master && (master + ";")[..|master + ";"|] == master + ";";
    hide Trim, StripSemicolon;
    StripTerminated(master);
  }

  // ---- Which separator counts ----

  /** The first colon ends a signal's or a frame's name, the first comma a reference's, and the last brace a
      frame's header, whatever else follows. */
  lemma FirstSeparators(stod: Stod, name: string, rest: string)
    requires IsWord(name) && IsTrimmed(name + rest) && (name + rest)[|name + rest| - 1] != ';'
    ensures rest != "" && rest[0] == ':' && SignalLine(stod, name + rest).Some? ==> SignalLine(stod, name + rest).value.name == name
    ensures rest != "" && rest[0] == ',' ==>
      RefLine(name + rest).Some? && RefLine(name + rest).value.name == name
    ensures rest != "" && rest[0] == ':' ==>
      FrameHeader(name + rest + " " + "{").Some? && FrameHeader(name + rest + " " + "{").value.name == name
  {
    hide IsWord, Trim, StripSemicolon, Fields, Find, FindLast, IsTrimmed, ParseInt, ParseUint, Subscribers;
    var l := name + rest;
    StripTerminated(l);
    TrimTrimmed(l);
    WordTrimmed(name);
    TrimTrimmed(name);
    BraceLast(l + " ", "");
    assert l + " " + ("{" + "") == l + " " + "{";
    TrimTrimmed(l);
    if rest != "" && (rest[0] == ':' || rest[0] == ',') {
      FindAt(name, rest[0], rest[1..]);
      assert [rest[0]] + rest[1..] == rest;
      assert l[..|name|] == name;
    }
  }

  lemma BraceLast(a: string, b: string)
    requires '{' !in b
    ensures BeforeBrace(a + ("{" + b)) == Trim(a)
  {
    hide Trim, FindLast;
    var s := a + ("{" + b);
    FindLastIff(s, '{');
    assert s[|a|] == '{';
    assert forall k :: |a| < k < |s| ==> s[k] == b[k - |a| - 1];
    assert s[..|a|] == a;
  }

  // ---- What is known stays known ----

  /** Later sections and lines only add to what is declared, or replace it under the same key. */
  ghost predicate Extends(db: Content, db': Content) {
    && db.signals.Keys <= db'.signals.Keys && db.frames.Keys <= db'.frames.Keys
    && db.schedules.Keys <= db'.schedules.Keys && db.slaveNodes <= db'.slaveNodes
  }

  lemma {:induction false} SignalsStay(stod: Stod, lines: seq<string>, signals: Signals)
    ensures signals.Keys <= SignalsSection(stod, lines, signals).0.Keys
  {
    hide SignalLine;
    if lines != [] && lines[0] != "}" {
      match SignalLine(stod, lines[0])
      case None => SignalsStay(stod, lines[1..], signals);
      case Some(s) => SignalsStay(stod, lines[1..], signals[s.name := s]);
    }
  }

  lemma {:induction false} FramesStay(lines: seq<string>, frames: Frames)
    ensures frames.Keys <= FramesSection(lines, frames).0.Keys
    decreases |lines|
  {
    hide FrameHeader, RefLines;
    if lines != [] && lines[0] != "}" {
      if '{' !in lines[0] || FrameHeader(lines[0]).None? {
        FramesStay(lines[1..], frames);
      } else {
        var f := FrameHeader(lines[0]).value;
        var (refs, rest) := RefLines(lines[1..], []);
        FramesStay(rest, frames[f.id := f.(signals := refs)]);
      }
    }
  }

  lemma {:induction false} TablesStay(stod: Stod, frames: Frames, lines: seq<string>, schedules: Schedules)
    ensures schedules.Keys <= TablesSection(stod, frames, lines, schedules).0.Keys
    decreases |lines|
  {
    hide EntryLines, Trim;
    if lines != [] && lines[0] != "}" {
      if EndsWithBrace(lines[0]) {
        var (entries, rest) := EntryLines(stod, frames, lines[1..], []);
        TablesStay(stod, frames, rest, schedules[Trim(lines[0][..|lines[0]| - 1]) := entries]);
      } else {
        TablesStay(stod, frames, lines[1..], schedules);
      }
    }
  }

  lemma {:induction false} SlavesStay(lines: seq<string>, master: string, slaves: seq<string>)
    ensures slaves <= NodesSection(lines, master, slaves).1
  {
    hide MasterName, SlaveNames;
    if lines != [] && lines[0] != "}" {
      if StartsWith(lines[0], "Master:") {
        SlavesStay(lines[1..], MasterName(lines[0][7..]), slaves);
      } else if StartsWith(lines[0], "Slaves:") {
        SlavesStay(lines[1..], master, slaves + SlaveNames(lines[0][7..]));
      } else {
        SlavesStay(lines[1..], master, slaves);
      }
    }
  }

  lemma StepExtends(stod: Stod, lines: seq<string>, db: Content)
    requires lines != []
    ensures Extends(db, TopStep(stod, lines, db).0)
  {
    hide SectionOf, SkipBrace, NodesSection, SignalsSection, FramesSection, TablesSection, QuotedValue, FloatValue, Words;
    var body := SkipBrace(lines[1..]);
    SignalsStay(stod, body, db.signals);
    FramesStay(body, db.frames);
    TablesStay(stod, db.frames, body, db.schedules);
    SlavesStay(body, db.masterNode, db.slaveNodes);
  }

  /** Whatever lines come later, nothing declared is lost: sections of one kind may be repeated. */
  lemma {:induction false} KnownStays(stod: Stod, lines: seq<string>, db: Content)
    ensures Extends(db, Top(stod, lines, db))
    decreases |lines|
  {
    hide TopStep;
    if lines != [] {
      StepExtends(stod, lines, db);
      var (db', rest) := TopStep(stod, lines, db);
      KnownStays(stod, rest, db');
    }
  }
}
