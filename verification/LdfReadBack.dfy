/** Whole LDF texts: what the reference printer writes for a description, the parser reads back. */
module LdfReadBack {
  import opened Text
  import opened Ldf
  import opened LdfPrint
  import opened Wrappers

  // ---- The whole description ----

  const PROTOCOL: string := "LIN_protocol_version"
  const LANGUAGE: string := "LIN_language_version"

  function PrintVersion(key: string, version: string): string {
    key + " = " + ("\"" + (version + ("\"" + ";")))
  }

  function PrintSpeed(speed: nat): string {
    "LIN_speed" + (" " + ("=" + (" " + (Decimal(speed) + (" " + "kbps;")))))
  }

  function PrintMaster(master: string): string {
    "Master:" + (" " + (master + ("," + " 5 ms, 0.1 ms;")))
  }

  function PrintSlaves(slaves: seq<string>): string {
    "Slaves:" + if slaves == [] then ";" else " " + (Listed(slaves) + ";")
  }

  /** A section's head, with its brace behind it or on the next line. */
  function Opening(name: string, ownBrace: bool): seq<string> {
    if ownBrace then [name, "{"] else [name + " {"]
  }

  function Block(name: string, ownBrace: bool, lines: seq<string>, rest: seq<string>): seq<string> {
    Opening(name, ownBrace) + (lines + (["}"] + rest))
  }

  function Tables(d: Description, y: Style): seq<string>
    requires WellFormed(d)
  {
    Block("Schedule_tables", y.ownBrace, PrintTables(FramesOf(d.frames, map[]), d.tables, y.delay, y.tables, 0), [])
  }

  function FramesOn(d: Description, y: Style): seq<string>
    requires WellFormed(d)
  {
    Block("Frames", y.ownBrace, PrintFrames(d.frames, y.frames, 0), Tables(d, y))
  }

  function SignalsOn(d: Description, y: Style): seq<string>
    requires WellFormed(d)
  {
    Block("Signals", y.ownBrace, PrintSignals(d.signals, y.signals, 0), FramesOn(d, y))
  }

  function NodesOn(d: Description, y: Style): seq<string>
    requires WellFormed(d)
  {
    Block("Nodes", y.ownBrace, [PrintMaster(d.master), PrintSlaves(d.slaves)], SignalsOn(d, y))
  }

  function PrintLines(d: Description, y: Style): seq<string>
    requires WellFormed(d)
  {
    [PrintVersion(PROTOCOL, d.protocolVersion), PrintVersion(LANGUAGE, d.languageVersion), PrintSpeed(d.speed)]
    + NodesOn(d, y)
  }

  lemma NoBrace(lines: seq<string>, rest: seq<string>)
    requires AreLines(lines)
    ensures SkipBrace(lines + (["}"] + rest)) == lines + (["}"] + rest)
  {
    hide IsTrimmed;
    var all := lines + (["}"] + rest);
    if lines == [] {
      assert all[0] == "}";
    } else {
      assert all[0] == lines[0];
    }
  }

  /** One turn of the outer loop at a section head. */
  lemma HeadStep(name: string, ownBrace: bool, lines: seq<string>, rest: seq<string>, kind: Section)
    requires AreLines(lines) && SectionOf(name) == SectionOf(name + " {") == kind
    ensures var all := Block(name, ownBrace, lines, rest);
      && all != [] && SectionOf(all[0]) == kind
      && SkipBrace(all[1..]) == lines + (["}"] + rest)
  {
    hide SectionOf;
    NoBrace(lines, rest);
    var body := lines + (["}"] + rest);
    var all := Block(name, ownBrace, lines, rest);
    if ownBrace {
      assert all[1..] == ["{"] + body;
      assert all[1..][0] == "{" && all[1..][1..] == body;
    } else {
      assert all[1..] == body;
    }
  }

  lemma TablesRecovered(stod: Stod, d: Description, y: Style, db: Content)
    requires WellFormed(d) && ReadsNumbers(stod) && StyleOk(y)
    requires db.frames == FramesOf(d.frames, map[]) && db.schedules == map[]
    ensures Top(stod, Tables(d, y), db) == db.(schedules := TablesOf(d.tables, map[]))
  {
    hide TablesSection, PrintTables, SkipBrace, SectionOf, ReadsNumbers, NamesDiffer, TableOk, FrameOk, SignalOk;
    hide IsWord, AreWords, AreLines, SpellsAll, IsDelay, Block;
    TablesHeadRead();
    FramesNamesOk(d.frames, map[]);
    TablesRead(stod, db.frames, d.tables, y.delay, y.tables, 0, map[], []);
    HeadStep("Schedule_tables", y.ownBrace, PrintTables(db.frames, d.tables, y.delay, y.tables, 0), [], TablesHead);
    assert Top(stod, [], db.(schedules := TablesOf(d.tables, map[]))) == db.(schedules := TablesOf(d.tables, map[]));
  }

  lemma FramesRecovered(stod: Stod, d: Description, y: Style, db: Content)
    requires WellFormed(d) && ReadsNumbers(stod) && StyleOk(y)
    requires db.frames == map[] && db.schedules == map[]
    ensures Top(stod, FramesOn(d, y), db) ==
            db.(frames := FramesOf(d.frames, map[]), schedules := TablesOf(d.tables, map[]))
  {
    hide FramesSection, PrintFrames, SkipBrace, SectionOf, ReadsNumbers, NamesDiffer, TableOk, FrameOk, SignalOk;
    hide IsWord, AreWords, AreLines, Tables, WellFormed, SpellsAll, IsDelay, Block;
    assert forall i :: 0 <= i < |d.frames| ==> FrameOk(d.frames[i]) by { FramesAreOk(d); }
    FramesHeadRead();
    FramesRead(d.frames, y.frames, 0, map[], Tables(d, y));
    HeadStep("Frames", y.ownBrace, PrintFrames(d.frames, y.frames, 0), Tables(d, y), FramesHead);
    TablesRecovered(stod, d, y, db.(frames := FramesOf(d.frames, map[])));
  }

  lemma FramesAreOk(d: Description)
    requires WellFormed(d)
    ensures forall i :: 0 <= i < |d.frames| ==> FrameOk(d.frames[i])
    ensures forall i :: 0 <= i < |d.signals| ==> SignalOk(d.signals[i])
  {
    hide FrameOk, SignalOk;
  }

  lemma SignalsRecovered(stod: Stod, d: Description, y: Style, db: Content)
    requires WellFormed(d) && ReadsNumbers(stod) && StyleOk(y)
    requires db.signals == map[] && db.frames == map[] && db.schedules == map[]
    ensures Top(stod, SignalsOn(d, y), db) ==
            db.(signals := SignalsOf(d.signals, map[]), frames := FramesOf(d.frames, map[]),
                schedules := TablesOf(d.tables, map[]))
  {
    hide SignalsSection, PrintSignals, SkipBrace, SectionOf, ReadsNumbers, NamesDiffer, TableOk, FrameOk, SignalOk;
    hide IsWord, AreWords, AreLines, FramesOn, WellFormed, SpellsAll, IsDelay, Block;
    FramesAreOk(d);
    SignalsHeadRead();
    SignalsRead(stod, d.signals, y.signals, 0, map[], FramesOn(d, y));
    HeadStep("Signals", y.ownBrace, PrintSignals(d.signals, y.signals, 0), FramesOn(d, y), SignalsHead);
    FramesRecovered(stod, d, y, db.(signals := SignalsOf(d.signals, map[])));
  }

  lemma MasterLine(master: string)
    requires IsWord(master)
    ensures IsLine(PrintMaster(master)) && StartsWith(PrintMaster(master), "Master:")
    ensures MasterName(PrintMaster(master)[7..]) == master
  {
    hide IsWord, IsPlain, Trim, StripSemicolon, Find, IsBlank;
    MasterIsLine(master);
    WordTrimmed(master);
    var tail := " 5 ms, 0.1 ms;";
    var rest := master + ("," + tail);
    NoBlank(';');
    assert rest[|rest| - 1] == ';';
    assert PrintMaster(master)[7..] == " " + rest;
    assert PrintMaster(master)[..7] == "Master:";
    TrimTrimmed(rest);
    FindAt(master, ',', tail);
    assert rest[..|master|] == master;
    StripTerminated(master);
  }

  lemma MasterIsLine(master: string)
    requires IsWord(master)
    ensures IsLine(PrintMaster(master))
  {
    hide IsWord, IsPlain;
    WordClean(master);
    var head, tail := "Master: ", ", 5 ms, 0.1 ms;";
    LiteralsClean();
    assert PrintMaster(master) == head + master + tail;
  }

  lemma LiteralsClean()
    ensures forall i :: 0 <= i < |"Master: "| ==> "Master: "[i] != '/' && "Master: "[i] != '\n'
    ensures forall i :: 0 <= i < |", 5 ms, 0.1 ms;"| ==> ", 5 ms, 0.1 ms;"[i] != '/' && ", 5 ms, 0.1 ms;"[i] != '\n'
  {
  }

  lemma SlavesLine(slaves: seq<string>)
    requires AreWords(slaves)
    ensures IsLine(PrintSlaves(slaves)) && StartsWith(PrintSlaves(slaves), "Slaves:")
    ensures !StartsWith(PrintSlaves(slaves), "Master:")
    ensures SlaveNames(PrintSlaves(slaves)[7..]) == slaves
  {
    hide IsWord, AreWords, Trim, StripSemicolon, Fields, Listed;
    var line := PrintSlaves(slaves);
    assert line[..7] == "Slaves:" && line[..7][0] == 'S';
    assert "Master:"[0] == 'M';
    if slaves == [] {
      assert line[7..] == ";";
      NothingListed();
    } else {
      ListedClean(slaves);
      ListedTrimmed(slaves);
      var rest := Listed(slaves) + ";";
      assert line[7..] == " " + rest;
      NoBlank(';');
      TrimTrimmed(rest);
      StripTerminated(Listed(slaves));
      FieldsListed(slaves);
      WordsNonEmpty(slaves);
    }
  }

  lemma NothingListed()
    ensures SlaveNames(";") == []
  {
    assert Trim(";") == ";";
    assert ";"[..0] == "";
    assert Trim("") == "";
    assert StripSemicolon(";") == "";
    assert Fields("") == [];
  }

  lemma NodesRecovered(stod: Stod, d: Description, y: Style, db: Content)
    requires WellFormed(d) && ReadsNumbers(stod) && StyleOk(y)
    requires db.slaveNodes == [] && db.signals == map[] && db.frames == map[] && db.schedules == map[]
    ensures Top(stod, NodesOn(d, y), db) ==
            db.(masterNode := d.master, slaveNodes := d.slaves, signals := SignalsOf(d.signals, map[]),
                frames := FramesOf(d.frames, map[]), schedules := TablesOf(d.tables, map[]))
  {
    hide NodesSection, SkipBrace, SectionOf, ReadsNumbers, NamesDiffer, TableOk, FrameOk, SignalOk;
    hide IsWord, AreWords, IsLine, SignalsOn, PrintMaster, PrintSlaves, StyleOk, Block;
    NodesHeadRead();
    MasterLine(d.master);
    SlavesLine(d.slaves);
    NodesRead(d, db.masterNode, SignalsOn(d, y));
    HeadStep("Nodes", y.ownBrace, [PrintMaster(d.master), PrintSlaves(d.slaves)], SignalsOn(d, y), NodesHead);
    SignalsRecovered(stod, d, y, db.(masterNode := d.master, slaveNodes := d.slaves));
  }

  lemma NodesRead(d: Description, m: string, rest: seq<string>)
    requires IsWord(d.master) && AreWords(d.slaves)
    ensures NodesSection([PrintMaster(d.master), PrintSlaves(d.slaves)] + (["}"] + rest), m, []) ==
            (d.master, d.slaves, rest)
  {
    hide IsWord, AreWords, StartsWith, PrintMaster, PrintSlaves, MasterName, SlaveNames, IsTrimmed;
    MasterLine(d.master);
    SlavesLine(d.slaves);
    var all := [PrintMaster(d.master), PrintSlaves(d.slaves)] + (["}"] + rest);
    assert all[1..] == [PrintSlaves(d.slaves)] + (["}"] + rest);
    assert all[1..][1..] == ["}"] + rest;
    assert [] + d.slaves == d.slaves;
    assert NodesSection(all[1..][1..], d.master, d.slaves) == (d.master, d.slaves, rest);
    assert NodesSection(all[1..], d.master, []) == (d.master, d.slaves, rest);
  }

  lemma VersionLine(key: string, version: string)
    requires IsWord(key) && IsWord(version)
    ensures IsLine(PrintVersion(key, version)) && QuotedValue(PrintVersion(key, version)) == version
    ensures StartsWith(PrintVersion(key, version), key)
  {
    hide IsWord, IsPlain, Find;
    WordClean(key);
    WordClean(version);
    WordTrimmed(key);
    WordTrimmed(version);
    NoBlank(';');
    var line := PrintVersion(key, version);
    var tail := version + ("\"" + ";");
    FindAt(key + " = ", '"', tail);
    FindAt(version, '"', ";");
    assert line[|key| + 4..] == tail;
    assert tail[..|version|] == version;
    assert line[|key| + 4..|key| + 4 + |version|] == version;
  }

  lemma SpeedLine(stod: Stod, speed: nat)
    requires ReadsNumbers(stod) && speed < EXACT
    ensures IsLine(PrintSpeed(speed)) && StartsWith(PrintSpeed(speed), "LIN_speed")
    ensures FloatValue(stod, Words(PrintSpeed(speed))) == speed as real
  {
    hide IsWord, IsPlain, Words, StripSemicolon, IsTrimmed;
    var number := Decimal(speed);
    assert IsWord("LIN_speed") && IsWord("=") by { SpeedWords(); }
    DecimalWord(speed);
    WordsCons("LIN_speed", "=" + (" " + (number + (" " + "kbps;"))));
    WordsCons("=", number + (" " + "kbps;"));
    WordsCons(number, "kbps;");
    WordTrimmed("LIN_speed");
    WordTrimmed("=");
    WordTrimmed(number);
    StripTerminated("LIN_speed");
    StripTerminated("=");
    StripTerminated(number);
    SpeedIsLine(speed);
    ThirdWord(stod, "LIN_speed", "=", number, Words("kbps;"));
  }

  lemma SpeedIsLine(speed: nat)
    ensures IsLine(PrintSpeed(speed)) && StartsWith(PrintSpeed(speed), "LIN_speed")
  {
    hide IsWord, IsPlain;
    DecimalWord(speed);
    WordClean(Decimal(speed));
    assert PrintSpeed(speed)[..9] == "LIN_speed";
  }

  lemma ThirdWord(stod: Stod, a: string, b: string, c: string, rest: seq<string>)
    requires stod(StripSemicolon(a)) == None && stod(StripSemicolon(b)) == None && stod(StripSemicolon(c)).Some?
    ensures FloatValue(stod, [a] + ([b] + ([c] + rest))) == stod(StripSemicolon(c)).value
  {
    hide StripSemicolon;
    var words := [a] + ([b] + ([c] + rest));
    assert words[1..] == [b] + ([c] + rest);
    assert words[1..][1..] == [c] + rest;
    assert FloatValue(stod, words[1..][1..]) == stod(StripSemicolon(c)).value;
    assert FloatValue(stod, words[1..]) == stod(StripSemicolon(c)).value;
  }

  lemma SpeedWords()
    ensures IsWord("LIN_speed") && IsWord("=")
  {
  }

  lemma KeyWords()
    ensures IsWord(PROTOCOL) && IsWord(LANGUAGE)
  {
  }

  /** Strings that differ at i. */
  lemma Differs(s: string, prefix: string, i: nat)
    requires i < |s| && i < |prefix| && s[i] != prefix[i]
    ensures !StartsWith(s, prefix)
  {
    if |prefix| <= |s| {
      assert s[..|prefix|][i] == s[i];
    }
  }

  lemma NodesHeadRead()
    ensures SectionOf("Nodes") == SectionOf("Nodes" + " {") == NodesHead && IsText("Nodes") && IsText("Nodes" + " {")
  {
    hide StartsWith;
    NotLin("Nodes");
    NotLin("Nodes {");
    Begins("Nodes", "");
    Begins("Nodes", " {");
    assert "Nodes {" == "Nodes" + " {" && "Nodes" == "Nodes" + "";
  }

  lemma SignalsHeadRead()
    ensures SectionOf("Signals") == SectionOf("Signals" + " {") == SignalsHead && IsText("Signals") && IsText("Signals" + " {")
  {
    hide StartsWith;
    NotLin("Signals");
    NotLin("Signals {");
    Differs("Signals", "Nodes", 0);
    Differs("Signals {", "Nodes", 0);
    Begins("Signals", "");
    Begins("Signals", " {");
    assert "Signals {" == "Signals" + " {" && "Signals" == "Signals" + "";
  }

  lemma FramesHeadRead()
    ensures SectionOf("Frames") == SectionOf("Frames" + " {") == FramesHead && IsText("Frames") && IsText("Frames" + " {")
  {
    hide StartsWith;
    NotLin("Frames");
    NotLin("Frames {");
    Differs("Frames", "Nodes", 0);
    Differs("Frames {", "Nodes", 0);
    Differs("Frames", "Signals", 0);
    Differs("Frames {", "Signals", 0);
    Begins("Frames", "");
    Begins("Frames", " {");
    assert "Frames {" == "Frames" + " {" && "Frames" == "Frames" + "";
  }

  lemma TablesHeadRead()
    ensures SectionOf("Schedule_tables") == SectionOf("Schedule_tables" + " {") == TablesHead
    ensures IsText("Schedule_tables") && IsText("Schedule_tables" + " {")
  {
    hide StartsWith;
    TablesHeadIs("Schedule_tables");
    TablesHeadIs("Schedule_tables {");
    Begins("Schedule_tables", "");
    Begins("Schedule_tables", " {");
    assert "Schedule_tables {" == "Schedule_tables" + " {" && "Schedule_tables" == "Schedule_tables" + "";
  }

  lemma TablesHeadIs(s: string)
    requires |s| >= 2 && s[0] == 'S' && s[1] == 'c'
    ensures StartsWith(s, "Schedule_tables") ==> SectionOf(s) == TablesHead
  {
    hide StartsWith;
    NotLin(s);
    Differs(s, "Nodes", 0);
    Differs(s, "Signals", 1);
    Differs(s, "Frames", 0);
  }

  /** None of the keywords that begin with "LIN_". */
  lemma NotLin(s: string)
    requires s != [] && s[0] != 'L'
    ensures !StartsWith(s, PROTOCOL) && !StartsWith(s, LANGUAGE) && !StartsWith(s, "LIN_speed")
  {
    hide StartsWith;
    Differs(s, PROTOCOL, 0);
    Differs(s, LANGUAGE, 0);
    Differs(s, "LIN_speed", 0);
  }

  lemma Begins(prefix: string, rest: string)
    ensures StartsWith(prefix + rest, prefix)
  {
    assert (prefix + rest)[..|prefix|] == prefix;
  }

  lemma VersionHeads(rest: string)
    ensures SectionOf(PROTOCOL + rest) == ProtocolVersion
    ensures SectionOf(LANGUAGE + rest) == LanguageVersion
    ensures SectionOf("LIN_speed" + rest) == Speed
  {
    hide StartsWith;
    Begins(PROTOCOL, rest);
    Begins(LANGUAGE, rest);
    Begins("LIN_speed", rest);
    Differs(LANGUAGE + rest, PROTOCOL, 4);
    Differs("LIN_speed" + rest, PROTOCOL, 4);
    Differs("LIN_speed" + rest, LANGUAGE, 4);
  }

  lemma VersionsFirst(protocol: string, language: string, speed: nat)
    ensures SectionOf(PrintVersion(PROTOCOL, protocol)) == ProtocolVersion
    ensures SectionOf(PrintVersion(LANGUAGE, language)) == LanguageVersion
    ensures SectionOf(PrintSpeed(speed)) == Speed
  {
    hide SectionOf;
    var p := " = " + ("\"" + (protocol + ("\"" + ";")));
    var l := " = " + ("\"" + (language + ("\"" + ";")));
    assert PrintVersion(PROTOCOL, protocol) == PROTOCOL + p;
    assert PrintVersion(LANGUAGE, language) == LANGUAGE + l;
    VersionHeads(p);
    VersionHeads(l);
    VersionHeads(" " + ("=" + (" " + (Decimal(speed) + (" " + "kbps;")))));
  }

  /** The parser reads back what the printer writes. */
  lemma LinesReadBack(stod: Stod, d: Description, y: Style)
    requires WellFormed(d) && ReadsNumbers(stod) && StyleOk(y)
    ensures Top(stod, PrintLines(d, y), EMPTY) == Meaning(d)
  {
    hide ReadsNumbers, NamesDiffer, TableOk, FrameOk, SignalOk, SectionOf, SkipBrace, QuotedValue, Words, FloatValue;
    hide PrintVersion, PrintSpeed, NodesOn, IsLine, IsWord, AreWords, StartsWith, StyleOk;
    var p, l, v := PrintVersion(PROTOCOL, d.protocolVersion), PrintVersion(LANGUAGE, d.languageVersion), PrintSpeed(d.speed);
    KeyWords();
    VersionLine(PROTOCOL, d.protocolVersion);
    VersionLine(LANGUAGE, d.languageVersion);
    SpeedLine(stod, d.speed);
    VersionsFirst(d.protocolVersion, d.languageVersion, d.speed);
    var all := PrintLines(d, y);
    assert all[1..] == [l, v] + NodesOn(d, y);
    assert all[1..][1..] == [v] + NodesOn(d, y);
    assert all[1..][1..][1..] == NodesOn(d, y);
    var db := EMPTY.(protocolVersion := d.protocolVersion, languageVersion := d.languageVersion, speed := d.speed as real);
    NodesRecovered(stod, d, y, db);
    assert Top(stod, all[1..][1..], db.(speed := 0.0)) == Top(stod, NodesOn(d, y), db);
    assert Top(stod, all[1..], db.(speed := 0.0, languageVersion := "")) == Top(stod, NodesOn(d, y), db);
  }

  // ---- The text ----

  /** A line without blanks around it, comment or line break. */
  predicate IsText(l: string) {
    IsTrimmed(l) && forall i :: 0 <= i < |l| ==> l[i] != '/' && l[i] != '\n'
  }

  predicate AreTexts(lines: seq<string>) {
    forall i :: 0 <= i < |lines| ==> IsText(lines[i])
  }

  lemma LinesAreTexts(lines: seq<string>)
    requires AreLines(lines)
    ensures AreTexts(lines)
  {
    hide IsTrimmed;
    BracesAreTexts();
  }

  lemma BracesAreTexts()
    ensures IsText("{") && IsText("}")
  {
  }

  lemma SectionTexts(name: string, ownBrace: bool, lines: seq<string>, rest: seq<string>)
    requires IsText(name) && IsText(name + " {") && AreLines(lines) && AreTexts(rest)
    ensures AreTexts(Block(name, ownBrace, lines, rest))
  {
    hide IsText, IsLine;
    BracesAreTexts();
    LinesAreTexts(lines);
  }

  lemma SectionsAreTexts(stod: Stod, d: Description, y: Style)
    requires WellFormed(d) && ReadsNumbers(stod) && StyleOk(y)
    ensures AreTexts(SignalsOn(d, y))
  {
    hide PrintTables, PrintFrames, PrintSignals, TableOk, FrameOk, SignalOk, IsWord, AreWords, NamesDiffer, IsLine, IsText,
      ReadsNumbers, AreLines, AreTexts, SignalsSection, FramesSection, TablesSection, NamesOk, SpellsAll, IsDelay, Block;
    var frames := FramesOf(d.frames, map[]);
    assert NamesOk(map[]) by { NoNames(); }
    FramesNamesOk(d.frames, map[]);
    SignalsRead(stod, d.signals, y.signals, 0, map[], []);
    FramesRead(d.frames, y.frames, 0, map[], []);
    TablesRead(stod, frames, d.tables, y.delay, y.tables, 0, map[], []);
    SignalsHeadRead();
    FramesHeadRead();
    TablesHeadRead();
    assert AreTexts([]) by { NoTexts(); }
    SectionTexts("Schedule_tables", y.ownBrace, PrintTables(frames, d.tables, y.delay, y.tables, 0), []);
    SectionTexts("Frames", y.ownBrace, PrintFrames(d.frames, y.frames, 0), Tables(d, y));
    SectionTexts("Signals", y.ownBrace, PrintSignals(d.signals, y.signals, 0), FramesOn(d, y));
  }

  lemma NoNames()
    ensures NamesOk(map[])
  {
  }

  lemma NoTexts()
    ensures AreTexts([])
  {
  }

  lemma PrintedAreTexts(stod: Stod, d: Description, y: Style)
    requires WellFormed(d) && ReadsNumbers(stod) && StyleOk(y)
    ensures AreTexts(PrintLines(d, y))
  {
    hide FrameOk, SignalOk, TableOk, IsWord, AreWords, NamesDiffer, IsTrimmed, ReadsNumbers, PrintMaster, PrintSlaves,
      PrintVersion, PrintSpeed, SignalsOn, StyleOk, Block;
    SectionsAreTexts(stod, d, y);
    NodesHeadRead();
    KeyWords();
    VersionLine(PROTOCOL, d.protocolVersion);
    VersionLine(LANGUAGE, d.languageVersion);
    SpeedIsLine(d.speed);
    MasterLine(d.master);
    SlavesLine(d.slaves);
    SectionTexts("Nodes", y.ownBrace, [PrintMaster(d.master), PrintSlaves(d.slaves)], SignalsOn(d, y));
  }

  /** A line of the text: a line of the description, or nothing, with blanks around it and a comment after. */
  datatype Raw = Raw(indent: string, line: string, pad: string, comment: string)

  /** Spaces, tabs and carriage returns. */
  predicate AllBlank(s: string) {
    forall i :: 0 <= i < |s| ==> s[i] == ' ' || s[i] == '\t' || s[i] == '\r'
  }

  predicate RawOk(r: Raw) {
    AllBlank(r.indent) && AllBlank(r.pad) && '\n' !in r.comment && (r.comment == "" || StartsWith(r.comment, "//"))
  }

  function RawText(r: Raw): string {
    r.indent + r.line + r.pad + r.comment
  }

  function TextOf(raws: seq<Raw>): string {
    if raws == [] then "" else RawText(raws[0]) + (['\n'] + TextOf(raws[1..]))
  }

  function Kept(raws: seq<Raw>): seq<string> {
    if raws == [] then []
    else (if raws[0].line == "" then [] else [raws[0].line]) + Kept(raws[1..])
  }

  lemma {:induction false} TrimLeftBlanks(blanks: string, s: string)
    requires AllBlank(blanks) && (s == [] || !IsBlank(s[0]))
    ensures TrimLeft(blanks + s) == s
  {
    if blanks == [] {
      assert blanks + s == s;
    } else {
      assert (blanks + s)[1..] == blanks[1..] + s;
      TrimLeftBlanks(blanks[1..], s);
    }
  }

  lemma {:induction false} TrimRightBlanks(s: string, blanks: string)
    requires AllBlank(blanks) && (s == [] || !IsBlank(s[|s| - 1]))
    ensures TrimRight(s + blanks) == s
  {
    if blanks == [] {
      assert s + blanks == s;
    } else {
      var k := |blanks| - 1;
      assert (s + blanks)[..|s + blanks| - 1] == s + blanks[..k];
      TrimRightBlanks(s, blanks[..k]);
    }
  }

  lemma TrimBlanks(indent: string, line: string, pad: string)
    requires AllBlank(indent) && AllBlank(pad) && (line == [] || IsTrimmed(line))
    ensures Trim(indent + line + pad) == line
  {
    if line == [] {
      assert indent + line + pad == (indent + pad) + [];
      TrimLeftBlanks(indent + pad, []);
    } else {
      assert indent + line + pad == indent + (line + pad);
      TrimLeftBlanks(indent, line + pad);
      TrimRightBlanks(line, pad);
    }
  }

  lemma {:induction false} FindCommentAt(s: string, comment: string)
    requires '/' !in s && (comment == "" || StartsWith(comment, "//"))
    ensures FindComment(s + comment) == |s|
  {
    if s == [] {
      assert s + comment == comment;
      if comment != "" {
        assert comment[..2][0] == '/' && comment[..2][1] == '/';
      }
    } else {
      assert (s + comment)[1..] == s[1..] + comment;
      FindCommentAt(s[1..], comment);
    }
  }

  /** Indentation, trailing blanks and comments go away. */
  lemma StripRaw(r: Raw)
    requires RawOk(r) && (r.line == "" || IsText(r.line))
    ensures StripComment(RawText(r)) == r.line && '\n' !in RawText(r)
  {
    hide Trim, IsTrimmed, FindComment;
    var s := r.indent + r.line + r.pad;
    BlanksClean(r.indent);
    BlanksClean(r.pad);
    FindCommentAt(s, r.comment);
    assert (s + r.comment)[..|s|] == s;
    TrimBlanks(r.indent, r.line, r.pad);
  }

  lemma BlanksClean(s: string)
    requires AllBlank(s)
    ensures '/' !in s && '\n' !in s
  {
  }

  lemma {:induction false} KeptLines(raws: seq<Raw>)
    requires forall i :: 0 <= i < |raws| ==> RawOk(raws[i])
    requires AreTexts(Kept(raws))
    ensures LinesOf(Split(TextOf(raws), '\n')) == Kept(raws)
  {
    hide Split, StripComment, IsText, RawOk, RawText;
    if raws == [] {
      assert Split("", '\n') == [] by { NothingSplit(); }
    } else {
      var first := raws[0];
      if first.line != "" {
        assert Kept(raws)[0] == first.line;
        assert Kept(raws)[1..] == Kept(raws[1..]);
      } else {
        assert Kept(raws) == Kept(raws[1..]);
      }
      StripRaw(first);
      SplitAt(RawText(first), '\n', TextOf(raws[1..]));
      KeptLines(raws[1..]);
      assert ([RawText(first)] + Split(TextOf(raws[1..]), '\n'))[1..] == Split(TextOf(raws[1..]), '\n');
    }
  }

  lemma NothingSplit()
    ensures Split("", '\n') == []
  {
  }

  /** Any text that spells a description, however its numbers are written, its braces are placed, and it is
      indented, commented and spaced out with empty lines, is parsed to that description's meaning. */
  lemma ReadBack(stod: Stod, d: Description, y: Style, raws: seq<Raw>)
    requires WellFormed(d) && ReadsNumbers(stod) && StyleOk(y)
    requires (forall i :: 0 <= i < |raws| ==> RawOk(raws[i])) && Kept(raws) == PrintLines(d, y)
    ensures Parse(stod, TextOf(raws)) == Meaning(d)
  {
    hide Top, WellFormed, ReadsNumbers, StyleOk, RawOk, AreTexts, TextOf, LinesOf, Split, Kept, PrintLines, Meaning;
    PrintedAreTexts(stod, d, y);
    KeptLines(raws);
    LinesReadBack(stod, d, y);
  }
}
