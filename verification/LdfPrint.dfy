/** The LDF format as a reference printer writes it, and the proof that the parser reads it back. */
module LdfPrint {
  import opened Bytes
  import opened Lin
  import opened Text
  import opened Decode
  import opened Ldf
  import opened Wrappers

  // ---- Descriptions ----

  datatype Table = Table(name: string, entries: seq<ScheduleEntry>)

  datatype Description = Description(
    protocolVersion: string, languageVersion: string, speed: nat, master: string, slaves: seq<string>,
    signals: seq<Signal>, frames: seq<LdfFrame>, tables: seq<Table>)

  /** Characters that neither separate nor end anything. */
  predicate IsPlain(c: char) {
    !IsSpace(c) && c != ',' && c != ';' && c != ':' && c != '{' && c != '}' && c != '/' && c != '"'
  }

  predicate IsWord(s: string) {
    s != [] && forall i :: 0 <= i < |s| ==> IsPlain(s[i])
  }

  predicate AreWords(parts: seq<string>) {
    forall i :: 0 <= i < |parts| ==> IsWord(parts[i])
  }

  /** The integers that a double holds exactly. */
  const EXACT: nat := 0x20_0000_0000_0000

  /** What the parser needs to know of std::stod. */
  ghost predicate ReadsNumbers(stod: Stod) {
    && (forall n: nat :: n < EXACT ==> stod(Decimal(n)) == Some(n as real))
    && stod("LIN_speed") == None
    && stod("=") == None
  }

  /** How numbers may be written: in decimal, if a double holds them exactly, or in hexadecimal with either
      prefix and in either case. */
  predicate Spells(text: string, n: nat) {
    || (n < EXACT && text == Decimal(n))
    || text == "0x" + Hex(n, false) || text == "0x" + Hex(n, true)
    || text == "0X" + Hex(n, false) || text == "0X" + Hex(n, true)
  }

  /** A choice of spelling for the k-th number of a section. */
  type Speller = (nat, nat) -> string

  ghost predicate SpellsAll(spell: Speller) {
    forall k, n :: Spells(spell(k, n), n)
  }

  /** The keyword of a schedule entry, in capital or small letters. */
  predicate IsDelay(word: string) {
    && |word| == 5
    && (word[0] == 'd' || word[0] == 'D') && (word[1] == 'e' || word[1] == 'E') && (word[2] == 'l' || word[2] == 'L')
    && (word[3] == 'a' || word[3] == 'A') && (word[4] == 'y' || word[4] == 'Y')
  }

  /** The printer's choices: how each section spells its numbers, how the keyword is written, and whether a
      section's opening brace stands on a line of its own. */
  datatype Style = Style(signals: Speller, frames: Speller, tables: Speller, delay: string, ownBrace: bool)

  ghost predicate StyleOk(style: Style) {
    SpellsAll(style.signals) && SpellsAll(style.frames) && SpellsAll(style.tables) && IsDelay(style.delay)
  }

  predicate SignalOk(s: Signal) {
    && IsWord(s.name) && IsWord(s.publisher) && AreWords(s.subscribers)
    && 0 <= s.bitWidth <= 64 && s.initValue <= ULLONG_MAX
  }

  predicate RefOk(r: SignalRef) {
    IsWord(r.name) && 0 <= r.bitOffset <= INT_MAX
  }

  predicate FrameOk(f: LdfFrame) {
    && IsWord(f.name) && !StartsWith(f.name, "AssignFrameId") && IsWord(f.publisher) && 0 <= f.length <= INT_MAX
    && forall i :: 0 <= i < |f.signals| ==> RefOk(f.signals[i])
  }

  predicate EntryOk(frames: Frames, e: ScheduleEntry) {
    e.id in frames && e.id <= MAX_ID && e.delayMs < TWO32
  }

  predicate TableOk(frames: Frames, t: Table) {
    IsWord(t.name) && forall i :: 0 <= i < |t.entries| ==> EntryOk(frames, t.entries[i])
  }

  ghost predicate NamesDiffer(frames: Frames) {
    forall id, id' :: id in frames && id' in frames && frames[id].name == frames[id'].name ==> id == id'
  }

  ghost predicate WellFormed(d: Description) {
    && IsWord(d.protocolVersion) && IsWord(d.languageVersion) && d.speed < EXACT
    && IsWord(d.master) && AreWords(d.slaves)
    && (forall i :: 0 <= i < |d.signals| ==> SignalOk(d.signals[i]))
    && (forall i :: 0 <= i < |d.frames| ==> FrameOk(d.frames[i]))
    && NamesDiffer(FramesOf(d.frames, map[]))
    && (forall i :: 0 <= i < |d.tables| ==> TableOk(FramesOf(d.frames, map[]), d.tables[i]))
  }

  // ---- What a description means: later declarations replace earlier ones ----

  function SignalsOf(signals: seq<Signal>, known: Signals): Signals {
    if signals == [] then known else SignalsOf(signals[1..], known[signals[0].name := signals[0]])
  }

  function FramesOf(frames: seq<LdfFrame>, known: Frames): Frames {
    if frames == [] then known else FramesOf(frames[1..], known[frames[0].id := frames[0]])
  }

  function TablesOf(tables: seq<Table>, known: Schedules): Schedules {
    if tables == [] then known else TablesOf(tables[1..], known[tables[0].name := tables[0].entries])
  }

  function Meaning(d: Description): Content {
    Content(d.protocolVersion, d.languageVersion, d.speed as real, d.master, d.slaves,
            SignalsOf(d.signals, map[]), FramesOf(d.frames, map[]), TablesOf(d.tables, map[]))
  }

  // ---- The printer ----

  function Listed(parts: seq<string>): string
    requires parts != []
  {
    if |parts| == 1 then parts[0] else parts[0] + ("," + (" " + Listed(parts[1..])))
  }

  function PrintSignal(s: Signal, width: string, init: string): string {
    s.name + (":" + (" " + Listed([width, init, s.publisher] + s.subscribers))) + ";"
  }

  function PrintRef(r: SignalRef, offset: string): string {
    r.name + ("," + (" " + offset)) + ";"
  }

  function PrintHeader(f: LdfFrame, id: string, length: string): string {
    f.name + (":" + (" " + Listed([id, f.publisher, length]))) + " " + "{"
  }

  function PrintEntry(name: string, delay: string, ms: string): string {
    name + (" " + (delay + (" " + (ms + (" " + "ms"))))) + ";"
  }

  // The k-th number of a section is the next one to print.

  function PrintSignals(signals: seq<Signal>, spell: Speller, k: nat): seq<string>
    requires forall i :: 0 <= i < |signals| ==> SignalOk(signals[i])
  {
    if signals == [] then []
    else
      var s := signals[0];
      assert SignalOk(s);
      [PrintSignal(s, spell(k, s.bitWidth), spell(k + 1, s.initValue))] + PrintSignals(signals[1..], spell, k + 2)
  }

  function PrintRefs(refs: seq<SignalRef>, spell: Speller, k: nat): seq<string>
    requires forall i :: 0 <= i < |refs| ==> RefOk(refs[i])
  {
    if refs == [] then []
    else
      var r := refs[0];
      assert RefOk(r);
      [PrintRef(r, spell(k, r.bitOffset))] + PrintRefs(refs[1..], spell, k + 1)
  }

  function PrintFrames(frames: seq<LdfFrame>, spell: Speller, k: nat): seq<string>
    requires forall i :: 0 <= i < |frames| ==> FrameOk(frames[i])
  {
    if frames == [] then []
    else
      var f := frames[0];
      assert FrameOk(f);
      [PrintHeader(f, spell(k, f.id), spell(k + 1, f.length))]
      + (PrintRefs(f.signals, spell, k + 2) + (["}"] + PrintFrames(frames[1..], spell, k + 2 + |f.signals|)))
  }

  function PrintEntries(frames: Frames, entries: seq<ScheduleEntry>, delay: string, spell: Speller, k: nat): seq<string>
    requires forall i :: 0 <= i < |entries| ==> EntryOk(frames, entries[i])
  {
    if entries == [] then []
    else
      var e := entries[0];
      assert EntryOk(frames, e);
      [PrintEntry(frames[e.id].name, delay, spell(k, e.delayMs))] + PrintEntries(frames, entries[1..], delay, spell, k + 1)
  }

  function PrintTables(frames: Frames, tables: seq<Table>, delay: string, spell: Speller, k: nat): seq<string>
    requires forall i :: 0 <= i < |tables| ==> TableOk(frames, tables[i])
  {
    if tables == [] then []
    else
      var t := tables[0];
      assert TableOk(frames, t);
      [t.name + " " + "{"]
      + (PrintEntries(frames, t.entries, delay, spell, k)
         + (["}"] + PrintTables(frames, tables[1..], delay, spell, k + |t.entries|)))
  }

  // ---- Strings ----

  /** Starts and ends with something other than a blank. */
  predicate IsTrimmed(s: string) {
    s != [] && !IsBlank(s[0]) && !IsBlank(s[|s| - 1])
  }

  lemma TrimTrimmed(s: string)
    requires IsTrimmed(s)
    ensures Trim(s) == s
    ensures Trim(" " + s) == s
    ensures Trim(s + " ") == s
  {
    assert (" " + s)[1..] == s;
    assert TrimLeft(s + " ") == s + " ";
    assert (s + " ")[..|s|] == s;
  }

  lemma StripTerminated(s: string)
    requires IsTrimmed(s)
    ensures StripSemicolon(s + ";") == s
    ensures s[|s| - 1] != ';' ==> StripSemicolon(s) == s
  {
    hide IsBlank;
    assert !IsBlank(';') by { NoBlank(';'); }
    TrimTrimmed(s + ";");
    TrimTrimmed(s);
    assert (s + ";")[..|s|] == s;
  }

  lemma NoBlank(c: char)
    ensures IsBlank(c) ==> IsSpace(c)
    ensures c == ';' ==> !IsBlank(c)
  {
  }

  lemma WordTrimmed(s: string)
    requires IsWord(s)
    ensures IsTrimmed(s) && s[|s| - 1] != ';' && s[0] != '}' && s[0] != '{'
    ensures ',' !in s && ':' !in s && '{' !in s && '"' !in s && '/' !in s
  {
    assert IsPlain(s[0]) && IsPlain(s[|s| - 1]);
  }

  /** Printed numbers are words. */
  lemma DecimalWord(n: nat)
    ensures IsWord(Decimal(n))
  {
    var s := Decimal(n);
    forall i | 0 <= i < |s| ensures IsPlain(s[i]) {
      assert IsDigit(s[i], 10);
      DigitPlain(s[i]);
    }
  }

  lemma DigitPlain(c: char)
    requires IsDigit(c, 10)
    ensures IsPlain(c) && c != 'x' && c != 'X'
  {
  }

  lemma {:induction false} ListedTrimmed(parts: seq<string>)
    requires parts != [] && AreWords(parts)
    ensures IsTrimmed(Listed(parts)) && Listed(parts)[|Listed(parts)| - 1] != ';'
  {
    hide IsBlank, IsWord;
    WordTrimmed(parts[0]);
    if |parts| > 1 {
      ListedTrimmed(parts[1..]);
    }
  }

  lemma FieldsCons(token: string, rest: string, s: string)
    requires Split(s, ',') == [token] + Split(rest, ',')
    ensures Fields(s) == [Trim(token)] + Fields(rest)
  {
    hide Split, Trim;
  }

  /** What is listed with commas is found again. */
  lemma {:induction false} FieldsListed(parts: seq<string>)
    requires parts != [] && AreWords(parts)
    ensures Fields(Listed(parts)) == parts && Fields(" " + Listed(parts)) == parts
  {
    hide Split, Trim, IsWord, Fields;
    var first := parts[0];
    WordTrimmed(first);
    TrimTrimmed(first);
    if |parts| == 1 {
      SplitAt(first, ',', []);
      SplitAt(" " + first, ',', []);
      OneField(first);
      OneField(" " + first);
      assert parts == [first];
    } else {
      var rest := " " + Listed(parts[1..]);
      FieldsListed(parts[1..]);
      SplitAt(first, ',', rest);
      SplitAt(" " + first, ',', rest);
      assert " " + Listed(parts) == (" " + first) + ("," + rest);
      FieldsCons(first, rest, Listed(parts));
      FieldsCons(" " + first, rest, " " + Listed(parts));
      assert parts == [first] + parts[1..];
    }
  }

  lemma OneField(s: string)
    requires Split(s, ',') == [s]
    ensures Fields(s) == [Trim(s)]
  {
    hide Split, Trim;
  }

  lemma {:induction false} WordsNonEmpty(parts: seq<string>)
    requires AreWords(parts)
    ensures NonEmpty(parts) == parts
  {
    if parts != [] {
      WordsNonEmpty(parts[1..]);
    }
  }

  lemma {:induction false} SubscribersListed(parts: seq<string>)
    requires AreWords(parts)
    ensures Subscribers(parts) == parts
  {
    hide Fields, IsWord;
    if parts != [] {
      var first := [parts[0]];
      assert Listed(first) == parts[0];
      FieldsListed(first);
      WordsNonEmpty(first);
      SubscribersListed(parts[1..]);
    }
  }

  // ---- Numbers ----

  lemma {:induction false} HexWord(n: nat, capital: bool)
    ensures IsWord(Hex(n, capital))
  {
    HexRoundTrip(n, capital);
    var s := Hex(n, capital);
    forall i | 0 <= i < |s| ensures IsPlain(s[i]) {
      assert IsDigit(s[i], 16);
      HexDigitPlain(s[i]);
    }
  }

  lemma HexDigitPlain(c: char)
    requires IsDigit(c, 16)
    ensures IsPlain(c)
  {
  }

  lemma SpelledWord(text: string, n: nat)
    requires Spells(text, n)
    ensures IsWord(text)
  {
    hide Decimal, Hex;
    DecimalWord(n);
    HexWord(n, false);
    HexWord(n, true);
  }

  lemma NoHexPrefix(n: nat)
    ensures !HasHexPrefix(Decimal(n)) && StripSemicolon(Decimal(n)) == Decimal(n)
  {
    var s := Decimal(n);
    DecimalWord(n);
    WordTrimmed(s);
    StripTerminated(s);
    if |s| > 2 {
      assert IsDigit(s[1], 10);
      DigitPlain(s[1]);
      assert s[..2][1] != "0x"[1] && s[..2][1] != "0X"[1];
    }
  }

  lemma HexPrefix(prefix: string, n: nat, capital: bool)
    requires prefix == "0x" || prefix == "0X"
    ensures var text := prefix + Hex(n, capital);
      HasHexPrefix(text) && StripSemicolon(text) == text && text[2..] == Hex(n, capital)
  {
    hide Hex, IsWord;
    var text := prefix + Hex(n, capital);
    assert text[..2] == prefix && text[2..] == Hex(n, capital);
    PrefixedTrimmed(prefix, n, capital);
    StripTerminated(text);
  }

  lemma PrefixedTrimmed(prefix: string, n: nat, capital: bool)
    requires prefix == "0x" || prefix == "0X"
    ensures var text := prefix + Hex(n, capital);
      IsTrimmed(text) && text[|text| - 1] != ';'
  {
    hide Hex;
    HexWord(n, capital);
    WordTrimmed(Hex(n, capital));
  }

  /** A spelled number is read back, in either base. */
  lemma ParseIntSpelled(text: string, n: nat)
    requires Spells(text, n) && n <= INT_MAX
    ensures ParseInt(text) == Some(n as int) && ToInt(n) == n
  {
    hide HasHexPrefix, StripSemicolon, ParseSigned, Decimal, Hex;
    NoHexPrefix(n);
    ParsePrinted(n);
    ParseHex(n, false);
    ParseHex(n, true);
    HexPrefix("0x", n, false);
    HexPrefix("0x", n, true);
    HexPrefix("0X", n, false);
    HexPrefix("0X", n, true);
  }

  lemma ParseUintSpelled(stod: Stod, text: string, n: nat)
    requires ReadsNumbers(stod) && Spells(text, n) && n <= ULLONG_MAX
    ensures ParseUint(stod, text) == Some(n)
  {
    hide HasHexPrefix, StripSemicolon, ParseUnsigned, Decimal, Hex;
    NoHexPrefix(n);
    assert (n as real).Floor == n;
    ParseHex(n, false);
    ParseHex(n, true);
    HexPrefix("0x", n, false);
    HexPrefix("0x", n, true);
    HexPrefix("0X", n, false);
    HexPrefix("0X", n, true);
  }

  // ---- Lines ----

  /** The two halves of "name: rest". */
  lemma NameAndRest(name: string, parts: seq<string>)
    requires IsWord(name) && parts != [] && AreWords(parts)
    ensures var l := name + (":" + (" " + Listed(parts)));
      && IsTrimmed(l)
      && Find(l, ':') == |name| < |l|
      && Trim(l[..|name|]) == name
      && Fields(Trim(l[|name| + 1..])) == parts
  {
    hide IsWord, Fields, Trim, IsBlank, Find, AreWords;
    var rest := " " + Listed(parts);
    var l := name + (":" + rest);
    WordTrimmed(name);
    ListedTrimmed(parts);
    FindAt(name, ':', rest);
    TrimTrimmed(name);
    TrimTrimmed(Listed(parts));
    FieldsListed(parts);
    assert l[..|name|] == name;
    assert l[|name| + 1..] == rest;
  }

  lemma SignalLinePrinted(stod: Stod, s: Signal, width: string, init: string)
    requires ReadsNumbers(stod) && SignalOk(s) && Spells(width, s.bitWidth) && Spells(init, s.initValue)
    ensures SignalLine(stod, PrintSignal(s, width, init)) == Some(s)
  {
    hide ReadsNumbers, IsWord, Fields, Trim, Find, StripSemicolon, Subscribers, ParseInt, ParseUint, IsTrimmed, Listed,
      Spells;
    var parts := [width, init, s.publisher] + s.subscribers;
    SpelledWord(width, s.bitWidth);
    SpelledWord(init, s.initValue);
    NameAndRest(s.name, parts);
    StripTerminated(s.name + (":" + (" " + Listed(parts))));
    ParseIntSpelled(width, s.bitWidth);
    ParseUintSpelled(stod, init, s.initValue);
    SubscribersListed(s.subscribers);
    WordTrimmed(s.publisher);
    TrimTrimmed(s.publisher);
    assert parts[3..] == s.subscribers;
  }

  lemma RefLinePrinted(r: SignalRef, offset: string)
    requires RefOk(r) && Spells(offset, r.bitOffset)
    ensures RefLine(PrintRef(r, offset)) == Some(r)
  {
    hide IsWord, Trim, StripSemicolon, ParseInt, IsBlank, Find, Spells;
    var l := r.name + ("," + (" " + offset));
    SpelledWord(offset, r.bitOffset);
    WordTrimmed(r.name);
    WordTrimmed(offset);
    StripTerminated(l);
    FindAt(r.name, ',', " " + offset);
    TrimTrimmed(r.name);
    TrimTrimmed(offset);
    ParseIntSpelled(offset, r.bitOffset);
    assert l[..|r.name|] == r.name;
    assert l[|r.name| + 1..] == " " + offset;
  }

  lemma FrameOfPrinted(f: LdfFrame, id: string, length: string)
    requires FrameOk(f) && Spells(id, f.id) && Spells(length, f.length)
    ensures FrameOf(f.name, [id, f.publisher, length]) == f.(signals := [])
  {
    hide Trim, ParseInt, IsWord, Spells;
    ParseIntSpelled(id, f.id);
    ParseIntSpelled(length, f.length);
    WordTrimmed(f.publisher);
    TrimTrimmed(f.publisher);
  }

  lemma FrameHeaderPrinted(f: LdfFrame, id: string, length: string)
    requires FrameOk(f) && Spells(id, f.id) && Spells(length, f.length)
    ensures '{' in PrintHeader(f, id, length) && FrameHeader(PrintHeader(f, id, length)) == Some(f.(signals := []))
  {
    hide Trim, FrameOf, Fields, IsWord, Find, IsTrimmed, Listed, Spells;
    var parts := [id, f.publisher, length];
    var l := f.name + (":" + (" " + Listed(parts)));
    SpelledWord(id, f.id);
    SpelledWord(length, f.length);
    NameAndRest(f.name, parts);
    TrimTrimmed(l);
    var line := PrintHeader(f, id, length);
    assert line == l + " " + "{";
    assert line[|line| - 1] == '{';
    assert line[..|line| - 1] == l + " ";
    FrameOfPrinted(f, id, length);
  }

  lemma {:induction false} WordLengthOf(w: string, t: string)
    requires forall i :: 0 <= i < |w| ==> !IsSpace(w[i])
    requires t == [] || IsSpace(t[0])
    ensures WordLength(w + t) == |w|
  {
    if w != [] {
      assert (w + t)[1..] == w[1..] + t;
      WordLengthOf(w[1..], t);
    } else {
      assert w + t == t;
    }
  }

  lemma WordsCons(w: string, t: string)
    requires IsWord(w)
    ensures Words(w + (" " + t)) == [w] + Words(t)
    ensures Words(w) == [w]
  {
    assert IsPlain(w[0]);
    WordLengthOf(w, " " + t);
    WordLengthOf(w, []);
    assert w + [] == w;
    assert (w + (" " + t))[..|w|] == w;
    assert (w + (" " + t))[|w|..] == " " + t;
    assert (" " + t)[1..] == t;
    assert w[|w|..] == [] && w[..|w|] == w;
  }

  lemma EntryWords(name: string, delay: string, ms: string)
    requires IsWord(name) && IsWord(delay) && IsWord(ms)
    ensures Words(name + (" " + (delay + (" " + (ms + (" " + "ms")))))) == [name, delay, ms, "ms"]
  {
    hide Words, IsPlain;
    assert IsWord("ms") by { UnitWord(); }
    WordsCons(name, delay + (" " + (ms + (" " + "ms"))));
    WordsCons(delay, ms + (" " + "ms"));
    WordsCons(ms, "ms");
    WordsCons("ms", "");
  }

  lemma UnitWord()
    ensures IsWord("ms")
  {
  }

  lemma LowerDelay(word: string)
    requires IsDelay(word)
    ensures Lower(word) == "delay" && IsWord(word)
  {
    LowerOf(word);
    assert Lower(word)[0] == 'd' && Lower(word)[1] == 'e' && Lower(word)[2] == 'l' && Lower(word)[3] == 'a' && Lower(word)[4] == 'y';
    hide Lower;
    assert Lower(word) == "delay";
    LettersWord(word);
  }

  lemma LettersWord(word: string)
    requires IsDelay(word)
    ensures IsWord(word)
  {
  }

  lemma {:induction false} LowerOf(s: string)
    ensures |Lower(s)| == |s|
    ensures forall i :: 0 <= i < |s| ==> Lower(s)[i] == if 'A' <= s[i] <= 'Z' then s[i] - 'A' + 'a' else s[i]
  {
    if s != [] {
      LowerOf(s[1..]);
    }
  }

  /** A frame is found by its name when no other has it. */
  lemma {:induction false} IdFound(frames: Frames, id: byte, k: nat)
    requires NamesDiffer(frames) && id in frames && k <= id
    ensures IdOfName(frames, frames[id].name, k) == id
    decreases id - k
  {
    if k < id {
      IdFound(frames, id, k + 1);
    }
  }

  lemma ScheduleLinePrinted(stod: Stod, frames: Frames, e: ScheduleEntry, delay: string, ms: string)
    requires ReadsNumbers(stod) && NamesDiffer(frames) && EntryOk(frames, e) && IsDelay(delay) && Spells(ms, e.delayMs)
    requires IsWord(frames[e.id].name) && !StartsWith(frames[e.id].name, "AssignFrameId")
    ensures ScheduleLine(stod, frames, PrintEntry(frames[e.id].name, delay, ms)) == Some(e)
  {
    hide IsWord, Words, StripSemicolon, ParseUint, Lower, IsBlank, IdOfName, StartsWith, ReadsNumbers, NamesDiffer, Spells,
      IsDelay;
    var name := frames[e.id].name;
    var tail := " " + (delay + (" " + (ms + (" " + "ms"))));
    var l := name + tail;
    WordTrimmed(name);
    assert !IsBlank('s') by { LetterNotBlank(); }
    assert l[|l| - 1] == 's';
    StripTerminated(l);
    NotAssign(name, tail);
    SpelledWord(ms, e.delayMs);
    LowerDelay(delay);
    EntryWords(name, delay, ms);
    ParseUintSpelled(stod, ms, e.delayMs);
    IdFound(frames, e.id, 0);
  }

  lemma LetterNotBlank()
    ensures !IsBlank('s')
  {
  }

  /** The blank after the name keeps it from growing into the keyword. */
  lemma NotAssign(name: string, tail: string)
    requires !StartsWith(name, "AssignFrameId") && tail != [] && tail[0] == ' '
    ensures !StartsWith(name + tail, "AssignFrameId")
  {
    var k := "AssignFrameId";
    var l := name + tail;
    if |name| >= |k| {
      assert name[..|k|] == l[..|k|];
    } else if |l| >= |k| {
      assert l[..|k|][|name|] == ' ';
      NoSpaceInKeyword(|name|);
    }
  }

  lemma NoSpaceInKeyword(i: nat)
    requires i < |"AssignFrameId"|
    ensures "AssignFrameId"[i] != ' '
  {
  }

  // ---- Sections ----

  /** A printed line can be taken for neither brace, and holds no comment or line break. */
  predicate IsLine(l: string) {
    && IsTrimmed(l) && l[0] != '}' && l[0] != '{'
    && forall i :: 0 <= i < |l| ==> l[i] != '/' && l[i] != '\n'
  }

  predicate AreLines(lines: seq<string>) {
    forall i :: 0 <= i < |lines| ==> IsLine(lines[i]) || lines[i] == "}"
  }

  lemma {:induction false} ListedClean(parts: seq<string>)
    requires parts != [] && AreWords(parts)
    ensures forall i :: 0 <= i < |Listed(parts)| ==> Listed(parts)[i] != '/' && Listed(parts)[i] != '\n'
  {
    hide IsPlain;
    WordClean(parts[0]);
    if |parts| > 1 {
      ListedClean(parts[1..]);
    }
  }

  lemma WordClean(s: string)
    requires IsWord(s)
    ensures IsLine(s)
  {
    forall i | 0 <= i < |s| ensures s[i] != '/' && s[i] != '\n' {
      assert IsPlain(s[i]);
    }
    WordTrimmed(s);
  }

  lemma SignalIsLine(s: Signal, width: string, init: string)
    requires SignalOk(s) && IsWord(width) && IsWord(init)
    ensures IsLine(PrintSignal(s, width, init))
  {
    hide IsWord, IsPlain, Listed, IsBlank;
    NoBlank(';');
    WordClean(s.name);
    ListedClean([width, init, s.publisher] + s.subscribers);
  }

  lemma RefIsLine(r: SignalRef, offset: string)
    requires RefOk(r) && IsWord(offset)
    ensures IsLine(PrintRef(r, offset))
  {
    hide IsWord, IsPlain, IsBlank;
    NoBlank(';');
    WordClean(r.name);
    WordClean(offset);
  }

  lemma HeaderIsLine(f: LdfFrame, id: string, length: string)
    requires FrameOk(f) && IsWord(id) && IsWord(length)
    ensures IsLine(PrintHeader(f, id, length))
  {
    hide IsWord, IsPlain, Listed, StartsWith;
    WordClean(f.name);
    ListedClean([id, f.publisher, length]);
  }

  lemma EntryIsLine(name: string, delay: string, ms: string)
    requires IsWord(name) && IsWord(delay) && IsWord(ms)
    ensures IsLine(PrintEntry(name, delay, ms))
  {
    hide IsWord, IsPlain, IsBlank;
    NoBlank(';');
    WordClean(name);
    WordClean(delay);
    WordClean(ms);
    UnitWord();
    WordClean("ms");
  }

  lemma {:induction false} SignalsRead(stod: Stod, signals: seq<Signal>, spell: Speller, k: nat, known: Signals,
                                      rest: seq<string>)
    requires ReadsNumbers(stod) && SpellsAll(spell) && forall i :: 0 <= i < |signals| ==> SignalOk(signals[i])
    ensures SignalsSection(stod, PrintSignals(signals, spell, k) + (["}"] + rest), known) ==
            (SignalsOf(signals, known), rest)
    ensures AreLines(PrintSignals(signals, spell, k))
  {
    hide SignalLine, PrintSignal, IsWord, AreWords, IsTrimmed, ReadsNumbers, Spells;
    var lines := PrintSignals(signals, spell, k) + (["}"] + rest);
    if signals == [] {
      assert lines[1..] == rest;
    } else {
      var s := signals[0];
      SpelledWord(spell(k, s.bitWidth), s.bitWidth);
      SpelledWord(spell(k + 1, s.initValue), s.initValue);
      SignalLinePrinted(stod, s, spell(k, s.bitWidth), spell(k + 1, s.initValue));
      SignalIsLine(s, spell(k, s.bitWidth), spell(k + 1, s.initValue));
      assert lines[1..] == PrintSignals(signals[1..], spell, k + 2) + (["}"] + rest);
      SignalsRead(stod, signals[1..], spell, k + 2, known[s.name := s], rest);
    }
  }

  lemma {:induction false} RefsRead(refs: seq<SignalRef>, spell: Speller, k: nat, known: seq<SignalRef>, rest: seq<string>)
    requires SpellsAll(spell) && forall i :: 0 <= i < |refs| ==> RefOk(refs[i])
    ensures RefLines(PrintRefs(refs, spell, k) + (["}"] + rest), known) == (known + refs, rest)
    ensures AreLines(PrintRefs(refs, spell, k))
  {
    hide RefLine, PrintRef, IsWord, IsTrimmed, Spells;
    var lines := PrintRefs(refs, spell, k) + (["}"] + rest);
    if refs == [] {
      assert lines[1..] == rest && known + refs == known;
    } else {
      var r := refs[0];
      SpelledWord(spell(k, r.bitOffset), r.bitOffset);
      RefLinePrinted(r, spell(k, r.bitOffset));
      RefIsLine(r, spell(k, r.bitOffset));
      assert lines[1..] == PrintRefs(refs[1..], spell, k + 1) + (["}"] + rest);
      RefsRead(refs[1..], spell, k + 1, known + [r], rest);
      assert known + [r] + refs[1..] == known + refs;
    }
  }

  lemma {:induction false} FramesRead(frames: seq<LdfFrame>, spell: Speller, k: nat, known: Frames, rest: seq<string>)
    requires SpellsAll(spell) && forall i :: 0 <= i < |frames| ==> FrameOk(frames[i])
    ensures FramesSection(PrintFrames(frames, spell, k) + (["}"] + rest), known) == (FramesOf(frames, known), rest)
    ensures AreLines(PrintFrames(frames, spell, k))
  {
    hide FrameHeader, PrintHeader, IsTrimmed, RefLines, PrintRefs, StartsWith, IsWord, RefOk, Spells;
    var lines := PrintFrames(frames, spell, k) + (["}"] + rest);
    if frames == [] {
      assert lines[1..] == rest;
    } else {
      var f := frames[0];
      var next := k + 2 + |f.signals|;
      var after := PrintFrames(frames[1..], spell, next) + (["}"] + rest);
      SpelledWord(spell(k, f.id), f.id);
      SpelledWord(spell(k + 1, f.length), f.length);
      FrameHeaderPrinted(f, spell(k, f.id), spell(k + 1, f.length));
      HeaderIsLine(f, spell(k, f.id), spell(k + 1, f.length));
      assert lines[1..] == PrintRefs(f.signals, spell, k + 2) + (["}"] + after);
      RefsRead(f.signals, spell, k + 2, [], after);
      assert [] + f.signals == f.signals && f.(signals := []).(signals := f.signals) == f;
      FramesRead(frames[1..], spell, next, known[f.id := f], rest);
    }
  }

  /** Every frame of a schedule has a printable name. */
  ghost predicate NamesOk(frames: Frames) {
    forall id :: id in frames ==> IsWord(frames[id].name) && !StartsWith(frames[id].name, "AssignFrameId")
  }

  lemma {:induction false} FramesNamesOk(frames: seq<LdfFrame>, known: Frames)
    requires NamesOk(known) && forall i :: 0 <= i < |frames| ==> FrameOk(frames[i])
    ensures NamesOk(FramesOf(frames, known))
  {
    hide IsWord, StartsWith;
    if frames != [] {
      FramesNamesOk(frames[1..], known[frames[0].id := frames[0]]);
    }
  }

  lemma {:induction false} EntriesRead(stod: Stod, frames: Frames, entries: seq<ScheduleEntry>, delay: string,
                                      spell: Speller, k: nat, known: seq<ScheduleEntry>, rest: seq<string>)
    requires ReadsNumbers(stod) && SpellsAll(spell) && IsDelay(delay) && NamesDiffer(frames) && NamesOk(frames)
    requires forall i :: 0 <= i < |entries| ==> EntryOk(frames, entries[i])
    ensures EntryLines(stod, frames, PrintEntries(frames, entries, delay, spell, k) + (["}"] + rest), known) ==
            (known + entries, rest)
    ensures AreLines(PrintEntries(frames, entries, delay, spell, k))
  {
    hide ScheduleLine, PrintEntry, IsTrimmed, IsWord, StartsWith, ReadsNumbers, NamesDiffer, Spells, IsDelay;
    var lines := PrintEntries(frames, entries, delay, spell, k) + (["}"] + rest);
    if entries == [] {
      assert lines[1..] == rest && known + entries == known;
    } else {
      var e := entries[0];
      SpelledWord(spell(k, e.delayMs), e.delayMs);
      LowerDelay(delay);
      ScheduleLinePrinted(stod, frames, e, delay, spell(k, e.delayMs));
      EntryIsLine(frames[e.id].name, delay, spell(k, e.delayMs));
      assert lines[1..] == PrintEntries(frames, entries[1..], delay, spell, k + 1) + (["}"] + rest);
      EntriesRead(stod, frames, entries[1..], delay, spell, k + 1, known + [e], rest);
      assert known + [e] + entries[1..] == known + entries;
    }
  }

  lemma TableHead(name: string)
    requires IsWord(name)
    ensures var line := name + " " + "{";
      IsLine(line) && EndsWithBrace(line) && Trim(line[..|line| - 1]) == name
  {
    hide IsPlain, IsWord, Trim;
    WordClean(name);
    TrimTrimmed(name);
    assert (name + " " + "{")[..|name| + 1] == name + " ";
  }

  lemma {:induction false} TablesRead(stod: Stod, frames: Frames, tables: seq<Table>, delay: string, spell: Speller, k: nat,
                                     known: Schedules, rest: seq<string>)
    requires ReadsNumbers(stod) && SpellsAll(spell) && IsDelay(delay) && NamesDiffer(frames) && NamesOk(frames)
    requires forall i :: 0 <= i < |tables| ==> TableOk(frames, tables[i])
    ensures TablesSection(stod, frames, PrintTables(frames, tables, delay, spell, k) + (["}"] + rest), known) ==
            (TablesOf(tables, known), rest)
    ensures AreLines(PrintTables(frames, tables, delay, spell, k))
  {
    hide EntryLines, PrintEntries, IsTrimmed, IsWord, Trim, EndsWithBrace, EntryOk, ReadsNumbers, NamesDiffer, NamesOk,
      SpellsAll, IsDelay;
    var lines := PrintTables(frames, tables, delay, spell, k) + (["}"] + rest);
    if tables == [] {
      assert lines[1..] == rest;
    } else {
      var t := tables[0];
      assert TableOk(frames, t);
      var next := k + |t.entries|;
      var after := PrintTables(frames, tables[1..], delay, spell, next) + (["}"] + rest);
      TableHead(t.name);
      assert lines[1..] == PrintEntries(frames, t.entries, delay, spell, k) + (["}"] + after);
      EntriesRead(stod, frames, t.entries, delay, spell, k, [], after);
      assert [] + t.entries == t.entries;
      TablesRead(stod, frames, tables[1..], delay, spell, next, known[t.name := t.entries], rest);
    }
  }
}
