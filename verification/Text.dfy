/** The string operations that the message bridge and the LDF parser take from the C++ library. */
module Text {
  import opened Wrappers

  // ---- Numbers ----

  const ULLONG_MAX: nat := 0xFFFF_FFFF_FFFF_FFFF
  const LLONG_MAX: nat := 0x7FFF_FFFF_FFFF_FFFF

  predicate IsSpace(c: char) {
    c == ' ' || '\t' <= c <= '\r'
  }

  /** The digit c in a base up to 16; other characters are worth 16. */
  function DigitValue(c: char): (d: nat)
    ensures d <= 16
  {
    if '0' <= c <= '9' then c as int - '0' as int
    else if 'a' <= c <= 'f' then c as int - 'a' as int + 10
    else if 'A' <= c <= 'F' then c as int - 'A' as int + 10
    else 16
  }

  predicate IsDigit(c: char, base: nat) {
    DigitValue(c) < base
  }

  predicate AllDigits(s: string, base: nat) {
    forall i :: 0 <= i < |s| ==> IsDigit(s[i], base)
  }

  function DigitChar(d: nat): (c: char)
    requires d < 10
    ensures '0' <= c <= '9' && DigitValue(c) == d
  {
    '0' + d as char
  }

  /** std::to_string. */
  function Decimal(n: nat): (s: string)
    ensures s != [] && AllDigits(s, 10)
  {
    if n < 10 then [DigitChar(n)] else Decimal(n / 10) + [DigitChar(n % 10)]
  }

  /** Digit d in base 16, in capital or small letters. */
  function HexChar(d: nat, capital: bool): (c: char)
    requires d < 16
  {
    if capital then "0123456789ABCDEF"[d] else "0123456789abcdef"[d]
  }

  function Hex(n: nat, capital: bool): (s: string)
    ensures s != []
  {
    if n < 16 then [HexChar(n, capital)] else Hex(n / 16, capital) + [HexChar(n % 16, capital)]
  }

  function NumberValue(digits: string, base: nat): nat {
    if digits == [] then 0
    else base * NumberValue(digits[..|digits| - 1], base) + DigitValue(digits[|digits| - 1])
  }

  function LeadingDigits(s: string, base: nat): (n: nat)
    ensures n <= |s| && AllDigits(s[..n], base)
    ensures n < |s| ==> !IsDigit(s[n], base)
  {
    if s == [] || !IsDigit(s[0], base) then 0 else 1 + LeadingDigits(s[1..], base)
  }

  function SkipSpaces(s: string): string {
    if s != [] && IsSpace(s[0]) then SkipSpaces(s[1..]) else s
  }

  predicate HexPrefixed(s: string) {
    |s| >= 2 && s[0] == '0' && (s[1] == 'x' || s[1] == 'X')
  }

  /** What strtoll and strtoull read: blanks, a sign, in base 16 an optional 0x, and the digits, of which
      there must be one; whatever follows is ignored.  The result is the sign and the magnitude. */
  function ReadNumber(s: string, base: nat): Option<(bool, nat)> {
    var t := SkipSpaces(s);
    var negative := t != [] && t[0] == '-';
    var u := if t != [] && (t[0] == '-' || t[0] == '+') then t[1..] else t;
    var digits := if base == 16 && HexPrefixed(u) && |u| > 2 && IsDigit(u[2], 16) then u[2..] else u;
    var n := LeadingDigits(digits, base);
    if n == 0 then None else Some((negative, NumberValue(digits[..n], base)))
  }

  /** std::stoull; None stands for its exceptions. */
  function ParseUnsigned(s: string, base: nat): Option<nat> {
    match ReadNumber(s, base)
    case None => None
    case Some((negative, v)) =>
      if v > ULLONG_MAX then None
      else if negative && v > 0 then Some(ULLONG_MAX + 1 - v)
      else Some(v)
  }

  /** std::stoll. */
  function ParseSigned(s: string, base: nat): Option<int> {
    match ReadNumber(s, base)
    case None => None
    case Some((negative, v)) =>
      if negative then if v > LLONG_MAX + 1 then None else Some(-(v as int))
      else if v > LLONG_MAX then None else Some(v)
  }

  lemma {:induction false} DecimalRoundTrip(n: nat)
    ensures NumberValue(Decimal(n), 10) == n
  {
    if n >= 10 {
      DecimalRoundTrip(n / 10);
      assert Decimal(n)[..|Decimal(n)| - 1] == Decimal(n / 10);
    }
  }

  lemma {:induction false} DigitsLead(s: string, base: nat)
    requires AllDigits(s, base)
    ensures LeadingDigits(s, base) == |s|
  {
    if s != [] {
      DigitsLead(s[1..], base);
    }
  }

  lemma HexCharValue(d: nat, capital: bool)
    requires d < 16
    ensures DigitValue(HexChar(d, capital)) == d
  {
    if d < 4 {
    } else if d < 8 {
    } else if d < 12 {
    } else {
    }
  }

  lemma {:induction false} HexRoundTrip(n: nat, capital: bool)
    ensures NumberValue(Hex(n, capital), 16) == n && AllDigits(Hex(n, capital), 16)
  {
    hide HexChar, DigitValue;
    HexCharValue(n % 16, capital);
    if n >= 16 {
      HexRoundTrip(n / 16, capital);
      assert Hex(n, capital)[..|Hex(n, capital)| - 1] == Hex(n / 16, capital);
    }
  }

  // ---- What is read ----

  /** The blanks of the C locale: space, tab, line feed, vertical tab, form feed and carriage return. */
  predicate OnlySpaces(s: string) {
    forall i :: 0 <= i < |s| ==> s[i] == ' ' || 9 <= s[i] as int <= 13
  }

  predicate StartsDark(s: string) {
    s == [] || (s[0] != ' ' && !(9 <= s[0] as int <= 13))
  }

  lemma {:induction false} SpacesSkipped(spaces: string, s: string)
    requires OnlySpaces(spaces) && StartsDark(s)
    ensures SkipSpaces(spaces + s) == s
  {
    if spaces == [] {
      assert spaces + s == s;
    } else {
      assert (spaces + s)[1..] == spaces[1..] + s;
      SpacesSkipped(spaces[1..], s);
    }
  }

  lemma {:induction false} LeadingDigitsOf(digits: string, rest: string, base: nat)
    requires AllDigits(digits, base) && (rest == [] || !IsDigit(rest[0], base))
    ensures LeadingDigits(digits + rest, base) == |digits|
  {
    if digits == [] {
      assert digits + rest == rest;
    } else {
      assert (digits + rest)[1..] == digits[1..] + rest;
      LeadingDigitsOf(digits[1..], rest, base);
    }
  }

  /** Digits are read after any blanks and an optional sign, up to the first character that is none. */
  lemma ReadDigits(spaces: string, sign: string, digits: string, rest: string, base: nat)
    requires OnlySpaces(spaces) && (sign == "" || sign == "+" || sign == "-")
    requires AllDigits(digits, base) && (rest == [] || !IsDigit(rest[0], base)) && base <= 16
    requires base == 16 ==> !HexPrefixed(digits + rest)
    requires digits == [] ==> (StartsDark(rest) && (rest == [] || (rest[0] != '+' && rest[0] != '-'))) || sign != ""
    ensures ReadNumber(spaces + (sign + (digits + rest)), base) ==
            if digits == [] then None else Some((sign == "-", NumberValue(digits, base)))
  {
    var body := digits + rest;
    if digits != [] {
      assert IsDigit(digits[0], base);
      NotSpaceOrSign(digits[0]);
      assert body[0] == digits[0];
    } else {
      assert body == rest;
    }
    SpacesSkipped(spaces, sign + body);
    if sign == "" {
      assert sign + body == body;
    } else {
      assert (sign + body)[1..] == body;
    }
    LeadingDigitsOf(digits, rest, base);
    assert body[..|digits|] == digits;
  }

  lemma NotSpaceOrSign(c: char)
    requires IsDigit(c, 16)
    ensures c != ' ' && !(9 <= c as int <= 13) && c != '+' && c != '-' && c != 'x' && c != 'X'
  {
  }

  /** A printed number is read back by stoull and stoll, whatever blanks come before it and whatever comes
      after that is no digit: with a minus sign stoull wraps around, and out of range both fail. */
  lemma ParseDecimal(spaces: string, sign: string, n: nat, rest: string)
    requires OnlySpaces(spaces) && (sign == "" || sign == "+" || sign == "-")
    requires rest == [] || !IsDigit(rest[0], 10)
    ensures var s := spaces + (sign + (Decimal(n) + rest));
      && ParseUnsigned(s, 10) ==
         (if n > 0xFFFF_FFFF_FFFF_FFFF then None
          else if sign == "-" && n > 0 then Some(0x1_0000_0000_0000_0000 - n) else Some(n))
      && ParseSigned(s, 10) ==
         (if sign == "-" then if n > 0x8000_0000_0000_0000 then None else Some(-(n as int))
          else if n > 0x7FFF_FFFF_FFFF_FFFF then None else Some(n as int))
  {
    hide ReadNumber;
    ReadDigits(spaces, sign, Decimal(n), rest, 10);
    DecimalRoundTrip(n);
  }

  /** Text without a digit after the blanks and the sign is not a number. */
  lemma ParseNoNumber(spaces: string, sign: string, rest: string)
    requires OnlySpaces(spaces) && (sign == "" || sign == "+" || sign == "-")
    requires rest == [] || !IsDigit(rest[0], 10)
    requires (StartsDark(rest) && (rest == [] || (rest[0] != '+' && rest[0] != '-'))) || sign != ""
    ensures ParseUnsigned(spaces + (sign + rest), 10) == None && ParseSigned(spaces + (sign + rest), 10) == None
  {
    hide ReadNumber;
    assert [] + rest == rest;
    ReadDigits(spaces, sign, [], rest, 10);
  }

  lemma ParsePrinted(n: nat)
    ensures ParseUnsigned(Decimal(n), 10) == if n <= ULLONG_MAX then Some(n) else None
    ensures ParseSigned(Decimal(n), 10) == if n <= LLONG_MAX then Some(n as int) else None
  {
    ParseDecimal("", "", n, "");
    assert "" + ("" + (Decimal(n) + "")) == Decimal(n);
  }

  /** A number printed in hexadecimal, in capital or small letters, is read back in base 16. */
  lemma ParseHex(n: nat, capital: bool)
    ensures ParseUnsigned(Hex(n, capital), 16) == if n <= 0xFFFF_FFFF_FFFF_FFFF then Some(n) else None
    ensures ParseSigned(Hex(n, capital), 16) == if n <= 0x7FFF_FFFF_FFFF_FFFF then Some(n as int) else None
  {
    hide ReadNumber;
    var s := Hex(n, capital);
    HexRoundTrip(n, capital);
    if |s| >= 2 {
      assert IsDigit(s[1], 16);
      NotSpaceOrSign(s[1]);
    }
    assert s + "" == s && "" + ("" + s) == s;
    ReadDigits("", "", s, "", 16);
  }

  // ---- Cutting strings up ----

  /** The blanks that the parser trims. */
  predicate IsBlank(c: char) {
    c == ' ' || c == '\t' || c == '\r' || c == '\n'
  }

  function TrimLeft(s: string): string {
    if s != [] && IsBlank(s[0]) then TrimLeft(s[1..]) else s
  }

  function TrimRight(s: string): string {
    if s != [] && IsBlank(s[|s| - 1]) then TrimRight(s[..|s| - 1]) else s
  }

  function Trim(s: string): string {
    TrimRight(TrimLeft(s))
  }

  /** The first position of c, or the length of s. */
  function Find(s: string, c: char): (i: nat)
    ensures i <= |s| && c !in s[..i]
    ensures i < |s| ==> s[i] == c
  {
    if s == [] || s[0] == c then 0 else 1 + Find(s[1..], c)
  }

  /** The last position of c, or -1. */
  function FindLast(s: string, c: char): (i: int)
    ensures -1 <= i < |s|
    ensures 0 <= i ==> s[i] == c
  {
    if s == [] then -1
    else if s[|s| - 1] == c then |s| - 1
    else FindLast(s[..|s| - 1], c)
  }

  /** Where the first comment starts, or the length of s. */
  function FindComment(s: string): (i: nat)
    ensures i <= |s|
  {
    if |s| < 2 then |s|
    else if s[0] == '/' && s[1] == '/' then 0
    else 1 + FindComment(s[1..])
  }

  predicate StartsWith(s: string, prefix: string) {
    |prefix| <= |s| && s[..|prefix|] == prefix
  }

  /** The tokens that repeated calls of std::getline deliver. */
  function Split(s: string, c: char): seq<string>
    decreases |s|
  {
    if s == [] then [] else [s[..Find(s, c)]] + Split(AfterToken(s, c), c)
  }

  /** What follows the first c. */
  function AfterToken(s: string, c: char): (r: string)
    ensures s != [] ==> |r| < |s|
  {
    if Find(s, c) < |s| then s[Find(s, c) + 1..] else []
  }

  function WordLength(s: string): (n: nat)
    ensures n <= |s|
    ensures forall i :: 0 <= i < n ==> !IsSpace(s[i])
    ensures n < |s| ==> IsSpace(s[n])
  {
    if s == [] || IsSpace(s[0]) then 0 else 1 + WordLength(s[1..])
  }

  /** The tokens that the stream operator >> delivers. */
  function Words(s: string): seq<string> {
    if s == [] then []
    else if IsSpace(s[0]) then Words(s[1..])
    else [s[..WordLength(s)]] + Words(s[WordLength(s)..])
  }

  function Lower(s: string): string {
    if s == [] then []
    else [if 'A' <= s[0] <= 'Z' then s[0] - 'A' + 'a' else s[0]] + Lower(s[1..])
  }

  function TrimAll(parts: seq<string>): (r: seq<string>)
    ensures |r| == |parts| && forall i :: 0 <= i < |parts| ==> r[i] == Trim(parts[i])
  {
    seq(|parts|, i requires 0 <= i < |parts| => Trim(parts[i]))
  }

  function NonEmpty(parts: seq<string>): (r: seq<string>)
    ensures "" !in r
  {
    if parts == [] then []
    else (if parts[0] == "" then [] else [parts[0]]) + NonEmpty(parts[1..])
  }

  function StripComment(line: string): string {
    Trim(line[..FindComment(line)])
  }

  function StripSemicolon(s: string): string {
    var t := Trim(s);
    if t != [] && t[|t| - 1] == ';' then Trim(t[..|t| - 1]) else t
  }

  /** In base 16 a prefix before the digits is read over. */
  lemma ParseHexPrefixed(prefix: string, n: nat, capital: bool)
    requires prefix == "0x" || prefix == "0X"
    ensures ReadNumber(prefix + Hex(n, capital), 16) == ReadNumber(Hex(n, capital), 16) == Some((false, n))
  {
    hide Hex, NumberValue, LeadingDigits;
    var h := Hex(n, capital);
    var text := prefix + h;
    HexRoundTrip(n, capital);
    assert text[2..] == h && text[0] == '0' && text[2] == h[0];
    assert IsDigit(h[0], 16);
    NotSpaceOrSign(h[0]);
    if |h| >= 2 {
      assert IsDigit(h[1], 16);
      NotSpaceOrSign(h[1]);
    }
    DigitsLead(h, 16);
    assert h[..|h|] == h;
  }

  // ---- Words ----

  /** No blanks of any kind. */
  predicate IsDark(w: string) {
    w != [] && forall i :: 0 <= i < |w| ==> w[i] != ' ' && !(9 <= w[i] as int <= 13)
  }

  /** Words are what any blanks separate. */
  lemma WordsSeparated(spaces: string, w: string, rest: string)
    requires OnlySpaces(spaces) && IsDark(w)
    requires rest == [] || rest[0] == ' ' || 9 <= rest[0] as int <= 13
    ensures Words(spaces + (w + rest)) == [w] + Words(rest)
  {
    BlanksBeforeWord(spaces, w + rest);
    DarkLength(w, rest);
    assert (w + rest)[..|w|] == w && (w + rest)[|w|..] == rest;
  }

  lemma NoWords(spaces: string)
    requires OnlySpaces(spaces)
    ensures Words(spaces) == []
  {
    assert spaces + "" == spaces;
    BlanksBeforeWord(spaces, "");
  }

  lemma {:induction false} BlanksBeforeWord(spaces: string, s: string)
    requires OnlySpaces(spaces)
    ensures Words(spaces + s) == Words(s)
  {
    if spaces == [] {
      assert spaces + s == s;
    } else {
      assert (spaces + s)[1..] == spaces[1..] + s;
      BlanksBeforeWord(spaces[1..], s);
    }
  }

  lemma {:induction false} DarkLength(w: string, rest: string)
    requires forall i :: 0 <= i < |w| ==> w[i] != ' ' && !(9 <= w[i] as int <= 13)
    requires rest == [] || rest[0] == ' ' || 9 <= rest[0] as int <= 13
    ensures WordLength(w + rest) == |w|
  {
    if w == [] {
      assert w + rest == rest;
    } else {
      assert (w + rest)[1..] == w[1..] + rest;
      DarkLength(w[1..], rest);
    }
  }

  // ---- Cutting, spelled out ----

  /** Only one semicolon goes. */
  lemma OneSemicolonStripped(s: string)
    requires s == "" || (s[0] != ' ' && s[0] != '\t' && s[0] != '\r' && s[0] != '\n')
    ensures StripSemicolon(s + ";;") == s + ";"
  {
    var t := s + ";;";
    assert Trim(t) == t;
    assert t[..|t| - 1] == s + ";";
    assert Trim(s + ";") == s + ";";
  }

  /** A comment starts at the first two slashes in a row. */
  lemma {:induction false} FindCommentIff(s: string)
    ensures var i := FindComment(s);
      && (forall k :: 0 <= k < i && k + 1 < |s| ==> !(s[k] == '/' && s[k + 1] == '/'))
      && (i < |s| ==> i + 1 < |s| && s[i] == '/' && s[i + 1] == '/')
  {
    if |s| >= 2 && !(s[0] == '/' && s[1] == '/') {
      FindCommentIff(s[1..]);
      var i := FindComment(s[1..]);
      forall k | 0 <= k < i + 1 && k + 1 < |s| ensures !(s[k] == '/' && s[k + 1] == '/') {
        if k > 0 {
          assert s[1..][k - 1] == s[k] && s[1..][k] == s[k + 1];
        }
      }
      if i < |s[1..]| {
        assert s[1..][i] == s[i + 1] && s[1..][i + 1] == s[i + 2];
      }
    }
  }

  /** The last position of a character. */
  lemma {:induction false} FindLastIff(s: string, c: char)
    ensures var i := FindLast(s, c);
      && (i == -1 <==> c !in s)
      && forall k :: i < k < |s| ==> s[k] != c
  {
    if s != [] && s[|s| - 1] != c {
      FindLastIff(s[..|s| - 1], c);
      assert s == s[..|s| - 1] + [s[|s| - 1]];
    }
  }

  lemma {:induction false} FindAt(a: string, c: char, b: string)
    requires c !in a
    ensures Find(a + ([c] + b), c) == |a|
    ensures Find(a, c) == |a|
  {
    if a != [] {
      assert (a + ([c] + b))[1..] == a[1..] + ([c] + b);
      FindAt(a[1..], c, b);
    }
  }

  /** The first token, and what follows it. */
  lemma SplitAt(a: string, c: char, b: string)
    requires c !in a
    ensures Split(a + ([c] + b), c) == [a] + Split(b, c)
    ensures a != [] ==> Split(a, c) == [a]
  {
    FindAt(a, c, b);
    assert (a + ([c] + b))[..|a|] == a;
    assert (a + ([c] + b))[|a| + 1..] == b;
    assert a[..|a|] == a;
  }

  /** What follows the last separator counts only if it is not empty. */
  lemma SplitEnds(a: string, c: char)
    requires c !in a
    ensures Split("", c) == [] && Split(a + [c], c) == [a]
  {
    SplitAt(a, c, "");
    assert a + ([c] + "") == a + [c];
  }
}
