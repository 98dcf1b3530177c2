/** The base64 codec of cli/json.hpp (section 4 of RFC 4648), proved against the bit string that a text
    stands for. */
module Base64 {
  import opened Gf2
  import opened Bytes

  type sextet = x: int | 0 <= x < 64

  // ---- The alphabet ----

  function Letter(v: sextet): (c: char)
    ensures c != '='
  {
    if v < 26 then 'A' + v as char
    else if v < 52 then 'a' + (v - 26) as char
    else if v < 62 then '0' + (v - 52) as char
    else if v == 62 then '+' else '/'
  }

  /** The value of a character, -1 for those outside the alphabet. */
  function LetterValue(c: char): (v: int)
    ensures -1 <= v < 64
  {
    if 'A' <= c <= 'Z' then c as int - 'A' as int
    else if 'a' <= c <= 'z' then c as int - 'a' as int + 26
    else if '0' <= c <= '9' then c as int - '0' as int + 52
    else if c == '+' then 62
    else if c == '/' then 63
    else -1
  }

  lemma LetterValueOf(v: sextet)
    ensures LetterValue(Letter(v)) == v
  {
  }

  // ---- What a text stands for ----

  /** The values of the letters before the first '='. */
  function Values(s: string): seq<sextet> {
    if s == [] || s[0] == '=' then []
    else if LetterValue(s[0]) < 0 then Values(s[1..])
    else [LetterValue(s[0])] + Values(s[1..])
  }

  /** Six bits a letter. */
  function SixBits(values: seq<sextet>): (bits: Poly)
    ensures |bits| == 6 * |values|
  {
    if values == [] then [] else LowBits(values[0], 6) + SixBits(values[1..])
  }

  // ---- Encoding ----

  function ByteAt(data: seq<byte>, k: nat): (d: int)
    ensures 0 <= d < 256
  {
    if k < |data| then data[k] else 0
  }

  /** The 24-bit word of the group at i. */
  function GroupWord(data: seq<byte>, i: nat): (b: nat)
    ensures b < 0x100_0000
  {
    ByteAt(data, i) * 0x1_0000 + ByteAt(data, i + 1) * 0x100 + ByteAt(data, i + 2)
  }

  function Sextet(b: nat, k: nat): sextet
    requires k < 4
  {
    match k
    case 0 => b / 0x4_0000 % 64
    case 1 => b / 0x1000 % 64
    case 2 => b / 0x40 % 64
    case _ => b % 64
  }

  function EncodeGroup(data: seq<byte>, i: nat): (s: string)
    requires i < |data|
    ensures |s| == 4
  {
    var b := GroupWord(data, i);
    [Letter(Sextet(b, 0)), Letter(Sextet(b, 1)),
     if i + 1 < |data| then Letter(Sextet(b, 2)) else '=',
     if i + 2 < |data| then Letter(Sextet(b, 3)) else '=']
  }

  /** The groups from i on. */
  function EncodeFrom(data: seq<byte>, i: nat): (s: string)
    ensures |s| == if i < |data| then 4 * ((|data| - i + 2) / 3) else 0
    decreases |data| - i
  {
    if i >= |data| then "" else EncodeGroup(data, i) + EncodeFrom(data, i + 3)
  }

  method Base64Encode(data: seq<byte>) returns (out: string)
    ensures out == EncodeFrom(data, 0)
    ensures |out| == 4 * ((|data| + 2) / 3)
  {
    hide Letter, Sextet, ByteAt, EncodeFrom;
    out := "";
    var i := 0;
    while i < |data|
      invariant 0 <= i && out + EncodeFrom(data, i) == EncodeFrom(data, 0)
      decreases |data| - i
    {
      GroupEnds(data, i);
      var b: int := ByteAt(data, i) * 0x1_0000;
      if i + 1 < |data| {
        b := b + ByteAt(data, i + 1) * 0x100;
      }
      if i + 2 < |data| {
        b := b + ByteAt(data, i + 2);
      }
      ghost var before := out;
      out := out + [Letter(Sextet(b, 0))];
      out := out + [Letter(Sextet(b, 1))];
      out := out + [if i + 1 < |data| then Letter(Sextet(b, 2)) else '='];
      out := out + [if i + 2 < |data| then Letter(Sextet(b, 3)) else '='];
      assert out == before + EncodeGroup(data, i);
      NextGroup(data, i);
      i := i + 3;
    }
    NoGroup(data, i);
  }

  lemma NextGroup(data: seq<byte>, i: nat)
    requires i < |data|
    ensures EncodeFrom(data, i) == EncodeGroup(data, i) + EncodeFrom(data, i + 3)
  {
  }

  lemma NoGroup(data: seq<byte>, i: nat)
    requires i >= |data|
    ensures EncodeFrom(data, i) == ""
  {
  }

  lemma GroupEnds(data: seq<byte>, i: nat)
    ensures i + 1 >= |data| ==> ByteAt(data, i + 1) == 0
    ensures i + 2 >= |data| ==> ByteAt(data, i + 2) == 0
  {
  }

  // ---- Decoding ----

  method Base64Decode(s: string) returns (out: seq<byte>)
    ensures Decodes(s, out)
  {
    hide LetterValue, LowBits, Pow2, Bits8, Bits, Decodes, SixBits;
    out := [];
    var accum: nat, bits: nat := 0, 0;
    ghost var rest := s;
    NothingYet(s);
    for i := 0 to |s|
      invariant rest == s[i..]
      invariant Accounted(s, out, accum, bits, rest)
    {
      var c := s[i];
      if c == '=' {
        break;
      }
      var v := LetterValue(c);
      rest := s[i + 1..];
      assert s[i..][1..] == rest;
      if v < 0 {
        continue;
      }
      ghost var before := accum;
      accum := (accum * 64 + v) % TWO32;
      LetterTaken(s, out, before, bits, s[i..], v);
      bits := bits + 6;
      if bits >= 8 {
        bits := bits - 8;
        var b := accum / Pow2(bits) % 256;
        SplitByte(accum, bits);
        BitsSnoc(out, b);
        out := out + [b];
      }
    }
    AllAccounted(s, out, accum, bits, rest);
  }

  /** The bytes are the whole octets of the text's bit string. */
  ghost predicate Decodes(s: string, out: seq<byte>) {
    var bits := SixBits(Values(s));
    8 * |out| <= |bits| < 8 * |out| + 8 && Bits(out) == bits[..8 * |out|]
  }

  /** What has been put out, the low bits of the accumulator and the text still to come make up the text's
      bit string. */
  ghost predicate Accounted(s: string, out: seq<byte>, accum: nat, bits: nat, rest: string) {
    && bits <= 6 && bits % 2 == 0
    && SixBits(Values(s)) == Bits(out) + LowBits(accum, bits) + SixBits(Values(rest))
  }

  lemma NothingYet(s: string)
    ensures Accounted(s, [], 0, 0, s)
  {
    hide Values;
  }

  lemma LetterTaken(s: string, out: seq<byte>, accum: nat, bits: nat, rest: string, v: sextet)
    requires Accounted(s, out, accum, bits, rest)
    requires rest != [] && rest[0] != '=' && LetterValue(rest[0]) == v
    ensures SixBits(Values(s)) ==
            Bits(out) + LowBits((accum * 64 + v) % TWO32, bits + 6) + SixBits(Values(rest[1..]))
  {
    hide LetterValue, LowBits, Bits;
    AppendSextet(accum, bits, v);
    assert Values(rest) == [v] + Values(rest[1..]);
    assert SixBits(Values(rest)) == LowBits(v, 6) + SixBits(Values(rest[1..])) by {
      assert Values(rest)[1..] == Values(rest[1..]);
    }
  }

  lemma AllAccounted(s: string, out: seq<byte>, accum: nat, bits: nat, rest: string)
    requires Accounted(s, out, accum, bits, rest)
    requires rest == [] || rest[0] == '='
    ensures Decodes(s, out)
  {
    hide Bits, LowBits;
    assert Values(rest) == [] && SixBits(Values(rest)) == [];
  }

  // ---- Bits of words ----

  lemma Pow2Values()
    ensures Pow2(6) == 64 && Pow2(8) == 256 && Pow2(32) == TWO32
  {
    assert Pow2(3) == 8;
    assert Pow2(6) == 64;
    assert Pow2(8) == 256;
    assert Pow2(12) == 0x1000;
    assert Pow2(16) == 0x1_0000;
    assert Pow2(20) == 0x10_0000;
    assert Pow2(24) == 0x100_0000;
    assert Pow2(28) == 0x1000_0000;
  }

  /** A wrap at 32 bits leaves up to 32 low bits alone. */
  lemma LowBitsWrapped(x: nat, n: nat)
    requires n <= 32
    ensures LowBits(x % TWO32, n) == LowBits(x, n)
  {
    hide LowBits, Pow2;
    Pow2Values();
    LowBitsModulo(x, 32);
    LowBitsSuffix(x, n, 32 - n);
    LowBitsSuffix(x % TWO32, n, 32 - n);
  }

  /** k bits of a, then six bits of v. */
  lemma AppendSextet(a: nat, k: nat, v: sextet)
    requires k <= 6
    ensures LowBits((a * 64 + v) % TWO32, k + 6) == LowBits(a, k) + LowBits(v, 6)
  {
    hide LowBits, Pow2;
    Pow2Values();
    var x := a * 64 + v;
    LowBitsWrapped(x, k + 6);
    LowBitsPrefix(x, k, 6);
    LowBitsSuffix(x, 6, k);
    LowBitsModulo(x, 6);
    assert x / 64 == a && x % 64 == v;
    assert LowBits(x, k + 6) == LowBits(x, k + 6)[..k] + LowBits(x, k + 6)[k..];
  }

  /** The eight bits above the k lowest. */
  lemma SplitByte(a: nat, k: nat)
    ensures LowBits(a, 8 + k) == Bits8(a / Pow2(k) % 256) + LowBits(a, k)
  {
    hide LowBits, Pow2;
    Pow2Values();
    LowBitsPrefix(a, 8, k);
    LowBitsSuffix(a, k, 8);
    QuotientNat(a, Pow2(k));
    LowBitsModulo(a / Pow2(k), 8);
    assert LowBits(a, 8 + k) == LowBits(a, 8 + k)[..8] + LowBits(a, 8 + k)[8..];
  }

  lemma BitsSnoc(out: seq<byte>, b: byte)
    ensures Bits(out + [b]) == Bits(out) + Bits8(b)
  {
    assert (out + [b])[..|out|] == out;
  }

  // ---- The two together ----

  /** What decoding skips. */
  predicate IsJunk(c: char) {
    c != '=' && LetterValue(c) < 0
  }

  function WithoutJunk(s: string): string {
    if s == [] then [] else (if IsJunk(s[0]) then [] else [s[0]]) + WithoutJunk(s[1..])
  }

  lemma {:induction false} JunkIgnored(s: string)
    ensures Values(WithoutJunk(s)) == Values(s)
  {
    hide LetterValue;
    if s != [] {
      JunkIgnored(s[1..]);
      var w := WithoutJunk(s);
      if IsJunk(s[0]) {
        assert w == WithoutJunk(s[1..]);
      } else {
        assert w[0] == s[0] && w[1..] == WithoutJunk(s[1..]);
        assert Values(w) == if w[0] == '=' then [] else [LetterValue(w[0])] + Values(w[1..]);
      }
    }
  }

  lemma JoinByte(h: nat, d: byte, n: nat)
    ensures LowBits(h * 256 + d, n + 8) == LowBits(h, n) + Bits8(d)
  {
    hide LowBits, Pow2;
    Pow2Values();
    var x: nat := h * 256 + d;
    LowBitsPrefix(x, n, 8);
    LowBitsSuffix(x, 8, n);
    LowBitsModulo(x, 8);
    assert x / 256 == h && x % 256 == d;
    assert LowBits(x, n + 8) == LowBits(x, n + 8)[..n] + LowBits(x, n + 8)[n..];
  }

  lemma SplitSextet(x: nat, n: nat)
    ensures LowBits(x, n + 6) == LowBits(x / 64, n) + LowBits(x % 64, 6)
  {
    hide LowBits, Pow2;
    Pow2Values();
    LowBitsPrefix(x, n, 6);
    LowBitsSuffix(x, 6, n);
    LowBitsModulo(x, 6);
    assert LowBits(x, n + 6) == LowBits(x, n + 6)[..n] + LowBits(x, n + 6)[n..];
  }

  /** A word of three octets, and the same word as four sextets. */
  lemma WordBits(data: seq<byte>, i: nat)
    ensures var b := GroupWord(data, i);
      SixBits([Sextet(b, 0), Sextet(b, 1), Sextet(b, 2), Sextet(b, 3)]) ==
      Bits8(ByteAt(data, i)) + Bits8(ByteAt(data, i + 1)) + Bits8(ByteAt(data, i + 2))
  {
    hide LowBits, ByteAt, SixBits, Bits8, Sextet;
    var d0, d1, d2 := ByteAt(data, i), ByteAt(data, i + 1), ByteAt(data, i + 2);
    var b := GroupWord(data, i);
    JoinByte(d0 * 256 + d1, d2, 16);
    JoinByte(d0, d1, 8);
    OctetBits(d0);
    assert b == (d0 * 256 + d1) * 256 + d2;
    WordSextets(b);
    FourSextets(Sextet(b, 0), Sextet(b, 1), Sextet(b, 2), Sextet(b, 3));
  }

  lemma WordSextets(b: nat)
    requires b < 0x100_0000
    ensures LowBits(b, 24) ==
            LowBits(Sextet(b, 0), 6) + LowBits(Sextet(b, 1), 6) + LowBits(Sextet(b, 2), 6) + LowBits(Sextet(b, 3), 6)
  {
    hide LowBits;
    SplitSextet(b, 18);
    SplitSextet(b / 64, 12);
    SplitSextet(b / 64 / 64, 6);
    assert b / 64 / 64 == b / 0x1000 && b / 0x1000 / 64 == b / 0x4_0000;
    assert b / 0x4_0000 < 64;
  }

  lemma OctetBits(d: byte)
    ensures LowBits(d, 8) == Bits8(d)
  {
  }

  lemma FourSextets(s0: sextet, s1: sextet, s2: sextet, s3: sextet)
    ensures SixBits([s0, s1, s2, s3]) == LowBits(s0, 6) + LowBits(s1, 6) + LowBits(s2, 6) + LowBits(s3, 6)
    ensures SixBits([s0, s1, s2, s3])[..18] == SixBits([s0, s1, s2])
    ensures SixBits([s0, s1, s2, s3])[..12] == SixBits([s0, s1])
  {
    hide LowBits;
    assert SixBits([s3]) == LowBits(s3, 6);
    assert SixBits([s2, s3]) == LowBits(s2, 6) + LowBits(s3, 6);
    assert SixBits([s1, s2, s3]) == LowBits(s1, 6) + (LowBits(s2, 6) + LowBits(s3, 6));
    assert SixBits([s2]) == LowBits(s2, 6);
    assert SixBits([s1, s2]) == LowBits(s1, 6) + LowBits(s2, 6);
    assert SixBits([s1]) == LowBits(s1, 6);
  }

  function Letters(values: seq<sextet>): (s: string)
    ensures |s| == |values| && forall i :: 0 <= i < |values| ==> s[i] == Letter(values[i])
  {
    seq(|values|, i requires 0 <= i < |values| => Letter(values[i]))
  }

  lemma {:induction false} LettersFirst(values: seq<sextet>, rest: string)
    ensures Values(Letters(values) + rest) == values + Values(rest)
  {
    hide Letter, LetterValue;
    var s := Letters(values) + rest;
    if values == [] {
      assert s == rest;
    } else {
      LetterValueOf(values[0]);
      assert s[1..] == Letters(values[1..]) + rest;
      LettersFirst(values[1..], rest);
      assert Values(s) == [values[0]] + Values(s[1..]);
    }
  }

  /** The encoding's bits are the data's bits, with zeros up to a whole sextet. */
  lemma {:induction false} EncodedBits(data: seq<byte>, i: nat)
    requires i <= |data|
    ensures var bits := SixBits(Values(EncodeFrom(data, i)));
            8 * (|data| - i) <= |bits| < 8 * (|data| - i) + 8 && bits[..8 * (|data| - i)] == Bits(data[i..])
    decreases |data| - i
  {
    hide GroupWord, Sextet, LowBits, Letter, LetterValue, Bits;
    if i == |data| {
      assert data[i..] == [];
      NothingEncoded(data);
    } else if i + 1 == |data| {
      LastOne(data, i);
    } else if i + 2 == |data| {
      LastTwo(data, i);
    } else {
      FullGroup(data, i);
      EncodedBits(data, i + 3);
    }
  }

  lemma NothingEncoded(data: seq<byte>)
    ensures EncodeFrom(data, |data|) == "" && Values("") == [] && SixBits([]) == [] && Bits([]) == []
  {
  }

  lemma {:induction false} SixBitsConcat(a: seq<sextet>, b: seq<sextet>)
    ensures SixBits(a + b) == SixBits(a) + SixBits(b)
  {
    hide LowBits;
    if a == [] {
      assert a + b == b;
    } else {
      assert (a + b)[1..] == a[1..] + b;
      SixBitsConcat(a[1..], b);
    }
  }

  lemma BitsOfThree(d0: byte, d1: byte, d2: byte)
    ensures Bits([d0]) == Bits8(d0) && Bits([d0, d1]) == Bits8(d0) + Bits8(d1)
    ensures Bits([d0, d1, d2]) == Bits8(d0) + Bits8(d1) + Bits8(d2)
  {
    hide Bits8;
    BitsSnoc([], d0);
    BitsSnoc([d0], d1);
    BitsSnoc([d0, d1], d2);
    assert [] + [d0] == [d0] && [d0] + [d1] == [d0, d1] && [d0, d1] + [d2] == [d0, d1, d2];
  }

  lemma FullGroup(data: seq<byte>, i: nat)
    requires i + 3 <= |data|
    ensures SixBits(Values(EncodeFrom(data, i))) == Bits(data[i..i + 3]) + SixBits(Values(EncodeFrom(data, i + 3)))
    ensures Bits(data[i..]) == Bits(data[i..i + 3]) + Bits(data[i + 3..])
  {
    hide GroupWord, Sextet, Letter, LetterValue, Bits, SixBits, Values, Bits8;
    var b := GroupWord(data, i);
    var values := [Sextet(b, 0), Sextet(b, 1), Sextet(b, 2), Sextet(b, 3)];
    assert EncodeGroup(data, i) == Letters(values);
    LettersFirst(values, EncodeFrom(data, i + 3));
    SixBitsConcat(values, Values(EncodeFrom(data, i + 3)));
    WordBits(data, i);
    BitsOfThree(data[i], data[i + 1], data[i + 2]);
    assert data[i..i + 3] == [data[i], data[i + 1], data[i + 2]];
    BitsConcat(data[i..i + 3], data[i + 3..]);
    assert data[i..] == data[i..i + 3] + data[i + 3..];
  }

  lemma NothingAfterPadding(rest: string)
    requires rest != "" && rest[0] == '='
    ensures Values(rest) == []
  {
  }

  /** A last group of one byte, and one of two. */
  lemma LastOne(data: seq<byte>, i: nat)
    requires |data| == i + 1
    ensures var bits := SixBits(Values(EncodeFrom(data, i)));
            |bits| == 12 && bits[..8] == Bits(data[i..])
  {
    hide GroupWord, Sextet, Letter, LetterValue, Bits, SixBits, Values, Bits8;
    var b := GroupWord(data, i);
    var values := [Sextet(b, 0), Sextet(b, 1)];
    WordBits(data, i);
    FourSextets(Sextet(b, 0), Sextet(b, 1), Sextet(b, 2), Sextet(b, 3));
    BitsOfThree(data[i], data[i], data[i]);
    assert EncodeFrom(data, i) == Letters(values) + "==";
    LettersFirst(values, "==");
    NothingAfterPadding("==");
    assert values + [] == values;
    assert data[i..] == [data[i]];
    assert SixBits(values)[..8] == Bits8(data[i]);
  }

  lemma LastTwo(data: seq<byte>, i: nat)
    requires |data| == i + 2
    ensures var bits := SixBits(Values(EncodeFrom(data, i)));
            |bits| == 18 && bits[..16] == Bits(data[i..])
  {
    hide GroupWord, Sextet, Letter, LetterValue, Bits, SixBits, Values, Bits8;
    var b := GroupWord(data, i);
    var values := [Sextet(b, 0), Sextet(b, 1), Sextet(b, 2)];
    WordBits(data, i);
    FourSextets(Sextet(b, 0), Sextet(b, 1), Sextet(b, 2), Sextet(b, 3));
    BitsOfThree(data[i], data[i + 1], data[i]);
    assert EncodeFrom(data, i) == Letters(values) + "=";
    LettersFirst(values, "=");
    NothingAfterPadding("=");
    assert values + [] == values;
    assert data[i..] == [data[i], data[i + 1]];
    assert SixBits(values)[..16] == Bits8(data[i]) + Bits8(data[i + 1]);
  }

  /** Whatever decodes an encoding, possibly with junk put in, is the data. */
  lemma DecodedIsData(data: seq<byte>, s: string, out: seq<byte>)
    requires WithoutJunk(s) == EncodeFrom(data, 0) && Decodes(s, out)
    ensures out == data
  {
    hide Values, SixBits, Bits;
    JunkIgnored(s);
    EncodedBits(data, 0);
    assert data[0..] == data;
    assert |out| == |data|;
    BitsInjective(out, data);
  }

  lemma {:induction false} NoJunkEncoded(data: seq<byte>, i: nat)
    ensures WithoutJunk(EncodeFrom(data, i)) == EncodeFrom(data, i)
    decreases |data| - i
  {
    hide Letter, LetterValue, GroupWord, Sextet;
    if i < |data| {
      var g := EncodeGroup(data, i);
      var b := GroupWord(data, i);
      LetterValueOf(Sextet(b, 0));
      LetterValueOf(Sextet(b, 1));
      LetterValueOf(Sextet(b, 2));
      LetterValueOf(Sextet(b, 3));
      NoJunkConcat(g, EncodeFrom(data, i + 3));
      NoJunkEncoded(data, i + 3);
    }
  }

  lemma {:induction false} NoJunkConcat(a: string, b: string)
    requires forall k :: 0 <= k < |a| ==> !IsJunk(a[k])
    ensures WithoutJunk(a + b) == a + WithoutJunk(b)
  {
    hide IsJunk;
    if a == [] {
      assert a + b == b;
    } else {
      assert (a + b)[1..] == a[1..] + b;
      NoJunkConcat(a[1..], b);
    }
  }

  /** The codec's own round trip. */
  method RoundTrip(data: seq<byte>) returns (back: seq<byte>)
    ensures back == data
  {
    hide Decodes, EncodeFrom, WithoutJunk;
    var s := Base64Encode(data);
    back := Base64Decode(s);
    NoJunkEncoded(data, 0);
    DecodedIsData(data, s, back);
  }

  // ---- The format (sections 4 and 3.2 of RFC 4648) ----

  const ALPHABET: string :=
    "ABCDEFGHIJKLM" + "NOPQRSTUVWXYZ" + "abcdefghijklm" + "nopqrstuvwxyz" + "0123456789+/"

  lemma LetterInAlphabet(v: sextet)
    ensures |ALPHABET| == 64 && Letter(v) == ALPHABET[v]
  {
    hide Letter;
    LetterByRow(v);
  }

  lemma LetterByRow(v: sextet)
    ensures Letter(v) ==
            if v < 13 then "ABCDEFGHIJKLM"[v] else if v < 26 then "NOPQRSTUVWXYZ"[v - 13]
            else if v < 39 then "abcdefghijklm"[v - 26] else if v < 52 then "nopqrstuvwxyz"[v - 39]
            else "0123456789+/"[v - 52]
  {
  }

  /** How many bytes the last group is short of three. */
  function Missing(n: nat): (m: nat)
    ensures m < 3 && (n > 3 ==> m == Missing(n - 3)) && (n > 0 ==> (n + m) % 3 == 0)
    decreases n
  {
    if n > 3 then Missing(n - 3) else if n == 0 then 0 else 3 - n
  }

  /** The letters spell the data, first byte first; the last group is filled with one '=' for every byte that
      it is short of three. */
  lemma {:induction false} EncodedLetters(data: seq<byte>, i: nat, k: nat)
    requires i < |data| && k < |EncodeFrom(data, i)|
    ensures EncodeFrom(data, i)[k] == '=' <==> k + Missing(|data| - i) >= |EncodeFrom(data, i)|
    decreases |data| - i
  {
    hide Missing;
    NextGroup(data, i);
    if k < 4 {
      GroupLetters(data, i, k);
    } else {
      EncodedLetters(data, i + 3, k - 4);
    }
  }

  lemma GroupLetters(data: seq<byte>, i: nat, k: nat)
    requires i < |data| && k < 4
    ensures EncodeGroup(data, i)[k] == '=' <==> k > |data| - i
  {
    hide Letter, Sextet, GroupWord;
  }

  /** The first '=' ends the text. */
  lemma {:induction false} StopsAtPadding(s: string, rest: string)
    ensures Values(s + ("=" + rest)) == Values(s)
  {
    hide LetterValue;
    if s == [] {
      assert s + ("=" + rest) == "=" + rest;
    } else {
      var t := s + ("=" + rest);
      assert t[0] == s[0] && t[1..] == s[1..] + ("=" + rest);
      StopsAtPadding(s[1..], rest);
    }
  }
}
