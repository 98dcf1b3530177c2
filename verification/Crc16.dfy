/** The CRC-16/CCITT-FALSE of src/safety/e2e.cpp, and what it computes.

  The 16-bit register is written as its bits, highest first: `crc & 0x8000` is c[0] and `crc << 1`,
  truncated to 16 bits, is c[1..] + [false].
*/
module Crc16 {
  import opened Gf2
  import opened Bytes

  type Word16 = w: Poly | |w| == 16 witness Zeros(16)

  /** 0x1021 */
  const POLY: Word16 :=
    [false, false, false, true, false, false, false, false,
     false, false, true, false, false, false, false, true]

  /** 0xFFFF */
  const INIT: Word16 := Ones(16)

  /** x^16 + x^12 + x^5 + 1 */
  const GENERATOR: Poly := [true] + POLY

  /** One turn of the inner loop. */
  function Shift(c: Word16): (r: Word16)
    ensures forall i :: 0 <= i < 16 ==> r[i] == ((i < 15 && c[i + 1]) != (c[0] && POLY[i]))
  {
    Add(c[1..] + [false], if c[0] then POLY else Zeros(16))
  }

  function Shifts(c: Word16, n: nat): Word16 {
    if n == 0 then c else Shift(Shifts(c, n - 1))
  }

  /** An octet in the high half of a word. */
  function High(b: byte): Word16 {
    Bits8(b) + Zeros(8)
  }

  /** One turn of the outer loop. */
  function Update(c: Word16, b: byte): Word16 {
    Shifts(Add(c, High(b)), 8)
  }

  function Crc(c: Word16, data: seq<byte>): Word16 {
    if data == [] then c else Update(Crc(c, data[..|data| - 1]), data[|data| - 1])
  }

  /** The inner loop; the source has three copies of it. */
  method UpdateByte(c: Word16, b: byte) returns (crc: Word16)
    ensures crc == Update(c, b)
  {
    hide Add, High, Shift, POLY;
    crc := Add(c, High(b));
    for j := 0 to 8
      invariant crc == Shifts(Add(c, High(b)), j)
    {
      ShiftByBranch(crc);
      if crc[0] {
        crc := Add(crc[1..] + [false], POLY);
      } else {
        crc := crc[1..] + [false];
      }
    }
  }

  lemma ShiftByBranch(c: Word16)
    ensures Shift(c) == if c[0] then Add(c[1..] + [false], POLY) else c[1..] + [false]
  {
  }

  method Compute(data: array<byte>, len: nat) returns (crc: Word16)
    requires len <= data.Length
    ensures crc == Crc(INIT, data[..len]) && IsCcittFalse(data[..len], crc)
  {
    hide IsCcittFalse;
    crc := INIT;
    for i := 0 to len
      invariant crc == Crc(INIT, data[..i])
    {
      assert data[..i + 1][..i] == data[..i];
      crc := UpdateByte(crc, data[i]);
    }
    CrcIsRemainder(data[..len], crc);
  }

  lemma {:induction false} CrcConcat(c: Word16, s: seq<byte>, t: seq<byte>)
    ensures Crc(c, s + t) == Crc(Crc(c, s), t)
  {
    hide Update;
    if t == [] {
      assert s + t == s;
    } else {
      var k := |t| - 1;
      assert (s + t)[..|s| + k] == s + t[..k];
      CrcConcat(c, s, t[..k]);
    }
  }

  // ---- The register as a machine over single bits ----

  function BitStep(c: Word16, b: bool): Word16 {
    Shift(c[0 := c[0] != b])
  }

  function BitCrc(c: Word16, bits: Poly): Word16 {
    if bits == [] then c else BitStep(BitCrc(c, bits[..|bits| - 1]), bits[|bits| - 1])
  }

  lemma {:induction false} BitCrcConcat(c: Word16, s: Poly, t: Poly)
    ensures BitCrc(c, s + t) == BitCrc(BitCrc(c, s), t)
  {
    hide BitStep;
    if t == [] {
      assert s + t == s;
    } else {
      var k := |t| - 1;
      assert (s + t)[..|s| + k] == s + t[..k];
      BitCrcConcat(c, s, t[..k]);
    }
  }

  /** XOR-ing a word into the register first is feeding its high bits one by one. */
  lemma {:induction false} ShiftsFeedBits(c: Word16, y: Word16, n: nat)
    requires n <= 16
    ensures Shifts(Add(c, y), n) == Add(BitCrc(c, y[..n]), y[n..] + Zeros(n))
  {
    hide Shift, BitStep;
    if n == 0 {
      assert y[0..] + Zeros(0) == y;
    } else {
      ShiftsFeedBits(c, y, n - 1);
      assert y[..n][..n - 1] == y[..n - 1];
      FeedStep(BitCrc(c, y[..n - 1]), y, n);
    }
  }

  lemma FeedStep(d: Word16, y: Word16, n: nat)
    requires 1 <= n <= 16
    ensures Shift(Add(d, y[n - 1..] + Zeros(n - 1))) == Add(BitStep(d, y[n - 1]), y[n..] + Zeros(n))
  {
    hide Shift, Add, Zeros, POLY;
    var fed, rest := y[n - 1..] + Zeros(n - 1), y[n..] + Zeros(n);
    forall i | 0 <= i < 16 ensures Shift(Add(d, fed))[i] == Add(BitStep(d, y[n - 1]), rest)[i] {
      if i < 15 {
        assert fed[i + 1] == rest[i];
      }
    }
  }

  /** The byte loop is the bit machine on the bytes' bits. */
  lemma {:induction false} CrcIsBitCrc(c: Word16, data: seq<byte>)
    ensures Crc(c, data) == BitCrc(c, Bits(data))
  {
    hide Shift, BitStep;
    if data != [] {
      var k := |data| - 1;
      var d := Crc(c, data[..k]);
      CrcIsBitCrc(c, data[..k]);
      ShiftsFeedBits(d, High(data[k]), 8);
      assert High(data[k])[..8] == Bits8(data[k]);
      assert High(data[k])[8..] + Zeros(8) == Zeros(16);
      assert Add(BitCrc(d, Bits8(data[k])), Zeros(16)) == BitCrc(d, Bits8(data[k]));
      BitCrcConcat(c, Bits(data[..k]), Bits8(data[k]));
    }
  }

  // ---- The register is a polynomial remainder ----

  /** m(x) * x^16, plus the initial register at the high end. */
  function Dividend(init: Word16, m: Poly): (n: Poly)
    ensures |n| == |m| + 16
  {
    Add(m + Zeros(16), init + Zeros(|m|))
  }

  /** After any message the register holds the remainder of the message polynomial, with the initial
      register added to its first 16 places, modulo the generator. */
  lemma {:induction false} BitCrcIsRemainder(init: Word16, m: Poly)
    ensures IsRemainder(Dividend(init, m), GENERATOR, BitCrc(init, m))
  {
    if m == [] {
      assert Dividend(init, m) == Add(Mul([], GENERATOR), Zeros(0) + init);
      assert HasQuotient(Dividend(init, m), GENERATOR, init, []);
    } else {
      var k := |m| - 1;
      BitCrcIsRemainder(init, m[..k]);
      QuotientStep(init, m, BitCrc(init, m[..k]));
    }
  }

  /** One more message bit multiplies the quotient by x and adds the bit that was shifted out. */
  lemma QuotientStep(init: Word16, m: Poly, d: Word16)
    requires m != [] && IsRemainder(Dividend(init, m[..|m| - 1]), GENERATOR, d)
    ensures IsRemainder(Dividend(init, m), GENERATOR, BitStep(d, m[|m| - 1]))
  {
    hide Shift, Add, Zeros, Dividend;
    var k := |m| - 1;
    var q :| HasQuotient(Dividend(init, m[..k]), GENERATOR, d, q);
    var t := d[0] != m[k];
    var c := BitStep(d, m[k]);
    assert (q + [t])[..k] == q;
    var product := Horner(Mul(q, GENERATOR), t, GENERATOR);
    assert Mul(q + [t], GENERATOR) == product;
    DividendStep(init, m);
    forall i | 0 <= i < k + 17 ensures Dividend(init, m)[i] == Add(product, Zeros(k + 1) + c)[i] {
      if i < k + 16 {
        assert Dividend(init, m[..k])[i] == Add(Mul(q, GENERATOR), Zeros(k) + d)[i];
      }
    }
    assert HasQuotient(Dividend(init, m), GENERATOR, c, q + [t]);
  }

  lemma DividendStep(init: Word16, m: Poly)
    requires m != []
    ensures var k := |m| - 1; forall i :: 0 <= i < k + 17 ==>
      Dividend(init, m)[i] == ((i < k + 16 && Dividend(init, m[..k])[i]) != (i == k && m[k]))
  {
  }

  /** The message's bits, most significant of each octet first, times x^16, with ones added in the sixteen
      highest places. */
  function MessagePoly(data: seq<byte>): (n: Poly)
    ensures |n| == 8 * |data| + 16
  {
    seq(8 * |data| + 16, k requires 0 <= k < 8 * |data| + 16 =>
      (k < 8 * |data| && data[k / 8] / Pow2(7 - k % 8) % 2 == 1) != (k < 16))
  }

  /** The coefficients of x^16, x^12, x^5 and 1, highest power first. */
  function GeneratorPoly(): (g: Poly)
    ensures |g| == 17
  {
    seq(17, k => 16 - k == 16 || 16 - k == 12 || 16 - k == 5 || 16 - k == 0)
  }

  /** r is CRC-16/CCITT-FALSE of the data, by its definition as a polynomial remainder. */
  ghost predicate IsCcittFalse(data: seq<byte>, r: Word16) {
    IsRemainder(MessagePoly(data), GeneratorPoly(), r)
  }

  /** The CRC of a byte string of length n is
      (0xFFFF * x^(8n) + M(x) * x^16) mod (x^16 + x^12 + x^5 + 1), and no other word is. */
  lemma CrcIsRemainder(data: seq<byte>, r: Word16)
    ensures IsCcittFalse(data, r) <==> r == Crc(INIT, data)
  {
    hide IsRemainder, Crc, BitCrc, Bits, Dividend, INIT, GENERATOR;
    BitCrcIsRemainder(INIT, Bits(data));
    CrcIsBitCrc(INIT, data);
    DividendSpelled(data);
    GeneratorSpelled();
    if IsCcittFalse(data, r) {
      RemainderUnique(Dividend(INIT, Bits(data)), GENERATOR, r, Crc(INIT, data));
    }
  }

  lemma DividendSpelled(data: seq<byte>)
    ensures Dividend(INIT, Bits(data)) == MessagePoly(data)
  {
    hide Bits, Pow2;
    forall k | 0 <= k < 8 * |data| + 16 ensures Dividend(INIT, Bits(data))[k] == MessagePoly(data)[k] {
      if k < 8 * |data| {
        MessageBit(data, k);
      }
    }
  }

  lemma GeneratorSpelled()
    ensures GENERATOR == GeneratorPoly()
  {
    forall k | 0 <= k < 17 ensures GENERATOR[k] == GeneratorPoly()[k] {
      GeneratorAt(k);
    }
  }

  lemma GeneratorAt(k: nat)
    requires k < 17
    ensures GENERATOR[k] == (k == 0 || k == 4 || k == 11 || k == 16)
  {
  }
}
