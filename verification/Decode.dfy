/** Signal extraction of src/ldf/parser.cpp, as integer arithmetic. */
module Decode {
  import opened Bytes

  const INT_MAX: int := 0x7FFF_FFFF

  /** The payload as one integer, first byte lowest. */
  function LittleEndian(data: seq<byte>): nat {
    if data == [] then 0 else data[0] + 256 * LittleEndian(data[1..])
  }

  /** n shifted right by k, and the k lowest bits of n. */
  function ShiftRight(n: nat, k: nat): nat {
    QuotientNat(n, Pow2(k));
    n / Pow2(k)
  }

  function Mask(n: nat, k: nat): nat {
    n % Pow2(k)
  }

  function BitOf(n: nat, i: nat): (b: nat)
    ensures b < 2
  {
    ShiftRight(n, i) % 2
  }

  /** The field of `width` bits that starts `offset` bits up. */
  function FieldValue(data: seq<byte>, offset: nat, width: nat): nat {
    Mask(ShiftRight(LittleEndian(data), offset), width)
  }

  /** One bit of the payload, as the loop tests it; past the end there are none. */
  function PayloadBit(data: seq<byte>, k: nat): (b: nat)
    ensures b < 2
  {
    if k / 8 < |data| then BitOf(data[k / 8], k % 8) else 0
  }

  /** The bit indices stay within an int, either because the field does or because the payload ends first. */
  predicate Addressable(data: seq<byte>, offset: int, width: int) {
    && 0 <= offset <= INT_MAX
    && |data| <= INT_MAX
    && (offset + width - 1 <= INT_MAX || |data| <= INT_MAX / 8)
  }

  /** The extraction loop. */
  method ExtractField(data: seq<byte>, offset: int, width: int) returns (val: nat)
    requires 0 <= width <= 64
    requires Addressable(data, offset, width)
    ensures val == FieldValue(data, offset, width)
    ensures val < 0x1_0000_0000_0000_0000
  {
    hide FieldValue, BitOf;
    val := 0;
    EmptyField(data, offset);
    var i := 0;
    while i < width
      invariant 0 <= i <= width
      invariant val == FieldValue(data, offset, i)
      invariant i < width ==> offset + i <= INT_MAX
    {
      var byteIdx := (offset + i) / 8;
      var bitIdx := (offset + i) % 8;
      assert offset + i <= INT_MAX;
      if byteIdx >= |data| {
        NothingAbove(data, offset, i, width);
        break;
      }
      FieldStep(data, offset, i);
      if BitOf(data[byteIdx], bitIdx) == 1 {
        val := val + Pow2(i);
      }
      i := i + 1;
    }
    FieldFitsUint64(data, offset, width);
  }

  lemma EmptyField(data: seq<byte>, offset: nat)
    ensures FieldValue(data, offset, 0) == 0
  {
    hide ShiftRight, LittleEndian;
  }

  // ---- Powers of two ----

  lemma {:induction false} Pow2Add(m: nat, n: nat)
    ensures Pow2(m + n) == Pow2(m) * Pow2(n)
  {
    if m > 0 {
      Pow2Add(m - 1, n);
      MulAssoc(2, Pow2(m - 1), Pow2(n));
    }
  }

  lemma MulAssoc(a: int, b: int, c: int)
    ensures a * b * c == a * (b * c)
  {
  }

  /** The i+1 lowest bits are the i lowest and bit i. */
  lemma MaskStep(n: nat, i: nat)
    ensures Mask(n, i + 1) == Mask(n, i) + Pow2(i) * BitOf(n, i)
  {
    var p := Pow2(i);
    var q, r := n / p, n % p;
    assert n == q * p + r;
    assert q == q / 2 * 2 + q % 2;
    Distribute(q / 2, q % 2, p);
    assert n == q / 2 * (2 * p) + (q % 2 * p + r);
    assert q % 2 * p + r < 2 * p by { if q % 2 == 0 { } else { assert q % 2 == 1; } }
    DivUnique(n, 2 * p, q / 2, q % 2 * p + r);
  }

  lemma Distribute(h: int, l: int, p: int)
    ensures (h * 2 + l) * p == h * (2 * p) + l * p
  {
  }

  /** Dividing first moves the bits down. */
  lemma BitOfShifted(n: nat, offset: nat, i: nat)
    ensures BitOf(ShiftRight(n, offset), i) == BitOf(n, offset + i)
  {
    DivDiv(n, Pow2(offset), Pow2(i));
    Pow2Add(offset, i);
  }

  /** What is added above bit i, an even multiple of 2^i, does not reach it. */
  lemma BitBelow(n: nat, high: nat, i: nat)
    ensures BitOf(n + 2 * high * Pow2(i), i) == BitOf(n, i)
  {
    var p := Pow2(i);
    assert n == n / p * p + n % p;
    SumDistribute(2 * high, n / p, p);
    DivUnique(n + 2 * high * p, p, 2 * high + n / p, n % p);
  }

  lemma SumDistribute(a: nat, b: nat, p: nat)
    ensures (a + b) * p == a * p + b * p
  {
  }

  /** An even multiple of 2^i. */
  lemma HighPart(q: nat, i: nat, width: nat)
    requires i < width
    ensures q * Pow2(width) == 2 * (q * Pow2(width - i - 1)) * Pow2(i)
  {
    Pow2Add(i, width - i);
    var p, h := Pow2(i), Pow2(width - i - 1);
    assert Pow2(width) == p * (2 * h);
    MoveFactor(q, p, h);
  }

  lemma MoveFactor(q: nat, p: nat, h: nat)
    ensures q * (p * (2 * h)) == 2 * (q * h) * p
  {
  }

  lemma BitOfMask(n: nat, i: nat, width: nat)
    requires i < width
    ensures BitOf(Mask(n, width), i) == BitOf(n, i)
  {
    hide BitOf, Mask, ShiftRight, Pow2;
    var q := ShiftRight(n, width);
    ShiftAndMask(n, width);
    HighPart(q, i, width);
    BitBelow(Mask(n, width), q * Pow2(width - i - 1), i);
  }

  lemma ShiftAndMask(n: nat, k: nat)
    ensures n == Mask(n, k) + ShiftRight(n, k) * Pow2(k)
  {
  }

  /** The bits of a little-endian integer are the payload's bits. */
  lemma {:induction false} PayloadBits(data: seq<byte>, k: nat)
    ensures BitOf(LittleEndian(data), k) == PayloadBit(data, k)
  {
    hide BitOf, Pow2;
    if data == [] {
      ZeroBit(k);
    } else {
      var rest := LittleEndian(data[1..]);
      Pow2Eight();
      if k < 8 {
        HighPart(rest, k, 8);
        BitBelow(data[0], rest * Pow2(8 - k - 1), k);
      } else {
        PayloadBits(data[1..], k - 8);
        BitOfShifted(LittleEndian(data), 8, k - 8);
        DropByte(data[0], rest);
      }
    }
  }

  lemma ZeroBit(k: nat)
    ensures BitOf(0, k) == 0
  {
    DivUnique(0, Pow2(k), 0, 0);
  }

  lemma DropByte(b: byte, rest: nat)
    ensures ShiftRight(b + 256 * rest, 8) == rest
  {
    Pow2Eight();
  }

  lemma Pow2Eight()
    ensures Pow2(8) == 256
  {
    assert Pow2(4) == 16;
  }

  lemma FieldStep(data: seq<byte>, offset: nat, i: nat)
    ensures FieldValue(data, offset, i + 1) == FieldValue(data, offset, i) + Pow2(i) * PayloadBit(data, offset + i)
  {
    hide ShiftRight, Mask, BitOf, PayloadBit, LittleEndian, Pow2;
    MaskStep(ShiftRight(LittleEndian(data), offset), i);
    BitOfShifted(LittleEndian(data), offset, i);
    PayloadBits(data, offset + i);
  }

  /** Past the end of the payload a field gains nothing. */
  lemma {:induction false} NothingAbove(data: seq<byte>, offset: nat, i: nat, width: nat)
    requires i <= width && (offset + i) / 8 >= |data|
    ensures FieldValue(data, offset, width) == FieldValue(data, offset, i)
    decreases width - i
  {
    hide FieldValue;
    if i < width {
      FieldStep(data, offset, i);
      NothingAbove(data, offset, i + 1, width);
    }
  }

  lemma FieldFitsUint64(data: seq<byte>, offset: nat, width: nat)
    requires width <= 64
    ensures FieldValue(data, offset, width) < 0x1_0000_0000_0000_0000
  {
    hide ShiftRight;
    Pow2Monotone(width, 64);
    Pow2SixtyFour();
  }

  lemma Pow2SixtyFour()
    ensures Pow2(64) == 0x1_0000_0000_0000_0000
  {
    hide Pow2;
    Pow2Eight();
    Pow2Add(8, 8);
    Pow2Add(16, 16);
    Pow2Add(32, 32);
  }

  lemma {:induction false} Pow2Monotone(m: nat, n: nat)
    requires m <= n
    ensures Pow2(m) <= Pow2(n)
  {
    if m < n {
      Pow2Monotone(m, n - 1);
    }
  }

  // ---- What a decoded value says about the payload ----

  /** The value's bits are the field's bits. */
  lemma ValueBits(data: seq<byte>, offset: nat, width: nat, i: nat)
    requires i < width
    ensures BitOf(FieldValue(data, offset, width), i) == PayloadBit(data, offset + i)
  {
    hide ShiftRight, Mask, BitOf, PayloadBit, LittleEndian, Pow2;
    BitOfMask(ShiftRight(LittleEndian(data), offset), i, width);
    BitOfShifted(LittleEndian(data), offset, i);
    PayloadBits(data, offset + i);
  }

  ghost predicate SameBits(data: seq<byte>, data': seq<byte>, offset: nat, width: nat) {
    forall k: nat :: offset <= k < offset + width ==> PayloadBit(data, k) == PayloadBit(data', k)
  }

  /** Two payloads give a field the same value exactly when they agree on its bits; no other bit matters. */
  lemma SameValueIff(data: seq<byte>, data': seq<byte>, offset: nat, width: nat)
    ensures FieldValue(data, offset, width) == FieldValue(data', offset, width) <==>
            SameBits(data, data', offset, width)
  {
    hide FieldValue, PayloadBit;
    if FieldValue(data, offset, width) == FieldValue(data', offset, width) {
      forall k: nat | offset <= k < offset + width ensures PayloadBit(data, k) == PayloadBit(data', k) {
        ValueBits(data, offset, width, k - offset);
        ValueBits(data', offset, width, k - offset);
      }
    }
    if SameBits(data, data', offset, width) {
      BitsDetermineValue(data, data', offset, width);
    }
  }

  lemma {:induction false} BitsDetermineValue(data: seq<byte>, data': seq<byte>, offset: nat, width: nat)
    requires SameBits(data, data', offset, width)
    ensures FieldValue(data, offset, width) == FieldValue(data', offset, width)
  {
    hide FieldValue, PayloadBit;
    if width == 0 {
      EmptyField(data, offset);
      EmptyField(data', offset);
    } else {
      BitsDetermineValue(data, data', offset, width - 1);
      FieldStep(data, offset, width - 1);
      FieldStep(data', offset, width - 1);
    }
  }

  /** The value bit by bit: bit i is the bit numbered (offset + i) mod 8, from the low end, of the byte numbered
      (offset + i) / 8, and zero past the end of the payload; there are no bits above the width. */
  lemma ValueSpelled(data: seq<byte>, offset: nat, width: nat, i: nat)
    ensures var v := FieldValue(data, offset, width);
      && v < Pow2(width)
      && (i < width ==>
           v / Pow2(i) % 2 ==
           if (offset + i) / 8 < |data| then data[(offset + i) / 8] / Pow2((offset + i) % 8) % 2 else 0)
  {
    hide FieldValue, Pow2, LittleEndian;
    FieldBelow(data, offset, width);
    if i < width {
      ValueBits(data, offset, width, i);
      BitSpelled(FieldValue(data, offset, width), i);
      var k := offset + i;
      if k / 8 < |data| {
        BitSpelled(data[k / 8], k % 8);
      }
    }
  }

  lemma FieldBelow(data: seq<byte>, offset: nat, width: nat)
    ensures FieldValue(data, offset, width) < Pow2(width)
  {
    hide ShiftRight, LittleEndian;
  }

  lemma BitSpelled(n: nat, i: nat)
    ensures BitOf(n, i) == n / Pow2(i) % 2
  {
  }

  lemma PowersOfTwo()
    ensures Pow2(0) == 1 && Pow2(1) == 2 && Pow2(2) == 4 && Pow2(3) == 8
    ensures forall k: nat :: Pow2(k + 1) == 2 * Pow2(k)
  {
  }
}
