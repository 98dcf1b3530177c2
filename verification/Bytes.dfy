/** Octets, and the little-endian integers made of them. */
module Bytes {
  import opened Gf2

  type byte = x: int | 0 <= x < 256

  const TWO32: nat := 0x1_0000_0000

  /** An unsigned 32-bit integer; the source's `uint32_t`. */
  type uint32 = x: int | 0 <= x < 0x1_0000_0000

  function Pow2(n: nat): (p: nat)
    ensures p >= 1
  {
    if n == 0 then 1 else 2 * Pow2(n - 1)
  }

  /** The n lowest bits of x, most significant first. */
  function LowBits(x: nat, n: nat): (bits: Poly)
    ensures |bits| == n
  {
    if n == 0 then [] else LowBits(x / 2, n - 1) + [x % 2 == 1]
  }

  /** The integer with these bits. */
  function Value(bits: Poly): (x: nat)
    ensures x < Pow2(|bits|)
  {
    if bits == [] then 0 else 2 * Value(bits[..|bits| - 1]) + if bits[|bits| - 1] then 1 else 0
  }

  lemma {:induction false} ValueOfLowBits(x: nat, n: nat)
    requires x < Pow2(n)
    ensures Value(LowBits(x, n)) == x
  {
    if n > 0 {
      ValueOfLowBits(x / 2, n - 1);
      assert LowBits(x, n)[..n - 1] == LowBits(x / 2, n - 1);
    }
  }

  lemma {:induction false} LowBitsOfValue(bits: Poly)
    ensures LowBits(Value(bits), |bits|) == bits
  {
    if bits != [] {
      LowBitsOfValue(bits[..|bits| - 1]);
    }
  }

  /** Low bits come last; high bits come from the quotient. */
  lemma {:induction false} LowBitsSuffix(x: nat, n: nat, m: nat)
    ensures LowBits(x, m + n)[m..] == LowBits(x, n)
  {
    if n > 0 {
      LowBitsSuffix(x / 2, n - 1, m);
    }
  }

  lemma {:induction false} LowBitsPrefix(x: nat, m: nat, n: nat)
    ensures LowBits(x, m + n)[..m] == LowBits(x / Pow2(n), m)
  {
    if n > 0 {
      LowBitsPrefix(x / 2, m, n - 1);
      DivDiv(x, 2, Pow2(n - 1));
    }
  }

  lemma {:induction false} LowBitsModulo(x: nat, n: nat)
    ensures LowBits(x % Pow2(n), n) == LowBits(x, n)
  {
    if n > 0 {
      LowBitsModulo(x / 2, n - 1);
      ModHalf(x, Pow2(n - 1));
    }
  }

  lemma DivDiv(x: nat, a: nat, b: nat)
    requires a > 0 && b > 0
    ensures a * b > 0 && x / a / b == x / (a * b)
  {
    var q, r := x / a / b, x / a % b;
    assert x / a == q * b + r;
    var s := x % a;
    assert x == (q * b + r) * a + s == q * (a * b) + (r * a + s);
    assert r * a + s < a * b by { assert r + 1 <= b; assert (r + 1) * a <= b * a; }
    DivUnique(x, a * b, q, r * a + s);
  }

  lemma DivUnique(x: int, d: int, q: int, r: int)
    requires d > 0 && 0 <= r < d && x == q * d + r
    ensures x / d == q && x % d == r
  {
    var k, t := x / d, x % d;
    assert x == k * d + t;
    if k > q {
      MulAtLeast(k - q, d);
    } else if k < q {
      MulAtLeast(q - k, d);
    }
  }

  lemma MulAtLeast(k: int, d: int)
    requires k >= 1 && d > 0
    ensures k * d >= d
  {
  }

  lemma QuotientNat(n: nat, d: nat)
    requires d > 0
    ensures n / d >= 0
  {
  }

  lemma ModHalf(x: nat, p: nat)
    requires p > 0
    ensures x % (2 * p) % 2 == x % 2 && x % (2 * p) / 2 == x / 2 % p
  {
    var h := x / 2;
    assert h == h / p * p + h % p;
    assert x == h / p * (2 * p) + (2 * (h % p) + x % 2);
    DivUnique(x, 2 * p, h / p, 2 * (h % p) + x % 2);
  }

  function Bits8(b: byte): (bits: Poly)
    ensures |bits| == 8
  {
    LowBits(b, 8)
  }

  function FromBits8(bits: Poly): (b: byte)
    requires |bits| == 8
  {
    assert Pow2(8) == 256 by { assert Pow2(4) == 16; }
    Value(bits)
  }

  lemma BitsOfByte(b: byte)
    ensures FromBits8(Bits8(b)) == b
  {
    assert Pow2(8) == 256 by { assert Pow2(4) == 16; }
    ValueOfLowBits(b, 8);
  }

  lemma ByteOfBits(bits: Poly)
    requires |bits| == 8
    ensures Bits8(FromBits8(bits)) == bits
  {
    LowBitsOfValue(bits);
  }

  /** The bits of a byte string, most significant bit of each octet first. */
  function Bits(data: seq<byte>): (bits: Poly)
    ensures |bits| == 8 * |data|
  {
    if data == [] then [] else Bits(data[..|data| - 1]) + Bits8(data[|data| - 1])
  }

  lemma {:induction false} BitsConcat(s: seq<byte>, t: seq<byte>)
    ensures Bits(s + t) == Bits(s) + Bits(t)
  {
    if t == [] {
      assert s + t == s;
    } else {
      var k := |t| - 1;
      assert (s + t)[..|s| + k] == s + t[..k];
      BitsConcat(s, t[..k]);
      assert Bits(s) + (Bits(t[..k]) + Bits8(t[k])) == Bits(s) + Bits(t[..k]) + Bits8(t[k]);
    }
  }

  lemma {:induction false} BitsInjective(s: seq<byte>, t: seq<byte>)
    requires |s| == |t| && Bits(s) == Bits(t)
    ensures s == t
  {
    if s != [] {
      var k := |s| - 1;
      assert Bits(s)[..8 * k] == Bits(s[..k]) && Bits(s)[8 * k..] == Bits8(s[k]);
      assert Bits(t)[..8 * k] == Bits(t[..k]) && Bits(t)[8 * k..] == Bits8(t[k]);
      BitsInjective(s[..k], t[..k]);
      BitsOfByte(s[k]);
      BitsOfByte(t[k]);
      assert s == s[..k] + [s[k]] && t == t[..k] + [t[k]];
    }
  }

  lemma {:induction false} BitsAt(s: seq<byte>, k: nat)
    requires k < |s|
    ensures Bits(s)[8 * k..8 * k + 8] == Bits8(s[k])
  {
    hide Bits8;
    var n := |s| - 1;
    if k < n {
      BitsAt(s[..n], k);
      assert Bits(s)[8 * k..8 * k + 8] == Bits(s[..n])[8 * k..8 * k + 8];
    }
  }

  /** The bits of a number, by division. */
  lemma {:induction false} LowBitsAt(x: nat, n: nat, k: nat)
    requires k < n
    ensures LowBits(x, n)[n - 1 - k] == (x / Pow2(k) % 2 == 1)
  {
    if k > 0 {
      LowBitsAt(x / 2, n - 1, k - 1);
      DivDiv(x, 2, Pow2(k - 1));
    }
  }

  lemma MessageBit(data: seq<byte>, k: nat)
    requires k < 8 * |data|
    ensures Bits(data)[k] == (data[k / 8] / Pow2(7 - k % 8) % 2 == 1)
  {
    hide LowBits, Pow2;
    var i, j := k / 8, k % 8;
    BitsAt(data, i);
    assert Bits(data)[8 * i..8 * i + 8][j] == Bits(data)[k];
    LowBitsAt(data[i], 8, 7 - j);
  }

  /** Little-endian encodings of 16- and 32-bit integers. */
  function Le16(x: int): (s: seq<byte>)
    requires 0 <= x < 0x1_0000
    ensures |s| == 2
  {
    [x % 256, x / 256]
  }

  function Le32(x: uint32): (s: seq<byte>)
    ensures |s| == 4
  {
    [x % 256, x / 256 % 256, x / 256 / 256 % 256, x / 256 / 256 / 256]
  }

  function FromLe32(s: seq<byte>): (x: uint32)
    requires |s| == 4
  {
    var s0: int, s1: int, s2: int, s3: int := s[0], s[1], s[2], s[3];
    s0 + 256 * (s1 + 256 * (s2 + 256 * s3))
  }

  lemma LowDigit(d: byte, y: nat)
    ensures (d + 256 * y) % 256 == d && (d + 256 * y) / 256 == y
  {
  }

  lemma Le32RoundTrip(x: uint32, s: seq<byte>)
    requires |s| == 4
    ensures FromLe32(Le32(x)) == x
    ensures Le32(FromLe32(s)) == s
  {
    hide FromLe32;
    FromLe32OfLe32(x);
    Le32OfFromLe32(s);
  }

  lemma FromLe32OfLe32(x: uint32)
    ensures FromLe32(Le32(x)) == x
  {
    var y: int := x / 256;
    var z: int := y / 256;
    assert x == x % 256 + 256 * y && y == y % 256 + 256 * z && z == z % 256 + 256 * (z / 256);
  }

  lemma Le32OfFromLe32(s: seq<byte>)
    requires |s| == 4
    ensures Le32(FromLe32(s)) == s
  {
    var s1: int, s2: int, s3: int := s[1], s[2], s[3];
    LowDigit(s[0], s1 + 256 * (s2 + 256 * s3));
    LowDigit(s[1], s2 + 256 * s3);
    LowDigit(s[2], s3);
  }
}
