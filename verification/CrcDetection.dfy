/** Which changes of a protected message the CRC notices.

  A change is described by its error pattern e: the bits, in the order the CRC reads them followed by
  the 16 CRC bits, in which the two messages differ.
*/
module CrcDetection {
  import opened Gf2
  import opened Bytes
  import opened Crc16

  /** The change keeps data and CRC consistent, whatever they were. */
  predicate Undetected(e: Poly)
    requires |e| >= 16
  {
    BitCrc(Zeros(16), e[..|e| - 16]) == e[|e| - 16..]
  }

  lemma {:induction false} BitCrcLinear(a: Word16, b: Word16, s: Poly, t: Poly)
    requires |s| == |t|
    ensures BitCrc(Add(a, b), Add(s, t)) == Add(BitCrc(a, s), BitCrc(b, t))
  {
    hide BitStep, Add;
    if s != [] {
      var k := |s| - 1;
      assert Add(s, t)[..k] == Add(s[..k], t[..k]);
      BitCrcLinear(a, b, s[..k], t[..k]);
      StepLinear(BitCrc(a, s[..k]), BitCrc(b, t[..k]), s[k], t[k]);
    }
  }

  lemma StepLinear(a: Word16, b: Word16, x: bool, y: bool)
    ensures BitStep(Add(a, b), x != y) == Add(BitStep(a, x), BitStep(b, y))
  {
    hide Shift, Add, POLY;
  }

  /** Two messages of equal length have CRCs that differ by the CRC, from a zero register, of their
      difference: the initial register cancels. */
  lemma CrcDifference(c: Word16, s: seq<byte>, t: seq<byte>)
    requires |s| == |t|
    ensures Add(Crc(c, s), Crc(c, t)) == BitCrc(Zeros(16), Add(Bits(s), Bits(t)))
  {
    hide BitStep, Update, Bits;
    CrcIsBitCrc(c, s);
    CrcIsBitCrc(c, t);
    BitCrcLinear(c, c, Bits(s), Bits(t));
    assert Add(c, c) == Zeros(16);
  }

  // ---- The exact condition ----

  /** A change goes unnoticed exactly when its pattern is a multiple of the generator. */
  lemma UndetectedIffMultiple(e: Poly)
    requires |e| >= 16
    ensures Undetected(e) <==>
            exists q: Poly :: |q| + 16 == |e| && Mul(q, GENERATOR) == e
  {
    hide BitCrc, Mul;
    var c, r := BitCrc(Zeros(16), e[..|e| - 16]), e[|e| - 16..];
    PatternRemainder(e);
    if c == r {
      assert Add(c, r) == Zeros(16);
      var q :| HasQuotient(e, GENERATOR, Zeros(16), q);
      AddZeros(Mul(q, GENERATOR));
    }
    if q: Poly :| |q| + 16 == |e| && Mul(q, GENERATOR) == e {
      AddZeros(e);
      assert HasQuotient(e, GENERATOR, Zeros(16), q);
      RemainderUnique(e, GENERATOR, Add(c, r), Zeros(16));
      EqualIfSumZero(c, r);
    }
  }

  lemma PatternRemainder(e: Poly)
    requires |e| >= 16
    ensures IsRemainder(e, GENERATOR, Add(BitCrc(Zeros(16), e[..|e| - 16]), e[|e| - 16..]))
  {
    hide BitCrc, Mul;
    var n := |e| - 16;
    BitCrcIsRemainder(Zeros(16), e[..n]);
    RemainderAddLow(Dividend(Zeros(16), e[..n]), GENERATOR, BitCrc(Zeros(16), e[..n]), e[n..]);
    assert Add(Dividend(Zeros(16), e[..n]), Zeros(n) + e[n..]) == e;
  }

  lemma AddZeros(p: Poly)
    requires |p| >= 16
    ensures Add(p, Zeros(|p| - 16) + Zeros(16)) == p
  {
  }

  lemma EqualIfSumZero(c: Poly, d: Poly)
    requires |c| == |d| && Add(c, d) == Zeros(|c|)
    ensures c == d
  {
    forall i | 0 <= i < |c| ensures c[i] == d[i] {
      assert !Add(c, d)[i];
    }
  }

  // ---- Feeding the CRC bits too must bring the register to zero ----

  lemma ShiftInjective(c: Word16)
    ensures Shift(c) == Zeros(16) <==> c == Zeros(16)
  {
    if Shift(c) == Zeros(16) {
      assert !Shift(c)[15];
      forall i | 1 <= i < 16 ensures !c[i] {
        assert !Shift(c)[i - 1];
      }
    }
  }

  lemma {:induction false} ShiftsInjective(c: Word16, n: nat)
    ensures Shifts(c, n) == Zeros(16) <==> c == Zeros(16)
  {
    hide Shift;
    if n > 0 {
      ShiftsInjective(c, n - 1);
      ShiftInjective(Shifts(c, n - 1));
    }
  }

  lemma {:induction false} FeedZeros(c: Word16, n: nat)
    ensures BitCrc(c, Zeros(n)) == Shifts(c, n)
  {
    if n > 0 {
      FeedZeros(c, n - 1);
      assert Zeros(n)[..n - 1] == Zeros(n - 1);
      var d := Shifts(c, n - 1);
      assert d[0 := d[0] != false] == d;
    }
  }

  lemma FeedWord(c: Word16, y: Word16)
    ensures BitCrc(c, y) == Zeros(16) <==> c == y
  {
    hide Shift, BitStep;
    ShiftsFeedBits(c, y, 16);
    assert y[..16] == y;
    assert Add(BitCrc(c, y), y[16..] + Zeros(16)) == BitCrc(c, y);
    ShiftsInjective(Add(c, y), 16);
    if Add(c, y) == Zeros(16) {
      EqualIfSumZero(c, y);
    }
  }

  lemma UndetectedIffZero(e: Poly)
    requires |e| >= 16
    ensures Undetected(e) <==> BitCrc(Zeros(16), e) == Zeros(16)
  {
    hide BitCrc;
    var n := |e| - 16;
    assert e == e[..n] + e[n..];
    LastWord(e[..n], e[n..]);
  }

  lemma LastWord(p: Poly, w: Word16)
    ensures BitCrc(Zeros(16), p + w) == Zeros(16) <==> BitCrc(Zeros(16), p) == w
  {
    hide BitCrc;
    BitCrcConcat(Zeros(16), p, w);
    FeedWord(BitCrc(Zeros(16), p), w);
  }

  // ---- Burst errors ----

  /** Every set bit of e lies in the 16 places from `at`. */
  predicate InWindow(e: Poly, at: nat) {
    at + 16 <= |e| && forall i :: 0 <= i < |e| && e[i] ==> at <= i < at + 16
  }

  /** A non-zero change within 16 consecutive bits is always noticed. */
  lemma BurstDetected(e: Poly, at: nat)
    requires InWindow(e, at) && e != Zeros(|e|)
    ensures !Undetected(e)
  {
    hide BitStep;
    var z := Zeros(16);
    var burst: Word16 := e[at..at + 16];
    var after := |e| - at - 16;
    assert e == Zeros(at) + burst + Zeros(after);
    BitCrcConcat(z, Zeros(at) + burst, Zeros(after));
    BitCrcConcat(z, Zeros(at), burst);
    FeedZeros(z, at);
    ShiftsInjective(z, at);
    FeedWord(z, burst);
    FeedZeros(BitCrc(z, burst), after);
    ShiftsInjective(BitCrc(z, burst), after);
    UndetectedIffZero(e);
    var k :| 0 <= k < |e| && e[k];
    assert burst[k - at];
  }

  // ---- Odd numbers of bit errors ----

  lemma {:induction false} OddAdd(p: Poly, q: Poly)
    requires |p| == |q|
    ensures Odd(Add(p, q)) == (Odd(p) != Odd(q))
  {
    if p != [] {
      var k := |p| - 1;
      assert Add(p, q)[..k] == Add(p[..k], q[..k]);
      OddAdd(p[..k], q[..k]);
    }
  }

  lemma {:induction false} OddZeros(n: nat)
    ensures !Odd(Zeros(n))
  {
    if n > 0 {
      assert Zeros(n)[..n - 1] == Zeros(n - 1);
      OddZeros(n - 1);
    }
  }

  lemma OddPoly()
    ensures Odd(POLY)
  {
    forall k | 0 <= k < 16 ensures POLY[k] == (k == 3 || k == 10 || k == 15) {
      GeneratorAt(k + 1);
    }
    var high, middle, low := Zeros(3) + [true] + Zeros(0), Zeros(6) + [true] + Zeros(4), Zeros(0) + [true] + Zeros(0);
    hide POLY;
    assert POLY == high + middle + low;
    OddConcat(high + middle, low);
    OddConcat(high, middle);
    OddOne(3, 0);
    OddOne(6, 4);
    OddOne(0, 0);
  }

  lemma OddOne(m: nat, n: nat)
    ensures Odd(Zeros(m) + [true] + Zeros(n))
  {
    OddConcat(Zeros(m) + [true], Zeros(n));
    OddConcat(Zeros(m), [true]);
    OddZeros(m);
    OddZeros(n);
  }

  /** x + 1 divides the generator, so the register keeps the parity of what it has read. */
  lemma OddBitStep(c: Word16, b: bool)
    ensures Odd(BitStep(c, b)) == (Odd(c) != b)
  {
    var t := c[0] != b;
    var low := c[1..] + [false];
    assert c == [c[0]] + c[1..];
    OddConcat([c[0]], c[1..]);
    OddConcat(c[1..], [false]);
    OddPoly();
    OddZeros(16);
    OddAdd(low, if t then POLY else Zeros(16));
    assert c[0 := t][1..] == c[1..];
  }

  lemma {:induction false} OddBitCrc(e: Poly)
    ensures Odd(BitCrc(Zeros(16), e)) == Odd(e)
  {
    hide BitStep;
    if e == [] {
      OddZeros(16);
    } else {
      var k := |e| - 1;
      OddBitCrc(e[..k]);
      OddBitStep(BitCrc(Zeros(16), e[..k]), e[k]);
    }
  }

  /** A change of an odd number of bits is always noticed. */
  lemma OddDetected(e: Poly)
    requires |e| >= 16 && Odd(e)
    ensures !Undetected(e)
  {
    UndetectedIffZero(e);
    OddBitCrc(e);
    OddZeros(16);
  }
}
