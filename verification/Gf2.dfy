/** Polynomials over GF(2).

  A polynomial is written as its list of coefficients, highest power first, with a fixed number of
  places (leading zeros are kept).  Appending a coefficient `b` therefore turns p(x) into x*p(x) + b,
  which is how a most-significant-bit-first CRC consumes a message.
*/
module Gf2 {

  type Poly = seq<bool>

  function Zeros(n: nat): (z: Poly)
    ensures |z| == n && forall i :: 0 <= i < n ==> !z[i]
  {
    seq(n, _ => false)
  }

  function Ones(n: nat): (z: Poly)
    ensures |z| == n && forall i :: 0 <= i < n ==> z[i]
  {
    seq(n, _ => true)
  }

  function Add(p: Poly, q: Poly): (r: Poly)
    requires |p| == |q|
    ensures |r| == |p| && forall i :: 0 <= i < |p| ==> r[i] == (p[i] != q[i])
  {
    seq(|p|, i requires 0 <= i < |p| => p[i] != q[i])
  }

  /** x * m + b * g, where g is placed at the low end. */
  function Horner(m: Poly, b: bool, g: Poly): (r: Poly)
    requires 1 <= |g| <= |m| + 1
    ensures |r| == |m| + 1
    ensures forall i :: 0 <= i < |r| ==>
      r[i] == ((i < |m| && m[i]) != (b && i >= |r| - |g| && g[i - (|r| - |g|)]))
  {
    Add(m + [false], Zeros(|m| + 1 - |g|) + (if b then g else Zeros(|g|)))
  }

  /** Multiplication, by Horner's rule on the left operand. */
  function Mul(p: Poly, q: Poly): (r: Poly)
    requires |q| >= 1
    ensures |r| == |p| + |q| - 1
  {
    if p == [] then Zeros(|q| - 1)
    else Horner(Mul(p[..|p| - 1], q), p[|p| - 1], q)
  }

  /** r is the remainder of n modulo g: n = quotient * g + r with deg r < deg g. */
  ghost predicate IsRemainder(n: Poly, g: Poly, r: Poly)
    requires |g| >= 1
  {
    && |r| == |g| - 1 <= |n|
    && exists quotient: Poly :: HasQuotient(n, g, r, quotient)
  }

  ghost predicate HasQuotient(n: Poly, g: Poly, r: Poly, quotient: Poly)
    requires |g| >= 1 && |r| == |g| - 1 <= |n|
  {
    && |quotient| + |r| == |n|
    && n == Add(Mul(quotient, g), Zeros(|quotient|) + r)
  }

  /** Multiplication distributes over addition in the left operand. */
  lemma {:induction false} MulAdd(p: Poly, q: Poly, g: Poly)
    requires |p| == |q| && |g| >= 1
    ensures Mul(Add(p, q), g) == Add(Mul(p, g), Mul(q, g))
  {
    if p != [] {
      var k := |p| - 1;
      assert Add(p, q)[..k] == Add(p[..k], q[..k]);
      MulAdd(p[..k], q[..k], g);
    }
  }

  /** A monic divisor has no multiple, other than zero, whose quotient part vanishes. */
  lemma {:induction false} MulHighPartZero(p: Poly, g: Poly)
    requires |g| >= 1 && g[0]
    requires Mul(p, g)[..|p|] == Zeros(|p|)
    ensures p == Zeros(|p|)
  {
    if p != [] {
      var k := |p| - 1;
      var m := Mul(p[..k], g);
      forall i | 0 <= i < k ensures !m[i] {
        assert Mul(p, g)[i] == Mul(p, g)[..|p|][i];
      }
      assert m[..k] == Zeros(k);
      MulHighPartZero(p[..k], g);
      MulZeros(k, g);
      assert Mul(p, g)[k] == Mul(p, g)[..|p|][k];
      assert p == p[..k] + [p[k]];
    }
  }

  lemma {:induction false} MulZeros(n: nat, g: Poly)
    requires |g| >= 1
    ensures Mul(Zeros(n), g) == Zeros(n + |g| - 1)
  {
    if n > 0 {
      assert Zeros(n)[..n - 1] == Zeros(n - 1);
      MulZeros(n - 1, g);
    }
  }

  /** Division by a monic polynomial has one quotient and one remainder. */
  lemma RemainderUnique(n: Poly, g: Poly, r1: Poly, r2: Poly)
    requires |g| >= 1 && g[0]
    requires IsRemainder(n, g, r1) && IsRemainder(n, g, r2)
    ensures r1 == r2
  {
    var q1 :| HasQuotient(n, g, r1, q1);
    var q2 :| HasQuotient(n, g, r2, q2);
    var d := Add(q1, q2);
    var m1, m2 := Mul(q1, g), Mul(q2, g);
    var t1, t2 := Zeros(|q1|) + r1, Zeros(|q1|) + r2;
    MulAdd(q1, q2, g);
    forall i | 0 <= i < |n| ensures Mul(d, g)[i] == (t1[i] != t2[i]) {
      assert Add(m1, t1)[i] == Add(m2, t2)[i];
    }
    MulHighPartZero(d, g);
    MulZeros(|d|, g);
    forall i | 0 <= i < |r1| ensures r1[i] == r2[i] {
      assert !Mul(d, g)[|q1| + i];
    }
  }

  /** Adding a multiple of g does not change the remainder; adding r itself to the low part adds r. */
  lemma RemainderAddLow(n: Poly, g: Poly, r: Poly, low: Poly)
    requires |g| >= 1 && IsRemainder(n, g, r) && |low| == |r|
    ensures IsRemainder(Add(n, Zeros(|n| - |low|) + low), g, Add(r, low))
  {
    var q :| HasQuotient(n, g, r, q);
    assert Add(n, Zeros(|n| - |low|) + low) == Add(Mul(q, g), Zeros(|q|) + Add(r, low));
    assert HasQuotient(Add(n, Zeros(|n| - |low|) + low), g, Add(r, low), q);
  }

  /** The number of non-zero coefficients is odd. */
  predicate Odd(p: Poly) {
    p != [] && Odd(p[..|p| - 1]) != p[|p| - 1]
  }

  lemma {:induction false} OddConcat(p: Poly, q: Poly)
    ensures Odd(p + q) == (Odd(p) != Odd(q))
  {
    if q == [] {
      assert p + q == p;
    } else {
      var k := |q| - 1;
      assert (p + q)[..|p| + k] == p + q[..k];
      OddConcat(p, q[..k]);
    }
  }
}
