/** The inverted carry-around checksum of src/lin.cpp (section 2.3.1.5 of LIN 2.2A). */
module Checksum {
  import opened Bytes
  import opened Lin

  function Sum(data: seq<byte>): nat {
    if data == [] then 0 else Sum(data[..|data| - 1]) + data[|data| - 1]
  }

  /** Everything the checksum adds up; the classic form leaves the protected identifier out. */
  function Total(pid: byte, data: seq<byte>, ct: ChecksumType): nat {
    (if ct == Enhanced then pid else 0) + Sum(data)
  }

  /** The carry-around remainder: 0 only for 0, otherwise 1..255. */
  function Carried(total: nat): (s: byte)
  {
    if total == 0 then 0 else (total - 1) % 255 + 1
  }

  /** One's-complement addition of octets. */
  function CarryAdd(a: byte, b: byte): byte {
    if a + b > 255 then a + b - 255 else a + b
  }

  function ChecksumOf(pid: byte, data: seq<byte>, ct: ChecksumType): byte {
    255 - Carried(Total(pid, data, ct))
  }

  /** The loop, on a 16-bit sum that never wraps. */
  method CalcChecksum(pid: byte, data: seq<byte>, ct: ChecksumType) returns (checksum: byte)
    ensures checksum == ChecksumOf(pid, data, ct)
  {
    var sum: int := 0;
    if ct == Enhanced {
      sum := pid;
    }
    CarriedStep(0, sum);
    for i := 0 to |data|
      invariant 0 <= sum <= 255
      invariant sum == Carried(Total(pid, data[..i], ct))
    {
      assert data[..i + 1][..i] == data[..i];
      CarriedStep(Total(pid, data[..i], ct), data[i]);
      sum := sum + data[i];
      assert sum < 0x1_0000;
      if sum > 0xFF {
        sum := sum - 0xFF;
      }
    }
    assert data[..|data|] == data;
    checksum := 0xFF - sum;
  }

  lemma CarriedStep(total: nat, b: byte)
    ensures CarryAdd(Carried(total), b) == Carried(total + b)
  {
    if total > 0 {
      var q, r := (total - 1) / 255, (total - 1) % 255;
      var t := r + b;
      assert total + b - 1 == (q + t / 255) * 255 + t % 255;
      DivUnique(total + b - 1, 255, q + t / 255, t % 255);
    }
  }

  // ---- What the receiver's recomputation proves ----

  /** The loop run over the data followed by its checksum always ends at 0xFF, so the checksum of the two
      together is zero. */
  lemma ChecksumAddsTo255(pid: byte, data: seq<byte>, ct: ChecksumType)
    ensures var c := ChecksumOf(pid, data, ct);
            Carried(Total(pid, data + [c], ct)) == 0xFF && ChecksumOf(pid, data + [c], ct) == 0
  {
    hide Carried, Total;
    var c := ChecksumOf(pid, data, ct);
    TotalSnoc(pid, data, ct, c);
    CarriedStep(Total(pid, data, ct), c);
  }

  /** The checksum byte by byte: what it is for no data, where the classic form leaves the identifier out, and
      what one more byte makes of it. */
  lemma ChecksumByBytes(pid: byte, data: seq<byte>, ct: ChecksumType, b: byte)
    ensures ChecksumOf(pid, [], Classic) == 0xFF && ChecksumOf(pid, [], Enhanced) == 0xFF - pid
    ensures var sum := 0xFF - ChecksumOf(pid, data, ct);
            ChecksumOf(pid, data + [b], ct) == 0xFF - (if sum + b > 0xFF then sum + b - 0xFF else sum + b)
  {
    NoData(pid);
    hide Carried, Total;
    TotalSnoc(pid, data, ct, b);
    CarriedStep(Total(pid, data, ct), b);
  }

  lemma TotalSnoc(pid: byte, data: seq<byte>, ct: ChecksumType, b: byte)
    ensures Total(pid, data + [b], ct) == Total(pid, data, ct) + b
  {
    hide Sum;
    SumConcat(data, [b]);
    SumOfOne(b);
  }

  lemma NoData(pid: byte)
    ensures ChecksumOf(pid, [], Classic) == 0xFF && ChecksumOf(pid, [], Enhanced) == 0xFF - pid
  {
    CarriedStep(0, pid);
  }

  /** The enhanced checksum is the classic one of the identifier followed by the data. */
  lemma EnhancedIsClassic(pid: byte, other: byte, data: seq<byte>)
    ensures ChecksumOf(pid, data, Enhanced) == ChecksumOf(other, [pid] + data, Classic)
  {
    SumConcat([pid], data);
    SumOfOne(pid);
  }

  lemma {:induction false} SumConcat(s: seq<byte>, t: seq<byte>)
    ensures Sum(s + t) == Sum(s) + Sum(t)
  {
    if t == [] {
      assert s + t == s;
    } else {
      var k := |t| - 1;
      assert (s + t)[..|s| + k] == s + t[..k];
      SumConcat(s, t[..k]);
    }
  }

  /** The order of the data bytes has no effect. */
  lemma {:induction false} SumOfPermutation(s: seq<byte>, t: seq<byte>)
    requires multiset(s) == multiset(t)
    ensures Sum(s) == Sum(t)
  {
    assert |s| == |multiset(s)| == |multiset(t)| == |t|;
    if s != [] {
      var k := |s| - 1;
      assert s[k] in multiset(t);
      var i :| 0 <= i < |t| && t[i] == s[k];
      RemoveOne(s, k);
      RemoveOne(t, i);
      assert s[..k] + s[k + 1..] == s[..k];
      SumOfPermutation(s[..k], t[..i] + t[i + 1..]);
    }
  }

  lemma RemoveOne(t: seq<byte>, i: nat)
    requires i < |t|
    ensures multiset(t[..i] + t[i + 1..]) == multiset(t) - multiset{t[i]}
    ensures Sum(t[..i] + t[i + 1..]) == Sum(t) - t[i]
  {
    hide Sum;
    var a, b := t[..i], t[i + 1..];
    assert t == a + [t[i]] + b;
    assert multiset(t) == multiset(a) + multiset{t[i]} + multiset(b);
    SumConcat(a, b);
    SumConcat(a + [t[i]], b);
    SumConcat(a, [t[i]]);
    SumOfOne(t[i]);
  }

  lemma SumOfOne(b: byte)
    ensures Sum([b]) == b
  {
  }

  lemma OrderIndependent(pid: byte, s: seq<byte>, t: seq<byte>, ct: ChecksumType)
    requires multiset(s) == multiset(t)
    ensures ChecksumOf(pid, s, ct) == ChecksumOf(pid, t, ct)
  {
    SumOfPermutation(s, t);
  }

  /** Two inputs share a checksum exactly when their totals agree modulo 255 and are both zero or both not. */
  lemma SameChecksumIff(pid: byte, s: seq<byte>, ct: ChecksumType, pid': byte, t: seq<byte>, ct': ChecksumType)
    ensures ChecksumOf(pid, s, ct) == ChecksumOf(pid', t, ct') <==>
            var m, n := Total(pid, s, ct), Total(pid', t, ct');
            m % 255 == n % 255 && (m == 0 <==> n == 0)
  {
    CarriedModulo(Total(pid, s, ct));
    CarriedModulo(Total(pid', t, ct'));
  }

  lemma CarriedModulo(total: nat)
    ensures total > 0 ==> Carried(total) == if total % 255 == 0 then 255 else total % 255
  {
  }

  predicate Opposite(a: byte, b: byte) {
    (a == 0 && b == 255) || (a == 255 && b == 0)
  }

  /** Changing one data byte goes unnoticed exactly when 0x00 became 0xFF, or the other way round, beside
      something else that is not zero. */
  lemma OneByteChangeIff(pid: byte, data: seq<byte>, ct: ChecksumType, i: nat, b: byte)
    requires i < |data|
    ensures ChecksumOf(pid, data[i := b], ct) == ChecksumOf(pid, data, ct) <==>
            || b == data[i]
            || (Opposite(b, data[i]) && Total(pid, data[i := 0], ct) != 0)
  {
    var a: int := data[i];
    SumUpdate(data, i, b);
    SumUpdate(data, i, 0);
    SameChecksumIff(pid, data, ct, pid, data[i := b], ct);
    var rest := Total(pid, data, ct) - a;
    ModuloDifference(rest + a, rest + b);
  }

  lemma {:induction false} SumUpdate(data: seq<byte>, i: nat, b: byte)
    requires i < |data|
    ensures Sum(data[i := b]) == Sum(data) - data[i] + b
  {
    var k := |data| - 1;
    if i == k {
      assert data[i := b][..k] == data[..k];
    } else {
      SumUpdate(data[..k], i, b);
      assert data[i := b][..k] == data[..k][i := b];
    }
  }

  /** Numbers less than 510 apart agree modulo 255 when they are equal or exactly 255 apart. */
  lemma ModuloDifference(m: nat, n: nat)
    requires -510 < m - n < 510
    ensures m % 255 == n % 255 <==> m == n || m == n + 255 || n == m + 255
  {
  }

  /** Every single-bit error in a data byte is noticed. */
  lemma SingleBitErrorInData(pid: byte, data: seq<byte>, ct: ChecksumType, i: nat, k: nat)
    requires i < |data| && k < 8
    ensures var bits := Bits8(data[i]);
            ChecksumOf(pid, data[i := FromBits8(bits[k := !bits[k]])], ct) != ChecksumOf(pid, data, ct)
  {
    hide FromBits8, Bits8, ChecksumOf;
    var bits := Bits8(data[i]);
    var b := FromBits8(bits[k := !bits[k]]);
    ByteOfBits(bits[k := !bits[k]]);
    OneByteChangeIff(pid, data, ct, i, b);
    ExtremeBits();
    if Opposite(b, data[i]) {
      OppositeBytes(b, data[i], if k == 0 then 1 else 0);
    }
  }

  lemma OppositeBytes(b: byte, c: byte, k: nat)
    requires Opposite(b, c) && k < 8
    ensures Bits8(b)[k] != Bits8(c)[k]
  {
    hide Bits8;
    ExtremeBits();
  }

  predicate VerifyChecksum(pid: byte, data: seq<byte>, received: byte, ct: ChecksumType) {
    ChecksumOf(pid, data, ct) == received
  }

  /** A frame that passed is refused after any single-bit error in its data or its checksum byte. */
  lemma SingleBitErrorRejected(pid: byte, data: seq<byte>, received: byte, ct: ChecksumType, k: nat)
    requires VerifyChecksum(pid, data, received, ct) && k < 8
    ensures forall i :: 0 <= i < |data| ==>
      !VerifyChecksum(pid, data[i := FromBits8(Bits8(data[i])[k := !Bits8(data[i])[k]])], received, ct)
    ensures !VerifyChecksum(pid, data, FromBits8(Bits8(received)[k := !Bits8(received)[k]]), ct)
  {
    hide FromBits8, Bits8, ChecksumOf;
    forall i | 0 <= i < |data|
      ensures !VerifyChecksum(pid, data[i := FromBits8(Bits8(data[i])[k := !Bits8(data[i])[k]])], received, ct)
    {
      SingleBitErrorInData(pid, data, ct, i, k);
    }
    ByteOfBits(Bits8(received)[k := !Bits8(received)[k]]);
  }

  /** Under the enhanced checksum, the same data under two frame identifiers always differs. */
  lemma EnhancedSeparatesIds(a: byte, b: byte, data: seq<byte>)
    requires a <= MAX_ID && b <= MAX_ID && a != b
    ensures ChecksumOf(ProtectId(a), data, Enhanced) != ChecksumOf(ProtectId(b), data, Enhanced)
  {
    hide ProtectId;
    ProtectIdRange(a);
    ProtectIdRange(b);
    VerifyPidIff(ProtectId(a), a);
    VerifyPidIff(ProtectId(b), b);
    SameChecksumIff(ProtectId(a), data, Enhanced, ProtectId(b), data, Enhanced);
    ModuloDifference(ProtectId(a) + Sum(data), ProtectId(b) + Sum(data));
  }
}
