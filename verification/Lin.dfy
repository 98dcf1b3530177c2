/** Frames, protected identifiers and checksums of src/lin.cpp. */
module Lin {
  import opened Gf2
  import opened Bytes

  const MAX_DATA_LEN: nat := 8
  const MAX_ID: byte := 0x3F
  const DIAG_REQUEST_ID: byte := 0x3C
  const DIAG_RESPONSE_ID: byte := 0x3D

  datatype ChecksumType = Classic | Enhanced

  datatype Frame = Frame(id: byte, data: seq<byte>, checksum: byte, checksumType: ChecksumType)

  datatype ScheduleEntry = ScheduleEntry(id: byte, delayMs: nat)

  predicate IsDiagnostic(id: byte) {
    id == DIAG_REQUEST_ID || id == DIAG_RESPONSE_ID
  }

  // ---- Protected identifiers (section 2.3.1.3 of LIN 2.2A) ----

  /** The parity bits for identifier bits ID5..ID0. */
  function ParityBits(id: Poly): Poly
    requires |id| == 6
  {
    [!(id[4] != (id[2] != (id[1] != id[0]))), id[5] != (id[4] != (id[3] != id[1]))]
  }

  function ProtectId(id: byte): (pid: byte) {
    FromBits8(ParityBits(LowBits(id, 6)) + LowBits(id, 6))
  }

  datatype PidResult = Id(id: byte) | ParityMismatch

  function VerifyPid(pid: byte): PidResult {
    var id := pid % 64;
    if ProtectId(id) != pid then ParityMismatch else Id(id)
  }

  lemma Low6(x: byte)
    ensures LowBits(x, 6) == Bits8(x)[2..]
    ensures LowBits(x % 64, 6) == LowBits(x, 6)
    ensures x < 64 ==> Bits8(x)[..2] == [false, false]
  {
    LowBitsSuffix(x, 6, 2);
    LowBitsModulo(x, 6);
    assert Pow2(6) == 64 by { assert Pow2(3) == 8; }
    LowBitsPrefix(x, 2, 6);
    assert LowBits(0, 2) == [false, false];
  }

  /** The bits of a protected identifier are its parity bits and the six identifier bits. */
  lemma ProtectIdBits(id: byte)
    ensures Bits8(ProtectId(id)) == ParityBits(LowBits(id, 6)) + LowBits(id, 6)
    ensures id <= MAX_ID ==> ProtectId(id) % 64 == id
  {
    var bits := LowBits(id, 6);
    ByteOfBits(ParityBits(bits) + bits);
    Low6(ProtectId(id));
    assert Pow2(6) == 64 by { assert Pow2(3) == 8; }
    if id <= MAX_ID {
      ValueOfLowBits(id, 6);
      ValueOfLowBits(ProtectId(id) % 64, 6);
      assert (ParityBits(bits) + bits)[2..] == bits;
    }
  }

  /** Exactly the protected identifiers are accepted, and each gives back its own identifier. */
  lemma VerifyPidIff(pid: byte, id: byte)
    ensures VerifyPid(pid) == Id(id) <==> id <= MAX_ID && pid == ProtectId(id)
  {
    hide ProtectId;
    if id <= MAX_ID {
      ProtectIdBits(id);
    }
  }

  /** The bits of an octet, by division. */
  lemma OctetBits(p: byte)
    ensures var b := Bits8(p);
      && b[7] == (p % 2 == 1) && b[6] == (p / 2 % 2 == 1) && b[5] == (p / 4 % 2 == 1) && b[4] == (p / 8 % 2 == 1)
      && b[3] == (p / 16 % 2 == 1) && b[2] == (p / 32 % 2 == 1) && b[1] == (p / 64 % 2 == 1) && b[0] == (p / 128 % 2 == 1)
  {
    hide LowBits;
    assert Pow2(2) == 4 && Pow2(3) == 8 && Pow2(4) == 16;
    assert Pow2(5) == 32 && Pow2(6) == 64 && Pow2(7) == 128;
    forall k | 0 <= k < 8 ensures Bits8(p)[7 - k] == (p / Pow2(k) % 2 == 1) {
      LowBitsAt(p, 8, k);
    }
  }

  /** An even number of the bits 0, 1, 2, 4 and 6 is set, and an odd number of the bits 1, 3, 4, 5 and 7. */
  predicate ParityOk(p: byte) {
    && (p % 2 + p / 2 % 2 + p / 4 % 2 + p / 16 % 2 + p / 64 % 2) % 2 == 0
    && (p / 2 % 2 + p / 8 % 2 + p / 16 % 2 + p / 32 % 2 + p / 128 % 2) % 2 == 1
  }

  /** In terms of bits. */
  lemma ParityOkBits(p: byte)
    ensures var b := Bits8(p);
      ParityOk(p) <==> b[1] == (b[7] != (b[6] != (b[5] != b[3]))) && b[0] == !(b[6] != (b[4] != (b[3] != b[2])))
  {
    hide Bits8;
    OctetBits(p);
    EvenIff(p % 2, p / 2 % 2, p / 4 % 2, p / 16 % 2, p / 64 % 2);
    EvenIff(p / 2 % 2, p / 8 % 2, p / 16 % 2, p / 32 % 2, p / 128 % 2);
  }

  lemma EvenIff(a: int, b: int, c: int, d: int, e: int)
    requires 0 <= a < 2 && 0 <= b < 2 && 0 <= c < 2 && 0 <= d < 2 && 0 <= e < 2
    ensures (a + b + c + d + e) % 2 == (if (e == 1) == ((a == 1) != ((b == 1) != ((c == 1) != (d == 1)))) then 0 else 1)
  {
  }

  /** Which octets are accepted as protected identifiers, for every octet: those with both parities right, and
      the identifier is the six low bits. */
  lemma AcceptedIffParity(p: byte)
    ensures VerifyPid(p) == if ParityOk(p) then Id(p % 64) else ParityMismatch
  {
    hide Bits8, ProtectId, ParityOk, LowBits;
    Low6(p);
    ProtectIdBits(p % 64);
    ParityOkBits(p);
    var b := Bits8(p);
    var parity := ParityBits(b[2..]);
    assert (parity + b[2..])[..2] == parity;
    assert b == b[..2] + b[2..];
    if b[..2] == parity {
      BitsOfByte(p);
      BitsOfByte(ProtectId(p % 64));
    }
  }

  /** What protecting gives for every octet: its six low bits, with both parities right. */
  lemma ProtectIdParity(id: byte)
    ensures ParityOk(ProtectId(id)) && ProtectId(id) % 64 == id % 64
  {
    hide Bits8, ProtectId, ParityOk, LowBits, VerifyPid;
    Low6(id);
    ProtectIdSame(id);
    VerifyPidIff(ProtectId(id % 64), id % 64);
    AcceptedIffParity(ProtectId(id % 64));
  }

  /** Only the six low bits matter. */
  lemma ProtectIdSame(id: byte)
    ensures ProtectId(id) == ProtectId(id % 64)
  {
    Low6(id);
  }

  /** Flipping any one bit of a protected identifier is noticed. */
  lemma PidSingleBitError(id: byte, k: nat)
    requires id <= MAX_ID && k < 8
    ensures var bits := Bits8(ProtectId(id));
            VerifyPid(FromBits8(bits[k := !bits[k]])) == ParityMismatch
  {
    hide ProtectId, Bits8, FromBits8;
    var bits := Bits8(ProtectId(id));
    var flipped := FromBits8(bits[k := !bits[k]]);
    ByteOfBits(bits[k := !bits[k]]);
    ProtectIdBits(id);
    ProtectIdBits(flipped % 64);
    Low6(flipped);
  }

  /** No protected identifier is 0x00 or 0xFF. */
  lemma ProtectIdRange(id: byte)
    requires id <= MAX_ID
    ensures 0 < ProtectId(id) < 255
  {
    hide ProtectId, LowBits, ParityBits;
    ProtectIdBits(id);
    ParityIsMixed(LowBits(id, 6));
    ExtremeBits();
  }

  lemma ParityIsMixed(id: Poly)
    requires |id| == 6
    ensures ParityBits(id) + id != Zeros(8) && ParityBits(id) + id != Ones(8)
  {
    var all := ParityBits(id) + id;
    assert all[0] == ParityBits(id)[0] && all[1] == ParityBits(id)[1];
    assert all[3] == id[1] && all[4] == id[2] && all[5] == id[3] && all[6] == id[4] && all[7] == id[5];
    assert all[2] == id[0];
    assert !Zeros(8)[0] && !Zeros(8)[2] && !Zeros(8)[3] && !Zeros(8)[4] && !Zeros(8)[6];
    assert Ones(8)[1] && Ones(8)[3] && Ones(8)[5] && Ones(8)[6] && Ones(8)[7];
  }

  lemma ExtremeBits()
    ensures Bits8(0) == Zeros(8) && Bits8(255) == Ones(8)
  {
    assert LowBits(0, 4) == Zeros(4);
    assert LowBits(15, 4) == Ones(4);
  }
}
