/** End-to-end protection: the 10-byte header, the Protector and the Receiver of src/safety/e2e.cpp. */
module E2E {
  import opened Bytes
  import opened Crc16

  type uint16 = x: int | 0 <= x < 0x1_0000

  const HEADER_SIZE: nat := 10

  datatype Config = Config(dataId: uint16, sourceId: uint16)

  datatype ErrorKind = CrcMismatch | SequenceGap | HeaderTooShort

  datatype Outcome =
    | Accepted(payload: seq<byte>)
    | Rejected(kind: ErrorKind, counter: uint32)

  /** The receiver's mutable fields. */
  datatype ReceiverState = ReceiverState(first: bool, lastSeq: uint32)

  const FRESH: ReceiverState := ReceiverState(true, 0)

  // ---- Wire format ----

  /** Bytes 0-3, which the receiver takes from its own configuration and never reads. */
  function Ids(cfg: Config): (s: seq<byte>)
    ensures |s| == 4
  {
    Le16(cfg.dataId) + Le16(cfg.sourceId)
  }

  /** The CRC runs over bytes 0-7 and then the payload, leaving out its own slot. */
  function CrcOf(cfg: Config, counter: uint32, payload: seq<byte>): Word16 {
    Crc(INIT, Ids(cfg) + Le32(counter) + payload)
  }

  /** A CRC, low octet first. */
  function CrcBytes(c: Word16): (s: seq<byte>)
    ensures |s| == 2
  {
    [FromBits8(c[8..]), FromBits8(c[..8])]
  }

  function CrcWord(s: seq<byte>): Word16
    requires |s| == 2
  {
    Bits8(s[1]) + Bits8(s[0])
  }

  lemma CrcWordRoundTrip(c: Word16)
    ensures CrcWord(CrcBytes(c)) == c
  {
    ByteOfBits(c[8..]);
    ByteOfBits(c[..8]);
  }

  lemma CrcWordInjective(s: seq<byte>, t: seq<byte>)
    requires |s| == |t| == 2 && CrcWord(s) == CrcWord(t)
    ensures s == t
  {
    assert CrcWord(s)[..8] == Bits8(s[1]) && CrcWord(s)[8..] == Bits8(s[0]);
    assert CrcWord(t)[..8] == Bits8(t[1]) && CrcWord(t)[8..] == Bits8(t[0]);
    BitsOfByte(s[0]);
    BitsOfByte(s[1]);
    BitsOfByte(t[0]);
    BitsOfByte(t[1]);
  }

  function Header(cfg: Config, counter: uint32, payload: seq<byte>): (h: seq<byte>)
    ensures |h| == HEADER_SIZE
  {
    Ids(cfg) + Le32(counter) + CrcBytes(CrcOf(cfg, counter, payload))
  }

  function Frame(cfg: Config, counter: uint32, payload: seq<byte>): (w: seq<byte>)
    ensures |w| == HEADER_SIZE + |payload|
  {
    Header(cfg, counter, payload) + payload
  }

  function Counter(w: seq<byte>): uint32
    requires |w| >= HEADER_SIZE
  {
    FromLe32(w[4..8])
  }

  /** The received CRC is the one the receiver computes. */
  predicate CrcOk(cfg: Config, w: seq<byte>)
    requires |w| >= HEADER_SIZE
  {
    CrcWord(w[8..10]) == CrcOf(cfg, Counter(w), w[10..])
  }

  function Next(counter: uint32): uint32 {
    (counter + 1) % TWO32
  }

  function Receive(cfg: Config, st: ReceiverState, w: seq<byte>): (ReceiverState, Outcome) {
    if |w| < HEADER_SIZE then (st, Rejected(HeaderTooShort, 0))
    else if !CrcOk(cfg, w) then (st, Rejected(CrcMismatch, Counter(w)))
    else if !st.first && Counter(w) != Next(st.lastSeq) then (st, Rejected(SequenceGap, Counter(w)))
    else (ReceiverState(false, Counter(w)), Accepted(w[10..]))
  }

  // ---- The methods ----

  /** The source's second copy of the CRC loops: over hdr[0..8], then over the payload. */
  method CoveredCrc(hdr: array<byte>, payload: seq<byte>) returns (crc: Word16)
    requires hdr.Length == HEADER_SIZE
    ensures crc == Crc(INIT, hdr[..8] + payload) && IsCcittFalse(hdr[..8] + payload, crc)
  {
    hide Update, Crc, IsCcittFalse;
    crc := INIT;
    CrcEmpty();
    for i := 0 to 8
      invariant crc == Crc(INIT, hdr[..8][..i])
    {
      CrcSnoc(hdr[..8], i);
      crc := UpdateByte(crc, hdr[i]);
    }
    assert hdr[..8][..8] == hdr[..8] + payload[..0];
    for i := 0 to |payload|
      invariant crc == Crc(INIT, hdr[..8] + payload[..i])
    {
      assert (hdr[..8] + payload)[..8 + i + 1] == hdr[..8] + payload[..i + 1];
      assert (hdr[..8] + payload)[..8 + i] == hdr[..8] + payload[..i];
      CrcSnoc(hdr[..8] + payload, 8 + i);
      crc := UpdateByte(crc, payload[i]);
    }
    assert hdr[..8] + payload[..|payload|] == hdr[..8] + payload;
    CrcIsRemainder(hdr[..8] + payload, crc);
  }

  /** Fills the header in place. */
  method BuildHeader(cfg: Config, counter: uint32, payload: seq<byte>) returns (hdr: array<byte>)
    ensures fresh(hdr) && hdr.Length == HEADER_SIZE && hdr[..] == Header(cfg, counter, payload)
    ensures hdr[8..10] == CrcBytes(CrcOf(cfg, counter, payload))
    ensures IsCcittFalse(hdr[..8] + payload, CrcWord(hdr[8..10]))
  {
    hide Crc, FromBits8, Ids, Le32, IsCcittFalse, CrcWord;
    hdr := new byte[HEADER_SIZE](_ => 0);
    hdr[0], hdr[1] := cfg.dataId % 256, cfg.dataId / 256;
    hdr[2], hdr[3] := cfg.sourceId % 256, cfg.sourceId / 256;
    hdr[4], hdr[5] := counter % 256, counter / 256 % 256;
    hdr[6], hdr[7] := counter / 256 / 256 % 256, counter / 256 / 256 / 256;
    FirstEight(cfg, counter);
    assert hdr[..8] == Ids(cfg) + Le32(counter);
    var crc := CoveredCrc(hdr, payload);
    hdr[8], hdr[9] := FromBits8(crc[8..]), FromBits8(crc[..8]);
    assert hdr[..] == hdr[..8] + [hdr[8], hdr[9]];
    assert hdr[8..10] == CrcBytes(crc);
    CrcWordRoundTrip(crc);
  }

  lemma FirstEight(cfg: Config, counter: uint32)
    ensures Ids(cfg) + Le32(counter) ==
            [cfg.dataId % 256, cfg.dataId / 256, cfg.sourceId % 256, cfg.sourceId / 256,
             counter % 256, counter / 256 % 256, counter / 256 / 256 % 256, counter / 256 / 256 / 256]
  {
  }

  lemma CrcEmpty()
    ensures forall s: seq<byte> :: Crc(INIT, s[..0]) == INIT
  {
  }

  lemma CrcSnoc(data: seq<byte>, i: nat)
    requires i < |data|
    ensures Crc(INIT, data[..i + 1]) == Update(Crc(INIT, data[..i]), data[i])
  {
    hide Update;
    assert data[..i + 1][..i] == data[..i];
  }

  /** The number that little-endian octets spell. */
  function Number(s: seq<byte>): nat {
    if s == [] then 0 else s[0] + 256 * Number(s[1..])
  }

  /** The layout of a frame, octet by octet: identifiers, counter and CRC are little-endian, the CRC is
      CRC-16/CCITT-FALSE of the first eight octets followed by the payload, and the payload comes last. */
  lemma WireLayout(cfg: Config, counter: uint32, payload: seq<byte>)
    ensures var w := Frame(cfg, counter, payload);
      && |w| == 10 + |payload| && w[10..] == payload
      && Number(w[0..2]) == cfg.dataId && Number(w[2..4]) == cfg.sourceId && Number(w[4..8]) == counter
      && IsCcittFalse(w[..8] + payload, Bits8(w[9]) + Bits8(w[8]))
  {
    hide Crc, IsCcittFalse, Bits8, FromBits8, Le32, Ids;
    var w, c := Frame(cfg, counter, payload), CrcOf(cfg, counter, payload);
    assert w[..8] == Ids(cfg) + Le32(counter);
    assert w[8..10] == CrcBytes(c);
    CrcWordRoundTrip(c);
    CrcIsRemainder(w[..8] + payload, c);
    FirstEight(cfg, counter);
    LayoutNumbers(cfg, counter, w);
  }

  lemma LayoutNumbers(cfg: Config, counter: uint32, w: seq<byte>)
    requires |w| >= 8
    requires w[..8] == [cfg.dataId % 256, cfg.dataId / 256, cfg.sourceId % 256, cfg.sourceId / 256,
                        counter % 256, counter / 256 % 256, counter / 256 / 256 % 256, counter / 256 / 256 / 256]
    ensures Number(w[0..2]) == cfg.dataId && Number(w[2..4]) == cfg.sourceId && Number(w[4..8]) == counter
  {
    assert w[0..2] == [w[..8][0], w[..8][1]] && w[2..4] == [w[..8][2], w[..8][3]];
    assert w[4..8] == [w[..8][4], w[..8][5], w[..8][6], w[..8][7]];
    NumberOfTwo(w[0..2]);
    NumberOfTwo(w[2..4]);
    NumberOfFour(w[4..8]);
    hide Number;
    FromLe32OfLe32(counter);
  }

  lemma NumberOfTwo(s: seq<byte>)
    requires |s| == 2
    ensures var low: int, high: int := s[0], s[1]; Number(s) == low + 256 * high
  {
    assert Number(s[1..]) == s[1];
  }

  lemma NumberOfFour(s: seq<byte>)
    requires |s| == 4
    ensures Number(s) == FromLe32(s)
  {
    assert s[1..][1..] == s[2..] && s[2..][1..] == s[3..] && s[3..][1..] == [];
    assert Number(s[3..]) == s[3];
    assert Number(s[2..]) == s[2] + 256 * Number(s[3..]);
  }

  /** Which verdict a receiver gives, on what it reads: the counter from octets 4 to 7 and the CRC from octets
      8 and 9, checked against the frame that it would build itself.  Only an accepted frame changes it. */
  lemma VerdictIff(cfg: Config, st: ReceiverState, w: seq<byte>)
    ensures var (st', r) := Receive(cfg, st, w);
      && (|w| < 10 <==> r == Rejected(HeaderTooShort, 0) && st' == st)
      && (|w| >= 10 ==>
           var counter := Number(w[4..8]);
           && counter < 0x1_0000_0000
           && var genuine := Frame(cfg, counter, w[10..])[8..10] == w[8..10];
              var expected := st.first || counter == (st.lastSeq + 1) % 0x1_0000_0000;
              && (r == Rejected(CrcMismatch, counter) && st' == st <==> !genuine)
              && (r == Rejected(SequenceGap, counter) && st' == st <==> genuine && !expected)
              && (r == Accepted(w[10..]) && st' == ReceiverState(false, counter) <==> genuine && expected))
  {
    hide Crc, Bits8, FromBits8, FromLe32;
    if |w| >= 10 {
      NumberOfFour(w[4..8]);
      var c := CrcOf(cfg, Counter(w), w[10..]);
      assert Frame(cfg, Counter(w), w[10..])[8..10] == CrcBytes(c);
      CrcWordRoundTrip(c);
      if CrcWord(w[8..10]) == CrcWord(CrcBytes(c)) {
        CrcWordInjective(w[8..10], CrcBytes(c));
      }
    }
  }

  class Protector {
    const cfg: Config
    var seqNo: uint32

    constructor (cfg: Config)
      ensures this.cfg == cfg && seqNo == 0
    {
      this.cfg := cfg;
      seqNo := 0;
    }

    method Protect(payload: seq<byte>) returns (out: seq<byte>)
      modifies this
      ensures out == Frame(cfg, old(seqNo), payload)
      ensures seqNo == Next(old(seqNo))
    {
      var counter := seqNo;
      seqNo := (seqNo + 1) % TWO32;
      var hdr := BuildHeader(cfg, counter, payload);
      out := hdr[..] + payload;
    }
  }

  class Receiver {
    const cfg: Config
    var lastSeq: uint32
    var first: bool

    function State(): ReceiverState
      reads this
    {
      ReceiverState(first, lastSeq)
    }

    constructor (cfg: Config)
      ensures this.cfg == cfg && State() == FRESH
    {
      this.cfg := cfg;
      lastSeq, first := 0, true;
    }

    method Unwrap(data: seq<byte>) returns (r: Outcome)
      modifies this
      ensures (State(), r) == Receive(cfg, old(State()), data)
    {
      hide FromLe32, CrcWord, CrcOf, CrcBytes, Header;
      if |data| < HEADER_SIZE {
        return Rejected(HeaderTooShort, 0);
      }
      var counter := FromLe32(data[4..8]);
      var receivedCrc := CrcWord(data[8..10]);
      var payload := data[10..];
      var expected := BuildHeader(cfg, counter, payload);
      var expectedCrc := CrcWord(expected[8..10]);
      CrcWordRoundTrip(CrcOf(cfg, counter, payload));
      if receivedCrc != expectedCrc {
        return Rejected(CrcMismatch, counter);
      }
      if !first && counter != (lastSeq + 1) % TWO32 {
        return Rejected(SequenceGap, counter);
      }
      first, lastSeq := false, counter;
      return Accepted(payload);
    }
  }
}
