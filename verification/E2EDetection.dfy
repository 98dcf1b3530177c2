/** What a receiver's CRC comparison notices on the wire. */
module E2EDetection {
  import opened Gf2
  import opened Bytes
  import opened Crc16
  import opened CrcDetection
  import opened E2E

  /** The bytes a receiver reads and the CRC covers. */
  function Covered(w: seq<byte>): (s: seq<byte>)
    requires |w| >= HEADER_SIZE
    ensures |s| == |w| - 6
  {
    w[4..8] + w[10..]
  }

  /** The bits in which two frames of one length differ, as the CRC sees them: counter, payload, CRC. */
  function Pattern(w: seq<byte>, v: seq<byte>): (e: Poly)
    requires |w| == |v| >= HEADER_SIZE
    ensures |e| == 8 * (|w| - 6) + 16
  {
    Add(Bits(Covered(w)), Bits(Covered(v))) + Add(CrcWord(w[8..10]), CrcWord(v[8..10]))
  }

  /** Wire bytes 0-3 have no effect on the receiver. */
  lemma IdBytesIgnored(cfg: Config, st: ReceiverState, w: seq<byte>, v: seq<byte>)
    requires |w| == |v| >= HEADER_SIZE && w[4..] == v[4..]
    ensures Receive(cfg, st, w) == Receive(cfg, st, v)
  {
    hide CrcWord, CrcOf, FromLe32;
    assert w[4..8] == w[4..][..4] && v[4..8] == v[4..][..4];
    assert w[8..10] == w[4..][4..6] && v[8..10] == v[4..][4..6];
    assert w[10..] == w[4..][6..] && v[10..] == v[4..][6..];
  }

  /** The CRC comparison depends only on the covered bytes. */
  lemma CrcOkCovered(cfg: Config, w: seq<byte>)
    requires |w| >= HEADER_SIZE
    ensures CrcOk(cfg, w) <==> CrcWord(w[8..10]) == Crc(Crc(INIT, Ids(cfg)), Covered(w))
  {
    hide Crc, CrcWord, Ids;
    Le32RoundTrip(0, w[4..8]);
    assert Ids(cfg) + w[4..8] + w[10..] == Ids(cfg) + Covered(w);
    CrcConcat(INIT, Ids(cfg), Covered(w));
  }

  /** Of a frame that passes, exactly those same-length changes still pass whose pattern the CRC misses. */
  lemma TamperedPassesIff(cfg: Config, w: seq<byte>, v: seq<byte>)
    requires |w| == |v| >= HEADER_SIZE && CrcOk(cfg, w)
    ensures CrcOk(cfg, v) <==> Undetected(Pattern(w, v))
  {
    hide Crc, CrcWord, Ids, BitCrc, Bits, CrcOk;
    CrcOkCovered(cfg, w);
    CrcOkCovered(cfg, v);
    var c := Crc(INIT, Ids(cfg));
    CrcDifference(c, Covered(w), Covered(v));
    var e := Pattern(w, v);
    assert e[..|e| - 16] == Add(Bits(Covered(w)), Bits(Covered(v)));
    assert e[|e| - 16..] == Add(CrcWord(w[8..10]), CrcWord(v[8..10]));
    AddCancels(Crc(c, Covered(w)), Crc(c, Covered(v)), CrcWord(v[8..10]));
  }

  lemma AddCancels(a: Poly, b: Poly, c: Poly)
    requires |a| == |b| == |c|
    ensures Add(a, b) == Add(a, c) <==> b == c
  {
    if Add(a, b) == Add(a, c) {
      forall i | 0 <= i < |a| ensures b[i] == c[i] {
        assert Add(a, b)[i] == Add(a, c)[i];
      }
    }
  }

  /** Every frame a protector makes passes a receiver with the same configuration. */
  lemma GenuinePasses(cfg: Config, counter: uint32, payload: seq<byte>)
    ensures var w := Frame(cfg, counter, payload);
            w[10..] == payload && Counter(w) == counter && CrcOk(cfg, w)
  {
    hide CrcOf, CrcBytes, CrcWord;
    var w := Frame(cfg, counter, payload);
    assert w[4..8] == Le32(counter);
    assert w[8..10] == CrcBytes(CrcOf(cfg, counter, payload));
    Le32RoundTrip(counter, [0, 0, 0, 0]);
    CrcWordRoundTrip(CrcOf(cfg, counter, payload));
  }

  /** A protector's frame, changed in a pattern the CRC notices, is refused as a CRC mismatch in every
      receiver state, and leaves that state alone. */
  lemma TamperedRejected(cfg: Config, st: ReceiverState, counter: uint32, payload: seq<byte>, v: seq<byte>)
    requires |v| == HEADER_SIZE + |payload|
    requires !Undetected(Pattern(Frame(cfg, counter, payload), v))
    ensures Receive(cfg, st, v) == (st, Rejected(CrcMismatch, Counter(v)))
  {
    hide CrcOk, Pattern, Undetected, Frame;
    GenuinePasses(cfg, counter, payload);
    TamperedPassesIff(cfg, Frame(cfg, counter, payload), v);
  }

  // ---- Changes of one or two neighbouring bytes ----

  /** w and v differ, from byte 4 on, in bytes i and i+1 at most, which lie in one field. */
  predicate AdjacentChange(w: seq<byte>, v: seq<byte>, i: nat) {
    && |w| == |v| >= HEADER_SIZE
    && w[4..] != v[4..]
    && (4 <= i <= 6 || i == 8 || 10 <= i < |w|)
    && forall k :: 4 <= k < |w| && k != i && k != i + 1 ==> w[k] == v[k]
  }

  /** Eight bits of a byte string's bits are one byte's bits. */
  /** Bytes that agree everywhere but in k and k+1 have bits that agree outside those 16 places. */
  lemma WindowOfBytes(s: seq<byte>, t: seq<byte>, k: nat, j: nat)
    requires |s| == |t| && j < 8 * |s|
    requires forall i :: 0 <= i < |s| && i != k && i != k + 1 ==> s[i] == t[i]
    ensures Bits(s)[j] != Bits(t)[j] ==> 8 * k <= j < 8 * k + 16
  {
    var b := j / 8;
    BitsAt(s, b);
    BitsAt(t, b);
    assert Bits(s)[j] == Bits(s)[8 * b..8 * b + 8][j - 8 * b];
    assert Bits(t)[j] == Bits(t)[8 * b..8 * b + 8][j - 8 * b];
  }

  lemma ZeroPattern(w: seq<byte>, v: seq<byte>)
    requires |w| == |v| >= HEADER_SIZE
    requires Pattern(w, v) == Zeros(8 * (|w| - 6) + 16)
    ensures w[4..] == v[4..]
  {
    hide Bits, Bits8;
    var e, n := Pattern(w, v), 8 * (|w| - 6);
    assert e[..n] == Zeros(n) && e[n..] == Zeros(16);
    EqualIfSumZero(Bits(Covered(w)), Bits(Covered(v)));
    BitsInjective(Covered(w), Covered(v));
    assert w[4..8] == Covered(w)[..4] && w[10..] == Covered(w)[4..];
    assert v[4..8] == Covered(v)[..4] && v[10..] == Covered(v)[4..];
    EqualIfSumZero(CrcWord(w[8..10]), CrcWord(v[8..10]));
    CrcWordInjective(w[8..10], v[8..10]);
    assert w[4..] == w[4..8] + w[8..10] + w[10..];
    assert v[4..] == v[4..8] + v[8..10] + v[10..];
  }

  /** Where in the pattern the change of wire bytes i and i+1 lies. */
  function WindowStart(w: seq<byte>, i: nat): nat
    requires |w| >= HEADER_SIZE && i >= 4
  {
    if i < 8 then 8 * (i - 4) else if i < 10 then 8 * (|w| - 6) else 8 * (i - 6)
  }

  lemma AdjacentChangeIsBurst(w: seq<byte>, v: seq<byte>, i: nat)
    requires AdjacentChange(w, v, i)
    ensures InWindow(Pattern(w, v), WindowStart(w, i))
  {
    hide Bits, Bits8, CrcWord;
    var e, n, at := Pattern(w, v), 8 * (|w| - 6), WindowStart(w, i);
    if i == 8 {
      assert Covered(w) == Covered(v);
      assert e[..n] == Zeros(n);
      forall j | 0 <= j < n ensures !e[j] {
        assert e[j] == e[..n][j];
      }
    } else {
      assert w[8..10] == v[8..10];
      assert e[n..] == Zeros(16);
      forall j | n <= j < |e| ensures !e[j] {
        assert e[j] == e[n..][j - n];
      }
      forall j | 0 <= j < |e| && e[j] ensures at <= j < at + 16 {
        assert j < n ==> e[j] == (Bits(Covered(w))[j] != Bits(Covered(v))[j]);
        WindowOfBytes(Covered(w), Covered(v), at / 8, j);
      }
    }
  }

  /** A change of one byte, or of two neighbouring bytes of the counter, of the payload or of the CRC,
      is always refused. */
  lemma AdjacentBytesRejected(cfg: Config, st: ReceiverState, counter: uint32, payload: seq<byte>,
                              v: seq<byte>, i: nat)
    requires AdjacentChange(Frame(cfg, counter, payload), v, i)
    ensures Receive(cfg, st, v) == (st, Rejected(CrcMismatch, Counter(v)))
  {
    hide Frame, Pattern, Undetected, InWindow;
    var w := Frame(cfg, counter, payload);
    AdjacentChangeIsBurst(w, v, i);
    if Pattern(w, v) == Zeros(8 * (|w| - 6) + 16) {
      ZeroPattern(w, v);
    }
    BurstDetected(Pattern(w, v), WindowStart(w, i));
    TamperedRejected(cfg, st, counter, payload, v);
  }

  // ---- Odd numbers of flipped bits ----

  lemma OddPattern(w: seq<byte>, v: seq<byte>)
    requires |w| == |v| >= HEADER_SIZE
    ensures Odd(Pattern(w, v)) == Odd(Add(Bits(w[4..]), Bits(v[4..])))
  {
    hide Bits8, Odd;
    OddAdd(Bits(w[4..]), Bits(v[4..]));
    OddConcat(Add(Bits(Covered(w)), Bits(Covered(v))), Add(CrcWord(w[8..10]), CrcWord(v[8..10])));
    OddAdd(Bits(Covered(w)), Bits(Covered(v)));
    OddAdd(CrcWord(w[8..10]), CrcWord(v[8..10]));
    OddFields(w);
    OddFields(v);
  }

  /** The covered bytes and the CRC together have as many set bits as the wire from byte 4. */
  lemma OddFields(w: seq<byte>)
    requires |w| >= HEADER_SIZE
    ensures Odd(Bits(w[4..])) == (Odd(Bits(Covered(w))) != Odd(CrcWord(w[8..10])))
  {
    hide Bits8, Odd, Bits;
    assert w[4..] == w[4..8] + w[8..10] + w[10..];
    BitsConcat(w[4..8] + w[8..10], w[10..]);
    BitsConcat(w[4..8], w[8..10]);
    BitsConcat(w[4..8], w[10..]);
    OddConcat(Bits(w[4..8]) + Bits(w[8..10]), Bits(w[10..]));
    OddConcat(Bits(w[4..8]), Bits(w[8..10]));
    OddConcat(Bits(w[4..8]), Bits(w[10..]));
    BitsOfPair(w[8..10]);
    OddConcat(Bits8(w[8]), Bits8(w[9]));
    OddConcat(Bits8(w[9]), Bits8(w[8]));
  }

  lemma BitsOfPair(s: seq<byte>)
    requires |s| == 2
    ensures Bits(s) == Bits8(s[0]) + Bits8(s[1])
  {
    hide Bits8;
    assert s[..1] == [s[0]];
    assert Bits([s[0]]) == Bits8(s[0]) by { assert [s[0]][..0] == []; }
  }

  /** Flipping an odd number of bits from byte 4 on is always refused. */
  lemma OddFlipsRejected(cfg: Config, st: ReceiverState, counter: uint32, payload: seq<byte>, v: seq<byte>)
    requires |v| == HEADER_SIZE + |payload|
    requires Odd(Add(Bits(Frame(cfg, counter, payload)[4..]), Bits(v[4..])))
    ensures Receive(cfg, st, v) == (st, Rejected(CrcMismatch, Counter(v)))
  {
    hide Pattern, Undetected, Odd, Frame;
    OddPattern(Frame(cfg, counter, payload), v);
    OddDetected(Pattern(Frame(cfg, counter, payload), v));
    TamperedRejected(cfg, st, counter, payload, v);
  }

  // ---- Receivers with another configuration ----

  function IdPattern(a: Config, b: Config): (e: Poly)
    ensures |e| == 32
  {
    Add(Bits(Ids(a)), Bits(Ids(b)))
  }

  /** A receiver lets another configuration's frames past its CRC exactly when the difference of the
      four identifier bytes is a multiple of the generator. */
  lemma ForeignPassesIff(sender: Config, cfg: Config, counter: uint32, payload: seq<byte>)
    ensures CrcOk(cfg, Frame(sender, counter, payload)) <==> Undetected(IdPattern(sender, cfg))
  {
    hide Crc, Bits, BitCrc, Ids, Frame, CrcOk, Undetected, Covered, CrcWord;
    var w := Frame(sender, counter, payload);
    var s, t := Ids(sender) + Covered(w), Ids(cfg) + Covered(w);
    GenuinePasses(sender, counter, payload);
    CrcOkCovered(sender, w);
    CrcOkCovered(cfg, w);
    CrcConcat(INIT, Ids(sender), Covered(w));
    CrcConcat(INIT, Ids(cfg), Covered(w));
    CrcDifference(INIT, s, t);
    BitsConcat(Ids(sender), Covered(w));
    BitsConcat(Ids(cfg), Covered(w));
    var n := |Bits(Covered(w))|;
    assert Add(Bits(s), Bits(t)) == IdPattern(sender, cfg) + Zeros(n);
    BitCrcConcat(Zeros(16), IdPattern(sender, cfg), Zeros(n));
    FeedZeros(BitCrc(Zeros(16), IdPattern(sender, cfg)), n);
    ShiftsInjective(BitCrc(Zeros(16), IdPattern(sender, cfg)), n);
    UndetectedIffZero(IdPattern(sender, cfg));
    AddCancels(Crc(INIT, s), Crc(INIT, t), Crc(INIT, s));
    assert Add(Crc(INIT, s), Crc(INIT, s)) == Zeros(16);
  }

  /** A receiver that differs from the sender in only one of the two identifiers refuses every frame. */
  lemma OneIdentifierRejected(sender: Config, cfg: Config, st: ReceiverState, counter: uint32, payload: seq<byte>)
    requires (sender.dataId == cfg.dataId) != (sender.sourceId == cfg.sourceId)
    ensures Receive(cfg, st, Frame(sender, counter, payload)) == (st, Rejected(CrcMismatch, counter))
  {
    hide Bits, Frame, Undetected, CrcOk;
    var e := IdPattern(sender, cfg);
    var k := if sender.dataId == cfg.dataId then 2 else 0;
    forall j | 0 <= j < |e| && e[j] ensures 8 * k <= j < 8 * k + 16 {
      WindowOfBytes(Ids(sender), Ids(cfg), k, j);
    }
    if e == Zeros(32) {
      EqualIfSumZero(Bits(Ids(sender)), Bits(Ids(cfg)));
      BitsInjective(Ids(sender), Ids(cfg));
      IdsInjective(sender, cfg);
    }
    BurstDetected(e, 8 * k);
    ForeignPassesIff(sender, cfg, counter, payload);
    GenuinePasses(sender, counter, payload);
  }

  lemma IdsInjective(a: Config, b: Config)
    requires Ids(a) == Ids(b)
    ensures a == b
  {
    assert Ids(a)[0] == Ids(b)[0] && Ids(a)[1] == Ids(b)[1];
    assert Ids(a)[2] == Ids(b)[2] && Ids(a)[3] == Ids(b)[3];
  }

  /** Two different identifiers can cancel: this receiver accepts another node's frames. */
  lemma ForeignFrameAccepted(counter: uint32, payload: seq<byte>)
    ensures Receive(Config(0x0100, 0x2110), FRESH, Frame(Config(0, 0), counter, payload)).1 == Accepted(payload)
  {
    hide Bits, Frame, Undetected, CrcOk, GENERATOR;
    var sender, cfg := Config(0, 0), Config(0x0100, 0x2110);
    IdPatternIsGenerator();
    UndetectedIffMultiple(IdPattern(sender, cfg));
    ForeignPassesIff(sender, cfg, counter, payload);
    GenuinePasses(sender, counter, payload);
  }

  lemma IdPatternIsGenerator()
    ensures exists q: Poly :: |q| == 16 && Mul(q, GENERATOR) == IdPattern(Config(0, 0), Config(0x0100, 0x2110))
  {
    hide Mul, IdPattern;
    MulByOne(15, GENERATOR);
    IdPatternValue();
    assert |Zeros(15) + [true]| == 16;
  }

  lemma MulByOne(n: nat, g: Poly)
    requires |g| >= 1
    ensures Mul(Zeros(n) + [true], g) == Zeros(n) + g
  {
    var p := Zeros(n) + [true];
    assert p[..n] == Zeros(n);
    MulZeros(n, g);
    MulSnoc(p, g);
    HornerZeros(n, g);
  }

  lemma MulSnoc(p: Poly, g: Poly)
    requires |g| >= 1 && p != []
    ensures Mul(p, g) == Horner(Mul(p[..|p| - 1], g), p[|p| - 1], g)
  {
  }

  lemma HornerZeros(n: nat, g: Poly)
    requires |g| >= 1
    ensures Horner(Zeros(n + |g| - 1), true, g) == Zeros(n) + g
  {
    hide Horner, Zeros;
  }

  lemma IdPatternValue()
    ensures IdPattern(Config(0, 0), Config(0x0100, 0x2110)) == Zeros(15) + GENERATOR
  {
    hide Bits8, Bits, POLY;
    BitsOfFour(0, 0, 0, 0);
    BitsOfFour(0x00, 0x01, 0x10, 0x21);
    OctetZero();
    OctetOne();
    OctetHighPoly();
    OctetLowPoly();
    assert Ids(Config(0, 0)) == [0, 0, 0, 0] && Ids(Config(0x0100, 0x2110)) == [0x00, 0x01, 0x10, 0x21];
    assert Bits([0, 0, 0, 0]) == Zeros(32);
    assert POLY[..8] + POLY[8..] == POLY;
  }

  lemma OctetZero()
    ensures Bits8(0x00) == Zeros(8)
  {
    assert LowBits(0x00, 4) == Zeros(4);
  }

  lemma OctetOne()
    ensures Bits8(0x01) == Zeros(7) + [true]
  {
    assert LowBits(0x00, 4) == Zeros(4);
    assert LowBits(0x00, 7) == Zeros(7);
  }

  lemma OctetHighPoly()
    ensures Bits8(0x10) == POLY[..8]
  {
    assert LowBits(0x01, 4) == [false, false, false, true];
    assert LowBits(0x04, 6) == LowBits(0x01, 4) + [false, false];
  }

  lemma OctetLowPoly()
    ensures Bits8(0x21) == POLY[8..]
  {
    assert LowBits(0x02, 4) == [false, false, true, false];
  }

  lemma BitsOfFour(a: byte, b: byte, c: byte, d: byte)
    ensures Bits([a, b, c, d]) == Bits8(a) + Bits8(b) + Bits8(c) + Bits8(d)
  {
    hide Bits8;
    assert [a, b, c, d] == [a, b] + [c, d];
    BitsConcat([a, b], [c, d]);
    BitsOfPair([a, b]);
    BitsOfPair([c, d]);
  }
}
