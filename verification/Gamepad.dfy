/** The normalized gamepad state of include/gpb/gamepad_state.hpp and its 48-byte wire layout. */
module Gamepad {
  import opened Bits

  const WIRE_MAGIC: nat := 0x52474231
  const WIRE_VERSION: nat := 1
  const STATE_SIZE: nat := 48

  type int16 = x: int | -32768 <= x < 32768 witness 0

  const SOUTH: bv32 := 0x1
  const EAST: bv32 := 0x2
  const WEST: bv32 := 0x4
  const NORTH: bv32 := 0x8
  const L1: bv32 := 0x10
  const R1: bv32 := 0x20
  const L2: bv32 := 0x40
  const R2: bv32 := 0x80
  const SELECT: bv32 := 0x100
  const START: bv32 := 0x200
  const L3: bv32 := 0x400
  const R3: bv32 := 0x800
  const GUIDE: bv32 := 0x1000
  const MISC1: bv32 := 0x2000
  const DUP: bv32 := 0x4000
  const DDOWN: bv32 := 0x8000
  const DLEFT: bv32 := 0x1_0000
  const DRIGHT: bv32 := 0x2_0000
  const DPAD: bv32 := 0x3_c000

  /** Positive x is right, positive y is down. Magic, version, size and padding are constants of
      every value the bridge builds, so only the wire form carries them. */
  datatype GamepadState = GamepadState(
    seqno: word, buttons: bv32, tMono: u64, tReal: u64,
    lx: int16, ly: int16, rx: int16, ry: int16, lt: byte, rt: byte)
  {
    predicate Pressed(mask: bv32) { Has(buttons, mask) }

    function Set(mask: bv32, down: bool): GamepadState {
      this.(buttons := SetBits(buttons, mask, down))
    }

    /** same_input_as: equal in everything a sink transmits. */
    predicate SameInput(o: GamepadState) {
      buttons == o.buttons && lx == o.lx && ly == o.ly && rx == o.rx && ry == o.ry && lt == o.lt && rt == o.rt
    }
  }

  function SetBits(b: bv32, mask: bv32, down: bool): bv32 { if down then b | mask else b & !mask }

  predicate Has(buttons: bv32, mask: bv32) { buttons & mask != 0 }

  /** A mask of one bit, as every button is. */
  ghost predicate SingleBit(m: bv32) { m != 0 && forall n: bv32 :: Splits(n, m) }

  predicate Splits(n: bv32, m: bv32) { n & m == 0 || n & m == m }

  const NEUTRAL: GamepadState := GamepadState(0, 0, 0, 0, 0, 0, 0, 0, 0, 0)

  /** The low n bytes of x, least significant first. */
  function LittleEndian(x: nat, n: nat): (s: Bytes)
    ensures |s| == n
  {
    if n == 0 then [] else [x % 256] + LittleEndian(x / 256, n - 1)
  }

  function FromLittleEndian(s: Bytes): nat
    decreases |s|, 1
  {
    if s == [] then 0 else LowDigitFirst(s)
  }

  function LowDigitFirst(s: Bytes): nat
    requires s != []
    decreases |s|, 0
  {
    s[0] + 256 * FromLittleEndian(s[1..])
  }

  lemma {:induction false} LittleEndianInverse(x: nat, n: nat)
    requires x < Pow2(8 * n)
    ensures FromLittleEndian(LittleEndian(x, n)) == x
  {
    if n > 0 {
      Pow2Values();
      Pow2Add(8 * (n - 1), 8);
      assert x / 256 < Pow2(8 * (n - 1));
      LittleEndianInverse(x / 256, n - 1);
      assert LittleEndian(x, n)[1..] == LittleEndian(x / 256, n - 1);
    }
  }

  lemma {:induction false} FromLittleEndianBound(s: Bytes)
    ensures FromLittleEndian(s) < Pow2(8 * |s|)
  {
    if s != [] {
      FromLittleEndianBound(s[1..]);
      Pow2Values();
      Pow2Add(8 * |s[1..]|, 8);
    }
  }

  function ToU16(v: int16): nat { if v < 0 then v + 0x1_0000 else v }
  function FromU16(n: nat): int16
    requires n < 0x1_0000
  {
    if n >= 0x8000 then n - 0x1_0000 else n
  }

  // The layout in three sixteen-byte parts: identity and buttons, timestamps, axes and triggers.

  function PackIdentity(s: GamepadState): (b: Bytes)
    ensures |b| == 16
  {
    LittleEndian(WIRE_MAGIC, 4) + LittleEndian(WIRE_VERSION, 2) + LittleEndian(STATE_SIZE, 2)
    + LittleEndian(s.seqno, 4) + LittleEndian(s.buttons as nat, 4)
  }

  function PackTimes(s: GamepadState): (b: Bytes)
    ensures |b| == 16
  {
    LittleEndian(s.tMono, 8) + LittleEndian(s.tReal, 8)
  }

  function PackAxes(s: GamepadState): (b: Bytes)
    ensures |b| == 16
  {
    LittleEndian(ToU16(s.lx), 2) + LittleEndian(ToU16(s.ly), 2)
    + LittleEndian(ToU16(s.rx), 2) + LittleEndian(ToU16(s.ry), 2) + [s.lt, s.rt, 0, 0, 0, 0, 0, 0]
  }

  /** The memcpy of a state into a datagram or a capture file, on a little-endian host. */
  function Pack(s: GamepadState): (b: Bytes)
    ensures |b| == STATE_SIZE
  {
    PackIdentity(s) + PackTimes(s) + PackAxes(s)
  }

  function Field(b: Bytes, at: nat, n: nat): nat
    requires at + n <= |b|
  {
    FromLittleEndian(b[at..at + n])
  }

  lemma FieldBound(b: Bytes, at: nat, n: nat)
    requires at + n <= |b|
    ensures Field(b, at, n) < Pow2(8 * n)
  {
    FromLittleEndianBound(b[at..at + n]);
  }

  /** The 48 bytes of a state as they travel. */
  type Body = b: Bytes | |b| == STATE_SIZE witness seq(STATE_SIZE, _ => 0)

  predicate WellFormed(b: Body)
  {
    Field(b, 0, 4) == WIRE_MAGIC && Field(b, 4, 2) == WIRE_VERSION
  }

  lemma FieldBounds(b: Body)
    ensures Field(b, 8, 4) < TWO32 && Field(b, 12, 4) < TWO32
    ensures Field(b, 16, 8) < TWO64 && Field(b, 24, 8) < TWO64
    ensures Field(b, 32, 2) < 0x1_0000 && Field(b, 34, 2) < 0x1_0000
    ensures Field(b, 36, 2) < 0x1_0000 && Field(b, 38, 2) < 0x1_0000
  {
    Pow2Values();
    Pow2Add(32, 32);
    FieldBound(b, 8, 4);
    FieldBound(b, 12, 4);
    FieldBound(b, 16, 8);
    FieldBound(b, 24, 8);
    FieldBound(b, 32, 2);
    FieldBound(b, 34, 2);
    FieldBound(b, 36, 2);
    FieldBound(b, 38, 2);
  }

  function Unpack(b: Body): GamepadState
  {
    FieldBounds(b);
    GamepadState(
      Field(b, 8, 4), Field(b, 12, 4) as bv32, Field(b, 16, 8), Field(b, 24, 8),
      FromU16(Field(b, 32, 2)), FromU16(Field(b, 34, 2)), FromU16(Field(b, 36, 2)), FromU16(Field(b, 38, 2)),
      b[40], b[41])
  }

  lemma PartsOf(s: GamepadState)
    ensures Pack(s)[..16] == PackIdentity(s) && Pack(s)[16..32] == PackTimes(s) && Pack(s)[32..] == PackAxes(s)
  {}

  lemma SliceOfSlice(b: Bytes, lo: nat, hi: nat, at: nat, n: nat)
    requires lo <= hi <= |b| && at + n <= hi - lo
    ensures b[lo..hi][at..at + n] == b[lo + at..lo + at + n]
  {
    var whole, x, y := b[lo..hi], b[lo..hi][at..at + n], b[lo + at..lo + at + n];
    forall i | 0 <= i < n
      ensures x[i] == y[i]
    {
      assert x[i] == whole[at + i] == b[lo + (at + i)];
    }
  }

  lemma FieldOfPart(b: Bytes, part: Bytes, base: nat, at: nat, n: nat)
    requires base + |part| <= |b| && b[base..base + |part|] == part && at + n <= |part|
    ensures Field(b, base + at, n) == Field(part, at, n)
  {
    SliceOfSlice(b, base, base + |part|, at, n);
  }

  /** Each of five pieces is found where it starts. */
  lemma FivePieces(a: Bytes, b: Bytes, c: Bytes, d: Bytes, e: Bytes)
    ensures var s, ab, abc, abcd := a + b + c + d + e, |a| + |b|, |a| + |b| + |c|, |a| + |b| + |c| + |d|;
            && s[0..|a|] == a && s[|a|..ab] == b && s[ab..abc] == c && s[abc..abcd] == d && s[abcd..] == e
  {}

  lemma TwoPieces(a: Bytes, b: Bytes)
    ensures (a + b)[0..|a|] == a && (a + b)[|a|..|a| + |b|] == b
  {}

  lemma IdentityFields(s: GamepadState)
    ensures var b := PackIdentity(s);
            && Field(b, 0, 4) == WIRE_MAGIC && Field(b, 4, 2) == WIRE_VERSION
            && Field(b, 8, 4) == s.seqno && Field(b, 12, 4) == s.buttons as nat
  {
    Pow2Values();
    BitsSurviveNat(s.buttons);
    LittleEndianInverse(WIRE_MAGIC, 4);
    LittleEndianInverse(WIRE_VERSION, 2);
    LittleEndianInverse(s.seqno, 4);
    LittleEndianInverse(s.buttons as nat, 4);
    FivePieces(LittleEndian(WIRE_MAGIC, 4), LittleEndian(WIRE_VERSION, 2), LittleEndian(STATE_SIZE, 2),
               LittleEndian(s.seqno, 4), LittleEndian(s.buttons as nat, 4));
    var b := PackIdentity(s);
    assert b[12..16] == b[12..];
  }

  lemma TimesFields(s: GamepadState)
    ensures Field(PackTimes(s), 0, 8) == s.tMono && Field(PackTimes(s), 8, 8) == s.tReal
  {
    Pow2Values();
    Pow2Add(32, 32);
    LittleEndianInverse(s.tMono, 8);
    LittleEndianInverse(s.tReal, 8);
    TwoPieces(LittleEndian(s.tMono, 8), LittleEndian(s.tReal, 8));
  }

  lemma AxesFields(s: GamepadState)
    ensures var b := PackAxes(s);
            && Field(b, 0, 2) == ToU16(s.lx) && Field(b, 2, 2) == ToU16(s.ly)
            && Field(b, 4, 2) == ToU16(s.rx) && Field(b, 6, 2) == ToU16(s.ry)
            && b[8] == s.lt && b[9] == s.rt
  {
    Pow2Values();
    LittleEndianInverse(ToU16(s.lx), 2);
    LittleEndianInverse(ToU16(s.ly), 2);
    LittleEndianInverse(ToU16(s.rx), 2);
    LittleEndianInverse(ToU16(s.ry), 2);
    FivePieces(LittleEndian(ToU16(s.lx), 2), LittleEndian(ToU16(s.ly), 2), LittleEndian(ToU16(s.rx), 2),
               LittleEndian(ToU16(s.ry), 2), [s.lt, s.rt, 0, 0, 0, 0, 0, 0]);
  }

  lemma PackedHead(s: GamepadState)
    ensures var b := Pack(s);
            && Field(b, 0, 4) == WIRE_MAGIC && Field(b, 4, 2) == WIRE_VERSION
            && Field(b, 8, 4) == s.seqno && Field(b, 12, 4) == s.buttons as nat
            && Field(b, 16, 8) == s.tMono && Field(b, 24, 8) == s.tReal
  {
    PartsOf(s);
    IdentityFields(s);
    TimesFields(s);
    FieldOfPart(Pack(s), PackIdentity(s), 0, 0, 4);
    FieldOfPart(Pack(s), PackIdentity(s), 0, 4, 2);
    FieldOfPart(Pack(s), PackIdentity(s), 0, 8, 4);
    FieldOfPart(Pack(s), PackIdentity(s), 0, 12, 4);
    FieldOfPart(Pack(s), PackTimes(s), 16, 0, 8);
    FieldOfPart(Pack(s), PackTimes(s), 16, 8, 8);
  }

  lemma PackedTail(s: GamepadState)
    ensures var b := Pack(s);
            && Field(b, 32, 2) == ToU16(s.lx) && Field(b, 34, 2) == ToU16(s.ly)
            && Field(b, 36, 2) == ToU16(s.rx) && Field(b, 38, 2) == ToU16(s.ry)
            && b[40] == s.lt && b[41] == s.rt
  {
    PartsOf(s);
    AxesFields(s);
    FieldOfPart(Pack(s), PackAxes(s), 32, 0, 2);
    FieldOfPart(Pack(s), PackAxes(s), 32, 2, 2);
    FieldOfPart(Pack(s), PackAxes(s), 32, 4, 2);
    FieldOfPart(Pack(s), PackAxes(s), 32, 6, 2);
  }

  lemma BitsSurviveNat(b: bv32)
    ensures (b as nat) as bv32 == b && b as nat < TWO32
  {}

  /** A packed state passes the header check and is read back unchanged. */
  lemma PackRoundTrip(s: GamepadState)
    ensures WellFormed(Pack(s)) && Unpack(Pack(s)) == s
  {
    PackedHead(s);
    PackedTail(s);
    BitsSurviveNat(s.buttons);
  }

  /** The six bytes a state starts with: the magic number and the version. */
  const HEADER: Bytes := [0x31, 0x42, 0x47, 0x52, 1, 0]

  function TwoBytes(b0: int, b1: int): int { b0 + 256 * b1 }
  function FourBytes(b0: int, b1: int, b2: int, b3: int): int { TwoBytes(b0, b1) + 0x1_0000 * TwoBytes(b2, b3) }

  lemma TwoDigits(s: Bytes)
    requires |s| == 2
    ensures FromLittleEndian(s) == TwoBytes(s[0], s[1])
  {
    assert s[1..][1..] == [] && s[1..][0] == s[1];
    assert FromLittleEndian(s[1..]) == LowDigitFirst(s[1..]);
  }

  lemma FourDigits(s: Bytes)
    requires |s| == 4
    ensures FromLittleEndian(s) == FourBytes(s[0], s[1], s[2], s[3])
  {
    TwoDigits(s[2..]);
    assert s[1..][1..] == s[2..] && s[1..][0] == s[1];
    assert FromLittleEndian(s[1..]) == LowDigitFirst(s[1..]);
  }

  /** A frame is taken for a state exactly when it starts with that header. */
  lemma WellFormedIffHeader(b: Body)
    ensures WellFormed(b) <==> b[..6] == HEADER
  {
    FourDigits(b[0..4]);
    TwoDigits(b[4..6]);
    assert b[0..4][0] == b[0] && b[0..4][1] == b[1] && b[0..4][2] == b[2] && b[0..4][3] == b[3];
    assert b[4..6][0] == b[4] && b[4..6][1] == b[5];
    var h := b[..6];
    assert h[0] == b[0] && h[1] == b[1] && h[2] == b[2] && h[3] == b[3] && h[4] == b[4] && h[5] == b[5];
    if WellFormed(b) { DigitsOfHeader(b[0], b[1], b[2], b[3], b[4], b[5]); }
  }

  lemma DigitsOfHeader(b0: byte, b1: byte, b2: byte, b3: byte, b4: byte, b5: byte)
    requires FourBytes(b0, b1, b2, b3) == WIRE_MAGIC && TwoBytes(b4, b5) == WIRE_VERSION
    ensures b0 == 0x31 && b1 == 0x42 && b2 == 0x47 && b3 == 0x52 && b4 == 1 && b5 == 0
  {}
}
