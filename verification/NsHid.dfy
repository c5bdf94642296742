/** The coalescing HID sink of src/sinks/ns_hid_sink.cpp: report encoding and the single pending slot. */
module NsHid {
  import opened Bits
  import opened Gamepad

  const EAGAIN: nat := 11
  const EIO: nat := 5
  const ESHUTDOWN: nat := 108

  // Bits of buttons_lo and buttons_hi.
  const Y: bv8 := 0x01
  const B: bv8 := 0x02
  const A: bv8 := 0x04
  const X: bv8 := 0x08
  const L: bv8 := 0x10
  const R: bv8 := 0x20
  const ZL: bv8 := 0x40
  const ZR: bv8 := 0x80
  const MINUS: bv8 := 0x01
  const PLUS: bv8 := 0x02
  const LCLICK: bv8 := 0x04
  const RCLICK: bv8 := 0x08
  const HOME: bv8 := 0x10
  const CAPTURE: bv8 := 0x20
  const HAT_NEUTRAL: nat := 8
  const TRIGGER_THRESHOLD: nat := 40

  datatype PokkenReport = PokkenReport(
    lo: bv8, hi: bv8, hat: nat, lx: byte, ly: byte, rx: byte, ry: byte, vendor: byte)

  /** The report written at startup and at shutdown. */
  const RELEASED: PokkenReport := PokkenReport(0, 0, HAT_NEUTRAL, 0x80, 0x80, 0x80, 0x80, 0)

  function ToU8(v: int16): byte { (v + 32768) / 256 }

  function EncodeHat(up0: bool, down0: bool, left0: bool, right0: bool): nat {
    var up, down := up0 && !down0, down0 && !up0;
    var left, right := left0 && !right0, right0 && !left0;
    if up && right then 1
    else if down && right then 3
    else if down && left then 5
    else if up && left then 7
    else if up then 0
    else if right then 2
    else if down then 4
    else if left then 6
    else HAT_NEUTRAL
  }

  function Bit(on: bool, b: bv8): bv8 { if on then b else 0 }

  function LoBits(byPosition: bool, so: bool, ea: bool, we: bool, no: bool, l: bool, r: bool, zl: bool, zr: bool): bv8 {
    (if byPosition then Bit(so, B) | Bit(ea, A) | Bit(we, Y) | Bit(no, X)
     else Bit(so, A) | Bit(ea, B) | Bit(we, X) | Bit(no, Y))
    | Bit(l, L) | Bit(r, R) | Bit(zl, ZL) | Bit(zr, ZR)
  }

  function HiBits(minus: bool, plus: bool, lc: bool, rc: bool, home: bool, capture: bool): bv8 {
    Bit(minus, MINUS) | Bit(plus, PLUS) | Bit(lc, LCLICK) | Bit(rc, RCLICK) | Bit(home, HOME) | Bit(capture, CAPTURE)
  }

  /** The left byte, from what is pressed; an analog trigger past the threshold counts as pressed. */
  function EncodeLo(b: bv32, lt: byte, rt: byte, byPosition: bool): bv8 {
    LoBits(byPosition, Has(b, SOUTH), Has(b, EAST), Has(b, WEST), Has(b, NORTH), Has(b, L1), Has(b, R1),
           Has(b, L2) || lt > TRIGGER_THRESHOLD, Has(b, R2) || rt > TRIGGER_THRESHOLD)
  }

  function EncodeHi(b: bv32): bv8 {
    HiBits(Has(b, SELECT), Has(b, START), Has(b, L3), Has(b, R3), Has(b, GUIDE), Has(b, MISC1))
  }

  function HatOf(b: bv32): nat {
    EncodeHat(Has(b, DUP), Has(b, DDOWN), Has(b, DLEFT), Has(b, DRIGHT))
  }

  function Encode(s: GamepadState, byPosition: bool): PokkenReport {
    PokkenReport(EncodeLo(s.buttons, s.lt, s.rt, byPosition), EncodeHi(s.buttons), HatOf(s.buttons),
                 ToU8(s.lx), ToU8(s.ly), ToU8(s.rx), ToU8(s.ry), 0)
  }

  // ---------------------------------------------------------------- what a report says

  /** The direction a hat value stands for: +x right, +y down. */
  function HatX(hat: nat): int { if 1 <= hat <= 3 then 1 else if 5 <= hat <= 7 then -1 else 0 }
  function HatY(hat: nat): int { if 3 <= hat <= 5 then 1 else if hat == 0 || hat == 1 || hat == 7 then -1 else 0 }
  function Push(neg: bool, pos: bool): int { (if pos then 1 else 0) - (if neg then 1 else 0) }

  /** The hat is the sum of the four directions: opposite ones cancel, and nothing else is lost. */
  lemma HatIsTheSumOfDirections(up: bool, down: bool, left: bool, right: bool)
    ensures var hat := EncodeHat(up, down, left, right);
            && hat <= 8 && HatX(hat) == Push(left, right) && HatY(hat) == Push(up, down)
            && (hat == HAT_NEUTRAL <==> left == right && up == down)
  {}

  /** The hat of a report is the sum of the d-pad directions held. */
  lemma HatMeansDpad(s: GamepadState, byPosition: bool)
    ensures var r := Encode(s, byPosition);
            && HatX(r.hat) == Push(s.Pressed(DLEFT), s.Pressed(DRIGHT))
            && HatY(r.hat) == Push(s.Pressed(DUP), s.Pressed(DDOWN))
            && (r.hat == HAT_NEUTRAL <==> s.Pressed(DLEFT) == s.Pressed(DRIGHT) && s.Pressed(DUP) == s.Pressed(DDOWN))
  {
    HatIsTheSumOfDirections(s.Pressed(DUP), s.Pressed(DDOWN), s.Pressed(DLEFT), s.Pressed(DRIGHT));
  }

  /** The byte's share of the full range holds the coordinate. */
  predicate Places(b: byte, v: int16) { b * 256 <= v + 32768 < b * 256 + 256 }

  /** Each stick byte of a report is the coordinate of that name, in 256 equal steps. */
  lemma SticksMeanCoordinates(s: GamepadState, byPosition: bool)
    ensures var r := Encode(s, byPosition);
            && Places(r.lx, s.lx) && Places(r.ly, s.ly) && Places(r.rx, s.rx) && Places(r.ry, s.ry) && r.vendor == 0
  {}

  predicate On(bits: bv8, b: bv8) { bits & b != 0 }

  /** The face buttons of a report: one mode keeps the physical position, the other the printed letter. */
  lemma FaceBitsMeanButtons(s: GamepadState, byPosition: bool)
    ensures var lo := Encode(s, byPosition).lo;
            && (On(lo, B) <==> s.Pressed(if byPosition then SOUTH else EAST))
            && (On(lo, A) <==> s.Pressed(if byPosition then EAST else SOUTH))
            && (On(lo, Y) <==> s.Pressed(if byPosition then WEST else NORTH))
            && (On(lo, X) <==> s.Pressed(if byPosition then NORTH else WEST))
  {
    LeftByteMeans(s, byPosition);
  }

  /** The shoulder bits: a trigger counts in either representation. */
  lemma ShoulderBitsMeanButtons(s: GamepadState, byPosition: bool)
    ensures var lo := Encode(s, byPosition).lo;
            && (On(lo, L) <==> s.Pressed(L1)) && (On(lo, R) <==> s.Pressed(R1))
            && (On(lo, ZL) <==> s.Pressed(L2) || s.lt > 40) && (On(lo, ZR) <==> s.Pressed(R2) || s.rt > 40)
  {
    LeftByteMeans(s, byPosition);
  }

  lemma LeftByteMeans(s: GamepadState, byPosition: bool)
    ensures LoMean(Encode(s, byPosition).lo, byPosition, s.Pressed(SOUTH), s.Pressed(EAST), s.Pressed(WEST),
                   s.Pressed(NORTH), s.Pressed(L1), s.Pressed(R1), s.Pressed(L2) || s.lt > 40, s.Pressed(R2) || s.rt > 40)
  {
    var b := s.buttons;
    LoBitsMean(byPosition, Has(b, SOUTH), Has(b, EAST), Has(b, WEST), Has(b, NORTH), Has(b, L1), Has(b, R1),
               Has(b, L2) || s.lt > TRIGGER_THRESHOLD, Has(b, R2) || s.rt > TRIGGER_THRESHOLD);
  }

  predicate LoMean(p: bv8, pos: bool, so: bool, ea: bool, we: bool, no: bool, l: bool, r: bool, zl: bool, zr: bool) {
    && (On(p, B) <==> if pos then so else ea) && (On(p, A) <==> if pos then ea else so)
    && (On(p, Y) <==> if pos then we else no) && (On(p, X) <==> if pos then no else we)
    && (On(p, L) <==> l) && (On(p, R) <==> r) && (On(p, ZL) <==> zl) && (On(p, ZR) <==> zr)
  }

  lemma RightByteMeansButtons(s: GamepadState, byPosition: bool)
    ensures var hi := Encode(s, byPosition).hi;
            && (On(hi, MINUS) <==> s.Pressed(SELECT)) && (On(hi, PLUS) <==> s.Pressed(START))
            && (On(hi, LCLICK) <==> s.Pressed(L3)) && (On(hi, RCLICK) <==> s.Pressed(R3))
            && (On(hi, HOME) <==> s.Pressed(GUIDE)) && (On(hi, CAPTURE) <==> s.Pressed(MISC1))
            && hi & 0xc0 == 0
  {
    var b := s.buttons;
    HiBitsMean(Has(b, SELECT), Has(b, START), Has(b, L3), Has(b, R3), Has(b, GUIDE), Has(b, MISC1));
  }

  lemma LoBitsMean(pos: bool, so: bool, ea: bool, we: bool, no: bool, l: bool, r: bool, zl: bool, zr: bool)
    ensures LoMean(LoBits(pos, so, ea, we, no, l, r, zl, zr), pos, so, ea, we, no, l, r, zl, zr)
  {}

  lemma HiBitsMean(m: bool, p: bool, lc: bool, rc: bool, h: bool, c: bool)
    ensures var b := HiBits(m, p, lc, rc, h, c);
            && (On(b, MINUS) <==> m) && (On(b, PLUS) <==> p) && (On(b, LCLICK) <==> lc) && (On(b, RCLICK) <==> rc)
            && (On(b, HOME) <==> h) && (On(b, CAPTURE) <==> c) && b & 0xc0 == 0
  {}

  /** A report depends on nothing a replay changes: not the sequence number, not the timestamps. */
  lemma EncodeIgnoresStamps(s: GamepadState, o: GamepadState, byPosition: bool)
    requires s.SameInput(o)
    ensures Encode(s, byPosition) == Encode(o, byPosition)
  {}

  /** A released pad encodes, in both face modes, to the very bytes startup and shutdown write. */
  lemma NeutralEncodesToReleased(s: GamepadState, byPosition: bool)
    requires s.SameInput(NEUTRAL)
    ensures Encode(s, byPosition) == RELEASED
  {}

  // ---------------------------------------------------------------- the sink

  /** What write(2) answers: a byte count, or a negative one with errno. */
  datatype Write = Write(n: int, errno: nat)
  {
    predicate Ok() { n == 8 }
    function Errno(): nat { if Ok() then 0 else if n < 0 then errno else EIO }
  }

  /** wire is the history of reports the host has taken. */
  datatype Sink = Sink(pending: bool, pendingReport: PokkenReport, lastErrno: nat, wire: seq<PokkenReport>)

  function WriteReport(k: Sink, r: PokkenReport, w: Write): Sink {
    k.(lastErrno := w.Errno(), wire := if w.Ok() then k.wire + [r] else k.wire)
  }

  function Submit(k: Sink, r: PokkenReport, w: Write): Sink {
    if w.Ok() then WriteReport(k, r, w).(pending := false)
    else WriteReport(k, r, w).(pendingReport := r, pending := true)
  }

  function Flush(k: Sink, w: Write): Sink {
    if !k.pending then k
    else if w.Ok() then WriteReport(k, k.pendingReport, w).(pending := false)
    else WriteReport(k, k.pendingReport, w)
  }

  class NsHidSink {
    const byPosition: bool
    var isOpen: bool
    var pending: bool
    var pendingReport: PokkenReport
    var lastErrno: nat
    /** What the host has taken so far. */
    ghost var wire: seq<PokkenReport>

    ghost function View(): Sink
      reads this
    {
      Sink(pending, pendingReport, lastErrno, wire)
    }

    /** initialize(): parks the pad; usable unless the write failed for a reason other than no host. */
    constructor (byPosition: bool, w: Write)
      ensures this.byPosition == byPosition
      ensures isOpen <==> w.Ok() || w.Errno() in {ESHUTDOWN, EAGAIN, 16}
      ensures View() == WriteReport(Sink(false, RELEASED, 0, []), RELEASED, w)
    {
      this.byPosition := byPosition;
      isOpen := w.Ok() || w.Errno() in {ESHUTDOWN, EAGAIN, 16};
      pending, pendingReport, lastErrno := false, RELEASED, w.Errno();
      wire := if w.Ok() then [RELEASED] else [];
    }

    method DoWrite(r: PokkenReport, w: Write) returns (ok: bool)
      modifies `lastErrno, `wire
      ensures View() == WriteReport(old(View()), r, w) && ok == w.Ok()
    {
      if w.n == 8 {
        lastErrno := 0;
        wire := wire + [r];
        return true;
      }
      lastErrno := if w.n < 0 then w.errno else EIO;
      return false;
    }

    method DoSubmit(s: GamepadState, w: Write) returns (sent: bool)
      modifies `lastErrno, `wire, `pending, `pendingReport
      ensures View() == Submit(old(View()), Encode(s, byPosition), w) && sent == w.Ok()
    {
      var r := Encode(s, byPosition);
      var ok := DoWrite(r, w);
      if ok {
        pending := false;
        return true;
      }
      pendingReport := r;
      pending := true;
      return false;
    }

    method DoFlush(w: Write) returns (empty: bool)
      modifies `lastErrno, `wire, `pending
      ensures View() == Flush(old(View()), w) && empty == !pending
    {
      if !pending { return true; }
      var ok := DoWrite(pendingReport, w);
      if ok {
        pending := false;
        return true;
      }
      return false;
    }

    /** Releases every button on the host, then closes; closing twice does nothing. */
    method Shutdown(w: Write)
      modifies `lastErrno, `wire, `isOpen
      ensures !isOpen && pending == old(pending) && pendingReport == old(pendingReport)
      ensures wire == if old(isOpen) && w.Ok() then old(wire) + [RELEASED] else old(wire)
    {
      if !isOpen { return; }
      var _ := DoWrite(RELEASED, w);
      isOpen := false;
    }
  }
}
