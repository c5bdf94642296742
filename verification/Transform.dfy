/** Stick shaping and trigger shadowing (src/transform.cpp), over exact reals. The length of a stick
    position and the expo curve are parameters; what is needed of them is a hypothesis. */
module Transform {
  import opened Bits
  import opened Gamepad
  import NsHid

  const FULL: real := 32767.0

  datatype StickProfile = StickProfile(deadzone: int16, saturation: int16, curve: real -> real, invertX: bool, invertY: bool)

  /** What raising to a positive power does on the unit interval. */
  ghost predicate IsCurve(c: real -> real) {
    && c(0.0) == 0.0 && c(1.0) == 1.0
    && forall s, t :: 0.0 <= s < t <= 1.0 ==> c(s) < c(t)
  }

  function Sq(x: real): real { x * x }

  /** m is the length of (x, y). */
  predicate IsLength(m: real, x: real, y: real) { m >= 0.0 && Sq(m) == Sq(x) + Sq(y) }

  /** An inverted axis, with the one value that has no negation clamped first. */
  function Flip(v: int16, invert: bool): int16 {
    if !invert then v else if v < -32767 then 32767 else -v
  }

  function Ramp(p: StickProfile): (r: real)
    ensures r >= 1.0
  {
    var sat: int := if p.saturation > 1 then p.saturation else 1;
    if sat - p.deadzone > 1 then (sat - p.deadzone) as real else 1.0
  }

  function Unit(t: real): real { if t > 1.0 then 1.0 else t }

  /** The shaped radius as a fraction of full deflection, for a length past the deadzone. */
  function Norm(p: StickProfile, m: real): real {
    p.curve(Unit((m - p.deadzone as real) / Ramp(p)))
  }

  /** The factor both coordinates are multiplied by. */
  function Scale(p: StickProfile, m: real): real
    requires m > 0.0
  {
    if m <= p.deadzone as real then 0.0 else Norm(p, m) * FULL / m
  }

  function ClampReal(v: real): real { if v < -FULL then -FULL else if v > FULL then FULL else v }

  /** A float converted to an integer: towards zero. */
  function Trunc(r: real): int { if r >= 0.0 then r.Floor else -(-r).Floor }

  lemma TruncBounds(r: real)
    requires -FULL <= r <= FULL
    ensures -32767 <= Trunc(r) <= 32767
    ensures r >= 0.0 ==> r - 1.0 < Trunc(r) as real <= r
    ensures r <= 0.0 ==> r <= Trunc(r) as real < r + 1.0
  {}

  function Place(v: real, scale: real): (r: int16)
    ensures -32767 <= r <= 32767
  {
    TruncBounds(ClampReal(v * scale));
    Trunc(ClampReal(v * scale))
  }

  /** The shaped value of one coordinate of a position of length m. */
  function Shaped(p: StickProfile, v: int16, m: real): int16 {
    if m <= 0.0 then v else Place(v as real, Scale(p, m))
  }

  lemma ZeroFactor(v: real)
    ensures v * 0.0 == 0.0
    ensures Place(v, 0.0) == 0
  {
    assert ClampReal(v * 0.0) == 0.0;
  }

  method ShapeStick(p: StickProfile, x0: int16, y0: int16, length: (int16, int16) -> real) returns (x: int16, y: int16)
    ensures var fx, fy := Flip(x0, p.invertX), Flip(y0, p.invertY);
            x == Shaped(p, fx, length(fx, fy)) && y == Shaped(p, fy, length(fx, fy))
  {
    x, y := x0, y0;
    if p.invertX { x := Flip(x, true); }
    if p.invertY { y := Flip(y, true); }
    var fx, fy := x as real, y as real;
    var mag := length(x, y);
    if mag <= 0.0 { return; }
    if mag <= p.deadzone as real {
      ZeroFactor(fx);
      ZeroFactor(fy);
      x, y := 0, 0;
      return;
    }
    var norm := Unit((mag - p.deadzone as real) / Ramp(p));
    norm := p.curve(norm);
    var scale := norm * FULL / mag;
    x := Place(fx, scale);
    y := Place(fy, scale);
  }

  // ---------------------------------------------------------------- the radial laws

  lemma PositiveProduct(a: real, b: real)
    requires a > 0.0 && b > 0.0
    ensures a * b > 0.0
  {}

  lemma Divide(a: real, b: real)
    requires b > 0.0
    ensures a / b * b == a
    ensures a > 0.0 ==> a / b > 0.0
  {}

  lemma DivideOrder(a: real, b: real, c: real)
    requires a <= b && c > 0.0
    ensures a / c <= b / c
  {}

  lemma NormRange(p: StickProfile, m: real)
    requires IsCurve(p.curve) && m > p.deadzone as real
    ensures 0.0 < Norm(p, m) <= 1.0
  {
    var a := m - p.deadzone as real;
    Divide(a, Ramp(p));
    var u := Unit(a / Ramp(p));
    assert p.curve(0.0) < p.curve(u);
    assert u < 1.0 ==> p.curve(u) < p.curve(1.0);
  }

  lemma NormIsMonotone(p: StickProfile, m1: real, m2: real)
    requires IsCurve(p.curve) && p.deadzone as real < m1 <= m2
    ensures Norm(p, m1) <= Norm(p, m2)
  {
    var a1, a2 := m1 - p.deadzone as real, m2 - p.deadzone as real;
    DivideOrder(a1, a2, Ramp(p));
    Divide(a1, Ramp(p));
    var u1, u2 := Unit(a1 / Ramp(p)), Unit(a2 / Ramp(p));
    assert 0.0 <= u1 <= u2 <= 1.0;
    if u1 < u2 { assert p.curve(u1) < p.curve(u2); }
  }

  lemma QuotientAtLeastOne(a: real, b: real)
    requires a >= b > 0.0
    ensures a / b >= 1.0
  {
    var q := a / b;
    Divide(a, b);
    if q < 1.0 {
      PositiveProduct(1.0 - q, b);
      assert (1.0 - q) * b == b - q * b;
    }
  }

  lemma QuotientBelowOne(a: real, b: real)
    requires 0.0 < a < b
    ensures 0.0 < a / b < 1.0
  {
    var q := a / b;
    Divide(a, b);
    if q >= 1.0 {
      MulKeepsOrder(1.0, q, b);
    }
  }

  lemma MulKeepsOrder(a: real, b: real, c: real)
    requires a <= b && c >= 0.0
    ensures a * c <= b * c
  {}

  /** The output radius a length is sent to. */
  function ShapedRadius(p: StickProfile, m: real): real {
    if m <= 0.0 || m <= p.deadzone as real then 0.0 else Norm(p, m) * FULL
  }

  /** Pushing further never shrinks the output, which stays within full deflection, is zero exactly in
      the closed deadzone disc (and at rest), and is full exactly from deadzone plus ramp on. */
  lemma RadiusLaw(p: StickProfile, m1: real, m2: real)
    requires IsCurve(p.curve) && 0.0 <= m1 <= m2
    ensures 0.0 <= ShapedRadius(p, m1) <= ShapedRadius(p, m2) <= FULL
    ensures ShapedRadius(p, m1) == 0.0 <==> m1 == 0.0 || m1 <= p.deadzone as real
    ensures m1 > 0.0 ==> (ShapedRadius(p, m1) == FULL <==> m1 >= p.deadzone as real + Ramp(p))
  {
    if m1 > 0.0 && m1 > p.deadzone as real {
      NormRange(p, m1);
      NormIsMonotone(p, m1, m2);
      NormIsFull(p, m1);
    }
    if m2 > p.deadzone as real { NormRange(p, m2); }
  }

  lemma NormIsFull(p: StickProfile, m: real)
    requires IsCurve(p.curve) && m > p.deadzone as real
    ensures Norm(p, m) == 1.0 <==> m >= p.deadzone as real + Ramp(p)
  {
    var a := m - p.deadzone as real;
    if a >= Ramp(p) {
      QuotientAtLeastOne(a, Ramp(p));
    } else {
      QuotientBelowOne(a, Ramp(p));
      assert p.curve(a / Ramp(p)) < p.curve(1.0);
    }
  }

  lemma SquareDifference(a: real, b: real, p: real, q: real)
    requires 0.0 <= a < b && p == a * a && q == b * b
    ensures q > p
  {
    assert q - p == (b - a) * (b + a);
    PositiveProduct(b - a, b + a);
  }

  /** With a saturation above the deadzone, full deflection is reached exactly from saturation on. */
  lemma FullExactlyFromSaturation(p: StickProfile, m: real)
    requires IsCurve(p.curve) && 0 <= p.deadzone < p.saturation && m >= 0.0
    ensures ShapedRadius(p, m) == FULL <==> m >= p.saturation as real
  {
    assert p.deadzone as real + Ramp(p) == p.saturation as real;
    if m > 0.0 { RadiusLaw(p, m, m); }
  }

  lemma StrictSquare(a: real, b: real)
    requires 0.0 <= a < b
    ensures Sq(b) > Sq(a)
  {
    SquareDifference(a, b, Sq(a), Sq(b));
  }

  lemma SquareOfNegation(x: real)
    ensures Sq(-x) == Sq(x)
  {}

  lemma SquareSign(x: real)
    ensures Sq(x) >= 0.0
    ensures Sq(x) == 0.0 <==> x == 0.0
  {
    SquareOfNegation(x);
    if x > 0.0 {
      StrictSquare(0.0, x);
    } else if x < 0.0 {
      StrictSquare(0.0, -x);
    }
  }

  lemma SquareOrder(r: real, m: real)
    requires m >= 0.0 && Sq(r) <= Sq(m)
    ensures -m <= r <= m
  {
    SquareOfNegation(r);
    if r > m {
      StrictSquare(m, r);
    } else if r < -m {
      StrictSquare(m, -r);
    }
  }

  lemma CoordinateWithinLength(x: real, y: real, m: real)
    requires IsLength(m, x, y)
    ensures -m <= x <= m && -m <= y <= m
  {
    SquareSign(x);
    SquareSign(y);
    SquareOrder(x, m);
    SquareOrder(y, m);
  }

  lemma ProductOfSquares(a: real, k: real)
    ensures Sq(a * k) == Sq(a) * Sq(k)
  {}

  lemma ScaledLength(x: real, y: real, m: real, k: real)
    requires IsLength(m, x, y) && k >= 0.0
    ensures IsLength(m * k, x * k, y * k)
  {
    assert m * k >= 0.0;
    ProductOfSquares(m, k);
    ProductOfSquares(x, k);
    ProductOfSquares(y, k);
    assert (Sq(x) + Sq(y)) * Sq(k) == Sq(x) * Sq(k) + Sq(y) * Sq(k);
  }

  /** The factor is nonnegative, so the direction is kept, and it brings the length to ShapedRadius. */
  lemma ScaleReaches(p: StickProfile, m: real)
    requires IsCurve(p.curve) && m > 0.0
    ensures Scale(p, m) >= 0.0 && m * Scale(p, m) == ShapedRadius(p, m)
  {
    if m > p.deadzone as real {
      NormRange(p, m);
      Divide(Norm(p, m) * FULL, m);
    }
  }

  /** The exact shaped point is the input point times one nonnegative factor, its length is ShapedRadius,
      and neither of its coordinates is changed by the final clamp. */
  lemma ShapingIsRadial(p: StickProfile, x: real, y: real, m: real)
    requires IsCurve(p.curve) && IsLength(m, x, y) && m > 0.0
    ensures var k := Scale(p, m);
            && k >= 0.0
            && IsLength(ShapedRadius(p, m), x * k, y * k)
            && ClampReal(x * k) == x * k && ClampReal(y * k) == y * k
  {
    ScaleReaches(p, m);
    RadiusLaw(p, m, m);
    WithinRadius(x, y, m, Scale(p, m), ShapedRadius(p, m));
  }

  lemma WithinRadius(x: real, y: real, m: real, k: real, radius: real)
    requires IsLength(m, x, y) && k >= 0.0 && m * k == radius <= FULL
    ensures IsLength(radius, x * k, y * k)
    ensures ClampReal(x * k) == x * k && ClampReal(y * k) == y * k
  {
    ScaledLength(x, y, m, k);
    CoordinateWithinLength(x * k, y * k, radius);
  }

  /** Exactly the closed deadzone disc is zeroed: the shaped point, before conversion to integers, is the
      origin if and only if the input lies in the disc. */
  lemma ZeroExactlyInDeadzone(p: StickProfile, x: real, y: real, m: real)
    requires IsCurve(p.curve) && IsLength(m, x, y) && m > 0.0
    ensures x * Scale(p, m) == 0.0 && y * Scale(p, m) == 0.0 <==> m <= p.deadzone as real
  {
    RadiusLaw(p, m, m);
    ShapingIsRadial(p, x, y, m);
    LengthZero(ShapedRadius(p, m), x * Scale(p, m), y * Scale(p, m));
  }

  lemma LengthZero(m: real, x: real, y: real)
    requires IsLength(m, x, y)
    ensures m == 0.0 <==> x == 0.0 && y == 0.0
  {
    SquareSign(m);
    SquareSign(x);
    SquareSign(y);
  }

  predicate TruncatedFrom(i: int, r: real) {
    if r >= 0.0 then r - 1.0 < i as real <= r else r <= i as real < r + 1.0
  }

  /** The integers written back are the exact shaped point moved towards the axes by less than one. */
  lemma ShapedIsPointTruncated(p: StickProfile, x: int16, y: int16, m: real)
    requires IsCurve(p.curve) && IsLength(m, x as real, y as real) && m > 0.0
    ensures TruncatedFrom(Shaped(p, x, m), x as real * Scale(p, m))
    ensures TruncatedFrom(Shaped(p, y, m), y as real * Scale(p, m))
  {
    PlacedPoint(p, x as real, y as real, m);
  }

  lemma RadiusAtMostFull(p: StickProfile, m: real)
    requires IsCurve(p.curve) && m >= 0.0
    ensures ShapedRadius(p, m) <= FULL
  {
    RadiusLaw(p, m, m);
  }

  lemma PlacedPoint(p: StickProfile, x: real, y: real, m: real)
    requires IsCurve(p.curve) && IsLength(m, x, y) && m > 0.0
    ensures TruncatedFrom(Place(x, Scale(p, m)), x * Scale(p, m))
    ensures TruncatedFrom(Place(y, Scale(p, m)), y * Scale(p, m))
  {
    ScaleReaches(p, m);
    RadiusAtMostFull(p, m);
    PlacedWithin(x, y, m, Scale(p, m), ShapedRadius(p, m));
  }

  lemma PlacedWithin(x: real, y: real, m: real, k: real, radius: real)
    requires IsLength(m, x, y) && k >= 0.0 && m * k == radius <= FULL
    ensures TruncatedFrom(Place(x, k), x * k) && TruncatedFrom(Place(y, k), y * k)
  {
    WithinRadius(x, y, m, k, radius);
    PlaceUnclamped(x, k);
    PlaceUnclamped(y, k);
  }

  lemma PlaceUnclamped(v: real, k: real)
    requires ClampReal(v * k) == v * k
    ensures TruncatedFrom(Place(v, k), v * k)
  {
    TruncBounds(v * k);
  }

  lemma PlaceOdd(v: real, k: real)
    ensures Place(-v, k) == -Place(v, k)
  {
    assert -v * k == -(v * k);
    assert ClampReal(-(v * k)) == -ClampReal(v * k);
  }

  /** Inverting an axis negates what that coordinate is shaped to, and leaves the other one's shaping alone,
      since the length stays; the one value without a negation counts as the opposite extreme. */
  lemma InvertingNegates(p: StickProfile, v: int16, m: real)
    ensures Flip(v, false) == v
    ensures v > -32768 ==> Shaped(p, Flip(v, true), m) == -Shaped(p, v, m)
    ensures v == -32768 ==> Shaped(p, Flip(v, true), m) == -Shaped(p, -32767, m)
  {
    if m > 0.0 {
      var w: int16 := if v == -32768 then -32767 else v;
      assert Flip(v, true) == -w && (-w) as real == -(w as real);
      PlaceOdd(w as real, Scale(p, m));
    }
  }

  lemma LengthIgnoresSigns(m: real, x: real, y: real)
    ensures IsLength(m, x, y) <==> IsLength(m, -x, y)
    ensures IsLength(m, x, y) <==> IsLength(m, x, -y)
  {
    SquareOfNegation(x);
    SquareOfNegation(y);
  }

  lemma RampShare(u: real, r: real)
    requires r > 0.0
    ensures u * r / r == u
  {}

  /** Between the deadzone and the end of the ramp the curve decides: a share u of the way gives the curve's
      value at u, as a share of full deflection. */
  lemma CurveSetsRadius(p: StickProfile, u: real, m: real)
    requires 0.0 < u <= 1.0 && m == p.deadzone as real + u * Ramp(p) && m > 0.0
    ensures ShapedRadius(p, m) == p.curve(u) * FULL
  {
    PositiveProduct(u, Ramp(p));
    RampShare(u, Ramp(p));
    assert m - p.deadzone as real == u * Ramp(p);
    assert (m - p.deadzone as real) / Ramp(p) == u;
    assert Unit(u) == u;
    assert Norm(p, m) == p.curve(u);
    assert m > p.deadzone as real;
  }

  // ---------------------------------------------------------------- triggers

  function Cut(v: byte, deadzone: byte): byte { if v < deadzone then 0 else v }

  function ShadowBits(b: bv32, lt: byte, rt: byte): bv32 {
    SetIf(SetIf(b, L2, lt > 40), R2, rt > 40)
  }

  function SetIf(b: bv32, mask: bv32, on: bool): bv32 { if on then SetBits(b, mask, true) else b }

  function Shadowed(s: GamepadState, deadzone: byte): GamepadState {
    var lt, rt := Cut(s.lt, deadzone), Cut(s.rt, deadzone);
    s.(lt := lt, rt := rt, buttons := ShadowBits(s.buttons, lt, rt))
  }

  /** The trigger half of apply(): small values cut, larger ones shadowed onto the digital bits. */
  method ShadowTriggers(s0: GamepadState, deadzone: byte) returns (s: GamepadState)
    ensures s == Shadowed(s0, deadzone)
  {
    s := s0;
    if s.lt < deadzone { s := s.(lt := 0); }
    if s.rt < deadzone { s := s.(rt := 0); }
    if s.lt > 40 { s := s.Set(L2, true); }
    if s.rt > 40 { s := s.Set(R2, true); }
  }

  method Apply(left: StickProfile, right: StickProfile, deadzone: byte, s0: GamepadState, length: (int16, int16) -> real)
    returns (s: GamepadState)
    ensures var x, y := Flip(s0.lx, left.invertX), Flip(s0.ly, left.invertY);
            s.lx == Shaped(left, x, length(x, y)) && s.ly == Shaped(left, y, length(x, y))
    ensures var x, y := Flip(s0.rx, right.invertX), Flip(s0.ry, right.invertY);
            s.rx == Shaped(right, x, length(x, y)) && s.ry == Shaped(right, y, length(x, y))
    ensures s.lt == Cut(s0.lt, deadzone) && s.rt == Cut(s0.rt, deadzone)
    ensures s.buttons == ShadowBits(s0.buttons, s.lt, s.rt)
    ensures s.seqno == s0.seqno && s.tMono == s0.tMono && s.tReal == s0.tReal
  {
    var lx, ly := ShapeStick(left, s0.lx, s0.ly, length);
    var rx, ry := ShapeStick(right, s0.rx, s0.ry, length);
    s := ShadowTriggers(s0.(lx := lx, ly := ly, rx := rx, ry := ry), deadzone);
  }

  lemma ShadowedBit(b: bv32, mask: bv32, on: bool)
    requires mask != 0
    ensures Has(SetIf(b, mask, on), mask) <==> Has(b, mask) || on
  {}

  lemma UnshadowedBit(b: bv32, mask: bv32, on: bool, other: bv32)
    requires mask & other == 0
    ensures Has(SetIf(b, mask, on), other) <==> Has(b, other)
  {}

  /** Shadowing only adds: a trigger bound as a button is never erased, an analog value past the
      threshold presses its own bit, and no other button moves. */
  lemma ShadowOnlyAdds(b: bv32, lt: byte, rt: byte, other: bv32)
    requires L2 & other == 0 && R2 & other == 0
    ensures Has(ShadowBits(b, lt, rt), other) <==> Has(b, other)
    ensures Has(ShadowBits(b, lt, rt), L2) <==> Has(b, L2) || lt > 40
    ensures Has(ShadowBits(b, lt, rt), R2) <==> Has(b, R2) || rt > 40
  {
    var c := SetIf(b, L2, lt > 40);
    UnshadowedBit(b, L2, lt > 40, other);
    UnshadowedBit(c, R2, rt > 40, other);
    ShadowedBit(b, L2, lt > 40);
    UnshadowedBit(c, R2, rt > 40, L2);
    UnshadowedBit(b, L2, lt > 40, R2);
    ShadowedBit(c, R2, rt > 40);
  }

  /** For the sink shadowing is redundant: its trigger buttons come out the same with and without it,
      unless the trigger deadzone cuts a value the sink would have taken for a press. */
  lemma SinkNeedsNoShadow(s: GamepadState, deadzone: byte, byPosition: bool)
    ensures var with, without := NsHid.Encode(Shadowed(s, deadzone), byPosition).lo, NsHid.Encode(s, byPosition).lo;
            && ((NsHid.On(with, NsHid.ZL) <==> NsHid.On(without, NsHid.ZL)) <==> s.Pressed(L2) || !(40 < s.lt < deadzone))
            && ((NsHid.On(with, NsHid.ZR) <==> NsHid.On(without, NsHid.ZR)) <==> s.Pressed(R2) || !(40 < s.rt < deadzone))
  {
    NsHid.ShoulderBitsMeanButtons(s, byPosition);
    NsHid.ShoulderBitsMeanButtons(Shadowed(s, deadzone), byPosition);
    ShadowOnlyAdds(s.buttons, Cut(s.lt, deadzone), Cut(s.rt, deadzone), L1);
  }
}
