/** How raw axis values become stick and trigger values (src/sources/evdev_source.cpp), over exact
    rationals instead of doubles. */
module Scaling {
  import opened Bits
  import opened Gamepad
  import NsHid

  const FULL: int := 32767

  datatype AxisTarget = NoTarget | LX | LY | RX | RY | LT | RT | HatX | HatY

  datatype AxisBinding = AxisBinding(target: AxisTarget, min: int, max: int, invert: bool)
  {
    function Span(): int { max - min }
  }

  function Clamp(v: int, lo: int, hi: int): int
    requires lo <= hi
  {
    if v < lo then lo else if v > hi then hi else v
  }

  /** Division as C++ does it: towards zero. */
  function TruncDiv(a: int, b: int): int
    requires b > 0
  {
    if a >= 0 then a / b else -(-a / b)
  }

  /** (2t - 1) * 32767 for t = (raw - min) / span, as a numerator over span. */
  function Numerator(b: AxisBinding, raw: int): int {
    var n := (2 * (raw - b.min) - b.Span()) * FULL;
    if b.invert then -n else n
  }

  function ScaleAxis(b: AxisBinding, raw: int): (v: int16)
    ensures -FULL <= v <= FULL
  {
    if b.Span() <= 0 then 0
    else
      var limit := FULL * b.Span();
      TruncDivBound(Clamp(Numerator(b, raw), -limit, limit), b.Span(), FULL);
      TruncDiv(Clamp(Numerator(b, raw), -limit, limit), b.Span())
  }

  function ScaleTrigger(b: AxisBinding, raw: int): byte {
    var span := if b.Span() > 1 then b.Span() else 1;
    Clamp(TruncDiv((raw - b.min) * 255, span), 0, 255)
  }

  lemma DivMonotone(a: int, b: int, s: int)
    requires a <= b && s > 0
    ensures a / s <= b / s
  {
    var qa, qb := a / s, b / s;
    assert a == qa * s + a % s && b == qb * s + b % s;
    if qa > qb {
      ProductAtLeast(qa - qb, s);
      Distribute(qa - qb, qb, s);
    }
  }

  lemma TruncDivMonotone(a: int, b: int, s: int)
    requires a <= b && s > 0
    ensures TruncDiv(a, s) <= TruncDiv(b, s)
  {
    if a >= 0 {
      DivMonotone(a, b, s);
    } else if b < 0 {
      DivMonotone(-b, -a, s);
    } else {
      DivMonotone(0, b, s);
      DivMonotone(0, -a, s);
      QuotientUnique(0, s, 0, 0);
    }
  }

  lemma ExactQuotient(k: int, s: int)
    requires s > 0
    ensures TruncDiv(k * s, s) == k
  {
    if k >= 0 {
      ProductNonNegative(k, s);
      QuotientUnique(k * s, s, k, 0);
    } else {
      ProductAtLeast(-k, s);
      QuotientUnique(-k * s, s, -k, 0);
    }
  }

  lemma TruncDivBound(a: int, s: int, m: int)
    requires s > 0 && m >= 0 && -(m * s) <= a <= m * s
    ensures -m <= TruncDiv(a, s) <= m
  {
    TruncDivMonotone(-(m * s), a, s);
    TruncDivMonotone(a, m * s, s);
    ExactQuotient(m, s);
    ExactQuotient(-m, s);
  }

  lemma NumeratorMonotone(b: AxisBinding, r1: int, r2: int)
    requires r1 <= r2 && !b.invert
    ensures Numerator(b, r1) <= Numerator(b, r2)
  {}

  /** Inverting a binding negates its stick value, everywhere. */
  lemma InversionNegates(b: AxisBinding, raw: int)
    ensures ScaleAxis(b.(invert := !b.invert), raw) == -ScaleAxis(b, raw)
  {
    if b.Span() > 0 {
      var limit := FULL * b.Span();
      var n := Numerator(b, raw);
      assert Numerator(b.(invert := !b.invert), raw) == -n;
      TruncDivOdd(Clamp(n, -limit, limit), b.Span());
    }
  }

  lemma PlainAxisIsMonotone(b: AxisBinding, r1: int, r2: int)
    requires r1 <= r2 && !b.invert
    ensures ScaleAxis(b, r1) <= ScaleAxis(b, r2)
  {
    if b.Span() > 0 {
      NumeratorMonotone(b, r1, r2);
      var limit := FULL * b.Span();
      TruncDivMonotone(Clamp(Numerator(b, r1), -limit, limit), Clamp(Numerator(b, r2), -limit, limit), b.Span());
    }
  }

  /** A stick value never moves against the raw value, or never with it when the binding is inverted. */
  lemma AxisIsMonotone(b: AxisBinding, r1: int, r2: int)
    requires r1 <= r2
    ensures if b.invert then ScaleAxis(b, r2) <= ScaleAxis(b, r1) else ScaleAxis(b, r1) <= ScaleAxis(b, r2)
  {
    var plain := b.(invert := false);
    PlainAxisIsMonotone(plain, r1, r2);
    if b.invert {
      assert plain.(invert := !plain.invert) == b;
      InversionNegates(plain, r1);
      InversionNegates(plain, r2);
    }
  }

  lemma TruncDivOdd(a: int, s: int)
    requires s > 0
    ensures TruncDiv(-a, s) == -TruncDiv(a, s)
  {
    if a == 0 { QuotientUnique(0, s, 0, 0); }
  }

  /** The ends of the range reach the ends of the scale and of the report byte. */
  lemma AxisEndpoints(b: AxisBinding)
    requires b.Span() > 0 && !b.invert
    ensures ScaleAxis(b, b.min) == -FULL && ScaleAxis(b, b.max) == FULL
    ensures NsHid.ToU8(ScaleAxis(b, b.min)) == 0 && NsHid.ToU8(ScaleAxis(b, b.max)) == 255
  {
    var s := b.Span();
    assert Numerator(b, b.max) == FULL * s && Numerator(b, b.min) == -FULL * s;
    ExactQuotient(FULL, s);
    ExactQuotient(-FULL, s);
  }

  /** Raw value to report byte is monotone; readings outside the declared range saturate. */
  lemma AxisToReportByte(b: AxisBinding, r1: int, r2: int)
    requires r1 <= r2 && b.Span() > 0 && !b.invert
    ensures NsHid.ToU8(ScaleAxis(b, r1)) <= NsHid.ToU8(ScaleAxis(b, r2))
    ensures r1 <= b.min ==> NsHid.ToU8(ScaleAxis(b, r1)) == 0
    ensures r2 >= b.max ==> NsHid.ToU8(ScaleAxis(b, r2)) == 255
  {
    AxisIsMonotone(b, r1, r2);
    AxisEndpoints(b);
    if r1 <= b.min { AxisIsMonotone(b, r1, b.min); }
    if r2 >= b.max { AxisIsMonotone(b, b.max, r2); }
  }

  /** Truncated division is off by less than one, towards zero. */
  lemma TruncDivIsClose(n: int, s: int)
    requires s > 0
    ensures var v := TruncDiv(n, s); if n >= 0 then 0 <= n - v * s < s else 0 <= v * s - n < s
  {
    var m := if n >= 0 then n else -n;
    var q := m / s;
    assert m == q * s + m % s;
    assert -q * s == -(q * s);
  }

  lemma TruncDivSign(n: int, s: int)
    requires s > 0
    ensures if n >= 0 then TruncDiv(n, s) * s >= 0 else TruncDiv(n, s) * s <= 0
  {
    var q := (if n >= 0 then n else -n) / s;
    DivMonotone(0, if n >= 0 then n else -n, s);
    QuotientUnique(0, s, 0, 0);
    ProductNonNegative(q, s);
    assert -q * s == -(q * s);
  }

  /** Inside the range the result is the exact rational cut towards zero, off by less than one. */
  lemma AxisIsExactUpToTruncation(b: AxisBinding, raw: int)
    requires b.Span() > 0 && b.min <= raw <= b.max
    ensures var v, n, s := ScaleAxis(b, raw), Numerator(b, raw), b.Span();
            if n >= 0 then 0 <= v * s && 0 <= n - v * s < s else v * s <= 0 && 0 <= v * s - n < s
  {
    var n, s := Numerator(b, raw), b.Span();
    assert -(FULL * s) <= n <= FULL * s;
    TruncDivIsClose(n, s);
    TruncDivSign(n, s);
  }

  /** Trigger scaling is monotone with exact ends, and saturates outside the range. */
  lemma TriggerIsMonotone(b: AxisBinding, r1: int, r2: int)
    requires r1 <= r2
    ensures ScaleTrigger(b, r1) <= ScaleTrigger(b, r2)
  {
    var span := if b.Span() > 1 then b.Span() else 1;
    TruncDivMonotone((r1 - b.min) * 255, (r2 - b.min) * 255, span);
  }

  lemma TriggerEndpoints(b: AxisBinding)
    requires b.Span() > 0
    ensures ScaleTrigger(b, b.min) == 0 && ScaleTrigger(b, b.max) == 255
  {
    ExactQuotient(0, b.Span());
    ExactQuotient(255, b.Span());
  }

  /** Inside the range the result is the exact share of 255 cut downwards, off by less than one. */
  lemma TriggerIsExactUpToTruncation(b: AxisBinding, raw: int)
    requires b.Span() > 0 && b.min <= raw <= b.max
    ensures var v := ScaleTrigger(b, raw); 0 <= (raw - b.min) * 255 - v * b.Span() < b.Span()
  {
    var n, s := (raw - b.min) * 255, b.Span();
    TruncDivIsClose(n, s);
    TruncDivSign(n, s);
    TruncDivMonotone(n, 255 * s, s);
    TruncDivMonotone(0, n, s);
    ExactQuotient(255, s);
    ExactQuotient(0, s);
  }

  /** The product of the trigger formula fits 32 bits exactly this close to the minimum. */
  lemma TriggerProductFits(raw: int, min: int)
    ensures -0x8000_0000 <= (raw - min) * 255 < 0x8000_0000 <==> -8421504 <= raw - min <= 8421504
  {}
}
