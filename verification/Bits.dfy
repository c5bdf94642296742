/** Unsigned machine arithmetic on natural numbers: powers of two, the bitwise operators written
    out bit by bit, and the few laws about them that the sources rely on. */
module Bits {

  type byte = x: int | 0 <= x < 256 witness 0
  type word = x: int | 0 <= x < TWO32 witness 0
  type u64 = x: int | 0 <= x < TWO64 witness 0
  type Bytes = seq<byte>

  const TWO32: nat := 0x1_0000_0000
  const TWO64: nat := 0x1_0000_0000_0000_0000

  function Pow2(n: nat): (r: nat)
    ensures r > 0
  {
    if n == 0 then 1 else 2 * Pow2(n - 1)
  }

  // Each operator is split in two so that one unfolding exposes the cases but not the halving.

  function BitAnd(x: nat, y: nat): nat
    decreases x + y, 1
  {
    if x == 0 || y == 0 then 0 else AndStep(x, y)
  }

  function AndStep(x: nat, y: nat): nat
    requires x > 0 && y > 0
    decreases x + y, 0
  {
    (if x % 2 == 1 && y % 2 == 1 then 1 else 0) + 2 * BitAnd(x / 2, y / 2)
  }

  function BitOr(x: nat, y: nat): nat
    decreases x + y, 1
  {
    if x == 0 then y else if y == 0 then x else OrStep(x, y)
  }

  function OrStep(x: nat, y: nat): nat
    requires x > 0 && y > 0
    decreases x + y, 0
  {
    (if x % 2 == 1 || y % 2 == 1 then 1 else 0) + 2 * BitOr(x / 2, y / 2)
  }

  function BitXor(x: nat, y: nat): nat
    decreases x + y, 1
  {
    if x == 0 then y else if y == 0 then x else XorStep(x, y)
  }

  function XorStep(x: nat, y: nat): nat
    requires x > 0 && y > 0
    decreases x + y, 0
  {
    (if x % 2 != y % 2 then 1 else 0) + 2 * BitXor(x / 2, y / 2)
  }

  lemma Pow2Add(m: nat, n: nat)
    ensures Pow2(m + n) == Pow2(m) * Pow2(n)
  {
    if m > 0 { Pow2Add(m - 1, n); }
  }

  lemma {:induction false} BitOpsBound(x: nat, y: nat, n: nat)
    requires x < Pow2(n) && y < Pow2(n)
    ensures BitAnd(x, y) < Pow2(n) && BitOr(x, y) < Pow2(n) && BitXor(x, y) < Pow2(n)
  {
    if x != 0 && y != 0 { BitOpsBound(x / 2, y / 2, n - 1); }
  }

  /** Masking with 2^n - 1 is the remainder modulo 2^n. */
  lemma {:induction false} MaskIsMod(x: nat, n: nat)
    ensures BitAnd(x, Pow2(n) - 1) == x % Pow2(n)
  {
    if n == 0 {
      assert Pow2(0) == 1;
    } else if x == 0 {
      QuotientUnique(0, Pow2(n), 0, 0);
    } else {
      MaskIsMod(x / 2, n - 1);
      MaskStep(x, Pow2(n - 1));
      RemainderStep(x, Pow2(n - 1));
    }
  }

  lemma RemainderStep(x: nat, p: nat)
    requires p > 0
    ensures x % (2 * p) == x % 2 + 2 * (x / 2 % p)
  {
    var q, r := x / 2 / p, x / 2 % p;
    Associate(q, p, 2);
    QuotientUnique(x, 2 * p, q, x % 2 + 2 * r);
  }

  lemma MaskStep(x: nat, p: nat)
    requires x > 0 && p > 0
    ensures BitAnd(x, 2 * p - 1) == x % 2 + 2 * BitAnd(x / 2, p - 1)
  {
    assert (2 * p - 1) / 2 == p - 1;
  }

  /** Or-ing numbers that occupy different bits adds them. */
  lemma {:induction false} OrOfDisjoint(hi: nat, lo: nat, n: nat)
    requires lo < Pow2(n)
    ensures BitOr(hi * Pow2(n), lo) == hi * Pow2(n) + lo
    decreases n
  {
    if n > 0 && hi > 0 && lo > 0 {
      var p := Pow2(n - 1);
      assert hi * Pow2(n) == 2 * (hi * p);
      assert hi * Pow2(n) / 2 == hi * p && hi * Pow2(n) % 2 == 0;
      OrOfDisjoint(hi, lo / 2, n - 1);
    }
  }

  lemma OrCommutes(x: nat, y: nat)
    ensures BitOr(x, y) == BitOr(y, x)
    decreases x + y
  {
    if x != 0 && y != 0 { OrCommutes(x / 2, y / 2); }
  }

  lemma {:induction false} XorZeroIffEqual(x: nat, y: nat)
    ensures BitXor(x, y) == 0 <==> x == y
    decreases x + y
  {
    if x != 0 && y != 0 { XorZeroIffEqual(x / 2, y / 2); }
  }

  lemma {:induction false} OrZeroIffBothZero(x: nat, y: nat)
    ensures BitOr(x, y) == 0 <==> x == 0 && y == 0
    decreases x + y
  {
    if x != 0 && y != 0 { OrZeroIffBothZero(x / 2, y / 2); }
  }

  lemma ProductNonNegative(d: int, m: int)
    requires d >= 0 && m >= 0
    ensures d * m >= 0
  {}

  lemma Distribute(a: int, b: int, m: int)
    ensures (a + b) * m == a * m + b * m
  {}

  lemma Associate(a: int, b: int, c: int)
    ensures a * b * c == a * (b * c)
  {}

  lemma ProductAtLeast(d: int, m: int)
    requires d >= 1 && m >= 0
    ensures d * m >= m
  {
    ProductNonNegative(d - 1, m);
    Distribute(d - 1, 1, m);
  }

  lemma QuotientUnique(x: int, m: int, q: int, r: int)
    requires m > 0 && x == q * m + r && 0 <= r < m
    ensures x / m == q && x % m == r
  {
    var y := x / m;
    assert x == y * m + x % m;
    SameQuotient(m, q, r, y, x % m);
  }

  lemma SameQuotient(m: int, q: int, r: int, y: int, s: int)
    requires q * m + r == y * m + s && 0 <= r < m && 0 <= s < m
    ensures q == y && r == s
  {
    Distribute(q - y, y, m);
    Distribute(y - q, q, m);
    if q > y {
      ProductAtLeast(q - y, m);
    } else if q < y {
      ProductAtLeast(y - q, m);
    }
  }

  lemma DivDiv(x: nat, a: nat, b: nat)
    requires a > 0 && b > 0
    ensures a * b > 0 && x / a / b == x / (a * b)
  {
    var y, t := x / a, x % a;
    var q, s := y / b, y % b;
    ProductAtLeast(a, b);
    RemainderOfProduct(a, b, s, t);
    assert x == q * (a * b) + (s * a + t) by { RegroupDigits(a, b, q, s, t, x, y); }
    QuotientUnique(x, a * b, q, s * a + t);
  }

  lemma RegroupDigits(a: int, b: int, q: int, s: int, t: int, x: int, y: int)
    requires y == q * b + s && x == y * a + t
    ensures x == q * (a * b) + (s * a + t)
  {
    assert y * a == (q * b + s) * a == q * b * a + s * a;
    assert q * b * a == q * (a * b);
  }

  /** A two-digit remainder stays below the product of the radices. */
  lemma RemainderOfProduct(a: int, b: int, s: int, t: int)
    requires 0 <= s < b && 0 <= t < a
    ensures 0 <= s * a + t < a * b
  {
    ProductNonNegative(s, a);
    ProductNonNegative(b - 1 - s, a);
    Distribute(b - 1 - s, s + 1, a);
    Distribute(s, 1, a);
  }

  /** A right shift of an unsigned number. */
  function Shr(x: nat, n: nat): (r: nat)
    ensures r <= x
  {
    QuotientAtMost(x, Pow2(n));
    x / Pow2(n)
  }

  lemma ShrTwice(x: nat, m: nat, n: nat)
    ensures Shr(x, m) / Pow2(n) == Shr(x, m + n)
  {
    Pow2Add(m, n);
    DivDiv(x, Pow2(m), Pow2(n));
  }

  function And32(x: word, y: word): word { Bounds32(x, y); BitAnd(x, y) }
  function Or32(x: word, y: word): word { Bounds32(x, y); BitOr(x, y) }
  function Xor32(x: word, y: word): word { Bounds32(x, y); BitXor(x, y) }
  function Not32(x: word): word { TWO32 - 1 - x }
  function Shr32(x: word, n: nat): word { Shr(x, n) }
  function Shl32(x: word, n: nat): word { x * Pow2(n) % TWO32 }
  /** Unsigned 32-bit addition wraps. */
  function Add32(x: word, y: word): word { (x + y) % TWO32 }

  function Or8(x: byte, y: byte): byte { Bounds8(x, y); BitOr(x, y) }
  function Xor8(x: byte, y: byte): byte { Bounds8(x, y); BitXor(x, y) }

  lemma Pow2Values()
    ensures Pow2(8) == 256 && Pow2(16) == 0x1_0000 && Pow2(24) == 0x100_0000 && Pow2(32) == TWO32
  {
    assert Pow2(4) == 16;
    Pow2Add(4, 4);
    Pow2Add(8, 8);
    Pow2Add(8, 16);
    Pow2Add(16, 16);
  }

  lemma Bounds32(x: word, y: word)
    ensures BitAnd(x, y) < TWO32 && BitOr(x, y) < TWO32 && BitXor(x, y) < TWO32
  {
    Pow2Values();
    BitOpsBound(x, y, 32);
  }

  lemma Bounds8(x: byte, y: byte)
    ensures BitAnd(x, y) < 256 && BitOr(x, y) < 256 && BitXor(x, y) < 256
  {
    Pow2Values();
    BitOpsBound(x, y, 8);
  }

  lemma QuotientAtMost(x: nat, p: nat)
    requires p > 0
    ensures 0 <= x / p <= x
  {
    if x / p >= 1 { ProductAtLeast(p, x / p); }
  }

  /** The rotation of a 32-bit word: its low n bits go to the top. */
  function Rotr32(x: word, n: nat): int
    requires n <= 32
  {
    x / Pow2(n) + (x % Pow2(n)) * Pow2(32 - n)
  }

  /** Two shifts and an or, in unsigned arithmetic that loses the bits shifted out, rotate. */
  lemma ShiftsRotate(x: word, n: nat)
    requires 0 < n < 32
    ensures Or32(Shr32(x, n), Shl32(x, 32 - n)) == Rotr32(x, n)
  {
    Pow2Values();
    Pow2Add(n, 32 - n);
    var hi, lo := HighLow(x, Pow2(n), Pow2(32 - n));
    OrCommutes(hi, lo * Pow2(32 - n));
    OrOfDisjoint(lo, hi, 32 - n);
  }

  lemma HighLow(x: word, p: int, r: int) returns (hi: nat, lo: nat)
    requires p > 0 && r > 0 && p * r == TWO32
    ensures hi == x / p && lo == x % p && hi < r
    ensures x * r % TWO32 == lo * r && lo * r >= 0
  {
    hi, lo := x / p, x % p;
    SplitWord(x, p, r, hi, lo);
    QuotientUnique(x * r, TWO32, hi, lo * r);
  }

  lemma SplitWord(x: int, p: int, r: int, hi: int, lo: int)
    requires p > 0 && r > 0 && p * r == TWO32 && 0 <= x < TWO32
    requires x == hi * p + lo && 0 <= lo < p
    ensures 0 <= hi < r && 0 <= lo * r < TWO32 && x * r == hi * TWO32 + lo * r
  {
    if hi < 0 { ProductAtLeast(-hi, p); }
    if hi >= r {
      Distribute(hi - r, r, p);
      ProductNonNegative(hi - r, p);
    }
    ProductNonNegative(lo, r);
    ProductNonNegative(p - 1 - lo, r);
    Distribute(p - 1 - lo, lo + 1, r);
    Distribute(lo, 1, r);
    Distribute(hi * p, lo, r);
    Associate(hi, p, r);
  }

  /** The low n bytes of x, most significant first. */
  function BigEndian(x: nat, n: nat): Bytes {
    if n == 0 then [] else BigEndian(x / 256, n - 1) + [x % 256]
  }

  /** The number that bytes spell, most significant first. */
  function FromBigEndian(s: Bytes): nat {
    if s == [] then 0 else FromBigEndian(s[..|s| - 1]) * 256 + s[|s| - 1]
  }

  lemma BigEndianLength(x: nat, n: nat)
    ensures |BigEndian(x, n)| == n
  {
    if n > 0 { BigEndianLength(x / 256, n - 1); }
  }

  lemma {:induction false} BigEndianInverse(x: nat, n: nat)
    requires x < Pow2(8 * n)
    ensures FromBigEndian(BigEndian(x, n)) == x
  {
    if n > 0 {
      Pow2Values();
      Pow2Add(8 * (n - 1), 8);
      assert x / 256 < Pow2(8 * (n - 1));
      BigEndianInverse(x / 256, n - 1);
      var s := BigEndian(x, n);
      assert s[..|s| - 1] == BigEndian(x / 256, n - 1);
    }
  }

  /** A 32-bit counter's successor. */
  lemma NextNumber(n: nat)
    ensures (n % TWO32 + 1) % TWO32 == (n + 1) % TWO32
  {}
}
