/** What FIPS 180-4 says the tables and the six functions of SHA-256 are: the first 32 bits of the fractional
    parts of the cube and square roots of the first primes, and functions of single bits. */
module HashStandard {
  import opened Bits
  import opened HashSpec

  /** The first sixty-four primes; PrimesAreTheFirst says so. */
  const PRIMES: seq<nat> := P0 + P1 + P2 + P3 + P4 + P5 + P6 + P7

  const P0: seq<nat> := [2, 3, 5, 7, 11, 13, 17, 19]
  const P1: seq<nat> := [23, 29, 31, 37, 41, 43, 47, 53]
  const P2: seq<nat> := [59, 61, 67, 71, 73, 79, 83, 89]
  const P3: seq<nat> := [97, 101, 103, 107, 109, 113, 127, 131]
  const P4: seq<nat> := [137, 139, 149, 151, 157, 163, 167, 173]
  const P5: seq<nat> := [179, 181, 191, 193, 197, 199, 211, 223]
  const P6: seq<nat> := [227, 229, 233, 239, 241, 251, 257, 263]
  const P7: seq<nat> := [269, 271, 277, 281, 283, 293, 307, 311]

  const TWO96: nat := 0x1_0000_0000_0000_0000_0000_0000

  predicate Factors(n: nat, a: nat, b: nat) { a >= 2 && b >= 2 && a * b == n }

  ghost predicate IsPrime(n: nat) { n >= 2 && forall a: nat, b: nat :: !Factors(n, a, b) }

  /** No prime below nineteen divides n, unless it is n. */
  predicate Sieved(n: nat) {
    && n >= 2
    && (n % 2 != 0 || n == 2) && (n % 3 != 0 || n == 3) && (n % 5 != 0 || n == 5) && (n % 7 != 0 || n == 7)
    && (n % 11 != 0 || n == 11) && (n % 13 != 0 || n == 13) && (n % 17 != 0 || n == 17)
  }

  lemma ProductGrows(a: nat, b: nat)
    ensures a >= 19 && b >= 19 ==> a * b >= 361
  {
    if a >= 19 && b >= 19 {
      ProductAtLeast(a - 18, b);
      Distribute(a - 18, 18, b);
    }
  }

  lemma SmallFactor(n: nat, a: nat, b: nat)
    requires n < 361 && Factors(n, a, b)
    ensures a < 19 || b < 19
  {
    ProductGrows(a, b);
  }

  lemma DividedBy(n: nat, d: nat, c: nat, b: nat)
    requires d >= 2 && c >= 1 && b >= 2 && n == d * c * b
    ensures n % d == 0 && n != d
  {
    Associate(d, c, b);
    ProductAtLeast(c, b);
    QuotientUnique(n, d, c * b, 0);
    ProductAtLeast(c * b - 1, d);
  }

  lemma SmallPrimeIn(a: nat) returns (d: nat, c: nat)
    requires 2 <= a < 19
    ensures a == d * c && c >= 1 && (d == 2 || d == 3 || d == 5 || d == 7 || d == 11 || d == 13 || d == 17)
  {
    if a % 2 == 0 { d, c := 2, a / 2; } else if a % 3 == 0 { d, c := 3, a / 3; } else { d, c := a, 1; }
  }

  lemma SievedHasNoFactor(n: nat, a: nat, b: nat)
    requires Sieved(n) && a < 19
    ensures !Factors(n, a, b)
  {
    if Factors(n, a, b) {
      var d, c := SmallPrimeIn(a);
      DividedBy(n, d, c, b);
    }
  }

  lemma SievedIsPrime(n: nat)
    requires n < 361
    ensures Sieved(n) <==> IsPrime(n)
  {
    if Sieved(n) {
      forall a: nat, b: nat
        ensures !Factors(n, a, b)
      {
        if Factors(n, a, b) {
          SmallFactor(n, a, b);
          assert Factors(n, b, a);
          if a < 19 { SievedHasNoFactor(n, a, b); } else { SievedHasNoFactor(n, b, a); }
        }
      }
    } else if n >= 2 {
      var d := if n % 2 == 0 && n != 2 then 2 else if n % 3 == 0 && n != 3 then 3 else if n % 5 == 0 && n != 5 then 5
               else if n % 7 == 0 && n != 7 then 7 else if n % 11 == 0 && n != 11 then 11
               else if n % 13 == 0 && n != 13 then 13 else 17;
      assert Factors(n, d, n / d);
    }
  }

  predicate NoneBetween(p: nat, q: nat)
    decreases q - p
  {
    p + 1 >= q || (!Sieved(p + 1) && NoneBetween(p + 1, q))
  }

  predicate Gap(p: nat, q: nat) { Sieved(q) && p < q && NoneBetween(p, q) }

  // From each prime to the next, row by row of the list.

  lemma Gaps0()
    ensures Gap(2, 3) && Gap(3, 5) && Gap(5, 7) && Gap(7, 11)
    ensures Gap(11, 13) && Gap(13, 17) && Gap(17, 19) && Gap(19, 23)
  {}

  lemma Gaps1()
    ensures Gap(23, 29) && Gap(29, 31) && Gap(31, 37) && Gap(37, 41)
    ensures Gap(41, 43) && Gap(43, 47) && Gap(47, 53) && Gap(53, 59)
  {}

  lemma Gaps2()
    ensures Gap(59, 61) && Gap(61, 67) && Gap(67, 71) && Gap(71, 73)
    ensures Gap(73, 79) && Gap(79, 83) && Gap(83, 89) && Gap(89, 97)
  {}

  lemma Gaps3()
    ensures Gap(97, 101) && Gap(101, 103) && Gap(103, 107) && Gap(107, 109)
    ensures Gap(109, 113) && Gap(113, 127) && Gap(127, 131) && Gap(131, 137)
  {}

  lemma Gaps4()
    ensures Gap(137, 139) && Gap(139, 149) && Gap(149, 151) && Gap(151, 157)
    ensures Gap(157, 163) && Gap(163, 167) && Gap(167, 173) && Gap(173, 179)
  {}

  lemma Gaps5()
    ensures Gap(179, 181) && Gap(181, 191) && Gap(191, 193) && Gap(193, 197)
    ensures Gap(197, 199) && Gap(199, 211) && Gap(211, 223) && Gap(223, 227)
  {}

  lemma Gaps6()
    ensures Gap(227, 229) && Gap(229, 233) && Gap(233, 239) && Gap(239, 241)
    ensures Gap(241, 251) && Gap(251, 257) && Gap(257, 263) && Gap(263, 269)
  {}

  lemma Gaps7()
    ensures Gap(269, 271) && Gap(271, 277) && Gap(277, 281) && Gap(281, 283)
    ensures Gap(283, 293) && Gap(293, 307) && Gap(307, 311)
  {}

  lemma Row0()
    ensures forall t :: 0 <= t < 7 ==> Gap(P0[t], P0[t + 1])
    ensures Gap(P0[7], P1[0])
  {
    Gaps0();
  }

  lemma Row1()
    ensures forall t :: 0 <= t < 7 ==> Gap(P1[t], P1[t + 1])
    ensures Gap(P1[7], P2[0])
  {
    Gaps1();
  }

  lemma Row2()
    ensures forall t :: 0 <= t < 7 ==> Gap(P2[t], P2[t + 1])
    ensures Gap(P2[7], P3[0])
  {
    Gaps2();
  }

  lemma Row3()
    ensures forall t :: 0 <= t < 7 ==> Gap(P3[t], P3[t + 1])
    ensures Gap(P3[7], P4[0])
  {
    Gaps3();
  }

  lemma Row4()
    ensures forall t :: 0 <= t < 7 ==> Gap(P4[t], P4[t + 1])
    ensures Gap(P4[7], P5[0])
  {
    Gaps4();
  }

  lemma Row5()
    ensures forall t :: 0 <= t < 7 ==> Gap(P5[t], P5[t + 1])
    ensures Gap(P5[7], P6[0])
  {
    Gaps5();
  }

  lemma Row6()
    ensures forall t :: 0 <= t < 7 ==> Gap(P6[t], P6[t + 1])
    ensures Gap(P6[7], P7[0])
  {
    Gaps6();
  }

  lemma Row7()
    ensures forall t :: 0 <= t < 7 ==> Gap(P7[t], P7[t + 1])
  {
    Gaps7();
  }

  predicate CubeBound(p: nat, x: nat) { x * x * x <= p * TWO96 < (x + 1) * (x + 1) * (x + 1) }
  predicate SquareBound(p: nat, x: nat) { x * x <= p * TWO64 < (x + 1) * (x + 1) }

  /** The integer part of the cube root, for the primes listed. */
  function Whole(p: nat): nat {
    if p < 8 then 1 else if p < 27 then 2 else if p < 64 then 3 else if p < 125 then 4 else if p < 216 then 5 else 6
  }

  predicate Cube(p: nat, k: word) { CubeBound(p, Whole(p) * TWO32 + k) }

  lemma Cubes0()
    ensures forall t :: 0 <= t < 8 ==> Cube(P0[t], K0[t])
  {}

  lemma Cubes1()
    ensures forall t :: 0 <= t < 8 ==> Cube(P1[t], K1[t])
  {}

  lemma Cubes2()
    ensures forall t :: 0 <= t < 8 ==> Cube(P2[t], K2[t])
  {}

  lemma Cubes3()
    ensures forall t :: 0 <= t < 8 ==> Cube(P3[t], K3[t])
  {}

  lemma Cubes4()
    ensures forall t :: 0 <= t < 8 ==> Cube(P4[t], K4[t])
  {}

  lemma Cubes5()
    ensures forall t :: 0 <= t < 8 ==> Cube(P5[t], K5[t])
  {}

  lemma Cubes6()
    ensures forall t :: 0 <= t < 8 ==> Cube(P6[t], K6[t])
  {}

  lemma Cubes7()
    ensures forall t :: 0 <= t < 8 ==> Cube(P7[t], K7[t])
  {}

  /** The first 32 bits of the fractional part of the cube root. */
  ghost predicate IsCubeRootFraction(p: nat, k: word) { exists m: nat :: CubeBound(p, m * TWO32 + k) }

  ghost predicate IsSquareRootFraction(p: nat, k: word) { exists m: nat :: SquareBound(p, m * TWO32 + k) }

  ghost predicate Consecutive(p: nat, q: nat) {
    p < q && IsPrime(p) && IsPrime(q) && forall n :: p < n < q ==> !IsPrime(n)
  }

  /** The t-th entries of both tables. */
  function Entry(t: nat): (nat, word)
    requires t < 64
  {
    if t < 8 then (P0[t], K0[t])
    else if t < 16 then (P1[t - 8], K1[t - 8])
    else if t < 24 then (P2[t - 16], K2[t - 16])
    else if t < 32 then (P3[t - 24], K3[t - 24])
    else if t < 40 then (P4[t - 32], K4[t - 32])
    else if t < 48 then (P5[t - 40], K5[t - 40])
    else if t < 56 then (P6[t - 48], K6[t - 48])
    else (P7[t - 56], K7[t - 56])
  }

  predicate Row<T>(s: seq<T>) { |s| == 8 }

  lemma InRows<T>(a: seq<T>, b: seq<T>, c: seq<T>, d: seq<T>, e: seq<T>, f: seq<T>, g: seq<T>, h: seq<T>, t: nat)
    requires Row(a) && Row(b) && Row(c) && Row(d) && Row(e) && Row(f) && Row(g) && Row(h) && t < 64
    ensures var all := a + b + c + d + e + f + g + h;
            && |all| == 64
            && all[t] == if t < 8 then a[t] else if t < 16 then b[t - 8] else if t < 24 then c[t - 16]
                         else if t < 32 then d[t - 24] else if t < 40 then e[t - 32] else if t < 48 then f[t - 40]
                         else if t < 56 then g[t - 48] else h[t - 56]
  {}

  lemma EntryIs(t: nat)
    requires t < 64
    ensures |PRIMES| == |K| == 64 && Entry(t) == (PRIMES[t], K[t])
  {
    InRows(P0, P1, P2, P3, P4, P5, P6, P7, t);
    InRows(K0, K1, K2, K3, K4, K5, K6, K7, t);
  }

  lemma {:induction false} NoneMeansNone(p: nat, q: nat, n: nat)
    requires NoneBetween(p, q) && p < n < q
    ensures !Sieved(n)
    decreases q - p
  {
    if n > p + 1 { NoneMeansNone(p + 1, q, n); }
  }

  lemma GapIsConsecutive(p: nat, q: nat)
    requires Sieved(p) && Gap(p, q) && q < 361
    ensures Consecutive(p, q)
  {
    SievedIsPrime(p);
    SievedIsPrime(q);
    forall n | p < n < q
      ensures !IsPrime(n)
    {
      NoneMeansNone(p, q, n);
      SievedIsPrime(n);
    }
  }

  lemma GapAt(t: nat)
    requires t < 63
    ensures Gap(Entry(t).0, Entry(t + 1).0) && Entry(t + 1).0 < 361
  {
    if t < 8 { Row0(); } else if t < 16 { Row1(); } else if t < 24 { Row2(); } else if t < 32 { Row3(); }
    else if t < 40 { Row4(); } else if t < 48 { Row5(); } else if t < 56 { Row6(); } else { Row7(); }
  }

  /** The list is the first sixty-four primes: it starts at two and skips none. */
  lemma PrimesAreTheFirst(t: nat)
    requires t < 63
    ensures |PRIMES| == 64 && PRIMES[0] == 2 && Consecutive(PRIMES[t], PRIMES[t + 1])
  {
    EntryIs(t);
    EntryIs(t + 1);
    GapAt(t);
    if t > 0 { GapAt(t - 1); }
    GapIsConsecutive(PRIMES[t], PRIMES[t + 1]);
  }

  /** FIPS 180-4, section 4.2.2, for every round. */
  lemma ConstantsAreCubeRoots(t: nat)
    requires t < 64
    ensures |PRIMES| == |K| == 64 && IsCubeRootFraction(PRIMES[t], K[t])
  {
    EntryIs(t);
    if t < 8 { Cubes0(); } else if t < 16 { Cubes1(); } else if t < 24 { Cubes2(); } else if t < 32 { Cubes3(); }
    else if t < 40 { Cubes4(); } else if t < 48 { Cubes5(); } else if t < 56 { Cubes6(); } else { Cubes7(); }
    assert Cube(PRIMES[t], K[t]);
  }

  /** The integer part of the square root, for the first eight primes. */
  function WholeSquare(p: nat): nat { if p < 4 then 1 else if p < 9 then 2 else if p < 16 then 3 else 4 }

  predicate Square(p: nat, h: word) { SquareBound(p, WholeSquare(p) * TWO32 + h) }

  lemma Squares()
    ensures forall i :: 0 <= i < 8 ==> Square(P0[i], H0[i])
  {}

  /** FIPS 180-4, section 5.3.3, for every word. */
  lemma InitialHashIsSquareRoots(i: nat)
    requires i < 8
    ensures |PRIMES| == 64 && IsSquareRootFraction(PRIMES[i], H0[i])
  {
    EntryIs(i);
    Squares();
    assert Square(PRIMES[i], H0[i]);
  }

  // ---------------------------------------------------------------- the functions, bit by bit

  /** Bit i of a number, the lowest first. */
  predicate BitOf(x: nat, i: nat) { if i == 0 then x % 2 == 1 else BitOf(x / 2, i - 1) }

  lemma {:induction false} ZeroBit(i: nat)
    ensures !BitOf(0, i)
  {
    if i > 0 { ZeroBit(i - 1); }
  }

  lemma {:induction false} AndBit(x: nat, y: nat, i: nat)
    ensures BitOf(BitAnd(x, y), i) <==> BitOf(x, i) && BitOf(y, i)
  {
    ZeroBit(i);
    if x > 0 && y > 0 && i > 0 { AndBit(x / 2, y / 2, i - 1); }
  }

  lemma {:induction false} XorBit(x: nat, y: nat, i: nat)
    ensures BitOf(BitXor(x, y), i) <==> BitOf(x, i) != BitOf(y, i)
  {
    ZeroBit(i);
    if x > 0 && y > 0 && i > 0 { XorBit(x / 2, y / 2, i - 1); }
  }

  lemma {:induction false} ComplementBit(x: nat, n: nat, i: nat)
    requires x < Pow2(n) && i < n
    ensures BitOf(Pow2(n) - 1 - x, i) <==> !BitOf(x, i)
  {
    var c := Pow2(n) - 1 - x;
    assert c / 2 == Pow2(n - 1) - 1 - x / 2 && c % 2 == 1 - x % 2;
    if i > 0 { ComplementBit(x / 2, n - 1, i - 1); }
  }

  lemma NotBit(x: word, i: nat)
    requires i < 32
    ensures BitOf(Not32(x), i) <==> !BitOf(x, i)
  {
    Pow2Values();
    ComplementBit(x, 32, i);
  }

  /** Bits of a number built from a high and a low part. */
  lemma {:induction false} JoinedBit(hi: nat, lo: nat, k: nat, i: nat)
    requires lo < Pow2(k)
    ensures BitOf(lo + hi * Pow2(k), i) <==> if i < k then BitOf(lo, i) else BitOf(hi, i - k)
  {
    if k > 0 {
      var x, p := lo + hi * Pow2(k), Pow2(k - 1);
      assert hi * Pow2(k) == 2 * (hi * p);
      assert x / 2 == lo / 2 + hi * p && x % 2 == lo % 2;
      if i > 0 { JoinedBit(hi, lo / 2, k - 1, i - 1); }
    }
  }

  lemma Parts(x: nat, p: nat)
    requires p > 0
    ensures x % p < p && x / p >= 0 && x == x % p + x / p * p
  {}

  lemma HighPart(x: word, p: nat, r: nat)
    requires p > 0 && r > 0 && p * r == TWO32
    ensures 0 <= x / p < r
  {
    Parts(x, p);
    SplitWord(x, p, r, x / p, x % p);
  }

  lemma RotatedParts(x: word, n: nat) returns (hi: nat, lo: nat)
    requires 0 < n < 32
    ensures lo < Pow2(n) && hi < Pow2(32 - n)
    ensures x == lo + hi * Pow2(n) && Rotate(x, n) == hi + lo * Pow2(32 - n)
  {
    Pow2Values();
    Pow2Add(n, 32 - n);
    Parts(x, Pow2(n));
    HighPart(x, Pow2(n), Pow2(32 - n));
    ShiftsRotate(x, n);
    hi, lo := x / Pow2(n), x % Pow2(n);
  }

  lemma Around(i: nat, n: nat)
    requires 0 < n < 32 && i < 32
    ensures (i + n) % 32 == if i < 32 - n then i + n else i - (32 - n)
  {}

  /** Rotating to the right by n brings bit i + n, modulo 32, to bit i. */
  lemma RotateBit(x: word, n: nat, i: nat)
    requires 0 < n < 32 && i < 32
    ensures BitOf(Rotate(x, n), i) <==> BitOf(x, (i + n) % 32)
  {
    var hi, lo := RotatedParts(x, n);
    Around(i, n);
    JoinedBit(lo, hi, 32 - n, i);
    JoinedBit(hi, lo, n, (i + n) % 32);
  }

  lemma ShrBit(x: word, n: nat, i: nat)
    requires i < 32 && n < 32
    ensures BitOf(Shr32(x, n), i) <==> BitOf(x, i + n)
  {
    Parts(x, Pow2(n));
    JoinedBit(x / Pow2(n), x % Pow2(n), n, i + n);
  }

  predicate Odd(a: bool, b: bool, c: bool) { (a != b) != c }

  lemma XorThree(x: word, y: word, z: word, i: nat)
    ensures BitOf(Xor32(Xor32(x, y), z), i) <==> Odd(BitOf(x, i), BitOf(y, i), BitOf(z, i))
  {
    XorBit(Xor32(x, y), z, i);
    XorBit(x, y, i);
  }

  /** Each bit of x chooses between the bits of y and z. */
  lemma ChoiceChooses(x: word, y: word, z: word, i: nat)
    requires i < 32
    ensures BitOf(Ch(x, y, z), i) <==> if BitOf(x, i) then BitOf(y, i) else BitOf(z, i)
  {
    XorBit(And32(x, y), And32(Not32(x), z), i);
    AndBit(x, y, i);
    AndBit(Not32(x), z, i);
    NotBit(x, i);
  }

  /** Each bit is that of at least two of the three. */
  lemma MajorityIsMajority(x: word, y: word, z: word, i: nat)
    ensures BitOf(Maj(x, y, z), i) <==>
              (if BitOf(x, i) then 1 else 0) + (if BitOf(y, i) then 1 else 0) + (if BitOf(z, i) then 1 else 0) >= 2
  {
    XorThree(And32(x, y), And32(x, z), And32(y, z), i);
    AndBit(x, y, i);
    AndBit(x, z, i);
    AndBit(y, z, i);
  }

  /** Each bit of the functions of section 4.1.2 is the parity of three bits of the word. */
  lemma SigmaBits(x: word, i: nat)
    requires i < 32
    ensures BitOf(BigSigma0(x), i) <==> Odd(BitOf(x, (i + 2) % 32), BitOf(x, (i + 13) % 32), BitOf(x, (i + 22) % 32))
    ensures BitOf(BigSigma1(x), i) <==> Odd(BitOf(x, (i + 6) % 32), BitOf(x, (i + 11) % 32), BitOf(x, (i + 25) % 32))
  {
    XorThree(Rotate(x, 2), Rotate(x, 13), Rotate(x, 22), i);
    RotateBit(x, 2, i);
    RotateBit(x, 13, i);
    RotateBit(x, 22, i);
    XorThree(Rotate(x, 6), Rotate(x, 11), Rotate(x, 25), i);
    RotateBit(x, 6, i);
    RotateBit(x, 11, i);
    RotateBit(x, 25, i);
  }

  lemma {:induction false} HighBitIsClear(x: nat, n: nat, i: nat)
    requires x < Pow2(n) && i >= n
    ensures !BitOf(x, i)
  {
    if n == 0 { ZeroBit(i); } else { HighBitIsClear(x / 2, n - 1, i - 1); }
  }

  /** Those of the schedule lose the bits shifted out. */
  lemma SmallSigmaBits(x: word, i: nat)
    requires i < 32
    ensures BitOf(SmallSigma0(x), i) <==>
              Odd(BitOf(x, (i + 7) % 32), BitOf(x, (i + 18) % 32), i + 3 < 32 && BitOf(x, i + 3))
    ensures BitOf(SmallSigma1(x), i) <==>
              Odd(BitOf(x, (i + 17) % 32), BitOf(x, (i + 19) % 32), i + 10 < 32 && BitOf(x, i + 10))
  {
    Pow2Values();
    if i + 3 >= 32 { HighBitIsClear(x, 32, i + 3); }
    if i + 10 >= 32 { HighBitIsClear(x, 32, i + 10); }
    XorThree(Rotate(x, 7), Rotate(x, 18), Shr32(x, 3), i);
    RotateBit(x, 7, i);
    RotateBit(x, 18, i);
    ShrBit(x, 3, i);
    XorThree(Rotate(x, 17), Rotate(x, 19), Shr32(x, 10), i);
    RotateBit(x, 17, i);
    RotateBit(x, 19, i);
    ShrBit(x, 10, i);
  }

  /** Words are read most significant byte first, section 3.1. */
  lemma WordIsBigEndian(m: Block, i: nat)
    requires i < 16
    ensures Word(m, i) == FromBigEndian(m[4 * i..4 * i + 4])
  {
    var s := m[4 * i..4 * i + 4];
    assert s[..3][..2][..1] == [s[0]] && s[..3][..2] == [s[0], s[1]] && s[..3] == [s[0], s[1], s[2]];
    var b0: nat, b1: nat, b2: nat := s[0], s[1], s[2];
    assert FromBigEndian([s[0]]) == b0;
    assert FromBigEndian([s[0], s[1]]) == b0 * 256 + b1;
    assert FromBigEndian(s[..3]) == (b0 * 256 + b1) * 256 + b2;
  }
}
