/** Facts about 64-bit counters that index a ring whose size is a power of two. */
module RingArithmetic {
  import opened Bits

  /** Reducing modulo 2^64 first does not change the remainder modulo a smaller power of two. */
  lemma WrapKeepsSlot(x: nat, k: nat)
    requires k <= 64
    ensures x % TWO64 % Pow2(k) == x % Pow2(k)
  {
    Pow2Values();
    Pow2Add(32, 32);
    Pow2Add(64 - k, k);
    RemainderOfDivisor(x, TWO64, Pow2(64 - k), Pow2(k));
  }

  lemma RemainderOfDivisor(x: nat, m: nat, p: nat, n: nat)
    requires n > 0 && m > 0 && m == p * n
    ensures x % m % n == x % n
  {
    Associate(x / m, p, n);
    RemainderOfMultiple(x, n, x / m * p, x % m);
  }

  lemma RemainderOfMultiple(x: nat, n: nat, q: int, r: nat)
    requires n > 0 && x == q * n + r
    ensures x % n == r % n
  {
    Distribute(q, r / n, n);
    assert r == r / n * n + r % n;
    QuotientUnique(x, n, q + r / n, r % n);
  }

  /** The distance between two wrapped counters is the true one while it fits. */
  lemma WrappedDistance(a: nat, b: nat)
    requires b <= a < b + TWO64
    ensures (a % TWO64 - b % TWO64) % TWO64 == a - b
    ensures a % TWO64 == b % TWO64 <==> a == b
  {
    var k := a / TWO64 - b / TWO64;
    assert a - b == TWO64 * k + (a % TWO64 - b % TWO64);
  }

  lemma WrappedSuccessor(a: nat)
    ensures (a % TWO64 + 1) % TWO64 == (a + 1) % TWO64
  {}

  /** Counters less than a ring apart use different slots. */
  lemma DistinctSlots(i: nat, j: nat, n: nat)
    requires n > 0 && i < j < i + n
    ensures i % n != j % n
  {
    var qi, qj := i / n, j / n;
    assert i == qi * n + i % n && j == qj * n + j % n;
    Distribute(qj - qi, qi, n);
    if qj - qi >= 1 {
      ProductAtLeast(qj - qi, n);
    } else if qi - qj >= 1 {
      ProductAtLeast(qi - qj, n);
      Distribute(qi - qj, qj, n);
    }
  }

  /** start() rounds the ring up: the least power of two that is not below the request. */
  method RoundUp(slots: nat) returns (n: nat, ghost k: nat)
    requires slots <= Pow2(63)
    ensures n == Pow2(k) && k <= 63 && slots <= n
    ensures k > 0 ==> Pow2(k - 1) < slots
  {
    n, k := 1, 0;
    while n < slots
      invariant n == Pow2(k) && k <= 63
      invariant k > 0 ==> Pow2(k - 1) < slots
      decreases slots - n
    {
      if k == 63 { assert false; }
      n := n * 2;
      k := k + 1;
    }
  }
}
