/** Small facts about integer multiplication and division, stated once so that the
    proofs that need them do not leave the solver to rediscover them, and the width
    of Java's `long`. */
module Arithmetic {

  /** Largest value of a Java `long`. */
  const LONG_MAX: int := 0x7FFF_FFFF_FFFF_FFFF

  lemma MulMonotone(a: int, b: int, c: int)
    requires 0 <= a <= b && 0 <= c
    ensures 0 <= a * c <= b * c
  {
  }

  lemma MulSucc(i: int, b: int)
    ensures (i + 1) * b == i * b + b
  {
  }

  lemma MulCancelLess(j: int, k: int, b: int)
    requires b > 0
    requires j * b < k * b
    ensures j < k
  {
    assert j * b - k * b == (j - k) * b;
  }

  lemma DivModParts(n: int, p: int)
    requires 0 < p && 0 <= n
    ensures n == p * (n / p) + n % p
    ensures 0 <= n % p < p
    ensures 0 <= n / p
  {
  }
}
