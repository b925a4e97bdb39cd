/** Go's integer division on `int`: the quotient is truncated toward zero,
    unlike Dafny's Euclidean `/`, which differs for a negative dividend. */
module GoInt {

  /** `q` is the quotient Go computes for `n / d` with a positive divisor:
      the multiple `d * q` is the one closest to `n` on the side of zero. */
  ghost predicate IsTruncatedQuotient(n: int, d: int, q: int)
  {
    d > 0 &&
    if n >= 0 then d * q <= n < d * q + d
    else d * q - d < n <= d * q
  }

  /** `n / d` as Go evaluates it for a positive divisor. */
  function Quo(n: int, d: int): (q: int)
    requires d > 0
    ensures IsTruncatedQuotient(n, d, q)
    ensures (n >= 0 ==> q >= 0) && (n <= 0 ==> q <= 0)
  {
    if n >= 0 then n / d else -((-n) / d)
  }

  /** For a fixed positive divisor, `d * x < d` forces `x < 1`. */
  lemma ScaledBelowDivisor(d: int, x: int)
    requires d > 0 && d * x < d
    ensures x < 1
  {
  }

  /** The truncated quotient is unique, so `IsTruncatedQuotient` defines it. */
  lemma TruncatedQuotientUnique(n: int, d: int, q1: int, q2: int)
    requires IsTruncatedQuotient(n, d, q1) && IsTruncatedQuotient(n, d, q2)
    ensures q1 == q2
  {
    assert d * q1 - d * q2 == d * (q1 - q2);
    assert d * q2 - d * q1 == d * (q2 - q1);
    ScaledBelowDivisor(d, q1 - q2);
    ScaledBelowDivisor(d, q2 - q1);
  }

  /** Go's quotient never decreases when the dividend grows. */
  lemma QuoMonotone(n1: int, n2: int, d: int)
    requires d > 0 && n1 <= n2
    ensures Quo(n1, d) <= Quo(n2, d)
  {
    var q1, q2 := Quo(n1, d), Quo(n2, d);
    if n1 >= 0 || n2 <= 0 {
      // both quotients come from the same side of zero
      assert d * q1 - d * (q2 + 1) == d * (q1 - q2 - 1);
      ScaledBelowDivisor(d, q1 - q2);
    }
  }
}
