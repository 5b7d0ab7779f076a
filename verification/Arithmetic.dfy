/** The few facts of non-linear arithmetic the proofs need, kept apart from everything else. */
module Arithmetic {
  lemma MulMono(c: nat, a: int, b: int)
    requires a <= b
    ensures c * a <= c * b
  {
  }

  lemma Distribute(c: nat, a: int, b: int)
    ensures c * (a + b) == c * a + c * b
  {
  }

  lemma DivMod(n: int, d: int)
    requires 0 < d
    ensures n == n / d * d + n % d
  {
  }

  lemma MulBound(d: int, x: int, n: int)
    requires 0 < d && 0 <= n && d * x <= n < d * x + d
    ensures 0 <= x <= n
  {
    if x < 0 {
      MulMono(d, x, -1);
    } else if x > n {
      MulMono(x, 1, d);
    }
  }

  lemma Quotient(n: nat, d: nat)
    requires 0 < d
    ensures d * (n / d) <= n < d * (n / d) + d
    ensures 0 <= n / d <= n
  {
    DivMod(n, d);
    MulBound(d, n / d, n);
  }
}
