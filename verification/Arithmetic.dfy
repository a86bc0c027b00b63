// Powers of two and whole quotients.
module Arithmetic {
  lemma AtMost(a: nat, b: nat, p: nat)
    requires a <= b
    ensures a * p <= b * p
  {
  }

  lemma Quotient(n: nat, q: nat, r: nat, p: nat)
    requires n == q * p + r && r < p
    ensures n / p == q && n % p == r
  {
    assert (n / p - q) * p == r - n % p;
    if n / p > q {
      AtMost(1, n / p - q, p);
    } else if n / p < q {
      AtMost(1, q - n / p, p);
    }
  }

  function Pow2(n: nat): (p: nat)
    ensures p >= 1
  {
    if n == 0 then 1 else 2 * Pow2(n - 1)
  }

  lemma {:induction false} Pow2Sum(a: nat, b: nat)
    ensures Pow2(a + b) == Pow2(a) * Pow2(b)
  {
    if a > 0 {
      Pow2Sum(a - 1, b);
    }
  }

  lemma {:induction false} Pow2Grows(a: nat, b: nat)
    requires a < b
    ensures 2 * Pow2(a) <= Pow2(b)
  {
    if a + 1 < b {
      Pow2Grows(a, b - 1);
    }
  }
}
