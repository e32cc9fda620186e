// Products with a common factor, and remainders by a positive divisor.
module Modular {
  lemma MulMonotone(a: int, b: int, c: nat)
    requires a <= b
    ensures a * c <= b * c && c * a <= c * b
  {
  }

  lemma QuotientIsUnique(q: int, r: int, p: int, t: int, d: int)
    requires 0 <= r < d && 0 <= t < d && q * d + r == p * d + t
    ensures q == p && r == t
  {
    if q < p {
      assert (p - q) * d == p * d - q * d;
      MulAtLeast(p - q, d);
    } else if p < q {
      assert (q - p) * d == q * d - p * d;
      MulAtLeast(q - p, d);
    }
  }

  lemma MulAtLeast(k: int, d: int)
    requires k >= 1 && d > 0
    ensures k * d >= d
  {
  }

  lemma ModUnique(x: int, q: int, r: int, d: int)
    requires 0 <= r < d && x == q * d + r
    ensures x % d == r
  {
    QuotientIsUnique(q, r, x / d, x % d, d);
  }

  lemma ModStep(n: nat, d: int)
    requires d > 1
    ensures (n + 1) % d == if n % d + 1 == d then 0 else n % d + 1
  {
    var q, r := n / d, n % d;
    assert n == q * d + r;
    if r + 1 == d { ModUnique(n + 1, q + 1, 0, d); } else { ModUnique(n + 1, q, r + 1, d); }
  }

  lemma ModDiff(a: nat, b: nat, d: int)
    requires d > 0 && a <= b
    ensures a % d == b % d <==> (b - a) % d == 0
  {
    var qa, ra, qb, rb := a / d, a % d, b / d, b % d;
    assert a == qa * d + ra && b == qb * d + rb;
    assert b - a == (qb - qa) * d + (rb - ra);
    if ra <= rb {
      ModUnique(b - a, qb - qa, rb - ra, d);
    } else {
      assert b - a == (qb - qa - 1) * d + (rb - ra + d);
      ModUnique(b - a, qb - qa - 1, rb - ra + d, d);
    }
  }
}
