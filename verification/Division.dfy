/** Facts about division with remainder that the solver does not find by itself. */
module Division {

  lemma NonNegativeProduct(k: int, d: int)
    requires k >= 0 && d >= 0
    ensures k * d >= 0
  {
  }

  lemma PositiveProduct(k: int, d: int)
    requires k > 0 && d > 0
    ensures k * d > 0
  {
  }

  lemma LargerQuotient(d: int, q: int, q2: int)
    requires d > 0 && q > q2
    ensures q * d >= q2 * d + d
  {
    var k := q - q2 - 1;
    NonNegativeProduct(k, d);
    assert (q2 + 1 + k) * d == q2 * d + d + k * d;
  }

  lemma QuotientIsUnique(d: int, q: int, r: int, q2: int, r2: int)
    requires d > 0 && q * d + r == q2 * d + r2 && 0 <= r < d && 0 <= r2 < d
    ensures q == q2 && r == r2
  {
    if q > q2 {
      LargerQuotient(d, q, q2);
    } else if q < q2 {
      LargerQuotient(d, q2, q);
    }
  }

  lemma DivisionIsUnique(x: int, d: int, q: int, r: int)
    requires d > 0 && x == q * d + r && 0 <= r < d
    ensures x % d == r
  {
    QuotientIsUnique(d, q, r, x / d, x % d);
  }

  lemma MultipleOf(n: nat, d: nat)
    requires d > 0
    ensures n * d >= 0 && n * d % d == 0 && n * d / d == n
  {
    NonNegativeProduct(n, d);
    QuotientIsUnique(d, n, 0, n * d / d, n * d % d);
  }

  lemma MulMonotone(a: nat, b: nat, d: nat)
    requires a <= b
    ensures a * d <= b * d
  {
    NonNegativeProduct(b - a, d);
    assert b * d == a * d + (b - a) * d;
  }

  lemma QuotientAtLeast(n: nat, d: nat, q: nat)
    requires d > 0 && n >= q * d
    ensures n / d >= q
  {
    assert n == n / d * d + n % d;
    if n / d < q {
      MulMonotone(n / d + 1, q, d);
    }
  }
}
