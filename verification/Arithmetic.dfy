/** Facts about integer division and products that the index arithmetic rests on. */
module Arithmetic {

  lemma NonNegativeProduct(a: int, b: int)
    requires a >= 0 && b >= 0
    ensures a * b >= 0
  {
  }

  lemma ProductOrder(a: int, b: int, d: int)
    requires d > 0
    ensures a < b <==> a * d < b * d
    ensures a < b ==> a * d + d <= b * d
  {
    assert (b - a) * d == b * d - a * d;
    if a < b {
      NonNegativeProduct(b - a - 1, d);
      assert (b - a - 1) * d == (b - a) * d - d;
    } else {
      NonNegativeProduct(a - b, d);
      assert (a - b) * d == -((b - a) * d);
    }
  }

  /** Quotient and remainder are unique. */
  lemma DivModUnique(n: int, d: int, q: int, r: int)
    requires d > 0 && n == q * d + r && 0 <= r < d
    ensures n / d == q && n % d == r
  {
    var q', r' := n / d, n % d;
    assert n == q' * d + r';
    ProductOrder(q, q', d);
    ProductOrder(q', q, d);
  }

  lemma DivisionBound(n: nat, d: nat, q: nat)
    requires d > 0 && n < q * d
    ensures 0 <= n / d < q && n == (n / d) * d + n % d
  {
    ProductOrder(q, n / d + 1, d);
    ProductOrder(n / d, q, d);
    assert n == (n / d) * d + n % d;
  }

  lemma NatQuotient(n: nat, d: nat)
    requires d > 0
    ensures n / d >= 0 && n % d >= 0
  {
    ProductOrder(n / d, 0, d);
    assert n == (n / d) * d + n % d;
  }

  lemma DividesSum(a: nat, b: nat, g: nat)
    requires g > 0 && a % g == 0 && b % g == 0
    ensures (a + b) % g == 0
  {
    var p, q := a / g, b / g;
    assert (p + q) * g == p * g + q * g;
    DivModUnique(a + b, g, p + q, 0);
  }
}
