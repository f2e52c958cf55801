/** Products and quotients of reals: the steps the solver does not take by
    itself when they are buried in a larger proof. */
module Reals {

  lemma ProductSign(x: real, y: real)
    requires x >= 0.0 && y >= 0.0
    ensures x * y >= 0.0
    ensures x * y == 0.0 <==> x == 0.0 || y == 0.0
  {}

  lemma ProductLe(x: real, y: real, k: real)
    requires x <= y && k >= 0.0
    ensures x * k <= y * k
  {
    ProductSign(y - x, k);
  }

  lemma ProductLt(x: real, y: real, k: real)
    requires x < y && k > 0.0
    ensures x * k < y * k
  {
    ProductSign(y - x, k);
  }

  lemma DivLe(a: real, b: real, c: real)
    requires b > 0.0
    ensures a / b <= c <==> a <= c * b
  {
    QuotientBound(a / b, b, a, c);
  }

  lemma QuotientBound(q: real, b: real, a: real, c: real)
    requires b > 0.0 && q * b == a
    ensures q <= c <==> a <= c * b
    ensures q >= c <==> a >= c * b
  {
    if q < c {
      ProductLt(q, c, b);
    } else if q > c {
      ProductLt(c, q, b);
    }
  }

  // Scaling a quotient scales its numerator.
  lemma ScaledQuotient(q: real, b: real, a: real, k: real)
    requires b > 0.0 && q * b == a
    ensures q * k == (a * k) / b
  {
    assert (q * k) * b == (q * b) * k;
    QuotientIs(q * k, b, a * k);
  }

  lemma QuotientIs(q: real, b: real, a: real)
    requires b > 0.0 && q * b == a
    ensures q == a / b
  {}

  lemma QuotientSign(a: real, b: real)
    requires a >= 0.0 && b > 0.0
    ensures a / b >= 0.0
    ensures a > 0.0 ==> a / b > 0.0
  {}
}
