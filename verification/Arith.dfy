/** Multiplication and division of natural numbers, as far as the solver does not see it by itself. */
module Arith {

  lemma MulUp(d: nat, a: nat, b: nat)
    requires a <= b
    ensures d * a <= d * b
  {
  }

  /** Division with remainder has one answer. */
  lemma DivisionIs(d: nat, p: nat, r: nat, q: nat, s: nat)
    requires r < d && s < d && d * p + r == d * q + s
    ensures p == q && r == s
  {
    if p < q {
      MulUp(d, p + 1, q);
      assert false;
    } else if q < p {
      MulUp(d, q + 1, p);
      assert false;
    }
  }

  /** The quotient and the remainder are those of any division with a remainder less than `d`. */
  lemma QuotientIs(x: nat, d: nat, q: nat, r: nat)
    requires r < d && x == d * q + r
    ensures x / d == q && x % d == r
  {
    assert x == d * (x / d) + x % d;
    DivisionIs(d, x / d, x % d, q, r);
  }
}
