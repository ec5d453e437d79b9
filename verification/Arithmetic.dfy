/** Division facts that the solver does not find unaided. */
module Arithmetic {

  lemma MulAtLeast(x: int, r: int)
    requires x >= 1 && r > 0
    ensures x * r >= r
  {
  }

  lemma MulDifference(a: int, b: int, r: int)
    ensures b * r - a * r == (b - a) * r
  {
  }

  /** Quotient and remainder are determined by the division equation. */
  lemma DivModUnique(x: int, r: int, q: int, m: int)
    requires r > 0 && x == q * r + m && 0 <= m < r
    ensures x / r == q && x % r == m
  {
    var q', m' := x / r, x % r;
    var a, b := q * r, q' * r;
    assert x == b + m' && 0 <= m' < r;
    MulDifference(q, q', r);
    MulDifference(q', q, r);
    if q' > q {
      MulAtLeast(q' - q, r);
    } else if q' < q {
      MulAtLeast(q - q', r);
    }
  }

  /** Counting one further: a multiple of r is reached or not. */
  lemma DivModStep(p: nat, r: nat)
    requires r > 0
    ensures (p + 1) % r == 0 ==> p % r == r - 1 && (p + 1) / r == p / r + 1
    ensures (p + 1) % r != 0 ==> (p + 1) % r == p % r + 1 && (p + 1) / r == p / r
  {
    var q, m := p / r, p % r;
    assert p == q * r + m;
    if m + 1 == r {
      assert (q + 1) * r == q * r + r;
      DivModUnique(p + 1, r, q + 1, 0);
    } else {
      DivModUnique(p + 1, r, q, m + 1);
    }
  }
}
