/** Multiplication and division facts the solver is not asked to find by itself. */
module Arithmetic {
  lemma DivBounds(x: nat, d: nat, q: nat)
    requires d > 0
    ensures x / d == q <==> q * d <= x < (q + 1) * d
  {
    var r := x / d;
    assert x == r * d + x % d;
    if q < r {
      assert (q + 1) * d <= r * d;
    } else if q > r {
      assert (r + 1) * d <= q * d;
    }
  }

  lemma {:induction false} MulLess(i: nat, j: nat, d: nat)
    requires i < j
    ensures i * d + d <= j * d
    decreases j
  {
    assert j * d == (j - 1) * d + d;
    if i < j - 1 {
      MulLess(i, j - 1, d);
    }
  }
}
