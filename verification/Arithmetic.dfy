/** The few facts about multiplication and Euclidean division that the models lean on. */
module Arithmetic {

  lemma MulMonotone(k: nat, x: int, y: int)
    requires x <= y
    ensures k * x <= k * y
  {}

  /** Quotient and remainder are unique. */
  lemma DivUnique(a: int, d: int, q: int, r: int)
    requires 0 <= r < d && a == d * q + r
    ensures a / d == q && a % d == r
  {
    var q', r' := a / d, a % d;
    assert a == d * q' + r';
    if q' < q {
      MulMonotone(d, q' + 1, q);
      assert false;
    } else if q < q' {
      MulMonotone(d, q + 1, q');
      assert false;
    }
  }

  /** q is at most floor(a / d) exactly when q * d is at most a. */
  lemma DivBound(a: int, d: int, q: int)
    requires d > 0
    ensures q <= a / d <==> d * q <= a
  {
    var q', r' := a / d, a % d;
    assert a == d * q' + r';
    if q <= q' {
      MulMonotone(d, q, q');
    } else {
      MulMonotone(d, q' + 1, q);
    }
  }

  lemma DivMonotone(a: int, b: int, d: int)
    requires d > 0 && a <= b
    ensures a / d <= b / d
  {
    DivBound(a, d, a / d);
    DivBound(b, d, a / d);
  }

  function Pow2(n: nat): (p: nat)
    ensures p > 0
  {
    if n == 0 then 1 else 2 * Pow2(n - 1)
  }
}
