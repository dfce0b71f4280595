/** Facts about integer division used by the row and pointer arithmetic. */
module Arith {

  lemma MulLeft(a: int, b: int, d: int)
    requires a <= b && d >= 0
    ensures a * d <= b * d
  {
  }

  /** `a / d` is the unique `q` with `q * d <= a < q * d + d`. */
  lemma DivBetween(a: int, d: int, q: int)
    requires d > 0 && q * d <= a < q * d + d
    ensures a / d == q
  {
    var q', r := a / d, a % d;
    assert a == q' * d + r && 0 <= r < d;
    if q' < q {
      MulLeft(q' + 1, q, d);
    } else if q' > q {
      MulLeft(q + 1, q', d);
    }
  }

  /** `a / d < q` exactly when `a < q * d`. */
  lemma DivBelow(a: int, d: int, q: int)
    requires d > 0
    ensures a / d < q <==> a < q * d
  {
    var q', r := a / d, a % d;
    assert a == q' * d + r && 0 <= r < d;
    if q' < q {
      MulLeft(q' + 1, q, d);
    } else {
      MulLeft(q, q', d);
    }
  }
}
