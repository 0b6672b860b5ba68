/** Facts about integer division that the clock and the colour need. */
module Arith {

  /** Euclidean division is determined by its quotient and remainder. */
  lemma DivModUnique(a: int, b: int, q: int, r: int)
    requires b > 0 && a == q * b + r && 0 <= r < b
    ensures a / b == q && a % b == r
  {
    var q', r' := a / b, a % b;
    assert (q - q') * b == r' - r;
    if q' != q {
      var k := if q > q' then q - q' else q' - q;
      MulAtLeast(k, b);
    }
  }

  lemma MulAtLeast(k: int, b: int)
    requires k >= 1 && b > 0
    ensures k * b >= b
  {
    assert k * b == (k - 1) * b + b;
  }

  lemma DivBounds(a: int, b: int)
    requires b > 0
    ensures (a / b) * b <= a < (a / b) * b + b
    ensures a >= 0 ==> a / b >= 0
  {
    assert a == (a / b) * b + a % b;
  }

  lemma DivBelow(a: int, b: int, k: int)
    requires b > 0 && 0 <= a <= k * b
    ensures a / b <= k
  {
    var q := a / b;
    assert q * b <= a;
    if q > k {
      MulAtLeast(q - k, b);
    }
  }

  lemma DivMonotone(x: int, y: int, b: int)
    requires b > 0 && x <= y
    ensures x / b <= y / b
  {
    DivBounds(x, b);
    DivBounds(y, b);
    var p, q := x / b, y / b;
    if p > q {
      MulAtLeast(p - q, b);
    }
  }

  lemma DivAtLeastOne(a: int, b: int)
    requires 0 < b <= a
    ensures a / b >= 1
  {
    DivBounds(a, b);
  }
}
