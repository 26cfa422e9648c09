/** Facts about multiplication and division that the solver does not find alone. */
module Arith {
  lemma MulMonotone(d: nat, a: int, b: int)
    requires a <= b
    ensures d * a <= d * b
  {
    assert d * b - d * a == d * (b - a);
  }

  lemma MulLess(d: nat, a: int, b: int)
    requires d * a < d * b
    ensures a < b
  {
    if a >= b {
      MulMonotone(d, b, a);
    }
  }

  /** Euclidean division brackets its dividend. */
  lemma DivBounds(x: nat, d: nat)
    requires d > 0
    ensures d * (x / d) <= x < d * (x / d) + d
  {
    assert x == d * (x / d) + x % d;
  }

  /** The quotient is the one `q` that brackets the dividend. */
  lemma DivIs(x: nat, d: nat, q: int)
    requires d > 0 && d * q <= x < d * q + d
    ensures x / d == q
  {
    DivBounds(x, d);
    var q' := x / d;
    if q' < q {
      assert d * (q' + 1) == d * q' + d;
      MulMonotone(d, q' + 1, q);
    } else if q' > q {
      assert d * (q + 1) == d * q + d;
      MulMonotone(d, q + 1, q');
    }
  }

  /** Dividing by `a` and then by `b` is dividing by `a * b`. */
  lemma DivDiv(x: nat, a: nat, b: nat)
    requires a > 0 && b > 0
    ensures x / (a * b) == (x / a) / b
  {
    var q, r := (x / a) / b, (x / a) % b;
    var s := x % a;
    assert x / a == b * q + r;
    assert x == a * (x / a) + s;
    assert x == a * (b * q) + a * r + s;
    assert a * (b * q) == (a * b) * q;
    MulMonotone(a, r, b - 1);
    assert a * (b - 1) == a * b - a;
    DivIs(x, a * b, q);
  }
}
