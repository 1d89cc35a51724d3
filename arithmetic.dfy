/** Facts about multiplication and Euclidean division of naturals, each proved from the
    monotonicity of multiplication alone so that the solver never searches nonlinear terms. */
module Arithmetic {

  /** Multiplying by a positive number preserves strict order, in both directions. */
  lemma MulLessIff(d: nat, x: nat, y: nat)
    requires 0 < d
    ensures d * x < d * y <==> x < y
  {
  }

  /** Euclidean division is determined by any quotient-remainder decomposition. */
  lemma DivUnique(a: nat, d: nat, q: nat, r: nat)
    requires 0 < d && r < d && a == d * q + r
    ensures a / d == q
  {
    var q', r' := a / d, a % d;
    assert a == d * q' + r';
    assert d * (q' + 1) == d * q' + d;
    assert d * (q + 1) == d * q + d;
    MulLessIff(d, q', q + 1);
    MulLessIff(d, q, q' + 1);
  }

  /** A quotient is at most any bound the dividend does not exceed per divisor unit. */
  lemma DivAtMost(a: nat, d: nat, c: nat)
    requires 0 < d && a <= d * c
    ensures a / d <= c
  {
    var q := a / d;
    assert a == d * q + a % d;
    assert d * (c + 1) == d * c + d;
    MulLessIff(d, q, c + 1);
  }

  /** A larger divisor gives a smaller quotient. */
  lemma DivAntitone(a: nat, d1: nat, d2: nat)
    requires 0 < d1 <= d2
    ensures a / d2 <= a / d1
  {
    var q := a / d2;
    assert a == d2 * q + a % d2;
    assert q * d1 <= q * d2;
    var q1 := a / d1;
    assert a == d1 * q1 + a % d1;
    assert d1 * (q1 + 1) == d1 * q1 + d1;
    MulLessIff(d1, q, q1 + 1);
  }

  /** A floor quotient is below `f` exactly when the dividend is below `f` divisor units. */
  lemma DivLessIff(a: nat, d: nat, f: nat)
    requires 0 < d
    ensures a / d < f <==> a < d * f
  {
    var q := a / d;
    assert a == d * q + a % d;
    assert d * (q + 1) == d * q + d;
    MulLessIff(d, q, f);
    MulLessIff(d, f, q + 1);
  }
}
