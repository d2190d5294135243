/**
  C++ integer division. The built-in `int / int` of C++ truncates its quotient
  toward zero, whereas Dafny's `/` on `int` is Euclidean (its remainder is never
  negative). The two disagree exactly when the dividend is negative and the
  division is inexact: C++ gives -7 / 5 == -1, Dafny gives -7 / 5 == -2.
 */
module CppInt {

  function Abs(a: int): (r: nat)
    ensures r == a || r == -a
  {
    if a < 0 then -a else a
  }

  /** The C++ rule for `q == a / d`: the remainder `a - q * d` is smaller in
      magnitude than the divisor and never has the opposite sign of the
      dividend (C++ [expr.mul]: `(a / d) * d + a % d == a`). */
  ghost predicate IsTruncQuotient(a: int, d: int, q: int) {
    var rem := a - q * d;
    && Abs(rem) < Abs(d)
    && (a >= 0 ==> rem >= 0)
    && (a <= 0 ==> rem <= 0)
  }

  /** C++ `a / d` on `int`, truncating toward zero. */
  function Div(a: int, d: int): (q: int)
    requires d != 0
    ensures IsTruncQuotient(a, d, q)
  {
    if d > 0 then DivByPositive(a, d)
    else
      var q := DivByPositive(a, -d);
      assert a - (-q) * d == a - q * (-d);
      -q
  }

  /** Truncating division by a positive divisor, through Dafny's division of
      the dividend's magnitude. */
  function DivByPositive(a: int, d: int): (q: int)
    requires d > 0
    ensures IsTruncQuotient(a, d, q)
  {
    if a >= 0 then a / d else -((-a) / d)
  }

  /** At most one quotient meets the C++ rule, so `Div` is the C++ operator
      and not merely one operator that happens to satisfy the rule. */
  lemma {:induction false} TruncQuotientUnique(a: int, d: int, q1: int, q2: int)
    requires d != 0
    requires IsTruncQuotient(a, d, q1) && IsTruncQuotient(a, d, q2)
    ensures q1 == q2
  {
    var r1 := a - q1 * d;
    var r2 := a - q2 * d;
    assert (q2 - q1) * d == r1 - r2;
    assert Abs(r1 - r2) < Abs(d);
    if q1 != q2 {
      MagnitudeOfMultiple(q2 - q1, d);
      assert false;
    }
  }

  lemma MagnitudeOfMultiple(k: int, d: int)
    requires k != 0 && d != 0
    ensures Abs(k * d) >= Abs(d)
  {
  }

  /** Truncation is symmetric about zero: negating the dividend negates the
      quotient. Euclidean division lacks this (7 / 5 == 1 but -7 / 5 == -2). */
  lemma DivNegate(a: int, d: int)
    requires d != 0
    ensures Div(-a, d) == -Div(a, d)
  {
  }

  /** Against a positive divisor, C++ division agrees with Dafny's Euclidean
      division except on negative dividends with a non-zero remainder, where
      it is one larger. */
  lemma DivVersusEuclidean(a: int, d: int)
    requires d > 0
    ensures a >= 0 || a % d == 0 ==> Div(a, d) == a / d
    ensures a < 0 && a % d != 0 ==> Div(a, d) == a / d + 1
  {
    var q := a / d;
    var r := a % d;
    assert a == q * d + r && 0 <= r < d;
    if a >= 0 || r == 0 {
      assert a - q * d == r;
      assert IsTruncQuotient(a, d, q);
      TruncQuotientUnique(a, d, Div(a, d), q);
    } else {
      assert a - (q + 1) * d == r - d;
      assert IsTruncQuotient(a, d, q + 1);
      TruncQuotientUnique(a, d, Div(a, d), q + 1);
    }
  }

  /** C++ rounds -7 / 5 toward zero, to -1; Dafny's own operator gives -2. */
  lemma TruncationExamples()
    ensures Div(50, 5) == 10 && Div(4, 5) == 0 && Div(-7, 5) == -1
    ensures -7 / 5 == -2
  {
  }
}
