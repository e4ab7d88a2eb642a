/** The 2×2 least-squares closed form that linearRegression, logRegression and
    exponentialRegression share: the line v = a + b·u through points (u, v),
    computed from n, Σu, Σv, Σu² and Σu·v with the safe division. */
module ClosedForm {
  import opened Numeric

  /** The determinant n·Σu² − (Σu)² of the 2×2 normal equations. */
  function Determinant(n: real, su: real, suu: real): real
  {
    n * suu - su * su
  }

  /** [a, b] by Cramer's rule, each quotient through safeDiv: a degenerate
      determinant yields the zero line. */
  function LineCoefficients(n: real, su: real, sv: real, suu: real, suv: real): (c: seq<real>)
    ensures |c| == 2
    ensures Abs(Determinant(n, su, suu)) < Epsilon ==> c == [0.0, 0.0]
  {
    var denom := Determinant(n, su, suu);
    [SafeDiv(sv * suu - su * suv, denom), SafeDiv(n * suv - su * sv, denom)]
  }

  /** The least-squares line through the points (us[i], vs[i]). */
  function FitLine(us: seq<real>, vs: seq<real>): (c: seq<real>)
    requires |us| == |vs|
    ensures |c| == 2
  {
    LineCoefficients(|us| as real, Sum(us), Sum(vs), SumProd(us, us), SumProd(us, vs))
  }

  lemma CancelNonZero(x: real, y: real, d: real)
    requires d != 0.0 && x * d == y * d
    ensures x == y
  {
  }

  lemma QuotientIsUnique(q: real, num: real, d: real)
    requires d != 0.0 && q * d == num
    ensures q == num / d
  {
  }

  /** With a usable determinant, the closed form satisfies both normal equations
      n·a + Σu·b = Σv and Σu·a + Σu²·b = Σuv. */
  lemma LineSolvesNormalEquations(n: real, su: real, sv: real, suu: real, suv: real)
    requires Abs(Determinant(n, su, suu)) >= Epsilon
    ensures var c := LineCoefficients(n, su, sv, suu, suv);
      n * c[0] + su * c[1] == sv && su * c[0] + suu * c[1] == suv
  {
    var d := Determinant(n, su, suu);
    var c := LineCoefficients(n, su, sv, suu, suv);
    var a, b := c[0], c[1];
    assert a * d == sv * suu - su * suv;
    assert b * d == n * suv - su * sv;
    calc {
      (n * a + su * b) * d;
      n * (a * d) + su * (b * d);
      n * (sv * suu - su * suv) + su * (n * suv - su * sv);
      sv * (n * suu - su * su);
      sv * d;
    }
    CancelNonZero(n * a + su * b, sv, d);
    calc {
      (su * a + suu * b) * d;
      su * (a * d) + suu * (b * d);
      su * (sv * suu - su * suv) + suu * (n * suv - su * sv);
      suv * (n * suu - su * su);
      suv * d;
    }
    CancelNonZero(su * a + suu * b, suv, d);
  }

  /** With a usable determinant, the closed form is the only solution of the
      normal equations. */
  lemma LineIsUnique(n: real, su: real, sv: real, suu: real, suv: real, a: real, b: real)
    requires Abs(Determinant(n, su, suu)) >= Epsilon
    requires n * a + su * b == sv && su * a + suu * b == suv
    ensures LineCoefficients(n, su, sv, suu, suv) == [a, b]
  {
    var d := Determinant(n, su, suu);
    assert d != 0.0;
    calc {
      a * d;
      suu * (n * a + su * b) - su * (su * a + suu * b);
      suu * sv - su * suv;
    }
    QuotientIsUnique(a, sv * suu - su * suv, d);
    calc {
      b * d;
      n * (su * a + suu * b) - su * (n * a + su * b);
      n * suv - su * sv;
    }
    QuotientIsUnique(b, n * suv - su * sv, d);
  }

  /** Every point (us[i], vs[i]) lies on the line v = a + b·u. */
  predicate OnLine(us: seq<real>, vs: seq<real>, a: real, b: real)
    requires |us| == |vs|
  {
    forall i :: 0 <= i < |us| ==> vs[i] == a + b * us[i]
  }

  lemma OnLinePrefix(us: seq<real>, vs: seq<real>, a: real, b: real)
    requires |us| == |vs| > 0 && OnLine(us, vs, a, b)
    ensures OnLine(us[..|us| - 1], vs[..|vs| - 1], a, b)
    ensures vs[|vs| - 1] == a + b * us[|us| - 1]
  {
  }

  /** A point (u, v) on the line, added to sums that satisfy a normal equation. */
  lemma AddToLine(p0: real, q0: real, r0: real, p: real, q: real, c: real, d: real, a: real, b: real)
    requires r0 == Mul(p0, a) + Mul(q0, b) && p == p0 + c && q == q0 + d
    ensures r0 + (Mul(c, a) + Mul(d, b)) == Mul(p, a) + Mul(q, b)
  {
  }

  /** The share of one point (u, v) on the line in Σv and in Σu·v. */
  lemma PointOnLine(u: real, v: real, a: real, b: real)
    requires v == a + b * u
    ensures v == Mul(1.0, a) + Mul(u, b)
    ensures Mul(u, v) == Mul(u, a) + Mul(Mul(u, u), b)
  {
  }

  /** Σv over points on the line v = a + b·u is n·a + Σu·b. */
  lemma {:induction false} SumOnLine(us: seq<real>, vs: seq<real>, a: real, b: real)
    requires |us| == |vs| && OnLine(us, vs, a, b)
    ensures Sum(vs) == Mul(|us| as real, a) + Mul(Sum(us), b)
  {
    if |us| > 0 {
      OnLinePrefix(us, vs, a, b);
      var front, vfront := us[..|us| - 1], vs[..|vs| - 1];
      SumOnLine(front, vfront, a, b);
      var u := us[|us| - 1];
      PointOnLine(u, vs[|vs| - 1], a, b);
      AddToLine(|front| as real, Sum(front), Sum(vfront), |us| as real, Sum(us), 1.0, u, a, b);
    }
  }

  /** Σu·v over points on the line v = a + b·u is Σu·a + Σu²·b. */
  lemma {:induction false} MomentOnLine(us: seq<real>, vs: seq<real>, a: real, b: real)
    requires |us| == |vs| && OnLine(us, vs, a, b)
    ensures SumProd(us, vs) == Mul(Sum(us), a) + Mul(SumProd(us, us), b)
  {
    if |us| > 0 {
      OnLinePrefix(us, vs, a, b);
      var front, vfront := us[..|us| - 1], vs[..|vs| - 1];
      MomentOnLine(front, vfront, a, b);
      var u := us[|us| - 1];
      SumProdLast(us, us);
      SumProdLast(us, vs);
      PointOnLine(u, vs[|vs| - 1], a, b);
      AddToLine(Sum(front), SumProd(front, front), SumProd(front, vfront), Sum(us), SumProd(us, us), u, Mul(u, u), a, b);
    }
  }

  /** Helper of FitLineExact: LineIsUnique with the normal equations written
      through Mul, the form SumOnLine and MomentOnLine produce. */
  lemma BalancedLine(n: real, su: real, sv: real, suu: real, suv: real, a: real, b: real)
    requires Abs(Determinant(n, su, suu)) >= Epsilon
    requires sv == Mul(n, a) + Mul(su, b) && suv == Mul(su, a) + Mul(suu, b)
    ensures LineCoefficients(n, su, sv, suu, suv) == [a, b]
  {
    LineIsUnique(n, su, sv, suu, suv, a, b);
  }

  /** Points exactly on a line, with a usable determinant, give back that line. */
  lemma FitLineExact(us: seq<real>, vs: seq<real>, a: real, b: real)
    requires |us| == |vs| && OnLine(us, vs, a, b)
    requires Abs(Determinant(|us| as real, Sum(us), SumProd(us, us))) >= Epsilon
    ensures FitLine(us, vs) == [a, b]
  {
    SumOnLine(us, vs, a, b);
    MomentOnLine(us, vs, a, b);
    BalancedLine(|us| as real, Sum(us), Sum(vs), SumProd(us, us), SumProd(us, vs), a, b);
  }
}
