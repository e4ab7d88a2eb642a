/** How the drivers relate to one another and to data that one of the models
    reproduces exactly. */
module FitProperties {
  import opened Numeric
  import opened Models
  import opened GoodnessOfFit
  import opened LinearSystem
  import opened ClosedForm
  import opened NormalEquations
  import opened Regression

  // ------------------------------------------------------------- exact data

  /** The line model reproduces every point of a line, whatever its argument is
      computed from. */
  lemma LinePredicts(m: Model, us: seq<real>, xs: seq<real>, ys: seq<real>, a: real, b: real)
    requires |us| == |xs| == |ys| && OnLine(us, ys, a, b)
    requires m == Linear ==> us == xs
    requires m.Logarithmic? ==> us == Map(m.ln, xs)
    requires m == Linear || m.Logarithmic?
    ensures forall i :: 0 <= i < |xs| ==> Predict(m, xs[i], [a, b]) == ys[i]
  {
  }

  /** Points on a line with a usable determinant: linearRegression reports
      that line, with R² = 1. */
  lemma LinearExactFit(xs: seq<real>, ys: seq<real>, a: real, b: real)
    requires |xs| == |ys| >= 2 && OnLine(xs, ys, a, b)
    requires Abs(Determinant(|xs| as real, Sum(xs), SumProd(xs, xs))) >= Epsilon
    ensures LinearFit(xs, ys) == Fitted([a, b], 1.0)
  {
    FitLineExact(xs, ys, a, b);
    LinePredicts(Linear, xs, xs, ys, a, b);
    R2OfExactFit(Linear, xs, ys, [a, b]);
  }

  /** Positive x values whose logarithms lie on a line with y: logRegression
      reports that line, with R² = 1. */
  lemma LogExactFit(ln: real -> real, xs: seq<real>, ys: seq<real>, a: real, b: real)
    requires |xs| == |ys| >= 2 && forall i :: 0 <= i < |xs| ==> xs[i] > 0.0
    requires OnLine(Map(ln, xs), ys, a, b)
    requires Abs(Determinant(|xs| as real, Sum(Map(ln, xs)), SumProd(Map(ln, xs), Map(ln, xs)))) >= Epsilon
    ensures LogFit(ln, xs, ys) == Fitted([a, b], 1.0)
  {
    FitLineExact(Map(ln, xs), ys, a, b);
    LinePredicts(Logarithmic(ln), Map(ln, xs), xs, ys, a, b);
    R2OfExactFit(Logarithmic(ln), xs, ys, [a, b]);
  }

  /** Positive y values with ln y = a + b·x at every point, on which the
      exponential model e^a·e^(b·x) is exact too: exponentialRegression reports
      [e^a, b], with R² = 1. (ln and exp are uninterpreted, so the second fact
      does not follow from the first here.) */
  lemma ExponentialExactFit(ln: real -> real, exp: real -> real, xs: seq<real>, ys: seq<real>, a: real, b: real)
    requires |xs| == |ys| >= 2 && forall i :: 0 <= i < |ys| ==> ys[i] > 0.0
    requires OnLine(xs, Map(ln, ys), a, b)
    requires forall i :: 0 <= i < |xs| ==> Predict(Exponential(exp), xs[i], [exp(a), b]) == ys[i]
    requires Abs(Determinant(|xs| as real, Sum(xs), SumProd(xs, xs))) >= Epsilon
    ensures ExponentialFit(ln, exp, xs, ys) == Fitted([exp(a), b], 1.0)
  {
    FitLineExact(xs, Map(ln, ys), a, b);
    R2OfExactFit(Exponential(exp), xs, ys, [exp(a), b]);
  }

  /** Points on a polynomial of the given degree whose normal equations the
      solver can divide through: polyRegression reports that polynomial, with
      R² = 1. */
  lemma PolynomialExactFit(xs: seq<real>, ys: seq<real>, p: seq<real>)
    requires |xs| == |ys| && |p| > 0 && |xs| > |p| - 1 && Interpolates(xs, ys, p)
    requires PivotsNonZero(NormalMatrix(xs, ys, |p| - 1), |p|, 0, true)
    ensures PolynomialFit(xs, ys, |p| - 1) == Fitted([(|p| - 1) as real] + p, 1.0)
  {
    var degree := |p| - 1;
    var M := NormalMatrix(xs, ys, degree);
    NormalEquationsOfExactData(xs, ys, p);
    SolveCorrect(M, degree + 1, true);
    var coeff := PolynomialCoefficients(xs, ys, degree);
    assert coeff[1..] == p;
    assert coeff == [degree as real] + p;
    forall i | 0 <= i < |xs|
      ensures Predict(Polynomial, xs[i], coeff) == ys[i]
    {
      PolyModelDecodesDegree(xs[i], degree, p);
    }
    R2OfExactFit(Polynomial, xs, ys, coeff);
  }

  /** Points on a parabola whose normal equations eliminate without a zero
      pivot: quadraticRegression reports that parabola, with R² = 1. */
  lemma QuadraticExactFit(xs: seq<real>, ys: seq<real>, a: real, b: real, c: real)
    requires |xs| == |ys| >= 3 && Interpolates(xs, ys, [a, b, c])
    requires PivotsNonZero(NormalMatrix(xs, ys, 2), 3, 0, false)
    ensures QuadraticFit(xs, ys) == Fitted([a, b, c], 1.0)
  {
    NormalEquationsOfExactData(xs, ys, [a, b, c]);
    SolveCorrect(NormalMatrix(xs, ys, 2), 3, false);
    forall i | 0 <= i < |xs|
      ensures Predict(Quadratic, xs[i], [a, b, c]) == ys[i]
    {
      QuadraticIsPolynomial(xs[i], a, b, c);
      PolyModelDecodesDegree(xs[i], 2, [a, b, c]);
      assert [2 as real] + [a, b, c] == [2.0, a, b, c];
    }
    R2OfExactFit(Quadratic, xs, ys, [a, b, c]);
  }

  // ---------------------------------------------------- degenerate data

  /** Helper of LinearOfConstantX: n·(n·c²) − (n·c)² is zero. */
  lemma NoSpread(n: real, c: real, su: real, suu: real)
    requires su == n * c && suu == Mul(n, Mul(c, c))
    ensures Determinant(n, su, suu) == 0.0
  {
  }

  /** When every x is the same the determinant is zero, and the safe division
      makes linearRegression report the zero line. */
  lemma LinearOfConstantX(xs: seq<real>, ys: seq<real>, c: real)
    requires |xs| == |ys| >= 2 && forall i :: 0 <= i < |xs| ==> xs[i] == c
    ensures LinearFit(xs, ys).coeff == [0.0, 0.0]
  {
    SumConstant(xs, c);
    SumProdSelfConstant(xs, c);
    NoSpread(|xs| as real, c, Sum(xs), SumProd(xs, xs));
  }

  // ------------------------------------------ drivers that agree with polyRegression

  /** The closed form solves the 2×2 normal equations it is written for. */
  lemma LineSolvesTwoByTwo(n: real, su: real, sv: real, suu: real, suv: real)
    requires Abs(Determinant(n, su, suu)) >= Epsilon
    ensures Solves([[n, su, sv], [su, suu, suv]], 2, LineCoefficients(n, su, sv, suu, suv))
  {
    LineSolvesNormalEquations(n, su, sv, suu, suv);
    var M := [[n, su, sv], [su, suu, suv]];
    var c := LineCoefficients(n, su, sv, suu, suv);
    assert Dot(M[0], c, 0, 2) == n * c[0] + su * c[1];
    assert Dot(M[1], c, 0, 2) == su * c[0] + suu * c[1];
  }

  /** The normal matrix of degree 1 holds the sums the closed form uses. */
  lemma NormalMatrixOfLine(xs: seq<real>, ys: seq<real>)
    requires |xs| == |ys|
    ensures NormalMatrix(xs, ys, 1) ==
      [[|xs| as real, Sum(xs), Sum(ys)], [Sum(xs), SumProd(xs, xs), SumProd(xs, ys)]]
  {
    PowerSumOne(xs);
    PowerSumTwo(xs);
    MomentSumZero(xs, ys);
    MomentSumOne(xs, ys);
    var M := NormalMatrix(xs, ys, 1);
    assert M[0] == [|xs| as real, Sum(xs), Sum(ys)];
    assert M[1] == [Sum(xs), SumProd(xs, xs), SumProd(xs, ys)];
  }

  /** linearRegression and polyRegression of degree 1 report the same line
      and the same R², whenever both can divide through. */
  lemma LinearAgreesWithPolynomial(xs: seq<real>, ys: seq<real>)
    requires |xs| == |ys| >= 2
    requires Abs(Determinant(|xs| as real, Sum(xs), SumProd(xs, xs))) >= Epsilon
    requires PivotsNonZero(NormalMatrix(xs, ys, 1), 2, 0, true)
    ensures PolynomialFit(xs, ys, 1) == Fitted([1.0] + LinearFit(xs, ys).coeff, LinearFit(xs, ys).r2)
  {
    var line := FitLine(xs, ys);
    NormalMatrixOfLine(xs, ys);
    LineSolvesTwoByTwo(|xs| as real, Sum(xs), Sum(ys), SumProd(xs, xs), SumProd(xs, ys));
    SolveCorrect(NormalMatrix(xs, ys, 1), 2, true);
    var coeff := PolynomialCoefficients(xs, ys, 1);
    assert coeff[1..] == line;
    assert coeff == [1.0] + line;
    forall i | 0 <= i < |xs|
      ensures Predict(Polynomial, xs[i], coeff) == Predict(Linear, xs[i], line)
    {
      LinearIsPolynomial(xs[i], line[0], line[1]);
      assert [1.0, line[0], line[1]] == coeff;
    }
    R2OfAgreeingModels(Polynomial, coeff, Linear, line, xs, ys);
  }

  /** polyModel of degree 2 predicts what quadraticModel predicts, point by point. */
  lemma QuadraticPredictions(xs: seq<real>, parabola: seq<real>, coeff: seq<real>)
    requires |parabola| == 3 && coeff == [2.0] + parabola
    ensures Accepts(Polynomial, coeff)
    ensures forall i :: 0 <= i < |xs| ==> Predict(Polynomial, xs[i], coeff) == Predict(Quadratic, xs[i], parabola)
  {
    assert Trunc(2.0) == 2;
    forall i | 0 <= i < |xs|
      ensures Predict(Polynomial, xs[i], coeff) == Predict(Quadratic, xs[i], parabola)
    {
      QuadraticIsPolynomial(xs[i], parabola[0], parabola[1], parabola[2]);
      assert [2.0, parabola[0], parabola[1], parabola[2]] == coeff;
      assert [parabola[0], parabola[1], parabola[2]] == parabola;
    }
  }

  /** quadraticRegression and polyRegression of degree 2 report the same
      parabola and the same R², whenever both eliminations divide through. */
  lemma QuadraticAgreesWithPolynomial(xs: seq<real>, ys: seq<real>)
    requires |xs| == |ys| >= 3
    requires PivotsNonZero(NormalMatrix(xs, ys, 2), 3, 0, false)
    requires PivotsNonZero(NormalMatrix(xs, ys, 2), 3, 0, true)
    ensures PolynomialFit(xs, ys, 2) == Fitted([2.0] + QuadraticFit(xs, ys).coeff, QuadraticFit(xs, ys).r2)
  {
    var M := NormalMatrix(xs, ys, 2);
    PivotingAgrees(M, 3);
    var parabola := QuadraticFit(xs, ys).coeff;
    var coeff := PolynomialCoefficients(xs, ys, 2);
    assert coeff == [2.0] + coeff[1..];
    QuadraticPredictions(xs, parabola, coeff);
    R2OfAgreeingModels(Polynomial, coeff, Quadratic, parabola, xs, ys);
  }

  // ------------------------------------------------------------- an example

  /** The points (1, 2), (2, 4) and (3, 6) give the line y = 0 + 2·x with
      R² = 1; the determinant is 3·14 − 6² = 6. */
  lemma ThreePointsOnALine()
    ensures LinearFit([1.0, 2.0, 3.0], [2.0, 4.0, 6.0]) == Fitted([0.0, 2.0], 1.0)
  {
    var xs, ys := [1.0, 2.0, 3.0], [2.0, 4.0, 6.0];
    assert xs[..2] == [1.0, 2.0] && xs[..2][..1] == [1.0] && xs[..2][..1][..0] == [];
    assert Sum([1.0]) == 1.0;
    assert Sum([1.0, 2.0]) == 3.0;
    assert Sum(xs) == 6.0;
    assert SumProd([1.0], [1.0]) == 1.0;
    assert SumProd([1.0, 2.0], [1.0, 2.0]) == 5.0;
    assert SumProd(xs, xs) == 14.0;
    assert Determinant(3.0, 6.0, 14.0) == 6.0;
    assert OnLine(xs, ys, 0.0, 2.0);
    LinearExactFit(xs, ys, 0.0, 2.0);
  }
}
