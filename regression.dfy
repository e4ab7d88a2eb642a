/** The five regression drivers (linearRegression, logRegression,
    exponentialRegression, quadraticRegression, polyRegression) and the degree
    check of the main menu. Each driver either rejects the dataset, recording why,
    or reports coefficients and their R². The functions state
    what a driver reports; the methods run the drivers' loops over a dataset and
    are proved to report exactly that. */
module Regression {
  import opened Numeric
  import opened Datasets
  import opened Models
  import opened GoodnessOfFit
  import opened LinearSystem
  import opened ClosedForm
  import opened NormalEquations

  /** Why a driver declines to fit. Each case records the condition that failed;
      the message the program prints shows only part of it: the required count
      for the first four drivers, no number for polyRegression and the menu,
      and the index and value for a non-positive x or y. */
  datatype Error =
    | TooFewPoints(required: nat, available: nat)
    | NonPositiveX(index: nat, x: real)
    | NonPositiveY(index: nat, y: real)
    | DegreeOutOfRange(degree: int, maximum: int)

  /** What a driver reports: the coefficients it prints and R², or an error. */
  datatype Outcome =
    | Fitted(coeff: seq<real>, r2: real)
    | Rejected(error: Error)

  /** The index the validity loops stop at: the first value that is not
      positive, or |s| when every value is positive. */
  function FirstNonPositive(s: seq<real>): (r: nat)
    ensures r <= |s|
    ensures forall i :: 0 <= i < r ==> s[i] > 0.0
    ensures r < |s| ==> s[r] <= 0.0
  {
    if |s| == 0 then 0
    else if s[0] <= 0.0 then 0
    else 1 + FirstNonPositive(s[1..])
  }

  /** The two properties above single out FirstNonPositive. */
  lemma FirstNonPositiveIs(s: seq<real>, i: nat)
    requires i <= |s| && (forall t :: 0 <= t < i ==> s[t] > 0.0) && (i < |s| ==> s[i] <= 0.0)
    ensures FirstNonPositive(s) == i
  {
  }

  // ------------------------------------------------------ what each driver reports

  /** linearRegression (lines 115-155). */
  function LinearFit(xs: seq<real>, ys: seq<real>): (r: Outcome)
    requires |xs| == |ys|
    ensures r.Rejected? <==> |xs| < 2
    ensures r.Rejected? ==> r.error == TooFewPoints(2, |xs|)
    ensures r.Fitted? ==> |r.coeff| == 2 && r.r2 <= 1.0
  {
    if |xs| < 2 then Rejected(TooFewPoints(2, |xs|))
    else
      var coeff := FitLine(xs, ys);
      R2AtMostOne(Linear, xs, ys, coeff);
      Fitted(coeff, R2(Linear, xs, ys, coeff))
  }

  /** logRegression (lines 157-205): the line y = a + b·ln(x). */
  function LogFit(ln: real -> real, xs: seq<real>, ys: seq<real>): (r: Outcome)
    requires |xs| == |ys|
    ensures |xs| < 2 <==> r == Rejected(TooFewPoints(2, |xs|))
    ensures |xs| >= 2 ==> (r.Fitted? <==> forall i :: 0 <= i < |xs| ==> xs[i] > 0.0)
    ensures r.Rejected? && |xs| >= 2 ==>
      (r.error.NonPositiveX? && r.error.index < |xs| && r.error.x == xs[r.error.index] <= 0.0 &&
       forall t :: 0 <= t < r.error.index ==> xs[t] > 0.0)
    ensures r.Fitted? ==> |r.coeff| == 2 && r.r2 <= 1.0
  {
    if |xs| < 2 then Rejected(TooFewPoints(2, |xs|))
    else
      var bad := FirstNonPositive(xs);
      if bad < |xs| then Rejected(NonPositiveX(bad, xs[bad]))
      else
        var coeff := FitLine(Map(ln, xs), ys);
        R2AtMostOne(Logarithmic(ln), xs, ys, coeff);
        Fitted(coeff, R2(Logarithmic(ln), xs, ys, coeff))
  }

  /** exponentialRegression (lines 207-256): the line ln(y) = A + B·x, reported
      as y = e^A · e^(B·x). */
  function ExponentialFit(ln: real -> real, exp: real -> real, xs: seq<real>, ys: seq<real>): (r: Outcome)
    requires |xs| == |ys|
    ensures |xs| < 2 <==> r == Rejected(TooFewPoints(2, |xs|))
    ensures |xs| >= 2 ==> (r.Fitted? <==> forall i :: 0 <= i < |ys| ==> ys[i] > 0.0)
    ensures r.Rejected? && |xs| >= 2 ==>
      (r.error.NonPositiveY? && r.error.index < |ys| && r.error.y == ys[r.error.index] <= 0.0 &&
       forall t :: 0 <= t < r.error.index ==> ys[t] > 0.0)
    ensures r.Fitted? ==> |r.coeff| == 2 && r.r2 <= 1.0
  {
    if |xs| < 2 then Rejected(TooFewPoints(2, |xs|))
    else
      var bad := FirstNonPositive(ys);
      if bad < |ys| then Rejected(NonPositiveY(bad, ys[bad]))
      else
        var line := FitLine(xs, Map(ln, ys));
        var coeff := [exp(line[0]), line[1]];
        R2AtMostOne(Exponential(exp), xs, ys, coeff);
        Fitted(coeff, R2(Exponential(exp), xs, ys, coeff))
  }

  /** quadraticRegression (lines 258-315): the normal equations of degree 2,
      eliminated without pivoting. The source divides by the pivots unguarded,
      so the system must be one whose pivots are all non-zero. */
  function QuadraticFit(xs: seq<real>, ys: seq<real>): (r: Outcome)
    requires |xs| == |ys|
    requires |xs| >= 3 ==> PivotsNonZero(NormalMatrix(xs, ys, 2), 3, 0, false)
    ensures r.Rejected? <==> |xs| < 3
    ensures r.Rejected? ==> r.error == TooFewPoints(3, |xs|)
    ensures r.Fitted? ==> |r.coeff| == 3 && Solves(NormalMatrix(xs, ys, 2), 3, r.coeff) && r.r2 <= 1.0
  {
    if |xs| < 3 then Rejected(TooFewPoints(3, |xs|))
    else
      var coeff := Solve(NormalMatrix(xs, ys, 2), 3, false);
      SolveCorrect(NormalMatrix(xs, ys, 2), 3, false);
      R2AtMostOne(Quadratic, xs, ys, coeff);
      Fitted(coeff, R2(Quadratic, xs, ys, coeff))
  }

  /** The vector polyRegression hands to polyModel: the degree, then the
      solution of the normal equations, lowest order first. That solution solves
      them, and polyModel reads every coefficient of it back. */
  function PolynomialCoefficients(xs: seq<real>, ys: seq<real>, degree: nat): (coeff: seq<real>)
    requires |xs| == |ys| && PivotsNonZero(NormalMatrix(xs, ys, degree), degree + 1, 0, true)
    ensures |coeff| == degree + 2 && coeff[0] == degree as real
    ensures Solves(NormalMatrix(xs, ys, degree), degree + 1, coeff[1..])
    ensures Accepts(Polynomial, coeff) && Trunc(coeff[0]) == degree
  {
    var M := NormalMatrix(xs, ys, degree);
    var coeff := [degree as real] + Solve(M, degree + 1, true);
    SolveCorrect(M, degree + 1, true);
    assert coeff[1..] == Solve(M, degree + 1, true);
    assert Trunc(degree as real) == degree;
    coeff
  }

  /** polyRegression (lines 317-412): the normal equations of the given degree,
      eliminated with partial pivoting; coeff[0] holds the degree, the
      coefficients follow lowest order first. */
  function PolynomialFit(xs: seq<real>, ys: seq<real>, degree: nat): (r: Outcome)
    requires |xs| == |ys|
    requires |xs| > degree ==> PivotsNonZero(NormalMatrix(xs, ys, degree), degree + 1, 0, true)
    ensures r.Rejected? <==> |xs| <= degree
    ensures r.Rejected? ==> r.error == TooFewPoints(degree + 1, |xs|)
    ensures r.Fitted? ==> r.coeff == PolynomialCoefficients(xs, ys, degree) && r.r2 <= 1.0
  {
    if |xs| <= degree then Rejected(TooFewPoints(degree + 1, |xs|))
    else
      var coeff := PolynomialCoefficients(xs, ys, degree);
      R2AtMostOne(Polynomial, xs, ys, coeff);
      Fitted(coeff, R2(Polynomial, xs, ys, coeff))
  }

  /** Menu entry 5 (lines 583-593): the degree read from the user must lie in
      1 .. size-1 before polyRegression runs. */
  function PolynomialMenu(xs: seq<real>, ys: seq<real>, degree: int): (r: Outcome)
    requires |xs| == |ys|
    requires 1 <= degree <= |xs| - 1 ==> PivotsNonZero(NormalMatrix(xs, ys, degree), degree + 1, 0, true)
    ensures r.Rejected? <==> !(1 <= degree <= |xs| - 1)
    ensures r.Rejected? ==> r.error == DegreeOutOfRange(degree, |xs| - 1)
    ensures r.Fitted? ==> |r.coeff| == degree + 2 && r.coeff[0] == degree as real
  {
    if degree < 1 || degree > |xs| - 1 then Rejected(DegreeOutOfRange(degree, |xs| - 1))
    else PolynomialFit(xs, ys, degree)
  }

  // ------------------------------------------------------------- the drivers

  /** The accumulation loop the three closed-form drivers share: n = |us|,
      Σu, Σv, Σu² and Σu·v over the transformed points (u, v). */
  method LineSums(us: seq<real>, vs: seq<real>) returns (su: real, sv: real, suu: real, suv: real)
    requires |us| == |vs|
    ensures su == Sum(us) && sv == Sum(vs) && suu == SumProd(us, us) && suv == SumProd(us, vs)
  {
    su, sv, suu, suv := 0.0, 0.0, 0.0, 0.0;
    var i := 0;
    while i < |us|
      invariant 0 <= i <= |us|
      invariant su == Sum(us[..i]) && sv == Sum(vs[..i])
      invariant suu == SumProd(us[..i], us[..i]) && suv == SumProd(us[..i], vs[..i])
    {
      var u, v := us[i], vs[i];
      var uu, uv := u * u, u * v;
      SumStep(us, i);
      SumStep(vs, i);
      SumProdStep(us, us, i, suu, uu);
      SumProdStep(us, vs, i, suv, uv);
      su, sv, suu, suv := su + u, sv + v, suu + uu, suv + uv;
      i := i + 1;
    }
    assert us[..i] == us && vs[..i] == vs;
  }

  /** The validity loops of logRegression (lines 163-169) and
      exponentialRegression (lines 213-219): the first of a[0 .. n-1] that is
      not positive, or n. */
  method FindNonPositive(a: array<real>, n: nat) returns (i: nat)
    requires n <= a.Length
    ensures i == FirstNonPositive(a[..n])
  {
    i := 0;
    while i < n
      invariant 0 <= i <= n
      invariant forall t :: 0 <= t < i ==> a[t] > 0.0
    {
      if a[i] <= 0.0 {
        FirstNonPositiveIs(a[..n], i);
        return;
      }
      i := i + 1;
    }
    FirstNonPositiveIs(a[..n], n);
  }

  /** linearRegression: the sums over (x, y) (lines 128-140) and the closed
      form (lines 143-145). */
  method LinearRegression(ds: Dataset) returns (r: Outcome)
    requires ds.Valid()
    ensures r == LinearFit(ds.Xs(), ds.Ys())
  {
    if ds.size < 2 {
      return Rejected(TooFewPoints(2, ds.size));
    }
    var xs, ys := ds.x[..ds.size], ds.y[..ds.size];
    var sumX, sumY, sumX2, sumXY := LineSums(xs, ys);
    var coeff := LineCoefficients(ds.size as real, sumX, sumY, sumX2, sumXY);
    var r2 := CalculateR2(ds, Linear, coeff);
    r := Fitted(coeff, r2);
  }

  /** logRegression: the check for x <= 0 (lines 163-169), the sums over
      (ln x, y) (lines 179-190) and the closed form (lines 193-195). */
  method LogRegression(ds: Dataset, ln: real -> real) returns (r: Outcome)
    requires ds.Valid()
    ensures r == LogFit(ln, ds.Xs(), ds.Ys())
  {
    if ds.size < 2 {
      return Rejected(TooFewPoints(2, ds.size));
    }
    var bad := FindNonPositive(ds.x, ds.size);
    if bad < ds.size {
      return Rejected(NonPositiveX(bad, ds.x[bad]));
    }
    var xs, ys := ds.x[..ds.size], ds.y[..ds.size];
    var sumLnX, sumY, sumLnX2, sumLnXY := LineSums(Map(ln, xs), ys);
    var coeff := LineCoefficients(ds.size as real, sumLnX, sumY, sumLnX2, sumLnXY);
    var r2 := CalculateR2(ds, Logarithmic(ln), coeff);
    r := Fitted(coeff, r2);
  }

  /** exponentialRegression: the check for y <= 0 (lines 213-219), the sums
      over (x, ln y) (lines 229-240) and the closed form with a = e^A
      (lines 243-246). */
  method ExponentialRegression(ds: Dataset, ln: real -> real, exp: real -> real) returns (r: Outcome)
    requires ds.Valid()
    ensures r == ExponentialFit(ln, exp, ds.Xs(), ds.Ys())
  {
    if ds.size < 2 {
      return Rejected(TooFewPoints(2, ds.size));
    }
    var bad := FindNonPositive(ds.y, ds.size);
    if bad < ds.size {
      return Rejected(NonPositiveY(bad, ds.y[bad]));
    }
    var xs, ys := ds.x[..ds.size], ds.y[..ds.size];
    var sumX, sumLnY, sumX2, sumXLnY := LineSums(xs, Map(ln, ys));
    var line := LineCoefficients(ds.size as real, sumX, sumLnY, sumX2, sumXLnY);
    var coeff := [exp(line[0]), line[1]];
    var r2 := CalculateR2(ds, Exponential(exp), coeff);
    r := Fitted(coeff, r2);
  }

  /** The products quadraticRegression forms for each point are its powers. */
  lemma LowPowers(x: real, x2: real, x3: real, x4: real)
    requires x2 == x * x && x3 == x2 * x && x4 == x2 * x2
    ensures Pow(x, 0) == 1.0 && Pow(x, 1) == x && Pow(x, 2) == x2 && Pow(x, 3) == x3 && Pow(x, 4) == x4
  {
    assert Pow(x, 1) == x * Pow(x, 0);
    assert Pow(x, 2) == x * Pow(x, 1);
    assert Pow(x, 3) == x * Pow(x, 2);
    assert Pow(x, 4) == x * Pow(x, 3);
  }

  /** quadraticRegression's loop (lines 272-282): Σx, Σx², Σx³, Σx⁴, Σy, Σxy, Σx²y. */
  method QuadraticSums(xs: seq<real>, ys: seq<real>)
    returns (sx: real, sx2: real, sx3: real, sx4: real, sy: real, sxy: real, sx2y: real)
    requires |xs| == |ys|
    ensures sx == PowerSum(xs, 1) && sx2 == PowerSum(xs, 2) && sx3 == PowerSum(xs, 3) && sx4 == PowerSum(xs, 4)
    ensures sy == MomentSum(xs, ys, 0) && sxy == MomentSum(xs, ys, 1) && sx2y == MomentSum(xs, ys, 2)
  {
    sx, sx2, sx3, sx4, sy, sxy, sx2y := 0.0, 0.0, 0.0, 0.0, 0.0, 0.0, 0.0;
    var i := 0;
    while i < |xs|
      invariant 0 <= i <= |xs|
      invariant sx == PowerSum(xs[..i], 1) && sx2 == PowerSum(xs[..i], 2)
      invariant sx3 == PowerSum(xs[..i], 3) && sx4 == PowerSum(xs[..i], 4)
      invariant sy == MomentSum(xs[..i], ys[..i], 0) && sxy == MomentSum(xs[..i], ys[..i], 1)
      invariant sx2y == MomentSum(xs[..i], ys[..i], 2)
    {
      var xi, yi := xs[i], ys[i];
      var xi2 := xi * xi;
      var xi3, xi4 := xi2 * xi, xi2 * xi2;
      var xiyi, xi2yi := xi * yi, xi2 * yi;
      LowPowers(xi, xi2, xi3, xi4);
      PowerSumStep(xs, 1, i, sx, xi);
      PowerSumStep(xs, 2, i, sx2, xi2);
      PowerSumStep(xs, 3, i, sx3, xi3);
      PowerSumStep(xs, 4, i, sx4, xi4);
      MomentSumStep(xs, ys, 0, i, sy, yi);
      MomentSumStep(xs, ys, 1, i, sxy, xiyi);
      MomentSumStep(xs, ys, 2, i, sx2y, xi2yi);
      sx, sx2, sx3, sx4 := sx + xi, sx2 + xi2, sx3 + xi3, sx4 + xi4;
      sy, sxy, sx2y := sy + yi, sxy + xiyi, sx2y + xi2yi;
      i := i + 1;
    }
    assert xs[..i] == xs && ys[..i] == ys;
  }

  /** The matrix quadraticRegression initialises (lines 286-290) is the normal
      matrix of degree 2. */
  lemma QuadraticNormalMatrix(xs: seq<real>, ys: seq<real>,
                              sx: real, sx2: real, sx3: real, sx4: real, sy: real, sxy: real, sx2y: real)
    requires |xs| == |ys|
    requires sx == PowerSum(xs, 1) && sx2 == PowerSum(xs, 2) && sx3 == PowerSum(xs, 3) && sx4 == PowerSum(xs, 4)
    requires sy == MomentSum(xs, ys, 0) && sxy == MomentSum(xs, ys, 1) && sx2y == MomentSum(xs, ys, 2)
    ensures NormalMatrix(xs, ys, 2) ==
      [[|xs| as real, sx, sx2, sy], [sx, sx2, sx3, sxy], [sx2, sx3, sx4, sx2y]]
  {
    var M := NormalMatrix(xs, ys, 2);
    assert M[0] == [|xs| as real, sx, sx2, sy];
    assert M[1] == [sx, sx2, sx3, sxy];
    assert M[2] == [sx2, sx3, sx4, sx2y];
  }

  /** quadraticRegression's explicit back-substitution (lines 303-305) is
      BackFrom on three unknowns. */
  lemma BackSubstitutionOfThree(U: Matrix, a: real, b: real, c: real)
    requires IsAugmented(U, 3) && U[0][0] != 0.0 && U[1][1] != 0.0 && U[2][2] != 0.0
    requires c == U[2][3] / U[2][2]
    requires b == (U[1][3] - U[1][2] * c) / U[1][1]
    requires a == (U[0][3] - U[0][2] * c - U[0][1] * b) / U[0][0]
    ensures BackFrom(U, 3, 0) == [a, b, c]
  {
    var c2 := BackFrom(U, 3, 2);
    assert c2 == [0.0, 0.0, c];
    var c1 := BackFrom(U, 3, 1);
    assert Dot(U[1], c2, 2, 3) == U[1][2] * c;
    assert c1 == [0.0, b, c];
    assert Dot(U[0], c1, 1, 3) == U[0][1] * b + U[0][2] * c;
  }

  /** Lines 270-290: the sums and the 3×4 augmented system, in a fresh array. */
  method QuadraticSystem(ds: Dataset) returns (A: array2<real>)
    requires ds.Valid()
    ensures fresh(A) && A.Length0 == 3
    ensures Holds(A, NormalMatrix(ds.Xs(), ds.Ys(), 2))
  {
    var xs, ys := ds.x[..ds.size], ds.y[..ds.size];
    var sx, sx2, sx3, sx4, sy, sxy, sx2y := QuadraticSums(xs, ys);
    var rows := [[ds.size as real, sx, sx2, sy], [sx, sx2, sx3, sxy], [sx2, sx3, sx4, sx2y]];
    QuadraticNormalMatrix(xs, ys, sx, sx2, sx3, sx4, sy, sxy, sx2y);
    A := new real[3, 4]((i, j) requires 0 <= i < 3 && 0 <= j < 4 => rows[i][j]);
  }

  /** Lines 303-305: c, then b, then a, read off the eliminated 3×4 system. */
  method BackSubstituteThree(A: array2<real>, ghost U: Matrix) returns (coeff: seq<real>)
    requires A.Length0 == 3 && Holds(A, U) && NonZeroDiagonal(U, 3)
    ensures coeff == BackFrom(U, 3, 0)
  {
    var c := A[2, 3] / A[2, 2];
    var b := (A[1, 3] - A[1, 2] * c) / A[1, 1];
    var a := (A[0, 3] - A[0, 2] * c - A[0, 1] * b) / A[0, 0];
    BackSubstitutionOfThree(U, a, b, c);
    coeff := [a, b, c];
  }

  /** What forward elimination leaves of a system whose pivots are non-zero. */
  lemma Eliminated(M: Matrix, n: nat, pivoting: bool) returns (U: Matrix)
    requires IsAugmented(M, n) && PivotsNonZero(M, n, 0, pivoting)
    ensures U == Forward(M, n, 0, pivoting) && NonZeroDiagonal(U, n)
    ensures BackFrom(U, n, 0) == Solve(M, n, pivoting)
  {
    ForwardShape(M, n, 0, pivoting);
    U := Forward(M, n, 0, pivoting);
  }

  /** quadraticRegression: the sums, the 3×4 system, elimination without
      pivoting (lines 293-300) and back-substitution (lines 303-305). */
  method QuadraticRegression(ds: Dataset) returns (r: Outcome)
    requires ds.Valid()
    requires ds.size >= 3 ==> PivotsNonZero(NormalMatrix(ds.Xs(), ds.Ys(), 2), 3, 0, false)
    ensures r == QuadraticFit(ds.Xs(), ds.Ys())
  {
    if ds.size < 3 {
      return Rejected(TooFewPoints(3, ds.size));
    }
    ghost var xs, ys := ds.Xs(), ds.Ys();
    ghost var M := NormalMatrix(xs, ys, 2);
    var A := QuadraticSystem(ds);
    Eliminate(A, 3, false, M);
    ghost var U := Eliminated(M, 3, false);
    var coeff := BackSubstituteThree(A, U);
    assert coeff == Solve(M, 3, false);
    var r2 := CalculateR2(ds, Quadratic, coeff);
    r := Fitted(coeff, r2);
  }

  /** Lines 380-390: coeff[0] holds the degree, back-substitution fills the rest. */
  method StoreCoefficients(A: array2<real>, degree: nat, ghost U: Matrix) returns (cs: seq<real>)
    requires A.Length0 == degree + 1 && Holds(A, U) && NonZeroDiagonal(U, degree + 1)
    ensures cs == [degree as real] + BackFrom(U, degree + 1, 0)
  {
    var coeff := new real[degree + 2];
    coeff[0] := degree as real;
    BackSubstitute(A, degree + 1, U, coeff);
    cs := coeff[..];
    assert cs == [coeff[0]] + coeff[1..];
  }

  /** polyRegression past its size check: the normal equations (lines
      323-350), elimination with partial pivoting (lines 353-378) and the
      coefficients (lines 380-390). */
  method SolvePolynomial(ds: Dataset, degree: nat) returns (coeff: seq<real>)
    requires ds.Valid() && ds.size > degree
    requires PivotsNonZero(NormalMatrix(ds.Xs(), ds.Ys(), degree), degree + 1, 0, true)
    ensures coeff == PolynomialCoefficients(ds.Xs(), ds.Ys(), degree)
  {
    ghost var M := NormalMatrix(ds.Xs(), ds.Ys(), degree);
    var A := BuildNormalMatrix(ds, degree);
    Eliminate(A, degree + 1, true, M);
    ghost var U := Eliminated(M, degree + 1, true);
    coeff := StoreCoefficients(A, degree, U);
  }

  /** polyRegression (lines 317-412): the size check, the coefficients, then R²
      under polyModel (line 409). */
  method PolynomialRegression(ds: Dataset, degree: nat) returns (r: Outcome)
    requires ds.Valid()
    requires ds.size > degree ==> PivotsNonZero(NormalMatrix(ds.Xs(), ds.Ys(), degree), degree + 1, 0, true)
    ensures r == PolynomialFit(ds.Xs(), ds.Ys(), degree)
  {
    if ds.size <= degree {
      return Rejected(TooFewPoints(degree + 1, ds.size));
    }
    var coeff := SolvePolynomial(ds, degree);
    var r2 := CalculateR2(ds, Polynomial, coeff);
    r := Fitted(coeff, r2);
  }
}
