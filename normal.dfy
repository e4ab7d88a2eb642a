/** The normal equations of polynomial least squares, as polyRegression builds
    them (lines 323-350): the power sums X[e] = Σ x^e, the moments Y[e] = Σ x^e·y
    and the Hankel matrix A[i][j] = X[i + j] with A[i][degree + 1] = Y[i]. */
module NormalEquations {
  import opened Numeric
  import opened Models
  import opened LinearSystem
  import opened Datasets

  /** The augmented normal matrix of degree `degree` for the points (xs[k], ys[k]). */
  function NormalMatrix(xs: seq<real>, ys: seq<real>, degree: nat): (M: Matrix)
    requires |xs| == |ys|
    ensures IsAugmented(M, degree + 1)
    ensures forall i, j :: 0 <= i <= degree && 0 <= j <= degree ==> M[i][j] == M[j][i]
    ensures M[0][0] == |xs| as real
  {
    PowerSumZero(xs);
    seq(degree + 1, i requires 0 <= i <= degree =>
      seq(degree + 2, j requires 0 <= j <= degree + 1 =>
        if j <= degree then PowerSum(xs, i + j) else MomentSum(xs, ys, i)))
  }

  // ------------------------------------------------ exact polynomial data

  /** Every point lies on the polynomial with coefficients p (lowest first). */
  predicate Interpolates(xs: seq<real>, ys: seq<real>, p: seq<real>)
    requires |xs| == |ys|
  {
    forall k :: 0 <= k < |xs| ==> ys[k] == Series(p, xs[k], |p|)
  }

  lemma InterpolatesPrefix(xs: seq<real>, ys: seq<real>, p: seq<real>)
    requires |xs| == |ys| > 0 && Interpolates(xs, ys, p)
    ensures Interpolates(xs[..|xs| - 1], ys[..|ys| - 1], p)
    ensures ys[|ys| - 1] == Series(p, xs[|xs| - 1], |p|)
  {
  }

  /** Σ_{j < m} X[i + j]·p[j]: the first m terms of row i of the normal
      equations applied to p. */
  ghost function HankelDot(xs: seq<real>, i: nat, p: seq<real>, m: nat): real
    requires m <= |p|
  {
    if m == 0 then 0.0 else HankelDot(xs, i, p, m - 1) + Mul(PowerSum(xs, i + m - 1), p[m - 1])
  }

  lemma {:induction false} RowIsHankelDot(xs: seq<real>, ys: seq<real>, degree: nat, i: nat, p: seq<real>, m: nat)
    requires |xs| == |ys| && i <= degree && m <= degree + 1 && |p| == degree + 1
    ensures Dot(NormalMatrix(xs, ys, degree)[i], p, 0, m) == HankelDot(xs, i, p, m)
  {
    if m > 0 {
      RowIsHankelDot(xs, ys, degree, i, p, m - 1);
    }
  }

  /** Σ_{j < m} x^(i + j)·p[j]: one point's share of HankelDot. */
  ghost function PointDot(x: real, i: nat, p: seq<real>, m: nat): real
    requires m <= |p|
  {
    if m == 0 then 0.0 else PointDot(x, i, p, m - 1) + Mul(Pow(x, i + m - 1), p[m - 1])
  }

  lemma PowerSumLast(xs: seq<real>, e: nat)
    requires |xs| > 0
    ensures PowerSum(xs, e) == PowerSum(xs[..|xs| - 1], e) + Pow(xs[|xs| - 1], e)
  {
  }

  lemma MomentSumLast(xs: seq<real>, ys: seq<real>, e: nat)
    requires |xs| == |ys| > 0
    ensures MomentSum(xs, ys, e) == MomentSum(xs[..|xs| - 1], ys[..|ys| - 1], e) + Mul(Pow(xs[|xs| - 1], e), ys[|ys| - 1])
  {
  }

  // Scalar steps of the inductions below, kept apart from the definitions of
  // the sums so that the solver only sees their atoms.

  /** Helper of HankelDotLastStep: the last point's share adds up. It exists only
      so that the solver meets the sums as opaque scalars. */
  lemma LastPointStep(hdm: real, hd: real, hd0m: real, hd0: real, pdm: real, pd: real,
                      ps: real, ps0: real, q: real, c: real)
    requires hdm == hd + Mul(ps, c) && hd == hd0 + pd && ps == ps0 + q
    requires hd0m == hd0 + Mul(ps0, c) && pdm == pd + Mul(q, c)
    ensures hdm == hd0m + pdm
  {
    assert Mul(ps, c) == Mul(ps0, c) + Mul(q, c);
  }

  /** Helper of PointDotFactorsStep: factoring x^i out of one more term. It exists
      only so that the solver meets the sums as opaque scalars. */
  lemma FactorStep(pdm: real, pd: real, px: real, ser: real, ser0: real, q: real, r: real, c: real)
    requires pdm == pd + Mul(q, c) && pd == Mul(px, ser0) && q == Mul(px, r) && ser == ser0 + Mul(c, r)
    ensures pdm == Mul(px, ser)
  {
    assert px * ser == px * ser0 + px * (c * r);
  }

  /** Helper of HankelDotOfExactDataStep: an exact last point adds the same to
      both sides. It exists only so that the solver meets the sums as opaque scalars. */
  lemma ExactStep(hd: real, hd0: real, pd: real, px: real, ser: real, ms: real, ms0: real, y: real)
    requires hd == hd0 + pd && pd == Mul(px, ser) && hd0 == ms0 && ms == ms0 + Mul(px, y) && ser == y
    ensures hd == ms
  {
  }

  /** HankelDot over xs splits into HankelDot over all points but the last plus
      the last point's share. */
  lemma HankelDotUnfold(xs: seq<real>, i: nat, p: seq<real>, m: nat)
    requires 0 < m <= |p|
    ensures HankelDot(xs, i, p, m) == HankelDot(xs, i, p, m - 1) + Mul(PowerSum(xs, i + m - 1), p[m - 1])
  {
  }

  lemma {:induction false} HankelDotLastStep(xs: seq<real>, i: nat, p: seq<real>, m: nat)
    requires |xs| > 0 && 0 < m <= |p|
    requires HankelDot(xs, i, p, m - 1) == HankelDot(xs[..|xs| - 1], i, p, m - 1) + PointDot(xs[|xs| - 1], i, p, m - 1)
    ensures HankelDot(xs, i, p, m) == HankelDot(xs[..|xs| - 1], i, p, m) + PointDot(xs[|xs| - 1], i, p, m)
  {
    var x, front := xs[|xs| - 1], xs[..|xs| - 1];
    HankelDotUnfold(xs, i, p, m);
    HankelDotUnfold(front, i, p, m);
    PointDotLast(x, i, p, m);
    PowerSumLast(xs, i + m - 1);
    LastPointStep(HankelDot(xs, i, p, m), HankelDot(xs, i, p, m - 1), HankelDot(front, i, p, m), HankelDot(front, i, p, m - 1),
      PointDot(x, i, p, m), PointDot(x, i, p, m - 1),
      PowerSum(xs, i + m - 1), PowerSum(front, i + m - 1), Pow(x, i + m - 1), p[m - 1]);
  }

  /** HankelDot over xs splits into HankelDot over all points but the last plus
      the last point's share. */
  lemma {:induction false} HankelDotLast(xs: seq<real>, i: nat, p: seq<real>, m: nat)
    requires |xs| > 0 && m <= |p|
    ensures HankelDot(xs, i, p, m) == HankelDot(xs[..|xs| - 1], i, p, m) + PointDot(xs[|xs| - 1], i, p, m)
  {
    if m > 0 {
      HankelDotLast(xs, i, p, m - 1);
      HankelDotLastStep(xs, i, p, m);
    }
  }

  lemma PointDotLast(x: real, i: nat, p: seq<real>, m: nat)
    requires 0 < m <= |p|
    ensures PointDot(x, i, p, m) == PointDot(x, i, p, m - 1) + Mul(Pow(x, i + m - 1), p[m - 1])
  {
  }

  lemma SeriesLast(p: seq<real>, x: real, m: nat)
    requires 0 < m <= |p|
    ensures Series(p, x, m) == Series(p, x, m - 1) + Mul(p[m - 1], Pow(x, m - 1))
  {
  }

  lemma {:induction false} PointDotFactorsStep(x: real, i: nat, p: seq<real>, m: nat)
    requires 0 < m <= |p| && PointDot(x, i, p, m - 1) == Mul(Pow(x, i), Series(p, x, m - 1))
    ensures PointDot(x, i, p, m) == Mul(Pow(x, i), Series(p, x, m))
  {
    PowAdd(x, i, m - 1);
    PointDotLast(x, i, p, m);
    SeriesLast(p, x, m);
    FactorStep(PointDot(x, i, p, m), PointDot(x, i, p, m - 1), Pow(x, i), Series(p, x, m), Series(p, x, m - 1),
      Pow(x, i + m - 1), Pow(x, m - 1), p[m - 1]);
  }

  /** One point's share of row i is x^i times the polynomial's value at x. */
  lemma {:induction false} PointDotFactors(x: real, i: nat, p: seq<real>, m: nat)
    requires m <= |p|
    ensures PointDot(x, i, p, m) == Mul(Pow(x, i), Series(p, x, m))
  {
    if m > 0 {
      PointDotFactors(x, i, p, m - 1);
      PointDotFactorsStep(x, i, p, m);
    }
  }

  lemma {:induction false} HankelDotOfNoData(i: nat, p: seq<real>, m: nat)
    requires m <= |p|
    ensures HankelDot([], i, p, m) == 0.0
  {
    if m > 0 {
      HankelDotOfNoData(i, p, m - 1);
    }
  }

  lemma {:induction false} HankelDotOfExactDataStep(xs: seq<real>, ys: seq<real>, i: nat, p: seq<real>)
    requires |xs| == |ys| > 0 && ys[|ys| - 1] == Series(p, xs[|xs| - 1], |p|)
    requires HankelDot(xs[..|xs| - 1], i, p, |p|) == MomentSum(xs[..|xs| - 1], ys[..|ys| - 1], i)
    ensures HankelDot(xs, i, p, |p|) == MomentSum(xs, ys, i)
  {
    var x, y := xs[|xs| - 1], ys[|ys| - 1];
    var front, ysFront := xs[..|xs| - 1], ys[..|ys| - 1];
    HankelDotLast(xs, i, p, |p|);
    PointDotFactors(x, i, p, |p|);
    MomentSumLast(xs, ys, i);
    ExactStep(HankelDot(xs, i, p, |p|), HankelDot(front, i, p, |p|), PointDot(x, i, p, |p|), Pow(x, i), Series(p, x, |p|),
      MomentSum(xs, ys, i), MomentSum(front, ysFront, i), y);
  }

  lemma {:induction false} HankelDotOfExactData(xs: seq<real>, ys: seq<real>, i: nat, p: seq<real>)
    requires |xs| == |ys| && Interpolates(xs, ys, p)
    ensures HankelDot(xs, i, p, |p|) == MomentSum(xs, ys, i)
  {
    if |xs| > 0 {
      InterpolatesPrefix(xs, ys, p);
      HankelDotOfExactData(xs[..|xs| - 1], ys[..|ys| - 1], i, p);
      HankelDotOfExactDataStep(xs, ys, i, p);
    } else {
      HankelDotOfNoData(i, p, |p|);
    }
  }

  /** The coefficients of a polynomial through every point solve its normal
      equations. */
  lemma {:induction false} NormalEquationsOfExactData(xs: seq<real>, ys: seq<real>, p: seq<real>)
    requires |xs| == |ys| && |p| > 0 && Interpolates(xs, ys, p)
    ensures Solves(NormalMatrix(xs, ys, |p| - 1), |p|, p)
  {
    var degree := |p| - 1;
    var M := NormalMatrix(xs, ys, degree);
    forall i | 0 <= i <= degree
      ensures Dot(M[i], p, 0, degree + 1) == M[i][degree + 1]
    {
      RowIsHankelDot(xs, ys, degree, i, p, degree + 1);
      HankelDotOfExactData(xs, ys, i, p);
    }
  }

  // ------------------------------------------------------------ in place

  /** Lines 332-336: X[e] = Σ_j x[j]^e for e < count, from a zeroed buffer. */
  method PowerSums(ds: Dataset, count: nat) returns (X: array<real>)
    requires ds.Valid()
    ensures fresh(X) && X.Length == count
    ensures forall e :: 0 <= e < count ==> X[e] == PowerSum(ds.Xs(), e)
  {
    ghost var xs := ds.Xs();
    X := new real[count](_ => 0.0);
    var i := 0;
    while i < count
      invariant 0 <= i <= count
      invariant forall e :: 0 <= e < i ==> X[e] == PowerSum(xs, e)
      invariant forall e :: i <= e < count ==> X[e] == 0.0
    {
      var j := 0;
      while j < ds.size
        invariant 0 <= j <= ds.size
        invariant forall e :: 0 <= e < i ==> X[e] == PowerSum(xs, e)
        invariant forall e :: i < e < count ==> X[e] == 0.0
        invariant X[i] == PowerSum(xs[..j], i)
      {
        assert ds.x[j] == xs[j];
        var term := Pow(ds.x[j], i);
        PowerSumStep(xs, i, j, X[i], term);
        X[i] := X[i] + term;
        j := j + 1;
      }
      assert xs[..j] == xs;
      i := i + 1;
    }
  }

  /** Lines 338-342: Y[e] = Σ_j x[j]^e·y[j] for e < count, from a zeroed buffer. */
  method MomentSums(ds: Dataset, count: nat) returns (Y: array<real>)
    requires ds.Valid()
    ensures fresh(Y) && Y.Length == count
    ensures forall e :: 0 <= e < count ==> Y[e] == MomentSum(ds.Xs(), ds.Ys(), e)
  {
    ghost var xs, ys := ds.Xs(), ds.Ys();
    Y := new real[count](_ => 0.0);
    var i := 0;
    while i < count
      invariant 0 <= i <= count
      invariant forall e :: 0 <= e < i ==> Y[e] == MomentSum(xs, ys, e)
      invariant forall e :: i <= e < count ==> Y[e] == 0.0
    {
      var j := 0;
      while j < ds.size
        invariant 0 <= j <= ds.size
        invariant forall e :: 0 <= e < i ==> Y[e] == MomentSum(xs, ys, e)
        invariant forall e :: i < e < count ==> Y[e] == 0.0
        invariant Y[i] == MomentSum(xs[..j], ys[..j], i)
      {
        assert ds.x[j] == xs[j] && ds.y[j] == ys[j];
        var term := Pow(ds.x[j], i) * ds.y[j];
        MomentSumStep(xs, ys, i, j, Y[i], term);
        Y[i] := Y[i] + term;
        j := j + 1;
      }
      assert xs[..j] == xs && ys[..j] == ys;
      i := i + 1;
    }
  }

  lemma NormalRow(xs: seq<real>, ys: seq<real>, degree: nat, i: nat)
    requires |xs| == |ys| && i <= degree
    ensures forall j :: 0 <= j <= degree ==> NormalMatrix(xs, ys, degree)[i][j] == PowerSum(xs, i + j)
    ensures NormalMatrix(xs, ys, degree)[i][degree + 1] == MomentSum(xs, ys, i)
  {
  }

  /** Lines 344-349 for one row i: A[i][j] = X[i + j] and A[i][n] = Y[i]. */
  method FillRow(A: array2<real>, n: nat, i: nat, X: array<real>, Y: array<real>, ghost row: seq<real>)
    requires A.Length0 == n && A.Length1 == n + 1 && i < n
    requires X.Length == 2 * n - 1 && Y.Length == n && |row| == n + 1
    requires forall j :: 0 <= j < n ==> X[i + j] == row[j]
    requires Y[i] == row[n]
    modifies A
    ensures forall t :: 0 <= t < n + 1 ==> A[i, t] == row[t]
    ensures forall r, t :: 0 <= r < n && 0 <= t < n + 1 && r != i ==> A[r, t] == old(A[r, t])
  {
    var j := 0;
    while j < n
      invariant 0 <= j <= n
      invariant forall t :: 0 <= t < j ==> A[i, t] == row[t]
      invariant forall r, t :: 0 <= r < n && 0 <= t < n + 1 && r != i ==> A[r, t] == old(A[r, t])
    {
      A[i, j] := X[i + j];
      j := j + 1;
    }
    A[i, n] := Y[i];
  }

  /** Lines 323-350: the augmented normal matrix of the dataset, in a fresh array. */
  method BuildNormalMatrix(ds: Dataset, degree: nat) returns (A: array2<real>)
    requires ds.Valid()
    ensures fresh(A) && A.Length0 == degree + 1
    ensures Holds(A, NormalMatrix(ds.Xs(), ds.Ys(), degree))
  {
    ghost var xs, ys := ds.Xs(), ds.Ys();
    ghost var M := NormalMatrix(xs, ys, degree);
    var n := degree + 1;
    var X := PowerSums(ds, 2 * degree + 1);
    var Y := MomentSums(ds, n);
    A := new real[n, n + 1];
    var i := 0;
    while i < n
      invariant 0 <= i <= n
      invariant forall e :: 0 <= e < 2 * degree + 1 ==> X[e] == PowerSum(xs, e)
      invariant forall e :: 0 <= e < n ==> Y[e] == MomentSum(xs, ys, e)
      invariant forall r, t :: 0 <= r < i && 0 <= t < n + 1 ==> A[r, t] == M[r][t]
    {
      NormalRow(xs, ys, degree, i);
      FillRow(A, n, i, X, Y, M[i]);
      i := i + 1;
    }
  }
}
