/** calculateR2: the coefficient of determination of a fitted model over a dataset. */
module GoodnessOfFit {
  import opened Numeric
  import opened Models
  import opened Datasets

  function Mean(ys: seq<real>): real
    requires |ys| > 0
  {
    Sum(ys) / (|ys| as real)
  }

  /** ss_tot: Σ (y[i] − mean)². */
  function SquaredDeviations(ys: seq<real>, mean: real): real
  {
    if |ys| == 0 then 0.0
    else
      var d := ys[|ys| - 1] - mean;
      SquaredDeviations(ys[..|ys| - 1], mean) + Mul(d, d)
  }

  /** ss_res: Σ (y[i] − model(x[i]))². */
  function SquaredResiduals(m: Model, xs: seq<real>, ys: seq<real>, coeff: seq<real>): real
    requires |xs| == |ys| && Accepts(m, coeff)
  {
    if |xs| == 0 then 0.0
    else
      var d := ys[|ys| - 1] - Predict(m, xs[|xs| - 1], coeff);
      SquaredResiduals(m, xs[..|xs| - 1], ys[..|ys| - 1], coeff) + Mul(d, d)
  }

  /** R² = 1 − safeDiv(ss_res, ss_tot). */
  function R2(m: Model, xs: seq<real>, ys: seq<real>, coeff: seq<real>): real
    requires |xs| == |ys| > 0 && Accepts(m, coeff)
  {
    1.0 - SafeDiv(SquaredResiduals(m, xs, ys, coeff), SquaredDeviations(ys, Mean(ys)))
  }

  lemma {:induction false} SquaredDeviationsNonNegative(ys: seq<real>, mean: real)
    ensures SquaredDeviations(ys, mean) >= 0.0
  {
    if |ys| > 0 {
      SquaredDeviationsNonNegative(ys[..|ys| - 1], mean);
      SquareNonNegative(ys[|ys| - 1] - mean);
    }
  }

  lemma {:induction false} SquaredResidualsNonNegative(m: Model, xs: seq<real>, ys: seq<real>, coeff: seq<real>)
    requires |xs| == |ys| && Accepts(m, coeff)
    ensures SquaredResiduals(m, xs, ys, coeff) >= 0.0
  {
    if |xs| > 0 {
      SquaredResidualsNonNegative(m, xs[..|xs| - 1], ys[..|ys| - 1], coeff);
      SquareNonNegative(ys[|ys| - 1] - Predict(m, xs[|xs| - 1], coeff));
    }
  }

  /** R² never exceeds 1. */
  lemma R2AtMostOne(m: Model, xs: seq<real>, ys: seq<real>, coeff: seq<real>)
    requires |xs| == |ys| > 0 && Accepts(m, coeff)
    ensures R2(m, xs, ys, coeff) <= 1.0
  {
    SquaredDeviationsNonNegative(ys, Mean(ys));
    SquaredResidualsNonNegative(m, xs, ys, coeff);
  }

  /** When ss_tot is below Epsilon the safe division yields 0 and R² is exactly 1. */
  lemma R2WithoutSpread(m: Model, xs: seq<real>, ys: seq<real>, coeff: seq<real>)
    requires |xs| == |ys| > 0 && Accepts(m, coeff)
    requires SquaredDeviations(ys, Mean(ys)) < Epsilon
    ensures R2(m, xs, ys, coeff) == 1.0
  {
    SquaredDeviationsNonNegative(ys, Mean(ys));
  }

  lemma {:induction false} SquaredDeviationsOfConstant(ys: seq<real>, c: real)
    requires forall i :: 0 <= i < |ys| ==> ys[i] == c
    ensures SquaredDeviations(ys, c) == 0.0
  {
    if |ys| > 0 {
      SquaredDeviationsOfConstant(ys[..|ys| - 1], c);
    }
  }

  /** All y values equal: R² is 1, whatever the model and its coefficients. */
  lemma R2OfConstantY(m: Model, xs: seq<real>, ys: seq<real>, coeff: seq<real>)
    requires |xs| == |ys| > 0 && Accepts(m, coeff)
    requires forall i :: 0 <= i < |ys| ==> ys[i] == ys[0]
    ensures R2(m, xs, ys, coeff) == 1.0
  {
    SumConstant(ys, ys[0]);
    assert Mean(ys) == ys[0];
    SquaredDeviationsOfConstant(ys, ys[0]);
  }

  lemma {:induction false} SquaredResidualsOfExactFit(m: Model, xs: seq<real>, ys: seq<real>, coeff: seq<real>)
    requires |xs| == |ys| && Accepts(m, coeff)
    requires forall i :: 0 <= i < |xs| ==> Predict(m, xs[i], coeff) == ys[i]
    ensures SquaredResiduals(m, xs, ys, coeff) == 0.0
  {
    if |xs| > 0 {
      SquaredResidualsOfExactFit(m, xs[..|xs| - 1], ys[..|ys| - 1], coeff);
    }
  }

  /** A model that reproduces every y value has R² exactly 1. */
  lemma R2OfExactFit(m: Model, xs: seq<real>, ys: seq<real>, coeff: seq<real>)
    requires |xs| == |ys| > 0 && Accepts(m, coeff)
    requires forall i :: 0 <= i < |xs| ==> Predict(m, xs[i], coeff) == ys[i]
    ensures R2(m, xs, ys, coeff) == 1.0
  {
    SquaredResidualsOfExactFit(m, xs, ys, coeff);
  }

  lemma {:induction false} SquaredResidualsOfAgreeingModels(m: Model, c: seq<real>, m': Model, c': seq<real>,
                                                           xs: seq<real>, ys: seq<real>)
    requires |xs| == |ys| && Accepts(m, c) && Accepts(m', c')
    requires forall i :: 0 <= i < |xs| ==> Predict(m, xs[i], c) == Predict(m', xs[i], c')
    ensures SquaredResiduals(m, xs, ys, c) == SquaredResiduals(m', xs, ys, c')
  {
    if |xs| > 0 {
      SquaredResidualsOfAgreeingModels(m, c, m', c', xs[..|xs| - 1], ys[..|ys| - 1]);
    }
  }

  /** R² depends on a model only through its predictions at the data points. */
  lemma R2OfAgreeingModels(m: Model, c: seq<real>, m': Model, c': seq<real>, xs: seq<real>, ys: seq<real>)
    requires |xs| == |ys| > 0 && Accepts(m, c) && Accepts(m', c')
    requires forall i :: 0 <= i < |xs| ==> Predict(m, xs[i], c) == Predict(m', xs[i], c')
    ensures R2(m, xs, ys, c) == R2(m', xs, ys, c')
  {
    SquaredResidualsOfAgreeingModels(m, c, m', c', xs, ys);
  }

  lemma SquaredDeviationsStep(ys: seq<real>, mean: real, k: nat, acc: real, deviation: real)
    requires k < |ys| && acc == SquaredDeviations(ys[..k], mean) && deviation == ys[k] - mean
    ensures acc + deviation * deviation == SquaredDeviations(ys[..k + 1], mean)
  {
    assert ys[..k + 1][..k] == ys[..k];
  }

  lemma SquaredResidualsStep(m: Model, xs: seq<real>, ys: seq<real>, coeff: seq<real>, k: nat, acc: real, residual: real)
    requires |xs| == |ys| && Accepts(m, coeff) && k < |xs|
    requires acc == SquaredResiduals(m, xs[..k], ys[..k], coeff) && residual == ys[k] - Predict(m, xs[k], coeff)
    ensures acc + residual * residual == SquaredResiduals(m, xs[..k + 1], ys[..k + 1], coeff)
  {
    assert xs[..k + 1][..k] == xs[..k];
    assert ys[..k + 1][..k] == ys[..k];
  }

  /** calculateR2's two loops (lines 70-86), over the points of the dataset;
      the unused degree parameter is dropped. */
  method CalculateR2(ds: Dataset, m: Model, coeff: seq<real>) returns (r2: real)
    requires ds.Valid() && ds.size > 0 && Accepts(m, coeff)
    ensures r2 == R2(m, ds.Xs(), ds.Ys(), coeff)
  {
    var xs, ys := ds.x[..ds.size], ds.y[..ds.size];
    r2 := GoodnessOfPoints(m, xs, ys, coeff);
  }

  method GoodnessOfPoints(m: Model, xs: seq<real>, ys: seq<real>, coeff: seq<real>) returns (r2: real)
    requires |xs| == |ys| > 0 && Accepts(m, coeff)
    ensures r2 == R2(m, xs, ys, coeff)
  {
    var yMean := 0.0;
    var i := 0;
    while i < |ys|
      invariant 0 <= i <= |ys|
      invariant yMean == Sum(ys[..i])
    {
      SumStep(ys, i);
      yMean := yMean + ys[i];
      i := i + 1;
    }
    assert ys[..i] == ys;
    yMean := yMean / (|ys| as real);

    var ssTot, ssRes := 0.0, 0.0;
    i := 0;
    while i < |xs|
      invariant 0 <= i <= |xs|
      invariant ssRes == SquaredResiduals(m, xs[..i], ys[..i], coeff)
      invariant ssTot == SquaredDeviations(ys[..i], yMean)
    {
      var yPred := Predict(m, xs[i], coeff);
      var residual, deviation := ys[i] - yPred, ys[i] - yMean;
      SquaredResidualsStep(m, xs, ys, coeff, i, ssRes, residual);
      SquaredDeviationsStep(ys, yMean, i, ssTot, deviation);
      ssRes := ssRes + residual * residual;
      ssTot := ssTot + deviation * deviation;
      i := i + 1;
    }
    assert xs[..i] == xs && ys[..i] == ys;
    r2 := 1.0 - SafeDiv(ssRes, ssTot);
  }
}
