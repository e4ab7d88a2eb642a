/** Scalar helpers of the regression engine: the safe-division policy,
    integer powers, C's truncating double-to-int conversion and the
    running sums the drivers accumulate. Doubles are modelled as reals. */
module Numeric {

  /** DBL_EPSILON, which is exactly 2^-52. The proofs only rely on its being positive. */
  const Epsilon: real := 1.0 / 4503599627370496.0

  function Abs(r: real): real
  {
    if r < 0.0 then -r else r
  }

  /** safeDiv: zero when the divisor is within Epsilon of zero, the quotient otherwise. */
  function SafeDiv(a: real, b: real): (q: real)
    ensures Abs(b) < Epsilon ==> q == 0.0
    ensures Abs(b) >= Epsilon ==> b != 0.0 && q * b == a
    ensures 0.0 <= a && 0.0 <= b ==> 0.0 <= q
  {
    if Abs(b) < Epsilon then 0.0 else a / b
  }

  /** The product x·y. The recursive sums below multiply through this function
      rather than with `*` directly, which keeps their definitions linear for
      the solver until a proof asks for a particular product. */
  function Mul(x: real, y: real): real
  {
    x * y
  }

  /** The library `pow` at a natural exponent. */
  function Pow(x: real, e: nat): real
  {
    if e == 0 then 1.0 else Mul(x, Pow(x, e - 1))
  }

  lemma Associate(p: real, q: real, r: real)
    ensures Mul(p, Mul(q, r)) == Mul(Mul(p, q), r)
  {
  }

  lemma {:induction false} PowAdd(x: real, a: nat, b: nat)
    ensures Pow(x, a + b) == Mul(Pow(x, a), Pow(x, b))
  {
    if a > 0 {
      PowAdd(x, a - 1, b);
      assert Pow(x, a + b) == Mul(x, Pow(x, a - 1 + b));
      Associate(x, Pow(x, a - 1), Pow(x, b));
    }
  }

  /** `(int)r` in C: truncation toward zero. */
  function Trunc(r: real): (t: int)
    ensures 0.0 <= r ==> 0 <= t && t as real <= r < t as real + 1.0
    ensures r < 0.0 ==> t <= 0 && t as real - 1.0 < r <= t as real
  {
    if r >= 0.0 then r.Floor else -((-r).Floor)
  }

  /** The sequence of f applied to every element of s. */
  function Map(f: real -> real, s: seq<real>): seq<real>
  {
    seq(|s|, i requires 0 <= i < |s| => f(s[i]))
  }

  /** Σ s[i], accumulated from the first element to the last. */
  function Sum(s: seq<real>): real
  {
    if |s| == 0 then 0.0 else Sum(s[..|s| - 1]) + s[|s| - 1]
  }

  /** Σ a[i]·b[i]. */
  function SumProd(a: seq<real>, b: seq<real>): real
    requires |a| == |b|
  {
    if |a| == 0 then 0.0 else SumProd(a[..|a| - 1], b[..|b| - 1]) + Mul(a[|a| - 1], b[|b| - 1])
  }

  /** Σ x[j]^e, the power sums X[e] of the polynomial driver. */
  function PowerSum(xs: seq<real>, e: nat): real
  {
    if |xs| == 0 then 0.0 else PowerSum(xs[..|xs| - 1], e) + Pow(xs[|xs| - 1], e)
  }

  /** Σ x[j]^e·y[j], the right-hand sides Y[e] of the polynomial driver. */
  function MomentSum(xs: seq<real>, ys: seq<real>, e: nat): real
    requires |xs| == |ys|
  {
    if |xs| == 0 then 0.0
    else MomentSum(xs[..|xs| - 1], ys[..|ys| - 1], e) + Mul(Pow(xs[|xs| - 1], e), ys[|ys| - 1])
  }

  // One more element of a prefix: the step every accumulation loop takes.

  lemma SumStep(s: seq<real>, k: nat)
    requires k < |s|
    ensures Sum(s[..k + 1]) == Sum(s[..k]) + s[k]
  {
    assert s[..k + 1][..k] == s[..k];
  }

  lemma SumProdStep(a: seq<real>, b: seq<real>, k: nat, acc: real, term: real)
    requires |a| == |b| && k < |a| && acc == SumProd(a[..k], b[..k]) && term == a[k] * b[k]
    ensures acc + term == SumProd(a[..k + 1], b[..k + 1])
  {
    assert a[..k + 1][..k] == a[..k];
    assert b[..k + 1][..k] == b[..k];
  }

  lemma SumProdLast(a: seq<real>, b: seq<real>)
    requires |a| == |b| > 0
    ensures SumProd(a, b) == SumProd(a[..|a| - 1], b[..|b| - 1]) + Mul(a[|a| - 1], b[|b| - 1])
  {
  }

  lemma PowerSumStep(xs: seq<real>, e: nat, k: nat, acc: real, term: real)
    requires k < |xs| && acc == PowerSum(xs[..k], e) && term == Pow(xs[k], e)
    ensures acc + term == PowerSum(xs[..k + 1], e)
  {
    assert xs[..k + 1][..k] == xs[..k];
  }

  lemma MomentSumStep(xs: seq<real>, ys: seq<real>, e: nat, k: nat, acc: real, term: real)
    requires |xs| == |ys| && k < |xs| && acc == MomentSum(xs[..k], ys[..k], e) && term == Pow(xs[k], e) * ys[k]
    ensures acc + term == MomentSum(xs[..k + 1], ys[..k + 1], e)
  {
    assert xs[..k + 1][..k] == xs[..k];
    assert ys[..k + 1][..k] == ys[..k];
  }

  // The power sums of low exponent are the plain sums the linear driver keeps.

  lemma {:induction false} PowerSumZero(xs: seq<real>)
    ensures PowerSum(xs, 0) == |xs| as real
  {
    if |xs| > 0 {
      PowerSumZero(xs[..|xs| - 1]);
    }
  }

  lemma {:induction false} PowerSumOne(xs: seq<real>)
    ensures PowerSum(xs, 1) == Sum(xs)
  {
    if |xs| > 0 {
      PowerSumOne(xs[..|xs| - 1]);
      assert Pow(xs[|xs| - 1], 1) == xs[|xs| - 1] * Pow(xs[|xs| - 1], 0);
    }
  }

  lemma {:induction false} PowerSumTwo(xs: seq<real>)
    ensures PowerSum(xs, 2) == SumProd(xs, xs)
  {
    if |xs| > 0 {
      PowerSumTwo(xs[..|xs| - 1]);
      var x := xs[|xs| - 1];
      assert Pow(x, 1) == x * Pow(x, 0);
      assert Pow(x, 2) == x * Pow(x, 1);
    }
  }

  lemma {:induction false} MomentSumZero(xs: seq<real>, ys: seq<real>)
    requires |xs| == |ys|
    ensures MomentSum(xs, ys, 0) == Sum(ys)
  {
    if |xs| > 0 {
      MomentSumZero(xs[..|xs| - 1], ys[..|ys| - 1]);
    }
  }

  lemma {:induction false} MomentSumOne(xs: seq<real>, ys: seq<real>)
    requires |xs| == |ys|
    ensures MomentSum(xs, ys, 1) == SumProd(xs, ys)
  {
    if |xs| > 0 {
      MomentSumOne(xs[..|xs| - 1], ys[..|ys| - 1]);
      assert Pow(xs[|xs| - 1], 1) == xs[|xs| - 1] * Pow(xs[|xs| - 1], 0);
    }
  }

  lemma SquareNonNegative(d: real)
    ensures d * d >= 0.0
  {
    if d < 0.0 {
      assert d * d == (-d) * (-d);
    }
  }

  /** The sum of n copies of c is n·c. */
  lemma {:induction false} SumConstant(s: seq<real>, c: real)
    requires forall i :: 0 <= i < |s| ==> s[i] == c
    ensures Sum(s) == |s| as real * c
  {
    if |s| > 0 {
      SumConstant(s[..|s| - 1], c);
    }
  }

  /** Σ c·c over n copies of c is n·c². */
  lemma {:induction false} SumProdSelfConstant(s: seq<real>, c: real)
    requires forall i :: 0 <= i < |s| ==> s[i] == c
    ensures SumProd(s, s) == Mul(|s| as real, Mul(c, c))
  {
    if |s| > 0 {
      SumProdSelfConstant(s[..|s| - 1], c);
      assert Mul(|s| as real, Mul(c, c)) == Mul((|s| - 1) as real, Mul(c, c)) + Mul(c, c);
    }
  }
}
