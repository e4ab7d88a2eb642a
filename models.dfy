/** The model evaluators: linearModel, logModel, expModel, quadraticModel
    and polyModel, dispatched over a closed set of model families. */
module Models {
  import opened Numeric

  /** The five model families. The logarithmic and exponential ones carry the
      `log` and `exp` they evaluate, which the model leaves uninterpreted. */
  datatype Model =
    | Linear
    | Logarithmic(ln: real -> real)
    | Exponential(exp: real -> real)
    | Quadratic
    | Polynomial

  /** The coefficient vectors an evaluator can read: two entries for the linear,
      logarithmic and exponential models, three for the quadratic one, and for
      the polynomial one a degree d in coeff[0] followed by d + 1 coefficients. */
  predicate Accepts(m: Model, coeff: seq<real>)
  {
    match m
    case Linear => |coeff| >= 2
    case Logarithmic(_) => |coeff| >= 2
    case Exponential(_) => |coeff| >= 2
    case Quadratic => |coeff| >= 3
    case Polynomial => |coeff| >= 1 && Trunc(coeff[0]) <= |coeff| - 2
  }

  /** Σ_{i < m} p[i]·x^i: the polynomial with coefficients p, lowest degree first. */
  function Series(p: seq<real>, x: real, m: nat): real
    requires m <= |p|
  {
    if m == 0 then 0.0 else Series(p, x, m - 1) + Mul(p[m - 1], Pow(x, m - 1))
  }

  /** The first k terms of polyModel's sum: Σ_{i < k} coeff[i+1]·x^i. */
  function PolyTerms(x: real, coeff: seq<real>, k: nat): real
    requires k < |coeff|
  {
    if k == 0 then 0.0 else PolyTerms(x, coeff, k - 1) + Mul(coeff[k], Pow(x, k - 1))
  }

  /** polyModel: the degree is read back from coeff[0] by a truncating cast. */
  function PolyValue(x: real, coeff: seq<real>): real
    requires Accepts(Polynomial, coeff)
  {
    var degree := Trunc(coeff[0]);
    if degree < 0 then 0.0 else PolyTerms(x, coeff, degree + 1)
  }

  /** The prediction of model m at x. */
  function Predict(m: Model, x: real, coeff: seq<real>): real
    requires Accepts(m, coeff)
  {
    match m
    case Linear => coeff[0] + coeff[1] * x
    case Logarithmic(ln) => coeff[0] + coeff[1] * ln(x)
    case Exponential(exp) => coeff[0] * exp(coeff[1] * x)
    case Quadratic => coeff[0] + coeff[1] * x + coeff[2] * x * x
    case Polynomial => PolyValue(x, coeff)
  }

  lemma {:induction false} PolyTermsShift(x: real, d: real, p: seq<real>, k: nat)
    requires k <= |p|
    ensures PolyTerms(x, [d] + p, k) == Series(p, x, k)
  {
    if k > 0 {
      PolyTermsShift(x, d, p, k - 1);
    }
  }

  /** The "degree in coeff[0]" encoding: a degree d followed by d + 1
      coefficients evaluates to the polynomial with those coefficients. */
  lemma PolyModelDecodesDegree(x: real, d: nat, p: seq<real>)
    requires |p| == d + 1
    ensures Accepts(Polynomial, [d as real] + p)
    ensures Predict(Polynomial, x, [d as real] + p) == Series(p, x, d + 1)
  {
    assert Trunc(d as real) == d;
    PolyTermsShift(x, d as real, p, d + 1);
  }

  /** linearModel is polyModel of degree 1. */
  lemma LinearIsPolynomial(x: real, a: real, b: real)
    ensures Predict(Linear, x, [a, b]) == Predict(Polynomial, x, [1.0, a, b])
  {
    PolyModelDecodesDegree(x, 1, [a, b]);
    assert [1 as real] + [a, b] == [1.0, a, b];
    assert Pow(x, 1) == x * Pow(x, 0);
    assert Series([a, b], x, 2) == Series([a, b], x, 1) + b * Pow(x, 1);
  }

  /** quadraticModel is polyModel of degree 2. */
  lemma QuadraticIsPolynomial(x: real, a: real, b: real, c: real)
    ensures Predict(Quadratic, x, [a, b, c]) == Predict(Polynomial, x, [2.0, a, b, c])
  {
    PolyModelDecodesDegree(x, 2, [a, b, c]);
    assert [2 as real] + [a, b, c] == [2.0, a, b, c];
    assert Pow(x, 1) == x * Pow(x, 0);
    assert Pow(x, 2) == x * Pow(x, 1);
    assert Series([a, b, c], x, 3) == Series([a, b, c], x, 2) + c * Pow(x, 2);
    assert Series([a, b, c], x, 2) == Series([a, b, c], x, 1) + b * Pow(x, 1);
  }

  /** polyModel's loop (lines 105-112). */
  method EvaluatePolynomial(x: real, coeff: seq<real>) returns (result: real)
    requires Accepts(Polynomial, coeff)
    ensures result == PolyValue(x, coeff)
  {
    result := 0.0;
    var degree := Trunc(coeff[0]);
    var i: int := 0;
    while i <= degree
      invariant 0 <= i <= if degree < 0 then 0 else degree + 1
      invariant result == PolyTerms(x, coeff, i)
    {
      result := result + coeff[i + 1] * Pow(x, i);
      i := i + 1;
    }
  }
}
