/** Gaussian elimination with (optional) partial pivoting followed by
    back-substitution, as polyRegression (and, without pivoting,
    quadraticRegression) runs it on an augmented matrix. The functional part
    states what each phase computes, the lemmas what that means for the linear
    system, and the methods run the phases in place on an array2. */
module LinearSystem {
  import opened Numeric

  /** An augmented matrix: rows of coefficients followed by the right-hand side. */
  type Matrix = seq<seq<real>>

  /** M has n rows of n + 1 entries. */
  predicate IsAugmented(M: Matrix, n: nat)
  {
    |M| == n && forall i :: 0 <= i < n ==> |M[i]| == n + 1
  }

  /** Σ_{lo <= j < hi} row[j]·c[j], accumulated in increasing j. */
  function Dot(row: seq<real>, c: seq<real>, lo: nat, hi: nat): real
    requires hi <= |row| && hi <= |c|
    decreases hi
  {
    if hi <= lo then 0.0 else Dot(row, c, lo, hi - 1) + row[hi - 1] * c[hi - 1]
  }

  /** c solves every equation of the system M. */
  predicate Solves(M: Matrix, n: nat, c: seq<real>)
    requires IsAugmented(M, n)
  {
    |c| == n && forall i :: 0 <= i < n ==> Dot(M[i], c, 0, n) == M[i][n]
  }

  /** Every entry left of the diagonal is zero in the first k columns. */
  predicate Echelon(M: Matrix, n: nat, k: nat)
    requires IsAugmented(M, n)
  {
    forall i, j :: 0 <= j < k && j < i < n ==> M[i][j] == 0.0
  }

  predicate UpperTriangular(M: Matrix, n: nat)
    requires IsAugmented(M, n)
  {
    Echelon(M, n, n)
  }

  predicate NonZeroDiagonal(M: Matrix, n: nat)
    requires IsAugmented(M, n)
  {
    forall i :: 0 <= i < n ==> M[i][i] != 0.0
  }

  // ---------------------------------------------------------------- pivot

  /** The row the pivot search of lines 355-360 holds after looking at rows
      k .. hi-1: the earliest row of largest magnitude in column k. */
  function ArgMaxAbs(M: Matrix, n: nat, k: nat, hi: nat): (r: nat)
    requires IsAugmented(M, n) && k < hi <= n
    ensures k <= r < hi
    ensures forall i :: k <= i < hi ==> Abs(M[i][k]) <= Abs(M[r][k])
    ensures forall i :: k <= i < r ==> Abs(M[i][k]) < Abs(M[r][k])
    decreases hi
  {
    if hi == k + 1 then k
    else
      var best := ArgMaxAbs(M, n, k, hi - 1);
      if Abs(M[hi - 1][k]) > Abs(M[best][k]) then hi - 1 else best
  }

  /** The pivot row of step k: the argmax with partial pivoting, k itself without. */
  function PivotRow(M: Matrix, n: nat, k: nat, pivoting: bool): nat
    requires IsAugmented(M, n) && k < n
  {
    if pivoting then ArgMaxAbs(M, n, k, n) else k
  }

  // ----------------------------------------------------------------- swap

  /** Lines 363-369: rows k and r exchanged from column k onward. */
  function SwapTail(M: Matrix, n: nat, k: nat, r: nat): (S: Matrix)
    requires IsAugmented(M, n) && k < n && r < n
    ensures IsAugmented(S, n)
  {
    if r == k then M
    else
      seq(n, i requires 0 <= i < n =>
        seq(n + 1, j requires 0 <= j < n + 1 =>
          if j < k then M[i][j]
          else if i == k then M[r][j]
          else if i == r then M[k][j]
          else M[i][j]))
  }

  // ---------------------------------------------------------- elimination

  /** Lines 372-377: every row below k loses (M[i][k] / M[k][k]) times row k,
      from column k onward. */
  function EliminateBelow(M: Matrix, n: nat, k: nat): (E: Matrix)
    requires IsAugmented(M, n) && k < n && M[k][k] != 0.0
    ensures IsAugmented(E, n)
  {
    seq(n, i requires 0 <= i < n =>
      seq(n + 1, j requires 0 <= j < n + 1 =>
        if i <= k || j < k then M[i][j]
        else M[i][j] - (M[i][k] / M[k][k]) * M[k][j]))
  }

  /** The matrix after the pivot of step k has been swapped into row k. */
  function Pivoted(M: Matrix, n: nat, k: nat, pivoting: bool): (S: Matrix)
    requires IsAugmented(M, n) && k < n
    ensures IsAugmented(S, n)
  {
    SwapTail(M, n, k, PivotRow(M, n, k, pivoting))
  }

  /** One iteration of the outer loop at line 353. */
  function Step(M: Matrix, n: nat, k: nat, pivoting: bool): (E: Matrix)
    requires IsAugmented(M, n) && k < n && Pivoted(M, n, k, pivoting)[k][k] != 0.0
    ensures IsAugmented(E, n)
  {
    EliminateBelow(Pivoted(M, n, k, pivoting), n, k)
  }

  /** Every pivot that steps k .. n-1 meet is non-zero: the exact-arithmetic
      counterpart of a system the solver can divide through. */
  predicate PivotsNonZero(M: Matrix, n: nat, k: nat, pivoting: bool)
    requires IsAugmented(M, n) && k <= n
    decreases n - k
  {
    k == n ||
    (Pivoted(M, n, k, pivoting)[k][k] != 0.0 && PivotsNonZero(Step(M, n, k, pivoting), n, k + 1, pivoting))
  }

  /** Forward elimination from step k to the end. */
  function Forward(M: Matrix, n: nat, k: nat, pivoting: bool): (U: Matrix)
    requires IsAugmented(M, n) && k <= n && PivotsNonZero(M, n, k, pivoting)
    ensures IsAugmented(U, n)
    decreases n - k
  {
    if k == n then M else Forward(Step(M, n, k, pivoting), n, k + 1, pivoting)
  }

  // ---------------------------------------------------- back-substitution

  /** Lines 384-390 from row n-1 up to row i: the unknowns i .. n-1 (entries
      below i are still zero). */
  function BackFrom(U: Matrix, n: nat, i: nat): (c: seq<real>)
    requires IsAugmented(U, n) && i <= n && forall r :: i <= r < n ==> U[r][r] != 0.0
    ensures |c| == n
    decreases n - i
  {
    if i == n then seq(n, _ => 0.0)
    else
      var c := BackFrom(U, n, i + 1);
      c[i := (U[i][n] - Dot(U[i], c, i + 1, n)) / U[i][i]]
  }

  /** The solver as a whole: forward elimination, then back-substitution. */
  function Solve(M: Matrix, n: nat, pivoting: bool): (c: seq<real>)
    requires IsAugmented(M, n) && PivotsNonZero(M, n, 0, pivoting)
    ensures |c| == n
  {
    ForwardShape(M, n, 0, pivoting);
    BackFrom(Forward(M, n, 0, pivoting), n, 0)
  }

  // ========================================================== lemmas

  /** Swapping the same two row tails twice restores the matrix. */
  lemma SwapTailInvolution(M: Matrix, n: nat, k: nat, r: nat)
    requires IsAugmented(M, n) && k < n && r < n
    ensures SwapTail(SwapTail(M, n, k, r), n, k, r) == M
  {
    var S := SwapTail(SwapTail(M, n, k, r), n, k, r);
    forall i | 0 <= i < n
      ensures S[i] == M[i]
    {
      assert |S[i]| == |M[i]|;
    }
  }

  /** The swap leaves every row other than k and r untouched. */
  lemma SwapTailOtherRows(M: Matrix, n: nat, k: nat, r: nat)
    requires IsAugmented(M, n) && k < n && r < n
    ensures forall i :: 0 <= i < n && i != k && i != r ==> SwapTail(M, n, k, r)[i] == M[i]
  {
    var S := SwapTail(M, n, k, r);
    forall i | 0 <= i < n && i != k && i != r
      ensures S[i] == M[i]
    {
      assert |S[i]| == |M[i]|;
    }
  }

  /** Once columns below k are cleared, exchanging the tails of rows k and
      r >= k exchanges the whole rows. */
  lemma SwapTailIsRowSwap(M: Matrix, n: nat, k: nat, r: nat)
    requires IsAugmented(M, n) && k <= r < n && Echelon(M, n, k)
    ensures var S := SwapTail(M, n, k, r);
      S[k] == M[r] && S[r] == M[k] && forall i :: 0 <= i < n && i != k && i != r ==> S[i] == M[i]
  {
    var S := SwapTail(M, n, k, r);
    if r != k {
      assert |S[k]| == |M[r]|;
      forall j | 0 <= j < n + 1
        ensures S[k][j] == M[r][j]
      {
        if j < k {
          assert M[k][j] == 0.0 && M[r][j] == 0.0;
        }
      }
      assert |S[r]| == |M[k]|;
      forall j | 0 <= j < n + 1
        ensures S[r][j] == M[k][j]
      {
        if j < k {
          assert M[k][j] == 0.0 && M[r][j] == 0.0;
        }
      }
    }
  }

  /** Elimination clears column k below the pivot and leaves rows 0 .. k alone. */
  lemma EliminateClearsColumn(M: Matrix, n: nat, k: nat)
    requires IsAugmented(M, n) && k < n && M[k][k] != 0.0
    ensures var E := EliminateBelow(M, n, k);
      (forall i :: k < i < n ==> E[i][k] == 0.0) && (forall i :: 0 <= i <= k ==> E[i] == M[i])
  {
    var E := EliminateBelow(M, n, k);
    forall i | k < i < n
      ensures E[i][k] == 0.0
    {
      assert E[i][k] == M[i][k] - (M[i][k] / M[k][k]) * M[k][k];
    }
    forall i | 0 <= i <= k
      ensures E[i] == M[i]
    {
      assert |E[i]| == |M[i]|;
    }
  }

  /** A step extends the echelon form by one column, leaves the rows above k
      alone and puts its non-zero pivot on the diagonal. */
  lemma StepEchelon(M: Matrix, n: nat, k: nat, pivoting: bool)
    requires IsAugmented(M, n) && k < n && Pivoted(M, n, k, pivoting)[k][k] != 0.0
    requires Echelon(M, n, k)
    ensures var E := Step(M, n, k, pivoting);
      Echelon(E, n, k + 1) && E[k][k] != 0.0 && forall i :: 0 <= i < k ==> E[i] == M[i]
  {
    var p := PivotRow(M, n, k, pivoting);
    var S := Pivoted(M, n, k, pivoting);
    SwapTailIsRowSwap(M, n, k, p);
    assert Echelon(S, n, k);
    EliminateClearsColumn(S, n, k);
  }

  /** Step k leaves rows 0 .. k-1 alone. */
  lemma StepKeepsRows(M: Matrix, n: nat, k: nat, pivoting: bool)
    requires IsAugmented(M, n) && k < n && Pivoted(M, n, k, pivoting)[k][k] != 0.0
    ensures forall i :: 0 <= i < k ==> Step(M, n, k, pivoting)[i] == M[i]
  {
    var p := PivotRow(M, n, k, pivoting);
    SwapTailOtherRows(M, n, k, p);
    EliminateClearsColumn(Pivoted(M, n, k, pivoting), n, k);
  }

  /** Forward elimination from step k leaves rows 0 .. k-1 alone. */
  lemma {:induction false} ForwardKeepsRows(M: Matrix, n: nat, k: nat, pivoting: bool)
    requires IsAugmented(M, n) && k <= n && PivotsNonZero(M, n, k, pivoting)
    ensures forall i :: 0 <= i < k ==> Forward(M, n, k, pivoting)[i] == M[i]
    decreases n - k
  {
    if k < n {
      ForwardUnfold(M, n, k, pivoting);
      StepKeepsRows(M, n, k, pivoting);
      ForwardKeepsRows(Step(M, n, k, pivoting), n, k + 1, pivoting);
    }
  }

  /** Every diagonal entry from k on ends up non-zero. */
  lemma {:induction false} ForwardDiagonal(M: Matrix, n: nat, k: nat, pivoting: bool)
    requires IsAugmented(M, n) && k <= n && PivotsNonZero(M, n, k, pivoting)
    ensures forall i :: k <= i < n ==> Forward(M, n, k, pivoting)[i][i] != 0.0
    decreases n - k
  {
    if k < n {
      var E := Step(M, n, k, pivoting);
      ForwardUnfold(M, n, k, pivoting);
      EliminateClearsColumn(Pivoted(M, n, k, pivoting), n, k);
      ForwardKeepsRows(E, n, k + 1, pivoting);
      ForwardDiagonal(E, n, k + 1, pivoting);
    }
  }

  /** Started from a matrix in echelon form up to column k, forward elimination
      ends upper triangular. */
  lemma {:induction false} ForwardEchelon(M: Matrix, n: nat, k: nat, pivoting: bool)
    requires IsAugmented(M, n) && k <= n && PivotsNonZero(M, n, k, pivoting) && Echelon(M, n, k)
    ensures UpperTriangular(Forward(M, n, k, pivoting), n)
    decreases n - k
  {
    if k < n {
      ForwardUnfold(M, n, k, pivoting);
      StepEchelon(M, n, k, pivoting);
      ForwardEchelon(Step(M, n, k, pivoting), n, k + 1, pivoting);
    }
  }

  /** Facts about the result of forward elimination from step k. */
  lemma ForwardShape(M: Matrix, n: nat, k: nat, pivoting: bool)
    requires IsAugmented(M, n) && k <= n && PivotsNonZero(M, n, k, pivoting)
    ensures var U := Forward(M, n, k, pivoting);
      (forall i :: 0 <= i < k ==> U[i] == M[i]) &&
      (forall i :: k <= i < n ==> U[i][i] != 0.0) &&
      (Echelon(M, n, k) ==> UpperTriangular(U, n))
  {
    ForwardKeepsRows(M, n, k, pivoting);
    ForwardDiagonal(M, n, k, pivoting);
    if Echelon(M, n, k) {
      ForwardEchelon(M, n, k, pivoting);
    }
  }

  // ------------------------------------------------------ dot products

  lemma {:induction false} DotLinear(r: seq<real>, s: seq<real>, t: seq<real>, c: seq<real>, f: real, lo: nat, hi: nat)
    requires hi <= |r| && hi <= |s| && hi <= |t| && hi <= |c|
    requires forall j :: lo <= j < hi ==> t[j] == r[j] - f * s[j]
    ensures Dot(t, c, lo, hi) == Dot(r, c, lo, hi) - f * Dot(s, c, lo, hi)
    decreases hi
  {
    if lo < hi {
      DotLinear(r, s, t, c, f, lo, hi - 1);
      var j := hi - 1;
      assert t[j] * c[j] == r[j] * c[j] - f * (s[j] * c[j]);
    }
  }

  lemma {:induction false} DotAgree(row: seq<real>, c: seq<real>, d: seq<real>, lo: nat, hi: nat)
    requires hi <= |row| && hi <= |c| && hi <= |d|
    requires forall j :: lo <= j < hi ==> c[j] == d[j]
    ensures Dot(row, c, lo, hi) == Dot(row, d, lo, hi)
    decreases hi
  {
    if lo < hi {
      DotAgree(row, c, d, lo, hi - 1);
    }
  }

  lemma {:induction false} DotSplitLow(row: seq<real>, c: seq<real>, lo: nat, hi: nat)
    requires lo < hi <= |row| && hi <= |c|
    ensures Dot(row, c, lo, hi) == row[lo] * c[lo] + Dot(row, c, lo + 1, hi)
    decreases hi
  {
    if lo + 1 < hi {
      DotSplitLow(row, c, lo, hi - 1);
    }
  }

  lemma {:induction false} DotZeroPrefix(row: seq<real>, c: seq<real>, lo: nat, mid: nat, hi: nat)
    requires lo <= mid <= hi <= |row| && hi <= |c|
    requires forall j :: lo <= j < mid ==> row[j] == 0.0
    ensures Dot(row, c, lo, hi) == Dot(row, c, mid, hi)
    decreases mid - lo
  {
    if lo < mid {
      DotSplitLow(row, c, lo, hi);
      DotZeroPrefix(row, c, lo + 1, mid, hi);
    }
  }

  // ------------------------------------------------ solution preservation

  /** Exchanging two rows does not change the solutions. */
  lemma SwapPreservesSolutions(M: Matrix, n: nat, k: nat, r: nat, c: seq<real>)
    requires IsAugmented(M, n) && k <= r < n && Echelon(M, n, k) && |c| == n
    ensures Solves(SwapTail(M, n, k, r), n, c) <==> Solves(M, n, c)
  {
    var S := SwapTail(M, n, k, r);
    SwapTailIsRowSwap(M, n, k, r);
    if Solves(M, n, c) {
      forall i | 0 <= i < n
        ensures Dot(S[i], c, 0, n) == S[i][n]
      {
        var src := if i == k then r else if i == r then k else i;
        assert S[i] == M[src];
      }
    }
    if Solves(S, n, c) {
      forall i | 0 <= i < n
        ensures Dot(M[i], c, 0, n) == M[i][n]
      {
        var src := if i == k then r else if i == r then k else i;
        assert M[i] == S[src];
      }
    }
  }

  /** Row i > k after elimination: its entries are row i minus f times row k. */
  lemma EliminatedRow(M: Matrix, n: nat, k: nat, i: nat)
    requires IsAugmented(M, n) && k < i < n && M[k][k] != 0.0 && Echelon(M, n, k)
    ensures forall j :: 0 <= j < n + 1 ==>
      EliminateBelow(M, n, k)[i][j] == M[i][j] - (M[i][k] / M[k][k]) * M[k][j]
  {
    var E := EliminateBelow(M, n, k);
    var f := M[i][k] / M[k][k];
    forall j | 0 <= j < n + 1
      ensures E[i][j] == M[i][j] - f * M[k][j]
    {
      if j < k {
        assert M[k][j] == 0.0;
      }
    }
  }

  /** The residual of an eliminated row is the old residual minus f times the pivot row's. */
  lemma EliminatedResidual(M: Matrix, n: nat, k: nat, i: nat, c: seq<real>)
    requires IsAugmented(M, n) && k < i < n && M[k][k] != 0.0 && Echelon(M, n, k) && |c| == n
    ensures var E := EliminateBelow(M, n, k);
      Dot(E[i], c, 0, n) - E[i][n] ==
        (Dot(M[i], c, 0, n) - M[i][n]) - (M[i][k] / M[k][k]) * (Dot(M[k], c, 0, n) - M[k][n])
  {
    var E := EliminateBelow(M, n, k);
    EliminatedRow(M, n, k, i);
    DotLinear(M[i], M[k], E[i], c, M[i][k] / M[k][k], 0, n);
  }

  /** Subtracting multiples of row k (whose first k entries are zero) from the
      rows below it does not change the solutions. */
  lemma EliminatePreservesSolutions(M: Matrix, n: nat, k: nat, c: seq<real>)
    requires IsAugmented(M, n) && k < n && M[k][k] != 0.0 && Echelon(M, n, k) && |c| == n
    ensures Solves(EliminateBelow(M, n, k), n, c) <==> Solves(M, n, c)
  {
    var E := EliminateBelow(M, n, k);
    EliminateClearsColumn(M, n, k);
    if Solves(M, n, c) {
      forall i | k < i < n
        ensures Dot(E[i], c, 0, n) == E[i][n]
      {
        EliminatedResidual(M, n, k, i, c);
      }
    }
    if Solves(E, n, c) {
      assert E[k] == M[k];
      forall i | k < i < n
        ensures Dot(M[i], c, 0, n) == M[i][n]
      {
        EliminatedResidual(M, n, k, i, c);
      }
    }
  }

  /** A step of forward elimination does not change the solutions. */
  lemma StepPreservesSolutions(M: Matrix, n: nat, k: nat, pivoting: bool, c: seq<real>)
    requires IsAugmented(M, n) && k < n && Pivoted(M, n, k, pivoting)[k][k] != 0.0
    requires Echelon(M, n, k) && |c| == n
    ensures Solves(Step(M, n, k, pivoting), n, c) <==> Solves(M, n, c)
  {
    var p := PivotRow(M, n, k, pivoting);
    var S := Pivoted(M, n, k, pivoting);
    SwapPreservesSolutions(M, n, k, p, c);
    SwapTailIsRowSwap(M, n, k, p);
    assert Echelon(S, n, k);
    EliminatePreservesSolutions(S, n, k, c);
  }

  /** Forward elimination does not change the solutions. */
  lemma {:induction false} ForwardPreservesSolutions(M: Matrix, n: nat, k: nat, pivoting: bool, c: seq<real>)
    requires IsAugmented(M, n) && k <= n && PivotsNonZero(M, n, k, pivoting)
    requires Echelon(M, n, k) && |c| == n
    ensures Solves(Forward(M, n, k, pivoting), n, c) <==> Solves(M, n, c)
    decreases n - k
  {
    if k < n {
      StepPreservesSolutions(M, n, k, pivoting, c);
      StepEchelon(M, n, k, pivoting);
      ForwardPreservesSolutions(Step(M, n, k, pivoting), n, k + 1, pivoting, c);
    }
  }

  // ------------------------------------------------- back-substitution

  lemma QuotientTimesDivisor(a: real, b: real)
    requires b != 0.0
    ensures b * (a / b) == a
  {
  }

  lemma DivisorCancels(a: real, b: real, q: real)
    requires b != 0.0 && b * q == a
    ensures q == a / b
  {
  }

  lemma {:induction false} BackFromStable(U: Matrix, n: nat, i: nat, j: nat)
    requires IsAugmented(U, n) && i <= j <= n && forall r :: i <= r < n ==> U[r][r] != 0.0
    ensures forall t :: j <= t < n ==> BackFrom(U, n, i)[t] == BackFrom(U, n, j)[t]
    decreases j - i
  {
    if i < j {
      BackFromStable(U, n, i + 1, j);
    }
  }

  /** Back-substitution solves row r from the diagonal onward:
      Σ_{j >= r} U[r][j]·c[j] = U[r][n]. */
  lemma BackSubstitutionSolvesRows(U: Matrix, n: nat)
    requires IsAugmented(U, n) && NonZeroDiagonal(U, n)
    ensures var c := BackFrom(U, n, 0);
      forall r :: 0 <= r < n ==> Dot(U[r], c, r, n) == U[r][n]
  {
    var c := BackFrom(U, n, 0);
    forall r | 0 <= r < n
      ensures Dot(U[r], c, r, n) == U[r][n]
    {
      var next := BackFrom(U, n, r + 1);
      BackFromStable(U, n, 0, r);
      BackFromStable(U, n, r, r + 1);
      DotAgree(U[r], c, next, r + 1, n);
      DotSplitLow(U[r], c, r, n);
      var rest := Dot(U[r], next, r + 1, n);
      assert c[r] == (U[r][n] - rest) / U[r][r];
      QuotientTimesDivisor(U[r][n] - rest, U[r][r]);
    }
  }

  /** On an upper-triangular system with a non-zero diagonal, back-substitution
      yields a solution, and the only one. */
  lemma BackSubstitutionCorrect(U: Matrix, n: nat)
    requires IsAugmented(U, n) && UpperTriangular(U, n) && NonZeroDiagonal(U, n)
    ensures Solves(U, n, BackFrom(U, n, 0))
    ensures forall d :: Solves(U, n, d) ==> d == BackFrom(U, n, 0)
  {
    var c := BackFrom(U, n, 0);
    BackSubstitutionSolvesRows(U, n);
    forall r | 0 <= r < n
      ensures Dot(U[r], c, 0, n) == U[r][n]
    {
      DotZeroPrefix(U[r], c, 0, r, n);
    }
    forall d | Solves(U, n, d)
      ensures d == c
    {
      BackFromUnique(U, n, 0, d);
    }
  }

  /** The unknown x of a row a·x + rest = total. */
  lemma RowUnknown(a: real, x: real, rest: real, total: real)
    requires a != 0.0 && a * x + rest == total
    ensures x == (total - rest) / a
  {
    DivisorCancels(total - rest, a, x);
  }

  /** A solution that agrees with back-substitution after row i agrees with it at row i. */
  lemma BackFromUniqueStep(U: Matrix, n: nat, i: nat, d: seq<real>)
    requires IsAugmented(U, n) && UpperTriangular(U, n) && NonZeroDiagonal(U, n)
    requires i < n && Solves(U, n, d)
    requires forall t :: i + 1 <= t < n ==> d[t] == BackFrom(U, n, i + 1)[t]
    ensures forall t :: i <= t < n ==> d[t] == BackFrom(U, n, i)[t]
  {
    var next := BackFrom(U, n, i + 1);
    var row := U[i];
    assert forall j :: 0 <= j < i ==> row[j] == 0.0;
    DotZeroPrefix(row, d, 0, i, n);
    DotSplitLow(row, d, i, n);
    DotAgree(row, d, next, i + 1, n);
    RowUnknown(row[i], d[i], Dot(row, next, i + 1, n), row[n]);
  }

  lemma {:induction false} BackFromUnique(U: Matrix, n: nat, i: nat, d: seq<real>)
    requires IsAugmented(U, n) && UpperTriangular(U, n) && NonZeroDiagonal(U, n)
    requires i <= n && Solves(U, n, d)
    ensures forall t :: i <= t < n ==> d[t] == BackFrom(U, n, i)[t]
    ensures i == 0 ==> d == BackFrom(U, n, 0)
    decreases n - i
  {
    if i < n {
      BackFromUnique(U, n, i + 1, d);
      BackFromUniqueStep(U, n, i, d);
    }
    if i == 0 {
      var c := BackFrom(U, n, 0);
      assert |d| == |c|;
    }
  }

  /** The solver's result solves the system it was given, and it is the only
      solution (exact arithmetic, non-zero pivots). */
  lemma SolveCorrect(M: Matrix, n: nat, pivoting: bool)
    requires IsAugmented(M, n) && PivotsNonZero(M, n, 0, pivoting)
    ensures Solves(M, n, Solve(M, n, pivoting))
    ensures forall d :: Solves(M, n, d) ==> d == Solve(M, n, pivoting)
  {
    var U := Forward(M, n, 0, pivoting);
    ForwardShape(M, n, 0, pivoting);
    BackSubstitutionCorrect(U, n);
    var c := Solve(M, n, pivoting);
    ForwardPreservesSolutions(M, n, 0, pivoting, c);
    forall d | Solves(M, n, d)
      ensures d == c
    {
      ForwardPreservesSolutions(M, n, 0, pivoting, d);
    }
  }
  /** With exact arithmetic, whether the solver pivots does not change the
      solution, whenever both eliminations divide through. */
  lemma PivotingAgrees(M: Matrix, n: nat)
    requires IsAugmented(M, n) && PivotsNonZero(M, n, 0, false) && PivotsNonZero(M, n, 0, true)
    ensures Solve(M, n, false) == Solve(M, n, true)
  {
    SolveCorrect(M, n, false);
    SolveCorrect(M, n, true);
  }

  // ====================================================== in place

  /** The array A holds the augmented matrix M. */
  ghost predicate Holds(A: array2<real>, M: Matrix)
    reads A
  {
    IsAugmented(M, A.Length0) && A.Length1 == A.Length0 + 1 &&
    forall i, j :: 0 <= i < A.Length0 && 0 <= j < A.Length1 ==> A[i, j] == M[i][j]
  }

  /** Lines 355-360: the pivot search of step k. */
  method FindPivot(A: array2<real>, n: nat, k: nat, ghost M: Matrix) returns (maxRow: nat)
    requires A.Length0 == n && Holds(A, M) && k < n
    ensures maxRow == ArgMaxAbs(M, n, k, n)
  {
    maxRow := k;
    var i := k + 1;
    while i < n
      invariant k + 1 <= i <= n
      invariant maxRow == ArgMaxAbs(M, n, k, i)
    {
      if Abs(A[i, k]) > Abs(A[maxRow, k]) {
        maxRow := i;
      }
      i := i + 1;
    }
  }

  /** Lines 363-369: exchanges the tails of rows k and r. */
  method SwapRows(A: array2<real>, n: nat, k: nat, r: nat, ghost M: Matrix)
    requires A.Length0 == n && Holds(A, M) && k < n && r < n
    modifies A
    ensures Holds(A, SwapTail(M, n, k, r))
  {
    if r != k {
      var j := k;
      while j <= n
        invariant k <= j <= n + 1
        invariant forall i, t :: 0 <= i < n && 0 <= t < n + 1 ==>
          A[i, t] == if t < j then SwapTail(M, n, k, r)[i][t] else M[i][t]
      {
        var temp := A[k, j];
        A[k, j] := A[r, j];
        A[r, j] := temp;
        j := j + 1;
      }
    }
  }

  /** Lines 372-377: clears column k below the pivot. */
  method EliminateColumn(A: array2<real>, n: nat, k: nat, ghost M: Matrix)
    requires A.Length0 == n && Holds(A, M) && k < n && M[k][k] != 0.0
    modifies A
    ensures Holds(A, EliminateBelow(M, n, k))
  {
    ghost var E := EliminateBelow(M, n, k);
    var i := k + 1;
    while i < n
      invariant k + 1 <= i <= n
      invariant forall r, t :: 0 <= r < n && 0 <= t < n + 1 ==>
        A[r, t] == if r < i then E[r][t] else M[r][t]
    {
      var factor := A[i, k] / A[k, k];
      var j := k;
      while j <= n
        invariant k <= j <= n + 1
        invariant forall r, t :: 0 <= r < n && 0 <= t < n + 1 ==>
          A[r, t] == if r < i || (r == i && t < j) then E[r][t] else M[r][t]
      {
        A[i, j] := A[i, j] - factor * A[k, j];
        j := j + 1;
      }
      i := i + 1;
    }
  }

  lemma ForwardUnfold(M: Matrix, n: nat, k: nat, pivoting: bool)
    requires IsAugmented(M, n) && k < n && PivotsNonZero(M, n, k, pivoting)
    ensures Pivoted(M, n, k, pivoting)[k][k] != 0.0
    ensures PivotsNonZero(Step(M, n, k, pivoting), n, k + 1, pivoting)
    ensures Forward(M, n, k, pivoting) == Forward(Step(M, n, k, pivoting), n, k + 1, pivoting)
  {
  }

  /** One iteration of the outer loop (lines 353-378): pivot search, row swap
      and elimination below row k. */
  method EliminationStep(A: array2<real>, n: nat, k: nat, pivoting: bool, ghost M: Matrix)
    requires A.Length0 == n && Holds(A, M) && k < n && Pivoted(M, n, k, pivoting)[k][k] != 0.0
    modifies A
    ensures Holds(A, Step(M, n, k, pivoting))
  {
    var maxRow := k;
    if pivoting {
      maxRow := FindPivot(A, n, k, M);
    }
    assert maxRow == PivotRow(M, n, k, pivoting);
    SwapRows(A, n, k, maxRow, M);
    EliminateColumn(A, n, k, Pivoted(M, n, k, pivoting));
  }

  /** Lines 353-378 (and, without pivoting, lines 293-300): forward elimination. */
  method Eliminate(A: array2<real>, n: nat, pivoting: bool, ghost M: Matrix)
    requires A.Length0 == n && Holds(A, M) && PivotsNonZero(M, n, 0, pivoting)
    modifies A
    ensures Holds(A, Forward(M, n, 0, pivoting))
  {
    ghost var Mk := M;
    var k := 0;
    while k < n
      invariant 0 <= k <= n
      invariant IsAugmented(Mk, n) && Holds(A, Mk) && PivotsNonZero(Mk, n, k, pivoting)
      invariant Forward(Mk, n, k, pivoting) == Forward(M, n, 0, pivoting)
    {
      ForwardUnfold(Mk, n, k, pivoting);
      EliminationStep(A, n, k, pivoting, Mk);
      Mk := Step(Mk, n, k, pivoting);
      k := k + 1;
    }
  }

  /** One row of back-substitution (lines 385-389): coeff[i+1] becomes the
      unknown i, computed from the unknowns after it, already in coeff. */
  method SubstituteRow(A: array2<real>, n: nat, i: nat, ghost U: Matrix, coeff: array<real>, ghost next: seq<real>)
    requires A.Length0 == n && Holds(A, U) && i < n && U[i][i] != 0.0
    requires coeff.Length == n + 1 && |next| == n
    requires forall t :: i < t < n ==> coeff[t + 1] == next[t]
    modifies coeff
    ensures coeff[i + 1] == (U[i][n] - Dot(U[i], next, i + 1, n)) / U[i][i]
    ensures forall t :: 0 <= t < n + 1 && t != i + 1 ==> coeff[t] == old(coeff[t])
  {
    coeff[i + 1] := A[i, n];
    var j := i + 1;
    while j < n
      invariant i + 1 <= j <= n
      invariant forall t :: 0 <= t < n + 1 && t != i + 1 ==> coeff[t] == old(coeff[t])
      invariant coeff[i + 1] == U[i][n] - Dot(U[i], next, i + 1, j)
    {
      coeff[i + 1] := coeff[i + 1] - A[i, j] * coeff[j + 1];
      j := j + 1;
    }
    coeff[i + 1] := coeff[i + 1] / A[i, i];
  }

  /** Lines 381-390: back-substitution into coeff[1..], leaving coeff[0] alone. */
  method BackSubstitute(A: array2<real>, n: nat, ghost U: Matrix, coeff: array<real>)
    requires A.Length0 == n && Holds(A, U) && NonZeroDiagonal(U, n) && coeff.Length == n + 1
    modifies coeff
    ensures coeff[0] == old(coeff[0])
    ensures coeff[1..] == BackFrom(U, n, 0)
  {
    var i: int := n - 1;
    ghost var next := BackFrom(U, n, n);
    while i >= 0
      invariant -1 <= i < n
      invariant next == BackFrom(U, n, i + 1)
      invariant coeff[0] == old(coeff[0])
      invariant forall t :: i < t < n ==> coeff[t + 1] == next[t]
    {
      SubstituteRow(A, n, i, U, coeff, next);
      next := BackFrom(U, n, i);
      i := i - 1;
    }
    assert forall t :: 0 <= t < n ==> coeff[1..][t] == next[t];
  }
}
