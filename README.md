# Regression engine of pblNOP.c, modelled and verified in Dafny

The program keeps a growable dataset of points (x, y) and fits one of five
models to it by least squares:

- a line `y = a + b·x`;
- a logarithmic curve `y = a + b·ln x`;
- an exponential curve `y = a·e^(b·x)`;
- a parabola `y = a + b·x + c·x²`;
- a polynomial of a degree the user chooses.

After each fit it reports the coefficients and the coefficient of
determination R².

The three two-parameter fits use the closed form of the 2×2 normal equations,
with every quotient going through `safeDiv`. The exponential fit applies it to
`ln y`. The parabola solves its 3×3 normal equations by Gaussian elimination
without pivoting and writes its back-substitution out by hand. The polynomial
fit builds the Hankel normal matrix from power sums and solves it by Gaussian
elimination with partial pivoting. It hands polyModel a coefficient vector
whose first entry is the degree.

The Dafny modules follow this structure:

- **Numeric**: `safeDiv`, `pow`, the `(int)` cast and the running sums.
- **Datasets**: the dataset buffer, a class over two arrays.
- **Models**: the five model evaluators.
- **GoodnessOfFit**: `calculateR2`.
- **LinearSystem**: the Gaussian-elimination solver. It is specified over
  `seq<seq<real>>`. Methods over `array2<real>` are tied to that
  specification by `Holds`.
- **ClosedForm**: the 2×2 closed form.
- **NormalEquations**: the normal matrix and the loops that build it.
- **Regression**: the five drivers and the degree check of the menu. Each
  driver is a function that specifies it and a method that follows the C
  loops over the dataset.
- **FitProperties**: how the drivers relate to each other. It also shows what
  they report on data that lies exactly on one of the models.

The following choices run through the whole model:

- **Doubles are reals.** `DBL_EPSILON` is the exact value 2^-52.
- **`log` and `exp` are function-valued parameters.** They are left
  uninterpreted, with no law relating them. The exponential exact-fit property
  (`FitProperties.ExponentialExactFit`) therefore takes two hypotheses about
  the data: ln y lies on the line a + b·x, and the exponential model with
  coefficients [exp(a), b] reproduces every y.
- **Zero pivots do not reach the solver.** The solver divides by its pivots
  without a guard, and so does the parabola's step at lines 293-305. The
  model lets only systems with non-zero pivots reach that code, through the
  `PivotsNonZero` precondition. In C a zero pivot produces inf or NaN.
- **Two elimination routines become one.** The quadratic driver's elimination
  is the solver's `Forward` with pivoting switched off. It runs one more step
  than C's `k < 2` loop. That step has no rows below it, so it changes
  nothing.
- **The order of subtraction differs.** The parabola's back-substitution
  subtracts in the order `A[0][3] - A[0][2]·c - A[0][1]·b`. The general one
  runs `j` upward. In reals both give the same value
  (`Regression.BackSubstitutionOfThree`).
- **One sums loop.** All three closed-form drivers share one loop
  (`Regression.LineSums`) over the transformed points (u, v).

## Model

| member | source | states |
|---|---|---|
| Numeric.Abs | pblNOP.c:66 | definition: `fabs`, the exact absolute value |
| Numeric.Pow | pblNOP.c:334 | definition: `pow(x, e)` at a natural exponent, the e-fold product of x with itself (1 at e = 0) |
| Numeric.Sum | pblNOP.c:74-76 | definition: the running sum Σ s[i], accumulated from the first element to the last as the loops do (used for Σx, Σy and the mean) |
| Numeric.SumProd | pblNOP.c:133-134 | definition: the running sum Σ a[i]·b[i] (Σx² and Σxy of lines 133-134, and their ln-transformed forms) |
| Numeric.PowerSum | pblNOP.c:332-336 | definition: X[e] = Σ_j pow(x[j], e) |
| Numeric.MomentSum | pblNOP.c:338-342 | definition: Y[e] = Σ_j pow(x[j], e)·y[j] |
| Numeric.SafeDiv | pblNOP.c:65-67 | no division when the divisor is within ε of zero: the result is 0 there, and otherwise it is the exact quotient (q·b = a); it is non-negative for non-negative operands |
| Numeric.Trunc | pblNOP.c:107 | C's `(int)` cast truncates toward zero: for r ≥ 0 the result t satisfies t ≤ r < t+1, and for r < 0 it satisfies t−1 < r ≤ t |
| Numeric.PowAdd | pblNOP.c:334 | `pow` at natural exponents satisfies x^(a+b) = x^a·x^b |
| Numeric.PowerSumZero | pblNOP.c:332-336 | X[0] is the number of points |
| Numeric.PowerSumOne | pblNOP.c:332-336 | X[1] is Σx |
| Numeric.PowerSumTwo | pblNOP.c:332-336 | X[2] is Σx² |
| Numeric.MomentSumZero | pblNOP.c:338-342 | Y[0] is Σy |
| Numeric.MomentSumOne | pblNOP.c:338-342 | Y[1] is Σx·y |
| Numeric.SumConstant | pblNOP.c:74-77 | the sum of n copies of c is n·c |
| Numeric.SumProdSelfConstant | pblNOP.c:133 | Σc² over n copies of c is n·c² |
| Datasets.NextCapacity | pblNOP.c:33 | definition: the growth rule, 100 slots for an empty buffer and twice the capacity otherwise |
| Datasets.ReachableAtLeast100 | pblNOP.c:33 | every non-zero capacity the growth rule can produce is at least 100 |
| Datasets.NextCapacityReachable | pblNOP.c:33 | one growth step strictly enlarges the capacity and stays among the reachable capacities (0 or 100·2^k) |
| Datasets.Dataset.constructor | pblNOP.c:18-21 | a new dataset is valid, has no points and no storage |
| Datasets.Dataset.Free | pblNOP.c:24-29 | after freeing, the dataset is valid, empty and has no storage |
| Datasets.Dataset.Expand | pblNOP.c:32-47 | a full buffer is reallocated at the next capacity (100 when empty, doubled otherwise); the old contents are copied and the size is unchanged |
| Datasets.Dataset.AddDataPoint | pblNOP.c:50-57 | the point is appended: Xs and Ys grow by exactly px and py; the buffer grows exactly when it was full |
| Models.Predict | pblNOP.c:89-103 | definition: the value of each model at x: coeff[0] + coeff[1]·x, coeff[0] + coeff[1]·log(x), coeff[0]·exp(coeff[1]·x), coeff[0] + coeff[1]·x + coeff[2]·x·x, and polyModel |
| Models.PolyValue | pblNOP.c:105-112 | definition: polyModel, Σ_{i ≤ (int)coeff[0]} coeff[i+1]·pow(x, i), reading the degree back by truncation |
| Models.EvaluatePolynomial | pblNOP.c:105-112 | polyModel's loop computes Σ_{i ≤ (int)coeff[0]} coeff[i+1]·x^i, and 0 for a negative degree |
| Models.PolyModelDecodesDegree | pblNOP.c:105-112 | a degree d stored in coeff[0], followed by d+1 coefficients, is decoded back: polyModel evaluates exactly the polynomial with those coefficients |
| Models.LinearIsPolynomial | pblNOP.c:89-91 | linearModel with [a, b] predicts what polyModel predicts with [1, a, b] |
| Models.QuadraticIsPolynomial | pblNOP.c:101-103 | quadraticModel with [a, b, c] predicts what polyModel predicts with [2, a, b, c] |
| GoodnessOfFit.Mean | pblNOP.c:74-77 | definition: y_mean, the sum of the y values divided by their number |
| GoodnessOfFit.SquaredDeviations | pblNOP.c:79-83 | definition: ss_tot, Σ (y[i] − mean)² in index order |
| GoodnessOfFit.SquaredResiduals | pblNOP.c:79-83 | definition: ss_res, Σ (y[i] − model(x[i]))² in index order |
| GoodnessOfFit.R2 | pblNOP.c:85 | definition: 1 − safeDiv(ss_res, ss_tot) |
| GoodnessOfFit.GoodnessOfPoints | pblNOP.c:72-85 | the mean loop and the residual loop compute 1 − safeDiv(Σ(y − model(x))², Σ(y − mean)²) |
| GoodnessOfFit.CalculateR2 | pblNOP.c:70-86 | calculateR2 over the dataset's points returns that R² |
| GoodnessOfFit.SquaredDeviationsNonNegative | pblNOP.c:79-83 | ss_tot ≥ 0 |
| GoodnessOfFit.SquaredResidualsNonNegative | pblNOP.c:79-83 | ss_res ≥ 0 |
| GoodnessOfFit.R2AtMostOne | pblNOP.c:85 | R² never exceeds 1 |
| GoodnessOfFit.R2WithoutSpread | pblNOP.c:85 | when ss_tot < ε, R² is exactly 1 |
| GoodnessOfFit.R2OfConstantY | pblNOP.c:74-85 | when every y is equal, R² is 1 whatever the model |
| GoodnessOfFit.SquaredResidualsOfExactFit | pblNOP.c:79-83 | a model that reproduces every y has ss_res = 0 |
| GoodnessOfFit.R2OfExactFit | pblNOP.c:70-86 | a model that reproduces every y has R² = 1 |
| GoodnessOfFit.SquaredResidualsOfAgreeingModels | pblNOP.c:79-83 | two models that agree at every data point have equal ss_res |
| GoodnessOfFit.R2OfAgreeingModels | pblNOP.c:70-86 | R² depends on a model only through its predictions at the data points |
| LinearSystem.PivotRow | pblNOP.c:355-360 | definition: the pivot row of step k, the search's argmax with pivoting and k itself without (the quadratic driver's elimination at lines 293-300) |
| LinearSystem.SwapTail | pblNOP.c:363-369 | definition: rows k and r exchanged from column k onward, and nothing done when r = k; its ensures keeps the n × (n+1) shape |
| LinearSystem.EliminateBelow | pblNOP.c:372-377 | definition: every row i > k loses (A[i][k]/A[k][k]) times row k from column k onward, the factor read before the row changes; its ensures keeps the shape |
| LinearSystem.Step | pblNOP.c:353-378 | definition: one outer iteration, the pivot swapped into row k and then the column eliminated; its ensures keeps the shape |
| LinearSystem.PivotsNonZero | pblNOP.c:373 | definition: every pivot A[k][k] that steps k .. n−1 divide by is non-zero |
| LinearSystem.Forward | pblNOP.c:353-378 | definition: the outer loop from step k to the last; its ensures keeps the shape |
| LinearSystem.BackFrom | pblNOP.c:384-390 | definition: back-substitution from row n−1 up to row i, each unknown (A[i][n] − Σ_{j>i} A[i][j]·c[j]) / A[i][i]; its ensures gives n values |
| LinearSystem.Solve | pblNOP.c:353-390 | definition: forward elimination, then back-substitution; its ensures gives n values |
| LinearSystem.ArgMaxAbs | pblNOP.c:355-360 | the pivot search returns a row in k .. hi−1 of maximal \|A[i][k]\|, the first such row (the comparison is strict) |
| LinearSystem.SwapTailInvolution | pblNOP.c:363-369 | swapping the same row tails twice restores the matrix |
| LinearSystem.SwapTailOtherRows | pblNOP.c:363-369 | the swap leaves every row other than k and r untouched |
| LinearSystem.SwapTailIsRowSwap | pblNOP.c:363-369 | once the columns left of k are cleared, swapping from column k on is a swap of whole rows |
| LinearSystem.EliminateClearsColumn | pblNOP.c:372-377 | elimination zeroes column k below the pivot and leaves rows 0 .. k alone |
| LinearSystem.StepEchelon | pblNOP.c:353-378 | one outer step extends the echelon form by one column |
| LinearSystem.StepKeepsRows | pblNOP.c:353-378 | step k leaves rows 0 .. k−1 alone |
| LinearSystem.ForwardKeepsRows | pblNOP.c:353-378 | forward elimination from step k leaves rows 0 .. k−1 alone |
| LinearSystem.ForwardDiagonal | pblNOP.c:353-378 | when every pivot met is non-zero, the eliminated matrix has a non-zero diagonal from k on |
| LinearSystem.ForwardEchelon | pblNOP.c:353-378 | forward elimination ends upper triangular |
| LinearSystem.ForwardShape | pblNOP.c:353-378 | these three facts about the result of forward elimination, together |
| LinearSystem.SwapPreservesSolutions | pblNOP.c:363-369 | a vector solves the system after the row swap if and only if it solved it before |
| LinearSystem.EliminatedRow | pblNOP.c:372-377 | each row below k becomes the old row minus (A[i][k]/A[k][k]) times row k |
| LinearSystem.EliminatedResidual | pblNOP.c:372-377 | the residual of an eliminated row is the old residual minus the same multiple of the pivot row's residual |
| LinearSystem.EliminatePreservesSolutions | pblNOP.c:372-377 | a vector solves the system after elimination if and only if it solved it before |
| LinearSystem.StepPreservesSolutions | pblNOP.c:353-378 | one step (swap, then eliminate) preserves the solution set, in both directions |
| LinearSystem.ForwardPreservesSolutions | pblNOP.c:353-378 | the whole of forward elimination preserves the solution set, in both directions |
| LinearSystem.BackFromStable | pblNOP.c:384-390 | the unknowns i .. n−1 that back-substitution has computed are not changed by the rows above |
| LinearSystem.BackSubstitutionSolvesRows | pblNOP.c:384-390 | each back-substituted row satisfies its equation from the diagonal onward |
| LinearSystem.BackSubstitutionCorrect | pblNOP.c:384-390 | on an upper-triangular system with a non-zero diagonal, back-substitution yields a solution, and it is the only solution |
| LinearSystem.BackFromUniqueStep | pblNOP.c:384-390 | a solution that agrees with back-substitution below row i also agrees at row i |
| LinearSystem.BackFromUnique | pblNOP.c:384-390 | any solution of the triangular system equals the back-substituted one |
| LinearSystem.SolveCorrect | pblNOP.c:353-390 | when no pivot is zero, the solver's result solves the original system, and every solution equals it |
| LinearSystem.PivotingAgrees | pblNOP.c:293-300 | in exact arithmetic, elimination with and without partial pivoting yields the same coefficients when neither meets a zero pivot |
| LinearSystem.FindPivot | pblNOP.c:355-360 | the array loop returns ArgMaxAbs of column k over rows k .. n−1 |
| LinearSystem.SwapRows | pblNOP.c:363-369 | the array afterwards holds the matrix with the row tails of k and r exchanged |
| LinearSystem.EliminateColumn | pblNOP.c:372-377 | the array afterwards holds the matrix with column k eliminated below the pivot |
| LinearSystem.ForwardUnfold | pblNOP.c:353 | the outer loop's step k leaves a non-zero pivot; the rest of elimination is forward elimination from k+1 |
| LinearSystem.EliminationStep | pblNOP.c:353-378 | one iteration of the outer loop turns the array's matrix M into Step(M, k) |
| LinearSystem.Eliminate | pblNOP.c:353-378 | the array ends holding the forward-eliminated matrix |
| LinearSystem.SubstituteRow | pblNOP.c:385-389 | coeff[i+1] becomes (A[i][n] − Σ_{j>i} A[i][j]·coeff[j+1]) / A[i][i], and no other entry changes |
| LinearSystem.BackSubstitute | pblNOP.c:381-390 | coeff[1..] ends equal to back-substitution of the array's matrix; coeff[0] is untouched |
| ClosedForm.Determinant | pblNOP.c:143 | definition: denom = n·Σu² − (Σu)² |
| ClosedForm.LineCoefficients | pblNOP.c:143-145 | when \|det\| < ε both coefficients are 0 (the safeDiv fallback) |
| ClosedForm.LineSolvesNormalEquations | pblNOP.c:143-145 | when \|det\| ≥ ε, [a, b] satisfies both 2×2 normal equations n·a + Σu·b = Σv and Σu·a + Σu²·b = Σuv |
| ClosedForm.LineIsUnique | pblNOP.c:143-145 | when \|det\| ≥ ε, any solution of the normal equations is the closed form's [a, b] |
| ClosedForm.BalancedLine | pblNOP.c:143-145 | a helper of FitLineExact: LineIsUnique restated with the products written through Mul, the form the sum lemmas produce |
| ClosedForm.SumOnLine | pblNOP.c:131-132 | for points on v = a + b·u, Σv = n·a + Σu·b |
| ClosedForm.MomentOnLine | pblNOP.c:133-134 | for points on v = a + b·u, Σuv = Σu·a + Σu²·b |
| ClosedForm.FitLine | pblNOP.c:143-145 | definition: the closed form applied to the sums of a sequence of points (u, v); its ensures gives 2 coefficients |
| ClosedForm.FitLineExact | pblNOP.c:128-145 | for points exactly on v = a + b·u with \|det\| ≥ ε, the closed form returns [a, b] |
| NormalEquations.NormalMatrix | pblNOP.c:344-350 | the normal matrix is (degree+1)×(degree+2), symmetric in its square part, with n in the corner |
| NormalEquations.NormalRow | pblNOP.c:344-350 | entry (i, j) is X[i+j] = Σx^(i+j), and the last column is Y[i] = Σx^i·y |
| NormalEquations.RowIsHankelDot | pblNOP.c:347 | row i times p is Σ_j X[i+j]·p[j] |
| NormalEquations.PointDotFactors | pblNOP.c:347 | one point's share of that sum is x^i times the polynomial's value at x |
| NormalEquations.HankelDotOfExactData | pblNOP.c:332-349 | for points on the polynomial p, Σ_j X[i+j]·p[j] equals Y[i] |
| NormalEquations.NormalEquationsOfExactData | pblNOP.c:323-350 | the coefficients of a polynomial through every point solve its normal equations |
| NormalEquations.PowerSums | pblNOP.c:332-336 | the zeroed buffer X ends with X[e] = Σ_j x[j]^e for every e < 2·degree+1 |
| NormalEquations.MomentSums | pblNOP.c:338-342 | the zeroed buffer Y ends with Y[e] = Σ_j x[j]^e·y[j] for every e < degree+1 |
| NormalEquations.FillRow | pblNOP.c:345-349 | row i of A becomes X[i .. i+degree] followed by Y[i], and no other row changes |
| NormalEquations.BuildNormalMatrix | pblNOP.c:323-350 | the fresh array holds the normal matrix of the dataset |
| Regression.FirstNonPositive | pblNOP.c:164-169 | the index the validity loop stops at: every value before it is positive, and the value at it is ≤ 0, or it is the length |
| Regression.FirstNonPositiveIs | pblNOP.c:164-169 | the two properties single out that index |
| Regression.FindNonPositive | pblNOP.c:214-219 | the array loop returns the first index whose value is ≤ 0, or n |
| Regression.LinearFit | pblNOP.c:115-155 | rejected exactly when there are fewer than 2 points, recording the required 2 (the only number the message prints) and the available count; a fit has 2 coefficients and R² ≤ 1 |
| Regression.LogFit | pblNOP.c:157-205 | fewer than 2 points is rejected first; otherwise it fits exactly when every x > 0, and a rejection names the first x ≤ 0, by index and value; a fit has 2 coefficients and R² ≤ 1 |
| Regression.ExponentialFit | pblNOP.c:207-256 | the same, for y ≤ 0; the fit reports [e^A, B] |
| Regression.QuadraticFit | pblNOP.c:258-315 | rejected exactly when there are fewer than 3 points; a fit is 3 coefficients that solve the normal equations of degree 2, with R² ≤ 1 |
| Regression.PolynomialCoefficients | pblNOP.c:380-390 | the vector holds the degree in coeff[0], then the solution of the normal equations; polyModel reads the same degree back |
| Regression.PolynomialFit | pblNOP.c:317-412 | rejected exactly when size ≤ degree; a fit reports the degree-tagged solution with R² ≤ 1 |
| Regression.PolynomialMenu | pblNOP.c:584-591 | the menu rejects the degree exactly when it is not in 1 .. size−1, recording the degree and the maximum size−1 (the message prints neither; the prompt at line 584 shows the maximum); otherwise polyRegression runs with that degree |
| Regression.LineSums | pblNOP.c:128-140 | the loop computes Σu, Σv, Σu² and Σuv |
| Regression.LinearRegression | pblNOP.c:115-155 | the driver over the dataset returns LinearFit of its points |
| Regression.LogRegression | pblNOP.c:157-205 | the driver returns LogFit of its points |
| Regression.ExponentialRegression | pblNOP.c:207-256 | the driver returns ExponentialFit of its points |
| Regression.LowPowers | pblNOP.c:274 | the products x·x, x²·x and x²·x² are x², x³ and x⁴ |
| Regression.QuadraticSums | pblNOP.c:272-282 | the loop computes Σx, Σx², Σx³, Σx⁴, Σy, Σxy and Σx²y |
| Regression.QuadraticNormalMatrix | pblNOP.c:286-290 | the 3×4 matrix initialised from those sums is the normal matrix of degree 2 |
| Regression.BackSubstitutionOfThree | pblNOP.c:303-305 | the hand-written c, b, a are the general back-substitution |
| Regression.QuadraticSystem | pblNOP.c:264-290 | the fresh 3×4 array holds the normal matrix of degree 2 |
| Regression.BackSubstituteThree | pblNOP.c:303-305 | reads the eliminated system's solution as [a, b, c] |
| Regression.Eliminated | pblNOP.c:293-305 | when no pivot is zero, the eliminated matrix has a non-zero diagonal and back-substitution on it is the solver's result |
| Regression.QuadraticRegression | pblNOP.c:258-315 | the driver returns QuadraticFit of its points |
| Regression.StoreCoefficients | pblNOP.c:380-390 | coeff is the degree followed by back-substitution of the eliminated matrix |
| Regression.SolvePolynomial | pblNOP.c:323-390 | the array pipeline returns PolynomialCoefficients of the dataset |
| Regression.PolynomialRegression | pblNOP.c:317-412 | the driver returns PolynomialFit of its points |
| FitProperties.LinePredicts | pblNOP.c:89-95 | on data on the line v = a + b·u, linearModel (u = x) and logModel (u = ln x) both reproduce every y |
| FitProperties.LinearExactFit | pblNOP.c:115-155 | points exactly on y = a + b·x with \|det\| ≥ ε fit as [a, b] with R² = 1 |
| FitProperties.LogExactFit | pblNOP.c:157-205 | positive x with y = a + b·ln x fit as [a, b] with R² = 1 |
| FitProperties.ExponentialExactFit | pblNOP.c:207-256 | positive y with ln y = a + b·x, where the model reproduces every y, fit as [e^a, b] with R² = 1 |
| FitProperties.PolynomialExactFit | pblNOP.c:317-412 | points on a polynomial p of that degree fit as [degree] + p with R² = 1 |
| FitProperties.QuadraticExactFit | pblNOP.c:258-315 | points on a parabola fit as [a, b, c] with R² = 1 |
| FitProperties.LinearOfConstantX | pblNOP.c:143-145 | when every x is the same, linearRegression reports [0, 0] |
| FitProperties.LineSolvesTwoByTwo | pblNOP.c:143-145 | the closed form solves the 2×2 augmented system that the general solver would be given |
| FitProperties.NormalMatrixOfLine | pblNOP.c:344-350 | the normal matrix of degree 1 holds exactly the sums that linearRegression forms |
| FitProperties.LinearAgreesWithPolynomial | pblNOP.c:115-155 | polyRegression of degree 1 reports [1] followed by linearRegression's [a, b], with the same R² |
| FitProperties.QuadraticPredictions | pblNOP.c:101-112 | polyModel with [2] + p predicts what quadraticModel predicts with p, at every point |
| FitProperties.QuadraticAgreesWithPolynomial | pblNOP.c:258-412 | polyRegression of degree 2 reports [2] followed by quadraticRegression's coefficients, with the same R² |
| FitProperties.ThreePointsOnALine | pblNOP.c:115-155 | the points (1, 2), (2, 4), (3, 6) give the line y = 0 + 2·x with R² = 1 |

## Left out

- Printing, the tables, the menu loop, reading input, the log file and
  `displayInputData` are left out. They are I/O. Each driver's result is
  returned as an `Outcome` value instead. An `Outcome` is the reported
  coefficients and R², or the error it prints.
- An allocation failure in `expandDataset` is not modelled. In C it ends the
  program with `exit`. Dafny allocation does not fail.
- Overflow of `int` capacity and size is not modelled. Integers are
  unbounded.
- Floating-point rounding, inf and NaN are not modelled. Every double is a
  real, so the properties hold for exact arithmetic.
- `log`, `exp` and `fabs` are modelled as follows. `fabs` is the exact
  absolute value. `log` and `exp` are parameters with no axioms.
  `pow(x, i)` is the exact power at a natural exponent.
- Regression.QuadraticFit, Regression.PolynomialFit, Regression.PolynomialMenu,
  Regression.QuadraticRegression and Regression.PolynomialRegression require
  that no pivot is zero. The C code divides by the pivot unguarded and would
  produce inf or NaN. The model does not describe that outcome.
- GoodnessOfFit.CalculateR2 drops the `degree` parameter. It is unused,
  except that polyModel reads the degree from coeff[0].
- Regression.Error records more than the program prints. TooFewPoints
  also carries the available count. DegreeOutOfRange carries the degree and
  the maximum, where line 587 prints no number. polyRegression's message
  (line 319) prints no count. The extra fields make the rejection conditions
  checkable.
- Datasets.Dataset.Free models the freed buffers as empty arrays. NULL
  pointers have no counterpart.
