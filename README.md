# Linear regression by gradient descent (ft_linear_regression)

This project models the training core of `load_data.py`, a small car-price
predictor. The model has one feature, the mileage, and predicts
`price = theta0 + theta1 * mileage`. The core is three routines:

- `compute_cost`: half the mean squared error of a line over the dataset,
  added up sample by sample in an accumulator loop;
- `gradient_descent`: batch gradient descent for a fixed number of passes.
  Each pass first sums the errors, and the errors weighted by the mileage,
  at the current `(theta0, theta1)`. Only after that does it update both
  parameters;
- `predict_price`: the affine prediction.

The model is in two modules:

- `Regression` (`regression.dfy`) holds the pure definitions: the `Params` pair,
  `PredictPrice`, the index-ordered `Sum`, the per-sample terms, `Cost`, the
  update rule `Update`, one pass `Step`, its `n`-fold iteration `Iterate`,
  and the lemmas about them.
- `LoadData` (`load_data.dfy`) holds the script's two routines as methods with
  the script's own loops. `GradientDescent`'s inner loop is the method
  `ErrorSums`. The loop invariants tie each accumulator to the matching
  `Sum` over the samples processed so far.

All arithmetic is exact, over `real`. A dataset is two parallel sequences,
`mileage` and `price`. It has `m = |price|` samples, and `mileage` must be at
least as long, since the script indexes it below `len(price)`.

Beyond what the script states, the lemmas also show the following:

- The two sums a step uses are, up to the factor 2, the coefficients of the
  first-order term in an exact expansion of the squared-error sum around the
  current line.
- Where both sums vanish, the cost is at its global minimum.
- With a non-zero learning rate, a step leaves the parameters unchanged
  exactly when both sums vanish. Any such fixed point therefore minimises the
  cost.

## Model

| member | source | states |
|---|---|---|
| LoadData.ComputeCost | load_data.py:40-45 | the accumulator loop returns exactly `Cost`: the sum of the squared residuals divided by `2m`; the result is never negative, and it is zero if and only if the line passes through every sample |
| LoadData.ErrorSums | load_data.py:66-74 | the inner loop of a pass returns the sum of the errors and the sum of the mileage-weighted errors at the given parameters; both are zero when the line fits every sample exactly |
| LoadData.GradientDescent | load_data.py:63-80 | the result is `Step` applied `iterations` times to the initial pair, with none applied when `iterations` is zero or negative; zero passes return the input unchanged, and a line that already fits every sample is returned unchanged |
| Regression.PredictPrice | load_data.py:95 | defines the prediction `theta0 + theta1 * mileage` |
| Regression.Sum | load_data.py:41-44 | defines the accumulation `f(0) + f(1) + ... + f(n-1)`, added in index order from `0`, as the script's `+=` loops do (also load_data.py:66-74) |
| Regression.Residual | load_data.py:71-72 | defines the error of sample `i`: the prediction of the line at `mileage[i]` minus `price[i]`, the same quantity squared at load_data.py:43-44 |
| Regression.SquaredErrors | load_data.py:43-44 | defines the term added to the cost for sample `i`, the squared residual, as a function of the index that is `0.0` outside the samples (`i >= |price|`, or a `mileage` shorter than `price`) |
| Regression.Errors | load_data.py:72-73 | defines the term added to `sum_error_theta0` for sample `i`, the residual, and `0.0` outside the samples |
| Regression.WeightedErrors | load_data.py:72-74 | defines the term added to `sum_error_theta1` for sample `i`, the residual times `mileage[i]`, and `0.0` outside the samples |
| Regression.Cost | load_data.py:40-45 | defines the cost as the index-ordered sum of the squared residuals over the `m` samples, divided by `2m` |
| Regression.Update | load_data.py:77-78 | defines the update rule: each parameter minus `alpha` times its sum divided by `m` |
| Regression.Step | load_data.py:66-78 | defines one outer pass: the update rule applied to the error sum and the weighted error sum, both taken at the incoming pair |
| Regression.Iterate | load_data.py:65-80 | defines `n` passes as `Step` applied `n` times, the identity for `n == 0` |
| Regression.PredictIsAffine | load_data.py:95 | the prediction at mileage 0 is `theta0`, and `predict(k*x) - predict(0) == k*(predict(x) - predict(0))` for all `k` and `x` |
| Regression.CostNonNegative | load_data.py:40-45 | for a dataset with at least one sample the cost is at least zero |
| Regression.CostZeroIff | load_data.py:40-45 | the cost is zero if and only if `theta0 + theta1*mileage[i] == price[i]` for every sample `i`, in both directions |
| Regression.ErrorSumClosedForm | load_data.py:70-73 | the error sum is `m*theta0 + theta1*Σx - Σy` |
| Regression.WeightedErrorSumClosedForm | load_data.py:70-74 | the weighted error sum is `theta0*Σx + theta1*Σx² - Σxy` |
| Regression.StepIsBatchUpdate | load_data.py:66-78 | both new parameters are `theta - alpha*S/m`, where the sums `S` are functions of the pre-step `theta0`, `theta1` and the data moments alone; the update is simultaneous, so neither parameter's update reads the other's new value |
| Regression.ShiftedSquaredErrorSum | load_data.py:42-44 | moving the line by `d` changes the squared-error sum by `2*(d.theta0*S0 + d.theta1*S1)` plus the sum of the squared values of the line `d`, where `S0` and `S1` are the step's two sums |
| Regression.ZeroGradientMinimizesCost | load_data.py:40-45 | where both of a step's sums are zero, no parameter pair has a smaller cost |
| Regression.StepFixedIffZeroGradient | load_data.py:77-78 | for `alpha != 0`, a step leaves `(theta0, theta1)` unchanged if and only if both sums are zero |
| Regression.StepFixedPointMinimizesCost | load_data.py:65-78 | a fixed point of a step with `alpha != 0` has the least cost of any parameter pair |
| Regression.ErrorSumsVanishAtExactFit | load_data.py:70-74 | when the line fits every sample exactly, both sums are zero |
| Regression.StepFixedAtExactFit | load_data.py:70-78 | when the line fits every sample exactly, one step, for any learning rate, leaves it unchanged |
| Regression.IterateAdd | load_data.py:65-80 | running `n + k` passes is running `k` passes from the result of `n` |
| Regression.IterateFixedAtExactFit | load_data.py:65-80 | an exact fit is left unchanged by any number of passes |
| Regression.FirstStepExample | load_data.py:66-78 | for mileage `[1, 2, 3]` and price `[3, 5, 7]`, one pass from `(0, 0)` with `alpha = 0.1` gives `(0.5, 17/15)`, and the cost falls from 83/6 to 14819/5400 |
| Regression.ExactLineExample | load_data.py:40-95 | for mileage `[1, 2, 3]` and price `[3, 5, 7]`, the line `(1, 2)` has cost zero and survives every number of passes; at mileage 10 it predicts 21 |

## Left out

- `load_data` (load_data.py:4-24): reading the CSV file, skipping its header and
  parsing with `float()` are file I/O and library calls.
- `main` (load_data.py:98-116): reading the mileage from standard input, the
  hard-coded learning rate and iteration count, and the formatted output are
  I/O and orchestration.
- Floating point: Python floats are modelled as exact reals. Rounding,
  overflow to infinity and NaN are not captured, so the model's results are
  the exact values that the float computation only approximates.
- Convergence: that training approaches the least-squares line depends on
  the learning rate and the data. The script does not guarantee it, and it is
  not stated.
- An empty dataset: the script divides by `m = 0` in `compute_cost`
  (load_data.py:45), and in `gradient_descent` whenever a pass is made
  (load_data.py:77-78). The script defines no empty-dataset error, so the
  model follows the code and makes `m >= 1` a precondition, and for
  `GradientDescent` only when at least one pass is made. There is no error
  result.
- A `mileage` list shorter than `price` makes the script fail on an
  out-of-range index. This too is a precondition (`|price| <= |mileage|`),
  and for `GradientDescent` only when at least one pass is made, since with
  no pass the script never indexes. There is no error result.
- Python's dynamic typing: `iterations` is an integer. A negative count
  makes no passes, as `range` of a negative number is empty.
- `ErrorSums` is a method of its own, while the script runs that loop inline
  in `gradient_descent`. The statements and their order are the script's.
