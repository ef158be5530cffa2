/** Pure specification of the linear-regression core: the affine predictor,
    the mean-squared-error cost and one batch gradient-descent pass, with the
    facts the optimiser relies on.  All arithmetic is exact, over `real`. */
module Regression {

  /** The learned line: intercept `theta0` and slope `theta1`. */
  datatype Params = Params(theta0: real, theta1: real)

  /** The price the line predicts for one mileage. */
  function PredictPrice(mileage: real, theta0: real, theta1: real): real
  {
    theta0 + theta1 * mileage
  }

  function Square(x: real): real
  {
    x * x
  }

  /** The parameters moved by the direction `d`, component-wise. */
  function Shift(p: Params, d: Params): Params
  {
    Params(p.theta0 + d.theta0, p.theta1 + d.theta1)
  }

  // ---------------------------------------------------------------------------
  // Sums over the samples

  /** f(0) + f(1) + ... + f(n - 1), added in index order. */
  function Sum(f: nat -> real, n: nat): real
  {
    if n == 0 then 0.0 else Sum(f, n - 1) + f(n - 1)
  }

  /** Prediction minus the observed price at sample `i`. */
  function Residual(mileage: seq<real>, price: seq<real>, p: Params, i: nat): real
    requires i < |price| <= |mileage|
  {
    PredictPrice(mileage[i], p.theta0, p.theta1) - price[i]
  }

  /** The per-sample terms that the script sums, as total functions on the
      indices.  Each is zero outside the samples, the indices below |price|;
      the guard also carries the bound that makes the indexing well formed. */
  function Errors(mileage: seq<real>, price: seq<real>, p: Params): nat -> real
  {
    (i: nat) => if i < |price| <= |mileage| then Residual(mileage, price, p, i) else 0.0
  }

  function SquaredErrors(mileage: seq<real>, price: seq<real>, p: Params): nat -> real
  {
    (i: nat) => if i < |price| <= |mileage| then Square(Residual(mileage, price, p, i)) else 0.0
  }

  function WeightedErrors(mileage: seq<real>, price: seq<real>, p: Params): nat -> real
  {
    (i: nat) => if i < |price| <= |mileage| then Residual(mileage, price, p, i) * mileage[i] else 0.0
  }

  /** The squared values that the line `d` takes at the sample mileages. */
  function SquaredDirections(mileage: seq<real>, price: seq<real>, d: Params): nat -> real
  {
    (i: nat) => if i < |price| <= |mileage| then Square(PredictPrice(mileage[i], d.theta0, d.theta1)) else 0.0
  }

  /** Data moments: x, y, x*x and x*y at each sample. */
  function Mileages(mileage: seq<real>, price: seq<real>): nat -> real
  {
    (i: nat) => if i < |price| <= |mileage| then mileage[i] else 0.0
  }

  function Prices(mileage: seq<real>, price: seq<real>): nat -> real
  {
    (i: nat) => if i < |price| <= |mileage| then price[i] else 0.0
  }

  function MileageSquares(mileage: seq<real>, price: seq<real>): nat -> real
  {
    (i: nat) => if i < |price| <= |mileage| then mileage[i] * mileage[i] else 0.0
  }

  function MileagePrices(mileage: seq<real>, price: seq<real>): nat -> real
  {
    (i: nat) => if i < |price| <= |mileage| then mileage[i] * price[i] else 0.0
  }

  function One(i: nat): real
  {
    1.0
  }

  // ---------------------------------------------------------------------------
  // The cost, the step and its iteration

  /** Half the mean squared error: (1/(2m)) * sum of squared residuals. */
  function Cost(mileage: seq<real>, price: seq<real>, p: Params): real
    requires 1 <= |price| <= |mileage|
  {
    Sum(SquaredErrors(mileage, price, p), |price|) / ((2 * |price|) as real)
  }

  /** The update rule: each parameter moves against the mean of its sum,
      scaled by the learning rate `alpha`; `m` is the number of samples. */
  function Update(theta0: real, theta1: real, alpha: real, sumError0: real, sumError1: real, m: real): Params
    requires m != 0.0
  {
    Params(theta0 - alpha * (sumError0 / m), theta1 - alpha * (sumError1 / m))
  }

  /** One batch gradient-descent pass: both sums are taken at the incoming `p`. */
  function Step(mileage: seq<real>, price: seq<real>, p: Params, alpha: real): Params
    requires 1 <= |price| <= |mileage|
  {
    Update(p.theta0, p.theta1, alpha, Sum(Errors(mileage, price, p), |price|),
           Sum(WeightedErrors(mileage, price, p), |price|), |price| as real)
  }

  /** `Step` applied `n` times to `p`.  No pass is made, and no sample is
      read, when `n` is zero. */
  function Iterate(mileage: seq<real>, price: seq<real>, p: Params, alpha: real, n: nat): Params
    requires n > 0 ==> 1 <= |price| <= |mileage|
  {
    if n == 0 then p
    else Step(mileage, price, Iterate(mileage, price, p, alpha, n - 1), alpha)
  }

  /** The line passes through every sample. */
  predicate ExactFit(mileage: seq<real>, price: seq<real>, p: Params)
    requires |price| <= |mileage|
  {
    forall i :: 0 <= i < |price| ==> PredictPrice(mileage[i], p.theta0, p.theta1) == price[i]
  }

  // ---------------------------------------------------------------------------
  // Facts about sums

  lemma {:induction false} SumNonNegative(f: nat -> real, n: nat)
    requires forall i: nat :: i < n ==> f(i) >= 0.0
    ensures Sum(f, n) >= 0.0
  {
    if n > 0 {
      SumNonNegative(f, n - 1);
    }
  }

  /** A sum of non-negative terms is zero exactly when every term is. */
  lemma {:induction false} SumZeroIff(f: nat -> real, n: nat)
    requires forall i: nat :: i < n ==> f(i) >= 0.0
    ensures Sum(f, n) == 0.0 <==> forall i: nat :: i < n ==> f(i) == 0.0
  {
    if n > 0 {
      SumZeroIff(f, n - 1);
      SumNonNegative(f, n - 1);
    }
  }

  /** A sum of zero terms is zero. */
  lemma {:induction false} SumZero(f: nat -> real, n: nat)
    requires forall i: nat :: i < n ==> f(i) == 0.0
    ensures Sum(f, n) == 0.0
  {
    if n > 0 {
      SumZero(f, n - 1);
    }
  }

  // Linearity is stated for a fixed combination of three or four sums at once,
  // with each pointwise fact and each conclusion wrapped in a predicate, so
  // that the proofs about the step and the cost only have to match terms
  // syntactically; composing two-term linearity lemmas instead leaves the
  // solver nonlinear products of sums to rearrange, which it does not do
  // reliably.  The Distribute lemmas are the one algebraic step of the
  // induction, given explicit values.

  lemma {:induction false} Distribute3(a: real, b: real, c: real, sf: real, sg: real, sk: real,
                                       s: real, t: real, u: real, x: real, y: real, z: real)
    requires sf == s + x && sg == t + y && sk == u + z
    ensures a * sf + b * sg + c * sk == (a * s + b * t + c * u) + (a * x + b * y + c * z)
  {
  }

  /** `h` agrees with a * f + b * g + c * k on the first `n` indices. */
  predicate Combination3(h: nat -> real, f: nat -> real, g: nat -> real, k: nat -> real,
                         a: real, b: real, c: real, n: nat)
  {
    forall i: nat :: i < n ==> h(i) == a * f(i) + b * g(i) + c * k(i)
  }

  /** Summation is linear (three terms). */
  lemma {:induction false} SumLinear3(f: nat -> real, g: nat -> real, k: nat -> real, h: nat -> real,
                                      a: real, b: real, c: real, n: nat)
    requires Combination3(h, f, g, k, a, b, c, n)
    ensures Sum(h, n) == a * Sum(f, n) + b * Sum(g, n) + c * Sum(k, n)
  {
    if n > 0 {
      SumLinear3(f, g, k, h, a, b, c, n - 1);
      Distribute3(a, b, c, Sum(f, n), Sum(g, n), Sum(k, n),
                  Sum(f, n - 1), Sum(g, n - 1), Sum(k, n - 1), f(n - 1), g(n - 1), k(n - 1));
    }
  }

  lemma {:induction false} Distribute4(a: real, b: real, c: real, e: real, sf: real, sg: real, sk: real, sl: real,
                                       s: real, t: real, u: real, v: real, x: real, y: real, z: real, w: real)
    requires sf == s + x && sg == t + y && sk == u + z && sl == v + w
    ensures a * sf + b * sg + c * sk + e * sl
            == (a * s + b * t + c * u + e * v) + (a * x + b * y + c * z + e * w)
  {
  }

  /** `h` agrees with a * f + b * g + c * k + e * l on the first `n` indices. */
  predicate Combination4(h: nat -> real, f: nat -> real, g: nat -> real, k: nat -> real, l: nat -> real,
                         a: real, b: real, c: real, e: real, n: nat)
  {
    forall i: nat :: i < n ==> h(i) == a * f(i) + b * g(i) + c * k(i) + e * l(i)
  }

  /** The sum of `h` is a * (sum of f) + b * (sum of g) + c * (sum of k) + e * (sum of l). */
  predicate SumCombination4(h: nat -> real, f: nat -> real, g: nat -> real, k: nat -> real, l: nat -> real,
                            a: real, b: real, c: real, e: real, n: nat)
  {
    Sum(h, n) == a * Sum(f, n) + b * Sum(g, n) + c * Sum(k, n) + e * Sum(l, n)
  }

  /** Summation is linear (four terms). */
  lemma {:induction false} SumLinear4(f: nat -> real, g: nat -> real, k: nat -> real, l: nat -> real,
                                      h: nat -> real, a: real, b: real, c: real, e: real, n: nat)
    requires Combination4(h, f, g, k, l, a, b, c, e, n)
    ensures SumCombination4(h, f, g, k, l, a, b, c, e, n)
  {
    if n > 0 {
      SumLinear4(f, g, k, l, h, a, b, c, e, n - 1);
      Distribute4(a, b, c, e, Sum(f, n), Sum(g, n), Sum(k, n), Sum(l, n),
                  Sum(f, n - 1), Sum(g, n - 1), Sum(k, n - 1), Sum(l, n - 1),
                  f(n - 1), g(n - 1), k(n - 1), l(n - 1));
    }
  }

  lemma {:induction false} SumOnes(n: nat)
    ensures Sum(One, n) == n as real
  {
    if n > 0 {
      SumOnes(n - 1);
    }
  }

  // ---------------------------------------------------------------------------
  // Algebra on plain reals, kept apart so that the proofs about sums only
  // have to match them.

  lemma {:induction false} SquarePositive(r: real)
    requires r != 0.0
    ensures Square(r) > 0.0
  {
    calc {
      Square(r);
      r * r;
    > 0.0;
    }
  }

  lemma {:induction false} SquareNonNegative(r: real)
    ensures Square(r) >= 0.0
  {
    if r != 0.0 {
      SquarePositive(r);
    }
  }

  lemma {:induction false} ShiftAlgebra(t0: real, t1: real, d0: real, d1: real, x: real, y: real)
    ensures var r := t0 + t1 * x - y;
            Square((t0 + d0) + (t1 + d1) * x - y)
            == 1.0 * Square(r) + (2.0 * d0) * r + (2.0 * d1) * (r * x) + 1.0 * Square(d0 + d1 * x)
  {
    var r, g := t0 + t1 * x - y, d0 + d1 * x;
    assert (t0 + d0) + (t1 + d1) * x - y == r + g;
    assert (r + g) * (r + g) == r * r + 2.0 * (r * g) + g * g;
    assert r * g == d0 * r + d1 * (r * x);
  }

  lemma {:induction false} WeightedAlgebra(t0: real, t1: real, x: real, y: real)
    ensures (t0 + t1 * x - y) * x == t0 * x + t1 * (x * x) + (-1.0) * (x * y)
  {
  }

  lemma {:induction false} QuotientMonotone(s: real, t: real, n: real)
    requires s >= t && n > 0.0
    ensures s / n >= t / n
  {
  }

  lemma {:induction false} ScaledZero(alpha: real, s: real, m: real)
    requires alpha != 0.0 && m > 0.0
    ensures alpha * (s / m) == 0.0 <==> s == 0.0
  {
    if s != 0.0 {
      assert s / m != 0.0;
    }
  }

  // ---------------------------------------------------------------------------
  // The predictor

  /** The predictor is affine in the mileage, and its value at zero is the intercept. */
  lemma {:induction false} PredictIsAffine(theta0: real, theta1: real, k: real, x: real)
    ensures PredictPrice(0.0, theta0, theta1) == theta0
    ensures PredictPrice(k * x, theta0, theta1) - PredictPrice(0.0, theta0, theta1)
            == k * (PredictPrice(x, theta0, theta1) - PredictPrice(0.0, theta0, theta1))
  {
  }

  // ---------------------------------------------------------------------------
  // The cost

  /** For a non-empty dataset the cost is never negative. */
  lemma {:induction false} CostNonNegative(mileage: seq<real>, price: seq<real>, p: Params)
    requires 1 <= |price| <= |mileage|
    ensures Cost(mileage, price, p) >= 0.0
  {
    var f := SquaredErrors(mileage, price, p);
    forall i: nat | i < |price|
      ensures f(i) >= 0.0
    {
      SquareNonNegative(Residual(mileage, price, p, i));
    }
    SumNonNegative(f, |price|);
  }

  /** The cost is zero if and only if the line passes through every sample. */
  lemma {:induction false} CostZeroIff(mileage: seq<real>, price: seq<real>, p: Params)
    requires 1 <= |price| <= |mileage|
    ensures Cost(mileage, price, p) == 0.0 <==> ExactFit(mileage, price, p)
  {
    var m := |price|;
    var f := SquaredErrors(mileage, price, p);
    forall i: nat | i < m
      ensures f(i) >= 0.0
      ensures f(i) == 0.0 <==> PredictPrice(mileage[i], p.theta0, p.theta1) == price[i]
    {
      var r := Residual(mileage, price, p, i);
      SquareNonNegative(r);
      if r != 0.0 {
        SquarePositive(r);
      }
    }
    SumZeroIff(f, m);
    assert Cost(mileage, price, p) == 0.0 <==> Sum(f, m) == 0.0;
    if ExactFit(mileage, price, p) {
      forall i: nat | i < m
        ensures f(i) == 0.0
      {
        assert PredictPrice(mileage[i], p.theta0, p.theta1) == price[i];
      }
    } else {
      var i :| 0 <= i < m && PredictPrice(mileage[i], p.theta0, p.theta1) != price[i];
      assert f(i) != 0.0;
    }
  }

  // ---------------------------------------------------------------------------
  // The gradient-descent step

  /** Each residual is theta0 * 1 + theta1 * x + (-1) * y. */
  lemma {:induction false} ErrorsPointwise(mileage: seq<real>, price: seq<real>, p: Params)
    requires |price| <= |mileage|
    ensures Combination3(Errors(mileage, price, p), One, Mileages(mileage, price), Prices(mileage, price),
                         p.theta0, p.theta1, -1.0, |price|)
  {
  }

  /** Closed form of the residual sum in the data moments. */
  lemma {:induction false} ErrorSumClosedForm(mileage: seq<real>, price: seq<real>, p: Params)
    requires |price| <= |mileage|
    ensures var n := |price|;
            Sum(Errors(mileage, price, p), n)
            == (n as real) * p.theta0 + p.theta1 * Sum(Mileages(mileage, price), n) - Sum(Prices(mileage, price), n)
  {
    ErrorsPointwise(mileage, price, p);
    SumLinear3(One, Mileages(mileage, price), Prices(mileage, price), Errors(mileage, price, p),
               p.theta0, p.theta1, -1.0, |price|);
    SumOnes(|price|);
  }

  /** Each weighted residual is theta0 * x + theta1 * x * x + (-1) * x * y. */
  lemma {:induction false} WeightedErrorsPointwise(mileage: seq<real>, price: seq<real>, p: Params)
    requires |price| <= |mileage|
    ensures Combination3(WeightedErrors(mileage, price, p), Mileages(mileage, price),
                         MileageSquares(mileage, price), MileagePrices(mileage, price),
                         p.theta0, p.theta1, -1.0, |price|)
  {
    forall i: nat | i < |price|
      ensures WeightedErrors(mileage, price, p)(i)
              == p.theta0 * Mileages(mileage, price)(i) + p.theta1 * MileageSquares(mileage, price)(i)
                 + (-1.0) * MileagePrices(mileage, price)(i)
    {
      WeightedAlgebra(p.theta0, p.theta1, mileage[i], price[i]);
    }
  }

  /** Closed form of the mileage-weighted residual sum in the data moments. */
  lemma {:induction false} WeightedErrorSumClosedForm(mileage: seq<real>, price: seq<real>, p: Params)
    requires |price| <= |mileage|
    ensures var n := |price|;
            Sum(WeightedErrors(mileage, price, p), n)
            == p.theta0 * Sum(Mileages(mileage, price), n) + p.theta1 * Sum(MileageSquares(mileage, price), n)
               - Sum(MileagePrices(mileage, price), n)
  {
    WeightedErrorsPointwise(mileage, price, p);
    SumLinear3(Mileages(mileage, price), MileageSquares(mileage, price), MileagePrices(mileage, price),
               WeightedErrors(mileage, price, p), p.theta0, p.theta1, -1.0, |price|);
  }

  /** A step is a batch (simultaneous) update: both new components are
      functions of the pre-step pair and the data moments alone, so neither
      update sees the other's new value. */
  lemma {:induction false} StepIsBatchUpdate(mileage: seq<real>, price: seq<real>, p: Params, alpha: real)
    requires 1 <= |price| <= |mileage|
    ensures var m, n := |price| as real, |price|;
            var sx, sy := Sum(Mileages(mileage, price), n), Sum(Prices(mileage, price), n);
            var sxx, sxy := Sum(MileageSquares(mileage, price), n), Sum(MileagePrices(mileage, price), n);
            Step(mileage, price, p, alpha)
            == Update(p.theta0, p.theta1, alpha, m * p.theta0 + p.theta1 * sx - sy, p.theta0 * sx + p.theta1 * sxx - sxy, m)
  {
    ErrorSumClosedForm(mileage, price, p);
    WeightedErrorSumClosedForm(mileage, price, p);
  }

  /** Sample by sample: the squared residual of the shifted line. */
  lemma {:induction false} ShiftedSquaredErrorsPointwise(mileage: seq<real>, price: seq<real>, p: Params, d: Params)
    requires |price| <= |mileage|
    ensures Combination4(SquaredErrors(mileage, price, Shift(p, d)), SquaredErrors(mileage, price, p),
                         Errors(mileage, price, p), WeightedErrors(mileage, price, p),
                         SquaredDirections(mileage, price, d), 1.0, 2.0 * d.theta0, 2.0 * d.theta1, 1.0, |price|)
  {
    forall i: nat | i < |price|
      ensures SquaredErrors(mileage, price, Shift(p, d))(i)
              == 1.0 * SquaredErrors(mileage, price, p)(i) + (2.0 * d.theta0) * Errors(mileage, price, p)(i)
                 + (2.0 * d.theta1) * WeightedErrors(mileage, price, p)(i)
                 + 1.0 * SquaredDirections(mileage, price, d)(i)
    {
      ShiftAlgebra(p.theta0, p.theta1, d.theta0, d.theta1, mileage[i], price[i]);
    }
  }

  /** Exact second-order expansion of the squared-error sum around `p`: moving
      the line by `d` adds 2 * (d.theta0 * sum of errors + d.theta1 * sum of
      weighted errors), the first-order term whose coefficients are the two
      sums a step uses, and the sum of the squared values of the line `d`. */
  lemma {:induction false} ShiftedSquaredErrorSum(mileage: seq<real>, price: seq<real>, p: Params, d: Params)
    requires |price| <= |mileage|
    ensures SumCombination4(SquaredErrors(mileage, price, Shift(p, d)), SquaredErrors(mileage, price, p),
                            Errors(mileage, price, p), WeightedErrors(mileage, price, p),
                            SquaredDirections(mileage, price, d), 1.0, 2.0 * d.theta0, 2.0 * d.theta1, 1.0, |price|)
  {
    ShiftedSquaredErrorsPointwise(mileage, price, p, d);
    SumLinear4(SquaredErrors(mileage, price, p), Errors(mileage, price, p), WeightedErrors(mileage, price, p),
               SquaredDirections(mileage, price, d), SquaredErrors(mileage, price, Shift(p, d)),
               1.0, 2.0 * d.theta0, 2.0 * d.theta1, 1.0, |price|);
  }

  /** The squared values that the line `d` takes sum to something non-negative. */
  lemma {:induction false} SquaredDirectionsNonNegative(mileage: seq<real>, price: seq<real>, d: Params)
    requires |price| <= |mileage|
    ensures Sum(SquaredDirections(mileage, price, d), |price|) >= 0.0
  {
    var dir := SquaredDirections(mileage, price, d);
    forall i: nat | i < |price|
      ensures dir(i) >= 0.0
    {
      SquareNonNegative(PredictPrice(mileage[i], d.theta0, d.theta1));
    }
    SumNonNegative(dir, |price|);
  }

  /** Where both sums vanish, no parameters have a smaller cost. */
  lemma {:induction false} ZeroGradientMinimizesCost(mileage: seq<real>, price: seq<real>, p: Params, q: Params)
    requires 1 <= |price| <= |mileage|
    requires Sum(Errors(mileage, price, p), |price|) == 0.0
    requires Sum(WeightedErrors(mileage, price, p), |price|) == 0.0
    ensures Cost(mileage, price, q) >= Cost(mileage, price, p)
  {
    var d := Params(q.theta0 - p.theta0, q.theta1 - p.theta1);
    assert Shift(p, d) == q;
    ShiftedSquaredErrorSum(mileage, price, p, d);
    SquaredDirectionsNonNegative(mileage, price, d);
    QuotientMonotone(Sum(SquaredErrors(mileage, price, q), |price|), Sum(SquaredErrors(mileage, price, p), |price|),
                     (2 * |price|) as real);
  }

  /** With a non-zero learning rate, a step leaves the parameters unchanged
      exactly when both sums vanish. */
  lemma {:induction false} StepFixedIffZeroGradient(mileage: seq<real>, price: seq<real>, p: Params, alpha: real)
    requires 1 <= |price| <= |mileage|
    requires alpha != 0.0
    ensures Step(mileage, price, p, alpha) == p
            <==> Sum(Errors(mileage, price, p), |price|) == 0.0
                 && Sum(WeightedErrors(mileage, price, p), |price|) == 0.0
  {
    var m := |price| as real;
    ScaledZero(alpha, Sum(Errors(mileage, price, p), |price|), m);
    ScaledZero(alpha, Sum(WeightedErrors(mileage, price, p), |price|), m);
  }

  /** A parameter pair that a step with a non-zero learning rate leaves
      unchanged minimises the cost. */
  lemma {:induction false} StepFixedPointMinimizesCost(mileage: seq<real>, price: seq<real>, p: Params, alpha: real, q: Params)
    requires 1 <= |price| <= |mileage|
    requires alpha != 0.0
    requires Step(mileage, price, p, alpha) == p
    ensures Cost(mileage, price, q) >= Cost(mileage, price, p)
  {
    StepFixedIffZeroGradient(mileage, price, p, alpha);
    ZeroGradientMinimizesCost(mileage, price, p, q);
  }

  /** At an exact fit every residual is zero, so both sums the step uses vanish. */
  lemma {:induction false} ErrorSumsVanishAtExactFit(mileage: seq<real>, price: seq<real>, p: Params)
    requires |price| <= |mileage|
    requires ExactFit(mileage, price, p)
    ensures Sum(Errors(mileage, price, p), |price|) == 0.0
    ensures Sum(WeightedErrors(mileage, price, p), |price|) == 0.0
  {
    var n := |price|;
    var es, ws := Errors(mileage, price, p), WeightedErrors(mileage, price, p);
    forall i: nat | i < n
      ensures es(i) == 0.0 && ws(i) == 0.0
    {
      assert PredictPrice(mileage[i], p.theta0, p.theta1) == price[i];
    }
    SumZero(es, n);
    SumZero(ws, n);
  }

  /** If the line already passes through every sample, a step (for any
      learning rate) leaves it unchanged. */
  lemma {:induction false} StepFixedAtExactFit(mileage: seq<real>, price: seq<real>, p: Params, alpha: real)
    requires 1 <= |price| <= |mileage|
    requires ExactFit(mileage, price, p)
    ensures Step(mileage, price, p, alpha) == p
  {
    ErrorSumsVanishAtExactFit(mileage, price, p);
  }

  // ---------------------------------------------------------------------------
  // Iteration

  /** Running `n + k` passes is running `k` passes from the result of `n`. */
  lemma {:induction false} IterateAdd(mileage: seq<real>, price: seq<real>, p: Params, alpha: real, n: nat, k: nat)
    requires n + k > 0 ==> 1 <= |price| <= |mileage|
    ensures Iterate(mileage, price, p, alpha, n + k)
            == Iterate(mileage, price, Iterate(mileage, price, p, alpha, n), alpha, k)
  {
    if k > 0 {
      IterateAdd(mileage, price, p, alpha, n, k - 1);
      assert n + k - 1 == n + (k - 1);
    }
  }

  /** An exact fit survives any number of passes. */
  lemma {:induction false} IterateFixedAtExactFit(mileage: seq<real>, price: seq<real>, p: Params, alpha: real, n: nat)
    requires |price| <= |mileage|
    requires n > 0 ==> 1 <= |price|
    requires ExactFit(mileage, price, p)
    ensures Iterate(mileage, price, p, alpha, n) == p
  {
    if n > 0 {
      IterateFixedAtExactFit(mileage, price, p, alpha, n - 1);
      StepFixedAtExactFit(mileage, price, p, alpha);
    }
  }

  /** The dataset mileage = [1, 2, 3], price = [3, 5, 7] lies on the line
      price = 1 + 2 * mileage: its cost there is zero, training started there
      stays there, and the line predicts 21 at mileage 10. */
  lemma {:induction false} ExactLineExample(alpha: real, n: nat)
    ensures Cost([1.0, 2.0, 3.0], [3.0, 5.0, 7.0], Params(1.0, 2.0)) == 0.0
    ensures Iterate([1.0, 2.0, 3.0], [3.0, 5.0, 7.0], Params(1.0, 2.0), alpha, n) == Params(1.0, 2.0)
    ensures PredictPrice(10.0, 1.0, 2.0) == 21.0
  {
    var mileage, price, p := [1.0, 2.0, 3.0], [3.0, 5.0, 7.0], Params(1.0, 2.0);
    assert ExactFit(mileage, price, p) by {
      forall i | 0 <= i < 3
        ensures PredictPrice(mileage[i], p.theta0, p.theta1) == price[i]
      {
        if i == 0 {} else if i == 1 {} else {}
      }
    }
    CostZeroIff(mileage, price, p);
    IterateFixedAtExactFit(mileage, price, p, alpha, n);
  }

  /** One step from (0, 0) on the same dataset with learning rate 0.1: the
      error sums are -15 and -34, so the line moves to (0.5, 17/15), and the
      cost falls from 83/6 to 14819/5400. */
  lemma {:induction false} FirstStepExample()
    ensures Step([1.0, 2.0, 3.0], [3.0, 5.0, 7.0], Params(0.0, 0.0), 0.1) == Params(0.5, 17.0 / 15.0)
    ensures Cost([1.0, 2.0, 3.0], [3.0, 5.0, 7.0], Params(0.0, 0.0)) == 83.0 / 6.0
    ensures Cost([1.0, 2.0, 3.0], [3.0, 5.0, 7.0], Params(0.5, 17.0 / 15.0)) == 14819.0 / 5400.0
  {
    var mileage, price := [1.0, 2.0, 3.0], [3.0, 5.0, 7.0];
    var p, q := Params(0.0, 0.0), Params(0.5, 17.0 / 15.0);
    assert Sum(Errors(mileage, price, p), 3) == -15.0;
    assert Sum(WeightedErrors(mileage, price, p), 3) == -34.0;
    assert Sum(SquaredErrors(mileage, price, p), 3) == 83.0;
    assert Sum(SquaredErrors(mileage, price, q), 3) == 14819.0 / 900.0;
  }
}
