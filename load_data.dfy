/** The imperative routines of the training script: the cost and the
    optimiser, written with the script's accumulator loops and proved
    against the pure definitions of module Regression. */
module LoadData {
  import opened Regression

  /** The mean-squared-error cost of the line (theta0, theta1) on the data,
      accumulated sample by sample. */
  method ComputeCost(mileage: seq<real>, price: seq<real>, theta0: real, theta1: real)
    returns (cost: real)
    requires 1 <= |price| <= |mileage|
    ensures cost == Cost(mileage, price, Params(theta0, theta1))
    ensures cost >= 0.0
    ensures cost == 0.0 <==> ExactFit(mileage, price, Params(theta0, theta1))
  {
    var m := |price|;
    var totalCost := 0.0;
    for i := 0 to m
      invariant totalCost == Sum(SquaredErrors(mileage, price, Params(theta0, theta1)), i)
    {
      var prediction := theta0 + theta1 * mileage[i];
      totalCost := totalCost + Square(prediction - price[i]);
    }
    cost := totalCost / ((2 * m) as real);
    CostNonNegative(mileage, price, Params(theta0, theta1));
    CostZeroIff(mileage, price, Params(theta0, theta1));
  }

  /** The inner loop of one gradient-descent pass: the sum of the errors and
      the sum of the errors weighted by the mileage, both at (theta0, theta1). */
  method ErrorSums(mileage: seq<real>, price: seq<real>, theta0: real, theta1: real)
    returns (sumErrorTheta0: real, sumErrorTheta1: real)
    requires |price| <= |mileage|
    ensures sumErrorTheta0 == Sum(Errors(mileage, price, Params(theta0, theta1)), |price|)
    ensures sumErrorTheta1 == Sum(WeightedErrors(mileage, price, Params(theta0, theta1)), |price|)
    ensures ExactFit(mileage, price, Params(theta0, theta1)) ==> sumErrorTheta0 == 0.0 && sumErrorTheta1 == 0.0
  {
    sumErrorTheta0 := 0.0;
    sumErrorTheta1 := 0.0;
    for i := 0 to |price|
      invariant sumErrorTheta0 == Sum(Errors(mileage, price, Params(theta0, theta1)), i)
      invariant sumErrorTheta1 == Sum(WeightedErrors(mileage, price, Params(theta0, theta1)), i)
    {
      var prediction := theta0 + theta1 * mileage[i];
      var error := prediction - price[i];
      sumErrorTheta0 := sumErrorTheta0 + error;
      sumErrorTheta1 := sumErrorTheta1 + error * mileage[i];
    }
    if ExactFit(mileage, price, Params(theta0, theta1)) {
      ErrorSumsVanishAtExactFit(mileage, price, Params(theta0, theta1));
    }
  }

  /** Batch gradient descent: `iterations` passes (none when it is zero or
      negative), each summing the errors at the current parameters before
      updating both of them. */
  method GradientDescent(mileage: seq<real>, price: seq<real>, theta0: real, theta1: real,
                         alpha: real, iterations: int)
    returns (newTheta0: real, newTheta1: real)
    requires iterations > 0 ==> 1 <= |price| <= |mileage|
    ensures Params(newTheta0, newTheta1)
            == Iterate(mileage, price, Params(theta0, theta1), alpha, if iterations < 0 then 0 else iterations)
    ensures iterations <= 0 ==> newTheta0 == theta0 && newTheta1 == theta1
    ensures |price| <= |mileage| && ExactFit(mileage, price, Params(theta0, theta1))
            ==> newTheta0 == theta0 && newTheta1 == theta1
  {
    var m := |price|;
    var passes := if iterations < 0 then 0 else iterations;
    newTheta0, newTheta1 := theta0, theta1;
    for k := 0 to passes
      invariant Params(newTheta0, newTheta1) == Iterate(mileage, price, Params(theta0, theta1), alpha, k)
    {
      // The pre-update pair and the assertion below only guide the solver: they
      // name the `Update` term that `Step` unfolds to, which keeps the proof of
      // the invariant well inside its resource budget.  They change nothing.
      ghost var theta0Before, theta1Before := newTheta0, newTheta1;
      var sumErrorTheta0, sumErrorTheta1 := ErrorSums(mileage, price, newTheta0, newTheta1);
      newTheta0 := newTheta0 - alpha * (sumErrorTheta0 / m as real);
      newTheta1 := newTheta1 - alpha * (sumErrorTheta1 / m as real);
      assert Params(newTheta0, newTheta1) == Update(theta0Before, theta1Before, alpha, sumErrorTheta0, sumErrorTheta1, m as real);
    }
    if |price| <= |mileage| && ExactFit(mileage, price, Params(theta0, theta1)) {
      IterateFixedAtExactFit(mileage, price, Params(theta0, theta1), alpha, passes);
    }
  }
}
