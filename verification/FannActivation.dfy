/** What a neuron makes of its weighted sum, and what an output makes of its distance from the target. */
module FannActivation {
  import opened FannGraph
  import opened FannLayout

  // ---- Activation functions by number ----

  const THRESHOLD_SYMMETRIC: nat := 2
  const SIGMOID_STEPWISE: nat := 4  // what new neurons start with
  const SIGMOID_SYMMETRIC: nat := 5
  const SIGMOID_SYMMETRIC_STEPWISE: nat := 6
  const GAUSSIAN_SYMMETRIC: nat := 8
  const ELLIOT_SYMMETRIC: nat := 11
  const LINEAR_PIECE_SYMMETRIC: nat := 13
  const SIN_SYMMETRIC: nat := 14
  const COS_SYMMETRIC: nat := 15

  /** The activation functions whose range is symmetric around zero. */
  const SYMMETRIC: set<nat> := {
    THRESHOLD_SYMMETRIC, SIGMOID_SYMMETRIC, SIGMOID_SYMMETRIC_STEPWISE, GAUSSIAN_SYMMETRIC, ELLIOT_SYMMETRIC,
    LINEAR_PIECE_SYMMETRIC, SIN_SYMMETRIC, COS_SYMMETRIC
  }

  // ---- Steepness and limits ----

  /** The steepened sum within the limits that fann_run puts on it. A zero steepness gives an infinite
      limit in C, hence no limit. */
  function Clip(steepness: real, weightedSum: real): real {
    var sum := Mult(steepness, weightedSum);
    if steepness == 0.0 then sum
    else if sum > 150.0 / steepness then 150.0 / steepness
    else if sum < -(150.0 / steepness) then -(150.0 / steepness)
    else sum
  }

  /** What a neuron makes of its weighted sum: steepness, limits, then the activation function. */
  function Squash(activate: (nat, real) -> real): Activation {
    (activation: nat, steepness: real, sum: real) => activate(activation, Clip(steepness, sum))
  }

  /** `sum` is the steepened sum `x` within its limits: between plus and minus 150 through the steepness it is `x`, and
      beyond them the limit on that side. A negative steepness turns the limits over, so that it is always one of them. */
  ghost predicate Limited(steepness: real, x: real, sum: real) {
    (steepness == 0.0 ==> sum == x) &&
    (steepness > 0.0 ==>
       (-150.0 / steepness <= x <= 150.0 / steepness ==> sum == x) &&
       (x > 150.0 / steepness ==> sum == 150.0 / steepness) &&
       (x < -150.0 / steepness ==> sum == -150.0 / steepness)) &&
    (steepness < 0.0 ==> sum == if x > 150.0 / steepness then 150.0 / steepness else -150.0 / steepness)
  }

  lemma {:induction false} ClipLimits(steepness: real, weightedSum: real)
    ensures Limited(steepness, Mult(steepness, weightedSum), Clip(steepness, weightedSum))
  {
    hide Mult;
    if steepness != 0.0 { Opposite(steepness); }
  }

  lemma {:induction false} Opposite(s: real)
    requires s != 0.0
    ensures -150.0 / s == -(150.0 / s) && (s > 0.0 ==> 150.0 / s > 0.0) && (s < 0.0 ==> 150.0 / s < 0.0)
  {
    var q := 150.0 / s;
    assert q * s == 150.0;
    assert (-q) * s == -150.0;
    if s > 0.0 {
      ScaledSign(q, s);
    } else {
      ScaledSign(q, -s);
      assert q * -s == -(q * s);
    }
  }

  /** The neuron holds what its unit makes of the values of the units before it: one without connections; otherwise its
      sum is the plain dot product, steepened and limited, and its value the activation of that sum. */
  ghost predicate Ran(activate: (nat, real) -> real, u: Neuron, unit: Unit, values: seq<real>) {
    WellFormedUnit(unit, |values|) &&
    if |unit.weights| == 0 then u.value == 1.0
    else
      Limited(u.steepness, Mult(u.steepness, WeightedSum(unit.weights, unit.sources, values, |unit.weights|)), u.sum) &&
      u.value == activate(u.activation, u.sum)
  }

  /** Only the values of earlier units matter. */
  lemma {:induction false} RanShared(activate: (nat, real) -> real, u: Neuron, unit: Unit, values: seq<real>, all: seq<real>)
    requires Ran(activate, u, unit, values) && |values| <= |all| && all[..|values|] == values
    ensures Ran(activate, u, unit, all)
  {
    hide WeightedSum, Mult, Limited;
    assert values[..|values|] == values;
    WeightedSumShared(unit.weights, unit.sources, all, values, |values|, |unit.weights|);
  }

  // ---- The difference from the target ----

  predicate SymmetricActivation(activation: nat) {
    activation in {2, 5, 6, 8, 11, 13, 14, 15}
  }

  function Abs(x: real): real { if x > 0.0 then x else -x }

  function Halved(u: Neuron, difference: real): real {
    if SymmetricActivation(u.activation) then difference / 2.0 else difference
  }

  /** The error function that emphasises large differences. */
  function Stretch(useErrorFunction: bool, log: real -> real, difference: real): real {
    if !useErrorFunction then difference
    else if difference < -0.9999999 then -17.0
    else if difference > 0.9999999 then 17.0
    else log((1.0 + difference) / (1.0 - difference))
  }

  /** The distance of an output from its target; a range from -1 to 1 counts as half as wide. */
  ghost function Distance(u: Neuron, desired: real): real {
    if u.activation in SYMMETRIC then (desired - u.value) / 2.0 else desired - u.value
  }

  /** An output whose distance reaches the limit on either side is a failed bit. */
  ghost predicate FarOff(u: Neuron, desired: real, limit: real) {
    var d := Distance(u, desired);
    d >= limit || -d >= limit
  }

  /** `t` is the share of the error that an output is given: the distance itself, or with the error function switched on
      the logarithm of (1 + d) / (1 - d), and beyond 0.9999999 a constant on the same side. */
  ghost predicate IsShare(u: Neuron, desired: real, useErrorFunction: bool, log: real -> real, t: real) {
    var d := Distance(u, desired);
    if !useErrorFunction then t == d
    else
      (-0.9999999 <= d <= 0.9999999 ==> t == log((1.0 + d) / (1.0 - d))) &&
      (d > 0.9999999 ==> t == 17.0) && (d < -0.9999999 ==> t == -17.0)
  }

  lemma {:induction false} StretchIsShare(u: Neuron, desired: real, useErrorFunction: bool, log: real -> real)
    ensures IsShare(u, desired, useErrorFunction, log, Stretch(useErrorFunction, log, Halved(u, desired - u.value)))
    ensures Halved(u, desired - u.value) == Distance(u, desired)
  {
  }

  ghost predicate Increasing(log: real -> real) {
    log(1.0) == 0.0 && forall x: real, y: real :: 0.0 < x < y ==> log(x) < log(y)
  }

  ghost predicate SameSign(a: real, b: real) { (a > 0.0 <==> b > 0.0) && (a < 0.0 <==> b < 0.0) }

  /** An output's share of the error points from its value to its target. */
  lemma {:induction false} ShareSign(u: Neuron, desired: real, useErrorFunction: bool, log: real -> real, t: real)
    requires IsShare(u, desired, useErrorFunction, log, t) && (useErrorFunction ==> Increasing(log))
    ensures SameSign(t, desired - u.value)
  {
    var d := Distance(u, desired);
    if useErrorFunction && -0.9999999 <= d <= 0.9999999 {
      var q := (1.0 + d) / (1.0 - d);
      QuotientSide(1.0 + d, 1.0 - d);
      assert q > 1.0 ==> log(1.0) < log(q);
      assert q < 1.0 ==> log(q) < log(1.0);
    }
  }

  lemma {:induction false} QuotientSide(a: real, b: real)
    requires a > 0.0 && b > 0.0
    ensures a / b > 0.0 && (a > b <==> a / b > 1.0) && (a < b <==> a / b < 1.0)
  {
    var q := a / b;
    assert q * b == a;
    ScaledSign(q, b);
    ScaledSign(q - 1.0, b);
    assert (q - 1.0) * b == a - b;
  }

  lemma {:induction false} SignOfProduct(a: real, b: real, x: real)
    requires SameSign(a, b)
    ensures SameSign(Mult(a, x), Mult(b, x))
  {
    if x > 0.0 {
      ScaledSign(a, x);
      ScaledSign(b, x);
    } else if x < 0.0 {
      ScaledSign(a, -x);
      ScaledSign(b, -x);
      assert a * x == -(a * -x) && b * x == -(b * -x);
    } else {
      assert a * x == 0.0 && b * x == 0.0;
    }
  }

  lemma {:induction false} ScaledSign(a: real, x: real)
    requires x > 0.0
    ensures SameSign(a * x, a)
  {
    if a > 0.0 { assert a * x > 0.0; }
    if a < 0.0 { assert (-a) * x > 0.0; assert a * x == -((-a) * x); }
  }
}
