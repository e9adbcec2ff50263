/** The meaning of a FANN network, free of arrays and layout: a list of units in
    evaluation order. Units below `inputs` take their value from the input vector, the
    unit at index `inputs` is the bias neuron of the input layer, and every later unit
    is computed from units before it. */
module FannGraph {

  /** One neuron together with its incoming connections: connection `i` carries
      `weights[i]` from unit `sources[i]`. */
  datatype Unit = Unit(activation: nat, steepness: real, weights: seq<real>, sources: seq<nat>)

  /** What a neuron makes of its weighted sum, given its activation function number and its
      steepness. The theorems about graphs hold for every such function. */
  type Activation = (nat, real, real) -> real

  /** The product of a weight and a value. */
  function Mult(x: real, y: real): real { x * y }

  /** The plain dot product over the first `n` connections. */
  function WeightedSum(weights: seq<real>, sources: seq<nat>, values: seq<real>, n: nat): real
    requires n <= |weights| && n <= |sources|
    requires forall i :: 0 <= i < n ==> sources[i] < |values|
  {
    if n == 0 then 0.0
    else WeightedSum(weights, sources, values, n - 1) + Mult(weights[n - 1], values[sources[n - 1]])
  }

  ghost predicate WellFormedUnit(u: Unit, bound: nat) {
    |u.weights| == |u.sources| && forall i :: 0 <= i < |u.sources| ==> u.sources[i] < bound
  }

  /** A feed-forward graph: each computed unit only reads units before it. */
  ghost predicate FeedForward(units: seq<Unit>, inputs: nat) {
    inputs < |units| &&
    forall n :: inputs < n < |units| ==> WellFormedUnit(units[n], n)
  }

  /** A unit without connections is a bias neuron and is constantly one. */
  function UnitValue(act: Activation, u: Unit, values: seq<real>): real
    requires WellFormedUnit(u, |values|)
  {
    if |u.weights| == 0 then 1.0
    else act(u.activation, u.steepness, WeightedSum(u.weights, u.sources, values, |u.weights|))
  }

  /** The values of the first `n` units on an input vector. */
  function Forward(act: Activation, units: seq<Unit>, inputs: seq<real>, n: nat): (values: seq<real>)
    requires n <= |units| && FeedForward(units, |inputs|)
    ensures |values| == n
  {
    if n == 0 then []
    else
      var before := Forward(act, units, inputs, n - 1);
      before + [if n - 1 < |inputs| then inputs[n - 1]
                else if n - 1 == |inputs| then 1.0
                else UnitValue(act, units[n - 1], before)]
  }

  /** A sum only looks at the values its sources name. */
  lemma {:induction false} WeightedSumFrame(
      weights: seq<real>, sources: seq<nat>, values: seq<real>, values': seq<real>, n: nat)
    requires n <= |weights| && n <= |sources|
    requires forall i :: 0 <= i < n ==> sources[i] < |values| && sources[i] < |values'|
    requires forall i :: 0 <= i < n ==> values[sources[i]] == values'[sources[i]]
    ensures WeightedSum(weights, sources, values, n) == WeightedSum(weights, sources, values', n)
  {
    if n > 0 { WeightedSumFrame(weights, sources, values, values', n - 1); }
  }

  lemma {:induction false} WeightedSumPrefix(
      weights: seq<real>, sources: seq<nat>, weights': seq<real>, sources': seq<nat>, values: seq<real>, n: nat)
    requires n <= |weights| && n <= |sources| && n <= |weights'| && n <= |sources'|
    requires forall i :: 0 <= i < n ==> weights[i] == weights'[i] && sources[i] == sources'[i] && sources[i] < |values|
    ensures WeightedSum(weights, sources, values, n) == WeightedSum(weights', sources', values, n)
  {
    if n > 0 { WeightedSumPrefix(weights, sources, weights', sources', values, n - 1); }
  }

  /** The values computed for a prefix stay what they were when more units are computed. */
  lemma {:induction false} ForwardPrefix(act: Activation, units: seq<Unit>, inputs: seq<real>, m: nat, n: nat)
    requires m <= n <= |units| && FeedForward(units, |inputs|)
    ensures Forward(act, units, inputs, m) == Forward(act, units, inputs, n)[..m]
  {
    if m < n {
      ForwardPrefix(act, units, inputs, m, n - 1);
      assert Forward(act, units, inputs, n)[..m] == Forward(act, units, inputs, n - 1)[..m];
    }
  }

  /** Two graphs that agree on their first `n` units compute the same first `n` values. */
  lemma {:induction false} ForwardAgree(act: Activation, units: seq<Unit>, units': seq<Unit>, inputs: seq<real>, n: nat)
    requires n <= |units| && n <= |units'|
    requires FeedForward(units, |inputs|) && FeedForward(units', |inputs|)
    requires forall k :: |inputs| < k < n ==> units[k] == units'[k]
    ensures Forward(act, units, inputs, n) == Forward(act, units', inputs, n)
  {
    if n > 0 { ForwardAgree(act, units, units', inputs, n - 1); }
  }

  lemma {:induction false} ForwardIndex(act: Activation, units: seq<Unit>, inputs: seq<real>, k: nat, m: nat, n: nat)
    requires k < m <= n <= |units| && FeedForward(units, |inputs|)
    ensures Forward(act, units, inputs, m)[k] == Forward(act, units, inputs, n)[k]
  {
    ForwardPrefix(act, units, inputs, m, n);
    assert Forward(act, units, inputs, n)[..m][k] == Forward(act, units, inputs, n)[k];
  }

  /** The shared values, index by index, wherever in the two runs they are read. */
  lemma {:induction false} ForwardShared(act: Activation, units: seq<Unit>, units': seq<Unit>, inputs: seq<real>,
                      shared: nat, n: nat, n': nat)
    requires shared <= n <= |units| && shared <= n' <= |units'|
    requires FeedForward(units, |inputs|) && FeedForward(units', |inputs|)
    requires forall k :: |inputs| < k < shared ==> units[k] == units'[k]
    ensures Forward(act, units, inputs, n)[..shared] == Forward(act, units', inputs, n')[..shared]
  {
    ForwardAgree(act, units, units', inputs, shared);
    ForwardPrefix(act, units, inputs, shared, n);
    ForwardPrefix(act, units', inputs, shared, n');
  }

  /** A sum over a common prefix of values. */
  lemma {:induction false} WeightedSumShared(
      weights: seq<real>, sources: seq<nat>, values: seq<real>, values': seq<real>, shared: nat, n: nat)
    requires n <= |weights| && n <= |sources|
    requires shared <= |values| && shared <= |values'| && values[..shared] == values'[..shared]
    requires forall i :: 0 <= i < n ==> sources[i] < shared
    ensures WeightedSum(weights, sources, values, n) == WeightedSum(weights, sources, values', n)
  {
    forall i | 0 <= i < n ensures values[sources[i]] == values'[sources[i]] {
      assert values[sources[i]] == values[..shared][sources[i]];
      assert values'[sources[i]] == values'[..shared][sources[i]];
    }
    WeightedSumFrame(weights, sources, values, values', n);
  }

  /** The value of one unit, read off the whole run. */
  lemma {:induction false} ForwardAt(act: Activation, units: seq<Unit>, inputs: seq<real>, k: nat, n: nat)
    requires k < n <= |units| && FeedForward(units, |inputs|)
    ensures k < |inputs| ==> Forward(act, units, inputs, n)[k] == inputs[k]
    ensures k == |inputs| ==> Forward(act, units, inputs, n)[k] == 1.0
    ensures k > |inputs| ==>
      Forward(act, units, inputs, n)[k] == UnitValue(act, units[k], Forward(act, units, inputs, k))
  {
    ForwardPrefix(act, units, inputs, k + 1, n);
    assert Forward(act, units, inputs, n)[k] == Forward(act, units, inputs, n)[..k + 1][k];
  }
}
