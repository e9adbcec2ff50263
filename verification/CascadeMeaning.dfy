/** What splicing a trained candidate into a shortcut network does to the function the
    network computes, independently of how the arrays are rearranged. */
module CascadeMeaning {
  import opened FannGraph

  /** The weights that the outputs get for their connection from the new unit. The outputs are
      rebuilt from last to first while the candidate's outgoing weights are used from first to
      last, so output `j` of `O` gets weight `O - 1 - j`. */
  function AddedWeights(outWeights: seq<real>, multiplier: real): (added: seq<real>)
    ensures |added| == |outWeights|
  {
    seq(|outWeights|, j requires 0 <= j < |outWeights| => Mult(outWeights[|outWeights| - 1 - j], multiplier))
  }

  /** A unit with one more incoming connection. */
  function Connected(u: Unit, source: nat, weight: real): Unit {
    u.(weights := u.weights + [weight], sources := u.sources + [source])
  }

  /** The graph after installation: hidden units, the candidate, the extended outputs. */
  function Installed(units: seq<Unit>, candidate: Unit, added: seq<real>): (r: seq<Unit>)
    requires |added| <= |units|
    ensures |r| == |units| + 1
  {
    var hidden := |units| - |added|;
    units[..hidden] + [candidate] +
    seq(|added|, j requires 0 <= j < |added| => Connected(units[hidden + j], hidden, added[j]))
  }

  /** A graph whose last `outputs` units read only the units before all of them. */
  ghost predicate OutputsLast(units: seq<Unit>, inputs: nat, outputs: nat) {
    inputs + outputs < |units| && FeedForward(units, inputs) &&
    forall n :: |units| - outputs <= n < |units| ==> WellFormedUnit(units[n], |units| - outputs)
  }

  lemma {:induction false} InstalledWellFormed(units: seq<Unit>, inputs: nat, candidate: Unit, added: seq<real>)
    requires OutputsLast(units, inputs, |added|)
    requires WellFormedUnit(candidate, |units| - |added|)
    ensures OutputsLast(Installed(units, candidate, added), inputs, |added|)
  {
    var r := Installed(units, candidate, added);
    var hidden := |units| - |added|;
    forall n | inputs < n < |r| ensures WellFormedUnit(r[n], n) {
      if n < hidden {
        assert r[n] == units[n];
      } else if n > hidden {
        assert r[n] == Connected(units[n - 1], hidden, added[n - 1 - hidden]);
      }
    }
    forall n | hidden + 1 <= n < |r| ensures WellFormedUnit(r[n], hidden + 1) {
      assert r[n] == Connected(units[n - 1], hidden, added[n - 1 - hidden]);
    }
  }

  /** The weighted sum that enters unit `n`. */
  function InputSum(act: Activation, units: seq<Unit>, inputs: seq<real>, n: nat): real
    requires |inputs| < n < |units| && FeedForward(units, |inputs|)
  {
    WeightedSum(units[n].weights, units[n].sources, Forward(act, units, inputs, n), |units[n].weights|)
  }

  /** The sums that enter the outputs. */
  function OutputSums(act: Activation, units: seq<Unit>, inputs: seq<real>, outputs: nat): (sums: seq<real>)
    requires OutputsLast(units, |inputs|, outputs)
    ensures |sums| == outputs
  {
    seq(outputs, j requires 0 <= j < outputs => InputSum(act, units, inputs, |units| - outputs + j))
  }

  /** A unit with connections computes its activation of the sum that enters it. */
  lemma {:induction false} ValueOfSum(act: Activation, units: seq<Unit>, inputs: seq<real>, n: nat)
    requires |inputs| < n < |units| && FeedForward(units, |inputs|) && |units[n].weights| > 0
    ensures Forward(act, units, inputs, |units|)[n] ==
            act(units[n].activation, units[n].steepness, InputSum(act, units, inputs, n))
  {
    hide WeightedSum;
    ForwardAt(act, units, inputs, n, |units|);
  }

  /** The one term that an added connection brings to a sum. */
  lemma {:induction false} ConnectedSum(u: Unit, hidden: nat, weight: real, before: seq<real>, after: seq<real>)
    requires hidden <= |before| && hidden < |after| && WellFormedUnit(u, hidden)
    requires after[..hidden] == before[..hidden]
    ensures var u' := Connected(u, hidden, weight);
            WellFormedUnit(u', |after|) &&
            WeightedSum(u'.weights, u'.sources, after, |u'.weights|) ==
            WeightedSum(u.weights, u.sources, before, |u.weights|) + Mult(weight, after[hidden])
  {
    var u' := Connected(u, hidden, weight);
    WeightedSumPrefix(u'.weights, u'.sources, u.weights, u.sources, after, |u.weights|);
    WeightedSumShared(u.weights, u.sources, after, before, hidden, |u.weights|);
  }

  lemma {:induction false} OutputSum(act: Activation, units: seq<Unit>, r: seq<Unit>, inputs: seq<real>,
                  candidate: Unit, added: seq<real>, n: nat, value: real)
    requires OutputsLast(units, |inputs|, |added|) && WellFormedUnit(candidate, |units| - |added|)
    requires r == Installed(units, candidate, added) && OutputsLast(r, |inputs|, |added|)
    requires |units| - |added| <= n < |units|
    requires value == Forward(act, r, inputs, |r|)[|units| - |added|]
    ensures InputSum(act, r, inputs, n + 1) ==
            InputSum(act, units, inputs, n) + Mult(added[n - (|units| - |added|)], value)
  {
    hide Mult, Forward, WeightedSum;
    var hidden := |units| - |added|;
    ForwardIndex(act, r, inputs, hidden, n + 1, |r|);
    assert r[n + 1] == Connected(units[n], hidden, added[n - hidden]);
    ForwardShared(act, r, units, inputs, hidden, n + 1, n);
    ConnectedSum(units[n], hidden, added[n - hidden],
                 Forward(act, units, inputs, n), Forward(act, r, inputs, n + 1));
  }

  /** Main result: after installation every earlier unit keeps its value on every input, the
      new unit computes the candidate, and the sum of output `j` is the old sum plus its added
      weight times the value of the new unit. */
  lemma {:induction false} InstallKeepsMeaning(act: Activation, units: seq<Unit>, inputs: seq<real>, candidate: Unit, added: seq<real>)
    requires OutputsLast(units, |inputs|, |added|) && WellFormedUnit(candidate, |units| - |added|)
    ensures var r := Installed(units, candidate, added);
            var hidden := |units| - |added|;
            OutputsLast(r, |inputs|, |added|) &&
            Forward(act, r, inputs, |r|)[..hidden] == Forward(act, units, inputs, |units|)[..hidden] &&
            Forward(act, r, inputs, |r|)[hidden] == UnitValue(act, candidate, Forward(act, units, inputs, hidden)) &&
            forall n :: hidden <= n < |units| ==>
              InputSum(act, r, inputs, n + 1) ==
              InputSum(act, units, inputs, n) + Mult(added[n - hidden], Forward(act, r, inputs, |r|)[hidden])
  {
    hide Mult;
    var r := Installed(units, candidate, added);
    var hidden := |units| - |added|;
    InstalledWellFormed(units, |inputs|, candidate, added);
    ForwardShared(act, r, units, inputs, hidden, |r|, |units|);
    ForwardAgree(act, r, units, inputs, hidden);
    ForwardAt(act, r, inputs, hidden, |r|);
    var value := Forward(act, r, inputs, |r|)[hidden];
    forall n | hidden <= n < |units|
      ensures InputSum(act, r, inputs, n + 1) == InputSum(act, units, inputs, n) + Mult(added[n - hidden], value)
    {
      OutputSum(act, units, r, inputs, candidate, added, n, value);
    }
  }

  /** With a zero multiplier the grown network computes the same outputs on every input. */
  lemma {:induction false} ZeroMultiplierKeepsOutputs(act: Activation, units: seq<Unit>, inputs: seq<real>,
                                   candidate: Unit, outWeights: seq<real>, n: nat)
    requires OutputsLast(units, |inputs|, |outWeights|)
    requires WellFormedUnit(candidate, |units| - |outWeights|)
    requires |units| - |outWeights| <= n < |units|
    requires |units[n].weights| > 0  // an output, not a bias neuron
    ensures var r := Installed(units, candidate, AddedWeights(outWeights, 0.0));
            FeedForward(r, |inputs|) &&
            Forward(act, r, inputs, |r|)[n + 1] == Forward(act, units, inputs, |units|)[n]
  {
    hide Mult, Forward, WeightedSum, FeedForward, Installed;
    var added := AddedWeights(outWeights, 0.0);
    var r := Installed(units, candidate, added);
    var hidden := |units| - |outWeights|;
    InstalledWellFormed(units, |inputs|, candidate, added);
    var value := Forward(act, r, inputs, |r|)[hidden];
    OutputSum(act, units, r, inputs, candidate, added, n, value);
    Products(outWeights[|outWeights| - 1 - (n - hidden)]);
    Products(value);
    InstalledOutput(units, candidate, added, n);
    ForwardAt(act, units, inputs, n, |units|);
    ForwardAt(act, r, inputs, n + 1, |r|);
  }

  lemma {:induction false} Products(x: real)
    ensures Mult(x, 0.0) == 0.0 && Mult(0.0, x) == 0.0 && Mult(1.0, x) == x
  {
  }

  lemma {:induction false} InstalledOutput(units: seq<Unit>, candidate: Unit, added: seq<real>, n: nat)
    requires |added| <= |units| && |units| - |added| <= n < |units|
    ensures Installed(units, candidate, added)[n + 1] ==
            Connected(units[n], |units| - |added|, added[n - (|units| - |added|)])
  {
  }

  /** Candidate training scores outgoing weight `j` against output `j`. Installation honours
      that pairing for every choice of outgoing weights exactly when there is at most one output. */
  lemma {:induction false} TrainedPairingIffSingleOutput(outputs: nat, multiplier: real)
    requires multiplier != 0.0
    ensures (forall outWeights: seq<real>, j | |outWeights| == outputs && 0 <= j < outputs ::
               AddedWeights(outWeights, multiplier)[j] == Mult(outWeights[j], multiplier))
            <==> outputs <= 1
  {
    hide Mult;
    if outputs > 1 {
      var outWeights := seq(outputs, i => if i == 0 then 1.0 else 0.0);
      Products(multiplier);
      assert AddedWeights(outWeights, multiplier)[0] == Mult(0.0, multiplier);
      assert Mult(outWeights[0], multiplier) == multiplier;
    }
  }
}
