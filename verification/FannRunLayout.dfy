/** The graph that a network of any of the three wirings stands for when it is run. */
module FannRunLayout {
  import opened FannGraph
  import opened FannLayout
  import opened FannGradient

  /** Fully connected layers, fully connected shortcuts, or connections that are looked up. */
  datatype Wiring = Layered | Shortcut | Looked

  /** Where connection `i` of a neuron in layer `k` comes from; `firstCon` is the neuron's first weight. */
  function SourceAt(wiring: Wiring, layers: seq<Layer>, connections: seq<nat>, k: nat, firstCon: nat, i: nat): nat
    requires 0 < k < |layers| && (wiring.Looked? ==> firstCon + i < |connections|)
  {
    match wiring
    case Layered => layers[k - 1].first + i
    case Shortcut => i
    case Looked => connections[firstCon + i]
  }

  /** The neuron's weights exist and its sources lie in earlier layers. */
  ghost predicate ReadsEarlier(wiring: Wiring, layers: seq<Layer>, connections: seq<nat>, k: nat, u: Neuron, weights: nat)
    requires 0 < k < |layers|
  {
    u.firstCon <= u.lastCon <= weights && (wiring.Looked? ==> u.lastCon <= |connections|) &&
    forall i :: 0 <= i < u.lastCon - u.firstCon ==>
      SourceAt(wiring, layers, connections, k, u.firstCon, i) < layers[k].first
  }

  ghost predicate RunLayout(wiring: Wiring, layers: seq<Layer>, neurons: seq<Neuron>, connections: seq<nat>,
                            inputs: nat, total: nat, weights: nat)
  {
    Tiled(layers, total) && total <= |neurons| && layers[0].last == inputs + 1 && inputs < total &&
    forall k, n :: 0 < k < |layers| && layers[k].first <= n < layers[k].last && n < total ==>
      ReadsEarlier(wiring, layers, connections, k, neurons[n], weights)
  }

  ghost function NetUnit(wiring: Wiring, layers: seq<Layer>, connections: seq<nat>, k: nat,
                         u: Neuron, weights: seq<real>): (r: Unit)
    requires 0 < k < |layers| && ReadsEarlier(wiring, layers, connections, k, u, |weights|)
    ensures |r.weights| == |r.sources| == u.lastCon - u.firstCon
    ensures WellFormedUnit(r, layers[k].first)
  {
    Unit(u.activation, u.steepness, weights[u.firstCon..u.lastCon],
         seq(u.lastCon - u.firstCon, i requires 0 <= i < u.lastCon - u.firstCon =>
           SourceAt(wiring, layers, connections, k, u.firstCon, i)))
  }

  /** Neuron `n` seen as a unit; the input layer's neurons only hold their place. */
  ghost function UnitOf(wiring: Wiring, layers: seq<Layer>, neurons: seq<Neuron>, connections: seq<nat>,
                        inputs: nat, total: nat, weights: seq<real>, n: nat): (r: Unit)
    requires RunLayout(wiring, layers, neurons, connections, inputs, total, |weights|) && n < total
    ensures n > inputs ==> WellFormedUnit(r, n)
  {
    if n <= inputs then InputUnit
    else
      var k := LayerOf(layers, total, n);
      assert 0 < k;
      NetUnit(wiring, layers, connections, k, neurons[n], weights)
  }

  ghost function NetUnits(wiring: Wiring, layers: seq<Layer>, neurons: seq<Neuron>, connections: seq<nat>,
                          inputs: nat, total: nat, weights: seq<real>): (units: seq<Unit>)
    requires RunLayout(wiring, layers, neurons, connections, inputs, total, |weights|)
    ensures |units| == total && FeedForward(units, inputs)
  {
    seq(total, n requires 0 <= n < total => UnitOf(wiring, layers, neurons, connections, inputs, total, weights, n))
  }

  /** A neuron's unit, given the layer it is in. */
  lemma {:induction false} NetUnitsAt(
      wiring: Wiring, layers: seq<Layer>, neurons: seq<Neuron>, connections: seq<nat>,
      inputs: nat, total: nat, weights: seq<real>, k: nat, n: nat)
    requires RunLayout(wiring, layers, neurons, connections, inputs, total, |weights|)
    requires 0 < k < |layers| && layers[k].first <= n < layers[k].last
    ensures n < total && inputs < n && ReadsEarlier(wiring, layers, connections, k, neurons[n], |weights|)
    ensures NetUnits(wiring, layers, neurons, connections, inputs, total, weights)[n] ==
            NetUnit(wiring, layers, connections, k, neurons[n], weights)
  {
    LayersOrdered(layers, total, 0, k);
    if k + 1 < |layers| { LayersOrdered(layers, total, k, |layers| - 1); }
    LayerUnique(layers, total, n, k);
  }

  /** Shortcut networks run the graph that cascade training rearranges. */
  lemma {:induction false} ShortcutRuns(
      layers: seq<Layer>, neurons: seq<Neuron>, connections: seq<nat>, weights: seq<real>,
      inputs: nat, outputs: nat, total: nat, used: nat)
    requires ShortcutLayout(layers, neurons, inputs, outputs, total, used) && used <= |weights|
    ensures RunLayout(Shortcut, layers, neurons, connections, inputs, total, |weights|)
    ensures ShortcutRanges(neurons, weights, inputs, total)
    ensures NetUnits(Shortcut, layers, neurons, connections, inputs, total, weights) ==
            ShortcutUnits(neurons, weights, inputs, total)
  {
    ShortcutRangesHold(layers, neurons, weights, inputs, outputs, total, used);
    forall k, n | 0 < k < |layers| && layers[k].first <= n < layers[k].last && n < total
      ensures ReadsEarlier(Shortcut, layers, connections, k, neurons[n], |weights|)
    {
      LayersOrdered(layers, total, 0, k);
      OwnRange(layers, neurons, inputs, outputs, total, used, n);
    }
    var a := NetUnits(Shortcut, layers, neurons, connections, inputs, total, weights);
    var b := ShortcutUnits(neurons, weights, inputs, total);
    forall n | 0 <= n < total ensures a[n] == b[n] {
      if n > inputs {
        assert a[n].sources == b[n].sources;
      }
    }
  }

  /** The looked-up connections of every neuron name exactly the sources the contiguous wiring uses. */
  ghost predicate PointersContiguous(wiring: Wiring, layers: seq<Layer>, neurons: seq<Neuron>, connections: seq<nat>, total: nat)
    requires !wiring.Looked? && total <= |neurons|
  {
    forall k, n :: 0 < k < |layers| && layers[k].first <= n < layers[k].last && n < total ==>
      neurons[n].lastCon <= |connections| &&
      forall i :: 0 <= i < neurons[n].lastCon - neurons[n].firstCon ==>
        connections[neurons[n].firstCon + i] == SourceAt(wiring, layers, connections, k, neurons[n].firstCon, i)
  }

  /** The contiguous and the looked-up way of running agree on such a network: they run the same graph. */
  lemma {:induction false} PathsAgree(
      wiring: Wiring, layers: seq<Layer>, neurons: seq<Neuron>, connections: seq<nat>,
      inputs: nat, total: nat, weights: seq<real>)
    requires !wiring.Looked? && RunLayout(wiring, layers, neurons, connections, inputs, total, |weights|)
    requires PointersContiguous(wiring, layers, neurons, connections, total)
    ensures RunLayout(Looked, layers, neurons, connections, inputs, total, |weights|)
    ensures NetUnits(Looked, layers, neurons, connections, inputs, total, weights) ==
            NetUnits(wiring, layers, neurons, connections, inputs, total, weights)
  {
    forall k, n | 0 < k < |layers| && layers[k].first <= n < layers[k].last && n < total
      ensures ReadsEarlier(Looked, layers, connections, k, neurons[n], |weights|)
    {
      assert ReadsEarlier(wiring, layers, connections, k, neurons[n], |weights|);
      forall i | 0 <= i < neurons[n].lastCon - neurons[n].firstCon
        ensures SourceAt(Looked, layers, connections, k, neurons[n].firstCon, i) < layers[k].first
      {
        assert SourceAt(wiring, layers, connections, k, neurons[n].firstCon, i) < layers[k].first;
      }
    }
    var a := NetUnits(Looked, layers, neurons, connections, inputs, total, weights);
    var b := NetUnits(wiring, layers, neurons, connections, inputs, total, weights);
    forall n | 0 <= n < total ensures a[n] == b[n] {
      if n > inputs {
        var k := LayerOf(layers, total, n);
        assert a[n].sources == b[n].sources;
      }
    }
  }

  lemma {:induction false} ShapeKeepsGraph(
      wiring: Wiring, layers: seq<Layer>, neurons: seq<Neuron>, neurons': seq<Neuron>, connections: seq<nat>,
      inputs: nat, total: nat, weights: seq<real>)
    requires RunLayout(wiring, layers, neurons, connections, inputs, total, |weights|)
    requires SameShapes(neurons, neurons')
    ensures RunLayout(wiring, layers, neurons', connections, inputs, total, |weights|)
    ensures NetUnits(wiring, layers, neurons', connections, inputs, total, weights) ==
            NetUnits(wiring, layers, neurons, connections, inputs, total, weights)
  {
    forall k, n | 0 < k < |layers| && layers[k].first <= n < layers[k].last && n < total
      ensures ReadsEarlier(wiring, layers, connections, k, neurons'[n], |weights|)
    {
      assert SameShape(neurons[n], neurons'[n]);
      assert ReadsEarlier(wiring, layers, connections, k, neurons[n], |weights|);
      forall i | 0 <= i < neurons'[n].lastCon - neurons'[n].firstCon
        ensures SourceAt(wiring, layers, connections, k, neurons'[n].firstCon, i) < layers[k].first
      {
        assert SourceAt(wiring, layers, connections, k, neurons[n].firstCon, i) < layers[k].first;
      }
    }
    forall n | 0 <= n < total
      ensures UnitOf(wiring, layers, neurons', connections, inputs, total, weights, n) ==
              UnitOf(wiring, layers, neurons, connections, inputs, total, weights, n)
    {
      assert SameShape(neurons[n], neurons'[n]);
    }
  }

  lemma {:induction false} RunFacts(wiring: Wiring, layers: seq<Layer>, neurons: seq<Neuron>, connections: seq<nat>,
                                    inputs: nat, total: nat, weights: nat, k: nat)
    requires RunLayout(wiring, layers, neurons, connections, inputs, total, weights) && 0 < k < |layers|
    ensures inputs < layers[k].first == layers[k - 1].last <= layers[k].last <= total <= |neurons|
    ensures layers[0] == Layer(0, inputs + 1) && layers[|layers| - 1].last == total
  {
    LayersOrdered(layers, total, 0, k);
    if k + 1 < |layers| { LayersOrdered(layers, total, k, |layers| - 1); }
  }

  /** In the contiguous wirings connection `i` comes from neuron `base + i`. */
  lemma {:induction false} ContiguousSources(
      wiring: Wiring, layers: seq<Layer>, connections: seq<nat>, k: nat, u: Neuron, weights: seq<real>, base: nat)
    requires 0 < k < |layers| && ReadsEarlier(wiring, layers, connections, k, u, |weights|) && !wiring.Looked?
    requires base == if wiring.Shortcut? then 0 else layers[k - 1].first
    ensures var r := NetUnit(wiring, layers, connections, k, u, weights);
            (forall i :: 0 <= i < |r.sources| ==> r.sources[i] == base + i < layers[k].first) &&
            (|r.sources| > 0 ==> base + |r.sources| <= layers[k].first)
  {
    var r := NetUnit(wiring, layers, connections, k, u, weights);
    if |r.sources| > 0 { assert r.sources[|r.sources| - 1] < layers[k].first; }
  }

  lemma {:induction false} LookedSources(
      layers: seq<Layer>, connections: seq<nat>, k: nat, u: Neuron, weights: seq<real>)
    requires 0 < k < |layers| && ReadsEarlier(Looked, layers, connections, k, u, |weights|)
    ensures u.lastCon <= |connections|
    ensures var r := NetUnit(Looked, layers, connections, k, u, weights);
            forall i :: 0 <= i < |r.sources| ==> r.sources[i] == connections[u.firstCon + i] < layers[k].first
  {
    var r := NetUnit(Looked, layers, connections, k, u, weights);
    forall i | 0 <= i < |r.sources| ensures r.sources[i] == connections[u.firstCon + i] < layers[k].first {
      assert SourceAt(Looked, layers, connections, k, u.firstCon, i) < layers[k].first;
    }
  }

  lemma {:induction false} RunEnds(wiring: Wiring, layers: seq<Layer>, neurons: seq<Neuron>, connections: seq<nat>,
                                   inputs: nat, total: nat, weights: nat)
    requires RunLayout(wiring, layers, neurons, connections, inputs, total, weights)
    ensures |layers| >= 2 && inputs < total <= |neurons|
    ensures layers[0] == Layer(0, inputs + 1) && layers[|layers| - 1].last == total
  {
  }

  lemma {:induction false} PointersAllSet(
      layers: seq<Layer>, neurons: seq<Neuron>, pointers: seq<nat>, inputs: nat, outputs: nat, total: nat, used: nat)
    requires ShortcutLayout(layers, neurons, inputs, outputs, total, used)
    requires PointersSet(neurons, pointers, inputs, total)
    ensures PointersContiguous(Shortcut, layers, neurons, pointers, total)
  {
    forall k, n | 0 < k < |layers| && layers[k].first <= n < layers[k].last && n < total
      ensures neurons[n].lastCon <= |pointers|
      ensures forall i :: 0 <= i < neurons[n].lastCon - neurons[n].firstCon ==>
                pointers[neurons[n].firstCon + i] == SourceAt(Shortcut, layers, pointers, k, neurons[n].firstCon, i)
    {
      LayersOrdered(layers, total, 0, k);
      forall i | 0 <= i < neurons[n].lastCon - neurons[n].firstCon
        ensures pointers[neurons[n].firstCon + i] == SourceAt(Shortcut, layers, pointers, k, neurons[n].firstCon, i)
      {
        var x := neurons[n].firstCon + i;
        assert pointers[x] == x - neurons[n].firstCon;
      }
    }
  }

  /** The neurons of a layer read only earlier layers. */
  lemma {:induction false} LayerReadsEarlier(
      wiring: Wiring, layers: seq<Layer>, neurons: seq<Neuron>, connections: seq<nat>,
      inputs: nat, total: nat, weights: seq<real>, k: nat)
    requires RunLayout(wiring, layers, neurons, connections, inputs, total, |weights|) && 0 < k < |layers|
    ensures layers[k].last <= total
    ensures ReadBelow(NetUnits(wiring, layers, neurons, connections, inputs, total, weights),
                      layers[k].first, layers[k].last, layers[k].first)
  {
    RunFacts(wiring, layers, neurons, connections, inputs, total, |weights|, k);
    forall n | layers[k].first <= n < layers[k].last
      ensures WellFormedUnit(NetUnits(wiring, layers, neurons, connections, inputs, total, weights)[n], layers[k].first)
    {
      NetUnitsAt(wiring, layers, neurons, connections, inputs, total, weights, k, n);
    }
  }

  // ---- Accumulating slopes ----

  ghost predicate Owned(neurons: seq<Neuron>, lo: nat, hi: nat, x: int) {
    exists n :: lo <= n < hi && n < |neurons| && neurons[n].firstCon <= x < neurons[n].lastCon
  }

  /** The slopes of the connections of neurons `lo .. hi` have grown by the owner's error times the value
      the connection reads; no other slope has changed. */
  ghost predicate SlopesGrown(units: seq<Unit>, neurons: seq<Neuron>, values: seq<real>, errors: seq<real>,
                              before: seq<real>, after: seq<real>, lo: nat, hi: nat)
  {
    |before| == |after| && hi <= |units| && |units| <= |neurons| && |values| == |errors| == |units| &&
    (forall n, i :: lo <= n < hi && 0 <= i < |units[n].sources| ==>
       units[n].sources[i] < |values| && neurons[n].firstCon + i < |before| &&
       after[neurons[n].firstCon + i] == before[neurons[n].firstCon + i] + Mult(errors[n], values[units[n].sources[i]])) &&
    (forall x :: 0 <= x < |before| && !Owned(neurons, lo, hi, x) ==> after[x] == before[x])
  }

  lemma {:induction false} NoSlopesGrown(units: seq<Unit>, neurons: seq<Neuron>, values: seq<real>, errors: seq<real>,
                                         before: seq<real>, lo: nat)
    requires lo <= |units| <= |neurons| && |values| == |errors| == |units|
    ensures SlopesGrown(units, neurons, values, errors, before, before, lo, lo)
  {
  }

  lemma {:induction false} OneMoreGrown(units: seq<Unit>, neurons: seq<Neuron>, values: seq<real>, errors: seq<real>,
                                        before: seq<real>, now: seq<real>, next: seq<real>, lo: nat, n: nat, connections: nat)
    requires SlopesGrown(units, neurons, values, errors, before, now, lo, n) && lo <= n < |units|
    requires RangesAscend(neurons, lo, |units|, connections) && connections <= |before|
    requires forall m :: lo <= m <= n ==> |units[m].sources| == neurons[m].lastCon - neurons[m].firstCon
    requires WellFormedUnit(units[n], |values|) && |next| == |now|
    requires forall i :: 0 <= i < |units[n].sources| ==>
               next[neurons[n].firstCon + i] == now[neurons[n].firstCon + i] + Mult(errors[n], values[units[n].sources[i]])
    requires forall x :: 0 <= x < |now| && !(neurons[n].firstCon <= x < neurons[n].lastCon) ==> next[x] == now[x]
    ensures SlopesGrown(units, neurons, values, errors, before, next, lo, n + 1)
  {
    hide Mult;
    forall x | neurons[n].firstCon <= x < neurons[n].lastCon ensures now[x] == before[x] {
      assert !Owned(neurons, lo, n, x);
    }
    forall m, i | lo <= m < n + 1 && 0 <= i < |units[m].sources|
      ensures neurons[m].firstCon + i < |before| && units[m].sources[i] < |values| &&
              next[neurons[m].firstCon + i] == before[neurons[m].firstCon + i] + Mult(errors[m], values[units[m].sources[i]])
    {
      if m < n { assert neurons[m].lastCon <= neurons[n].firstCon; }
    }
    forall x | 0 <= x < |before| && !Owned(neurons, lo, n + 1, x) ensures next[x] == before[x] {
      assert !Owned(neurons, lo, n, x);
      assert !(neurons[n].firstCon <= x < neurons[n].lastCon);
    }
  }

  lemma {:induction false} OwnedCounts(
      wiring: Wiring, layers: seq<Layer>, neurons: seq<Neuron>, connections: seq<nat>,
      inputs: nat, total: nat, weights: seq<real>)
    requires RunLayout(wiring, layers, neurons, connections, inputs, total, |weights|)
    ensures total <= |neurons|
    ensures forall n :: inputs < n < total ==>
              |NetUnits(wiring, layers, neurons, connections, inputs, total, weights)[n].sources| ==
              neurons[n].lastCon - neurons[n].firstCon
  {
  }

  lemma {:induction false} AscendFrom(neurons: seq<Neuron>, from: nat, lo: nat, total: nat, connections: nat)
    requires from <= lo <= total <= |neurons| && RangesAscend(neurons, from, total, connections)
    ensures RangesAscend(neurons, lo, total, connections)
  {
  }

  /** The slope of every connection has grown by the gradient: the sum, over the outputs, of the output's
      share of the error times the chain-rule derivative of that output in the connection's weight. */
  ghost predicate GrownByGradient(units: seq<Unit>, inputs: nat, neurons: seq<Neuron>, values: seq<real>, slopes: seq<real>,
                                  shares: seq<real>, before: seq<real>, after: seq<real>)
  {
    FeedForward(units, inputs) && |values| == |slopes| == |shares| == |units| <= |neurons| && |after| == |before| &&
    forall n, i :: inputs < n < |units| && 0 <= i < |units[n].weights| ==>
      GrownAt(units, inputs, neurons, values, slopes, shares, before, after, n, i)
  }

  ghost predicate GrownAt(units: seq<Unit>, inputs: nat, neurons: seq<Neuron>, values: seq<real>, slopes: seq<real>,
                          shares: seq<real>, before: seq<real>, after: seq<real>, n: nat, i: nat)
    requires FeedForward(units, inputs) && |values| == |slopes| == |shares| == |units| <= |neurons| && |after| == |before|
    requires inputs < n < |units| && i < |units[n].weights|
  {
    neurons[n].firstCon + i < |before| &&
    after[neurons[n].firstCon + i] == before[neurons[n].firstCon + i] +
      Total(shares, Tangents(units, inputs, values, slopes, n, i, |units|), |units|)
  }

  /** What accumulated slopes mean: the gradient. */
  lemma {:induction false} SlopesAreGradient(
      units: seq<Unit>, inputs: nat, neurons: seq<Neuron>, values: seq<real>, slopes: seq<real>, shares: seq<real>,
      errors: seq<real>, last: nat, before: seq<real>, after: seq<real>)
    requires SlopesGrown(units, neurons, values, errors, before, after, inputs + 1, |units|)
    requires |slopes| == |shares| == |units| && forall m :: 0 <= m < last && m < |shares| ==> shares[m] == 0.0
    requires Backpropagated(units, inputs, slopes, last, GivenErrors(slopes, shares), errors)
    requires ReadBelow(units, last, |units|, last)
    ensures GrownByGradient(units, inputs, neurons, values, slopes, shares, before, after)
  {
    hide Mult, Total, Tangents, SentBack, ReadBelow, GivenErrors;
    assert FeedForward(units, inputs);
    forall n, i | inputs < n < |units| && 0 <= i < |units[n].weights|
      ensures GrownAt(units, inputs, neurons, values, slopes, shares, before, after, n, i)
    {
      assert WellFormedUnit(units[n], n);
      assert units[n].sources[i] < |values| && neurons[n].firstCon + i < |before|;
      assert after[neurons[n].firstCon + i] ==
             before[neurons[n].firstCon + i] + Mult(errors[n], values[units[n].sources[i]]);
      Duality(units, inputs, values, slopes, last, shares, errors, n, i);
    }
  }
}
