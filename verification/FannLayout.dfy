/** How a FANN network lies in memory: all neurons in one array, all weights in another,
    each neuron owning the weights `firstCon .. lastCon`, each layer a range of neurons. */
module FannLayout {
  import opened FannGraph
  import opened CascadeMeaning

  datatype Neuron = Neuron(value: real, sum: real, activation: nat, steepness: real, firstCon: nat, lastCon: nat)

  datatype Layer = Layer(first: nat, last: nat)

  /** The layers cut the first `total` neurons into consecutive ranges. */
  ghost predicate Tiled(layers: seq<Layer>, total: nat) {
    |layers| >= 2 &&
    layers[0].first == 0 && layers[|layers| - 1].last == total &&
    (forall k :: 0 <= k < |layers| ==> layers[k].first <= layers[k].last) &&
    (forall k :: 0 < k < |layers| ==> layers[k].first == layers[k - 1].last)
  }

  /** The memory layout of a shortcut network: every neuron behind the input layer owns one
      weight per neuron of the earlier layers, and these ranges tile the weights in order. */
  ghost predicate ShortcutLayout(
      layers: seq<Layer>, neurons: seq<Neuron>, inputs: nat, outputs: nat, total: nat, connections: nat)
  {
    Tiled(layers, total) && total <= |neurons| && outputs > 0 &&
    layers[0].last == inputs + 1 && layers[|layers| - 1].first + outputs == total && inputs + 1 < total &&
    (forall k, n :: 0 < k < |layers| && layers[k].first <= n < layers[k].last && n < total ==>
       neurons[n].lastCon == neurons[n].firstCon + layers[k].first) &&
    neurons[inputs + 1].firstCon == 0 &&
    (forall n :: inputs + 1 < n < total ==> neurons[n].firstCon == neurons[n - 1].lastCon) &&
    neurons[total - 1].lastCon == connections
  }

  lemma {:induction false} LayersOrdered(layers: seq<Layer>, total: nat, i: nat, j: nat)
    requires Tiled(layers, total) && i < j < |layers|
    ensures layers[i].last <= layers[j].first
    decreases j
  {
    if i + 1 < j { LayersOrdered(layers, total, i, j - 1); }
  }

  /** The layers with an empty one squeezed in at `pos`. */
  function WithEmptyLayer(layers: seq<Layer>, pos: nat): seq<Layer>
    requires pos < |layers|
  {
    layers[..pos] + [Layer(layers[pos].first, layers[pos].first)] + layers[pos..]
  }

  lemma {:induction false} EmptyLayerTiles(layers: seq<Layer>, pos: nat, total: nat)
    requires Tiled(layers, total) && 0 < pos < |layers|
    ensures Tiled(WithEmptyLayer(layers, pos), total)
    ensures var layers' := WithEmptyLayer(layers, pos);
            |layers'| == |layers| + 1 && layers'[0] == layers[0] &&
            layers'[|layers|] == layers[|layers| - 1] && layers'[pos].first == layers'[pos].last
  {
    var layers' := WithEmptyLayer(layers, pos);
    forall k | 0 < k < |layers'| ensures layers'[k].first == layers'[k - 1].last {
      if k > pos + 1 { assert layers[k - 1].first == layers[k - 2].last; }
    }
  }

  lemma {:induction false} EmptyLayerKeepsLayout(
      layers: seq<Layer>, pos: nat, neurons: seq<Neuron>, inputs: nat, outputs: nat, total: nat, connections: nat)
    requires ShortcutLayout(layers, neurons, inputs, outputs, total, connections) && 0 < pos < |layers|
    ensures ShortcutLayout(WithEmptyLayer(layers, pos), neurons, inputs, outputs, total, connections)
  {
    hide Tiled;
    EmptyLayerTiles(layers, pos, total);
    var layers' := WithEmptyLayer(layers, pos);
    forall k, n | 0 < k < |layers'| && layers'[k].first <= n < layers'[k].last && n < total
      ensures neurons[n].lastCon == neurons[n].firstCon + layers'[k].first
    {
      assert k < pos ==> layers'[k] == layers[k];
      assert k > pos ==> layers'[k] == layers[k - 1];
    }
  }

  /** The layer that holds a neuron. */
  ghost function LayerOf(layers: seq<Layer>, total: nat, n: nat): (k: nat)
    requires Tiled(layers, total) && n < total
    ensures k < |layers| && layers[k].first <= n < layers[k].last
  {
    SomeLayer(layers, total, n, |layers| - 1);
    var k :| 0 <= k < |layers| && layers[k].first <= n < layers[k].last;
    k
  }

  lemma {:induction false} SomeLayer(layers: seq<Layer>, total: nat, n: nat, top: nat)
    requires Tiled(layers, total) && top < |layers| && n < layers[top].last
    ensures exists k :: 0 <= k <= top && layers[k].first <= n < layers[k].last
  {
    if n < layers[top].first { SomeLayer(layers, total, n, top - 1); }
  }

  lemma {:induction false} LayerUnique(layers: seq<Layer>, total: nat, n: nat, k: nat)
    requires Tiled(layers, total) && n < total && k < |layers| && layers[k].first <= n < layers[k].last
    ensures LayerOf(layers, total, n) == k
  {
    var l := LayerOf(layers, total, n);
    if l < k { LayersOrdered(layers, total, l, k); }
    if k < l { LayersOrdered(layers, total, k, l); }
  }

  /** Weight ranges follow the order of the neurons. */
  lemma {:induction false} RangesOrdered(
      layers: seq<Layer>, neurons: seq<Neuron>, inputs: nat, outputs: nat, total: nat, connections: nat, m: nat, n: nat)
    requires ShortcutLayout(layers, neurons, inputs, outputs, total, connections)
    requires inputs < m < n < total
    ensures neurons[m].firstCon <= neurons[m].lastCon <= neurons[n].firstCon <= neurons[n].lastCon <= connections
    decreases total - m, n
  {
    OwnRange(layers, neurons, inputs, outputs, total, connections, m);
    OwnRange(layers, neurons, inputs, outputs, total, connections, n);
    if m + 1 < n { RangesOrdered(layers, neurons, inputs, outputs, total, connections, m + 1, n); 
      OwnRange(layers, neurons, inputs, outputs, total, connections, m + 1); }
  }

  /** A neuron's weights lie inside the weight array and it has no more of them than
      there are neurons before it. */
  lemma {:induction false} OwnRange(
      layers: seq<Layer>, neurons: seq<Neuron>, inputs: nat, outputs: nat, total: nat, connections: nat, n: nat)
    requires ShortcutLayout(layers, neurons, inputs, outputs, total, connections)
    requires inputs < n < total
    ensures neurons[n].firstCon <= neurons[n].lastCon <= connections
    ensures inputs < neurons[n].lastCon - neurons[n].firstCon <= n
    decreases total - n
  {
    var k := LayerOf(layers, total, n);
    assert k > 0;
    LayersOrdered(layers, total, 0, k);
    if n + 1 < total { OwnRange(layers, neurons, inputs, outputs, total, connections, n + 1); }
  }

  /** The graph that a shortcut network stands for: connection `i` of a neuron comes from neuron `i`. */
  ghost function ShortcutUnit(u: Neuron, weights: seq<real>): (r: Unit)
    requires u.firstCon <= u.lastCon <= |weights|
    ensures |r.weights| == |r.sources| == u.lastCon - u.firstCon
  {
    Unit(u.activation, u.steepness, weights[u.firstCon..u.lastCon],
         seq(u.lastCon - u.firstCon, i requires 0 <= i < u.lastCon - u.firstCon => i))
  }

  /** Input neurons and the bias take no part in the graph beyond their place. */
  const InputUnit := Unit(0, 0.0, [], [])

  ghost predicate ShortcutRanges(neurons: seq<Neuron>, weights: seq<real>, inputs: nat, total: nat) {
    total <= |neurons| &&
    forall n :: inputs < n < total ==> neurons[n].firstCon <= neurons[n].lastCon <= |weights|
  }

  ghost function ShortcutUnits(neurons: seq<Neuron>, weights: seq<real>, inputs: nat, total: nat): (units: seq<Unit>)
    requires ShortcutRanges(neurons, weights, inputs, total)
    ensures |units| == total
  {
    seq(total, n requires 0 <= n < total =>
      if n <= inputs then InputUnit else ShortcutUnit(neurons[n], weights))
  }

  lemma {:induction false} ShortcutRangesHold(
      layers: seq<Layer>, neurons: seq<Neuron>, weights: seq<real>, inputs: nat, outputs: nat, total: nat, connections: nat)
    requires ShortcutLayout(layers, neurons, inputs, outputs, total, connections) && connections <= |weights|
    ensures ShortcutRanges(neurons, weights, inputs, total)
  {
    forall n | inputs < n < total ensures neurons[n].firstCon <= neurons[n].lastCon <= |weights| {
      OwnRange(layers, neurons, inputs, outputs, total, connections, n);
    }
  }

  /** The graph of a well laid out shortcut network is feed-forward, its outputs come last and
      do not read one another. */
  lemma {:induction false} ShortcutGraph(
      layers: seq<Layer>, neurons: seq<Neuron>, weights: seq<real>, inputs: nat, outputs: nat, total: nat, connections: nat)
    requires ShortcutLayout(layers, neurons, inputs, outputs, total, connections) && connections <= |weights|
    ensures ShortcutRanges(neurons, weights, inputs, total)
    ensures var units := ShortcutUnits(neurons, weights, inputs, total);
            inputs + outputs < |units| && FeedForward(units, inputs) &&
            forall n :: total - outputs <= n < total ==> WellFormedUnit(units[n], total - outputs)
  {
    ShortcutRangesHold(layers, neurons, weights, inputs, outputs, total, connections);
    LayersOrdered(layers, total, 0, |layers| - 1);
    forall n | inputs < n < total
      ensures WellFormedUnit(ShortcutUnits(neurons, weights, inputs, total)[n], n)
    {
      OwnRange(layers, neurons, inputs, outputs, total, connections, n);
    }
    forall n | total - outputs <= n < total
      ensures WellFormedUnit(ShortcutUnits(neurons, weights, inputs, total)[n], total - outputs)
    {
      assert neurons[n].lastCon == neurons[n].firstCon + layers[|layers| - 1].first;
    }
  }

  // ---- Splicing one neuron in front of the outputs ----

  /** The output neurons move up by one; the weights of neuron `j` move right by `j` and gain one. */
  function MovedNeuron(u: Neuron, j: nat): Neuron {
    u.(firstCon := u.firstCon + j, lastCon := u.lastCon + j + 1)
  }

  /** Neurons `n .. total` have been moved one place up, the others are where they were. */
  ghost predicate NeuronsSliding(before: seq<Neuron>, now: seq<Neuron>, n: nat, total: nat) {
    n <= total < |before| == |now| &&
    (forall j :: n <= j < total ==> now[j + 1] == MovedNeuron(before[j], j)) &&
    (forall j :: 0 <= j < |now| && !(n < j <= total) ==> now[j] == before[j])
  }

  lemma {:induction false} NeuronsSlidingStart(before: seq<Neuron>, total: nat)
    requires total < |before|
    ensures NeuronsSliding(before, before, total, total)
  {
  }

  lemma {:induction false} NeuronsSlidingStep(before: seq<Neuron>, now: seq<Neuron>, n: nat, total: nat)
    requires NeuronsSliding(before, now, n, total) && n > 0
    ensures now[n - 1] == before[n - 1]
    ensures NeuronsSliding(before, now[n := MovedNeuron(now[n - 1], n - 1)], n - 1, total)
  {
  }

  ghost predicate RangesAscend(neurons: seq<Neuron>, from: nat, total: nat, connections: nat)
    requires from <= total <= |neurons|
  {
    (forall j :: from <= j < total ==> neurons[j].firstCon <= neurons[j].lastCon <= connections) &&
    (forall i, j :: from <= i < j < total ==> neurons[i].lastCon <= neurons[j].firstCon)
  }

  /** The weights of neurons `from .. total` have been moved, none lost, and each has got its
      added weight; `added[j - hidden]` belongs to neuron `j`. */
  ghost predicate WeightsMoved(neurons: seq<Neuron>, before: seq<real>, after: seq<real>,
                               hidden: nat, from: nat, total: nat, added: seq<real>)
    requires hidden <= from <= total <= |neurons| && |added| == total - hidden
    requires forall j :: from <= j < total ==>
               neurons[j].firstCon <= neurons[j].lastCon && neurons[j].lastCon + j < |after| == |before|
  {
    forall j :: from <= j < total ==>
      after[neurons[j].firstCon + j..neurons[j].lastCon + j] == before[neurons[j].firstCon..neurons[j].lastCon] &&
      after[neurons[j].lastCon + j] == added[j - hidden]
  }

  /** What moving one neuron's weights right by `distance` does to the weight array. */
  ghost predicate SlidOnce(now: seq<real>, next: seq<real>, u: Neuron, distance: nat, weight: real) {
    |next| == |now| && u.firstCon <= u.lastCon && u.lastCon + distance < |now| &&
    next[u.firstCon + distance..u.lastCon + distance] == now[u.firstCon..u.lastCon] &&
    next[u.lastCon + distance] == weight &&
    forall x :: 0 <= x < |now| && !(u.firstCon + distance <= x <= u.lastCon + distance) ==> next[x] == now[x]
  }

  /** The weights from `first` to `last` have moved right by `distance`; nothing else has changed. */
  ghost predicate ShiftedRight(a: seq<real>, b: seq<real>, first: nat, last: nat, distance: nat) {
    |a| == |b| && first <= last && last + distance <= |a| &&
    (forall k :: first + distance <= k < last + distance ==> b[k] == a[k - distance]) &&
    forall k :: 0 <= k < |a| && !(first + distance <= k < last + distance) ==> b[k] == a[k]
  }

  /** The weights have been shifted, and the one behind them is set. */
  lemma {:induction false} SlidWeights(now: seq<real>, shifted: seq<real>, u: Neuron, distance: nat, weight: real)
    requires ShiftedRight(now, shifted, u.firstCon, u.lastCon, distance) && u.lastCon + distance < |now|
    ensures SlidOnce(now, shifted[u.lastCon + distance := weight], u, distance, weight)
  {
    var next := shifted[u.lastCon + distance := weight];
    assert next[u.firstCon + distance..u.lastCon + distance] == now[u.firstCon..u.lastCon];
  }

  lemma {:induction false} ShiftedBehind(a: seq<real>, b: seq<real>, first: nat, last: nat, distance: nat, x: nat)
    requires ShiftedRight(a, b, first, last, distance) && last + distance <= x < |a|
    ensures |b| == |a| && b[x] == a[x]
  {
  }

  /** The loop that moves the outputs has dealt with neurons `n .. total`; everything below the
      weights of neuron `n`, pushed up by `n`, and everything behind the gap is untouched. */
  ghost predicate Sliding(neurons: seq<Neuron>, before: seq<real>, now: seq<real>,
                          hidden: nat, n: nat, total: nat, connections: nat, added: seq<real>)
  {
    hidden <= n <= total <= |neurons| && |added| == total - hidden &&
    connections + total <= |before| == |now| &&
    RangesAscend(neurons, hidden, total, connections) &&
    WeightsMoved(neurons, before, now, hidden, n, total, added) &&
    (forall x :: 0 <= x < |now| && x < (if n == total then connections else neurons[n].firstCon) + n ==> now[x] == before[x]) &&
    (forall x :: connections + total <= x < |now| ==> now[x] == before[x])
  }

  lemma {:induction false} SlidingStart(neurons: seq<Neuron>, before: seq<real>,
                                        hidden: nat, total: nat, connections: nat, added: seq<real>)
    requires hidden <= total <= |neurons| && |added| == total - hidden && connections + total <= |before|
    requires RangesAscend(neurons, hidden, total, connections)
    ensures Sliding(neurons, before, before, hidden, total, total, connections, added)
  {
  }

  lemma {:induction false} SlidingBehindGap(
      neurons: seq<Neuron>, before: seq<real>, now: seq<real>,
      hidden: nat, n: nat, total: nat, connections: nat, added: seq<real>, x: nat)
    requires Sliding(neurons, before, now, hidden, n, total, connections, added)
    requires connections + total <= x < |now|
    ensures now[x] == before[x]
  {
  }

  /** One turn of the loop: no weight that is still to be moved has been overwritten. */
  lemma {:induction false} SlidingStep(
      neurons: seq<Neuron>, before: seq<real>, now: seq<real>, next: seq<real>,
      hidden: nat, n: nat, total: nat, connections: nat, added: seq<real>)
    requires Sliding(neurons, before, now, hidden, n, total, connections, added) && hidden < n
    requires SlidOnce(now, next, neurons[n - 1], n - 1, added[n - 1 - hidden])
    ensures Sliding(neurons, before, next, hidden, n - 1, total, connections, added)
  {
    var u := neurons[n - 1];
    assert u.lastCon <= (if n == total then connections else neurons[n].firstCon);
    assert now[u.firstCon..u.lastCon] == before[u.firstCon..u.lastCon];
    forall j | n - 1 <= j < total
      ensures next[neurons[j].firstCon + j..neurons[j].lastCon + j] == before[neurons[j].firstCon..neurons[j].lastCon]
      ensures next[neurons[j].lastCon + j] == added[j - hidden]
    {
      if j >= n {
        assert u.lastCon + n <= neurons[j].firstCon + j;
        assert next[neurons[j].firstCon + j..neurons[j].lastCon + j] == now[neurons[j].firstCon + j..neurons[j].lastCon + j];
      }
    }
  }

  lemma {:induction false} LayoutAscends(
      layers: seq<Layer>, neurons: seq<Neuron>, inputs: nat, outputs: nat, total: nat, connections: nat)
    requires ShortcutLayout(layers, neurons, inputs, outputs, total, connections)
    ensures RangesAscend(neurons, inputs + 1, total, connections)
  {
    forall j | inputs + 1 <= j < total ensures neurons[j].firstCon <= neurons[j].lastCon <= connections {
      OwnRange(layers, neurons, inputs, outputs, total, connections, j);
    }
    forall i, j | inputs + 1 <= i < j < total ensures neurons[i].lastCon <= neurons[j].firstCon {
      RangesOrdered(layers, neurons, inputs, outputs, total, connections, i, j);
    }
  }

  /** The neuron array after splicing: the moved outputs, and at `hidden` the new neuron, which
      copies the candidate's activation and owns the weights right before the first output. */
  ghost predicate NeuronsSpliced(before: seq<Neuron>, after: seq<Neuron>, hidden: nat, total: nat, candidate: Neuron) {
    hidden < total < |before| == |after| &&
    (forall j :: hidden <= j < total ==> after[j + 1] == MovedNeuron(before[j], j)) &&
    (forall j :: 0 <= j < hidden ==> after[j] == before[j]) &&
    after[hidden] == Neuron(0.0, 0.0, candidate.activation, candidate.steepness,
                            before[hidden].firstCon, before[hidden].firstCon + hidden)
  }

  ghost predicate WeightsSpliced(neurons: seq<Neuron>, before: seq<real>, after: seq<real>,
                                 hidden: nat, total: nat, connections: nat, candidate: Neuron, added: seq<real>)
  {
    hidden < total <= |neurons| && |added| == total - hidden &&
    connections + total <= |before| == |after| && candidate.firstCon + hidden <= |before| &&
    RangesAscend(neurons, hidden, total, connections) &&
    WeightsMoved(neurons, before, after, hidden, hidden, total, added) &&
    (forall x :: 0 <= x < neurons[hidden].firstCon ==> after[x] == before[x]) &&
    after[neurons[hidden].firstCon..neurons[hidden].firstCon + hidden] ==
      before[candidate.firstCon..candidate.firstCon + hidden]
  }

  /** The layers after splicing into the empty layer just before the outputs. */
  function SplicedLayers(layers: seq<Layer>): seq<Layer>
    requires |layers| >= 2
  {
    var pos := |layers| - 2;
    layers[..pos] + [Layer(layers[pos].first, layers[pos].last + 1)] +
    [Layer(layers[pos + 1].first + 1, layers[pos + 1].last + 1)]
  }

  lemma {:induction false} SplicedTiling(layers: seq<Layer>, total: nat)
    requires Tiled(layers, total) && |layers| >= 3 && layers[|layers| - 2].first == layers[|layers| - 2].last
    ensures Tiled(SplicedLayers(layers), total + 1)
  {
  }

  /** Which layer a neuron of the spliced network is in, and who it was before. */
  lemma {:induction false} SplicedFanIn(
      layers: seq<Layer>, before: seq<Neuron>, after: seq<Neuron>, inputs: nat, outputs: nat,
      total: nat, connections: nat, candidate: Neuron, k: nat, n: nat)
    requires ShortcutLayout(layers, before, inputs, outputs, total, connections)
    requires |layers| >= 3 && layers[|layers| - 2].first == layers[|layers| - 2].last
    requires NeuronsSpliced(before, after, total - outputs, total, candidate)
    requires 0 < k < |layers| && SplicedLayers(layers)[k].first <= n < SplicedLayers(layers)[k].last && n < total + 1
    ensures after[n].lastCon == after[n].firstCon + SplicedLayers(layers)[k].first
  {
    var pos := |layers| - 2;
    assert layers[pos + 1].first == layers[pos].last;
    if k < pos {
      LayersOrdered(layers, total, k, pos);
      assert SplicedLayers(layers)[k] == layers[k] && n < total - outputs;
    } else if k > pos {
      var j := n - 1;
      assert after[j + 1] == MovedNeuron(before[j], j);
      assert before[j].lastCon == before[j].firstCon + layers[pos + 1].first;
    }
  }

  lemma {:induction false} SplicedTight(
      layers: seq<Layer>, before: seq<Neuron>, after: seq<Neuron>, inputs: nat, outputs: nat,
      total: nat, connections: nat, candidate: Neuron, n: nat)
    requires ShortcutLayout(layers, before, inputs, outputs, total, connections)
    requires NeuronsSpliced(before, after, total - outputs, total, candidate)
    requires inputs + 1 < n < total + 1 && inputs < total - outputs
    ensures after[n].firstCon == after[n - 1].lastCon
  {
    var hidden := total - outputs;
    if n > hidden {
      var j := n - 1;
      assert after[j + 1] == MovedNeuron(before[j], j);
      if j > hidden {
        var i := j - 1;
        assert after[i + 1] == MovedNeuron(before[i], i);
      }
    }
  }

  /** Splicing keeps the layout: `total` more connections, one more neuron, no gap left. */
  lemma {:induction false} SplicingKeepsLayout(
      layers: seq<Layer>, before: seq<Neuron>, after: seq<Neuron>, inputs: nat, outputs: nat,
      total: nat, connections: nat, candidate: Neuron)
    requires ShortcutLayout(layers, before, inputs, outputs, total, connections)
    requires |layers| >= 3 && layers[|layers| - 2].first == layers[|layers| - 2].last
    requires NeuronsSpliced(before, after, total - outputs, total, candidate)
    ensures ShortcutLayout(SplicedLayers(layers), after, inputs, outputs, total + 1, connections + total)
  {
    var layers' := SplicedLayers(layers);
    LayersOrdered(layers, total, 0, |layers| - 2);
    SplicedTiling(layers, total);
    forall k, n | 0 < k < |layers'| && layers'[k].first <= n < layers'[k].last && n < total + 1
      ensures after[n].lastCon == after[n].firstCon + layers'[k].first
    {
      SplicedFanIn(layers, before, after, inputs, outputs, total, connections, candidate, k, n);
    }
    forall n | inputs + 1 < n < total + 1 ensures after[n].firstCon == after[n - 1].lastCon {
      SplicedTight(layers, before, after, inputs, outputs, total, connections, candidate, n);
    }
    var j := total - 1;
    assert after[j + 1] == MovedNeuron(before[j], j);
  }

  lemma {:induction false} MovedUnit(u: Neuron, u': Neuron, weights: seq<real>, weights': seq<real>,
                                     hidden: nat, j: nat, added: real)
    requires u.lastCon == u.firstCon + hidden && u' == MovedNeuron(u, j)
    requires u.lastCon <= |weights| && u'.lastCon <= |weights'|
    requires weights'[u.firstCon + j..u.lastCon + j] == weights[u.firstCon..u.lastCon]
    requires weights'[u.lastCon + j] == added
    ensures ShortcutUnit(u', weights') == Connected(ShortcutUnit(u, weights), hidden, added)
  {
    var r, r' := ShortcutUnit(u, weights), ShortcutUnit(u', weights');
    var f, l := u.firstCon + j, u.lastCon + j;
    assert weights'[f..l + 1] == weights'[f..l] + [weights'[l]];
    assert r'.weights == r.weights + [added];
    assert r'.sources == r.sources + [hidden];
  }

  /** The neurons before the outputs keep their weights. */
  lemma {:induction false} SplicedBefore(before: seq<Neuron>, weights: seq<real>, weights': seq<real>, from: nat, hidden: nat,
                                         total: nat, connections: nat, candidate: Neuron, added: seq<real>, n: nat)
    requires from <= n < hidden && from <= total <= |before| && RangesAscend(before, from, total, connections)
    requires WeightsSpliced(before, weights, weights', hidden, total, connections, candidate, added)
    ensures before[n].firstCon <= before[n].lastCon <= |weights| && before[n].lastCon <= |weights'|
    ensures weights'[before[n].firstCon..before[n].lastCon] == weights[before[n].firstCon..before[n].lastCon]
  {
    hide WeightsMoved;
    assert before[n].lastCon <= before[hidden].firstCon;
  }

  /** The outputs keep theirs, moved, and get one more. */
  lemma {:induction false} SplicedBehind(before: seq<Neuron>, weights: seq<real>, weights': seq<real>, hidden: nat,
                                         total: nat, connections: nat, candidate: Neuron, added: seq<real>, j: nat)
    requires WeightsSpliced(before, weights, weights', hidden, total, connections, candidate, added)
    requires hidden <= j < total
    ensures before[j].firstCon <= before[j].lastCon <= |weights| && before[j].lastCon + j < |weights'|
    ensures weights'[before[j].firstCon + j..before[j].lastCon + j] == weights[before[j].firstCon..before[j].lastCon]
    ensures weights'[before[j].lastCon + j] == added[j - hidden]
  {
  }

  /** What each neuron of the spliced arrays stands for. */
  lemma {:induction false} SplicedUnit(
      before: seq<Neuron>, after: seq<Neuron>, weights: seq<real>, weights': seq<real>,
      inputs: nat, hidden: nat, total: nat, connections: nat, candidate: Neuron, added: seq<real>, n: nat)
    requires inputs < hidden && inputs < n < total + 1 && total <= |before|
    requires RangesAscend(before, inputs + 1, total, connections)
    requires forall j :: hidden <= j < total ==> before[j].lastCon == before[j].firstCon + hidden
    requires NeuronsSpliced(before, after, hidden, total, candidate)
    requires WeightsSpliced(before, weights, weights', hidden, total, connections, candidate, added)
    requires candidate.lastCon == candidate.firstCon + hidden
    requires ShortcutRanges(before, weights, inputs, total) && ShortcutRanges(after, weights', inputs, total + 1)
    ensures ShortcutUnit(after[n], weights') ==
            if n < hidden then ShortcutUnit(before[n], weights)
            else if n == hidden then ShortcutUnit(candidate, weights)
            else Connected(ShortcutUnit(before[n - 1], weights), hidden, added[n - 1 - hidden])
  {
    hide ShortcutUnit, Connected, RangesAscend, WeightsMoved;
    if n < hidden {
      SplicedBefore(before, weights, weights', inputs + 1, hidden, total, connections, candidate, added, n);
      SameUnit(before[n], after[n], weights, weights');
    } else if n == hidden {
      SameUnit(candidate, after[n], weights, weights');
    } else {
      var j := n - 1;
      SplicedBehind(before, weights, weights', hidden, total, connections, candidate, added, j);
      assert after[j + 1] == MovedNeuron(before[j], j);
      MovedUnit(before[j], after[n], weights, weights', hidden, j, added[j - hidden]);
    }
  }

  lemma {:induction false} SameUnit(u: Neuron, u': Neuron, weights: seq<real>, weights': seq<real>)
    requires u.firstCon <= u.lastCon <= |weights| && u'.firstCon <= u'.lastCon <= |weights'|
    requires u.activation == u'.activation && u.steepness == u'.steepness
    requires weights[u.firstCon..u.lastCon] == weights'[u'.firstCon..u'.lastCon]
    ensures ShortcutUnit(u', weights') == ShortcutUnit(u, weights)
  {
    assert |weights[u.firstCon..u.lastCon]| == |weights'[u'.firstCon..u'.lastCon]|;
  }

  /** Splicing keeps the graph: what the arrays now stand for is the old graph with the
      candidate installed. */
  lemma {:induction false} SplicingInstalls(
      layers: seq<Layer>, before: seq<Neuron>, after: seq<Neuron>, weights: seq<real>, weights': seq<real>,
      inputs: nat, outputs: nat, total: nat, connections: nat, candidate: Neuron, added: seq<real>)
    requires ShortcutLayout(layers, before, inputs, outputs, total, connections)
    requires NeuronsSpliced(before, after, total - outputs, total, candidate)
    requires WeightsSpliced(before, weights, weights', total - outputs, total, connections, candidate, added)
    requires candidate.lastCon == candidate.firstCon + (total - outputs) && |added| == outputs
    requires candidate.lastCon <= |weights| && outputs <= total && inputs < total - outputs
    requires ShortcutRanges(before, weights, inputs, total) && ShortcutRanges(after, weights', inputs, total + 1)
    ensures ShortcutUnits(after, weights', inputs, total + 1) ==
            Installed(ShortcutUnits(before, weights, inputs, total), ShortcutUnit(candidate, weights), added)
  {
    hide NeuronsSpliced, WeightsSpliced, ShortcutUnit, Connected, RangesAscend;
    LayoutAscends(layers, before, inputs, outputs, total, connections);
    var hidden := total - outputs;
    forall j | hidden <= j < total ensures before[j].lastCon == before[j].firstCon + hidden {
      assert layers[|layers| - 1].first <= j < layers[|layers| - 1].last;
    }
    var units' := ShortcutUnits(after, weights', inputs, total + 1);
    var expected := Installed(ShortcutUnits(before, weights, inputs, total), ShortcutUnit(candidate, weights), added);
    forall n | inputs < n < total + 1 ensures units'[n] == expected[n] {
      SplicedUnit(before, after, weights, weights', inputs, hidden, total, connections, candidate, added, n);
    }
  }

  lemma {:induction false} LayoutFacts(
      layers: seq<Layer>, neurons: seq<Neuron>, inputs: nat, outputs: nat, total: nat, connections: nat)
    requires ShortcutLayout(layers, neurons, inputs, outputs, total, connections)
    ensures |layers| >= 2 && inputs < total - outputs < total <= |neurons|
    ensures layers[|layers| - 1].first == layers[|layers| - 2].last == total - outputs
    ensures layers[|layers| - 1].last == total
  {
    LayersOrdered(layers, total, 0, |layers| - 1);
  }

  /** The new neuron owns the `hidden` weights right before those of the neuron behind it. */
  function PlacedNeuron(candidate: Neuron, nextFirstCon: nat, hidden: nat): Neuron
    requires hidden <= nextFirstCon
  {
    Neuron(0.0, 0.0, candidate.activation, candidate.steepness, nextFirstCon - hidden, nextFirstCon)
  }

  /** The moving loop followed by the new neuron's own record. */
  lemma {:induction false} NeuronPlaced(before: seq<Neuron>, now: seq<Neuron>, hidden: nat, total: nat, candidate: Neuron)
    requires hidden < total && NeuronsSliding(before, now, hidden, total)
    ensures now[hidden + 1].firstCon == before[hidden].firstCon + hidden
    ensures NeuronsSpliced(before, now[hidden := PlacedNeuron(candidate, now[hidden + 1].firstCon, hidden)], hidden, total, candidate)
  {
  }

  /** The moving loop followed by the copy of the candidate's incoming weights. */
  lemma {:induction false} WeightsPlaced(
      neurons: seq<Neuron>, before: seq<real>, now: seq<real>, next: seq<real>,
      hidden: nat, total: nat, connections: nat, candidate: Neuron, added: seq<real>)
    requires Sliding(neurons, before, now, hidden, hidden, total, connections, added) && hidden < total
    requires connections + total <= candidate.firstCon && candidate.firstCon + hidden <= |before|
    requires |next| == |now|
    requires next[neurons[hidden].firstCon..neurons[hidden].firstCon + hidden] ==
             now[candidate.firstCon..candidate.firstCon + hidden]
    requires forall x :: 0 <= x < |now| && !(neurons[hidden].firstCon <= x < neurons[hidden].firstCon + hidden) ==>
               next[x] == now[x]
    ensures WeightsSpliced(neurons, before, next, hidden, total, connections, candidate, added)
  {
    assert now[candidate.firstCon..candidate.firstCon + hidden] == before[candidate.firstCon..candidate.firstCon + hidden];
    forall j | hidden <= j < total
      ensures next[neurons[j].firstCon + j..neurons[j].lastCon + j] == before[neurons[j].firstCon..neurons[j].lastCon] &&
              next[neurons[j].lastCon + j] == added[j - hidden]
    {
      assert neurons[hidden].firstCon <= neurons[j].firstCon;
      assert next[neurons[j].firstCon + j..neurons[j].lastCon + j] == now[neurons[j].firstCon + j..neurons[j].lastCon + j];
    }
  }

  lemma {:induction false} OutputsAscend(
      layers: seq<Layer>, neurons: seq<Neuron>, inputs: nat, outputs: nat, total: nat, connections: nat)
    requires ShortcutLayout(layers, neurons, inputs, outputs, total, connections)
    ensures outputs <= total && RangesAscend(neurons, total - outputs, total, connections)
    ensures neurons[total - outputs].firstCon <= connections
  {
    LayoutFacts(layers, neurons, inputs, outputs, total, connections);
    LayoutAscends(layers, neurons, inputs, outputs, total, connections);
  }

  /** All of it together: the arrays after splicing are laid out well and stand for the graph
      with the candidate installed. */
  lemma {:induction false} SplicedNetwork(
      layers: seq<Layer>, before: seq<Neuron>, after: seq<Neuron>, weights: seq<real>, weights': seq<real>,
      inputs: nat, outputs: nat, total: nat, connections: nat, candidate: Neuron, added: seq<real>)
    requires ShortcutLayout(layers, before, inputs, outputs, total, connections)
    requires |layers| >= 3 && layers[|layers| - 2].first == layers[|layers| - 2].last
    requires connections + total <= |weights| == |weights'| && candidate.lastCon <= |weights| && |added| == outputs
    requires outputs <= total
    requires NeuronsSpliced(before, after, total - outputs, total, candidate)
    requires WeightsSpliced(before, weights, weights', total - outputs, total, connections, candidate, added)
    requires candidate.lastCon == candidate.firstCon + (total - outputs)
    ensures ShortcutLayout(SplicedLayers(layers), after, inputs, outputs, total + 1, connections + total)
    ensures ShortcutRanges(before, weights, inputs, total) && ShortcutRanges(after, weights', inputs, total + 1)
    ensures ShortcutUnits(after, weights', inputs, total + 1) ==
            Installed(ShortcutUnits(before, weights, inputs, total), ShortcutUnit(candidate, weights), added)
  {
    hide *;
    LayoutFacts(layers, before, inputs, outputs, total, connections);
    SplicingKeepsLayout(layers, before, after, inputs, outputs, total, connections, candidate);
    ShortcutRangesHold(layers, before, weights, inputs, outputs, total, connections);
    ShortcutRangesHold(SplicedLayers(layers), after, weights', inputs, outputs, total + 1, connections + total);
    SplicingInstalls(layers, before, after, weights, weights', inputs, outputs, total, connections, candidate, added);
  }

  // ---- Candidates behind the gap ----

  function CandidateNeuron(firstCon: nat, hidden: nat, activation: nat, steepness: real): Neuron {
    Neuron(0.0, 0.0, activation, steepness, firstCon, firstCon + hidden)
  }

  /** The activation function and steepness of each candidate, in order: every activation function
      with every steepness, `groups` times each. */
  function Kinds(activations: seq<nat>, steepnesses: seq<real>, groups: nat): (kinds: seq<(nat, real)>)
    ensures |kinds| == |activations| * (|steepnesses| * groups)
  {
    if activations == [] then []
    else
      var n := |activations| - 1;
      Multiples(n, |steepnesses| * groups);
      Kinds(activations[..n], steepnesses, groups) + KindsOf(activations[n], steepnesses, groups)
  }

  function KindsOf(activation: nat, steepnesses: seq<real>, groups: nat): (kinds: seq<(nat, real)>)
    ensures |kinds| == |steepnesses| * groups
  {
    if steepnesses == [] then []
    else
      var n := |steepnesses| - 1;
      Multiples(n, groups);
      KindsOf(activation, steepnesses[..n], groups) + Copies(activation, steepnesses[n], groups)
  }

  function Copies(activation: nat, steepness: real, count: nat): seq<(nat, real)> {
    seq(count, _ => (activation, steepness))
  }

  /** Every activation function comes with every steepness, and each pair `groups` times in a row. */
  lemma {:induction false} KindsAt(activations: seq<nat>, steepnesses: seq<real>, groups: nat, i: nat, j: nat, k: nat)
    requires i < |activations| && j < |steepnesses| && k < groups
    ensures var m := i * (|steepnesses| * groups) + (j * groups + k);
            0 <= m < |Kinds(activations, steepnesses, groups)| &&
            Kinds(activations, steepnesses, groups)[m] == (activations[i], steepnesses[j])
  {
    hide Kinds, KindsOf;
    KindsOfAt(activations[i], steepnesses, groups, j, k);
    KindsOfIn(activations, steepnesses, groups, |steepnesses| * groups, i, j * groups + k);
  }

  /** The kinds of one activation function stand together. */
  lemma {:induction false} KindsOfIn(activations: seq<nat>, steepnesses: seq<real>, groups: nat, size: nat, i: nat, p: nat)
    requires i < |activations| && size == |steepnesses| * groups && p < size
    ensures i * size + p < |Kinds(activations, steepnesses, groups)|
    ensures Kinds(activations, steepnesses, groups)[i * size + p] == KindsOf(activations[i], steepnesses, groups)[p]
  {
    hide KindsOf;
    Multiples(i, size);
    MultiplesGrow(i + 1, |activations|, size);
    if i < |activations| - 1 { KindsOfIn(activations[..|activations| - 1], steepnesses, groups, size, i, p); }
  }

  lemma {:induction false} KindsOfAt(activation: nat, steepnesses: seq<real>, groups: nat, j: nat, k: nat)
    requires j < |steepnesses| && k < groups
    ensures 0 <= j * groups + k < |KindsOf(activation, steepnesses, groups)|
    ensures KindsOf(activation, steepnesses, groups)[j * groups + k] == (activation, steepnesses[j])
  {
    var n := |steepnesses| - 1;
    Multiples(j, groups);
    MultiplesGrow(j + 1, |steepnesses|, groups);
    if j < n {
      MultiplesGrow(j + 1, n, groups);
      KindsOfAt(activation, steepnesses[..n], groups, j, k);
    }
  }

  lemma {:induction false} Multiples(n: nat, d: nat)
    ensures (n + 1) * d == n * d + d
  {
  }

  /** Candidates of the given kinds are set up: candidate number `m` is neuron `total + 1 + m`; its
      weights start at `connections + total * (m + 1)`, so they lie side by side, `total` for each,
      behind a gap of `total` weights. */
  ghost predicate CandidatesFilled(neurons: seq<Neuron>, total: nat, connections: nat, outputs: nat, kinds: seq<(nat, real)>) {
    outputs <= total && total + |kinds| < |neurons| &&
    forall c :: total < c <= total + |kinds| ==>
      neurons[c] == CandidateNeuron(connections + total * (c - total), total - outputs,
                                    kinds[c - total - 1].0, kinds[c - total - 1].1)
  }

  lemma {:induction false} CandidatesNone(neurons: seq<Neuron>, total: nat, connections: nat, outputs: nat)
    requires outputs <= total < |neurons|
    ensures CandidatesFilled(neurons, total, connections, outputs, [])
  {
  }

  lemma {:induction false} CandidatesOneMore(
      neurons: seq<Neuron>, total: nat, connections: nat, outputs: nat, kinds: seq<(nat, real)>, kind: (nat, real))
    requires CandidatesFilled(neurons, total, connections, outputs, kinds) && total + |kinds| + 1 < |neurons|
    ensures CandidatesFilled(
              neurons[total + |kinds| + 1 :=
                CandidateNeuron(connections + total * (|kinds| + 1), total - outputs, kind.0, kind.1)],
              total, connections, outputs, kinds + [kind])
  {
  }

  lemma {:induction false} KindsStart(steepnesses: seq<real>, groups: nat)
    ensures Kinds([], steepnesses, groups) == []
  {
  }

  lemma {:induction false} KindsStep(activations: seq<nat>, steepnesses: seq<real>, groups: nat, i: nat, j: nat)
    requires i < |activations|
    ensures KindsOf(activations[i], steepnesses[..0], groups) == []
    ensures j < |steepnesses| ==>
      KindsOf(activations[i], steepnesses[..j], groups) + Copies(activations[i], steepnesses[j], groups) ==
      KindsOf(activations[i], steepnesses[..j + 1], groups)
    ensures Kinds(activations[..i], steepnesses, groups) + KindsOf(activations[i], steepnesses[..|steepnesses|], groups) ==
            Kinds(activations[..i + 1], steepnesses, groups)
  {
    assert activations[..i + 1][..i] == activations[..i];
    assert steepnesses[..|steepnesses|] == steepnesses;
    if j < |steepnesses| { assert steepnesses[..j + 1][..j] == steepnesses[..j]; }
  }

  /** While the loops run there is room for one more group. */
  lemma {:induction false} KindsRoom(activations: seq<nat>, steepnesses: seq<real>, groups: nat, i: nat, j: nat)
    requires i < |activations| && j < |steepnesses|
    ensures |Kinds(activations[..i], steepnesses, groups)| + |KindsOf(activations[i], steepnesses[..j], groups)| + groups
            <= |activations| * (|steepnesses| * groups)
  {
    Multiples(i, |steepnesses| * groups);
    Multiples(j, groups);
    MultiplesGrow(i + 1, |activations|, |steepnesses| * groups);
    MultiplesGrow(j + 1, |steepnesses|, groups);
  }

  /** There is room for one more candidate. */
  lemma {:induction false} RoomForOne(total: nat, connections: nat, filled: nat, candidates: nat, room: nat)
    requires filled < candidates && connections + total * (candidates + 1) <= room
    ensures connections + total * (filled + 1) + total <= room
    ensures total * (filled + 2) == total * (filled + 1) + total
  {
    MultiplesGrow(filled + 2, candidates + 1, total);
    assert total * (filled + 2) == (filled + 2) * total && total * (candidates + 1) == (candidates + 1) * total;
  }

  lemma {:induction false} MultiplesGrow(m: nat, n: nat, d: nat)
    requires m <= n
    ensures m * d <= n * d
  {
  }

  /** Only the first `total` neurons and the first `connections` weights matter to the network. */
  lemma {:induction false} PrefixKeepsNetwork(
      layers: seq<Layer>, neurons: seq<Neuron>, neurons': seq<Neuron>, weights: seq<real>, weights': seq<real>,
      inputs: nat, outputs: nat, total: nat, connections: nat)
    requires ShortcutLayout(layers, neurons, inputs, outputs, total, connections) && connections <= |weights|
    requires total <= |neurons'| && neurons'[..total] == neurons[..total]
    requires connections <= |weights'| && weights'[..connections] == weights[..connections]
    ensures ShortcutLayout(layers, neurons', inputs, outputs, total, connections)
    ensures ShortcutRanges(neurons, weights, inputs, total) && ShortcutRanges(neurons', weights', inputs, total)
    ensures ShortcutUnits(neurons', weights', inputs, total) == ShortcutUnits(neurons, weights, inputs, total)
  {
    PrefixKeepsLayout(layers, neurons, neurons', inputs, outputs, total, connections);
    hide ShortcutLayout, ShortcutUnit;
    ShortcutRangesHold(layers, neurons, weights, inputs, outputs, total, connections);
    ShortcutRangesHold(layers, neurons', weights', inputs, outputs, total, connections);
    var units, units' := ShortcutUnits(neurons, weights, inputs, total), ShortcutUnits(neurons', weights', inputs, total);
    forall n | inputs < n < total ensures units'[n] == units[n] {
      OwnRange(layers, neurons, inputs, outputs, total, connections, n);
      assert neurons[n] == neurons[..total][n] == neurons'[..total][n] == neurons'[n];
      var f, l := neurons[n].firstCon, neurons[n].lastCon;
      assert weights[f..l] == weights[..connections][f..l] == weights'[..connections][f..l] == weights'[f..l];
      SameUnit(neurons[n], neurons'[n], weights, weights');
    }
  }

  lemma {:induction false} PrefixKeepsLayout(
      layers: seq<Layer>, neurons: seq<Neuron>, neurons': seq<Neuron>,
      inputs: nat, outputs: nat, total: nat, connections: nat)
    requires ShortcutLayout(layers, neurons, inputs, outputs, total, connections)
    requires total <= |neurons'| && neurons'[..total] == neurons[..total]
    ensures ShortcutLayout(layers, neurons', inputs, outputs, total, connections)
  {
    assert forall n :: 0 <= n < total ==> neurons'[n] == neurons'[..total][n] == neurons[..total][n] == neurons[n];
  }

  /** Running changes values and sums only; this is what it leaves alone. */
  ghost predicate SameShape(u: Neuron, u': Neuron) {
    u' == u.(value := u'.value, sum := u'.sum)
  }

  ghost predicate SameShapes(neurons: seq<Neuron>, neurons': seq<Neuron>) {
    |neurons| == |neurons'| && forall n :: 0 <= n < |neurons| ==> SameShape(neurons[n], neurons'[n])
  }

  lemma {:induction false} ShapeKeepsLayout(
      layers: seq<Layer>, neurons: seq<Neuron>, neurons': seq<Neuron>,
      inputs: nat, outputs: nat, total: nat, connections: nat)
    requires ShortcutLayout(layers, neurons, inputs, outputs, total, connections) && SameShapes(neurons, neurons')
    ensures ShortcutLayout(layers, neurons', inputs, outputs, total, connections)
  {
    assert forall n :: 0 <= n < |neurons| ==> SameShape(neurons[n], neurons'[n]);
    forall n | inputs + 1 < n < total ensures neurons'[n].firstCon == neurons'[n - 1].lastCon {
      assert SameShape(neurons[n], neurons'[n]) && SameShape(neurons[n - 1], neurons'[n - 1]);
    }
  }

  lemma {:induction false} CandidatePlaces(
      neurons: seq<Neuron>, total: nat, connections: nat, outputs: nat, kinds: seq<(nat, real)>, weights: nat)
    requires CandidatesFilled(neurons, total, connections, outputs, kinds)
    requires connections + total * (|kinds| + 1) <= weights
    ensures forall c :: total < c <= total + |kinds| ==>
              connections + total <= neurons[c].firstCon &&
              neurons[c].lastCon == neurons[c].firstCon + (total - outputs) &&
              neurons[c].lastCon + outputs <= weights
  {
    forall c | total < c <= total + |kinds|
      ensures connections + total <= neurons[c].firstCon && neurons[c].lastCon + outputs <= weights
    {
      MultiplesGrow(1, c - total, total);
      Multiples(c - total, total);
      MultiplesGrow(c - total + 1, |kinds| + 1, total);
    }
  }

  // ---- Setting the connection pointers ----

  /** Neurons before `n` have their connections pointing at neurons `0, 1, 2, ...`. */
  ghost predicate PointersSet(neurons: seq<Neuron>, pointers: seq<nat>, inputs: nat, n: nat) {
    n <= |neurons| &&
    forall m :: inputs < m < n ==>
      neurons[m].firstCon <= neurons[m].lastCon <= |pointers| &&
      forall x :: neurons[m].firstCon <= x < neurons[m].lastCon ==> pointers[x] == x - neurons[m].firstCon
  }

  /** The pointers from `first` to `last` name neurons `0, 1, 2, ...`; no other has changed. */
  ghost predicate Pointed(before: seq<nat>, after: seq<nat>, first: nat, last: nat) {
    |after| == |before| && (forall x :: first <= x < last && x < |after| ==> after[x] == x - first) &&
    forall x :: 0 <= x < |before| && !(first <= x < last) ==> after[x] == before[x]
  }

  lemma {:induction false} PointersSetStep(
      neurons: seq<Neuron>, before: seq<nat>, after: seq<nat>, inputs: nat, total: nat, connections: nat, n: nat)
    requires inputs < n < total <= |neurons| && RangesAscend(neurons, inputs + 1, total, connections)
    requires connections <= |before| && PointersSet(neurons, before, inputs, n)
    requires neurons[n].firstCon <= neurons[n].lastCon
    requires Pointed(before, after, neurons[n].firstCon, neurons[n].lastCon)
    ensures PointersSet(neurons, after, inputs, n + 1)
  {
    forall m | inputs < m < n + 1
      ensures forall x :: neurons[m].firstCon <= x < neurons[m].lastCon ==> after[x] == x - neurons[m].firstCon
    {
      if m < n { assert neurons[m].lastCon <= neurons[n].firstCon; }
    }
  }

  lemma {:induction false} PointersNoneSet(neurons: seq<Neuron>, pointers: seq<nat>, inputs: nat)
    requires inputs < |neurons|
    ensures PointersSet(neurons, pointers, inputs, inputs + 1)
  {
  }

  /** Where the weights of neuron `n` begin: right behind those of the neuron before it. */
  function NextRange(neurons: seq<Neuron>, inputs: nat, n: nat): nat
    requires n <= |neurons|
  {
    if n <= inputs + 1 then 0 else neurons[n - 1].lastCon
  }

  lemma {:induction false} TightRange(
      layers: seq<Layer>, neurons: seq<Neuron>, inputs: nat, outputs: nat, total: nat, connections: nat, n: nat)
    requires ShortcutLayout(layers, neurons, inputs, outputs, total, connections) && inputs < n < total
    ensures neurons[n].firstCon == NextRange(neurons, inputs, n)
  {
  }

  lemma {:induction false} LayerEnds(
      layers: seq<Layer>, neurons: seq<Neuron>, inputs: nat, outputs: nat, total: nat, connections: nat, k: nat)
    requires ShortcutLayout(layers, neurons, inputs, outputs, total, connections) && 0 < k < |layers|
    ensures inputs < layers[k].first == layers[k - 1].last <= layers[k].last <= total
  {
    LayersOrdered(layers, total, 0, k);
    if k + 1 < |layers| { LayersOrdered(layers, total, k, |layers| - 1); }
  }

  lemma {:induction false} FirstRange(
      layers: seq<Layer>, neurons: seq<Neuron>, inputs: nat, outputs: nat, total: nat, connections: nat)
    requires ShortcutLayout(layers, neurons, inputs, outputs, total, connections)
    ensures |layers| > 0 && layers[0].last == inputs + 1
  {
  }

  lemma {:induction false} FanIn(
      layers: seq<Layer>, neurons: seq<Neuron>, inputs: nat, outputs: nat, total: nat, connections: nat, k: nat, n: nat)
    requires ShortcutLayout(layers, neurons, inputs, outputs, total, connections)
    requires 0 < k < |layers| && layers[k].first <= n < layers[k].last && n < total
    ensures inputs < n && Tiled(layers, total)
    ensures neurons[n].lastCon == neurons[n].firstCon + layers[k].first <= connections
  {
    LayersOrdered(layers, total, 0, k);
    OwnRange(layers, neurons, inputs, outputs, total, connections, n);
  }

  // ---- Building a shortcut network ----

  /** The neurons before `n` have been given their weights, `connections` of them altogether. */
  ghost predicate PlacedUpTo(layers: seq<Layer>, neurons: seq<Neuron>, inputs: nat, n: nat, connections: nat) {
    n <= |neurons| &&
    (forall k, m :: 0 < k < |layers| && layers[k].first <= m < layers[k].last && m < n ==>
       neurons[m].lastCon == neurons[m].firstCon + layers[k].first) &&
    (forall m :: inputs < m < n ==> neurons[m].firstCon == NextRange(neurons, inputs, m)) &&
    NextRange(neurons, inputs, n) == connections
  }

  lemma {:induction false} PlacedNone(layers: seq<Layer>, total: nat, neurons: seq<Neuron>, inputs: nat)
    requires Tiled(layers, total) && layers[0].last == inputs + 1 && inputs < |neurons|
    ensures PlacedUpTo(layers, neurons, inputs, inputs + 1, 0)
  {
    forall k | 0 < k < |layers| ensures inputs + 1 <= layers[k].first { LayersOrdered(layers, total, 0, k); }
  }

  lemma {:induction false} PlacedOneMore(layers: seq<Layer>, total: nat, neurons: seq<Neuron>, inputs: nat, n: nat, k: nat,
                                         connections: nat, activation: nat, steepness: real)
    requires Tiled(layers, total) && 0 < k < |layers| && layers[k].first <= n < layers[k].last && inputs < n
    requires n < |neurons| == total && PlacedUpTo(layers, neurons, inputs, n, connections)
    ensures PlacedUpTo(layers,
              neurons[n := Neuron(neurons[n].value, neurons[n].sum, activation, steepness, connections, connections + layers[k].first)],
              inputs, n + 1, connections + layers[k].first)
  {
    var after := neurons[n := Neuron(neurons[n].value, neurons[n].sum, activation, steepness, connections, connections + layers[k].first)];
    forall l, m | 0 < l < |layers| && layers[l].first <= m < layers[l].last && m < n + 1
      ensures after[m].lastCon == after[m].firstCon + layers[l].first
    {
      if m == n {
        LayerUnique(layers, total, n, k);
        LayerUnique(layers, total, n, l);
      } else {
        assert after[m] == neurons[m];
      }
    }
    forall m | inputs < m < n + 1 ensures after[m].firstCon == NextRange(after, inputs, m) {
      assert m < n ==> neurons[m].firstCon == NextRange(neurons, inputs, m);
    }
  }

  lemma {:induction false} PlacedAll(
      layers: seq<Layer>, neurons: seq<Neuron>, inputs: nat, outputs: nat, total: nat, connections: nat)
    requires Tiled(layers, total) && layers[0].last == inputs + 1 && total <= |neurons| && outputs > 0
    requires layers[|layers| - 1].first + outputs == total
    requires PlacedUpTo(layers, neurons, inputs, total, connections)
    ensures ShortcutLayout(layers, neurons, inputs, outputs, total, connections)
  {
    LayersOrdered(layers, total, 0, |layers| - 1);
    assert neurons[inputs + 1].firstCon == NextRange(neurons, inputs, inputs + 1);
    forall n | inputs + 1 < n < total ensures neurons[n].firstCon == neurons[n - 1].lastCon {
      assert neurons[n].firstCon == NextRange(neurons, inputs, n);
    }
  }
}
