/** Networks of connected layers can be run, whether the connections are contiguous or looked up. */
module FannSparseRun {
  import opened FannLayout
  import opened FannRunLayout
  import opened FannSparse

  /** Where a neuron stands in its layer, and what it owns. */
  lemma {:induction false} OwnedRange(neurons: seq<Neuron>, rate: real, layers: seq<Layer>, k: nat, start: nat, n: nat)
    requires 0.0 <= rate <= 1.0 && 0 < k < |layers| && LayerOwns(neurons, rate, layers, k, start)
    requires layers[k].first <= n < layers[k].last
    ensures n < |neurons| &&
      var cuts := LayerCuts(rate, layers, k, start); var i := n - layers[k].first;
      if i + 1 < |cuts| then neurons[n].firstCon == cuts[i] && neurons[n].lastCon == Next(cuts, i)
      else neurons[n].firstCon == neurons[n].lastCon == start + ConnectionsOf(rate, layers, k)
  {
    hide Cut, NumConnections;
  }

  /** A sparsely wired network can be run by looking up its connections: every neuron reads the layer before its own. */
  lemma {:induction false} SparseRuns(neurons: seq<Neuron>, conn: seq<nat>, rate: real, layers: seq<Layer>,
                                      starts: seq<nat>, inputs: nat, total: nat)
    requires 0.0 <= rate <= 1.0 && BiasedLayers(layers, total) && total == |neurons| && layers[0].last == inputs + 1
    requires StartsAt(rate, layers, starts) && |starts| == |layers| + 1 && |conn| == starts[|layers|]
    requires forall k :: 0 < k < |layers| ==> LayerOwns(neurons, rate, layers, k, starts[k])
    requires forall k :: 0 < k < |layers| ==> LayerWired(conn, rate, layers, k, starts[k])
    ensures RunLayout(Looked, layers, neurons, conn, inputs, total, |conn|)
  {
    hide Cut, NumConnections, LayerOwns, LayerWired, ReadsEarlier, StartsAt;
    LayersOrdered(layers, total, 0, |layers| - 1);
    forall k, n | 0 < k < |layers| && layers[k].first <= n < layers[k].last && n < total
      ensures ReadsEarlier(Looked, layers, conn, k, neurons[n], |conn|)
    {
      SparseNeuron(neurons, conn, rate, layers, starts, total, k, n);
    }
  }

  lemma {:induction false} SparseNeuron(neurons: seq<Neuron>, conn: seq<nat>, rate: real, layers: seq<Layer>,
                                        starts: seq<nat>, total: nat, k: nat, n: nat)
    requires 0.0 <= rate <= 1.0 && BiasedLayers(layers, total) && total == |neurons|
    requires StartsAt(rate, layers, starts) && |starts| == |layers| + 1 && |conn| == starts[|layers|]
    requires 0 < k < |layers| && layers[k].first <= n < layers[k].last && n < total
    requires LayerOwns(neurons, rate, layers, k, starts[k]) && LayerWired(conn, rate, layers, k, starts[k])
    ensures ReadsEarlier(Looked, layers, conn, k, neurons[n], |conn|)
  {
    hide Cut, NumConnections, LayerOwns, Slots;
    OwnedRange(neurons, rate, layers, k, starts[k], n);
    assert StartsStep(rate, layers, starts, k);
    StartsAscend(rate, layers, starts, k + 1, |layers|);
    var cuts := LayerCuts(rate, layers, k, starts[k]);
    var i := n - layers[k].first;
    if i + 1 < |cuts| { assert NeuronWired(conn, cuts[i], Next(cuts, i), layers[k - 1]); }
  }

  /** A fully connected network can be run by walking the layer before, and its pointers lead to the same neurons. */
  lemma {:induction false} FullRuns(neurons: seq<Neuron>, conn: seq<nat>, layers: seq<Layer>, starts: seq<nat>,
                                    inputs: nat, total: nat)
    requires BiasedLayers(layers, total) && total == |neurons| && layers[0].last == inputs + 1
    requires StartsAt(1.0, layers, starts) && |starts| == |layers| + 1 && |conn| == starts[|layers|]
    requires forall k :: 0 < k < |layers| ==> LayerOwns(neurons, 1.0, layers, k, starts[k])
    requires forall k :: 0 < k < |layers| ==> LayerFull(conn, 1.0, layers, k, starts[k])
    ensures RunLayout(Layered, layers, neurons, conn, inputs, total, |conn|)
    ensures PointersContiguous(Layered, layers, neurons, conn, total)
  {
    hide Cut, NumConnections, LayerOwns;
    LayersOrdered(layers, total, 0, |layers| - 1);
    forall k, n | 0 < k < |layers| && layers[k].first <= n < layers[k].last && n < total
      ensures ReadsEarlier(Layered, layers, conn, k, neurons[n], |conn|)
      ensures neurons[n].lastCon <= |conn|
      ensures forall i :: 0 <= i < neurons[n].lastCon - neurons[n].firstCon ==>
        conn[neurons[n].firstCon + i] == SourceAt(Layered, layers, conn, k, neurons[n].firstCon, i)
    {
      FullNeuron(neurons, conn, layers, starts, total, k, n);
    }
  }

  lemma {:induction false} FullNeuron(neurons: seq<Neuron>, conn: seq<nat>, layers: seq<Layer>, starts: seq<nat>,
                                      total: nat, k: nat, n: nat)
    requires BiasedLayers(layers, total) && total == |neurons|
    requires StartsAt(1.0, layers, starts) && |starts| == |layers| + 1 && |conn| == starts[|layers|]
    requires 0 < k < |layers| && layers[k].first <= n < layers[k].last && n < total
    requires LayerOwns(neurons, 1.0, layers, k, starts[k]) && LayerFull(conn, 1.0, layers, k, starts[k])
    ensures ReadsEarlier(Layered, layers, conn, k, neurons[n], |conn|) && neurons[n].lastCon <= |conn|
    ensures forall i :: 0 <= i < neurons[n].lastCon - neurons[n].firstCon ==>
      conn[neurons[n].firstCon + i] == SourceAt(Layered, layers, conn, k, neurons[n].firstCon, i)
  {
    hide Cut, NumConnections, LayerOwns;
    OwnedRange(neurons, 1.0, layers, k, starts[k], n);
    assert StartsStep(1.0, layers, starts, k);
    StartsAscend(1.0, layers, starts, k + 1, |layers|);
    var cuts := LayerCuts(1.0, layers, k, starts[k]);
    var i := n - layers[k].first;
    if i + 1 < |cuts| {
      forall j | 0 <= j < Next(cuts, i) - cuts[i]
        ensures conn[cuts[i] + j] == SourceAt(Layered, layers, conn, k, cuts[i], j)
      {
        var x := cuts[i] + j;
        assert conn[x] == layers[k - 1].first + (x - cuts[i]);
      }
    }
  }

  /** A cut and the next one lie between the first cut and the last. */
  lemma {:induction false} CutWithin(rate: real, layers: seq<Layer>, total: nat, k: nat, start: nat, i: nat)
    requires 0.0 <= rate <= 1.0 && BiasedLayers(layers, total) && 0 < k < |layers|
    requires layers[k].first + i + 1 < layers[k].last
    ensures layers[k - 1].first < layers[k - 1].last && layers[k].first + 2 <= layers[k].last
    ensures var cuts := LayerCuts(rate, layers, k, start);
            start <= cuts[i] < Next(cuts, i) <= start + ConnectionsOf(rate, layers, k)
  {
    hide Cut, NumConnections, Slots, CutsOf;
    CutsFit(rate, layers, total, k, start, start + ConnectionsOf(rate, layers, k));
    var cuts := LayerCuts(rate, layers, k, start);
    SlotsAt(cuts, layers[k - 1], start + ConnectionsOf(rate, layers, k), i);
  }

  /** A neuron's range lies within its layer's connections, and behind those of the neurons before it in the layer. */
  lemma {:induction false} OwnedWithin(neurons: seq<Neuron>, rate: real, layers: seq<Layer>, starts: seq<nat>,
                                       total: nat, k: nat, n: nat)
    requires 0.0 <= rate <= 1.0 && BiasedLayers(layers, total) && total == |neurons|
    requires StartsAt(rate, layers, starts) && |starts| == |layers| + 1
    requires 0 < k < |layers| && layers[k].first <= n < layers[k].last && n < total
    requires LayerOwns(neurons, rate, layers, k, starts[k])
    ensures starts[k] <= neurons[n].firstCon <= neurons[n].lastCon <= starts[k + 1] <= starts[|layers|]
    ensures n + 1 < layers[k].last && n + 1 < total ==> neurons[n].lastCon <= neurons[n + 1].firstCon
  {
    hide Cut, NumConnections, LayerOwns, CutsOf, ConnectionsOf;
    assert StartsStep(rate, layers, starts, k);
    StartsAscend(rate, layers, starts, k + 1, |layers|);
    hide StartsAt, BiasedLayers;
    var i := n - layers[k].first;
    OwnedRange(neurons, rate, layers, k, starts[k], n);
    if n + 1 < layers[k].last {
      OwnedRange(neurons, rate, layers, k, starts[k], n + 1);
      CutWithin(rate, layers, total, k, starts[k], i);
    }
  }

  /** Ranges ascend from neuron to neuron, also from layer to layer. */
  lemma {:induction false} OwnedInOrder(neurons: seq<Neuron>, rate: real, layers: seq<Layer>, starts: seq<nat>,
                                        inputs: nat, total: nat, i: nat, j: nat)
    requires 0.0 <= rate <= 1.0 && BiasedLayers(layers, total) && total == |neurons| && layers[0].last == inputs + 1
    requires StartsAt(rate, layers, starts) && |starts| == |layers| + 1
    requires forall k :: 0 < k < |layers| ==> LayerOwns(neurons, rate, layers, k, starts[k])
    requires inputs < i <= j < total
    ensures neurons[i].firstCon <= neurons[i].lastCon <= starts[|layers|]
    ensures i < j ==> neurons[i].lastCon <= neurons[j].firstCon
    decreases j
  {
    hide LayerOwns, StartsAt;
    var k := LayerOf(layers, total, i);
    var l := LayerOf(layers, total, j);
    OwnedWithin(neurons, rate, layers, starts, total, k, i);
    OwnedWithin(neurons, rate, layers, starts, total, l, j);
    if i < j {
      if l < k { LayersOrdered(layers, total, l, k); assert false; }
      if k < l {
        StartsAscend(rate, layers, starts, k + 1, l);
      } else {
        OwnedInOrder(neurons, rate, layers, starts, inputs, total, i, j - 1);
        if j - 1 >= layers[k].first { OwnedWithin(neurons, rate, layers, starts, total, k, j - 1); }
      }
    }
  }

  lemma {:induction false} OwnedAscend(neurons: seq<Neuron>, rate: real, layers: seq<Layer>, starts: seq<nat>,
                                       inputs: nat, total: nat)
    requires 0.0 <= rate <= 1.0 && BiasedLayers(layers, total) && total == |neurons| && layers[0].last == inputs + 1
    requires StartsAt(rate, layers, starts) && |starts| == |layers| + 1
    requires forall k :: 0 < k < |layers| ==> LayerOwns(neurons, rate, layers, k, starts[k])
    ensures inputs + 1 <= total && RangesAscend(neurons, inputs + 1, total, starts[|layers|])
  {
    hide LayerOwns, StartsAt;
    LayersOrdered(layers, total, 0, |layers| - 1);
    forall i | inputs + 1 <= i < total ensures neurons[i].firstCon <= neurons[i].lastCon <= starts[|layers|] {
      OwnedInOrder(neurons, rate, layers, starts, inputs, total, i, i);
    }
    forall i, j | inputs + 1 <= i < j < total ensures neurons[i].lastCon <= neurons[j].firstCon {
      OwnedInOrder(neurons, rate, layers, starts, inputs, total, i, j);
    }
  }
}
