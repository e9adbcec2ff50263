/** The network structure of lib/fann, updated in place. */
module FannNetwork {
  import opened FannGraph
  import opened FannLayout
  import opened FannRunLayout
  import opened CascadeMeaning
  import opened FannGradient
  import opened FannActivation
  import FannSparse
  import FannSparseRun

  datatype NetworkType = LayerNetwork | ShortcutNetwork

  class Fann {
    const activate: (nat, real) -> real
    const derive: (nat, real, real, real) -> real  // activation number, steepness, value, sum
    const log: real -> real
    var connectionRate: real
    var networkType: NetworkType
    var connections: array<nat>
    var numInput: nat
    var numOutput: nat
    var layers: seq<Layer>
    var neurons: array<Neuron>
    var totalNeurons: nat
    var weights: array<real>
    var totalConnections: nat

    // Error and gradient bookkeeping, allocated by the first training step
    var trainErrors: array?<real>
    var trainSlopes: array?<real>
    var useErrorFunction: bool
    var mseValue: real
    var numMSE: nat
    var bitFailLimit: real
    var numBitFail: nat

    // Cascade training
    var activationFunctions: seq<nat>
    var steepnesses: seq<real>
    var candidateGroups: nat
    var bestCandidate: nat
    var weightMultiplier: real

    ghost predicate ValidShortcut()
      reads this, neurons
    {
      ShortcutLayout(layers, neurons[..], numInput, numOutput, totalNeurons, totalConnections) &&
      totalConnections <= weights.Length <= connections.Length
    }

    ghost function Graph(): (units: seq<Unit>)
      requires ValidShortcut()
      reads this, neurons, weights
      ensures |units| == totalNeurons
    {
      ShortcutRangesHold(layers, neurons[..], weights[..], numInput, numOutput, totalNeurons, totalConnections);
      ShortcutUnits(neurons[..], weights[..], numInput, totalNeurons)
    }

    /** Neuron `c` is a candidate: it lies behind the gap of one neuron, and its weights (one per
        neuron before the outputs, then one per output) lie behind the gap of `totalNeurons` weights. */
    ghost predicate CandidateAt(c: nat)
      requires ValidShortcut()
      reads this, neurons
    {
      totalNeurons < c < neurons.Length &&
      totalConnections + totalNeurons <= neurons[c].firstCon &&
      neurons[c].lastCon == neurons[c].firstCon + (totalNeurons - numOutput) &&
      neurons[c].lastCon + numOutput <= weights.Length
    }

    ghost function CandidateUnit(c: nat): Unit
      requires ValidShortcut() && CandidateAt(c)
      reads this, neurons, weights
    {
      ShortcutUnit(neurons[c], weights[..])
    }

    ghost function CandidateOutWeights(c: nat): seq<real>
      requires ValidShortcut() && CandidateAt(c)
      reads this, neurons, weights
    {
      weights[neurons[c].lastCon..neurons[c].lastCon + numOutput]
    }

    /** fann_create_shortcut_array: a fully connected shortcut network with the given layer sizes,
        and one bias neuron in the input layer. */
    constructor CreateShortcut(layerSizes: seq<nat>, activate: (nat, real) -> real,
                               derive: (nat, real, real, real) -> real, log: real -> real)
      requires |layerSizes| >= 2 && layerSizes[|layerSizes| - 1] > 0
      ensures fresh(neurons) && fresh(weights) && fresh(connections)
      ensures this.activate == activate && this.derive == derive && this.log == log && connectionRate == 1.0 && networkType.ShortcutNetwork?
      ensures numInput == layerSizes[0] && numOutput == layerSizes[|layerSizes| - 1]
      ensures |layers| == |layerSizes| && layers[0] == Layer(0, layerSizes[0] + 1)
      ensures forall k :: 0 < k < |layers| ==> layers[k].last == layers[k].first + layerSizes[k]
      ensures ValidShortcut()
      ensures FannSparse.Equipped(neurons[..], numInput + 1, totalNeurons, SIGMOID_STEPWISE, 0.5)
      ensures PointersContiguous(Shortcut, layers, neurons[..], connections[..], totalNeurons)
    {
      hide ValidShortcut, PointersContiguous;
      this.activate, this.derive, this.log := activate, derive, log;
      trainErrors, trainSlopes, useErrorFunction := null, null, true;
      mseValue, numMSE, bitFailLimit, numBitFail := 0.0, 0, 0.35, 0;
      connectionRate := 1.0;
      networkType := ShortcutNetwork;
      numInput, numOutput := layerSizes[0], layerSizes[|layerSizes| - 1];
      activationFunctions, steepnesses, candidateGroups, bestCandidate, weightMultiplier := [], [], 0, 0, 0.0;
      new;
      BuildShortcut(layerSizes);
    }

    /** The rest of fann_create_shortcut_array. */
    method BuildShortcut(layerSizes: seq<nat>)
      requires |layerSizes| >= 2 && numInput == layerSizes[0] && numOutput == layerSizes[|layerSizes| - 1] > 0
      modifies this`layers, this`totalNeurons, this`neurons, this`totalConnections, this`weights, this`connections
      ensures fresh(neurons) && fresh(weights) && fresh(connections)
      ensures |layers| == |layerSizes| && layers[0] == Layer(0, layerSizes[0] + 1)
      ensures forall k :: 0 < k < |layers| ==> layers[k].last == layers[k].first + layerSizes[k]
      ensures ValidShortcut()
      ensures FannSparse.Equipped(neurons[..], numInput + 1, totalNeurons, SIGMOID_STEPWISE, 0.5)
      ensures PointersContiguous(Shortcut, layers, neurons[..], connections[..], totalNeurons)
    {
      hide ShortcutLayout, PointersContiguous;
      PlaceLayers(layerSizes);
      neurons := new Neuron[totalNeurons];
      PlaceConnections();
      weights := new real[totalConnections];
      connections := new nat[totalConnections];
      ConnectToEarlier();
    }

    /** fann_create_sparse_array: layers with a bias neuron each, connected at random or, at the full rate, completely. A
        missing connection is the number behind the last neuron while the connections are made. */
    constructor CreateSparse(rate: real, layerSizes: seq<nat>, activate: (nat, real) -> real,
                             derive: (nat, real, real, real) -> real, log: real -> real)
      requires |layerSizes| >= 2 && (forall k :: 0 <= k < |layerSizes| ==> layerSizes[k] > 0) && rate >= 0.0
      ensures fresh(neurons) && fresh(weights) && fresh(connections)
      ensures this.activate == activate && this.derive == derive && this.log == log && networkType.LayerNetwork?
      ensures connectionRate == if rate > 1.0 then 1.0 else rate
      ensures numInput == layerSizes[0] && numOutput == layerSizes[|layerSizes| - 1] && |layers| == |layerSizes|
      ensures forall k :: 0 <= k < |layers| ==> layers[k].last == layers[k].first + layerSizes[k] + 1
      ensures Runnable() && OwnWeights()
      ensures connectionRate == 1.0 ==> PointersContiguous(Layered, layers, neurons[..], connections[..], totalNeurons)
      ensures FannSparse.AllWired(neurons[..], connections[..], connectionRate, layers)
      ensures forall k :: 0 < k < |layers| ==> FannSparse.OwnsAsked(neurons[..], connectionRate, layers, k)
      ensures layers[1].first <= totalNeurons <= neurons.Length
      ensures FannSparse.OwnedBy(neurons[..], layers[1].first, totalNeurons) == totalConnections
      ensures forall k :: 0 < k < |layers| ==>
        FannSparse.Equipped(neurons[..], layers[k].first, layers[k].last - 1, SIGMOID_STEPWISE, 0.5)
    {
      hide RunLayout, PointersContiguous, RangesAscend, FannSparse.AllWired, FannSparse.OwnsAsked, FannSparse.Equipped;
      this.activate, this.derive, this.log := activate, derive, log;
      trainErrors, trainSlopes, useErrorFunction := null, null, true;
      mseValue, numMSE, bitFailLimit, numBitFail := 0.0, 0, 0.35, 0;
      connectionRate := if rate > 1.0 then 1.0 else rate;
      networkType := LayerNetwork;
      numInput, numOutput := layerSizes[0], layerSizes[|layerSizes| - 1];
      activationFunctions, steepnesses, candidateGroups, bestCandidate, weightMultiplier := [], [], 0, 0, 0.0;
      new;
      layers, totalNeurons := FannSparse.PlaceBiasedLayers(layerSizes);
      SplitAndConnect();
    }

    /** The rest of fann_create_sparse_array, once the layers are placed. */
    method SplitAndConnect()
      requires FannSparse.BiasedLayers(layers, totalNeurons) && layers[0].last == numInput + 1
      requires layers[|layers| - 1].first + numOutput + 1 == layers[|layers| - 1].last
      requires 0.0 <= connectionRate <= 1.0 && networkType.LayerNetwork?
      modifies this`neurons, this`totalConnections, this`weights, this`connections
      ensures fresh(neurons) && fresh(weights) && fresh(connections)
      ensures Runnable() && OwnWeights()
      ensures connectionRate == 1.0 ==> PointersContiguous(Layered, layers, neurons[..], connections[..], totalNeurons)
      ensures FannSparse.AllWired(neurons[..], connections[..], connectionRate, layers)
      ensures forall k :: 0 < k < |layers| ==> FannSparse.OwnsAsked(neurons[..], connectionRate, layers, k)
      ensures layers[1].first <= totalNeurons <= neurons.Length
      ensures FannSparse.OwnedBy(neurons[..], layers[1].first, totalNeurons) == totalConnections
      ensures forall k :: 0 < k < |layers| ==>
        FannSparse.Equipped(neurons[..], layers[k].first, layers[k].last - 1, SIGMOID_STEPWISE, 0.5)
    {
      hide RunLayout, PointersContiguous, RangesAscend, FannSparse.LayerWired, FannSparse.LayerFull, FannSparse.LayerOwns;
      hide FannSparse.AllWired, FannSparse.StartsAt, FannSparse.OwnsAsked, FannSparse.Equipped, FannSparse.OwnedBy;
      neurons := new Neuron[totalNeurons];
      ghost var starts;
      totalConnections, starts := FannSparse.SplitAll(neurons, connectionRate, layers, totalNeurons, SIGMOID_STEPWISE, 0.5);
      FannSparseRun.OwnedAscend(neurons[..], connectionRate, layers, starts, numInput, totalNeurons);
      FannSparse.OwnedTotal(neurons[..], connectionRate, layers, starts, totalNeurons, |layers|);
      forall k | 0 < k < |layers| ensures FannSparse.OwnsAsked(neurons[..], connectionRate, layers, k) {
        FannSparse.LayerOwnsAsked(neurons[..], connectionRate, layers, k, starts[k]);
      }
      Connect(starts);
    }

    /** The connections, when each neuron has its range of them. */
    method Connect(ghost starts: seq<nat>)
      requires FannSparse.BiasedLayers(layers, totalNeurons) && layers[0].last == numInput + 1
      requires layers[|layers| - 1].first + numOutput + 1 == layers[|layers| - 1].last
      requires 0.0 <= connectionRate <= 1.0 && networkType.LayerNetwork? && neurons.Length == totalNeurons
      requires FannSparse.StartsAt(connectionRate, layers, starts) && |starts| == |layers| + 1
      requires totalConnections == starts[|layers|]
      requires forall k :: 0 < k < |layers| ==> FannSparse.LayerOwns(neurons[..], connectionRate, layers, k, starts[k])
      modifies this`weights, this`connections
      ensures fresh(weights) && fresh(connections) && weights.Length == totalConnections && Runnable()
      ensures connectionRate == 1.0 ==> PointersContiguous(Layered, layers, neurons[..], connections[..], totalNeurons)
      ensures FannSparse.AllWired(neurons[..], connections[..], connectionRate, layers)
    {
      hide RunLayout, PointersContiguous, FannSparse.LayerWired, FannSparse.LayerFull, FannSparse.LayerOwns;
      hide FannSparse.AllWired, FannSparse.StartsAt;
      var missing := totalNeurons;
      weights := new real[totalConnections];
      connections := new nat[totalConnections](_ => missing);
      if connectionRate >= 1.0 {
        FannSparse.ConnectFull(neurons, connections, connectionRate, layers, totalNeurons, starts);
        FannSparseRun.FullRuns(neurons[..], connections[..], layers, starts, numInput, totalNeurons);
      } else {
        FannSparse.WireAll(neurons, connections, connectionRate, layers, totalNeurons, starts);
        FannSparseRun.SparseRuns(neurons[..], connections[..], connectionRate, layers, starts, numInput, totalNeurons);
      }
      FannSparse.WiredEverywhere(neurons[..], connections[..], connectionRate, layers, starts);
    }

    /** Gives each layer its range of neurons. */
    method PlaceLayers(layerSizes: seq<nat>)
      requires |layerSizes| >= 2
      modifies this`layers, this`totalNeurons
      ensures Tiled(layers, totalNeurons) && |layers| == |layerSizes| && layers[0] == Layer(0, layerSizes[0] + 1)
      ensures forall k :: 0 < k < |layers| ==> layers[k].last == layers[k].first + layerSizes[k]
    {
      layers, totalNeurons := [], 0;
      for i := 0 to |layerSizes|
        invariant |layers| == i
        invariant i == 0 ==> totalNeurons == 0
        invariant i > 0 ==> layers[0] == Layer(0, layerSizes[0] + 1) && layers[i - 1].last == totalNeurons
        invariant forall k :: 0 < k < i ==> layers[k].first == layers[k - 1].last
        invariant forall k :: 0 < k < i ==> layers[k].last == layers[k].first + layerSizes[k]
      {
        var layer := Layer(totalNeurons, totalNeurons + layerSizes[i]);
        if i == 0 { layer := layer.(last := layer.last + 1); }
        layers := layers + [layer];
        totalNeurons := layer.last;
      }
    }

    /** Gives each neuron behind the input layer one weight per neuron of the earlier layers. */
    method PlaceConnections()
      requires Tiled(layers, totalNeurons) && layers[0] == Layer(0, numInput + 1) && neurons.Length == totalNeurons
      requires numOutput > 0 && layers[|layers| - 1].last == layers[|layers| - 1].first + numOutput
      modifies this`totalConnections, neurons
      ensures ShortcutLayout(layers, neurons[..], numInput, numOutput, totalNeurons, totalConnections)
      ensures FannSparse.Equipped(neurons[..], numInput + 1, totalNeurons, SIGMOID_STEPWISE, 0.5)
    {
      hide ShortcutLayout, PlacedUpTo;
      totalConnections := 0;
      var neuronsIn := numInput;
      LayersOrdered(layers, totalNeurons, 0, |layers| - 1);
      PlacedNone(layers, totalNeurons, neurons[..], numInput);
      for k := 1 to |layers|
        invariant layers[k - 1].last <= totalNeurons
        invariant neuronsIn + 1 == layers[k - 1].last
        invariant PlacedUpTo(layers, neurons[..], numInput, layers[k - 1].last, totalConnections)
        invariant FannSparse.Equipped(neurons[..], numInput + 1, layers[k - 1].last, SIGMOID_STEPWISE, 0.5)
      {
        LayersOrdered(layers, totalNeurons, 0, k);
        if k + 1 < |layers| { LayersOrdered(layers, totalNeurons, k, |layers| - 1); }
        PlaceLayerConnections(k, neuronsIn);
        neuronsIn := neuronsIn + (layers[k].last - layers[k].first);
      }
      PlacedAll(layers, neurons[..], numInput, numOutput, totalNeurons, totalConnections);
    }

    /** The connections of the neurons of one layer. */
    method PlaceLayerConnections(k: nat, neuronsIn: nat)
      requires Tiled(layers, totalNeurons) && neurons.Length == totalNeurons && 0 < k < |layers|
      requires numInput < layers[k].first <= layers[k].last <= totalNeurons && neuronsIn + 1 == layers[k].first
      requires PlacedUpTo(layers, neurons[..], numInput, layers[k].first, totalConnections)
      requires FannSparse.Equipped(neurons[..], numInput + 1, layers[k].first, SIGMOID_STEPWISE, 0.5)
      modifies this`totalConnections, neurons
      ensures PlacedUpTo(layers, neurons[..], numInput, layers[k].last, totalConnections)
      ensures FannSparse.Equipped(neurons[..], numInput + 1, layers[k].last, SIGMOID_STEPWISE, 0.5)
    {
      hide ShortcutLayout, PlacedUpTo, Tiled;
      var neuronsOut := layers[k].last - layers[k].first;
      for i := 0 to neuronsOut
        invariant PlacedUpTo(layers, neurons[..], numInput, layers[k].first + i, totalConnections)
        invariant FannSparse.Equipped(neurons[..], numInput + 1, layers[k].first + i, SIGMOID_STEPWISE, 0.5)
      {
        var n := layers[k].first + i;
        PlacedOneMore(layers, totalNeurons, neurons[..], numInput, n, k, totalConnections, SIGMOID_STEPWISE, 0.5);
        neurons[n] := Neuron(neurons[n].value, neurons[n].sum, SIGMOID_STEPWISE, 0.5,
                             totalConnections, totalConnections + (neuronsIn + 1));
        totalConnections := totalConnections + (neuronsIn + 1);
      }
    }

    /** Every neuron gets a random weight for, and a pointer to, each neuron of the earlier layers. */
    method ConnectToEarlier()
      requires ShortcutLayout(layers, neurons[..], numInput, numOutput, totalNeurons, totalConnections)
      requires weights.Length == connections.Length == totalConnections
      modifies weights, connections
      ensures PointersContiguous(Shortcut, layers, neurons[..], connections[..], totalNeurons)
    {
      hide ShortcutLayout, PointersContiguous, PointersSet, Pointed, RangesAscend;
      ghost var N := neurons[..];
      LayoutFacts(layers, N, numInput, numOutput, totalNeurons, totalConnections);
      LayoutAscends(layers, N, numInput, numOutput, totalNeurons, totalConnections);
      FirstRange(layers, N, numInput, numOutput, totalNeurons, totalConnections);
      PointersNoneSet(N, connections[..], numInput);
      for k := 1 to |layers|
        invariant layers[k - 1].last <= totalNeurons
        invariant PointersSet(N, connections[..], numInput, layers[k - 1].last)
      {
        LayerEnds(layers, N, numInput, numOutput, totalNeurons, totalConnections, k);
        for n := layers[k].first to layers[k].last
          invariant PointersSet(N, connections[..], numInput, n)
        {
          ghost var before := connections[..];
          FanIn(layers, N, numInput, numOutput, totalNeurons, totalConnections, k, n);
          ConnectOne(k, neurons[n].firstCon);
          PointersSetStep(N, before, connections[..], numInput, totalNeurons, totalConnections, n);
        }
      }
      PointersAllSet(layers, N, connections[..], numInput, numOutput, totalNeurons, totalConnections);
    }

    /** Connects one neuron of layer `k` to all neurons of the layers before `k`. */
    method ConnectOne(k: nat, firstCon: nat)
      requires Tiled(layers, totalNeurons) && 0 < k < |layers|
      requires firstCon + layers[k].first <= connections.Length == weights.Length
      modifies weights, connections
      ensures Pointed(old(connections[..]), connections[..], firstCon, firstCon + layers[k].first)
    {
      var i := firstCon;
      for l := 0 to k
        invariant i == firstCon + layers[l].first <= firstCon + layers[k].first
        invariant forall x :: firstCon <= x < i ==> connections[x] == x - firstCon
        invariant forall x :: 0 <= x < connections.Length && !(firstCon <= x < i) ==> connections[x] == old(connections[x])
      {
        LayersOrdered(layers, totalNeurons, l, k);
        for n := layers[l].first to layers[l].last
          invariant i == firstCon + n
          invariant forall x :: firstCon <= x < i ==> connections[x] == x - firstCon
          invariant forall x :: 0 <= x < connections.Length && !(firstCon <= x < i) ==> connections[x] == old(connections[x])
        {
          weights[i] := *;
          connections[i] := n;
          i := i + 1;
        }
      }
    }

    ghost function WiringUsed(): Wiring
      reads this
    {
      if connectionRate < 1.0 then Looked else if networkType.ShortcutNetwork? then Shortcut else Layered
    }

    ghost predicate Runnable()
      reads this, neurons, connections
    {
      RunLayout(WiringUsed(), layers, neurons[..], connections[..], numInput, totalNeurons, weights.Length) &&
      layers[|layers| - 1].first + numOutput <= totalNeurons
    }

    /** The graph that running evaluates. */
    ghost function RunGraph(): (units: seq<Unit>)
      requires Runnable()
      reads this, neurons, connections, weights
      ensures |units| == totalNeurons && FeedForward(units, numInput)
    {
      NetUnits(WiringUsed(), layers, neurons[..], connections[..], numInput, totalNeurons, weights[..])
    }

    /** A shortcut network at full connection rate runs the graph that cascade training rearranges;
        it would run the same graph through its connection pointers once these are set. */
    lemma {:induction false} ShortcutRunnable()
      requires ValidShortcut() && connectionRate >= 1.0 && networkType.ShortcutNetwork?
      ensures Runnable() && RunGraph() == Graph()
      ensures PointersContiguous(Shortcut, layers, neurons[..], connections[..], totalNeurons) ==>
                RunLayout(Looked, layers, neurons[..], connections[..], numInput, totalNeurons, weights.Length) &&
                NetUnits(Looked, layers, neurons[..], connections[..], numInput, totalNeurons, weights[..]) == Graph()
    {
      hide ShortcutLayout, RunLayout, NetUnits, ShortcutUnits, ShortcutRanges, PointersContiguous;
      LayoutFacts(layers, neurons[..], numInput, numOutput, totalNeurons, totalConnections);
      ShortcutRuns(layers, neurons[..], connections[..], weights[..], numInput, numOutput, totalNeurons, totalConnections);
      if PointersContiguous(Shortcut, layers, neurons[..], connections[..], totalNeurons) {
        PathsAgree(Shortcut, layers, neurons[..], connections[..], numInput, totalNeurons, weights[..]);
      }
    }

    /** Makes room for an empty layer at position `pos`. */
    method AddLayer(pos: nat)
      requires ValidShortcut() && 0 < pos < |layers|
      modifies this`layers
      ensures ValidShortcut()
      ensures layers == WithEmptyLayer(old(layers), pos)
      ensures Graph() == old(Graph())
    {
      hide ShortcutLayout;
      var numLayers := |layers| + 1;
      var moved := layers + [layers[|layers| - 1]];
      var i := numLayers - 1;
      while i >= pos
        invariant pos - 1 <= i < numLayers
        invariant |moved| == numLayers
        invariant forall k :: 0 <= k <= i && k < numLayers - 1 ==> moved[k] == layers[k]
        invariant forall k :: i < k < numLayers ==> moved[k] == layers[k - 1]
      {
        moved := moved[i := moved[i - 1]];
        i := i - 1;
      }
      moved := moved[pos := Layer(moved[pos + 1].first, moved[pos + 1].first)];
      assert moved == WithEmptyLayer(layers, pos);
      EmptyLayerKeepsLayout(layers, pos, neurons[..], numInput, numOutput, totalNeurons, totalConnections);
      layers := moved;
    }

    /** One output neuron moves from `n - 1` to `n`, its weights move right by `connectionsMove - 1`,
        and the weight behind them becomes the multiplied outgoing weight of the candidate. */
    method MoveOutput(n: nat, connectionsMove: nat, candidateOutputWeight: nat)
      requires 0 < n < neurons.Length && connectionsMove > 0
      requires neurons[n - 1].firstCon <= neurons[n - 1].lastCon
      requires neurons[n - 1].lastCon + connectionsMove <= candidateOutputWeight < weights.Length
      modifies neurons, weights
      ensures neurons[..] == old(neurons[..])[n := MovedNeuron(old(neurons[n - 1]), connectionsMove - 1)]
      ensures SlidOnce(old(weights[..]), weights[..], old(neurons[n - 1]), connectionsMove - 1,
                Mult(old(weights[candidateOutputWeight]), weightMultiplier))
    {
      hide SlidOnce, ShiftedRight, Mult;
      ghost var u, before := neurons[n - 1], weights[..];
      ghost var weight := Mult(before[candidateOutputWeight], weightMultiplier);
      neurons[n] := neurons[n - 1];
      ShiftRight(weights, neurons[n].firstCon, neurons[n].lastCon, connectionsMove - 1);
      ghost var shifted := weights[..];
      ShiftedBehind(before, shifted, u.firstCon, u.lastCon, connectionsMove - 1, candidateOutputWeight);
      SlidWeights(before, shifted, u, connectionsMove - 1, weight);
      neurons[n] := neurons[n].(lastCon := neurons[n].lastCon + connectionsMove);
      neurons[n] := neurons[n].(firstCon := neurons[n].firstCon + (connectionsMove - 1));
      weights[neurons[n].lastCon - 1] := Mult(weights[candidateOutputWeight], weightMultiplier);
      assert weights[..] == shifted[u.lastCon + (connectionsMove - 1) := weight];
    }

    /** Moves the output neurons one place up, last one first, slides their weights into the gap
        and gives each of them a weight for its connection from the new neuron. */
    method MoveOutputs(hidden: nat, candidate: nat)
      requires hidden + numOutput == totalNeurons < candidate < neurons.Length
      requires RangesAscend(neurons[..], hidden, totalNeurons, totalConnections)
      requires totalConnections + totalNeurons <= neurons[candidate].lastCon
      requires neurons[candidate].lastCon + numOutput <= weights.Length
      modifies neurons, weights
      ensures NeuronsSliding(old(neurons[..]), neurons[..], hidden, totalNeurons)
      ensures Sliding(old(neurons[..]), old(weights[..]), weights[..], hidden, hidden, totalNeurons, totalConnections,
                AddedWeights(old(weights[neurons[candidate].lastCon..neurons[candidate].lastCon + numOutput]), weightMultiplier))
    {
      hide Sliding, SlidOnce, NeuronsSliding, Mult;
      ghost var N := neurons[..];
      ghost var W := weights[..];
      ghost var outWeights := weights[neurons[candidate].lastCon..neurons[candidate].lastCon + numOutput];
      ghost var added := AddedWeights(outWeights, weightMultiplier);
      var connectionsMove := totalNeurons;
      var candidateOutputWeight := neurons[candidate].lastCon;
      var n := totalNeurons;
      NeuronsSlidingStart(N, totalNeurons);
      SlidingStart(N, W, hidden, totalNeurons, totalConnections, added);
      while n != hidden
        invariant hidden <= n <= totalNeurons
        invariant connectionsMove == n
        invariant candidateOutputWeight == N[candidate].lastCon + (totalNeurons - n)
        invariant NeuronsSliding(N, neurons[..], n, totalNeurons)
        invariant Sliding(N, W, weights[..], hidden, n, totalNeurons, totalConnections, added)
      {
        ghost var now := weights[..];
        NeuronsSlidingStep(N, neurons[..], n, totalNeurons);
        SlidingBehindGap(N, W, now, hidden, n, totalNeurons, totalConnections, added, candidateOutputWeight);
        assert outWeights[totalNeurons - n] == now[candidateOutputWeight];
        MoveOutput(n, connectionsMove, candidateOutputWeight);
        assert Mult(now[candidateOutputWeight], weightMultiplier) == added[n - 1 - hidden];
        SlidingStep(N, W, now, weights[..], hidden, n, totalNeurons, totalConnections, added);
        connectionsMove := connectionsMove - 1;
        candidateOutputWeight := candidateOutputWeight + 1;
        n := n - 1;
      }
    }

    /** The array part of splicing: the outputs move up, and the candidate is copied to the place
        this frees at `place`. */
    method SpliceArrays(place: nat)
      requires place + numOutput == totalNeurons < bestCandidate < neurons.Length && numOutput > 0
      requires RangesAscend(neurons[..], place, totalNeurons, totalConnections)
      requires totalConnections + totalNeurons <= neurons[bestCandidate].firstCon
      requires neurons[bestCandidate].lastCon == neurons[bestCandidate].firstCon + place
      requires neurons[bestCandidate].lastCon + numOutput <= weights.Length
      modifies neurons, weights
      ensures NeuronsSpliced(old(neurons[..]), neurons[..], place, totalNeurons, old(neurons[bestCandidate]))
      ensures WeightsSpliced(old(neurons[..]), old(weights[..]), weights[..], place, totalNeurons, totalConnections,
                old(neurons[bestCandidate]),
                AddedWeights(old(weights[neurons[bestCandidate].lastCon..neurons[bestCandidate].lastCon + numOutput]), weightMultiplier))
    {
      hide Sliding, NeuronsSliding, NeuronsSpliced, WeightsSpliced;
      ghost var N, W := neurons[..], weights[..];
      var candidate := neurons[bestCandidate];
      ghost var added := AddedWeights(weights[candidate.lastCon..candidate.lastCon + numOutput], weightMultiplier);
      MoveOutputs(place, bestCandidate);
      NeuronPlaced(N, neurons[..], place, totalNeurons, candidate);
      neurons[place] := PlacedNeuron(candidate, neurons[place + 1].firstCon, place);
      ghost var W1 := weights[..];
      CopyWeights(weights, candidate.firstCon, neurons[place].firstCon, place);
      WeightsPlaced(N, W, W1, weights[..], place, totalNeurons, totalConnections, candidate, added);
    }

    /** Splices the best candidate into the empty layer `pos` right before the output layer. */
    method AddCandidateNeuron(pos: nat)
      requires ValidShortcut() && CandidateAt(bestCandidate)
      requires pos == |layers| - 2 && pos > 0 && layers[pos].first == layers[pos].last
      modifies this`layers, this`totalNeurons, this`totalConnections, neurons, weights
      ensures ValidShortcut()
      ensures totalNeurons == old(totalNeurons) + 1
      ensures totalConnections == old(totalConnections + totalNeurons)
      ensures layers == SplicedLayers(old(layers))
      ensures Graph() == Installed(old(Graph()), old(CandidateUnit(bestCandidate)),
                                   AddedWeights(old(CandidateOutWeights(bestCandidate)), weightMultiplier))
    {
      hide ShortcutLayout, NeuronsSpliced, WeightsSpliced, ShortcutRanges, ShortcutUnits, ShortcutUnit, RangesAscend;
      var connectionsIn := layers[pos].first;
      var connectionsOut := layers[|layers| - 1].last - layers[pos + 1].first;
      ghost var N, W, L := neurons[..], weights[..], layers;
      ghost var candidate := neurons[bestCandidate];
      ghost var added := AddedWeights(CandidateOutWeights(bestCandidate), weightMultiplier);
      LayoutFacts(L, N, numInput, numOutput, totalNeurons, totalConnections);
      OutputsAscend(L, N, numInput, numOutput, totalNeurons, totalConnections);

      layers := layers[pos + 1 := Layer(layers[pos + 1].first + 1, layers[pos + 1].last + 1)];
      layers := layers[pos := layers[pos].(last := layers[pos].last + 1)];
      assert layers == SplicedLayers(L);
      SpliceArrays(layers[pos].last - 1);
      SplicedNetwork(L, N, neurons[..], W, weights[..], numInput, numOutput, totalNeurons, totalConnections, candidate, added);
      totalNeurons := totalNeurons + 1;
      totalConnections := totalConnections + (connectionsIn + connectionsOut);
    }

    /** Adds up the connections of a neuron whose sources lie side by side, four at a time. */
    method SumContiguous(ghost u: Unit, ghost values: seq<real>, firstCon: nat, count: nat, base: nat) returns (sum: real)
      requires firstCon + count <= weights.Length && base + count <= neurons.Length
      requires WellFormedUnit(u, |values|) && |u.weights| == count
      requires u.weights == weights[firstCon..firstCon + count]
      requires forall i :: 0 <= i < count ==> u.sources[i] == base + i && values[u.sources[i]] == neurons[base + i].value
      ensures sum == WeightedSum(u.weights, u.sources, values, count)
    {
      hide Mult, WeightedSum;
      sum := 0.0;
      var i := count % 4;
      FirstFew(u, values);
      if i == 3 { sum := sum + Mult(weights[firstCon + 2], neurons[base + 2].value); }
      if i >= 2 { sum := sum + Mult(weights[firstCon + 1], neurons[base + 1].value); }
      if i >= 1 { sum := sum + Mult(weights[firstCon], neurons[base].value); }
      while i != count
        invariant i <= count && (count - i) % 4 == 0
        invariant sum == WeightedSum(u.weights, u.sources, values, i)
        decreases count - i
      {
        NextFour(u, values, i);
        sum := sum + (Mult(weights[firstCon + i], neurons[base + i].value) +
                      Mult(weights[firstCon + i + 1], neurons[base + i + 1].value) +
                      Mult(weights[firstCon + i + 2], neurons[base + i + 2].value) +
                      Mult(weights[firstCon + i + 3], neurons[base + i + 3].value));
        i := i + 4;
      }
    }

    /** The same sum over connections that are looked up one by one. */
    method SumLookedUp(ghost u: Unit, ghost values: seq<real>, firstCon: nat, count: nat) returns (sum: real)
      requires firstCon + count <= weights.Length && firstCon + count <= connections.Length
      requires WellFormedUnit(u, |values|) && |u.weights| == count
      requires u.weights == weights[firstCon..firstCon + count]
      requires forall i :: 0 <= i < count ==> u.sources[i] == connections[firstCon + i] < neurons.Length
      requires forall i :: 0 <= i < count ==> values[u.sources[i]] == neurons[connections[firstCon + i]].value
      ensures sum == WeightedSum(u.weights, u.sources, values, count)
    {
      hide Mult, WeightedSum;
      sum := 0.0;
      var i := count % 4;
      FirstFew(u, values);
      if i == 3 { sum := sum + Mult(weights[firstCon + 2], neurons[connections[firstCon + 2]].value); }
      if i >= 2 { sum := sum + Mult(weights[firstCon + 1], neurons[connections[firstCon + 1]].value); }
      if i >= 1 { sum := sum + Mult(weights[firstCon], neurons[connections[firstCon]].value); }
      while i != count
        invariant i <= count && (count - i) % 4 == 0
        invariant sum == WeightedSum(u.weights, u.sources, values, i)
        decreases count - i
      {
        NextFour(u, values, i);
        sum := sum + (Mult(weights[firstCon + i], neurons[connections[firstCon + i]].value) +
                      Mult(weights[firstCon + i + 1], neurons[connections[firstCon + i + 1]].value) +
                      Mult(weights[firstCon + i + 2], neurons[connections[firstCon + i + 2]].value) +
                      Mult(weights[firstCon + i + 3], neurons[connections[firstCon + i + 3]].value));
        i := i + 4;
      }
    }

    /** The weighted sum of neuron `n` of layer `k`, in whichever way its connections are stored. */
    method SumOf(k: nat, n: nat, ghost u: Unit, ghost values: seq<real>) returns (sum: real)
      requires Runnable() && 0 < k < |layers| && layers[k].first <= n < layers[k].last
      requires n < |RunGraph()| && u == RunGraph()[n] && WellFormedUnit(u, |values|) && |u.weights| > 0
      requires |values| == n && forall m :: 0 <= m < n && m < neurons.Length ==> neurons[m].value == values[m]
      ensures sum == WeightedSum(u.weights, u.sources, values, |u.weights|)
    {
      hide RunLayout, NetUnits, WeightedSum;
      NetUnitsAt(WiringUsed(), layers, neurons[..], connections[..], numInput, totalNeurons, weights[..], k, n);
      RunFacts(WiringUsed(), layers, neurons[..], connections[..], numInput, totalNeurons, weights.Length, k);
      var firstCon, count := neurons[n].firstCon, neurons[n].lastCon - neurons[n].firstCon;
      if connectionRate >= 1.0 {
        var base := if networkType.ShortcutNetwork? then 0 else layers[k - 1].first;
        ContiguousSources(WiringUsed(), layers, connections[..], k, neurons[n], weights[..], base);
        sum := SumContiguous(u, values, firstCon, count, base);
      } else {
        LookedSources(layers, connections[..], k, neurons[n], weights[..]);
        forall i | 0 <= i < count
          ensures u.sources[i] == connections[firstCon + i] < neurons.Length
          ensures values[u.sources[i]] == neurons[connections[firstCon + i]].value
        {
          assert u.sources[i] < n;
        }
        sum := SumLookedUp(u, values, firstCon, count);
      }
    }

    /** Computes neuron `n` of layer `k` from the neurons before it. */
    method RunNeuron(k: nat, n: nat, ghost units: seq<Unit>, ghost values: seq<real>)
      requires Runnable() && units == RunGraph()
      requires 0 < k < |layers| && layers[k].first <= n < layers[k].last
      requires |values| == n && forall m :: 0 <= m < n && m < neurons.Length ==> neurons[m].value == values[m]
      modifies neurons
      ensures n < |units| && n < neurons.Length && WellFormedUnit(units[n], n)
      ensures neurons[..] == old(neurons[..])[n := old(neurons[n]).(value := neurons[n].value, sum := neurons[n].sum)]
      ensures neurons[n].value == UnitValue(Squash(activate), units[n], values)
      ensures Ran(activate, neurons[n], units[n], values)
    {
      hide RunLayout, NetUnits, WeightedSum, Clip, Limited, Mult;
      NetUnitsAt(WiringUsed(), layers, neurons[..], connections[..], numInput, totalNeurons, weights[..], k, n);
      RunFacts(WiringUsed(), layers, neurons[..], connections[..], numInput, totalNeurons, weights.Length, k);
      ghost var u := units[n];
      if neurons[n].lastCon == neurons[n].firstCon {
        neurons[n] := neurons[n].(value := 1.0);
        return;
      }
      var sum := SumOf(k, n, u, values);
      var clipped := Clip(neurons[n].steepness, sum);
      ClipLimits(u.steepness, sum);
      assert UnitValue(Squash(activate), u, values) == Squash(activate)(u.activation, u.steepness, sum);
      neurons[n] := neurons[n].(sum := clipped, value := activate(neurons[n].activation, clipped));
    }

    /** Sets the input neurons and the bias neuron of the input layer. */
    method SetInput(input: seq<real>, ghost units: seq<Unit>, ghost values: seq<real>)
      requires Runnable() && |input| == numInput && units == RunGraph()
      requires values == Forward(Squash(activate), units, input, totalNeurons)
      modifies neurons
      ensures |layers| > 0 && RunSoFar(old(neurons[..]), neurons[..], values, layers[0].last)
    {
      hide RunLayout, NetUnits, Forward, Squash;
      ghost var N := neurons[..];
      RunEnds(WiringUsed(), layers, N, connections[..], numInput, totalNeurons, weights.Length);
      for i := 0 to numInput
        invariant RunSoFar(N, neurons[..], values, i)
      {
        ForwardAt(Squash(activate), units, input, i, totalNeurons);
        neurons[i] := neurons[i].(value := input[i]);
      }
      ForwardAt(Squash(activate), units, input, numInput, totalNeurons);
      neurons[layers[0].last - 1] := neurons[layers[0].last - 1].(value := 1.0);
    }

    /** Runs one layer. */
    method RunLayer(k: nat, input: seq<real>, ghost units: seq<Unit>, ghost values: seq<real>)
      requires Runnable() && |input| == numInput && units == RunGraph() && 0 < k < |layers|
      requires values == Forward(Squash(activate), units, input, totalNeurons)
      requires layers[k - 1].last <= |values| <= neurons.Length
      requires forall m :: 0 <= m < layers[k - 1].last ==> neurons[m].value == values[m]
      modifies neurons
      ensures RunSoFar(old(neurons[..]), neurons[..], values, layers[k].last)
      ensures RanBetween(activate, neurons[..], units, values, layers[k].first, layers[k].last)
      ensures forall m :: 0 <= m < layers[k].first && m < neurons.Length ==> neurons[m] == old(neurons[m])
    {
      hide RunLayout, NetUnits, Forward, Squash, Ran;
      ghost var N := neurons[..];
      RunFacts(WiringUsed(), layers, N, connections[..], numInput, totalNeurons, weights.Length, k);
      for n := layers[k].first to layers[k].last
        invariant RunSoFar(N, neurons[..], values, n)
        invariant RanBetween(activate, neurons[..], units, values, layers[k].first, n)
        invariant forall m :: 0 <= m < layers[k].first && m < neurons.Length ==> neurons[m] == N[m]
      {
        ghost var now := neurons[..];
        ShapeKeepsGraph(WiringUsed(), layers, N, neurons[..], connections[..], numInput, totalNeurons, weights[..]);
        ForwardAt(Squash(activate), units, input, n, totalNeurons);
        ForwardPrefix(Squash(activate), units, input, n, totalNeurons);
        RunNeuron(k, n, units, Forward(Squash(activate), units, input, n));
        RanShared(activate, neurons[n], units[n], values[..n], values);
        RanOneMore(activate, now, neurons[..], units, values, layers[k].first, n);
      }
    }

    /** fann_run: every neuron ends up with the value of its unit in the graph, and only values and
        sums change. */
    method Run(input: seq<real>) returns (output: seq<real>)
      requires Runnable() && |input| == numInput
      modifies neurons
      ensures Runnable() && RunGraph() == old(RunGraph())
      ensures SameShapes(old(neurons[..]), neurons[..])
      ensures forall n :: 0 <= n < totalNeurons && n < neurons.Length ==>
                neurons[n].value == Forward(Squash(activate), RunGraph(), input, totalNeurons)[n]
      ensures InputsHeld(neurons[..], input)
      ensures RanBetween(activate, neurons[..], RunGraph(), ValuesOf(neurons[..], totalNeurons), numInput + 1, totalNeurons)
      ensures output == Forward(Squash(activate), RunGraph(), input, totalNeurons)
                        [layers[|layers| - 1].first..layers[|layers| - 1].first + numOutput]
    {
      hide RunLayout, NetUnits, Forward, Squash, RanBetween, ValuesOf, InputsHeld;
      ghost var N, units, act := neurons[..], RunGraph(), Squash(activate);
      ghost var values := Forward(act, units, input, totalNeurons);
      RunEnds(WiringUsed(), layers, N, connections[..], numInput, totalNeurons, weights.Length);
      SetInput(input, units, values);
      RanNone(activate, neurons[..], units, values, numInput + 1);
      for k := 1 to |layers|
        invariant RunSoFar(N, neurons[..], values, layers[k - 1].last)
        invariant RanBetween(activate, neurons[..], units, values, numInput + 1, layers[k - 1].last)
      {
        ShapeKeepsGraph(WiringUsed(), layers, N, neurons[..], connections[..], numInput, totalNeurons, weights[..]);
        RunFacts(WiringUsed(), layers, neurons[..], connections[..], numInput, totalNeurons, weights.Length, k);
        ghost var now := neurons[..];
        RunLayer(k, input, units, values);
        RunSoFarTrans(N, now, neurons[..], values, layers[k].last);
        RanJoin(activate, now, neurons[..], units, values, numInput + 1, layers[k].first, layers[k].last);
      }
      ValuesAre(neurons[..], values);
      HoldsInputs(Squash(activate), neurons[..], units, input, totalNeurons);
      ShapeKeepsGraph(WiringUsed(), layers, N, neurons[..], connections[..], numInput, totalNeurons, weights[..]);
      output := [];
      var first := layers[|layers| - 1].first;
      for i := 0 to numOutput
        invariant output == values[first..first + i]
      {
        output := output + [neurons[first + i].value];
      }
    }

    // ---- Candidates ----

    function NumCandidates(): nat
      reads this
    {
      |activationFunctions| * (|steepnesses| * candidateGroups)
    }

    /** realloc of the neuron array, which keeps the old neurons. */
    method ReallocateNeurons(count: nat)
      requires count > neurons.Length
      modifies this`neurons
      ensures fresh(neurons) && neurons.Length == count
      ensures neurons[..old(neurons.Length)] == old(neurons[..])
    {
      var bigger := new Neuron[count];
      for i := 0 to neurons.Length
        modifies bigger
        invariant bigger[..i] == neurons[..i]
      {
        bigger[i] := neurons[i];
      }
      neurons := bigger;
    }

    method ReallocateConnections(count: nat)
      requires count > weights.Length && weights.Length <= connections.Length
      modifies this`weights, this`connections
      ensures fresh(weights) && fresh(connections) && weights.Length == connections.Length == count
      ensures weights[..old(weights.Length)] == old(weights[..])
    {
      var w := new real[count];
      var c := new nat[count];
      for i := 0 to weights.Length
        modifies w, c
        invariant w[..i] == weights[..i]
      {
        w[i] := weights[i];
        c[i] := connections[i];
      }
      weights, connections := w, c;
    }

    /** initialize_candidate_weights: random weights of limited size, of either sign only for the bias. */
    method InitializeCandidateWeights(firstCon: nat, lastCon: nat, scale: real)
      requires firstCon <= lastCon <= weights.Length && 0.5 <= scale <= 8.0
      modifies weights
      ensures forall x :: 0 <= x < weights.Length && !(firstCon <= x < lastCon) ==> weights[x] == old(weights[x])
      ensures forall x :: firstCon <= x < lastCon ==> -scale <= weights[x] <= scale
      ensures forall x :: firstCon <= x < lastCon && x != firstCon + numInput ==> weights[x] >= 0.0
    {
      var biasWeight := firstCon + numInput;
      for i := firstCon to lastCon
        invariant forall x :: 0 <= x < weights.Length && !(firstCon <= x < i) ==> weights[x] == old(weights[x])
        invariant forall x :: firstCon <= x < i ==> -scale <= weights[x] <= scale
        invariant forall x :: firstCon <= x < i && x != biasWeight ==> weights[x] >= 0.0
      {
        assert 0.0 <= 0.0 <= scale;
        var random :| (if i == biasWeight then -scale else 0.0) <= random <= scale;
        weights[i] := random;
      }
    }

    /** Sets up the candidates behind the gap: candidate number `m` is neuron `totalNeurons + 1 + m`
        and owns the `totalNeurons` weights that start at `totalConnections + totalNeurons * (m + 1)`. */
    method FillCandidates(scale: real)
      requires ValidShortcut() && 0.5 <= scale <= 8.0
      requires totalNeurons + NumCandidates() < neurons.Length
      requires totalConnections + totalNeurons * (NumCandidates() + 1) <= weights.Length
      modifies neurons, weights
      ensures neurons[..totalNeurons] == old(neurons[..totalNeurons])
      ensures weights[..totalConnections] == old(weights[..totalConnections])
      ensures CandidatesFilled(neurons[..], totalNeurons, totalConnections, numOutput,
                               Kinds(activationFunctions, steepnesses, candidateGroups))
      ensures Drawn(weights[..], totalConnections + totalNeurons, totalConnections + totalNeurons * (NumCandidates() + 1), scale)
    {
      hide CandidatesFilled, ShortcutLayout, Kinds, KindsOf, Drawn;
      LayoutFacts(layers, neurons[..], numInput, numOutput, totalNeurons, totalConnections);
      var candidate: nat := totalNeurons + 1;
      var connection: nat := totalConnections + totalNeurons;
      ghost var kinds: seq<(nat, real)> := [];
      CandidatesNone(neurons[..], totalNeurons, totalConnections, numOutput);
      DrawnNone(weights[..], connection, scale);
      KindsStart(steepnesses, candidateGroups);
      for i := 0 to |activationFunctions|
        invariant kinds == Kinds(activationFunctions[..i], steepnesses, candidateGroups)
        invariant FillingAt(candidate, connection, kinds)
        invariant neurons[..totalNeurons] == old(neurons[..totalNeurons])
        invariant weights[..totalConnections] == old(weights[..totalConnections])
        invariant Drawn(weights[..], totalConnections + totalNeurons, connection, scale)
      {
        for j := 0 to |steepnesses|
          invariant kinds == Kinds(activationFunctions[..i], steepnesses, candidateGroups) +
                             KindsOf(activationFunctions[i], steepnesses[..j], candidateGroups)
          invariant FillingAt(candidate, connection, kinds)
          invariant neurons[..totalNeurons] == old(neurons[..totalNeurons])
          invariant weights[..totalConnections] == old(weights[..totalConnections])
          invariant Drawn(weights[..], totalConnections + totalNeurons, connection, scale)
        {
          KindsRoom(activationFunctions, steepnesses, candidateGroups, i, j);
          candidate, connection := FillGroup(candidate, connection, activationFunctions[i], steepnesses[j], scale, kinds);
          kinds := kinds + Copies(activationFunctions[i], steepnesses[j], candidateGroups);
          KindsStep(activationFunctions, steepnesses, candidateGroups, i, j);
        }
        KindsStep(activationFunctions, steepnesses, candidateGroups, i, 0);
      }
      assert activationFunctions[..|activationFunctions|] == activationFunctions;
    }

    /** The innermost loop of FillCandidates: one kind of candidate, `candidateGroups` times. */
    method FillGroup(first: nat, firstConnection: nat, activation: nat, steepness: real, scale: real,
                     ghost kinds: seq<(nat, real)>) returns (candidate: nat, connection: nat)
      requires numOutput <= totalNeurons && FillingAt(first, firstConnection, kinds) && 0.5 <= scale <= 8.0
      requires |kinds| + candidateGroups <= NumCandidates()
      requires totalNeurons + NumCandidates() < neurons.Length
      requires totalConnections + totalNeurons * (NumCandidates() + 1) <= weights.Length
      requires Drawn(weights[..], totalConnections + totalNeurons, firstConnection, scale)
      modifies neurons, weights
      ensures Drawn(weights[..], totalConnections + totalNeurons, connection, scale)
      ensures FillingAt(candidate, connection, kinds + Copies(activation, steepness, candidateGroups))
      ensures neurons[..totalNeurons] == old(neurons[..totalNeurons])
      ensures weights[..totalConnections] == old(weights[..totalConnections])
    {
      hide CandidatesFilled, Drawn;
      candidate, connection := first, firstConnection;
      ghost var filled := kinds;
      for k := 0 to candidateGroups
        invariant filled == kinds + Copies(activation, steepness, k)
        invariant FillingAt(candidate, connection, filled)
        invariant neurons[..totalNeurons] == old(neurons[..totalNeurons])
        invariant weights[..totalConnections] == old(weights[..totalConnections])
        invariant Drawn(weights[..], totalConnections + totalNeurons, connection, scale)
      {
        RoomForOne(totalNeurons, totalConnections, |filled|, NumCandidates(), weights.Length);
        FillCandidate(candidate, connection, activation, steepness, scale, filled);
        filled := filled + [(activation, steepness)];
        connection := connection + totalNeurons;
        candidate := candidate + 1;
      }
    }

    /** The loop variables of FillCandidates after the candidates `kinds`. */
    ghost predicate FillingAt(candidate: nat, connection: nat, kinds: seq<(nat, real)>)
      reads this, neurons
    {
      candidate == totalNeurons + 1 + |kinds| &&
      connection == totalConnections + totalNeurons * (|kinds| + 1) &&
      CandidatesFilled(neurons[..], totalNeurons, totalConnections, numOutput, kinds)
    }

    method FillCandidate(candidate: nat, connection: nat, activation: nat, steepness: real, scale: real,
                         ghost kinds: seq<(nat, real)>)
      requires numOutput <= totalNeurons && FillingAt(candidate, connection, kinds) && 0.5 <= scale <= 8.0
      requires candidate < neurons.Length && connection + totalNeurons <= weights.Length
      requires Drawn(weights[..], totalConnections + totalNeurons, connection, scale)
      modifies neurons, weights
      ensures Drawn(weights[..], totalConnections + totalNeurons, connection + totalNeurons, scale)
      ensures FillingAt(candidate + 1, connection + totalNeurons, kinds + [(activation, steepness)])
      ensures neurons[..totalNeurons] == old(neurons[..totalNeurons])
      ensures weights[..totalConnections] == old(weights[..totalConnections])
    {
      hide CandidatesFilled, Drawn;
      ghost var placed := CandidateNeuron(connection, totalNeurons - numOutput, activation, steepness);
      ghost var N, W := neurons[..], weights[..];
      CandidatesOneMore(N, totalNeurons, totalConnections, numOutput, kinds, (activation, steepness));
      Multiples(|kinds| + 1, totalNeurons);
      neurons[candidate] := neurons[candidate].(value := 0.0, sum := 0.0, activation := activation, steepness := steepness);
      neurons[candidate] := neurons[candidate].(firstCon := connection);
      neurons[candidate] := neurons[candidate].(lastCon := connection + (totalNeurons - numOutput));
      assert neurons[..] == N[candidate := placed];
      InitializeCandidateWeights(connection, connection + totalNeurons, scale);
      DrawnMore(W, weights[..], totalConnections + totalNeurons, connection, connection + totalNeurons, scale);
      assert neurons[..] == N[candidate := placed];
    }

    /** Reallocates the arrays when they cannot hold the candidates and the gap. */
    method MakeRoom(numNeurons: nat, numConnections: nat)
      requires ValidShortcut()
      modifies this`neurons, this`weights, this`connections
      ensures ValidShortcut() && Graph() == old(Graph())
      ensures neurons == old(neurons) || fresh(neurons)
      ensures weights == old(weights) || fresh(weights)
      ensures connections == old(connections) || fresh(connections)
      ensures numNeurons <= neurons.Length && numConnections <= weights.Length
    {
      hide ShortcutLayout, ShortcutUnits, ShortcutRanges;
      ghost var N, W := neurons[..], weights[..];
      LayoutFacts(layers, N, numInput, numOutput, totalNeurons, totalConnections);
      if numNeurons > neurons.Length {
        var count := numNeurons + numNeurons / 2;
        if count < numNeurons + 10 { count := numNeurons + 10; }
        ReallocateNeurons(count);
        assert neurons[..totalNeurons] == neurons[..|N|][..totalNeurons] == N[..totalNeurons];
      }
      if numConnections > weights.Length {
        var count := numConnections + numConnections / 2;
        if count < numConnections + totalNeurons * 10 { count := numConnections + totalNeurons * 10; }
        ReallocateConnections(count);
        assert weights[..totalConnections] == weights[..|W|][..totalConnections] == W[..totalConnections];
      }
      PrefixKeepsNetwork(layers, N, neurons[..], W, weights[..], numInput, numOutput, totalNeurons, totalConnections);
    }

    /** fann_initialize_candidates: makes room, then sets up the candidates; the network itself stays
        as it is. `widrowNguyen` is the power that scales the random weights. */
    method InitializeCandidates(widrowNguyen: real)
      requires ValidShortcut()
      modifies this`neurons, this`weights, this`connections, neurons, weights
      ensures ValidShortcut() && Graph() == old(Graph())
      ensures neurons == old(neurons) || fresh(neurons)
      ensures weights == old(weights) || fresh(weights)
      ensures connections == old(connections) || fresh(connections)
      ensures CandidatesFilled(neurons[..], totalNeurons, totalConnections, numOutput,
                               Kinds(activationFunctions, steepnesses, candidateGroups))
      ensures forall c :: totalNeurons < c <= totalNeurons + NumCandidates() ==> CandidateAt(c)
      ensures Drawn(weights[..], totalConnections + totalNeurons, totalConnections + totalNeurons * (NumCandidates() + 1),
                    if widrowNguyen > 8.0 then 8.0 else if widrowNguyen < 0.5 then 0.5 else widrowNguyen)
    {
      hide ShortcutLayout, ShortcutUnits, ShortcutRanges, CandidatesFilled, Kinds, Drawn;
      MakeRoom(totalNeurons + NumCandidates() + 1, totalConnections + totalNeurons * (NumCandidates() + 1));
      ghost var N, W := neurons[..], weights[..];
      LayoutFacts(layers, N, numInput, numOutput, totalNeurons, totalConnections);
      var scale := widrowNguyen;
      if scale > 8.0 { scale := 8.0; } else if scale < 0.5 { scale := 0.5; }
      FillCandidates(scale);
      assert neurons[..totalNeurons] == N[..totalNeurons];
      PrefixKeepsNetwork(layers, N, neurons[..], W, weights[..], numInput, numOutput, totalNeurons, totalConnections);
      CandidatePlaces(neurons[..], totalNeurons, totalConnections, numOutput,
                      Kinds(activationFunctions, steepnesses, candidateGroups), weights.Length);
    }

    /** Any training: weights, values and sums may become anything, the wiring may not change. */
    method Train()
      requires ValidShortcut()
      modifies neurons, weights
      ensures ValidShortcut() && SameShapes(old(neurons[..]), neurons[..])
      ensures forall c :: old(CandidateAt(c)) ==> CandidateAt(c)
    {
      hide ShortcutLayout;
      ghost var N := neurons[..];
      for i := 0 to weights.Length
        modifies weights
      {
        weights[i] := *;
      }
      for i := 0 to neurons.Length
        invariant SameShapes(N, neurons[..])
      {
        var value: real, sum: real := *, *;
        neurons[i] := neurons[i].(value := value, sum := sum);
      }
      ShapeKeepsLayout(layers, N, neurons[..], numInput, numOutput, totalNeurons, totalConnections);
      assert forall c :: 0 <= c < |N| ==> SameShape(N[c], neurons[c]);
    }

    /** fann_install_candidate: a new layer right before the output layer, holding the best candidate. */
    method InstallCandidate()
      requires ValidShortcut() && CandidateAt(bestCandidate)
      modifies this`layers, this`totalNeurons, this`totalConnections, neurons, weights
      ensures ValidShortcut()
      ensures totalNeurons == old(totalNeurons) + 1 && |layers| == old(|layers|) + 1
      ensures totalConnections == old(totalConnections + totalNeurons)
      ensures Graph() == Installed(old(Graph()), old(CandidateUnit(bestCandidate)),
                                   AddedWeights(old(CandidateOutWeights(bestCandidate)), weightMultiplier))
    {
      hide ShortcutLayout, ShortcutUnits, ShortcutUnit, ShortcutRanges, Installed, AddedWeights;
      LayoutFacts(layers, neurons[..], numInput, numOutput, totalNeurons, totalConnections);
      var pos := |layers| - 1;
      AddLayer(pos);
      AddCandidateNeuron(pos);
    }

    /** A candidate reads no output, so it can be spliced in front of them. */
    lemma {:induction false} CandidateFits(c: nat)
      requires ValidShortcut() && CandidateAt(c)
      ensures OutputsLast(Graph(), numInput, numOutput)
      ensures WellFormedUnit(CandidateUnit(c), totalNeurons - numOutput) && |CandidateOutWeights(c)| == numOutput
      ensures forall n :: totalNeurons - numOutput <= n < totalNeurons ==> |Graph()[n].weights| > 0
    {
      ShortcutGraph(layers, neurons[..], weights[..], numInput, numOutput, totalNeurons, totalConnections);
      LayersOrdered(layers, totalNeurons, 0, |layers| - 1);
      forall n | totalNeurons - numOutput <= n < totalNeurons ensures |Graph()[n].weights| > 0 {
        assert neurons[n].lastCon == neurons[n].firstCon + layers[|layers| - 1].first;
      }
    }

    /** Main result on cascade growth, for the network in memory: installing candidate `c` leaves the values of all
        neurons before the outputs as they are on every input, and adds to the sum of output `j` the multiplier times
        the candidate's outgoing weight for output O - 1 - j times the value of the new neuron; with a multiplier of
        zero the outputs are the same. */
    lemma {:induction false} InstallMeans(c: nat, multiplier: real, inputs: seq<real>, j: nat)
      requires ValidShortcut() && CandidateAt(c) && |inputs| == numInput && j < numOutput
      ensures var act := Squash(activate); var units := Graph(); var hidden := totalNeurons - numOutput;
              var added := AddedWeights(CandidateOutWeights(c), multiplier);
              var r := Installed(units, CandidateUnit(c), added);
              OutputsLast(units, numInput, numOutput) && OutputsLast(r, numInput, numOutput) &&
              Forward(act, r, inputs, |r|)[..hidden] == Forward(act, units, inputs, |units|)[..hidden] &&
              InputSum(act, r, inputs, hidden + j + 1) == InputSum(act, units, inputs, hidden + j) +
                Mult(Mult(CandidateOutWeights(c)[numOutput - 1 - j], multiplier), Forward(act, r, inputs, |r|)[hidden]) &&
              (multiplier == 0.0 ==>
                Forward(act, r, inputs, |r|)[hidden + j + 1] == Forward(act, units, inputs, |units|)[hidden + j])
    {
      hide ShortcutLayout, ShortcutUnits, ShortcutUnit, ShortcutRanges, Installed, Mult, Forward, InputSum;
      var act, hidden := Squash(activate), totalNeurons - numOutput;
      CandidateFits(c);
      var added := AddedWeights(CandidateOutWeights(c), multiplier);
      var r := Installed(Graph(), CandidateUnit(c), added);
      InstallKeepsMeaning(act, Graph(), inputs, CandidateUnit(c), added);
      var n := hidden + j;
      assert InputSum(act, r, inputs, n + 1) ==
             InputSum(act, Graph(), inputs, n) + Mult(added[n - hidden], Forward(act, r, inputs, |r|)[hidden]);
      assert added[j] == Mult(CandidateOutWeights(c)[numOutput - 1 - j], multiplier);
      if multiplier == 0.0 {
        ZeroMultiplierKeepsOutputs(act, Graph(), inputs, CandidateUnit(c), CandidateOutWeights(c),
                                   totalNeurons - numOutput + j);
      }
    }

    /** What neuron `u` makes of a sum. */
    function Activated(u: Neuron, sum: real): real { Squash(activate)(u.activation, u.steepness, sum) }

    lemma {:induction false} UnitOfNeuron(n: nat)
      requires ValidShortcut() && numInput < n < totalNeurons
      ensures n < neurons.Length
      ensures Graph()[n].activation == neurons[n].activation && Graph()[n].steepness == neurons[n].steepness
    {
      ShortcutRangesHold(layers, neurons[..], weights[..], numInput, numOutput, totalNeurons, totalConnections);
    }

    /** An output is the activation of this sum before, and of a sum with one more term after. */
    ghost predicate OutputGrew(u: Neuron, sum: real, outWeight: real, multiplier: real, value: real, before: real, after: real)
    {
      before == Activated(u, sum) && after == Activated(u, sum + Mult(Mult(outWeight, multiplier), value)) &&
      (multiplier == 0.0 ==> after == before)
    }

    ghost predicate OutputsGrew(outputs: seq<Neuron>, sums: seq<real>, outWeights: seq<real>, multiplier: real, value: real,
                                before: seq<real>, after: seq<real>)
    {
      |outputs| == |sums| == |outWeights| == |before| == |after| &&
      forall j :: 0 <= j < |outputs| ==>
        OutputGrew(outputs[j], sums[j], outWeights[|outputs| - 1 - j], multiplier, value, before[j], after[j])
    }

    /** What the two graphs make of output `j`. */
    lemma {:induction false} InstallMeansOutput(c: nat, multiplier: real, inputs: seq<real>, j: nat)
      requires ValidShortcut() && CandidateAt(c) && |inputs| == numInput && j < numOutput
      requires OutputsLast(Graph(), numInput, numOutput) && totalNeurons <= neurons.Length
      requires OutputsLast(Grown(c, multiplier), numInput, numOutput)
      ensures var act := Squash(activate); var hidden := totalNeurons - numOutput;
              var after := Forward(act, Grown(c, multiplier), inputs, totalNeurons + 1);
              OutputGrew(neurons[hidden + j], OutputSums(act, Graph(), inputs, numOutput)[j],
                         CandidateOutWeights(c)[numOutput - 1 - j], multiplier, after[hidden],
                         Forward(act, Graph(), inputs, totalNeurons)[hidden + j], after[hidden + 1 + j])
    {
      hide ShortcutLayout, ShortcutUnits, ShortcutUnit, ShortcutRanges, Mult, Forward, InputSum, Squash;
      var act, hidden := Squash(activate), totalNeurons - numOutput;
      LayoutFacts(layers, neurons[..], numInput, numOutput, totalNeurons, totalConnections);
      UnitOfNeuron(hidden + j);
      CandidateFits(c);
      InstallMeans(c, multiplier, inputs, j);
      var added := AddedWeights(CandidateOutWeights(c), multiplier);
      assert Grown(c, multiplier)[hidden + j + 1] == Connected(Graph()[hidden + j], hidden, added[j]);
      ValueOfSum(act, Graph(), inputs, hidden + j);
      ValueOfSum(act, Grown(c, multiplier), inputs, hidden + j + 1);
    }

    /** The graph after candidate `c` has been installed. */
    ghost function Grown(c: nat, multiplier: real): (r: seq<Unit>)
      requires ValidShortcut() && CandidateAt(c) && numOutput <= totalNeurons
      reads this, neurons, weights
      ensures |r| == totalNeurons + 1
    {
      Installed(Graph(), CandidateUnit(c), AddedWeights(CandidateOutWeights(c), multiplier))
    }

    lemma {:induction false} InstallMeansOutputs(c: nat, multiplier: real, inputs: seq<real>)
      requires ValidShortcut() && CandidateAt(c) && |inputs| == numInput
      ensures OutputsLast(Graph(), numInput, numOutput) && numInput < totalNeurons - numOutput
      ensures totalNeurons <= neurons.Length && OutputsLast(Grown(c, multiplier), numInput, numOutput)
      ensures var act := Squash(activate); var hidden := totalNeurons - numOutput;
              var before, after := Forward(act, Graph(), inputs, totalNeurons), Forward(act, Grown(c, multiplier), inputs, totalNeurons + 1);
              after[..hidden] == before[..hidden] &&
              OutputsGrew(neurons[..totalNeurons][hidden..], OutputSums(act, Graph(), inputs, numOutput),
                          CandidateOutWeights(c), multiplier, after[hidden], before[hidden..], after[hidden + 1..])
    {
      hide ShortcutLayout, ShortcutUnits, ShortcutUnit, ShortcutRanges, Installed, AddedWeights, Forward, InputSum, Mult;
      hide Squash, OutputGrew, OutputSums, ValidShortcut, CandidateAt;
      InstalledOutputsLast(c, multiplier);
      var act, hidden := Squash(activate), totalNeurons - numOutput;
      var before := Forward(act, Graph(), inputs, totalNeurons);
      var after := Forward(act, Grown(c, multiplier), inputs, totalNeurons + 1);
      InstallMeans(c, multiplier, inputs, 0);
      var outputs, sums := neurons[..totalNeurons][hidden..], OutputSums(act, Graph(), inputs, numOutput);
      var w := CandidateOutWeights(c);
      forall j | 0 <= j < numOutput
        ensures OutputGrew(outputs[j], sums[j], w[numOutput - 1 - j], multiplier, after[hidden], before[hidden..][j],
                           after[hidden + 1..][j])
      {
        InstallMeansOutput(c, multiplier, inputs, j);
        assert outputs[j] == neurons[hidden + j];
      }
    }

    /** The sums that enter the outputs on an input. */
    ghost function Sums(input: seq<real>): (sums: seq<real>)
      requires ValidShortcut() && |input| == numInput
      reads this, neurons, weights
    {
      LayoutFacts(layers, neurons[..], numInput, numOutput, totalNeurons, totalConnections);
      ShortcutGraph(layers, neurons[..], weights[..], numInput, numOutput, totalNeurons, totalConnections);
      OutputSums(Squash(activate), Graph(), input, numOutput)
    }

    lemma {:induction false} InstalledOutputsLast(c: nat, multiplier: real)
      requires ValidShortcut() && CandidateAt(c)
      ensures 0 < numOutput && numInput < totalNeurons - numOutput && totalNeurons <= neurons.Length
      ensures OutputsLast(Graph(), numInput, numOutput) && |CandidateOutWeights(c)| == numOutput
      ensures OutputsLast(Grown(c, multiplier), numInput, numOutput)
    {
      hide ShortcutLayout, ShortcutUnits, ShortcutUnit, ShortcutRanges, Installed, AddedWeights;
      LayoutFacts(layers, neurons[..], numInput, numOutput, totalNeurons, totalConnections);
      CandidateFits(c);
      InstalledWellFormed(Graph(), numInput, CandidateUnit(c), AddedWeights(CandidateOutWeights(c), multiplier));
    }

    /** The connections from `place` on point at neurons `0 .. count`. */
    method PointFromZero(place: nat, count: nat)
      requires place + count <= connections.Length
      modifies connections
      ensures Pointed(old(connections[..]), connections[..], place, place + count)
    {
      for i := 0 to count
        invariant forall x :: place <= x < place + i ==> connections[x] == x - place
        invariant forall x :: 0 <= x < connections.Length && !(place <= x < place + i) ==> connections[x] == old(connections[x])
      {
        connections[place + i] := i;
      }
    }

    /** The values of the graph on an input. */
    ghost function ValuesOn(input: seq<real>): (values: seq<real>)
      requires ValidShortcut() && |input| == numInput
      reads this, neurons, weights
      ensures |values| == totalNeurons && 0 < numOutput < totalNeurons <= neurons.Length
    {
      LayoutFacts(layers, neurons[..], numInput, numOutput, totalNeurons, totalConnections);
      ShortcutGraph(layers, neurons[..], weights[..], numInput, numOutput, totalNeurons, totalConnections);
      Forward(Squash(activate), Graph(), input, totalNeurons)
    }

    /** fann_run on a shortcut network. */
    method RunShortcut(input: seq<real>) returns (output: seq<real>)
      requires ValidShortcut() && connectionRate >= 1.0 && networkType.ShortcutNetwork? && |input| == numInput
      modifies neurons
      ensures ValidShortcut() && Graph() == old(Graph()) && ValuesOn(input) == old(ValuesOn(input))
      ensures SameShapes(old(neurons[..]), neurons[..])
      ensures output == ValuesOn(input)[totalNeurons - numOutput..]
      ensures ValuesOf(neurons[..], totalNeurons) == ValuesOn(input)
    {
      hide ShortcutLayout, ValidShortcut, Runnable, RunGraph, Graph, ValuesOn, Forward, Squash, SameShapes, FeedForward, ValuesOf;
      ghost var N := neurons[..];
      RunMeans(input);
      output := Run(input);
      StillShortcut(N);
      RunMeans(input);
      ValuesAre(neurons[..], ValuesOn(input));
    }

    lemma {:induction false} StillShortcut(before: seq<Neuron>)
      requires ShortcutLayout(layers, before, numInput, numOutput, totalNeurons, totalConnections)
      requires SameShapes(before, neurons[..]) && totalConnections <= weights.Length <= connections.Length
      ensures ValidShortcut()
    {
      ShapeKeepsLayout(layers, before, neurons[..], numInput, numOutput, totalNeurons, totalConnections);
    }

    /** What a run of a shortcut network amounts to. */
    lemma {:induction false} RunMeans(input: seq<real>)
      requires ValidShortcut() && connectionRate >= 1.0 && networkType.ShortcutNetwork? && |input| == numInput
      ensures ShortcutLayout(layers, neurons[..], numInput, numOutput, totalNeurons, totalConnections)
      ensures totalConnections <= weights.Length <= connections.Length && totalNeurons <= neurons.Length
      ensures Runnable() && RunGraph() == Graph() && layers != [] && layers[|layers| - 1].first == totalNeurons - numOutput
      ensures Forward(Squash(activate), RunGraph(), input, totalNeurons) == ValuesOn(input)
      ensures ValuesOn(input)[totalNeurons - numOutput..totalNeurons] == ValuesOn(input)[totalNeurons - numOutput..]
    {
      hide ShortcutLayout, RunLayout, NetUnits, ShortcutUnits, ShortcutUnit, ShortcutRanges, Forward, Squash;
      LayoutFacts(layers, neurons[..], numInput, numOutput, totalNeurons, totalConnections);
      ShortcutRunnable();
    }

    /** Main result on cascade growth, as a user sees it who runs a network, installs the best candidate, and runs the
        network again on the same input: all neurons before the outputs have their old values, the sum behind output
        `j` has one more term, and with a multiplier of zero the same output comes out. */
    method RunInstallRun(input: seq<real>) returns (before: seq<real>, after: seq<real>)
      requires ValidShortcut() && CandidateAt(bestCandidate) && |input| == numInput
      requires connectionRate >= 1.0 && networkType.ShortcutNetwork?
      modifies this`layers, this`totalNeurons, this`totalConnections, neurons, weights
      ensures ValidShortcut() && totalNeurons == old(totalNeurons) + 1
      ensures var hidden, values, values' := old(totalNeurons) - numOutput, old(ValuesOn(input)), ValuesOf(neurons[..], totalNeurons);
              before == values[hidden..] && after == values'[hidden + 1..] && values'[..hidden] == values[..hidden] &&
              OutputsGrew(old(neurons[..totalNeurons])[hidden..], old(Sums(input)), old(CandidateOutWeights(bestCandidate)),
                          weightMultiplier, values'[hidden], before, after)
    {
      hide ShortcutLayout, ShortcutUnits, ShortcutUnit, ShortcutRanges, Installed, AddedWeights, Forward, Squash, OutputsGrew;
      hide SameShapes, ValuesOf;
      ghost var N, c := neurons[..], bestCandidate;
      ghost var candidate, outWeights := CandidateUnit(c), CandidateOutWeights(c);
      InstallMeansOutputs(c, weightMultiplier, input);
      before := RunShortcut(input);
      ShapesUnit(N, neurons[..], c, weights[..]);
      assert CandidateAt(c) && CandidateUnit(c) == candidate && CandidateOutWeights(c) == outWeights;
      InstallCandidate();
      after := RunShortcut(input);
    }

    /** fann_set_shortcut_connections: connection `i` of every neuron again points at neuron `i`. */
    method SetShortcutConnections()
      requires ValidShortcut()
      modifies connections
      ensures PointersContiguous(Shortcut, layers, neurons[..], connections[..], totalNeurons)
    {
      hide ShortcutLayout, PointersContiguous, PointersSet, Pointed, RangesAscend;
      ghost var N := neurons[..];
      LayoutFacts(layers, N, numInput, numOutput, totalNeurons, totalConnections);
      LayoutAscends(layers, N, numInput, numOutput, totalNeurons, totalConnections);
      FirstRange(layers, N, numInput, numOutput, totalNeurons, totalConnections);
      PointersNoneSet(N, connections[..], numInput);
      var place: nat := 0;
      var numConnections: nat := 0;
      for k := 1 to |layers|
        invariant layers[k - 1].last <= totalNeurons
        invariant PointersSet(N, connections[..], numInput, layers[k - 1].last)
        invariant place + numConnections == NextRange(N, numInput, layers[k - 1].last)
      {
        LayerEnds(layers, N, numInput, numOutput, totalNeurons, totalConnections, k);
        for n := layers[k].first to layers[k].last
          invariant PointersSet(N, connections[..], numInput, n)
          invariant place + numConnections == NextRange(N, numInput, n)
        {
          place := place + numConnections;
          numConnections := neurons[n].lastCon - neurons[n].firstCon;
          TightRange(layers, N, numInput, numOutput, totalNeurons, totalConnections, n);
          ghost var before := connections[..];
          PointFromZero(place, numConnections);
          PointersSetStep(N, before, connections[..], numInput, totalNeurons, totalConnections, n);
        }
      }
      PointersAllSet(layers, N, connections[..], numInput, numOutput, totalNeurons, totalConnections);
    }

    /** One round: candidates are set up and trained, and one of them is installed. */
    method CascadeRound()
      requires ValidShortcut() && NumCandidates() > 0
      modifies this`neurons, this`weights, this`connections, this`layers, this`totalNeurons, this`totalConnections,
               this`bestCandidate, neurons, weights
      ensures ValidShortcut()
      ensures totalNeurons == old(totalNeurons) + 1 && |layers| == old(|layers|) + 1
      ensures neurons == old(neurons) || fresh(neurons)
      ensures weights == old(weights) || fresh(weights)
      ensures connections == old(connections) || fresh(connections)
    {
      hide ShortcutLayout, CandidatesFilled, Installed, AddedWeights, ShortcutUnits, ShortcutUnit, ShortcutRanges;
      var power: real := *;
      InitializeCandidates(power);
      Train();
      assert CandidateAt(totalNeurons + 1);
      assert totalNeurons < totalNeurons + 1 <= totalNeurons + NumCandidates();
      var best: nat :| totalNeurons < best <= totalNeurons + NumCandidates();
      assert CandidateAt(best);
      bestCandidate := best;
      InstallCandidate();
    }

    /** fann_cascadetrain_on_data: any number of rounds of training, candidate set-up, training again
        and installation of any one candidate, with an early exit at any round. */
    method CascadeTrain(maxNeurons: nat) returns (installed: nat)
      requires ValidShortcut() && NumCandidates() > 0
      modifies this, neurons, weights, connections
      ensures ValidShortcut() && installed <= maxNeurons
      ensures numInput == old(numInput) && numOutput == old(numOutput)
      ensures totalNeurons == old(totalNeurons) + installed && |layers| == old(|layers|) + installed
      ensures PointersContiguous(Shortcut, layers, neurons[..], connections[..], totalNeurons)
    {
      hide ShortcutLayout, PointersContiguous, CandidatesFilled, Installed, AddedWeights;
      installed := 0;
      while installed < maxNeurons
        invariant ValidShortcut() && NumCandidates() > 0 && installed <= maxNeurons
        invariant numInput == old(numInput) && numOutput == old(numOutput)
        invariant totalNeurons == old(totalNeurons) + installed && |layers| == old(|layers|) + installed
        invariant neurons == old(neurons) || fresh(neurons)
        invariant weights == old(weights) || fresh(weights)
        invariant connections == old(connections) || fresh(connections)
      {
        Train();
        var stop: bool := *;
        if stop { break; }
        CascadeRound();
        installed := installed + 1;
      }
      Train();
      SetShortcutConnections();
    }

    // ---- Gradient training ----

    /** The derivative of every activation at the current sums. */
    ghost function Slopes(): (r: seq<real>)
      requires Runnable()
      reads this, neurons, connections
      ensures |r| == totalNeurons
    {
      SlopesOf(derive, neurons[..], totalNeurons)
    }

    ghost function OutputStart(): nat
      requires Runnable()
      reads this, neurons, connections
    {
      layers[|layers| - 1].first
    }

    /** What each neuron contributes of the output error. */
    ghost function Shares(desired: seq<real>): (r: seq<real>)
      requires Runnable() && |desired| == numOutput
      reads this, neurons, connections
      ensures |r| == totalNeurons
    {
      SharesOf(useErrorFunction, log, neurons[..], OutputStart(), totalNeurons, desired)
    }

    /** Each output has its share of the error, and no other neuron has one. */
    ghost predicate SharesMean(desired: seq<real>)
      requires Runnable() && |desired| == numOutput
      reads this, neurons, connections
    {
      forall n :: 0 <= n < totalNeurons && n < neurons.Length ==>
        if OutputStart() <= n < OutputStart() + numOutput
        then IsShare(neurons[n], desired[n - OutputStart()], useErrorFunction, log, Shares(desired)[n])
        else Shares(desired)[n] == 0.0
    }

    lemma {:induction false} SharesHaveMeaning(desired: seq<real>)
      requires Runnable() && |desired| == numOutput
      ensures SharesMean(desired)
    {
      hide RunLayout, IsShare, Stretch, Halved;
      forall n | OutputStart() <= n < OutputStart() + numOutput && n < neurons.Length && n < totalNeurons
        ensures IsShare(neurons[n], desired[n - OutputStart()], useErrorFunction, log, Shares(desired)[n])
      {
        StretchIsShare(neurons[n], desired[n - OutputStart()], useErrorFunction, log);
      }
    }

    /** Each output's share points from its value to its target. */
    ghost predicate SharesPoint(desired: seq<real>)
      requires Runnable() && |desired| == numOutput
      reads this, neurons, connections
    {
      forall n :: OutputStart() <= n < OutputStart() + numOutput && n < neurons.Length ==>
        SameSign(Shares(desired)[n], desired[n - OutputStart()] - neurons[n].value)
    }

    lemma {:induction false} SharesPointToTarget(desired: seq<real>)
      requires Runnable() && |desired| == numOutput && SharesMean(desired) && (useErrorFunction ==> Increasing(log))
      ensures SharesPoint(desired)
    {
      hide RunLayout, IsShare, SameSign, SharesOf, Increasing;
      forall n | OutputStart() <= n < OutputStart() + numOutput && n < neurons.Length
        ensures SameSign(Shares(desired)[n], desired[n - OutputStart()] - neurons[n].value)
      {
        ShareSign(neurons[n], desired[n - OutputStart()], useErrorFunction, log, Shares(desired)[n]);
      }
    }

    /** The error of an output: its share times the derivative of its activation function. */
    ghost predicate ErrorOf(u: Neuron, desired: real, error: real)
      reads this`useErrorFunction
    {
      exists t: real {:trigger IsShare(u, desired, useErrorFunction, log, t)} ::
        IsShare(u, desired, useErrorFunction, log, t) &&
        error == Mult(derive(u.activation, u.steepness, u.value, u.sum), t)
    }

    ghost predicate ErrorsMean(desired: seq<real>, errors: seq<real>)
      requires Runnable() && |desired| == numOutput
      reads this, neurons, connections
    {
      |errors| == totalNeurons <= neurons.Length &&
      forall n :: 0 <= n < totalNeurons ==>
        if OutputStart() <= n < OutputStart() + numOutput
        then ErrorOf(neurons[n], desired[n - OutputStart()], errors[n]) else errors[n] == 0.0
    }

    lemma {:induction false} GivenMean(desired: seq<real>)
      requires Runnable() && |desired| == numOutput
      ensures ErrorsMean(desired, GivenErrors(SlopesOf(derive, neurons[..], totalNeurons),
                SharesOf(useErrorFunction, log, neurons[..], OutputStart(), totalNeurons, desired)))
    {
      hide RunLayout, Stretch, Mult, GivenErrors, SlopesOf, SharesOf, IsShare, Halved;
      RunEnds(WiringUsed(), layers, neurons[..], connections[..], numInput, totalNeurons, weights.Length);
      var errors := GivenErrors(SlopesOf(derive, neurons[..], totalNeurons),
                                SharesOf(useErrorFunction, log, neurons[..], OutputStart(), totalNeurons, desired));
      forall n | 0 <= n < totalNeurons
        ensures if OutputStart() <= n < OutputStart() + numOutput
                then ErrorOf(neurons[n], desired[n - OutputStart()], errors[n]) else errors[n] == 0.0
      {
        GivenAt(derive, useErrorFunction, log, neurons[..], OutputStart(), totalNeurons, desired, n);
        if OutputStart() <= n < OutputStart() + numOutput {
          StretchIsShare(neurons[n], desired[n - OutputStart()], useErrorFunction, log);
        }
      }
    }

    ghost predicate ErrorsReady()
      requires Runnable()
      reads this, neurons, connections
    {
      trainErrors != null && trainErrors.Length >= totalNeurons && trainErrors != weights
    }

    /** fann_update_MSE: adds a difference to the running error statistics. */
    method UpdateMSE(u: Neuron, difference: real) returns (halved: real)
      modifies this`mseValue, this`numBitFail
      ensures halved == Halved(u, difference)
      ensures mseValue == old(mseValue) + Mult(halved, halved)
      ensures numBitFail == old(numBitFail) + if halved >= bitFailLimit || -halved >= bitFailLimit then 1 else 0
    {
      halved := Halved(u, difference);
      mseValue := mseValue + Mult(halved, halved);
      if Abs(halved) >= bitFailLimit { numBitFail := numBitFail + 1; }
    }

    /** fann_compute_MSE: clears the errors and sets those of the output layer. */
    method ComputeMSE(desired: seq<real>)
      requires Runnable() && |desired| == numOutput
      requires trainErrors != null ==> ErrorsReady()
      modifies this`trainErrors, this`mseValue, this`numMSE, this`numBitFail, trainErrors
      ensures Runnable() && ErrorsReady() && (trainErrors == old(trainErrors) || fresh(trainErrors))
      ensures trainErrors[..totalNeurons] == GivenErrors(SlopesOf(derive, neurons[..], totalNeurons),
                SharesOf(useErrorFunction, log, neurons[..], OutputStart(), totalNeurons, desired))
      ensures ErrorsMean(desired, trainErrors[..totalNeurons])
      ensures numMSE == old(numMSE) + numOutput
      ensures mseValue == old(mseValue) + SquaredError(neurons[..], OutputStart(), desired, numOutput)
      ensures numBitFail == old(numBitFail) + |BitFails(neurons[..], OutputStart(), desired, bitFailLimit, numOutput)|
    {
      hide RunLayout, GivenErrors, SlopesOf, SharesOf, SquaredError, BitFails, ErrorsMean;
      ghost var N := neurons[..];
      RunEnds(WiringUsed(), layers, N, connections[..], numInput, totalNeurons, weights.Length);
      if trainErrors == null {
        trainErrors := new real[totalNeurons](_ => 0.0);
      } else {
        for i := 0 to totalNeurons
          modifies trainErrors
          invariant forall n :: 0 <= n < i ==> trainErrors[n] == 0.0
        {
          trainErrors[i] := 0.0;
        }
      }
      SetOutputErrors(layers[|layers| - 1].first, desired);
      GivenMean(desired);
    }

    /** The errors of the output layer, one output after the other. */
    method SetOutputErrors(first: nat, desired: seq<real>)
      requires trainErrors != null && totalNeurons <= trainErrors.Length && totalNeurons <= neurons.Length
      requires first + numOutput <= totalNeurons && |desired| == numOutput
      requires forall n :: 0 <= n < totalNeurons ==> trainErrors[n] == 0.0
      modifies trainErrors, this`mseValue, this`numMSE, this`numBitFail
      ensures trainErrors[..totalNeurons] == GivenErrors(SlopesOf(derive, neurons[..], totalNeurons),
                SharesOf(useErrorFunction, log, neurons[..], first, totalNeurons, desired))
      ensures numMSE == old(numMSE) + numOutput
      ensures mseValue == old(mseValue) + SquaredError(neurons[..], first, desired, numOutput)
      ensures numBitFail == old(numBitFail) + |BitFails(neurons[..], first, desired, bitFailLimit, numOutput)|
    {
      hide Stretch, Mult, Halved, Distance, FarOff, BitFails, SquaredError, SlopesOf, SharesOf, GivenErrors;
      ghost var N := neurons[..];
      ghost var given := GivenErrors(SlopesOf(derive, N, totalNeurons),
                                     SharesOf(useErrorFunction, log, N, first, totalNeurons, desired));
      forall n | 0 <= n < totalNeurons && !(first <= n < first + numOutput) ensures given[n] == 0.0 {
        GivenAt(derive, useErrorFunction, log, N, first, totalNeurons, desired, n);
      }
      NothingCounted(N, first, desired, bitFailLimit);
      for i := 0 to numOutput
        invariant forall n :: 0 <= n < totalNeurons && !(first + i <= n < first + numOutput) ==> trainErrors[n] == given[n]
        invariant numMSE == old(numMSE) + i
        invariant mseValue == old(mseValue) + SquaredError(N, first, desired, i)
        invariant numBitFail == old(numBitFail) + |BitFails(N, first, desired, bitFailLimit, i)|
      {
        BitFailsStep(N, first, desired, bitFailLimit, i);
        SquaredErrorStep(N, first, desired, i);
        GivenAt(derive, useErrorFunction, log, N, first, totalNeurons, desired, first + i);
        SetOutputError(first + i, desired[i]);
      }
    }

    /** One turn of the loop over the outputs. */
    method SetOutputError(n: nat, desired: real)
      requires trainErrors != null && n < trainErrors.Length && n < neurons.Length
      modifies trainErrors, this`mseValue, this`numMSE, this`numBitFail
      ensures var u := neurons[n]; var d := Distance(u, desired);
              trainErrors[n] == Mult(derive(u.activation, u.steepness, u.value, u.sum),
                                     Stretch(useErrorFunction, log, Halved(u, desired - u.value))) &&
              mseValue == old(mseValue) + Mult(d, d) &&
              numBitFail == old(numBitFail) + if FarOff(u, desired, bitFailLimit) then 1 else 0
      ensures forall m :: 0 <= m < trainErrors.Length && m != n ==> trainErrors[m] == old(trainErrors[m])
      ensures numMSE == old(numMSE) + 1
    {
      hide Stretch, Mult, Halved, Distance, IsShare;
      var u := neurons[n];
      StretchIsShare(u, desired, useErrorFunction, log);
      var difference := UpdateMSE(u, desired - u.value);
      difference := Stretch(useErrorFunction, log, difference);
      trainErrors[n] := Mult(derive(u.activation, u.steepness, u.value, u.sum), difference);
      numMSE := numMSE + 1;
    }

    /** What the arrays say about the connections of neuron `n` in layer `k`. */
    lemma {:induction false} UnitFacts(k: nat, n: nat)
      requires Runnable() && 0 < k < |layers| && layers[k].first <= n < layers[k].last
      ensures n < totalNeurons <= neurons.Length && layers[k].first <= totalNeurons
      ensures neurons[n].firstCon <= neurons[n].lastCon <= weights.Length
      ensures WellFormedUnit(RunGraph()[n], layers[k].first)
      ensures RunGraph()[n].weights == weights[neurons[n].firstCon..neurons[n].lastCon]
    {
      hide RunLayout, NetUnits;
      NetUnitsAt(WiringUsed(), layers, neurons[..], connections[..], numInput, totalNeurons, weights[..], k, n);
      RunFacts(WiringUsed(), layers, neurons[..], connections[..], numInput, totalNeurons, weights.Length, k);
    }

    /** The neuron that connection `i` of neuron `n` in layer `k` reads: at a fixed distance from the start
        of the earlier layers at full connection rate, looked up otherwise. */
    method Source(k: nat, n: nat, i: nat) returns (source: nat)
      requires Runnable() && 0 < k < |layers| && layers[k].first <= n < layers[k].last && n < totalNeurons
      requires i < |RunGraph()[n].sources|
      ensures source == RunGraph()[n].sources[i]
    {
      hide RunLayout, NetUnits;
      NetUnitsAt(WiringUsed(), layers, neurons[..], connections[..], numInput, totalNeurons, weights[..], k, n);
      RunFacts(WiringUsed(), layers, neurons[..], connections[..], numInput, totalNeurons, weights.Length, k);
      if connectionRate >= 1.0 {
        var base := if networkType.LayerNetwork? then layers[k - 1].first else 0;
        ContiguousSources(WiringUsed(), layers, connections[..], k, neurons[n], weights[..], base);
        source := base + i;
      } else {
        LookedSources(layers, connections[..], k, neurons[n], weights[..]);
        source := connections[neurons[n].firstCon + i];
      }
    }

    /** Sends the error of neuron `n` in layer `k` back along its connections, last connection first. */
    method SendBack(k: nat, n: nat, ghost u: Unit)
      requires Runnable() && ErrorsReady() && 0 < k < |layers| && layers[k].first <= n < layers[k].last
      requires n < totalNeurons && u == RunGraph()[n]
      modifies trainErrors
      ensures SentOnce(old(trainErrors[..totalNeurons]), trainErrors[..totalNeurons], u, old(trainErrors[n]))
    {
      hide RunLayout, NetUnits, Mult, SentFrom, SentOnce, FeedForward;
      UnitFacts(k, n);
      var error := trainErrors[n];
      ghost var before := trainErrors[..totalNeurons];
      var i: nat := neurons[n].lastCon - neurons[n].firstCon;
      SentNone(before, u, error);
      while i > 0
        invariant i <= |u.weights|
        invariant SentFrom(before, trainErrors[..totalNeurons], u, error, i)
      {
        i := i - 1;
        var source := Source(k, n, i);
        SentOneMore(before, trainErrors[..totalNeurons], u, error, i);
        trainErrors[source] := trainErrors[source] + Mult(error, weights[neurons[n].firstCon + i]);
      }
      SentAll(before, trainErrors[..totalNeurons], u, error);
    }

    /** Multiplies the errors of one layer by the slopes of their neurons. */
    method ApplySlopes(first: nat, last: nat)
      requires trainErrors != null && first <= last <= totalNeurons <= trainErrors.Length && totalNeurons <= neurons.Length
      modifies trainErrors
      ensures forall n :: first <= n < last ==>
                trainErrors[n] == Mult(old(trainErrors[n]), SlopesOf(derive, neurons[..], totalNeurons)[n])
      ensures forall n :: 0 <= n < trainErrors.Length && !(first <= n < last) ==> trainErrors[n] == old(trainErrors[n])
    {
      hide Mult;
      for n := first to last
        invariant forall m :: first <= m < n ==>
                    trainErrors[m] == Mult(old(trainErrors[m]), SlopesOf(derive, neurons[..], totalNeurons)[m])
        invariant forall m :: 0 <= m < trainErrors.Length && !(first <= m < n) ==> trainErrors[m] == old(trainErrors[m])
      {
        var u := neurons[n];
        trainErrors[n] := Mult(trainErrors[n], derive(u.activation, u.steepness, u.value, u.sum));
      }
    }

    /** All neurons of layer `k` send their errors back. */
    method SendBackLayer(k: nat, ghost units: seq<Unit>, ghost slopes: seq<real>, ghost last: nat, ghost given: seq<real>)
      requires Runnable() && ErrorsReady() && 0 < k < |layers| && units == RunGraph()
      requires layers[k].first <= layers[k].last <= totalNeurons
      requires Sending(units, numInput, slopes, last, given, trainErrors[..totalNeurons],
                       layers[k].first, layers[k].first, layers[k].last)
      modifies trainErrors
      ensures Sending(units, numInput, slopes, last, given, trainErrors[..totalNeurons],
                      layers[k].first, layers[k].last, layers[k].last)
    {
      hide Runnable, RunGraph, Mult, Sending, SentOnce, FeedForward;
      for n := layers[k].first to layers[k].last
        invariant Sending(units, numInput, slopes, last, given, trainErrors[..totalNeurons],
                          layers[k].first, n, layers[k].last)
      {
        UnitFacts(k, n);
        ghost var before := trainErrors[..totalNeurons];
        SendBack(k, n, units[n]);
        SendingStep(units, numInput, slopes, last, given, before, trainErrors[..totalNeurons],
                    layers[k].first, n, layers[k].last);
      }
    }

    /** fann_backpropagate_MSE: from the errors of the output layer, in place, to the errors of all
        neurons behind the input layer. */
    method BackpropagateMSE()
      requires Runnable() && ErrorsReady()
      requires forall n :: 0 <= n < OutputStart() && n < totalNeurons ==> trainErrors[n] == 0.0
      modifies trainErrors
      ensures Runnable()
      ensures Backpropagated(RunGraph(), numInput, Slopes(), OutputStart(),
                             old(trainErrors[..totalNeurons]), trainErrors[..totalNeurons])
    {
      hide RunLayout, NetUnits, Mult, Sending, Backpropagated, SentOnce, FeedForward;
      ghost var units, slopes, given := RunGraph(), Slopes(), trainErrors[..totalNeurons];
      ghost var N, W, P, wiring := neurons[..], weights[..], connections[..], WiringUsed();
      RunEnds(wiring, layers, N, P, numInput, totalNeurons, weights.Length);
      RunFacts(wiring, layers, N, P, numInput, totalNeurons, weights.Length, |layers| - 1);
      ghost var last := layers[|layers| - 1].first;
      SendingStart(units, numInput, slopes, last, given);
      var k := |layers| - 1;
      while k > 1
        invariant 1 <= k < |layers|
        invariant numInput < layers[k].first <= layers[k].last <= totalNeurons
        invariant Sending(units, numInput, slopes, last, given, trainErrors[..totalNeurons],
                          layers[k].first, layers[k].first, layers[k].last)
      {
        SendBackLayer(k, units, slopes, last, given);
        RunFacts(wiring, layers, N, P, numInput, totalNeurons, weights.Length, k);
        RunFacts(wiring, layers, N, P, numInput, totalNeurons, weights.Length, k - 1);
        LayerReadsEarlier(wiring, layers, N, P, numInput, totalNeurons, W, k - 1);
        ghost var before := trainErrors[..totalNeurons];
        ApplySlopes(layers[k - 1].first, layers[k - 1].last);
        SendingNextLayer(units, numInput, slopes, last, given, before, trainErrors[..totalNeurons],
                         layers[k - 1].first, layers[k].first, layers[k].last);
        k := k - 1;
      }
      RunFacts(wiring, layers, N, P, numInput, totalNeurons, weights.Length, 1);
      SendingDone(units, numInput, slopes, last, given, trainErrors[..totalNeurons], layers[1].first, layers[1].last);
    }

    /** The neurons behind the input layer own disjoint, ascending ranges of weights. */
    ghost predicate OwnWeights()
      reads this, neurons
    {
      numInput + 1 <= totalNeurons <= neurons.Length && RangesAscend(neurons[..], numInput + 1, totalNeurons, weights.Length)
    }

    lemma {:induction false} ShortcutOwnsWeights()
      requires ValidShortcut()
      ensures OwnWeights()
    {
      LayoutAscends(layers, neurons[..], numInput, numOutput, totalNeurons, totalConnections);
    }

    ghost predicate SlopesReady()
      reads this
    {
      trainSlopes != null && trainSlopes.Length == weights.Length && trainSlopes != weights && trainSlopes != trainErrors
    }

    /** Adds the error of one neuron times the values it reads to the slopes of its connections. */
    method GrowSlopes(k: nat, n: nat, ghost u: Unit)
      requires Runnable() && ErrorsReady() && SlopesReady() && 0 < k < |layers| && layers[k].first <= n < layers[k].last
      requires n < totalNeurons && u == RunGraph()[n]
      modifies trainSlopes
      ensures n < totalNeurons <= neurons.Length && WellFormedUnit(u, totalNeurons)
      ensures |u.sources| == neurons[n].lastCon - neurons[n].firstCon && neurons[n].lastCon <= trainSlopes.Length
      ensures forall i :: 0 <= i < |u.sources| ==>
                trainSlopes[neurons[n].firstCon + i] ==
                old(trainSlopes[neurons[n].firstCon + i]) + Mult(trainErrors[n], ValuesOf(neurons[..], totalNeurons)[u.sources[i]])
      ensures forall x :: 0 <= x < trainSlopes.Length && !(neurons[n].firstCon <= x < neurons[n].lastCon) ==>
                trainSlopes[x] == old(trainSlopes[x])
    {
      hide RunLayout, NetUnits, Mult, FeedForward;
      UnitFacts(k, n);
      var error := trainErrors[n];
      var firstCon := neurons[n].firstCon;
      var count := neurons[n].lastCon - firstCon;
      ghost var values, before := ValuesOf(neurons[..], totalNeurons), trainSlopes[..];
      for i := 0 to count
        invariant forall j :: 0 <= j < i ==> trainSlopes[firstCon + j] == before[firstCon + j] + Mult(error, values[u.sources[j]])
        invariant forall x :: 0 <= x < trainSlopes.Length && !(firstCon <= x < firstCon + i) ==>
                    trainSlopes[x] == before[x]
      {
        var source := Source(k, n, i);
        assert values[source] == neurons[source].value;
        trainSlopes[firstCon + i] := trainSlopes[firstCon + i] + Mult(error, neurons[source].value);
      }
    }

    /** fann_update_slopes_batch over layers `begin .. end`, both included. */
    method UpdateSlopesBatch(begin: nat, end: nat)
      requires Runnable() && ErrorsReady() && OwnWeights() && 0 < begin <= end < |layers|
      requires trainSlopes != null ==> SlopesReady()
      modifies this`trainSlopes, trainSlopes
      ensures Runnable() && ErrorsReady() && SlopesReady() && (trainSlopes == old(trainSlopes) || fresh(trainSlopes))
      ensures SlopesGrown(RunGraph(), neurons[..], ValuesOf(neurons[..], totalNeurons), trainErrors[..totalNeurons],
                          if old(trainSlopes) == null then seq(weights.Length, _ => 0.0) else old(trainSlopes[..]),
                          trainSlopes[..], layers[begin].first, layers[end].last)
    {
      hide RunLayout, NetUnits, Mult, SlopesGrown, RangesAscend;
      if trainSlopes == null {
        trainSlopes := new real[weights.Length](_ => 0.0);
        assert trainSlopes[..] == seq(weights.Length, _ => 0.0);
      }
      AddSlopes(begin, end);
    }

    method AddSlopes(begin: nat, end: nat)
      requires Runnable() && ErrorsReady() && OwnWeights() && SlopesReady() && 0 < begin <= end < |layers|
      modifies trainSlopes
      ensures SlopesGrown(RunGraph(), neurons[..], ValuesOf(neurons[..], totalNeurons), trainErrors[..totalNeurons],
                          old(trainSlopes[..]), trainSlopes[..], layers[begin].first, layers[end].last)
    {
      hide RunLayout, NetUnits, Mult, SlopesGrown, RangesAscend;
      ghost var units, N, before := RunGraph(), neurons[..], trainSlopes[..];
      ghost var values, errors, lo := ValuesOf(neurons[..], totalNeurons), trainErrors[..totalNeurons], layers[begin].first;
      RunFacts(WiringUsed(), layers, N, connections[..], numInput, totalNeurons, weights.Length, begin);
      NoSlopesGrown(units, N, values, errors, before, lo);
      for k := begin to end + 1
        invariant numInput < lo <= layers[k - 1].last <= totalNeurons || k == begin
        invariant SlopesGrown(units, N, values, errors, before, trainSlopes[..], lo, if k == begin then lo else layers[k - 1].last)
      {
        RunFacts(WiringUsed(), layers, N, connections[..], numInput, totalNeurons, weights.Length, k);
        for n := layers[k].first to layers[k].last
          invariant SlopesGrown(units, N, values, errors, before, trainSlopes[..], lo, n)
        {
          ghost var now := trainSlopes[..];
          GrowSlopes(k, n, units[n]);
          OwnedCounts(WiringUsed(), layers, N, connections[..], numInput, totalNeurons, weights[..]);
          AscendFrom(N, numInput + 1, lo, totalNeurons, weights.Length);
          OneMoreGrown(units, N, values, errors, before, now, trainSlopes[..], lo, n, weights.Length);
        }
      }
    }

    /** The errors of all neurons for the current values: compare, then backpropagate. */
    method ComputeErrors(desired: seq<real>)
      requires Runnable() && |desired| == numOutput
      requires trainErrors != null ==> ErrorsReady()
      modifies this`trainErrors, this`mseValue, this`numMSE, this`numBitFail, trainErrors
      ensures Runnable() && RunGraph() == old(RunGraph())
      ensures ErrorsReady() && (trainErrors == old(trainErrors) || fresh(trainErrors))
      ensures Backpropagated(RunGraph(), numInput, Slopes(), OutputStart(),
                             GivenErrors(Slopes(), Shares(desired)), trainErrors[..totalNeurons])
    {
      hide RunLayout, NetUnits, Mult, Backpropagated, SharesOf, SlopesOf, GivenErrors, FeedForward, ErrorsMean, SquaredError, BitFails;
      ComputeMSE(desired);
      GivenZero(Slopes(), Shares(desired), OutputStart());
      BackpropagateMSE();
    }

    /** One training sample of a batch epoch: run, compare, backpropagate, accumulate. Each connection's slope
        grows by the sum over the outputs of the output's share of the error times the chain-rule
        derivative of that output in the connection's weight. With an increasing logarithm the shares point from the
        values to the targets, and so does the growth where there is one output. */
    method AccumulateGradient(input: seq<real>, desired: seq<real>)
      requires Runnable() && OwnWeights() && |input| == numInput && |desired| == numOutput
      requires trainErrors != null ==> ErrorsReady()
      requires trainSlopes != null ==> SlopesReady()
      modifies this`trainErrors, this`trainSlopes, this`mseValue, this`numMSE, this`numBitFail, neurons, trainErrors, trainSlopes
      ensures Runnable() && RunGraph() == old(RunGraph()) && ErrorsReady() && SlopesReady()
      ensures RanBetween(activate, neurons[..], RunGraph(), ValuesOf(neurons[..], totalNeurons), numInput + 1, totalNeurons)
      ensures ValuesOf(neurons[..], totalNeurons) == Forward(Squash(activate), RunGraph(), input, totalNeurons)
      ensures GrownByGradient(RunGraph(), numInput, neurons[..], ValuesOf(neurons[..], totalNeurons), Slopes(), Shares(desired),
                              if old(trainSlopes) == null then seq(weights.Length, _ => 0.0) else old(trainSlopes[..]),
                              trainSlopes[..])
      ensures SharesMean(desired) && ((useErrorFunction ==> Increasing(log)) ==> SharesPoint(desired))
      ensures (useErrorFunction ==> Increasing(log)) && numOutput == 1 ==>
        GrownTowards(RunGraph(), numInput, neurons[..], ValuesOf(neurons[..], totalNeurons), Slopes(),
                     if old(trainSlopes) == null then seq(weights.Length, _ => 0.0) else old(trainSlopes[..]),
                     trainSlopes[..], OutputStart(), desired[0] - neurons[OutputStart()].value)
    {
      hide Runnable, RunGraph, OwnWeights, Slopes, Shares, ValuesOf, GrownByGradient, GrownTowards, SharesMean, SharesPoint, Increasing;
      hide Forward, Squash, RanBetween;
      RunSample(input);
      AddGradient(desired);
    }

    /** The run of a training sample. */
    method RunSample(input: seq<real>)
      requires Runnable() && OwnWeights() && |input| == numInput
      modifies neurons
      ensures Runnable() && OwnWeights() && RunGraph() == old(RunGraph())
      ensures RanBetween(activate, neurons[..], RunGraph(), ValuesOf(neurons[..], totalNeurons), numInput + 1, totalNeurons)
      ensures ValuesOf(neurons[..], totalNeurons) == Forward(Squash(activate), RunGraph(), input, totalNeurons)
    {
      hide RunLayout, NetUnits, RangesAscend, Forward, FeedForward, SameShapes, Squash, RanBetween;
      ghost var N := neurons[..];
      var output := Run(input);
      ShapesAscend(N, neurons[..], numInput + 1, totalNeurons, weights.Length);
      ValuesAre(neurons[..], Forward(Squash(activate), RunGraph(), input, totalNeurons));
    }

    /** The other steps of a training sample: the slopes grow by the gradient at the values of the last run. */
    method AddGradient(desired: seq<real>)
      requires Runnable() && OwnWeights() && |desired| == numOutput
      requires trainErrors != null ==> ErrorsReady()
      requires trainSlopes != null ==> SlopesReady()
      modifies this`trainErrors, this`trainSlopes, this`mseValue, this`numMSE, this`numBitFail, trainErrors, trainSlopes
      ensures Runnable() && RunGraph() == old(RunGraph()) && ErrorsReady() && SlopesReady()
      ensures GrownByGradient(RunGraph(), numInput, neurons[..], ValuesOf(neurons[..], totalNeurons), Slopes(), Shares(desired),
                              if old(trainSlopes) == null then seq(weights.Length, _ => 0.0) else old(trainSlopes[..]),
                              trainSlopes[..])
      ensures SharesMean(desired) && ((useErrorFunction ==> Increasing(log)) ==> SharesPoint(desired))
      ensures (useErrorFunction ==> Increasing(log)) && numOutput == 1 ==>
        GrownTowards(RunGraph(), numInput, neurons[..], ValuesOf(neurons[..], totalNeurons), Slopes(),
                     if old(trainSlopes) == null then seq(weights.Length, _ => 0.0) else old(trainSlopes[..]),
                     trainSlopes[..], OutputStart(), desired[0] - neurons[OutputStart()].value)
    {
      hide RunLayout, NetUnits, Mult, SlopesGrown, RangesAscend, Backpropagated, Tangents, Total, SharesOf, SlopesOf;
      hide GivenErrors, FeedForward, GrownByGradient, GrownTowards, SharesMean, SharesPoint, Increasing;
      ghost var units := RunGraph();
      RunEnds(WiringUsed(), layers, neurons[..], connections[..], numInput, totalNeurons, weights.Length);
      ComputeErrors(desired);
      LayerReadsEarlier(WiringUsed(), layers, neurons[..], connections[..], numInput, totalNeurons, weights[..], |layers| - 1);
      RunFacts(WiringUsed(), layers, neurons[..], connections[..], numInput, totalNeurons, weights.Length, 1);
      ghost var before := if trainSlopes == null then seq(weights.Length, _ => 0.0) else trainSlopes[..];
      UpdateSlopesBatch(1, |layers| - 1);
      SlopesAreGradient(units, numInput, neurons[..], ValuesOf(neurons[..], totalNeurons), Slopes(), Shares(desired),
                        trainErrors[..totalNeurons], OutputStart(), before, trainSlopes[..]);
      GrowthPoints(desired, before);
    }

    /** The sign laws, when the slopes have grown by the gradient. */
    lemma {:induction false} GrowthPoints(desired: seq<real>, before: seq<real>)
      requires Runnable() && |desired| == numOutput && trainSlopes != null
      requires GrownByGradient(RunGraph(), numInput, neurons[..], ValuesOf(neurons[..], totalNeurons), Slopes(),
                               Shares(desired), before, trainSlopes[..])
      ensures SharesMean(desired) && ((useErrorFunction ==> Increasing(log)) ==> SharesPoint(desired))
      ensures (useErrorFunction ==> Increasing(log)) && numOutput == 1 ==>
        GrownTowards(RunGraph(), numInput, neurons[..], ValuesOf(neurons[..], totalNeurons), Slopes(), before,
                     trainSlopes[..], OutputStart(), desired[0] - neurons[OutputStart()].value)
    {
      hide RunLayout, NetUnits, IsShare, SameSign, SharesOf, SlopesOf, Increasing, GrownByGradient, GrownTowards, ValuesOf;
      SharesHaveMeaning(desired);
      RunEnds(WiringUsed(), layers, neurons[..], connections[..], numInput, totalNeurons, weights.Length);
      if useErrorFunction ==> Increasing(log) {
        SharesPointToTarget(desired);
        if numOutput == 1 {
          OneOutput(RunGraph(), numInput, neurons[..], ValuesOf(neurons[..], totalNeurons), Slopes(), Shares(desired), before,
                    trainSlopes[..], OutputStart(), desired[0] - neurons[OutputStart()].value);
        }
      }
    }
  }

  /** Every slope has grown in the direction in which its connection's weight moves output `out` by the sign of `e`. */
  ghost predicate GrownTowards(units: seq<Unit>, inputs: nat, neurons: seq<Neuron>, values: seq<real>, slopes: seq<real>,
                               before: seq<real>, after: seq<real>, out: nat, e: real)
  {
    FeedForward(units, inputs) && |values| == |slopes| == |units| <= |neurons| && |after| == |before| && out < |units| &&
    forall n, i :: inputs < n < |units| && 0 <= i < |units[n].weights| ==>
      TowardsAt(units, inputs, neurons, values, slopes, before, after, out, e, n, i)
  }

  ghost predicate TowardsAt(units: seq<Unit>, inputs: nat, neurons: seq<Neuron>, values: seq<real>, slopes: seq<real>,
                            before: seq<real>, after: seq<real>, out: nat, e: real, n: nat, i: nat)
    requires FeedForward(units, inputs) && |values| == |slopes| == |units| <= |neurons| && |after| == |before|
    requires inputs < n < |units| && i < |units[n].weights| && out < |units|
  {
    neurons[n].firstCon + i < |before| &&
    SameSign(after[neurons[n].firstCon + i] - before[neurons[n].firstCon + i],
             Mult(e, Tangents(units, inputs, values, slopes, n, i, |units|)[out]))
  }

  lemma {:induction false} OneOutput(
      units: seq<Unit>, inputs: nat, neurons: seq<Neuron>, values: seq<real>, slopes: seq<real>, shares: seq<real>,
      before: seq<real>, after: seq<real>, out: nat, e: real)
    requires GrownByGradient(units, inputs, neurons, values, slopes, shares, before, after)
    requires |shares| == |units| && out < |units| && (forall k :: 0 <= k < |shares| && k != out ==> shares[k] == 0.0)
    requires SameSign(shares[out], e)
    ensures GrownTowards(units, inputs, neurons, values, slopes, before, after, out, e)
  {
    hide Tangents, Total, Mult, SameSign, GrownAt;
    forall n, i | inputs < n < |units| && 0 <= i < |units[n].weights|
      ensures TowardsAt(units, inputs, neurons, values, slopes, before, after, out, e, n, i)
    {
      assert GrownAt(units, inputs, neurons, values, slopes, shares, before, after, n, i);
      GrownByShare(units, inputs, neurons, values, slopes, shares, before, after, out, n, i);
      SignOfProduct(shares[out], e, Tangents(units, inputs, values, slopes, n, i, |units|)[out]);
    }
  }

  lemma {:induction false} GrownByShare(
      units: seq<Unit>, inputs: nat, neurons: seq<Neuron>, values: seq<real>, slopes: seq<real>, shares: seq<real>,
      before: seq<real>, after: seq<real>, out: nat, n: nat, i: nat)
    requires FeedForward(units, inputs) && |values| == |slopes| == |shares| == |units| <= |neurons| && |after| == |before|
    requires inputs < n < |units| && i < |units[n].weights| && out < |units|
    requires GrownAt(units, inputs, neurons, values, slopes, shares, before, after, n, i)
    requires forall k :: 0 <= k < |shares| && k != out ==> shares[k] == 0.0
    ensures neurons[n].firstCon + i < |before|
    ensures after[neurons[n].firstCon + i] - before[neurons[n].firstCon + i] ==
            Mult(shares[out], Tangents(units, inputs, values, slopes, n, i, |units|)[out])
  {
    hide Tangents, Total, Mult;
    TotalSingle(shares, Tangents(units, inputs, values, slopes, n, i, |units|), out, shares[out], |units|);
  }

  lemma {:induction false} ValuesAre(neurons: seq<Neuron>, values: seq<real>)
    requires |values| <= |neurons| && forall n :: 0 <= n < |values| ==> neurons[n].value == values[n]
    ensures ValuesOf(neurons, |values|) == values
  {
  }

  lemma {:induction false} ShapesUnit(neurons: seq<Neuron>, neurons': seq<Neuron>, c: nat, weights: seq<real>)
    requires SameShapes(neurons, neurons') && c < |neurons|
    requires neurons[c].firstCon <= neurons[c].lastCon <= |weights|
    ensures |neurons'| == |neurons|
    ensures neurons'[c].firstCon == neurons[c].firstCon && neurons'[c].lastCon == neurons[c].lastCon
    ensures ShortcutUnit(neurons'[c], weights) == ShortcutUnit(neurons[c], weights)
  {
    assert SameShape(neurons[c], neurons'[c]);
  }

  lemma {:induction false} GivenZero(slopes: seq<real>, shares: seq<real>, last: nat)
    requires |slopes| == |shares| && forall n :: 0 <= n < last && n < |shares| ==> shares[n] == 0.0
    ensures forall n :: 0 <= n < last && n < |shares| ==> GivenErrors(slopes, shares)[n] == 0.0
  {
    forall n | 0 <= n < last && n < |shares| ensures GivenErrors(slopes, shares)[n] == 0.0 {
      MultZero(slopes[n]);
    }
  }

  lemma {:induction false} ShapesAscend(neurons: seq<Neuron>, neurons': seq<Neuron>, from: nat, total: nat, connections: nat)
    requires from <= total <= |neurons| && SameShapes(neurons, neurons') && RangesAscend(neurons, from, total, connections)
    ensures RangesAscend(neurons', from, total, connections)
  {
    assert forall n :: 0 <= n < |neurons| ==> SameShape(neurons[n], neurons'[n]);
  }

  function ValuesOf(neurons: seq<Neuron>, total: nat): (r: seq<real>)
    requires total <= |neurons|
    ensures |r| == total
  {
    seq(total, n requires 0 <= n < total => neurons[n].value)
  }

  function SlopesOf(derive: (nat, real, real, real) -> real, neurons: seq<Neuron>, total: nat): (r: seq<real>)
    ensures |r| == total
  {
    seq(total, n requires 0 <= n < total =>
      if n < |neurons| then derive(neurons[n].activation, neurons[n].steepness, neurons[n].value, neurons[n].sum) else 0.0)
  }

  /** The difference to the desired output, halved for symmetric functions and possibly stretched, at the
      outputs; nothing elsewhere. */
  function SharesOf(useErrorFunction: bool, log: real -> real, neurons: seq<Neuron>, first: nat, total: nat, desired: seq<real>): (r: seq<real>)
    ensures |r| == total && forall n :: 0 <= n < first && n < total ==> r[n] == 0.0
  {
    seq(total, n requires 0 <= n < total =>
      if first <= n < first + |desired| && n < |neurons|
      then Stretch(useErrorFunction, log, Halved(neurons[n], desired[n - first] - neurons[n].value)) else 0.0)
  }

  /** The sum of the squared distances of the first `n` outputs. */
  ghost function SquaredError(neurons: seq<Neuron>, first: nat, desired: seq<real>, n: nat): real
    requires n <= |desired| && first + n <= |neurons|
  {
    if n == 0 then 0.0
    else
      var d := Distance(neurons[first + n - 1], desired[n - 1]);
      SquaredError(neurons, first, desired, n - 1) + Mult(d, d)
  }

  /** The outputs among the first `n` whose distance reaches the limit on either side. */
  ghost function BitFails(neurons: seq<Neuron>, first: nat, desired: seq<real>, limit: real, n: nat): set<nat>
    requires n <= |desired| && first + n <= |neurons|
  {
    set j: nat | j < n && FarOff(neurons[first + j], desired[j], limit)
  }

  lemma {:induction false} NothingCounted(neurons: seq<Neuron>, first: nat, desired: seq<real>, limit: real)
    requires first <= |neurons|
    ensures BitFails(neurons, first, desired, limit, 0) == {} && SquaredError(neurons, first, desired, 0) == 0.0
  {
  }

  lemma {:induction false} SquaredErrorStep(neurons: seq<Neuron>, first: nat, desired: seq<real>, n: nat)
    requires n < |desired| && first + n < |neurons|
    ensures var d := Distance(neurons[first + n], desired[n]);
            SquaredError(neurons, first, desired, n + 1) == SquaredError(neurons, first, desired, n) + Mult(d, d)
  {
    hide Mult, Distance;
  }

  /** What neuron `n` is given: its slope times the difference at an output, nothing elsewhere. */
  lemma {:induction false} GivenAt(derive: (nat, real, real, real) -> real, useErrorFunction: bool, log: real -> real,
                                   neurons: seq<Neuron>, first: nat, total: nat, desired: seq<real>, n: nat)
    requires n < total <= |neurons|
    ensures var u := neurons[n];
            GivenErrors(SlopesOf(derive, neurons, total), SharesOf(useErrorFunction, log, neurons, first, total, desired))[n] ==
            if first <= n < first + |desired|
            then Mult(derive(u.activation, u.steepness, u.value, u.sum),
                      Stretch(useErrorFunction, log, Halved(u, desired[n - first] - u.value)))
            else 0.0
  {
    hide Mult, Halved, Stretch;
    MultZero(SlopesOf(derive, neurons, total)[n]);
  }

  lemma {:induction false} BitFailsStep(neurons: seq<Neuron>, first: nat, desired: seq<real>, limit: real, n: nat)
    requires n < |desired| && first + n < |neurons|
    ensures |BitFails(neurons, first, desired, limit, n + 1)| == |BitFails(neurons, first, desired, limit, n)| +
            if FarOff(neurons[first + n], desired[n], limit) then 1 else 0
  {
    hide FarOff;
    var before: set<nat>, now: set<nat> := BitFails(neurons, first, desired, limit, n), BitFails(neurons, first, desired, limit, n + 1);
    if FarOff(neurons[first + n], desired[n], limit) {
      assert now == before + {n};
    } else {
      assert now == before;
    }
  }

  /** The weights from `from` to `to` have been drawn within the scale. */
  ghost predicate Drawn(weights: seq<real>, from: nat, to: int, scale: real) {
    to <= |weights| && forall x :: from <= x < to ==> -scale <= weights[x] <= scale
  }

  lemma {:induction false} DrawnNone(weights: seq<real>, from: nat, scale: real)
    requires from <= |weights|
    ensures Drawn(weights, from, from, scale)
  {
  }

  lemma {:induction false} DrawnMore(before: seq<real>, now: seq<real>, from: nat, mid: nat, to: nat, scale: real)
    requires Drawn(before, from, mid, scale) && mid <= to <= |now| == |before|
    requires forall x :: from <= x < mid ==> now[x] == before[x]
    requires forall x :: mid <= x < to ==> -scale <= now[x] <= scale
    ensures Drawn(now, from, to, scale)
  {
  }

  /** The first neurons hold the input vector, and the bias neuron behind them holds one. */
  ghost predicate InputsHeld(neurons: seq<Neuron>, input: seq<real>) {
    |input| < |neurons| && neurons[|input|].value == 1.0 &&
    forall i :: 0 <= i < |input| ==> neurons[i].value == input[i]
  }

  lemma {:induction false} HoldsInputs(act: Activation, neurons: seq<Neuron>, units: seq<Unit>, input: seq<real>, total: nat)
    requires |input| < total <= |units| && total <= |neurons| && FeedForward(units, |input|)
    requires forall n :: 0 <= n < total ==> neurons[n].value == Forward(act, units, input, total)[n]
    ensures InputsHeld(neurons, input)
  {
    hide Forward;
    forall i | 0 <= i < |input| ensures neurons[i].value == input[i] {
      ForwardAt(act, units, input, i, total);
    }
    ForwardAt(act, units, input, |input|, total);
  }

  /** The neurons from `from` to `to` hold what their units make of the values. */
  ghost predicate RanBetween(activate: (nat, real) -> real, neurons: seq<Neuron>, units: seq<Unit>, values: seq<real>,
                             from: nat, to: nat)
  {
    to <= |neurons| && to <= |units| && forall n :: from <= n < to ==> Ran(activate, neurons[n], units[n], values)
  }

  lemma {:induction false} RanNone(activate: (nat, real) -> real, neurons: seq<Neuron>, units: seq<Unit>, values: seq<real>,
                                   from: nat)
    requires from <= |neurons| && from <= |units|
    ensures RanBetween(activate, neurons, units, values, from, from)
  {
  }

  lemma {:induction false} RanOneMore(activate: (nat, real) -> real, before: seq<Neuron>, now: seq<Neuron>, units: seq<Unit>,
                                      values: seq<real>, from: nat, n: nat)
    requires RanBetween(activate, before, units, values, from, n) && n < |units|
    requires n < |now| == |before| && now == before[n := now[n]] && Ran(activate, now[n], units[n], values)
    ensures RanBetween(activate, now, units, values, from, n + 1)
  {
    hide Ran;
  }

  lemma {:induction false} RanJoin(activate: (nat, real) -> real, before: seq<Neuron>, now: seq<Neuron>, units: seq<Unit>,
                                   values: seq<real>, from: nat, mid: nat, to: nat)
    requires RanBetween(activate, before, units, values, from, mid) && RanBetween(activate, now, units, values, mid, to)
    requires |before| == |now| && mid <= to && forall m :: 0 <= m < mid ==> now[m] == before[m]
    ensures RanBetween(activate, now, units, values, from, to)
  {
    hide Ran;
  }

  /** The first `n` neurons have their final values; nothing but values and sums has changed. */
  ghost predicate RunSoFar(before: seq<Neuron>, now: seq<Neuron>, values: seq<real>, n: nat) {
    SameShapes(before, now) && n <= |values| <= |now| && forall m :: 0 <= m < n ==> now[m].value == values[m]
  }

  lemma {:induction false} RunSoFarTrans(before: seq<Neuron>, now: seq<Neuron>, next: seq<Neuron>, values: seq<real>, n: nat)
    requires SameShapes(before, now) && RunSoFar(now, next, values, n)
    ensures RunSoFar(before, next, values, n)
  {
    forall m | 0 <= m < |before| ensures SameShape(before[m], next[m]) {
      assert SameShape(before[m], now[m]) && SameShape(now[m], next[m]);
    }
  }

  function Term(u: Unit, values: seq<real>, i: nat): real
    requires WellFormedUnit(u, |values|) && i < |u.weights|
  {
    Mult(u.weights[i], values[u.sources[i]])
  }

  lemma {:induction false} FirstFew(u: Unit, values: seq<real>)
    requires WellFormedUnit(u, |values|)
    ensures WeightedSum(u.weights, u.sources, values, 0) == 0.0
    ensures |u.weights| >= 1 ==> WeightedSum(u.weights, u.sources, values, 1) == Term(u, values, 0)
    ensures |u.weights| >= 2 ==> WeightedSum(u.weights, u.sources, values, 2) == Term(u, values, 1) + Term(u, values, 0)
    ensures |u.weights| >= 3 ==>
      WeightedSum(u.weights, u.sources, values, 3) == Term(u, values, 2) + Term(u, values, 1) + Term(u, values, 0)
  {
    hide Mult;
    if |u.weights| >= 1 { assert WeightedSum(u.weights, u.sources, values, 1) == WeightedSum(u.weights, u.sources, values, 0) + Term(u, values, 0); }
    if |u.weights| >= 2 { assert WeightedSum(u.weights, u.sources, values, 2) == WeightedSum(u.weights, u.sources, values, 1) + Term(u, values, 1); }
    if |u.weights| >= 3 { assert WeightedSum(u.weights, u.sources, values, 3) == WeightedSum(u.weights, u.sources, values, 2) + Term(u, values, 2); }
  }

  lemma {:induction false} NextFour(u: Unit, values: seq<real>, i: nat)
    requires WellFormedUnit(u, |values|) && i + 4 <= |u.weights|
    ensures WeightedSum(u.weights, u.sources, values, i + 4) == WeightedSum(u.weights, u.sources, values, i) +
            (Term(u, values, i) + Term(u, values, i + 1) + Term(u, values, i + 2) + Term(u, values, i + 3))
  {
    hide Mult;
    assert WeightedSum(u.weights, u.sources, values, i + 1) == WeightedSum(u.weights, u.sources, values, i) + Term(u, values, i);
    assert WeightedSum(u.weights, u.sources, values, i + 2) == WeightedSum(u.weights, u.sources, values, i + 1) + Term(u, values, i + 1);
    assert WeightedSum(u.weights, u.sources, values, i + 3) == WeightedSum(u.weights, u.sources, values, i + 2) + Term(u, values, i + 2);
  }

  /** Copies `count` weights from `from` to `to`; the two ranges do not meet. */
  method CopyWeights(weights: array<real>, from: nat, to: nat, count: nat)
    requires to + count <= from && from + count <= weights.Length
    modifies weights
    ensures weights[to..to + count] == old(weights[from..from + count])
    ensures forall x :: 0 <= x < weights.Length && !(to <= x < to + count) ==> weights[x] == old(weights[x])
  {
    for i := 0 to count
      invariant weights[to..to + i] == old(weights[from..from + i])
      invariant forall x :: 0 <= x < weights.Length && !(to <= x < to + i) ==> weights[x] == old(weights[x])
    {
      weights[i + to] := weights[i + from];
    }
  }

  /** Moves `weights[first..last]` to the right by `distance`, last weight first. */
  method ShiftRight(weights: array<real>, first: nat, last: nat, distance: nat)
    requires first <= last && last + distance <= weights.Length
    modifies weights
    ensures ShiftedRight(old(weights[..]), weights[..], first, last, distance)
  {
    var i := last - 1;
    while i >= first
      invariant first - 1 <= i < last
      invariant ShiftedRight(old(weights[..]), weights[..], i + 1, last, distance)
    {
      weights[i + distance] := weights[i];
      i := i - 1;
    }
  }
}
