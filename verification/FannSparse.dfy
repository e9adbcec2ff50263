/** The random wiring of two neighbouring layers that are not fully connected. */
module FannSparse {
  import opened FannLayout

  // ---- How many connections, and how they are split ----

  function Max(a: nat, b: nat): nat { if a > b then a else b }

  /** The number of connections between two layers: the rate's share of all possible ones, but enough for each neuron
      to have a partner, and one from the bias to each neuron. */
  function NumConnections(rate: real, numIn: nat, numOut: nat): nat
    requires 0.0 <= rate <= 1.0
  {
    ShareBound(rate, numIn * numOut);
    Max(Max(numIn, numOut), (0.5 + rate * (numIn * numOut) as real).Floor) + numOut
  }

  lemma {:induction false} ShareBound(rate: real, all: nat)
    requires 0.0 <= rate <= 1.0
    ensures 0 <= (0.5 + rate * all as real).Floor <= all
    ensures rate == 1.0 ==> (0.5 + rate * all as real).Floor == all
  {
    RealProduct(rate, all as real);
    var share := rate * all as real;
    assert 0.0 <= share <= all as real;
    var x := 0.5 + share;
    assert x.Floor as real <= x < all as real + 1.0;
  }

  lemma {:induction false} RealProduct(rate: real, all: real)
    requires 0.0 <= rate <= 1.0 && all >= 0.0
    ensures 0.0 <= rate * all <= all && (rate == 1.0 ==> rate * all == all)
  {
    assert all - rate * all == (1.0 - rate) * all;
  }

  /** Where the share of neuron `i` begins when `c` connections are split evenly among `n` neurons. */
  function Cut(c: nat, n: nat, i: nat): nat
    requires n > 0
  { c * i / n }

  lemma {:induction false} DivAdd(a: nat, b: nat, n: nat)
    requires n > 0
    ensures (a + b * n) / n == a / n + b
    decreases b
  {
    if b > 0 {
      DivAdd(a, b - 1, n);
      assert a + b * n == a + (b - 1) * n + n;
      DivOne(a + (b - 1) * n, n);
    }
  }

  lemma {:induction false} DivOne(x: nat, n: nat)
    requires n > 0
    ensures (x + n) / n == x / n + 1
  {
    var q, r := x / n, x % n;
    assert x == q * n + r;
    assert x + n == (q + 1) * n + r;
    DivUnique(x + n, n, q + 1, r);
  }

  lemma {:induction false} DivUnique(x: nat, n: nat, q: nat, r: nat)
    requires n > 0 && r < n && x == q * n + r
    ensures x / n == q
  {
    var q', r' := x / n, x % n;
    assert x == q' * n + r';
    if q' < q { Spread(q', q, n); } else if q < q' { Spread(q, q', n); }
  }

  lemma {:induction false} Spread(a: nat, b: nat, n: nat)
    requires a < b
    ensures a * n + n <= b * n
  {
    assert b * n - a * n == (b - a) * n;
    assert (b - a) * n >= 1 * n by { if b - a > 1 { assert (b - a) * n == n + (b - a - 1) * n; Positive(b - a - 1, n); } }
  }

  lemma {:induction false} Positive(a: nat, b: nat)
    ensures a * b >= 0
  {
  }

  /** Cuts at multiples of the quotient, plus the cuts of the remainder. */
  lemma {:induction false} CutSplit(c: nat, n: nat, i: nat)
    requires n > 0
    ensures Cut(c, n, i) == c / n * i + Cut(c % n, n, i)
  {
    var q, r := c / n, c % n;
    assert c == q * n + r;
    assert c * i == r * i + (q * i) * n by {
      assert (q * n + r) * i == q * n * i + r * i;
      assert q * n * i == q * i * n;
    }
    Positive(q, i);
    Positive(r, i);
    DivAdd(r * i, q * i, n);
  }

  /** Each neuron gets the quotient of connections, or one more. */
  lemma {:induction false} CutStep(c: nat, n: nat, i: nat)
    requires n > 0
    ensures Cut(c, n, i) + c / n <= Cut(c, n, i + 1) <= Cut(c, n, i) + c / n + 1
    ensures c % n == 0 ==> Cut(c, n, i + 1) == Cut(c, n, i) + c / n
  {
    var q, r := c / n, c % n;
    CutSplit(c, n, i);
    CutSplit(c, n, i + 1);
    assert q * (i + 1) == q * i + q;
    assert r * (i + 1) == r * i + r;
    Positive(r, i);
    DivLess(r * i, r, n);
  }

  lemma {:induction false} DivLess(a: nat, r: nat, n: nat)
    requires n > 0 && r < n
    ensures a / n <= (a + r) / n <= a / n + 1
    ensures r == 0 ==> (a + r) / n == a / n
  {
    var q, s := a / n, a % n;
    assert a == q * n + s;
    if s + r < n {
      DivUnique(a + r, n, q, s + r);
    } else {
      assert a + r == (q + 1) * n + (s + r - n);
      DivUnique(a + r, n, q + 1, s + r - n);
    }
  }

  /** All connections are handed out. */
  lemma {:induction false} CutEnds(c: nat, n: nat)
    requires n > 0
    ensures Cut(c, n, 0) == 0 && Cut(c, n, n) == c
  {
    DivUnique(c * n, n, c, 0);
    DivUnique(0, n, 0, 0);
    assert c * 0 == 0;
  }

  /** Neuron number `i` of a layer owns its share of the connections that begin at `start`. */
  ghost predicate OwnsShare(u: Neuron, start: nat, c: nat, n: nat, i: nat)
    requires n > 0
  {
    u.firstCon == start + Cut(c, n, i) && u.lastCon == start + Cut(c, n, i + 1)
  }

  /** What neurons start with. */
  ghost predicate Equipped(neurons: seq<Neuron>, first: nat, last: nat, activation: nat, steepness: real) {
    last <= |neurons| &&
    forall n :: first <= n < last ==> neurons[n].activation == activation && neurons[n].steepness == steepness
  }

  lemma {:induction false} EquippedStill(a: seq<Neuron>, b: seq<Neuron>, first: nat, last: nat, activation: nat,
                                         steepness: real)
    requires Equipped(a, first, last, activation, steepness) && |a| == |b|
    requires forall x :: first <= x < last && x < |a| ==> a[x] == b[x]
    ensures Equipped(b, first, last, activation, steepness)
  {
  }

  lemma {:induction false} EquippedNone(a: seq<Neuron>, first: nat, activation: nat, steepness: real)
    requires first <= |a|
    ensures Equipped(a, first, first, activation, steepness)
  {
  }

  lemma {:induction false} EquippedOneMore(a: seq<Neuron>, b: seq<Neuron>, first: nat, last: nat, activation: nat,
                                           steepness: real)
    requires Equipped(a, first, last, activation, steepness) && last < |a| == |b| && b == a[last := b[last]]
    requires b[last].activation == activation && b[last].steepness == steepness
    ensures Equipped(b, first, last + 1, activation, steepness)
  {
  }

  /** The running split: the neurons of a layer, without its bias, get consecutive ranges that begin at the cuts, so
      that number `i` gets exactly c(i + 1)/n - ci/n connections, rounded down each. */
  method SplitConnections(neurons: array<Neuron>, first: nat, n: nat, start: nat, c: nat, activation: nat, steepness: real)
    requires n > 0 && first + n < neurons.Length
    modifies neurons
    ensures forall k :: first <= k < first + n ==> OwnsShare(neurons[k], start, c, n, k - first)
    ensures neurons[first + n].firstCon == neurons[first + n].lastCon == start + c
    ensures Equipped(neurons[..], first, first + n, activation, steepness)
    ensures forall k :: 0 <= k < neurons.Length && !(first <= k <= first + n) ==> neurons[k] == old(neurons[k])
  {
    hide Cut, OwnsShare, Equipped;
    var perNeuron := c / n;
    var given := 0;
    CutEnds(c, n);
    EquippedNone(neurons[..], first, activation, steepness);
    for i := 0 to n
      invariant given == Cut(c, n, i)
      invariant forall k :: first <= k < first + i ==> OwnsShare(neurons[k], start, c, n, k - first)
      invariant Equipped(neurons[..], first, first + i, activation, steepness)
      invariant forall k :: 0 <= k < neurons.Length && !(first <= k < first + i) ==> neurons[k] == old(neurons[k])
    {
      CutStep(c, n, i);
      var u := neurons[first + i];
      u := Neuron(u.value, u.sum, activation, steepness, start + given, start + given + perNeuron);
      given := given + perNeuron;
      if given < Cut(c, n, i + 1) {
        u := u.(lastCon := u.lastCon + 1);
        given := given + 1;
      }
      Owns(u, start, c, n, i);
      ghost var before := neurons[..];
      neurons[first + i] := u;
      EquippedOneMore(before, neurons[..], first, first + i, activation, steepness);
    }
    ghost var before := neurons[..];
    neurons[first + n] := neurons[first + n].(firstCon := start + given, lastCon := start + given);
    EquippedStill(before, neurons[..], first, first + n, activation, steepness);
  }

  lemma {:induction false} Owns(u: Neuron, start: nat, c: nat, n: nat, i: nat)
    requires n > 0 && u.firstCon == start + Cut(c, n, i) && u.lastCon == start + Cut(c, n, i + 1)
    ensures OwnsShare(u, start, c, n, i)
  {
    hide Cut;
  }

  /** Every neuron has room for the bias and at least one source, and never for more sources than there are; at the
      full rate it has room for all of them. */
  lemma {:induction false} ShareSizes(rate: real, numIn: nat, numOut: nat, i: nat)
    requires 0.0 <= rate <= 1.0 && numIn > 0 && numOut > 0
    ensures var c := NumConnections(rate, numIn, numOut);
            Cut(c, numOut, i) + 2 <= Cut(c, numOut, i + 1) <= Cut(c, numOut, i) + numIn + 1 &&
            (rate == 1.0 ==> Cut(c, numOut, i + 1) == Cut(c, numOut, i) + numIn + 1)
  {
    hide Cut, NumConnections;
    var c := NumConnections(rate, numIn, numOut);
    Partners(rate, numIn, numOut);
    PartnersPerNeuron(c - numOut, numIn, numOut);
    CutStep(c, numOut, i);
  }

  lemma {:induction false} Partners(rate: real, numIn: nat, numOut: nat)
    requires 0.0 <= rate <= 1.0 && numIn > 0 && numOut > 0
    ensures Max(numIn, numOut) + numOut <= NumConnections(rate, numIn, numOut) <= numIn * numOut + numOut
    ensures rate == 1.0 ==> NumConnections(rate, numIn, numOut) == numIn * numOut + numOut
  {
    ShareBound(rate, numIn * numOut);
    AtLeastProduct(numIn, numOut);
  }

  lemma {:induction false} PartnersPerNeuron(d: nat, numIn: nat, n: nat)
    requires 0 < n <= d <= numIn * n
    ensures 2 <= (d + n) / n <= numIn + 1
    ensures (d + n) / n == numIn + 1 ==> (d + n) % n == 0
    ensures d == numIn * n ==> (d + n) / n == numIn + 1
  {
    DivOne(d, n);
    var q, r := d / n, d % n;
    assert d == q * n + r;
    if q == 0 { assert false; }
    if q > numIn { Spread(numIn, q, n); }
    if q == numIn {
      assert r == 0;
      assert d + n == (q + 1) * n + 0;
      var q', r' := (d + n) / n, (d + n) % n;
      assert d + n == q' * n + r';
    }
    if d == numIn * n { DivUnique(d, n, numIn, 0); }
  }

  lemma {:induction false} AtLeastProduct(a: nat, b: nat)
    requires a > 0 && b > 0
    ensures a <= a * b && b <= a * b
  {
    if a > 1 { assert a * b == b + (a - 1) * b; Positive(a - 1, b); }
    if b > 1 { assert a * b == a + a * (b - 1); Positive(a, b - 1); }
  }

  // ---- The wiring of one layer ----

  function Sum(fill: seq<nat>): nat { if fill == [] then 0 else fill[0] + Sum(fill[1..]) }

  lemma {:induction false} SumAt(fill: seq<nat>, i: nat)
    requires i < |fill|
    ensures Sum(fill[i := fill[i] + 1]) == Sum(fill) + 1
  {
    if i > 0 {
      SumAt(fill[1..], i - 1);
      assert fill[i := fill[i] + 1][1..] == fill[1..][i - 1 := fill[i] + 1];
    } else {
      assert fill[i := fill[i] + 1][1..] == fill[1..];
    }
  }

  /** Neuron number `i` owns the slots from `cuts[i]` to `cuts[i + 1]`: room for the bias and a source, but not for
      more sources than there are. The last source of the earlier layer is its bias. */
  ghost predicate Slots(cuts: seq<nat>, sources: Layer, slots: nat) {
    |cuts| >= 2 && sources.first + 1 < sources.last && cuts[|cuts| - 1] <= slots &&
    (forall i, j :: 0 <= i <= j < |cuts| ==> cuts[i] <= cuts[j]) &&
    forall i :: 0 <= i < |cuts| - 1 ==> cuts[i] + 2 <= Next(cuts, i) <= cuts[i] + (sources.last - sources.first)
  }

  function Next(cuts: seq<nat>, i: nat): nat
    requires i + 1 < |cuts|
  { cuts[i + 1] }

  /** Each neuron's first slots are filled, the bias first, with different sources, and its other slots are empty. */
  ghost predicate Filling(conn: seq<nat>, cuts: seq<nat>, fill: seq<nat>, sources: Layer, none: nat)
    requires Slots(cuts, sources, |conn|)
  {
    |fill| == |cuts| - 1 && sources.last <= none &&
    forall i :: 0 <= i < |fill| ==> NeuronFilling(conn, cuts[i], fill[i], Next(cuts, i), sources, none)
  }

  ghost predicate NeuronFilling(conn: seq<nat>, start: nat, fill: nat, end: nat, sources: Layer, none: nat) {
    1 <= fill && start + fill <= end <= |conn| && conn[start] == sources.last - 1 &&
    (forall x :: start <= x < start + fill ==> sources.first <= conn[x] < sources.last) &&
    (forall x, y :: start <= x < y < start + fill ==> conn[x] != conn[y]) &&
    forall x :: start + fill <= x < end ==> conn[x] == none
  }

  /** The sources before `limit` feed some neuron. */
  ghost predicate Fed(conn: seq<nat>, lo: nat, hi: nat, first: nat, limit: nat)
    requires lo <= hi <= |conn|
  {
    forall s :: first <= s < limit ==> s in conn[lo..hi]
  }

  /** The result: every slot is filled, each neuron has the bias and otherwise different sources, and every source
      feeds some neuron. */
  ghost predicate Wired(conn: seq<nat>, cuts: seq<nat>, sources: Layer)
    requires Slots(cuts, sources, |conn|)
  {
    (forall i :: 0 <= i < |cuts| - 1 ==> NeuronWired(conn, cuts[i], Next(cuts, i), sources)) &&
    Fed(conn, cuts[0], cuts[|cuts| - 1], sources.first, sources.last)
  }

  ghost predicate NeuronWired(conn: seq<nat>, start: nat, end: nat, sources: Layer) {
    start < end <= |conn| && conn[start] == sources.last - 1 &&
    (forall x :: start <= x < end ==> sources.first <= conn[x] < sources.last) &&
    forall x, y :: start <= x < y < end ==> conn[x] != conn[y]
  }

  /** A new source in the first empty slot of a neuron. */
  lemma {:induction false} FillSlot(conn: seq<nat>, cuts: seq<nat>, fill: seq<nat>, sources: Layer, none: nat, i: nat, s: nat)
    requires Slots(cuts, sources, |conn|) && Filling(conn, cuts, fill, sources, none)
    requires i < |fill| && cuts[i] + fill[i] < Next(cuts, i)
    requires sources.first <= s < sources.last && s !in conn[cuts[i]..cuts[i] + fill[i]]
    ensures Filling(conn[cuts[i] + fill[i] := s], cuts, fill[i := fill[i] + 1], sources, none)
  {
    hide NeuronFilling;
    var at := cuts[i] + fill[i];
    var fill' := fill[i := fill[i] + 1];
    assert NeuronFilling(conn, cuts[i], fill[i], Next(cuts, i), sources, none);
    FillOwnSlot(conn, cuts[i], fill[i], Next(cuts, i), sources, none, s);
    forall j | 0 <= j < |fill'| ensures NeuronFilling(conn[at := s], cuts[j], fill'[j], Next(cuts, j), sources, none) {
      assert NeuronFilling(conn, cuts[j], fill[j], Next(cuts, j), sources, none);
      if j != i { FillOtherSlot(conn, cuts[j], fill[j], Next(cuts, j), sources, none, at, s); }
    }
  }

  lemma {:induction false} FillOwnSlot(conn: seq<nat>, start: nat, fill: nat, end: nat, sources: Layer, none: nat, s: nat)
    requires NeuronFilling(conn, start, fill, end, sources, none) && start + fill < end
    requires sources.first <= s < sources.last && s !in conn[start..start + fill]
    ensures NeuronFilling(conn[start + fill := s], start, fill + 1, end, sources, none)
  {
    NotIn(conn, start, start + fill, s);
  }

  lemma {:induction false} FillOtherSlot(conn: seq<nat>, start: nat, fill: nat, end: nat, sources: Layer, none: nat,
                                         at: nat, s: nat)
    requires NeuronFilling(conn, start, fill, end, sources, none) && at < |conn| && !(start <= at < end)
    ensures NeuronFilling(conn[at := s], start, fill, end, sources, none)
  {
  }

  lemma {:induction false} NotIn(conn: seq<nat>, lo: nat, hi: nat, s: nat)
    requires lo <= hi <= |conn| && s !in conn[lo..hi]
    ensures forall x :: lo <= x < hi ==> conn[x] != s
  {
    forall x | lo <= x < hi ensures conn[x] != s { assert conn[lo..hi][x - lo] == conn[x]; }
  }

  /** Filling an empty slot starves no source. */
  lemma {:induction false} FillKeepsFed(conn: seq<nat>, lo: nat, hi: nat, first: nat, limit: nat, at: nat, s: nat)
    requires lo <= at < hi <= |conn| && Fed(conn, lo, hi, first, limit) && conn[at] >= limit
    ensures Fed(conn[at := s], lo, hi, first, limit) && s in conn[at := s][lo..hi]
  {
    var conn' := conn[at := s];
    assert conn'[lo..hi][at - lo] == s;
    forall t | first <= t < limit ensures t in conn'[lo..hi] {
      assert t in conn[lo..hi];
      var k :| 0 <= k < |conn[lo..hi]| && conn[lo..hi][k] == t;
      assert conn'[lo..hi][k] == t;
    }
  }

  /** As long as not all slots are filled, some neuron has room, so that trying neurons at random succeeds. */
  lemma {:induction false} RoomSomewhere(cuts: seq<nat>, fill: seq<nat>) returns (i: nat)
    requires |cuts| == |fill| + 1 && cuts[0] + Sum(fill) < cuts[|fill|]
    ensures i < |fill| && cuts[i] + fill[i] < Next(cuts, i)
    decreases |fill|
  {
    if cuts[0] + fill[0] < Next(cuts, 0) {
      i := 0;
    } else {
      var j := RoomSomewhere(cuts[1..], fill[1..]);
      i := j + 1;
    }
  }

  /** As long as a neuron has fewer sources than there are, another one can be found. */
  lemma {:induction false} SourceLeft(used: seq<nat>, first: nat, last: nat) returns (s: nat)
    requires |used| < last - first
    ensures first <= s < last && s !in used
    decreases last - first
  {
    if last - 1 !in used {
      s := last - 1;
    } else {
      var k :| 0 <= k < |used| && used[k] == last - 1;
      s := SourceLeft(used[..k] + used[k + 1..], first, last - 1);
      assert used == used[..k] + [last - 1] + used[k + 1..];
    }
  }

  // ---- The three passes ----

  /** The neurons of a layer own the slots between the cuts. */
  ghost predicate OwnCuts(neurons: seq<Neuron>, layer: Layer, cuts: seq<nat>)
  {
    layer.first + |cuts| == layer.last <= |neurons| && |cuts| >= 2 &&
    forall n :: layer.first <= n < layer.last - 1 ==>
      neurons[n].firstCon == cuts[n - layer.first] && neurons[n].lastCon == Next(cuts, n - layer.first)
  }

  ghost function Ones(n: nat): (fill: seq<nat>)
    ensures |fill| == n && forall i :: 0 <= i < n ==> fill[i] == 1
  {
    seq(n, i => 1)
  }

  lemma {:induction false} SumOnes(n: nat)
    ensures Sum(Ones(n)) == n
  {
    if n > 0 {
      assert Ones(n)[1..] == Ones(n - 1);
      SumOnes(n - 1);
    }
  }

  lemma {:induction false} SlotsAt(cuts: seq<nat>, sources: Layer, slots: nat, i: nat)
    requires Slots(cuts, sources, slots) && i + 1 < |cuts|
    ensures cuts[0] <= cuts[i] < Next(cuts, i) <= cuts[|cuts| - 1] <= slots && sources.first + 1 < sources.last
  {
  }

  lemma {:induction false} SlotEnds(cuts: seq<nat>, sources: Layer, slots: nat)
    requires Slots(cuts, sources, slots)
    ensures |cuts| >= 2 && cuts[0] <= cuts[|cuts| - 1] <= slots
  {
  }

  /** The contents differ only from `lo` to `hi`. */
  ghost predicate OnlyBetween(a: seq<nat>, b: seq<nat>, lo: nat, hi: nat) {
    |a| == |b| && forall x :: 0 <= x < |a| && !(lo <= x < hi) ==> a[x] == b[x]
  }

  lemma {:induction false} OnlyBetweenAlso(a: seq<nat>, b: seq<nat>, lo: nat, hi: nat, at: nat, s: nat)
    requires OnlyBetween(a, b, lo, hi) && at < |b| && lo <= at < hi
    ensures OnlyBetween(a, b[at := s], lo, hi)
  {
  }

  lemma {:induction false} OnlyBetweenTrans(a: seq<nat>, b: seq<nat>, c: seq<nat>, lo: nat, hi: nat)
    requires OnlyBetween(a, b, lo, hi) && OnlyBetween(b, c, lo, hi)
    ensures OnlyBetween(a, c, lo, hi)
  {
  }

  /** The first `k` neurons have the bias in their first slot, and all other slots are empty. */
  ghost predicate BiasConnected(conn: seq<nat>, cuts: seq<nat>, k: nat, sources: Layer, none: nat)
    requires Slots(cuts, sources, |conn|)
  {
    k < |cuts| && (forall i :: 0 <= i < k ==> conn[cuts[i]] == sources.last - 1) &&
    (forall i, x :: 0 <= i < k && cuts[i] < x < Next(cuts, i) ==> conn[x] == none) &&
    forall x :: cuts[k] <= x < cuts[|cuts| - 1] ==> conn[x] == none
  }

  lemma {:induction false} BiasStep(conn: seq<nat>, cuts: seq<nat>, k: nat, sources: Layer, none: nat)
    requires Slots(cuts, sources, |conn|) && BiasConnected(conn, cuts, k, sources, none) && k + 1 < |cuts|
    ensures cuts[0] <= cuts[k] < cuts[|cuts| - 1]
    ensures BiasConnected(conn[cuts[k] := sources.last - 1], cuts, k + 1, sources, none)
  {
    var conn' := conn[cuts[k] := sources.last - 1];
    assert cuts[k] + 2 <= Next(cuts, k) <= cuts[|cuts| - 1];
    forall i | 0 <= i < k + 1 ensures conn'[cuts[i]] == sources.last - 1 {
      if i < k { assert cuts[i] + 2 <= Next(cuts, i) <= cuts[k]; }
    }
    forall i, x | 0 <= i < k + 1 && cuts[i] < x < Next(cuts, i) ensures conn'[x] == none {
      if i < k { assert Next(cuts, i) <= cuts[k]; }
    }
  }

  lemma {:induction false} BiasNotConnected(conn: seq<nat>, cuts: seq<nat>, sources: Layer, none: nat)
    requires Slots(cuts, sources, |conn|) && forall x :: cuts[0] <= x < cuts[|cuts| - 1] ==> conn[x] == none
    ensures BiasConnected(conn, cuts, 0, sources, none) && OnlyBetween(conn, conn, cuts[0], cuts[|cuts| - 1])
  {
  }

  lemma {:induction false} BiasDone(conn: seq<nat>, cuts: seq<nat>, sources: Layer, none: nat)
    requires Slots(cuts, sources, |conn|) && sources.last <= none
    requires BiasConnected(conn, cuts, |cuts| - 1, sources, none)
    ensures Filling(conn, cuts, Ones(|cuts| - 1), sources, none)
  {
    forall i | 0 <= i < |cuts| - 1
      ensures NeuronFilling(conn, cuts[i], Ones(|cuts| - 1)[i], Next(cuts, i), sources, none)
    {
      assert cuts[i] + 2 <= Next(cuts, i) <= cuts[|cuts| - 1];
    }
  }

  /** First the bias goes into the first slot of each neuron. */
  method ConnectBias(neurons: array<Neuron>, connections: array<nat>, sources: Layer, layer: Layer, none: nat,
                     ghost cuts: seq<nat>)
    requires OwnCuts(neurons[..], layer, cuts) && Slots(cuts, sources, connections.Length) && sources.last <= none
    requires forall x :: cuts[0] <= x < cuts[|cuts| - 1] ==> connections[x] == none
    modifies connections
    ensures Filling(connections[..], cuts, Ones(|cuts| - 1), sources, none)
    ensures OnlyBetween(old(connections[..]), connections[..], cuts[0], cuts[|cuts| - 1])
  {
    hide BiasConnected, OnlyBetween, Slots, Filling;
    SlotsAt(cuts, sources, connections.Length, 0);
    BiasNotConnected(connections[..], cuts, sources, none);
    var bias: nat := sources.last - 1;
    for n := layer.first to layer.last - 1
      invariant BiasConnected(connections[..], cuts, n - layer.first, sources, none)
      invariant OnlyBetween(old(connections[..]), connections[..], cuts[0], cuts[|cuts| - 1])
    {
      ghost var k := n - layer.first;
      ghost var before := connections[..];
      BiasStep(before, cuts, k, sources, none);
      OnlyBetweenAlso(old(connections[..]), before, cuts[0], cuts[|cuts| - 1], cuts[k], bias);
      connections[neurons[n].firstCon] := bias;
      assert connections[..] == before[cuts[k] := bias];
    }
    BiasDone(connections[..], cuts, sources, none);
  }

  /** The first empty slot of a neuron that has one. */
  method EmptySlot(connections: array<nat>, first: nat, last: nat, none: nat, ghost fill: nat, ghost sources: Layer)
    returns (slot: nat)
    requires NeuronFilling(connections[..], first, fill, last, sources, none) && first + fill < last
    requires sources.last <= none
    ensures slot == first + fill
  {
    slot := first;
    while connections[slot] != none
      invariant first <= slot <= first + fill
      decreases first + fill - slot
    {
      slot := slot + 1;
    }
  }

  /** The last slot of a neuron tells whether it has room. */
  lemma {:induction false} LastSlotTells(conn: seq<nat>, start: nat, fill: nat, end: nat, sources: Layer, none: nat)
    requires NeuronFilling(conn, start, fill, end, sources, none) && sources.last <= none
    ensures conn[end - 1] == none <==> start + fill < end
  {
  }

  /** Then each source is connected to a random neuron that has room; there always is one. */
  method ConnectSources(neurons: array<Neuron>, connections: array<nat>, sources: Layer, layer: Layer, none: nat,
                        ghost cuts: seq<nat>) returns (ghost fill: seq<nat>)
    requires OwnCuts(neurons[..], layer, cuts) && Slots(cuts, sources, connections.Length)
    requires Filling(connections[..], cuts, Ones(|cuts| - 1), sources, none)
    requires cuts[0] + (|cuts| - 1) + (sources.last - 1 - sources.first) <= cuts[|cuts| - 1]
    modifies connections
    ensures Filling(connections[..], cuts, fill, sources, none)
    ensures Fed(connections[..], cuts[0], cuts[|cuts| - 1], sources.first, sources.last - 1)
    ensures OnlyBetween(old(connections[..]), connections[..], cuts[0], cuts[|cuts| - 1])
  {
    fill := Ones(|cuts| - 1);
    SumOnes(|cuts| - 1);
    NotYetUsed(connections[..], cuts, sources, none);
    FillFits(connections[..], cuts, fill, sources, none);
    hide Filling, Unused, Slots, Fed;
    for source := sources.first to sources.last - 1
      invariant Connecting(connections[..], cuts, fill, sources, none, source)
      invariant OnlyBetween(old(connections[..]), connections[..], cuts[0], cuts[|cuts| - 1])
    {
      ghost var before := connections[..];
      fill := ConnectSource(neurons, connections, sources, layer, none, source, cuts, fill);
      OnlyBetweenTrans(old(connections[..]), before, connections[..], cuts[0], cuts[|cuts| - 1]);
    }
  }

  /** No neuron has one of the sources from `from` on yet. */
  ghost predicate Unused(conn: seq<nat>, cuts: seq<nat>, fill: seq<nat>, from: nat, bias: nat)
    requires |fill| + 1 == |cuts| && forall i :: 0 <= i < |fill| ==> cuts[i] + fill[i] <= |conn|
  {
    forall i, x :: 0 <= i < |fill| && cuts[i] <= x < cuts[i] + fill[i] ==> conn[x] < from || conn[x] == bias
  }

  lemma {:induction false} NotYetUsed(conn: seq<nat>, cuts: seq<nat>, sources: Layer, none: nat)
    requires Slots(cuts, sources, |conn|) && Filling(conn, cuts, Ones(|cuts| - 1), sources, none)
    ensures Unused(conn, cuts, Ones(|cuts| - 1), sources.first, sources.last - 1)
  {
    forall i, x | 0 <= i < |cuts| - 1 && cuts[i] <= x < cuts[i] + 1 ensures conn[x] == sources.last - 1 {
      assert NeuronFilling(conn, cuts[i], Ones(|cuts| - 1)[i], Next(cuts, i), sources, none);
    }
  }

  /** A source that no neuron has yet goes to neuron `i`. */
  lemma {:induction false} FillUnused(conn: seq<nat>, cuts: seq<nat>, fill: seq<nat>, sources: Layer, none: nat, i: nat, s: nat)
    requires Slots(cuts, sources, |conn|) && Filling(conn, cuts, fill, sources, none)
    requires |fill| + 1 == |cuts| && i < |fill| && cuts[i] + fill[i] < Next(cuts, i)
    requires sources.first <= s < sources.last - 1 && Unused(conn, cuts, fill, s, sources.last - 1)
    ensures s !in conn[cuts[i]..cuts[i] + fill[i]]
    ensures Unused(conn[cuts[i] + fill[i] := s], cuts, fill[i := fill[i] + 1], s + 1, sources.last - 1)
  {
    hide NeuronFilling;
    var at := cuts[i] + fill[i];
    var conn' := conn[at := s];
    var fill' := fill[i := fill[i] + 1];
    assert forall x :: cuts[i] <= x < at ==> conn[x] != s;
    forall j, x | 0 <= j < |fill| && cuts[j] <= x < cuts[j] + fill'[j] && x < |conn|
      ensures conn'[x] < s + 1 || conn'[x] == sources.last - 1
    {
      if x != at {
        if j == i { assert x < cuts[i] + fill[i]; }
        assert conn[x] < s || conn[x] == sources.last - 1;
      }
    }
    FillFits(conn, cuts, fill, sources, none);
  }

  lemma {:induction false} FillFits(conn: seq<nat>, cuts: seq<nat>, fill: seq<nat>, sources: Layer, none: nat)
    requires Slots(cuts, sources, |conn|) && Filling(conn, cuts, fill, sources, none)
    ensures forall i :: 0 <= i < |fill| ==> cuts[i] + fill[i] <= Next(cuts, i) <= |conn|
  {
    forall i | 0 <= i < |fill| ensures cuts[i] + fill[i] <= Next(cuts, i) <= |conn| {
      assert NeuronFilling(conn, cuts[i], fill[i], Next(cuts, i), sources, none);
    }
  }

  /** What holds while the sources from `source` on wait to be connected. */
  ghost predicate Connecting(conn: seq<nat>, cuts: seq<nat>, fill: seq<nat>, sources: Layer, none: nat, source: nat)
    requires Slots(cuts, sources, |conn|) && source >= sources.first
  {
    Filling(conn, cuts, fill, sources, none) && Sum(fill) == |cuts| - 1 + (source - sources.first) &&
    Fed(conn, cuts[0], cuts[|cuts| - 1], sources.first, source) &&
    (forall i :: 0 <= i < |fill| ==> cuts[i] + fill[i] <= |conn|) && Unused(conn, cuts, fill, source, sources.last - 1)
  }

  lemma {:induction false} ConnectStep(conn: seq<nat>, cuts: seq<nat>, fill: seq<nat>, sources: Layer, none: nat,
                                       source: nat, i: nat)
    requires Slots(cuts, sources, |conn|) && sources.first <= source < sources.last - 1
    requires Connecting(conn, cuts, fill, sources, none, source)
    requires i < |fill| && cuts[i] + fill[i] < Next(cuts, i)
    ensures cuts[0] <= cuts[i] + fill[i] < cuts[|cuts| - 1]
    ensures Connecting(conn[cuts[i] + fill[i] := source], cuts, fill[i := fill[i] + 1], sources, none, source + 1)
  {
    hide NeuronFilling, Unused, Fed, Slots;
    var at := cuts[i] + fill[i];
    FillingLength(conn, cuts, fill, sources, none);
    SlotsAt(cuts, sources, |conn|, i);
    FillUnused(conn, cuts, fill, sources, none, i, source);
    FillSlot(conn, cuts, fill, sources, none, i, source);
    SlotFacts(conn, cuts, fill, sources, none, i);
    FillKeepsFed(conn, cuts[0], cuts[|cuts| - 1], sources.first, source, at, source);
    FedOneMore(conn[at := source], cuts[0], cuts[|cuts| - 1], sources.first, source);
    SumAt(fill, i);
    FillFits(conn[at := source], cuts, fill[i := fill[i] + 1], sources, none);
  }

  method ConnectSource(neurons: array<Neuron>, connections: array<nat>, sources: Layer, layer: Layer, none: nat,
                       source: nat, ghost cuts: seq<nat>, ghost fill: seq<nat>) returns (ghost fill': seq<nat>)
    requires OwnCuts(neurons[..], layer, cuts) && Slots(cuts, sources, connections.Length)
    requires sources.first <= source < sources.last - 1 && Connecting(connections[..], cuts, fill, sources, none, source)
    requires cuts[0] + Sum(fill) < cuts[|cuts| - 1]
    modifies connections
    ensures Connecting(connections[..], cuts, fill', sources, none, source + 1)
    ensures OnlyBetween(old(connections[..]), connections[..], cuts[0], cuts[|cuts| - 1])
  {
    hide NeuronFilling, Unused, Fed, Slots;
    ghost var before := connections[..];
    ghost var room := RoomSomewhere(cuts, fill);
    LastSlot(before, cuts, fill, sources, none, room);
    assert connections[neurons[layer.first + room].lastCon - 1] == none;
    var n :| layer.first <= n < layer.last - 1 && 0 < neurons[n].lastCon <= connections.Length &&
             connections[neurons[n].lastCon - 1] == none;
    ghost var i := n - layer.first;
    LastSlot(before, cuts, fill, sources, none, i);
    ConnectStep(before, cuts, fill, sources, none, source, i);
    var slot := EmptySlot(connections, neurons[n].firstCon, neurons[n].lastCon, none, fill[i], sources);
    connections[slot] := source;
    assert connections[..] == before[cuts[i] + fill[i] := source];
    fill' := fill[i := fill[i] + 1];
  }

  lemma {:induction false} LastSlot(conn: seq<nat>, cuts: seq<nat>, fill: seq<nat>, sources: Layer, none: nat, i: nat)
    requires Slots(cuts, sources, |conn|) && Filling(conn, cuts, fill, sources, none) && i < |fill|
    ensures NeuronFilling(conn, cuts[i], fill[i], Next(cuts, i), sources, none) && 0 < Next(cuts, i) <= |conn|
    ensures conn[Next(cuts, i) - 1] == none <==> cuts[i] + fill[i] < Next(cuts, i)
  {
    LastSlotTells(conn, cuts[i], fill[i], Next(cuts, i), sources, none);
  }

  lemma {:induction false} SlotFacts(conn: seq<nat>, cuts: seq<nat>, fill: seq<nat>, sources: Layer, none: nat, i: nat)
    requires Slots(cuts, sources, |conn|) && Filling(conn, cuts, fill, sources, none) && i < |fill|
    requires cuts[i] + fill[i] < Next(cuts, i)
    ensures cuts[0] <= cuts[i] + fill[i] < cuts[|cuts| - 1] && conn[cuts[i] + fill[i]] == none
  {
    assert NeuronFilling(conn, cuts[i], fill[i], Next(cuts, i), sources, none);
    assert cuts[i + 1] <= cuts[|cuts| - 1];
  }

  lemma {:induction false} FedOneMore(conn: seq<nat>, lo: nat, hi: nat, first: nat, limit: nat)
    requires lo <= hi <= |conn| && Fed(conn, lo, hi, first, limit) && limit in conn[lo..hi]
    ensures Fed(conn, lo, hi, first, limit + 1)
  {
  }

  /** Last, the empty slots of a neuron are filled with random sources it does not have yet; there always is one. */
  method FillNeuron(connections: array<nat>, sources: Layer, none: nat, first: nat, last: nat,
                    ghost cuts: seq<nat>, ghost fill: seq<nat>, ghost i: nat) returns (ghost fill': seq<nat>)
    requires Slots(cuts, sources, connections.Length) && Filling(connections[..], cuts, fill, sources, none)
    requires i < |fill| && first == cuts[i] && last == Next(cuts, i)
    requires Fed(connections[..], cuts[0], cuts[|cuts| - 1], sources.first, sources.last - 1)
    modifies connections
    ensures Filling(connections[..], cuts, fill', sources, none) && |fill'| == |fill|
    ensures forall j :: 0 <= j < |fill| ==> fill'[j] == if j == i then last - first else fill[j]
    ensures Fed(connections[..], cuts[0], cuts[|cuts| - 1], sources.first, sources.last - 1)
    ensures OnlyBetween(old(connections[..]), connections[..], cuts[0], cuts[|cuts| - 1])
  {
    hide NeuronFilling, Fed, Slots, Filling;
    fill' := fill;
    FillingLength(connections[..], cuts, fill, sources, none);
    SlotsAt(cuts, sources, connections.Length, i);
    for slot := first to last
      invariant Filling(connections[..], cuts, fill', sources, none) && |fill'| == |fill|
      invariant first + fill'[i] >= slot && forall j :: 0 <= j < |fill| && j != i ==> fill'[j] == fill[j]
      invariant Fed(connections[..], cuts[0], cuts[|cuts| - 1], sources.first, sources.last - 1)
      invariant OnlyBetween(old(connections[..]), connections[..], cuts[0], cuts[|cuts| - 1])
    {
      ghost var before := connections[..];
      EmptyOrFilled(before, cuts, fill', sources, none, i, slot);
      if connections[slot] == none {
        ghost var left := AnotherSource(before, cuts, fill', sources, none, i);
        var source: nat :| sources.first <= source < sources.last - 1 && source !in connections[first..slot];
        FillMore(before, cuts, fill', sources, none, i, source);
        OnlyBetweenAlso(old(connections[..]), before, cuts[0], cuts[|cuts| - 1], slot, source);
        connections[slot] := source;
        assert connections[..] == before[slot := source];
        fill' := fill'[i := fill'[i] + 1];
      }
    }
    FillAtMost(connections[..], cuts, fill', sources, none, i);
  }

  lemma {:induction false} FillingLength(conn: seq<nat>, cuts: seq<nat>, fill: seq<nat>, sources: Layer, none: nat)
    requires Slots(cuts, sources, |conn|) && Filling(conn, cuts, fill, sources, none)
    ensures |fill| + 1 == |cuts| && sources.last <= none && forall i :: 0 <= i < |fill| ==> Next(cuts, i) <= |conn|
  {
    FillFits(conn, cuts, fill, sources, none);
  }

  /** A neuron with an empty slot lacks a source. */
  lemma {:induction false} AnotherSource(conn: seq<nat>, cuts: seq<nat>, fill: seq<nat>, sources: Layer, none: nat, i: nat)
    returns (s: nat)
    requires Slots(cuts, sources, |conn|) && Filling(conn, cuts, fill, sources, none)
    requires i < |fill| && cuts[i] + fill[i] < Next(cuts, i)
    ensures Next(cuts, i) <= |conn| && sources.first <= s < sources.last - 1 && s !in conn[cuts[i]..cuts[i] + fill[i]]
  {
    assert NeuronFilling(conn, cuts[i], fill[i], Next(cuts, i), sources, none);
    var used := conn[cuts[i]..cuts[i] + fill[i]];
    assert used[0] == sources.last - 1;
    s := SourceLeft(used, sources.first, sources.last);
  }

  lemma {:induction false} FillMore(conn: seq<nat>, cuts: seq<nat>, fill: seq<nat>, sources: Layer, none: nat, i: nat, s: nat)
    requires Slots(cuts, sources, |conn|) && Filling(conn, cuts, fill, sources, none)
    requires i < |fill| && cuts[i] + fill[i] < Next(cuts, i) <= |conn|
    requires sources.first <= s < sources.last - 1 && s !in conn[cuts[i]..cuts[i] + fill[i]]
    requires Fed(conn, cuts[0], cuts[|cuts| - 1], sources.first, sources.last - 1)
    ensures cuts[0] <= cuts[i] + fill[i] < cuts[|cuts| - 1]
    ensures Filling(conn[cuts[i] + fill[i] := s], cuts, fill[i := fill[i] + 1], sources, none)
    ensures Fed(conn[cuts[i] + fill[i] := s], cuts[0], cuts[|cuts| - 1], sources.first, sources.last - 1)
  {
    hide NeuronFilling, Fed, Filling, Slots;
    FillingLength(conn, cuts, fill, sources, none);
    SlotEnds(cuts, sources, |conn|);
    FillSlot(conn, cuts, fill, sources, none, i, s);
    SlotFacts(conn, cuts, fill, sources, none, i);
    FillKeepsFed(conn, cuts[0], cuts[|cuts| - 1], sources.first, sources.last - 1, cuts[i] + fill[i], s);
  }

  lemma {:induction false} EmptyOrFilled(conn: seq<nat>, cuts: seq<nat>, fill: seq<nat>, sources: Layer, none: nat, i: nat, x: nat)
    requires Slots(cuts, sources, |conn|) && Filling(conn, cuts, fill, sources, none) && i < |fill|
    requires cuts[i] <= x < Next(cuts, i)
    ensures Next(cuts, i) <= |conn| && (conn[x] == none <==> cuts[i] + fill[i] <= x)
    ensures fill[i] >= 1 && conn[cuts[i]] == sources.last - 1
  {
    assert NeuronFilling(conn, cuts[i], fill[i], Next(cuts, i), sources, none);
  }

  lemma {:induction false} FillAtMost(conn: seq<nat>, cuts: seq<nat>, fill: seq<nat>, sources: Layer, none: nat, i: nat)
    requires Slots(cuts, sources, |conn|) && Filling(conn, cuts, fill, sources, none) && i < |fill|
    ensures cuts[i] + fill[i] <= Next(cuts, i)
  {
    assert NeuronFilling(conn, cuts[i], fill[i], Next(cuts, i), sources, none);
  }

  /** The three passes: all slots of the layer are filled, each neuron has the bias and otherwise different sources, and
      every source feeds some neuron. */
  method WireLayer(neurons: array<Neuron>, connections: array<nat>, sources: Layer, layer: Layer, none: nat,
                   ghost cuts: seq<nat>)
    requires OwnCuts(neurons[..], layer, cuts) && Slots(cuts, sources, connections.Length) && sources.last <= none
    requires forall x :: cuts[0] <= x < cuts[|cuts| - 1] ==> connections[x] == none
    requires cuts[0] + (|cuts| - 1) + (sources.last - 1 - sources.first) <= cuts[|cuts| - 1]
    modifies connections
    ensures Wired(connections[..], cuts, sources)
    ensures OnlyBetween(old(connections[..]), connections[..], cuts[0], cuts[|cuts| - 1])
  {
    hide NeuronFilling, Fed;
    ConnectBias(neurons, connections, sources, layer, none, cuts);
    ghost var withBias := connections[..];
    ghost var fill := ConnectSources(neurons, connections, sources, layer, none, cuts);
    OnlyBetweenTrans(old(connections[..]), withBias, connections[..], cuts[0], cuts[|cuts| - 1]);
    for n := layer.first to layer.last - 1
      invariant Filling(connections[..], cuts, fill, sources, none) && |fill| == |cuts| - 1
      invariant forall j :: 0 <= j < n - layer.first ==> cuts[j] + fill[j] == Next(cuts, j)
      invariant Fed(connections[..], cuts[0], cuts[|cuts| - 1], sources.first, sources.last - 1)
      invariant OnlyBetween(old(connections[..]), connections[..], cuts[0], cuts[|cuts| - 1])
    {
      ghost var before := connections[..];
      fill := FillNeuron(connections, sources, none, neurons[n].firstCon, neurons[n].lastCon, cuts, fill, n - layer.first);
      OnlyBetweenTrans(old(connections[..]), before, connections[..], cuts[0], cuts[|cuts| - 1]);
    }
    FilledIsWired(connections[..], cuts, fill, sources, none);
  }

  lemma {:induction false} FilledIsWired(conn: seq<nat>, cuts: seq<nat>, fill: seq<nat>, sources: Layer, none: nat)
    requires Slots(cuts, sources, |conn|) && Filling(conn, cuts, fill, sources, none)
    requires forall j :: 0 <= j < |fill| ==> cuts[j] + fill[j] == Next(cuts, j)
    requires Fed(conn, cuts[0], cuts[|cuts| - 1], sources.first, sources.last - 1)
    ensures Wired(conn, cuts, sources)
  {
    forall i | 0 <= i < |cuts| - 1 ensures NeuronWired(conn, cuts[i], Next(cuts, i), sources) {
      assert NeuronFilling(conn, cuts[i], fill[i], Next(cuts, i), sources, none);
    }
    assert NeuronFilling(conn, cuts[0], fill[0], Next(cuts, 0), sources, none);
    assert conn[cuts[0]..cuts[|cuts| - 1]][0] == sources.last - 1;
  }

  // ---- All layers ----

  /** Every layer has its neurons and then a bias; none is empty. */
  ghost predicate BiasedLayers(layers: seq<Layer>, total: nat) {
    Tiled(layers, total) && forall k :: 0 <= k < |layers| ==> layers[k].first + 2 <= layers[k].last
  }

  /** The number of connections of layer `k`. */
  function ConnectionsOf(rate: real, layers: seq<Layer>, k: nat): nat
    requires 0.0 <= rate <= 1.0 && 0 < k < |layers|
    requires layers[k - 1].first < layers[k - 1].last && layers[k].first < layers[k].last
  {
    NumConnections(rate, layers[k - 1].last - layers[k - 1].first - 1, layers[k].last - layers[k].first - 1)
  }

  ghost function CutsOf(start: nat, c: nat, n: nat): (cuts: seq<nat>)
    requires n > 0
    ensures |cuts| == n + 1 && forall i :: 0 <= i <= n ==> cuts[i] == start + Cut(c, n, i)
  {
    seq(n + 1, i requires 0 <= i <= n => start + Cut(c, n, i))
  }

  lemma {:induction false} CutsAscend(rate: real, numIn: nat, numOut: nat, i: nat, j: nat)
    requires 0.0 <= rate <= 1.0 && numIn > 0 && numOut > 0 && i <= j
    ensures Cut(NumConnections(rate, numIn, numOut), numOut, i) <= Cut(NumConnections(rate, numIn, numOut), numOut, j)
    decreases j
  {
    hide Cut, NumConnections;
    if i < j {
      CutsAscend(rate, numIn, numOut, i, j - 1);
      ShareSizes(rate, numIn, numOut, j - 1);
    }
  }

  /** The cuts of a layer leave every neuron a fitting number of slots, and all sources find a slot. */
  lemma {:induction false} CutsFit(rate: real, layers: seq<Layer>, total: nat, k: nat, start: nat, slots: nat)
    requires 0.0 <= rate <= 1.0 && BiasedLayers(layers, total) && 0 < k < |layers|
    requires start + ConnectionsOf(rate, layers, k) <= slots
    ensures var n := layers[k].last - layers[k].first - 1; var c := ConnectionsOf(rate, layers, k);
            var cuts := CutsOf(start, c, n);
            Slots(cuts, layers[k - 1], slots) && cuts[0] == start && cuts[n] == start + c &&
            start + n + (layers[k - 1].last - 1 - layers[k - 1].first) <= start + c
  {
    hide Cut, NumConnections;
    var numIn, n := layers[k - 1].last - layers[k - 1].first - 1, layers[k].last - layers[k].first - 1;
    var c := ConnectionsOf(rate, layers, k);
    var cuts := CutsOf(start, c, n);
    CutEnds(c, n);
    Partners(rate, numIn, n);
    forall i, j | 0 <= i <= j < |cuts| ensures cuts[i] <= cuts[j] { CutsAscend(rate, numIn, n, i, j); }
    forall i | 0 <= i < |cuts| - 1 ensures cuts[i] + 2 <= Next(cuts, i) <= cuts[i] + numIn + 1 {
      ShareSizes(rate, numIn, n, i);
    }
  }

  /** The neurons of layer `k` own its connections, which begin at `start`; its bias owns none. */
  ghost predicate LayerOwns(neurons: seq<Neuron>, rate: real, layers: seq<Layer>, k: nat, start: nat)
    requires 0.0 <= rate <= 1.0 && 0 < k < |layers|
  {
    layers[k - 1].first < layers[k - 1].last && layers[k].first + 2 <= layers[k].last <= |neurons| &&
    var n, c := layers[k].last - layers[k].first - 1, ConnectionsOf(rate, layers, k);
    OwnCuts(neurons, layers[k], CutsOf(start, c, n)) &&
    neurons[layers[k].last - 1].firstCon == neurons[layers[k].last - 1].lastCon == start + c
  }

  /** The connections of layer `k` begin at `starts[k]`, and those of the next layer follow them. */
  ghost predicate StartsStep(rate: real, layers: seq<Layer>, starts: seq<nat>, k: nat)
    requires 0.0 <= rate <= 1.0 && 0 < k < |layers| && k + 1 < |starts|
  {
    layers[k - 1].first < layers[k - 1].last && layers[k].first < layers[k].last &&
    starts[k + 1] == starts[k] + ConnectionsOf(rate, layers, k)
  }

  ghost predicate StartsAt(rate: real, layers: seq<Layer>, starts: seq<nat>)
    requires 0.0 <= rate <= 1.0
  {
    2 <= |starts| <= |layers| + 1 && starts[1] == 0 &&
    forall k :: 0 < k < |starts| - 1 ==> StartsStep(rate, layers, starts, k)
  }

  /** The split of one layer. */
  method SplitLayer(neurons: array<Neuron>, rate: real, layers: seq<Layer>, k: nat, start: nat, total: nat,
                    activation: nat, steepness: real)
    requires 0.0 <= rate <= 1.0 && BiasedLayers(layers, total) && total == neurons.Length && 0 < k < |layers|
    modifies neurons
    ensures LayerOwns(neurons[..], rate, layers, k, start)
    ensures Equipped(neurons[..], layers[k].first, layers[k].last - 1, activation, steepness)
    ensures forall x :: 0 <= x < neurons.Length && !(layers[k].first <= x < layers[k].last) ==>
      neurons[x] == old(neurons[x])
  {
    hide Cut, NumConnections, OwnsShare;
    if k + 1 < |layers| { LayersOrdered(layers, total, k, |layers| - 1); }
    var n := layers[k].last - layers[k].first - 1;
    var c := ConnectionsOf(rate, layers, k);
    SplitConnections(neurons, layers[k].first, n, start, c, activation, steepness);
    forall x | layers[k].first <= x < layers[k].last - 1
      ensures neurons[x].firstCon == start + Cut(c, n, x - layers[k].first)
      ensures neurons[x].lastCon == start + Cut(c, n, x - layers[k].first + 1)
    {
      Owned(neurons[x], start, c, n, x - layers[k].first);
    }
  }

  lemma {:induction false} Owned(u: Neuron, start: nat, c: nat, n: nat, i: nat)
    requires n > 0 && OwnsShare(u, start, c, n, i)
    ensures u.firstCon == start + Cut(c, n, i) && u.lastCon == start + Cut(c, n, i + 1)
  {
    hide Cut;
  }

  /** Splits the connections of all layers. */
  method SplitAll(neurons: array<Neuron>, rate: real, layers: seq<Layer>, total: nat, activation: nat, steepness: real)
    returns (totalConnections: nat, ghost starts: seq<nat>)
    requires 0.0 <= rate <= 1.0 && BiasedLayers(layers, total) && total == neurons.Length
    modifies neurons
    ensures StartsAt(rate, layers, starts) && |starts| == |layers| + 1 && totalConnections == starts[|layers|]
    ensures forall k :: 0 < k < |layers| ==> LayerOwns(neurons[..], rate, layers, k, starts[k])
    ensures forall k :: 0 < k < |layers| ==>
      Equipped(neurons[..], layers[k].first, layers[k].last - 1, activation, steepness)
  {
    hide LayerOwns, NumConnections, Equipped;
    totalConnections := 0;
    starts := [0, 0];
    for k := 1 to |layers|
      invariant StartsAt(rate, layers, starts) && |starts| == k + 1 && totalConnections == starts[k]
      invariant forall j :: 0 < j < k ==> LayerOwns(neurons[..], rate, layers, j, starts[j])
      invariant forall j :: 0 < j < k ==>
        Equipped(neurons[..], layers[j].first, layers[j].last - 1, activation, steepness)
    {
      ghost var before := neurons[..];
      ghost var starts0 := starts;
      SplitLayer(neurons, rate, layers, k, totalConnections, total, activation, steepness);
      forall j | 0 < j < k
        ensures LayerOwns(neurons[..], rate, layers, j, starts0[j])
        ensures Equipped(neurons[..], layers[j].first, layers[j].last - 1, activation, steepness)
      {
        LayersOrdered(layers, total, j, k);
        assert LayerOwns(before, rate, layers, j, starts0[j]);
        OwnsWithin(before, rate, layers, j, starts0[j]);
        assert forall x :: layers[j].first <= x < layers[j].last ==> before[x] == neurons[..][x];
        OwnsStill(before, neurons[..], rate, layers, j, starts0[j]);
        EquippedStill(before, neurons[..], layers[j].first, layers[j].last - 1, activation, steepness);
      }
      totalConnections := totalConnections + ConnectionsOf(rate, layers, k);
      starts := starts + [totalConnections];
      StartsMore(rate, layers, starts0, k, starts);
    }
  }

  lemma {:induction false} StartsMore(rate: real, layers: seq<Layer>, starts: seq<nat>, k: nat, more: seq<nat>)
    requires 0.0 <= rate <= 1.0 && StartsAt(rate, layers, starts) && |starts| == k + 1 && 0 < k < |layers|
    requires layers[k - 1].first < layers[k - 1].last && layers[k].first < layers[k].last
    requires more == starts + [starts[k] + ConnectionsOf(rate, layers, k)]
    ensures StartsAt(rate, layers, more)
  {
    hide NumConnections;
    forall j | 0 < j < |more| - 1 ensures StartsStep(rate, layers, more, j) {
      if j < k { assert StartsStep(rate, layers, starts, j); }
    }
  }

  lemma {:induction false} OwnsWithin(a: seq<Neuron>, rate: real, layers: seq<Layer>, k: nat, start: nat)
    requires 0.0 <= rate <= 1.0 && 0 < k < |layers| && LayerOwns(a, rate, layers, k, start)
    ensures layers[k].last <= |a|
  {
  }

  lemma {:induction false} OwnsStill(a: seq<Neuron>, b: seq<Neuron>, rate: real, layers: seq<Layer>, k: nat, start: nat)
    requires 0.0 <= rate <= 1.0 && 0 < k < |layers| && LayerOwns(a, rate, layers, k, start) && |a| == |b|
    requires forall x :: layers[k].first <= x < layers[k].last ==> a[x] == b[x]
    ensures LayerOwns(b, rate, layers, k, start)
  {
  }

  // ---- The connections of all layers ----

  ghost function LayerCuts(rate: real, layers: seq<Layer>, k: nat, start: nat): (cuts: seq<nat>)
    requires 0.0 <= rate <= 1.0 && 0 < k < |layers|
    requires layers[k - 1].first < layers[k - 1].last && layers[k].first + 2 <= layers[k].last
    ensures |cuts| == layers[k].last - layers[k].first
  {
    CutsOf(start, ConnectionsOf(rate, layers, k), layers[k].last - layers[k].first - 1)
  }

  /** Layer `k` is wired completely. */
  ghost predicate LayerWired(conn: seq<nat>, rate: real, layers: seq<Layer>, k: nat, start: nat)
    requires 0.0 <= rate <= 1.0 && 0 < k < |layers|
  {
    layers[k - 1].first < layers[k - 1].last && layers[k].first + 2 <= layers[k].last &&
    Slots(LayerCuts(rate, layers, k, start), layers[k - 1], |conn|) &&
    Wired(conn, LayerCuts(rate, layers, k, start), layers[k - 1])
  }

  lemma {:induction false} StartsAscend(rate: real, layers: seq<Layer>, starts: seq<nat>, i: nat, j: nat)
    requires 0.0 <= rate <= 1.0 && StartsAt(rate, layers, starts) && 0 < i <= j < |starts|
    ensures starts[i] <= starts[j]
    decreases j
  {
    hide NumConnections;
    if i < j {
      StartsAscend(rate, layers, starts, i, j - 1);
      assert StartsStep(rate, layers, starts, j - 1);
    }
  }

  /** Wiring is a matter of the layer's own slots. */
  lemma {:induction false} WiredStill(a: seq<nat>, b: seq<nat>, rate: real, layers: seq<Layer>, k: nat, start: nat, end: nat, hi: nat)
    requires 0.0 <= rate <= 1.0 && 0 < k < |layers| && LayerWired(a, rate, layers, k, start)
    requires OnlyBetween(a, b, end, hi)
    requires start + ConnectionsOf(rate, layers, k) <= end <= |a|
    ensures LayerWired(b, rate, layers, k, start)
  {
    hide Cut, NumConnections, NeuronWired;
    var cuts := LayerCuts(rate, layers, k, start);
    var n := layers[k].last - layers[k].first - 1;
    CutEnds(ConnectionsOf(rate, layers, k), n);
    assert cuts[n] <= end;
    forall i | 0 <= i < n ensures NeuronWired(b, cuts[i], Next(cuts, i), layers[k - 1]) {
      assert NeuronWired(a, cuts[i], Next(cuts, i), layers[k - 1]);
      assert Next(cuts, i) <= cuts[n];
      NeuronWiredStill(a, b, cuts[i], Next(cuts, i), layers[k - 1], end, hi);
    }
    assert a[cuts[0]..cuts[n]] == b[cuts[0]..cuts[n]];
  }

  lemma {:induction false} NeuronWiredStill(a: seq<nat>, b: seq<nat>, start: nat, end: nat, sources: Layer, lo: nat, hi: nat)
    requires NeuronWired(a, start, end, sources) && OnlyBetween(a, b, lo, hi) && end <= lo
    ensures NeuronWired(b, start, end, sources)
  {
  }

  /** Wires all layers of a network that is not fully connected. */
  method WireAll(neurons: array<Neuron>, connections: array<nat>, rate: real, layers: seq<Layer>, total: nat,
                 ghost starts: seq<nat>)
    requires 0.0 <= rate <= 1.0 && BiasedLayers(layers, total) && total == neurons.Length
    requires StartsAt(rate, layers, starts) && |starts| == |layers| + 1 && connections.Length == starts[|layers|]
    requires forall k :: 0 < k < |layers| ==> LayerOwns(neurons[..], rate, layers, k, starts[k])
    requires forall x :: 0 <= x < connections.Length ==> connections[x] == total
    modifies connections
    ensures forall k :: 0 < k < |layers| ==> LayerWired(connections[..], rate, layers, k, starts[k])
  {
    hide NumConnections, Cut, LayerWired, LayerOwns, StartsAt, OnlyBetween;
    for k := 1 to |layers|
      invariant forall j :: 0 < j < k ==> LayerWired(connections[..], rate, layers, j, starts[j])
      invariant forall x :: starts[k] <= x < connections.Length ==> connections[x] == total
    {
      ghost var before := connections[..];
      StartsUpTo(rate, layers, starts, k);
      WireNext(neurons, connections, rate, layers, total, k, starts[k]);
      StartsAscend(rate, layers, starts, k + 1, |layers|);
      forall j | 0 < j < k ensures LayerWired(connections[..], rate, layers, j, starts[j]) {
        StartsUpTo(rate, layers, starts, j);
        StartsAscend(rate, layers, starts, j + 1, k);
        WiredStill(before, connections[..], rate, layers, j, starts[j], starts[k], starts[k + 1]);
      }
      UntouchedBehind(before, connections[..], starts[k], starts[k + 1], total);
    }
  }

  lemma {:induction false} StartsUpTo(rate: real, layers: seq<Layer>, starts: seq<nat>, k: nat)
    requires 0.0 <= rate <= 1.0 && StartsAt(rate, layers, starts) && 0 < k < |starts| - 1
    ensures k < |layers| && layers[k - 1].first < layers[k - 1].last && layers[k].first < layers[k].last
    ensures starts[k + 1] == starts[k] + ConnectionsOf(rate, layers, k)
    ensures starts[k] <= starts[k + 1] <= starts[|starts| - 1]
  {
    hide NumConnections;
    assert StartsStep(rate, layers, starts, k);
    StartsAscend(rate, layers, starts, k + 1, |starts| - 1);
  }

  lemma {:induction false} UntouchedBehind(a: seq<nat>, b: seq<nat>, lo: nat, hi: nat, none: nat)
    requires OnlyBetween(a, b, lo, hi) && lo <= hi && forall x :: lo <= x < |a| ==> a[x] == none
    ensures forall x :: hi <= x < |b| ==> b[x] == none
  {
  }

  /** One round of WireAll: the layer whose connections begin at `start`. */
  method WireNext(neurons: array<Neuron>, connections: array<nat>, rate: real, layers: seq<Layer>, total: nat, k: nat,
                  ghost start: nat)
    requires 0.0 <= rate <= 1.0 && BiasedLayers(layers, total) && total == neurons.Length && 0 < k < |layers|
    requires LayerOwns(neurons[..], rate, layers, k, start)
    requires start + ConnectionsOf(rate, layers, k) <= connections.Length
    requires forall x :: start <= x < connections.Length ==> connections[x] == total
    modifies connections
    ensures LayerWired(connections[..], rate, layers, k, start)
    ensures OnlyBetween(old(connections[..]), connections[..], start, start + ConnectionsOf(rate, layers, k))
  {
    hide NumConnections, Cut, Wired, Slots, OnlyBetween;
    CutsFit(rate, layers, total, k, start, connections.Length);
    LayersOrdered(layers, total, k - 1, k);
    if k + 1 < |layers| { LayersOrdered(layers, total, k, |layers| - 1); }
    WireLayer(neurons, connections, layers[k - 1], layers[k], total, LayerCuts(rate, layers, k, start));
  }

  // ---- How many connections a rate asks for ----

  /** Between `a` sources and `b` neurons the rate asks for `m` connections, the bias apart: the share of all a * b that
      the rate names, rounded to the nearest (halves up), but at least as many as the larger side has neurons. */
  ghost predicate Asked(rate: real, a: nat, b: nat, m: nat) {
    var share, most := rate * (a * b) as real, if a > b then a else b;
    if share < most as real - 0.5 then m == most else m as real - 0.5 <= share < m as real + 0.5
  }

  lemma {:induction false} AskedFor(rate: real, a: nat, b: nat) returns (m: nat)
    requires 0.0 <= rate <= 1.0
    ensures Asked(rate, a, b, m) && NumConnections(rate, a, b) == m + b
  {
    ShareBound(rate, a * b);
    m := NumConnections(rate, a, b) - b;
    var x := 0.5 + rate * (a * b) as real;
    assert x.Floor as real <= x < x.Floor as real + 1.0;
  }

  /** The number of connections that neurons `first .. last` own. */
  ghost function OwnedBy(neurons: seq<Neuron>, first: nat, last: nat): int
    requires first <= last <= |neurons|
    decreases last
  {
    if first == last then 0 else OwnedBy(neurons, first, last - 1) + (neurons[last - 1].lastCon - neurons[last - 1].firstCon)
  }

  /** The neurons of layer `k` own as many connections as the rate asks for, and one for the bias each. */
  ghost predicate OwnsAsked(neurons: seq<Neuron>, rate: real, layers: seq<Layer>, k: nat)
    requires 0 < k < |layers|
  {
    layers[k - 1].first < layers[k - 1].last && layers[k].first < layers[k].last <= |neurons| &&
    var a, b := layers[k - 1].last - layers[k - 1].first - 1, layers[k].last - layers[k].first - 1;
    var m := OwnedBy(neurons, layers[k].first, layers[k].last) - b;
    m >= 0 && Asked(rate, a, b, m)
  }

  lemma {:induction false} OwnedOfCuts(neurons: seq<Neuron>, layer: Layer, cuts: seq<nat>, i: nat)
    requires OwnCuts(neurons, layer, cuts) && i < |cuts|
    ensures cuts[0] + OwnedBy(neurons, layer.first, layer.first + i) == cuts[i]
  {
    if i > 0 {
      OwnedOfCuts(neurons, layer, cuts, i - 1);
      assert Next(cuts, i - 1) == cuts[i];
    }
  }

  lemma {:induction false} LayerOwnsAsked(neurons: seq<Neuron>, rate: real, layers: seq<Layer>, k: nat, start: nat)
    requires 0.0 <= rate <= 1.0 && 0 < k < |layers| && LayerOwns(neurons, rate, layers, k, start)
    ensures OwnsAsked(neurons, rate, layers, k)
    ensures layers[k - 1].first < layers[k - 1].last && layers[k].first < layers[k].last <= |neurons|
    ensures OwnedBy(neurons, layers[k].first, layers[k].last) == ConnectionsOf(rate, layers, k)
  {
    hide Cut, NumConnections, Asked;
    var a, b := layers[k - 1].last - layers[k - 1].first - 1, layers[k].last - layers[k].first - 1;
    var c := ConnectionsOf(rate, layers, k);
    CutEnds(c, b);
    OwnedOfCuts(neurons, layers[k], CutsOf(start, c, b), b);
    var m := AskedFor(rate, a, b);
  }

  /** Neighbouring ranges of neurons add up. */
  lemma {:induction false} OwnedJoins(neurons: seq<Neuron>, first: nat, mid: nat, last: nat)
    requires first <= mid <= last <= |neurons|
    ensures OwnedBy(neurons, first, last) == OwnedBy(neurons, first, mid) + OwnedBy(neurons, mid, last)
    decreases last
  {
    if mid < last { OwnedJoins(neurons, first, mid, last - 1); }
  }

  /** Every connection belongs to one neuron. */
  lemma {:induction false} OwnedTotal(neurons: seq<Neuron>, rate: real, layers: seq<Layer>, starts: seq<nat>, total: nat, k: nat)
    requires 0.0 <= rate <= 1.0 && BiasedLayers(layers, total) && total == |neurons|
    requires StartsAt(rate, layers, starts) && |starts| == |layers| + 1 && 0 < k <= |layers|
    requires forall j :: 0 < j < |layers| ==> LayerOwns(neurons, rate, layers, j, starts[j])
    ensures layers[1].first <= layers[k - 1].last <= |neurons| || k == 1
    ensures k > 1 ==> OwnedBy(neurons, layers[1].first, layers[k - 1].last) == starts[k]
  {
    hide LayerOwns, ConnectionsOf, OwnsAsked;
    if k > 1 {
      OwnedTotal(neurons, rate, layers, starts, total, k - 1);
      LayerOwnsAsked(neurons, rate, layers, k - 1, starts[k - 1]);
      assert StartsStep(rate, layers, starts, k - 1);
      if k > 2 { OwnedJoins(neurons, layers[1].first, layers[k - 1].first, layers[k - 1].last); }
    }
  }

  /** The connections of layer `k` begin at `starts[k]`; they are shared out among its neurons, and below the full rate
      their slots are wired completely. */
  ghost predicate WiredFrom(neurons: seq<Neuron>, conn: seq<nat>, rate: real, layers: seq<Layer>, starts: seq<nat>)
    requires 0.0 <= rate <= 1.0
  {
    |starts| == |layers| + 1 && StartsAt(rate, layers, starts) && starts[|layers|] == |conn| &&
    (forall k :: 0 < k < |layers| ==> LayerOwns(neurons, rate, layers, k, starts[k])) &&
    (rate < 1.0 ==> forall k :: 0 < k < |layers| ==> LayerWired(conn, rate, layers, k, starts[k]))
  }

  ghost predicate AllWired(neurons: seq<Neuron>, conn: seq<nat>, rate: real, layers: seq<Layer>)
    requires 0.0 <= rate <= 1.0
  {
    exists starts :: WiredFrom(neurons, conn, rate, layers, starts)
  }

  lemma {:induction false} WiredEverywhere(neurons: seq<Neuron>, conn: seq<nat>, rate: real, layers: seq<Layer>, starts: seq<nat>)
    requires 0.0 <= rate <= 1.0
    requires |starts| == |layers| + 1 && StartsAt(rate, layers, starts) && starts[|layers|] == |conn|
    requires forall k :: 0 < k < |layers| ==> LayerOwns(neurons, rate, layers, k, starts[k])
    requires rate < 1.0 ==> forall k :: 0 < k < |layers| ==> LayerWired(conn, rate, layers, k, starts[k])
    ensures AllWired(neurons, conn, rate, layers)
  {
    hide LayerWired, LayerOwns, StartsAt;
    assert WiredFrom(neurons, conn, rate, layers, starts);
  }

  /** What a complete wiring means for the connections of one neuron: of the `m` connections that the rate asks for, and
      one for each bias, it owns its share; the first one leads to the bias, and all lead to different neurons of the
      layer before. */
  lemma {:induction false} NeuronOfWired(neurons: seq<Neuron>, conn: seq<nat>, rate: real, layers: seq<Layer>, k: nat, n: nat)
    returns (m: nat)
    requires 0.0 <= rate < 1.0 && AllWired(neurons, conn, rate, layers)
    requires 0 < k < |layers| && layers[k].first <= n < layers[k].last - 1
    ensures layers[k - 1].first < layers[k - 1].last && n < |neurons|
    ensures var a, b, i := layers[k - 1].last - layers[k - 1].first - 1, layers[k].last - layers[k].first - 1, n - layers[k].first;
            Asked(rate, a, b, m) &&
            neurons[n].lastCon - neurons[n].firstCon == (m + b) * (i + 1) / b - (m + b) * i / b
    ensures NeuronWired(conn, neurons[n].firstCon, neurons[n].lastCon, layers[k - 1])
  {
    hide NumConnections, Asked, Cut, AllWired, NeuronWired;
    NeuronShare(neurons, conn, rate, layers, k, n);
    var a, b, i := layers[k - 1].last - layers[k - 1].first - 1, layers[k].last - layers[k].first - 1, n - layers[k].first;
    m := AskedFor(rate, a, b);
    CutIs(m + b, b, i);
  }

  lemma {:induction false} NeuronShare(neurons: seq<Neuron>, conn: seq<nat>, rate: real, layers: seq<Layer>, k: nat, n: nat)
    requires 0.0 <= rate < 1.0 && AllWired(neurons, conn, rate, layers)
    requires 0 < k < |layers| && layers[k].first <= n < layers[k].last - 1
    ensures layers[k - 1].first < layers[k - 1].last && n < |neurons|
    ensures var c, b, i := ConnectionsOf(rate, layers, k), layers[k].last - layers[k].first - 1, n - layers[k].first;
            neurons[n].lastCon - neurons[n].firstCon == Cut(c, b, i + 1) - Cut(c, b, i)
    ensures NeuronWired(conn, neurons[n].firstCon, neurons[n].lastCon, layers[k - 1])
  {
    hide Cut, NumConnections, StartsAt;
    var starts :| WiredFrom(neurons, conn, rate, layers, starts);
    assert LayerOwns(neurons, rate, layers, k, starts[k]) && LayerWired(conn, rate, layers, k, starts[k]);
    var cuts := LayerCuts(rate, layers, k, starts[k]);
    assert NeuronWired(conn, cuts[n - layers[k].first], Next(cuts, n - layers[k].first), layers[k - 1]);
  }

  lemma {:induction false} CutIs(c: nat, n: nat, i: nat)
    requires n > 0
    ensures Cut(c, n, i) == c * i / n && Cut(c, n, i + 1) == c * (i + 1) / n
  {
  }

  /** And for one neuron of the layer before: some neuron of the layer reads it. */
  lemma {:induction false} SourceOfWired(neurons: seq<Neuron>, conn: seq<nat>, rate: real, layers: seq<Layer>, k: nat, s: nat)
    returns (n: nat, x: nat)
    requires 0.0 <= rate < 1.0 && AllWired(neurons, conn, rate, layers)
    requires 0 < k < |layers| && layers[k - 1].first <= s < layers[k - 1].last
    ensures layers[k].first <= n < layers[k].last - 1 && n < |neurons|
    ensures neurons[n].firstCon <= x < neurons[n].lastCon && x < |conn| && conn[x] == s
  {
    hide Cut, NumConnections, StartsAt, Wired, Slots;
    var starts :| WiredFrom(neurons, conn, rate, layers, starts);
    assert LayerOwns(neurons, rate, layers, k, starts[k]) && LayerWired(conn, rate, layers, k, starts[k]);
    var i;
    i, x := FedSlot(conn, LayerCuts(rate, layers, k, starts[k]), layers[k - 1], s);
    n := layers[k].first + i;
  }

  lemma {:induction false} FedSlot(conn: seq<nat>, cuts: seq<nat>, sources: Layer, s: nat) returns (i: nat, x: nat)
    requires Slots(cuts, sources, |conn|) && Wired(conn, cuts, sources) && sources.first <= s < sources.last
    ensures i + 1 < |cuts| && cuts[i] <= x < Next(cuts, i) && x < |conn| && conn[x] == s
  {
    hide NeuronWired, Slots;
    SlotEnds(cuts, sources, |conn|);
    var all := conn[cuts[0]..cuts[|cuts| - 1]];
    assert s in all;
    var j :| 0 <= j < |all| && all[j] == s;
    x := cuts[0] + j;
    i := CutBehind(cuts, x);
  }

  /** Every slot lies between two cuts. */
  lemma {:induction false} CutBehind(cuts: seq<nat>, x: nat) returns (i: nat)
    requires |cuts| >= 2 && cuts[0] <= x < cuts[|cuts| - 1]
    ensures i + 1 < |cuts| && cuts[i] <= x < Next(cuts, i)
    decreases |cuts|
  {
    if x < cuts[1] || |cuts| == 2 {
      i := 0;
    } else {
      i := CutBehind(cuts[1..], x);
      i := i + 1;
    }
  }

  // ---- Full connection ----

  /** Each neuron's slots name all sources in order, the bias last. */
  ghost predicate Full(conn: seq<nat>, cuts: seq<nat>, sources: Layer)
    requires Slots(cuts, sources, |conn|)
  {
    forall i, x :: 0 <= i < |cuts| - 1 && cuts[i] <= x < Next(cuts, i) ==> conn[x] == sources.first + (x - cuts[i])
  }

  ghost predicate FullSoFar(conn: seq<nat>, cuts: seq<nat>, k: nat, sources: Layer)
    requires Slots(cuts, sources, |conn|)
  {
    k < |cuts| &&
    forall i, x :: 0 <= i < k && cuts[i] <= x < Next(cuts, i) ==> conn[x] == sources.first + (x - cuts[i])
  }

  lemma {:induction false} FullOneMore(conn: seq<nat>, conn': seq<nat>, cuts: seq<nat>, k: nat, sources: Layer)
    requires Slots(cuts, sources, |conn|) && FullSoFar(conn, cuts, k, sources) && k + 1 < |cuts|
    requires OnlyBetween(conn, conn', cuts[k], Next(cuts, k))
    requires forall x :: cuts[k] <= x < Next(cuts, k) ==> conn'[x] == sources.first + (x - cuts[k])
    ensures FullSoFar(conn', cuts, k + 1, sources)
    ensures OnlyBetween(conn, conn', cuts[0], cuts[|cuts| - 1])
  {
    forall i, x | 0 <= i < k + 1 && cuts[i] <= x < Next(cuts, i) ensures conn'[x] == sources.first + (x - cuts[i]) {
      if i < k { assert Next(cuts, i) <= cuts[k]; }
    }
    assert cuts[0] <= cuts[k] && Next(cuts, k) <= cuts[|cuts| - 1];
  }

  method ConnectFullNeuron(connections: array<nat>, first: nat, last: nat, source: nat)
    requires first <= last <= connections.Length
    modifies connections
    ensures forall x :: first <= x < last ==> connections[x] == source + (x - first)
    ensures OnlyBetween(old(connections[..]), connections[..], first, last)
  {
    for x := first to last
      invariant forall y :: first <= y < x ==> connections[y] == source + (y - first)
      invariant OnlyBetween(old(connections[..]), connections[..], first, last)
    {
      connections[x] := source + (x - first);
    }
  }

  method ConnectFullLayer(neurons: array<Neuron>, connections: array<nat>, sources: Layer, layer: Layer,
                          ghost cuts: seq<nat>)
    requires OwnCuts(neurons[..], layer, cuts) && Slots(cuts, sources, connections.Length)
    modifies connections
    ensures Full(connections[..], cuts, sources)
    ensures OnlyBetween(old(connections[..]), connections[..], cuts[0], cuts[|cuts| - 1])
  {
    for n := layer.first to layer.last - 1
      invariant FullSoFar(connections[..], cuts, n - layer.first, sources)
      invariant OnlyBetween(old(connections[..]), connections[..], cuts[0], cuts[|cuts| - 1])
    {
      hide FullSoFar, OnlyBetween, Slots;
      ghost var before := connections[..];
      ghost var k := n - layer.first;
      SlotsAt(cuts, sources, connections.Length, k);
      ConnectFullNeuron(connections, neurons[n].firstCon, neurons[n].lastCon, sources.first);
      FullOneMore(before, connections[..], cuts, k, sources);
      OnlyBetweenTrans(old(connections[..]), before, connections[..], cuts[0], cuts[|cuts| - 1]);
    }
  }

  ghost predicate LayerFull(conn: seq<nat>, rate: real, layers: seq<Layer>, k: nat, start: nat)
    requires 0.0 <= rate <= 1.0 && 0 < k < |layers|
  {
    layers[k - 1].first < layers[k - 1].last && layers[k].first + 2 <= layers[k].last &&
    Slots(LayerCuts(rate, layers, k, start), layers[k - 1], |conn|) &&
    Full(conn, LayerCuts(rate, layers, k, start), layers[k - 1])
  }

  lemma {:induction false} FullStill(a: seq<nat>, b: seq<nat>, rate: real, layers: seq<Layer>, k: nat, start: nat, end: nat, hi: nat)
    requires 0.0 <= rate <= 1.0 && 0 < k < |layers| && LayerFull(a, rate, layers, k, start)
    requires OnlyBetween(a, b, end, hi)
    requires start + ConnectionsOf(rate, layers, k) <= end <= |a|
    ensures LayerFull(b, rate, layers, k, start)
  {
    hide Cut, NumConnections;
    var cuts := LayerCuts(rate, layers, k, start);
    var n := layers[k].last - layers[k].first - 1;
    CutEnds(ConnectionsOf(rate, layers, k), n);
    assert cuts[n] <= end;
    forall i, x | 0 <= i < n && cuts[i] <= x < Next(cuts, i) ensures b[x] == layers[k - 1].first + (x - cuts[i]) {
      assert Next(cuts, i) <= cuts[n];
      assert a[x] == b[x];
    }
  }

  /** Connects all layers of a fully connected network. */
  method ConnectFull(neurons: array<Neuron>, connections: array<nat>, rate: real, layers: seq<Layer>, total: nat,
                     ghost starts: seq<nat>)
    requires 0.0 <= rate <= 1.0 && BiasedLayers(layers, total) && total == neurons.Length
    requires StartsAt(rate, layers, starts) && |starts| == |layers| + 1 && connections.Length == starts[|layers|]
    requires forall k :: 0 < k < |layers| ==> LayerOwns(neurons[..], rate, layers, k, starts[k])
    modifies connections
    ensures forall k :: 0 < k < |layers| ==> LayerFull(connections[..], rate, layers, k, starts[k])
  {
    hide NumConnections, Cut, LayerFull, LayerOwns, StartsAt, OnlyBetween;
    for k := 1 to |layers|
      invariant forall j :: 0 < j < k ==> LayerFull(connections[..], rate, layers, j, starts[j])
    {
      ghost var before := connections[..];
      StartsUpTo(rate, layers, starts, k);
      ConnectNext(neurons, connections, rate, layers, total, k, starts[k]);
      forall j | 0 < j < k ensures LayerFull(connections[..], rate, layers, j, starts[j]) {
        StartsUpTo(rate, layers, starts, j);
        StartsAscend(rate, layers, starts, j + 1, k);
        FullStill(before, connections[..], rate, layers, j, starts[j], starts[k], starts[k + 1]);
      }
    }
  }

  method ConnectNext(neurons: array<Neuron>, connections: array<nat>, rate: real, layers: seq<Layer>, total: nat, k: nat,
                     ghost start: nat)
    requires 0.0 <= rate <= 1.0 && BiasedLayers(layers, total) && total == neurons.Length && 0 < k < |layers|
    requires LayerOwns(neurons[..], rate, layers, k, start)
    requires start + ConnectionsOf(rate, layers, k) <= connections.Length
    modifies connections
    ensures LayerFull(connections[..], rate, layers, k, start)
    ensures OnlyBetween(old(connections[..]), connections[..], start, start + ConnectionsOf(rate, layers, k))
  {
    hide NumConnections, Cut, Full, Slots, OnlyBetween;
    CutsFit(rate, layers, total, k, start, connections.Length);
    ConnectFullLayer(neurons, connections, layers[k - 1], layers[k], LayerCuts(rate, layers, k, start));
  }

  /** The first loop of fann_create_sparse_array: every layer gets a bias neuron. */
  method PlaceBiasedLayers(layerSizes: seq<nat>) returns (layers: seq<Layer>, total: nat)
    requires |layerSizes| >= 2 && forall k :: 0 <= k < |layerSizes| ==> layerSizes[k] > 0
    ensures BiasedLayers(layers, total) && |layers| == |layerSizes|
    ensures forall k :: 0 <= k < |layers| ==> layers[k].last == layers[k].first + layerSizes[k] + 1
  {
    layers, total := [], 0;
    for i := 0 to |layerSizes|
      invariant |layers| == i && (if i == 0 then total == 0 else layers[0].first == 0 && layers[i - 1].last == total)
      invariant forall k :: 0 < k < i ==> layers[k].first == layers[k - 1].last
      invariant forall k :: 0 <= k < i ==> layers[k].last == layers[k].first + layerSizes[k] + 1
    {
      var layer := Layer(total, total + layerSizes[i] + 1);
      layers := layers + [layer];
      total := layer.last;
    }
  }
}
