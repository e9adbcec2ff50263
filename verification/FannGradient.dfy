/** Forward and reverse differentiation of a network graph, and why they agree. The derivative of
    each unit's activation at its current sum is given by `slopes`; products and sums are exact. */
module FannGradient {
  import opened FannGraph

  function Total(values: seq<real>, weights: seq<real>, n: nat): real
    requires n <= |values| && n <= |weights|
  {
    if n == 0 then 0.0 else Total(values, weights, n - 1) + Mult(values[n - 1], weights[n - 1])
  }

  // ---- Forward mode ----

  /** How much the weighted sum of unit `n` grows per unit of weight `i` of unit `owner`, given how
      much the values before it grow. */
  function SumTangent(units: seq<Unit>, values: seq<real>, owner: nat, i: nat, before: seq<real>, n: nat): real
    requires n < |units| && WellFormedUnit(units[n], |before|)
    requires owner < |units| && WellFormedUnit(units[owner], |values|) && i < |units[owner].weights|
  {
    WeightedSum(units[n].weights, units[n].sources, before, |units[n].weights|) +
    (if n == owner then values[units[owner].sources[i]] else 0.0)
  }

  /** The derivatives of the first `n` values with respect to weight `i` of unit `owner`, by the chain
      rule in evaluation order. Input and bias values do not depend on weights. */
  function Tangents(units: seq<Unit>, inputs: nat, values: seq<real>, slopes: seq<real>, owner: nat, i: nat, n: nat): (t: seq<real>)
    requires FeedForward(units, inputs) && |values| == |slopes| == |units| && n <= |units|
    requires inputs < owner < |units| && i < |units[owner].weights|
    ensures |t| == n
  {
    if n == 0 then []
    else
      var before := Tangents(units, inputs, values, slopes, owner, i, n - 1);
      before + [if n - 1 <= inputs then 0.0
                else Mult(slopes[n - 1], SumTangent(units, values, owner, i, before, n - 1))]
  }

  // ---- Reverse mode ----

  /** The weight with which unit `u` reads unit `n`, over connections `from` and later. */
  function Into(u: Unit, n: nat, from: nat): real
    requires |u.weights| == |u.sources| && from <= |u.weights|
    decreases |u.weights| - from
  {
    if from == |u.weights| then 0.0
    else (if u.sources[from] == n then u.weights[from] else 0.0) + Into(u, n, from + 1)
  }

  /** Units `from .. upTo` have as many weights as sources. */
  ghost predicate Shaped(units: seq<Unit>, from: nat, upTo: nat) {
    upTo <= |units| && forall m :: from <= m < upTo ==> |units[m].weights| == |units[m].sources|
  }

  /** Units `from .. upTo` only read units below `bound`. */
  ghost predicate ReadBelow(units: seq<Unit>, from: nat, upTo: nat, bound: nat)
    ensures ReadBelow(units, from, upTo, bound) ==> Shaped(units, from, upTo)
  {
    upTo <= |units| && forall m :: from <= m < upTo ==> WellFormedUnit(units[m], bound)
  }

  /** What units `from .. upTo` send back to unit `n`: their errors times the weights they read it with. */
  function SentBack(units: seq<Unit>, errors: seq<real>, n: nat, from: nat, upTo: nat): real
    requires from <= upTo <= |units| && upTo <= |errors|
    requires Shaped(units, from, upTo)
    decreases upTo - from
  {
    if from == upTo then 0.0
    else Mult(errors[from], Into(units[from], n, 0)) + SentBack(units, errors, n, from + 1, upTo)
  }

  /** The equations of backpropagation, for a last layer that starts at `last`: the errors of the last
      layer are given, every other error is the unit's slope times what is sent back to it. */
  ghost predicate Backpropagated(units: seq<Unit>, inputs: nat, slopes: seq<real>, last: nat, given: seq<real>, errors: seq<real>)
  {
    FeedForward(units, inputs) && inputs < last <= |units| == |slopes| == |given| == |errors| &&
    (forall n :: last <= n < |units| ==> errors[n] == given[n]) &&
    Shaped(units, inputs + 1, |units|) &&
    (forall n :: inputs < n < last ==> errors[n] == Mult(slopes[n], SentBack(units, errors, n, n + 1, |units|)))
  }

  lemma {:induction false} SentBackFrame(units: seq<Unit>, errors: seq<real>, errors': seq<real>, n: nat, from: nat, upTo: nat)
    requires from <= upTo <= |units| && upTo <= |errors| && upTo <= |errors'|
    requires Shaped(units, from, upTo)
    requires forall m :: from <= m < upTo ==> errors[m] == errors'[m]
    ensures SentBack(units, errors, n, from, upTo) == SentBack(units, errors', n, from, upTo)
    decreases upTo - from
  {
    if from < upTo { SentBackFrame(units, errors, errors', n, from + 1, upTo); }
  }

  /** The last unit's contribution can be split off as well as the first one's. */
  lemma {:induction false} SentBackSplit(units: seq<Unit>, errors: seq<real>, n: nat, from: nat, mid: nat, upTo: nat)
    requires from <= mid <= upTo <= |units| && upTo <= |errors|
    requires Shaped(units, from, upTo)
    ensures SentBack(units, errors, n, from, upTo) == SentBack(units, errors, n, from, mid) + SentBack(units, errors, n, mid, upTo)
    decreases mid - from
  {
    if from < mid { SentBackSplit(units, errors, n, from + 1, mid, upTo); }
  }

  lemma {:induction false} NothingInto(u: Unit, n: nat, from: nat)
    requires |u.weights| == |u.sources| && from <= |u.weights|
    requires forall i :: from <= i < |u.sources| ==> u.sources[i] != n
    ensures Into(u, n, from) == 0.0
    decreases |u.weights| - from
  {
    if from < |u.weights| { NothingInto(u, n, from + 1); }
  }

  /** Units that do not read `n` send nothing back to it. */
  lemma {:induction false} NothingSentBack(units: seq<Unit>, errors: seq<real>, n: nat, from: nat, upTo: nat)
    requires from <= upTo <= |units| && upTo <= |errors|
    requires ReadBelow(units, from, upTo, n)
    ensures SentBack(units, errors, n, from, upTo) == 0.0
    decreases upTo - from
  {
    if from < upTo {
      NothingInto(units[from], n, 0);
      NothingSentBack(units, errors, n, from + 1, upTo);
    }
  }

  // ---- The two modes agree ----

  /** The contributions of one unit, listed by receiver. */
  function IntoAll(u: Unit, size: nat, from: nat): (r: seq<real>)
    requires |u.weights| == |u.sources| && from <= |u.weights|
    ensures |r| == size
  {
    seq(size, n requires 0 <= n < size => Into(u, n, from))
  }

  function SentBackAll(units: seq<Unit>, errors: seq<real>, size: nat, from: nat): (r: seq<real>)
    requires from <= |units| && |units| <= |errors|
    requires Shaped(units, from, |units|)
    ensures |r| == size
  {
    seq(size, n requires 0 <= n < size => SentBack(units, errors, n, from, |units|))
  }

  lemma {:induction false} MultZero(x: real)
    ensures Mult(x, 0.0) == Mult(0.0, x) == 0.0 && Mult(1.0, x) == x
  {
  }

  lemma {:induction false} TotalZero(zeros: seq<real>, x: seq<real>, n: nat)
    requires n <= |zeros| && n <= |x| && forall k :: 0 <= k < n ==> zeros[k] == 0.0
    ensures Total(zeros, x, n) == 0.0
  {
    hide Mult;
    if n > 0 {
      TotalZero(zeros, x, n - 1);
      MultZero(x[n - 1]);
    }
  }

  lemma {:induction false} Distribute(a: real, p: real, q: real, x: real)
    ensures Mult(Mult(a, p) + q, x) == Mult(a, Mult(p, x)) + Mult(q, x)
  {
  }

  /** Sums of products are linear. */
  lemma {:induction false} TotalLinear(r: seq<real>, a: real, p: seq<real>, q: seq<real>, x: seq<real>, n: nat)
    requires n <= |r| && n <= |p| && n <= |q| && n <= |x|
    requires forall k :: 0 <= k < n ==> r[k] == Mult(a, p[k]) + q[k]
    ensures Total(r, x, n) == Mult(a, Total(p, x, n)) + Total(q, x, n)
  {
    hide Mult;
    MultZero(a);
    if n > 0 {
      TotalLinear(r, a, p, q, x, n - 1);
      Distribute(a, p[n - 1], q[n - 1], x[n - 1]);
      Factor(a, Total(p, x, n - 1), Mult(p[n - 1], x[n - 1]));
    }
  }

  lemma {:induction false} Factor(a: real, b: real, c: real)
    ensures Mult(a, b) + Mult(a, c) == Mult(a, b + c)
  {
  }

  /** One entry of a sum of products. */
  lemma {:induction false} TotalSingle(r: seq<real>, x: seq<real>, at: nat, w: real, n: nat)
    requires n <= |r| && n <= |x|
    requires forall k :: 0 <= k < n ==> r[k] == if k == at then w else 0.0
    ensures Total(r, x, n) == if at < n then Mult(w, x[at]) else 0.0
  {
    hide Mult;
    if n > 0 {
      TotalSingle(r, x, at, w, n - 1);
      MultZero(x[n - 1]);
    }
  }

  /** The weighted sum over connections `from` and later. */
  function TailSum(u: Unit, x: seq<real>, from: nat): real
    requires WellFormedUnit(u, |x|) && from <= |u.weights|
    decreases |u.weights| - from
  {
    if from == |u.weights| then 0.0 else Mult(u.weights[from], x[u.sources[from]]) + TailSum(u, x, from + 1)
  }

  lemma {:induction false} TailSumIsRest(u: Unit, x: seq<real>, from: nat)
    requires WellFormedUnit(u, |x|) && from <= |u.weights|
    ensures WeightedSum(u.weights, u.sources, x, from) + TailSum(u, x, from) ==
            WeightedSum(u.weights, u.sources, x, |u.weights|)
    decreases |u.weights| - from
  {
    hide Mult;
    if from < |u.weights| { TailSumIsRest(u, x, from + 1); }
  }

  /** Summing a unit's contributions over all receivers is summing over its connections. */
  lemma {:induction false} IntoTotal(u: Unit, x: seq<real>, from: nat)
    requires WellFormedUnit(u, |x|) && from <= |u.weights|
    ensures Total(IntoAll(u, |x|, from), x, |x|) == TailSum(u, x, from)
    decreases |u.weights| - from
  {
    hide Mult;
    var r := IntoAll(u, |x|, from);
    if from == |u.weights| {
      TotalZero(r, x, |x|);
    } else {
      IntoTotal(u, x, from + 1);
      var at, w := u.sources[from], u.weights[from];
      var single := seq(|x|, k => if k == at then w else 0.0);
      TotalSingle(single, x, at, w, |x|);
      forall k | 0 <= k < |x| ensures r[k] == Mult(1.0, single[k]) + IntoAll(u, |x|, from + 1)[k] {
        MultZero(single[k]);
      }
      MultZero(Total(single, x, |x|));
      TotalLinear(r, 1.0, single, IntoAll(u, |x|, from + 1), x, |x|);
    }
  }

  /** Sums over receivers exchanged with sums over senders. */
  function SenderTotal(units: seq<Unit>, errors: seq<real>, x: seq<real>, from: nat): real
    requires from <= |units| && |units| <= |errors|
    requires ReadBelow(units, from, |units|, |x|)
    decreases |units| - from
  {
    if from == |units| then 0.0
    else Mult(errors[from], WeightedSum(units[from].weights, units[from].sources, x, |units[from].weights|)) +
         SenderTotal(units, errors, x, from + 1)
  }

  lemma {:induction false} Exchange(units: seq<Unit>, errors: seq<real>, x: seq<real>, from: nat)
    requires from <= |units| && |units| <= |errors|
    requires ReadBelow(units, from, |units|, |x|)
    ensures Total(SentBackAll(units, errors, |x|, from), x, |x|) == SenderTotal(units, errors, x, from)
    decreases |units| - from
  {
    hide Mult;
    var r := SentBackAll(units, errors, |x|, from);
    if from == |units| {
      TotalZero(r, x, |x|);
    } else {
      Exchange(units, errors, x, from + 1);
      TotalLinear(r, errors[from], IntoAll(units[from], |x|, 0), SentBackAll(units, errors, |x|, from + 1), x, |x|);
      IntoTotal(units[from], x, 0);
      TailSumIsRest(units[from], x, 0);
    }
  }

  function SuffixTotal(r: seq<real>, x: seq<real>, from: nat): real
    requires from <= |x| <= |r|
    decreases |x| - from
  {
    if from == |x| then 0.0 else Mult(r[from], x[from]) + SuffixTotal(r, x, from + 1)
  }

  lemma {:induction false} SuffixIsRest(r: seq<real>, x: seq<real>, from: nat)
    requires from <= |x| <= |r|
    ensures Total(r, x, from) + SuffixTotal(r, x, from) == Total(r, x, |x|)
    decreases |x| - from
  {
    hide Mult;
    if from < |x| { SuffixIsRest(r, x, from + 1); }
  }

  /** The tangent of one unit, read off the whole list. */
  lemma {:induction false} TangentAt(units: seq<Unit>, inputs: nat, values: seq<real>, slopes: seq<real>, owner: nat, i: nat, k: nat, n: nat)
    requires FeedForward(units, inputs) && |values| == |slopes| == |units| && k < n <= |units|
    requires inputs < owner < |units| && i < |units[owner].weights|
    ensures var x := Tangents(units, inputs, values, slopes, owner, i, n);
            (k <= inputs ==> x[k] == 0.0) &&
            (k > inputs ==> WellFormedUnit(units[k], n) && x[k] == Mult(slopes[k], SumTangent(units, values, owner, i, x, k)))
  {
    hide Mult;
    var x := Tangents(units, inputs, values, slopes, owner, i, n);
    TangentPrefix(units, inputs, values, slopes, owner, i, k + 1, n);
    var before := Tangents(units, inputs, values, slopes, owner, i, k);
    assert x[..k + 1] == before + [x[k]];
    if k > inputs {
      assert x[..k] == x[..k + 1][..k] == before[..k];
      WeightedSumShared(units[k].weights, units[k].sources, before, x, k, |units[k].weights|);
    }
  }

  lemma {:induction false} TangentPrefix(units: seq<Unit>, inputs: nat, values: seq<real>, slopes: seq<real>, owner: nat, i: nat, m: nat, n: nat)
    requires FeedForward(units, inputs) && |values| == |slopes| == |units| && m <= n <= |units|
    requires inputs < owner < |units| && i < |units[owner].weights|
    ensures Tangents(units, inputs, values, slopes, owner, i, n)[..m] == Tangents(units, inputs, values, slopes, owner, i, m)
  {
    if m < n { TangentPrefix(units, inputs, values, slopes, owner, i, m, n - 1); }
  }

  /** The error of a unit before it is multiplied by the unit's slope: its share of the output error
      plus what is sent back to it. */
  function RawErrors(units: seq<Unit>, inputs: nat, shares: seq<real>, errors: seq<real>): (r: seq<real>)
    requires |shares| == |errors| == |units| && inputs < |units| && Shaped(units, inputs + 1, |units|)
    ensures |r| == |units|
  {
    seq(|units|, n requires 0 <= n < |units| => Mult(1.0, shares[n]) + SentBack(units, errors, n, inputs + 1, |units|))
  }

  /** Only later units send anything back, and nothing is sent back to the last layer. */
  lemma {:induction false} RawErrorAt(units: seq<Unit>, inputs: nat, slopes: seq<real>, last: nat,
                                      shares: seq<real>, errors: seq<real>, n: nat)
    requires |slopes| == |shares| == |errors| == |units| && forall m :: 0 <= m < last && m < |shares| ==> shares[m] == 0.0
    requires Backpropagated(units, inputs, slopes, last, GivenErrors(slopes, shares), errors)
    requires ReadBelow(units, last, |units|, last)
    requires inputs < n < |units|
    ensures errors[n] == Mult(slopes[n], RawErrors(units, inputs, shares, errors)[n])
  {
    hide Mult, WellFormedUnit, SentBack, FeedForward;
    MultZero(shares[n]);
    SentBackSplit(units, errors, n, inputs + 1, n + 1, |units|);
    assert FeedForward(units, inputs);
    EarlierReadBelow(units, inputs, n);
    NothingSentBack(units, errors, n, inputs + 1, n + 1);
    if n >= last {
      LastReadBelow(units, last, n);
      NothingSentBack(units, errors, n, n + 1, |units|);
      assert RawErrors(units, inputs, shares, errors)[n] == shares[n];
    } else {
      assert RawErrors(units, inputs, shares, errors)[n] == SentBack(units, errors, n, n + 1, |units|);
    }
  }

  lemma {:induction false} EarlierReadBelow(units: seq<Unit>, inputs: nat, n: nat)
    requires FeedForward(units, inputs) && inputs < n < |units|
    ensures ReadBelow(units, inputs + 1, n + 1, n)
  {
    forall m | inputs + 1 <= m < n + 1 ensures WellFormedUnit(units[m], n) {
      assert WellFormedUnit(units[m], m);
    }
  }

  lemma {:induction false} LastReadBelow(units: seq<Unit>, last: nat, n: nat)
    requires ReadBelow(units, last, |units|, last) && last <= n < |units|
    ensures ReadBelow(units, n + 1, |units|, n)
  {
    forall m | n + 1 <= m < |units| ensures WellFormedUnit(units[m], n) {
      assert WellFormedUnit(units[m], last);
    }
  }

  lemma {:induction false} Reassociate(e: real, slope: real, raw: real, grow: real, extra: real)
    requires e == Mult(slope, raw)
    ensures Mult(raw, Mult(slope, grow + extra)) == Mult(e, grow) + Mult(e, extra)
  {
  }

  /** One term of the sum over all units: what the unit sends on, and what it owns. */
  lemma {:induction false} TermAgrees(units: seq<Unit>, inputs: nat, values: seq<real>, slopes: seq<real>, last: nat,
                                      shares: seq<real>, errors: seq<real>, owner: nat, i: nat, n: nat)
    requires |values| == |slopes| == |shares| == |units| && forall m :: 0 <= m < last && m < |shares| ==> shares[m] == 0.0
    requires Backpropagated(units, inputs, slopes, last, GivenErrors(slopes, shares), errors)
    requires ReadBelow(units, last, |units|, last)
    requires inputs < owner < |units| && i < |units[owner].weights| && inputs < n < |units|
    ensures var x := Tangents(units, inputs, values, slopes, owner, i, |units|);
            WellFormedUnit(units[n], |units|) &&
            Mult(RawErrors(units, inputs, shares, errors)[n], x[n]) ==
            Mult(errors[n], WeightedSum(units[n].weights, units[n].sources, x, |units[n].weights|)) +
            (if n == owner then Mult(errors[owner], values[units[owner].sources[i]]) else 0.0)
  {
    hide Tangents, RawErrors, WeightedSum, Mult, GivenErrors, SentBack;
    var x := Tangents(units, inputs, values, slopes, owner, i, |units|);
    var raw := RawErrors(units, inputs, shares, errors);
    TangentAt(units, inputs, values, slopes, owner, i, n, |units|);
    RawErrorAt(units, inputs, slopes, last, shares, errors, n);
    Reassociate(errors[n], slopes[n], raw[n], WeightedSum(units[n].weights, units[n].sources, x, |units[n].weights|),
                if n == owner then values[units[owner].sources[i]] else 0.0);
    MultZero(errors[n]);
  }

  lemma {:induction false} SuffixAgrees(units: seq<Unit>, inputs: nat, values: seq<real>, slopes: seq<real>, last: nat,
                                        shares: seq<real>, errors: seq<real>, owner: nat, i: nat, from: nat)
    requires |values| == |slopes| == |shares| == |units| && forall m :: 0 <= m < last && m < |shares| ==> shares[m] == 0.0
    requires Backpropagated(units, inputs, slopes, last, GivenErrors(slopes, shares), errors)
    requires ReadBelow(units, last, |units|, last)
    requires inputs < owner < |units| && i < |units[owner].weights|
    requires inputs < from <= |units| && ReadBelow(units, from, |units|, |units|)
    ensures SuffixTotal(RawErrors(units, inputs, shares, errors), Tangents(units, inputs, values, slopes, owner, i, |units|), from) ==
            SenderTotal(units, errors, Tangents(units, inputs, values, slopes, owner, i, |units|), from) +
            (if from <= owner then Mult(errors[owner], values[units[owner].sources[i]]) else 0.0)
    decreases |units| - from
  {
    hide Tangents, RawErrors, WeightedSum, Mult, GivenErrors, SentBack;
    if from < |units| {
      SuffixAgrees(units, inputs, values, slopes, last, shares, errors, owner, i, from + 1);
      TermAgrees(units, inputs, values, slopes, last, shares, errors, owner, i, from);
    }
  }

  /** The raw errors against any direction: the shares, and what all units send back. */
  lemma {:induction false} RawTotal(units: seq<Unit>, inputs: nat, shares: seq<real>, errors: seq<real>, x: seq<real>)
    requires |shares| == |errors| == |units| == |x| && inputs < |units|
    requires ReadBelow(units, inputs + 1, |units|, |x|)
    ensures Total(RawErrors(units, inputs, shares, errors), x, |x|) ==
            Total(shares, x, |x|) + SenderTotal(units, errors, x, inputs + 1)
  {
    hide Mult, SentBack, Total, SenderTotal, ReadBelow;
    var sent := SentBackAll(units, errors, |units|, inputs + 1);
    MultZero(Total(shares, x, |units|));
    TotalLinear(RawErrors(units, inputs, shares, errors), 1.0, shares, sent, x, |units|);
    Exchange(units, errors, x, inputs + 1);
  }

  /** Reverse mode equals forward mode: the error of a connection's owner times the value the
      connection reads is the sum, over the outputs, of the output's share of the error times the
      chain-rule derivative of that output in this weight. */
  lemma {:induction false} Duality(units: seq<Unit>, inputs: nat, values: seq<real>, slopes: seq<real>, last: nat,
                                   shares: seq<real>, errors: seq<real>, owner: nat, i: nat)
    requires |values| == |slopes| == |shares| == |units| && forall m :: 0 <= m < last && m < |shares| ==> shares[m] == 0.0
    requires Backpropagated(units, inputs, slopes, last, GivenErrors(slopes, shares), errors)
    requires ReadBelow(units, last, |units|, last)
    requires inputs < owner < |units| && i < |units[owner].weights|
    ensures Mult(errors[owner], values[units[owner].sources[i]]) ==
            Total(shares, Tangents(units, inputs, values, slopes, owner, i, |units|), |units|)
  {
    hide Tangents, Mult, WeightedSum, RawErrors, SentBack, GivenErrors, SuffixTotal, Total, SenderTotal;
    var x := Tangents(units, inputs, values, slopes, owner, i, |units|);
    var raw := RawErrors(units, inputs, shares, errors);
    assert ReadBelow(units, inputs + 1, |units|, |units|);
    SuffixAgrees(units, inputs, values, slopes, last, shares, errors, owner, i, inputs + 1);
    SuffixIsRest(raw, x, inputs + 1);
    forall k | 0 <= k < inputs + 1 ensures x[k] == 0.0 {
      TangentAt(units, inputs, values, slopes, owner, i, k, |units|);
    }
    TotalNoTangent(raw, x, inputs + 1);
    RawTotal(units, inputs, shares, errors, x);
  }

  lemma {:induction false} TotalNoTangent(r: seq<real>, x: seq<real>, n: nat)
    requires n <= |r| && n <= |x| && forall k :: 0 <= k < n ==> x[k] == 0.0
    ensures Total(r, x, n) == 0.0
  {
    hide Mult;
    if n > 0 {
      TotalNoTangent(r, x, n - 1);
      MultZero(r[n - 1]);
    }
  }

  /** The errors that the output layer starts from. */
  function GivenErrors(slopes: seq<real>, shares: seq<real>): (g: seq<real>)
    requires |slopes| == |shares|
    ensures |g| == |slopes|
  {
    seq(|slopes|, n requires 0 <= n < |slopes| => Mult(slopes[n], shares[n]))
  }

  // ---- The loops of backpropagation ----

  /** One unit has sent its error back along its connections. */
  ghost predicate SentOnce(before: seq<real>, after: seq<real>, u: Unit, error: real) {
    |u.weights| == |u.sources| && |before| == |after| &&
    forall m :: 0 <= m < |before| ==> after[m] == before[m] + Mult(error, Into(u, m, 0))
  }

  /** One unit has sent its error back along its connections `from` and later. */
  ghost predicate SentFrom(before: seq<real>, after: seq<real>, u: Unit, error: real, from: nat) {
    |u.weights| == |u.sources| && from <= |u.weights| && |before| == |after| &&
    forall m :: 0 <= m < |before| ==> after[m] == before[m] + Mult(error, Into(u, m, from))
  }

  lemma {:induction false} SentNone(before: seq<real>, u: Unit, error: real)
    requires |u.weights| == |u.sources|
    ensures SentFrom(before, before, u, error, |u.weights|)
  {
  }

  lemma {:induction false} SentOneMore(before: seq<real>, now: seq<real>, u: Unit, error: real, i: nat)
    requires i < |u.weights| && SentFrom(before, now, u, error, i + 1) && u.sources[i] < |now|
    ensures SentFrom(before, now[u.sources[i] := now[u.sources[i]] + Mult(error, u.weights[i])], u, error, i)
  {
    hide Mult;
    var next := now[u.sources[i] := now[u.sources[i]] + Mult(error, u.weights[i])];
    forall m | 0 <= m < |before| ensures next[m] == before[m] + Mult(error, Into(u, m, i)) {
      Factor(error, u.weights[i], Into(u, m, i + 1));
    }
  }

  lemma {:induction false} SentAll(before: seq<real>, after: seq<real>, u: Unit, error: real)
    requires SentFrom(before, after, u, error, 0)
    ensures SentOnce(before, after, u, error)
  {
  }

  /** The loops are in the layer `first .. end`: its units before `cur` and all later layers have sent
      their errors back. Errors from `first` on are final, earlier ones still lack their slopes. */
  ghost predicate Sending(units: seq<Unit>, inputs: nat, slopes: seq<real>, last: nat, given: seq<real>, errors: seq<real>,
                          first: nat, cur: nat, end: nat)
  {
    FeedForward(units, inputs) && Shaped(units, inputs + 1, |units|) &&
    |slopes| == |given| == |errors| == |units| &&
    inputs < first <= cur <= end <= |units| && first <= last <= |units| &&
    (forall n :: last <= n < |units| ==> errors[n] == given[n]) &&
    (forall n :: first <= n < last ==> errors[n] == Mult(slopes[n], SentBack(units, errors, n, n + 1, |units|))) &&
    (forall n :: 0 <= n < first ==>
       errors[n] == SentBack(units, errors, n, first, cur) + SentBack(units, errors, n, end, |units|))
  }

  lemma {:induction false} SendingStart(units: seq<Unit>, inputs: nat, slopes: seq<real>, last: nat, given: seq<real>)
    requires FeedForward(units, inputs) && |slopes| == |given| == |units| && inputs < last <= |units|
    requires forall n :: 0 <= n < last ==> given[n] == 0.0
    ensures Sending(units, inputs, slopes, last, given, given, last, last, |units|)
  {
    assert forall m :: inputs < m < |units| ==> WellFormedUnit(units[m], m);
  }

  lemma {:induction false} SendingStep(units: seq<Unit>, inputs: nat, slopes: seq<real>, last: nat, given: seq<real>,
                                       errors: seq<real>, errors': seq<real>, first: nat, cur: nat, end: nat)
    requires Sending(units, inputs, slopes, last, given, errors, first, cur, end) && cur < end
    requires WellFormedUnit(units[cur], first)
    requires SentOnce(errors, errors', units[cur], errors[cur])
    ensures Sending(units, inputs, slopes, last, given, errors', first, cur + 1, end)
  {
    hide Mult, Into, SentBack;
    forall n | first <= n < |units| ensures errors'[n] == errors[n] {
      NothingInto(units[cur], n, 0);
      MultZero(errors[cur]);
    }
    forall n | first <= n < last ensures errors'[n] == Mult(slopes[n], SentBack(units, errors', n, n + 1, |units|)) {
      SentBackFrame(units, errors, errors', n, n + 1, |units|);
    }
    forall n | 0 <= n < first
      ensures errors'[n] == SentBack(units, errors', n, first, cur + 1) + SentBack(units, errors', n, end, |units|)
    {
      SentBackFrame(units, errors, errors', n, first, cur);
      SentBackFrame(units, errors, errors', n, end, |units|);
      SentBackSplit(units, errors', n, first, cur, cur + 1);
      SentBackOne(units, errors', n, cur);
    }
  }

  lemma {:induction false} SentBackOne(units: seq<Unit>, errors: seq<real>, n: nat, m: nat)
    requires m < |units| && m < |errors| && Shaped(units, m, m + 1)
    ensures SentBack(units, errors, n, m, m + 1) == Mult(errors[m], Into(units[m], n, 0))
  {
  }

  /** The layer `lo .. first` gets its slopes. */
  lemma {:induction false} SendingNextLayer(units: seq<Unit>, inputs: nat, slopes: seq<real>, last: nat, given: seq<real>,
                                            errors: seq<real>, errors': seq<real>, lo: nat, first: nat, end: nat)
    requires Sending(units, inputs, slopes, last, given, errors, first, end, end)
    requires inputs < lo <= first && ReadBelow(units, lo, first, lo) && |errors'| == |errors|
    requires forall n :: lo <= n < first ==> errors'[n] == Mult(errors[n], slopes[n])
    requires forall n :: 0 <= n < |errors| && !(lo <= n < first) ==> errors'[n] == errors[n]
    ensures Sending(units, inputs, slopes, last, given, errors', lo, lo, first)
  {
    hide Mult, Into, SentBack;
    forall n | first <= n < last ensures errors'[n] == Mult(slopes[n], SentBack(units, errors', n, n + 1, |units|)) {
      SentBackFrame(units, errors, errors', n, n + 1, |units|);
    }
    forall n | 0 <= n < first ensures errors[n] == SentBack(units, errors', n, first, |units|) {
      SentBackSplit(units, errors, n, first, end, |units|);
      SentBackFrame(units, errors, errors', n, first, |units|);
    }
    forall n | lo <= n < first ensures errors'[n] == Mult(slopes[n], SentBack(units, errors', n, n + 1, |units|)) {
      LayerReadBelow(units, lo, first, n);
      NothingSentBack(units, errors', n, n + 1, first);
      SentBackSplit(units, errors', n, n + 1, first, |units|);
      MultCommutes(errors[n], slopes[n]);
    }
    forall n | 0 <= n < lo
      ensures errors'[n] == SentBack(units, errors', n, lo, lo) + SentBack(units, errors', n, first, |units|)
    {
      SentBackNone(units, errors', n, lo);
    }
  }

  lemma {:induction false} LayerReadBelow(units: seq<Unit>, lo: nat, first: nat, n: nat)
    requires ReadBelow(units, lo, first, lo) && lo <= n < first
    ensures ReadBelow(units, n + 1, first, n)
  {
    forall m | n + 1 <= m < first ensures WellFormedUnit(units[m], n) {
      assert WellFormedUnit(units[m], lo);
    }
  }

  lemma {:induction false} SentBackNone(units: seq<Unit>, errors: seq<real>, n: nat, m: nat)
    requires m <= |units| && m <= |errors|
    ensures SentBack(units, errors, n, m, m) == 0.0
  {
  }

  lemma {:induction false} MultCommutes(x: real, y: real)
    ensures Mult(x, y) == Mult(y, x)
  {
  }

  lemma {:induction false} SendingDone(units: seq<Unit>, inputs: nat, slopes: seq<real>, last: nat, given: seq<real>,
                                       errors: seq<real>, cur: nat, end: nat)
    requires Sending(units, inputs, slopes, last, given, errors, inputs + 1, cur, end)
    ensures Backpropagated(units, inputs, slopes, last, given, errors)
  {
  }
}
