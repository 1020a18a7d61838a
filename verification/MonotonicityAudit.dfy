/** The monotonicity audit (src/ensemble/monotonicity_audit.rs): which features can only push the
    scanner towards blocking. */
module MonotonicityAudit {
  import opened Text
  import opened Rounding
  import opened Mlp
  import opened DecisionTree
  import opened Scanner

  // ---- The audit ----

  /** `minProducts[i]` is the least computed `w2[j] * w1[j][i]`; `None` stands for infinity. */
  datatype Audit = Audit(splitFeatures: seq<nat>, hasDeferLeaf: bool, minProducts: seq<Option<real>>)

  function RoundedProduct(a: Arithmetic, u: real, v: real): real {
    a.rnd(u * v)
  }

  function Product(a: Arithmetic, net: Network, j: nat, i: nat): real
    requires j < |net.w1| && j < |net.w2| && i < |net.w1[j]|
  {
    RoundedProduct(a, net.w2[j], net.w1[j][i])
  }

  ghost predicate IsMinProduct(min: Option<real>, a: Arithmetic, net: Network, i: nat, k: nat)
    requires k <= |net.w1| == |net.w2| && forall j | 0 <= j < |net.w1| :: i < |net.w1[j]|
  {
    && (min.None? <==> k == 0)
    && (min.Some? ==> forall j | 0 <= j < k :: min.value <= Product(a, net, j, i))
    && (min.Some? ==> exists j | 0 <= j < k :: min.value == Product(a, net, j, i))
  }

  method MinProduct(a: Arithmetic, net: Network, inputs: nat, i: nat) returns (min: Option<real>)
    requires Shaped(net, inputs) && i < inputs
    ensures IsMinProduct(min, a, net, i, |net.w1|)
  {
    min := None;
    for j := 0 to |net.w1|
      invariant IsMinProduct(min, a, net, i, j)
    {
      var p := Product(a, net, j, i);
      if min.None? || p < min.value {
        min := Some(p);
      }
    }
  }

  function SplitFeatures(nodes: seq<PackedNode>): (fs: seq<nat>)
    ensures forall k | 0 <= k < |nodes| && nodes[k].feature != LEAF :: nodes[k].feature in fs
  {
    if nodes == [] then []
    else
      var rest := SplitFeatures(nodes[1..]);
      if nodes[0].feature != LEAF then [nodes[0].feature] + rest else rest
  }

  predicate HasDeferLeaf(nodes: seq<PackedNode>) {
    exists k | 0 <= k < |nodes| :: nodes[k].feature == LEAF && 0.25 <= nodes[k].threshold <= 0.75
  }

  ghost predicate IsAudit(audit: Audit, a: Arithmetic, m: Model, inputs: nat)
    requires Fits(m, inputs)
  {
    && audit.splitFeatures == SplitFeatures(m.tree)
    && audit.hasDeferLeaf == HasDeferLeaf(m.tree)
    && |audit.minProducts| == inputs
    && forall i | 0 <= i < inputs :: IsMinProduct(audit.minProducts[i], a, m.net, i, |m.net.w1|)
  }

  /** `for_scanner`. */
  method RunAudit(a: Arithmetic, m: Model, inputs: nat) returns (audit: Audit)
    requires Fits(m, inputs)
    ensures IsAudit(audit, a, m, inputs)
  {
    var mins: seq<Option<real>> := [];
    for i := 0 to inputs
      invariant |mins| == i
      invariant forall k | 0 <= k < i :: IsMinProduct(mins[k], a, m.net, k, |m.net.w1|)
    {
      var min := MinProduct(a, m.net, inputs, i);
      mins := mins + [min];
    }
    audit := Audit(SplitFeatures(m.tree), HasDeferLeaf(m.tree), mins);
  }

  /** `is_provably_monotone`. */
  predicate ProvablyMonotone(audit: Audit, i: nat)
    requires i < |audit.minProducts|
  {
    i !in audit.splitFeatures &&
    (!audit.hasDeferLeaf || audit.minProducts[i].None? || audit.minProducts[i].value >= 0.0)
  }

  lemma {:induction false} SplitFeaturesIff(nodes: seq<PackedNode>, i: nat)
    ensures i in SplitFeatures(nodes) <==> i != 255 && exists k | 0 <= k < |nodes| :: nodes[k].feature == i
  {
    if nodes != [] {
      SplitFeaturesIff(nodes[1..], i);
      assert nodes == [nodes[0]] + nodes[1..];
      if k :| 0 <= k < |nodes| && nodes[k].feature == i && k > 0 {
        assert nodes[1..][k - 1].feature == i;
      }
      if k :| 0 <= k < |nodes[1..]| && nodes[1..][k].feature == i {
        assert nodes[k + 1].feature == i;
      }
    }
  }

  /** A feature is cleared exactly when no node splits on it and either no leaf defers or no computed weight
      product of it is negative. */
  lemma ClearedIff(audit: Audit, a: Arithmetic, m: Model, inputs: nat, i: nat)
    requires Fits(m, inputs) && IsAudit(audit, a, m, inputs) && i < inputs && i != 255
    ensures ProvablyMonotone(audit, i) <==>
      && (forall k | 0 <= k < |m.tree| :: m.tree[k].feature != i)
      && ((forall k | 0 <= k < |m.tree| && m.tree[k].feature == 255 :: m.tree[k].threshold < 0.25 || m.tree[k].threshold > 0.75)
          || forall j | 0 <= j < |m.net.w1| :: RoundedProduct(a, m.net.w2[j], m.net.w1[j][i]) >= 0.0)
  {
    SplitFeaturesIff(m.tree, i);
    assert IsMinProduct(audit.minProducts[i], a, m.net, i, |m.net.w1|);
    forall j | 0 <= j < |m.net.w1| ensures RoundedProduct(a, m.net.w2[j], m.net.w1[j][i]) == Product(a, m.net, j, i) {
    }
  }

  // ---- The perceptron never falls when such a feature rises ----

  ghost predicate Raises(x: seq<real>, y: seq<real>, i: nat) {
    |x| == |y| && i < |x| && x[i] <= y[i] && forall k | 0 <= k < |x| && k != i :: x[k] == y[k]
  }

  lemma AddToMonotone(op: real -> real, acc: real, acc': real, p: real, p': real)
    requires Monotone(op) && acc <= acc' && p <= p'
    ensures AddTo(op, acc, p) <= AddTo(op, acc', p')
  {
    assert Ordered(p, p');
    assert Ordered(acc + op(p), acc' + op(p'));
  }

  /** Larger terms give a larger sum. */
  lemma {:induction false} SumRises(op: real -> real, w: seq<real>, x: seq<real>, y: seq<real>, bias: real, k: nat)
    requires Monotone(op) && k <= |w| && k <= |x| && k <= |y|
    requires forall t | 0 <= t < k :: w[t] * x[t] <= w[t] * y[t]
    ensures Accumulate(op, w, x, bias, k) <= Accumulate(op, w, y, bias, k)
  {
    if k > 0 {
      SumRises(op, w, x, y, bias, k - 1);
      AddToMonotone(op, Accumulate(op, w, x, bias, k - 1), Accumulate(op, w, y, bias, k - 1), w[k - 1] * x[k - 1], w[k - 1] * y[k - 1]);
    }
  }

  lemma NeuronFollowsSign(op: real -> real, w: seq<real>, x: seq<real>, y: seq<real>, bias: real, i: nat)
    requires Monotone(op) && |w| == |x| && Raises(x, y, i)
    ensures w[i] >= 0.0 ==> Relu(Accumulate(op, w, x, bias, |x|)) <= Relu(Accumulate(op, w, y, bias, |x|))
    ensures w[i] <= 0.0 ==> Relu(Accumulate(op, w, y, bias, |x|)) <= Relu(Accumulate(op, w, x, bias, |x|))
  {
    ScaleOrder(w[i], x[i], y[i]);
    if w[i] >= 0.0 {
      SumRises(op, w, x, y, bias, |x|);
    }
    if w[i] <= 0.0 {
      SumRises(op, w, y, x, bias, |x|);
    }
  }

  /** No path from feature `i` to the output has a negative weight product. */
  ghost predicate SignsAgree(net: Network, i: nat, inputs: nat)
    requires Shaped(net, inputs) && i < inputs
  {
    forall j | 0 <= j < |net.w1| :: net.w2[j] * net.w1[j][i] >= 0.0
  }

  lemma SameSign(u: real, v: real)
    requires u * v >= 0.0
    ensures (u >= 0.0 && v >= 0.0) || (u <= 0.0 && v <= 0.0)
  {
  }

  lemma PerceptronRises(op: real -> real, net: Network, x: seq<real>, y: seq<real>, i: nat)
    requires Monotone(op) && Shaped(net, |x|) && Raises(x, y, i) && SignsAgree(net, i, |x|)
    ensures PreSigmoid(op, net, x) <= PreSigmoid(op, net, y)
  {
    var h, h' := Hidden(op, net, x), Hidden(op, net, y);
    forall j | 0 <= j < |net.w1| ensures net.w2[j] * h[j] <= net.w2[j] * h'[j] {
      NeuronFollowsSign(op, net.w1[j], x, y, net.b1[j], i);
      NeuronContribution(net.w2[j], net.w1[j][i], h[j], h'[j]);
    }
    SumRises(op, net.w2, h, h', net.b2, |net.w1|);
  }

  lemma NeuronContribution(u: real, v: real, h: real, h': real)
    requires u * v >= 0.0
    requires (v >= 0.0 ==> h <= h') && (v <= 0.0 ==> h' <= h)
    ensures u * h <= u * h'
  {
    SameSign(u, v);
    if v > 0.0 {
      ScaleOrder(u, h, h');
    } else if v < 0.0 {
      ScaleOrder(u, h', h);
    } else {
      assert h == h';
    }
  }

  // ---- Soundness of the audit ----

  /** Rounding does not turn a negative product into a non-negative one. */
  ghost predicate NoUnderflow(a: Arithmetic, net: Network, i: nat, inputs: nat)
    requires Shaped(net, inputs) && i < inputs
  {
    forall j | 0 <= j < |net.w1| :: Product(a, net, j, i) >= 0.0 ==> net.w2[j] * net.w1[j][i] >= 0.0
  }

  lemma ClearedSignsAgree(audit: Audit, a: Arithmetic, m: Model, inputs: nat, i: nat)
    requires Fits(m, inputs) && IsAudit(audit, a, m, inputs) && i < inputs && NoUnderflow(a, m.net, i, inputs)
    requires ProvablyMonotone(audit, i) && audit.hasDeferLeaf
    ensures SignsAgree(m.net, i, inputs)
  {
    forall j | 0 <= j < |m.net.w1| ensures m.net.w2[j] * m.net.w1[j][i] >= 0.0 {
      assert IsMinProduct(audit.minProducts[i], a, m.net, i, |m.net.w1|);
      assert Product(a, m.net, j, i) >= 0.0;
    }
  }

  lemma NormalizedRaises(a: Arithmetic, m: Model, raw: seq<real>, raw': seq<real>, i: nat)
    requires Monotone(a.rnd) && Fits(m, |raw|) && Raises(raw, raw', i)
    ensures Raises(Normalized(a, m, raw), Normalized(a, m, raw'), i)
  {
    NormalizeMonotone(a, raw[i], raw'[i], m.mins[i], m.maxs[i]);
  }

  /** Raising only raw feature `i` from `raw` to `raw'` neither lowers the score nor turns a block into
      an allow, through normalisation, tree and perceptron. */
  ghost predicate Rises(a: Arithmetic, sigmoid: real -> real, m: Model, raw: seq<real>, raw': seq<real>)
    requires Fits(m, |raw|) && |raw'| == |raw|
  {
    var v, v' := Decide(a, sigmoid, m, raw), Decide(a, sigmoid, m, raw');
    v.score <= v'.score && (v.blocks ==> v'.blocks)
  }

  lemma EnsembleRises(a: Arithmetic, sigmoid: real -> real, m: Model, raw: seq<real>, raw': seq<real>, i: nat)
    requires Monotone(a.rnd) && Monotone(sigmoid)
    requires Fits(m, |raw|) && Raises(raw, raw', i)
    requires i !in SplitFeatures(m.tree) && (HasDeferLeaf(m.tree) ==> SignsAgree(m.net, i, |raw|))
    ensures Rises(a, sigmoid, m, raw, raw')
  {
    var x, y := Normalized(a, m, raw), Normalized(a, m, raw');
    NormalizedRaises(a, m, raw, raw', i);
    UnusedFeature(m.tree, x, y, i, 0);
    if Descend(m.tree, x, 0) == Defer {
      DecisionIsALeaf(m.tree, x, 0);
      assert HasDeferLeaf(m.tree);
      PerceptronRises(a.rnd, m.net, x, y, i);
      assert Ordered(PreSigmoid(a.rnd, m.net, x), PreSigmoid(a.rnd, m.net, y));
    }
  }

  /** If the audit clears a feature, raising it never makes the scanner more lenient. */
  lemma AuditIsSound(audit: Audit, a: Arithmetic, sigmoid: real -> real, m: Model, raw: seq<real>, raw': seq<real>, i: nat)
    requires Monotone(a.rnd) && Monotone(sigmoid)
    requires Fits(m, |raw|) && Raises(raw, raw', i)
    requires IsAudit(audit, a, m, |raw|) && ProvablyMonotone(audit, i)
    requires audit.hasDeferLeaf ==> NoUnderflow(a, m.net, i, |raw|)
    ensures Rises(a, sigmoid, m, raw, raw')
  {
    if audit.hasDeferLeaf {
      ClearedSignsAgree(audit, a, m, |raw|, i);
    }
    EnsembleRises(a, sigmoid, m, raw, raw', i);
  }
}
