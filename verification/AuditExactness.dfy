/** How exact the monotonicity audit is: on which arithmetic, and exactly when, a cleared feature can
    still make the scanner more lenient. */
module AuditExactness {
  import opened Text
  import opened Rounding
  import opened Mlp
  import opened DecisionTree
  import opened Scanner
  import opened MonotonicityAudit

  // ---- The arithmetic ----

  ghost predicate Holds(op: real -> real, x: real) {
    op(x) == x
  }

  ghost predicate HoldsAll(op: real -> real, s: seq<real>) {
    forall k | 0 <= k < |s| :: Holds(op, s[k])
  }

  ghost predicate SumHolds(op: real -> real, x: real, y: real) {
    Holds(op, x) && Holds(op, y) ==> Holds(op, x + y)
  }

  ghost predicate NegationHolds(op: real -> real, x: real) {
    Holds(op, x) ==> Holds(op, -x)
  }

  ghost predicate RoundedHolds(op: real -> real, x: real) {
    Holds(op, op(x))
  }

  /** Rounding is monotone, yields numbers, and sums and negations of numbers are numbers. */
  ghost predicate Additive(op: real -> real) {
    && Monotone(op) && Holds(op, 0.0)
    && (forall x :: RoundedHolds(op, x))
    && (forall x, y :: SumHolds(op, x, y))
    && (forall x :: NegationHolds(op, x))
  }

  /** The `n`th multiple of `c` and the next one round differently. */
  predicate StepsAt(op: real -> real, c: real, n: nat) {
    op(Times(n, c)) != op(Times(n + 1, c))
  }

  ghost predicate Steps(op: real -> real, c: real) {
    exists n: nat :: StepsAt(op, c, n) && n >= 1
  }

  /** Multiples of a number other than zero do not all round alike. */
  ghost predicate Resolves(op: real -> real) {
    forall c :: c == 0.0 || Steps(op, c)
  }

  lemma IdentityResolves()
    ensures Additive(Identity()) && Resolves(Identity())
  {
    forall c ensures c == 0.0 || Steps(Identity(), c) {
      assert c != 0.0 ==> StepsAt(Identity(), c, 1);
    }
  }

  lemma GridSum(step: real, x: real, y: real)
    requires step > 0.0
    ensures SumHolds(Grid(step).rnd, x, y)
  {
    var op := Grid(step).rnd;
    if Holds(op, x) && Holds(op, y) {
      var m := GridPosition(step, x);
      var n := GridPosition(step, y);
      SumOfPositions(step, x, y, m, n);
    }
  }

  lemma SumOfPositions(step: real, x: real, y: real, m: int, n: int)
    requires step > 0.0 && x == m as real * step && y == n as real * step
    ensures RoundTo(step, x + y) == x + y
  {
    GridInteger(step, x + y, m + n);
  }

  lemma GridNegation(step: real, x: real)
    requires step > 0.0
    ensures NegationHolds(Grid(step).rnd, x)
  {
    if Holds(Grid(step).rnd, x) {
      var m := GridPosition(step, x);
      GridInteger(step, -x, -m);
    }
  }

  lemma GridAdditive(step: real)
    requires step > 0.0
    ensures Additive(Grid(step).rnd)
  {
    var a := Grid(step);
    GridIsOutward(step);
    GridRoundsToValues(step);
    forall x ensures RoundedHolds(a.rnd, x) && NegationHolds(a.rnd, x) {
      assert Representable(a, a.rnd(x));
      GridNegation(step, x);
    }
    forall x, y ensures SumHolds(a.rnd, x, y) {
      GridSum(step, x, y);
    }
  }

  /** If two multiples round differently, so do two neighbouring ones between them. */
  lemma {:induction false} StepBetween(op: real -> real, c: real, m: nat, n: nat) returns (k: nat)
    requires m < n && op(Times(m, c)) != op(Times(n, c))
    ensures m <= k < n && StepsAt(op, c, k)
    decreases n - m
  {
    if StepsAt(op, c, m) {
      k := m;
    } else {
      k := StepBetween(op, c, m + 1, n);
    }
  }

  lemma MultiplesApart(step: real, c: real, n: nat)
    requires step > 0.0 && Times(n, Abs(c)) > step
    ensures n >= 1 && RoundTo(step, Times(1, c)) != RoundTo(step, Times(n + 1, c))
  {
    TimesSign(n, c);
    GridRoundNear(step, Times(1, c));
    GridRoundNear(step, Times(n + 1, c));
  }

  lemma GridResolves(step: real)
    requires step > 0.0
    ensures Resolves(Grid(step).rnd)
  {
    forall c ensures c == 0.0 || Steps(Grid(step).rnd, c) {
      if c != 0.0 {
        var n := Outgrows(step, Abs(c));
        MultiplesApart(step, c, n);
        var k := StepBetween(Grid(step).rnd, c, 1, n + 1);
      }
    }
  }

  // ---- One neuron alone ----

  function Abs(x: real): real {
    if x >= 0.0 then x else -x
  }

  function Unit(n: nat, i: nat, value: real): (x: seq<real>)
    ensures |x| == n && forall k | 0 <= k < n :: x[k] == if k == i then value else 0.0
  {
    seq(n, k => if k == i then value else 0.0)
  }

  /** A sum in which only term `j` is not zero. */
  lemma {:induction false} SingleTerm(op: real -> real, w: seq<real>, x: seq<real>, bias: real, j: nat, k: nat)
    requires Additive(op) && Holds(op, bias)
    requires k <= |w| && k <= |x| && forall t | 0 <= t < k && t != j :: x[t] == 0.0
    ensures Accumulate(op, w, x, bias, k) == if j < k then AddProduct(op, bias, w[j], x[j]) else bias
  {
    if k > 0 {
      SingleTerm(op, w, x, bias, j, k - 1);
      if k - 1 != j {
        assert w[k - 1] * x[k - 1] == 0.0;
        assert j < k - 1 ==> RoundedHolds(op, bias + op(w[j] * x[j]));
      }
    }
  }

  /** Biases under which, while feature `i` is 0 or 1, only neuron `j` fires. */
  function Isolating(net: Network, i: nat, j: nat, inputs: nat, bias: real): (b: seq<real>)
    requires Shaped(net, inputs) && i < inputs
    ensures |b| == |net.w1|
    ensures forall k | 0 <= k < |b| :: b[k] == if k == j then bias else -Abs(net.w1[k][i])
  {
    seq(|net.w1|, k requires 0 <= k < |net.w1| => if k == j then bias else -Abs(net.w1[k][i]))
  }

  /** The weights and the number 1 are numbers of the arithmetic. */
  ghost predicate Held(op: real -> real, net: Network) {
    Holds(op, 1.0) && HoldsAll(op, net.w2) && Holds(op, net.b2) && forall j | 0 <= j < |net.w1| :: HoldsAll(op, net.w1[j])
  }

  lemma ProductIs(op: real -> real, acc: real, w: real, x: real, p: real)
    requires w * x == p
    ensures AddProduct(op, acc, w, x) == AddTo(op, acc, p)
  {
  }

  lemma NeuronAt(op: real -> real, w: seq<real>, bias: real, i: nat, t: real)
    requires Additive(op) && HoldsAll(op, w) && Holds(op, bias) && i < |w| && (t == 0.0 || t == 1.0)
    ensures Accumulate(op, w, Unit(|w|, i, t), bias, |w|) == bias + if t == 0.0 then 0.0 else w[i]
  {
    SingleTerm(op, w, Unit(|w|, i, t), bias, i, |w|);
    ProductIs(op, bias, w[i], t, if t == 0.0 then 0.0 else w[i]);
    assert Holds(op, w[i]) && SumHolds(op, bias, w[i]);
  }

  /** What neuron `j` with bias `h` gives when feature `i` is `t`. */
  function Fired(v: real, h: real, t: real): real {
    if t == 0.0 then h else h + v
  }

  /** A hidden value times its output weight. */
  function Contribution(op: real -> real, u: real, x: real): real {
    op(u * x)
  }

  /** The hidden layer when feature `i` is `t` and neuron `j` has bias `h`. */
  lemma IsolatedHidden(op: real -> real, net: Network, i: nat, j: nat, inputs: nat, h: real, t: real, k: nat)
    requires Additive(op) && Shaped(net, inputs) && Held(op, net) && i < inputs && j < |net.w1| && k < |net.w1|
    requires Holds(op, h) && h >= 0.0 && h + net.w1[j][i] >= 0.0 && (t == 0.0 || t == 1.0)
    ensures Hidden(op, net.(b1 := Isolating(net, i, j, inputs, h)), Unit(inputs, i, t))[k]
      == if k != j then 0.0 else Fired(net.w1[j][i], h, t)
  {
    var b := Isolating(net, i, j, inputs, h);
    assert HoldsAll(op, net.w1[k]);
    assert Holds(op, net.w1[k][i]) && NegationHolds(op, net.w1[k][i]);
    NeuronAt(op, net.w1[k], b[k], i, t);
  }

  lemma OutputOf(op: real -> real, bias: real, u: real, x: real)
    requires Additive(op) && Holds(op, bias)
    ensures AddProduct(op, bias, u, x) == bias + Contribution(op, u, x)
  {
    assert RoundedHolds(op, u * x) && SumHolds(op, bias, op(u * x));
  }

  lemma IsolatedOutput(op: real -> real, net: Network, i: nat, j: nat, inputs: nat, h: real, t: real)
    requires Additive(op) && Shaped(net, inputs) && Held(op, net) && i < inputs && j < |net.w1|
    requires Holds(op, h) && h >= 0.0 && h + net.w1[j][i] >= 0.0 && (t == 0.0 || t == 1.0)
    ensures PreSigmoid(op, net.(b1 := Isolating(net, i, j, inputs, h)), Unit(inputs, i, t))
      == net.b2 + Contribution(op, net.w2[j], Fired(net.w1[j][i], h, t))
  {
    var hidden := Hidden(op, net.(b1 := Isolating(net, i, j, inputs, h)), Unit(inputs, i, t));
    forall k | 0 <= k < |net.w1| ensures hidden[k] == if k != j then 0.0 else Fired(net.w1[j][i], h, t) {
      IsolatedHidden(op, net, i, j, inputs, h, t, k);
    }
    SingleTerm(op, net.w2, hidden, net.b2, j, |net.w1|);
    OutputOf(op, net.b2, net.w2[j], hidden[j]);
  }

  // ---- A negative product shows ----

  lemma {:induction false} MultipleHeld(op: real -> real, v: real, n: nat)
    requires Additive(op) && Holds(op, v)
    ensures Holds(op, Times(n, v))
  {
    if n > 0 {
      MultipleHeld(op, v, n - 1);
      assert SumHolds(op, Times(n - 1, v), v);
    }
  }

  lemma NonzeroProduct(u: real, v: real)
    requires u * v < 0.0
    ensures u * Abs(v) != 0.0
  {
  }

  lemma ContributionIs(op: real -> real, u: real, x: real, p: real)
    requires u * x == p
    ensures Contribution(op, u, x) == op(p)
  {
  }

  lemma MultipleOf(op: real -> real, u: real, s: real, n: nat)
    ensures Contribution(op, u, Times(n, s)) == op(Times(n, u * s))
  {
    TimesScales(n, u, s);
    ContributionIs(op, u, Times(n, s), Times(n, u * s));
  }

  lemma ContributionFalls(op: real -> real, u: real, v: real, h: real)
    requires Monotone(op) && u * v < 0.0
    ensures Contribution(op, u, h + v) <= Contribution(op, u, h)
  {
    assert u * (h + v) == u * h + u * v;
    assert Ordered(u * (h + v), u * h);
  }

  /** A hidden value whose contribution falls when `v` is added. */
  lemma FallingStart(op: real -> real, u: real, v: real) returns (h: real)
    requires Additive(op) && Resolves(op) && Holds(op, v) && u * v < 0.0
    ensures Holds(op, h) && h >= 0.0 && h + v >= 0.0 && Contribution(op, u, h + v) < Contribution(op, u, h)
  {
    var s := Abs(v);
    assert NegationHolds(op, v);
    NonzeroProduct(u, v);
    assert Steps(op, u * s);
    var n: nat :| StepsAt(op, u * s, n) && n >= 1;
    TimesSign(n, s);
    MultipleOf(op, u, s, n);
    MultipleOf(op, u, s, n + 1);
    MultipleHeld(op, s, n);
    MultipleHeld(op, s, n + 1);
    h := if v > 0.0 then Times(n, s) else Times(n + 1, s);
    assert h + v == if v > 0.0 then Times(n + 1, s) else Times(n, s);
    ContributionFalls(op, u, v, h);
  }

  /** Raising a feature from `x` to `y` does not lower the output under hidden biases `b`. */
  ghost predicate RisesUnder(op: real -> real, net: Network, b: seq<real>, x: seq<real>, y: seq<real>)
    requires Shaped(net, |x|) && |y| == |x| && |b| == |net.w1|
  {
    PreSigmoid(op, net.(b1 := b), x) <= PreSigmoid(op, net.(b1 := b), y)
  }

  /** A negative product lowers the output under some biases when the feature goes from 0 to 1. */
  lemma NegativeProductFalls(op: real -> real, net: Network, i: nat, j: nat, inputs: nat) returns (b: seq<real>)
    requires Additive(op) && Resolves(op) && Shaped(net, inputs) && Held(op, net)
    requires i < inputs && j < |net.w1| && net.w2[j] * net.w1[j][i] < 0.0
    ensures |b| == |net.w1| && HoldsAll(op, b)
    ensures !RisesUnder(op, net, b, Unit(inputs, i, 0.0), Unit(inputs, i, 1.0))
  {
    assert HoldsAll(op, net.w1[j]);
    var h := FallingStart(op, net.w2[j], net.w1[j][i]);
    b := Isolating(net, i, j, inputs, h);
    IsolatingHeld(op, net, i, j, inputs, h);
    IsolatedOutput(op, net, i, j, inputs, h, 0.0);
    IsolatedOutput(op, net, i, j, inputs, h, 1.0);
  }

  lemma IsolatingHeld(op: real -> real, net: Network, i: nat, j: nat, inputs: nat, h: real)
    requires Additive(op) && Shaped(net, inputs) && Held(op, net) && i < inputs && Holds(op, h)
    ensures HoldsAll(op, Isolating(net, i, j, inputs, h))
  {
    forall k | 0 <= k < |net.w1| ensures Holds(op, Isolating(net, i, j, inputs, h)[k]) {
      assert HoldsAll(op, net.w1[k]);
      assert Holds(op, net.w1[k][i]) && NegationHolds(op, net.w1[k][i]);
    }
  }

  /** The output never falls, whatever the biases and the input, if and only if no weight product is
      negative: exactly, and with every rounding that resolves. */
  lemma SignsAgreeIff(op: real -> real, net: Network, i: nat, inputs: nat)
    requires Additive(op) && Resolves(op) && Shaped(net, inputs) && Held(op, net) && i < inputs
    ensures SignsAgree(net, i, inputs) <==>
      forall b, x, y | |b| == |net.w1| && HoldsAll(op, b) && |x| == inputs && Raises(x, y, i) :: RisesUnder(op, net, b, x, y)
  {
    if SignsAgree(net, i, inputs) {
      forall b, x, y | |b| == |net.w1| && HoldsAll(op, b) && |x| == inputs && Raises(x, y, i) ensures RisesUnder(op, net, b, x, y) {
        assert SignsAgree(net.(b1 := b), i, inputs);
        PerceptronRises(op, net.(b1 := b), x, y, i);
      }
    } else {
      var j :| 0 <= j < |net.w1| && net.w2[j] * net.w1[j][i] < 0.0;
      var b := NegativeProductFalls(op, net, i, j, inputs);
      assert Raises(Unit(inputs, i, 0.0), Unit(inputs, i, 1.0), i);
    }
  }

  // ---- Through the ensemble ----

  /** `other` differs from `net` in its hidden biases at most, and these are numbers of the arithmetic. */
  ghost predicate SameWeights(op: real -> real, net: Network, other: Network) {
    other == net.(b1 := other.b1) && HoldsAll(op, other.b1)
  }

  /** A scanner with these weights, whose tree does not split on feature `i`, and a raise of that feature. */
  ghost predicate Applies(op: real -> real, net: Network, i: nat, inputs: nat, sigmoid: real -> real, m: Model,
                          raw: seq<real>, raw': seq<real>)
  {
    && SameWeights(op, net, m.net) && Fits(m, inputs) && i !in SplitFeatures(m.tree)
    && Monotone(sigmoid) && |raw| == inputs && Raises(raw, raw', i)
  }

  /** No such scanner becomes more lenient when only that feature rises. */
  ghost predicate NeverLenient(a: Arithmetic, net: Network, i: nat, inputs: nat) {
    forall sigmoid, m, raw, raw' | Applies(a.rnd, net, i, inputs, sigmoid, m, raw, raw') :: Rises(a, sigmoid, m, raw, raw')
  }

  /** A scanner that always asks the perceptron and leaves features between 0 and 1 as they are. */
  function Deferring(net: Network, inputs: nat): Model {
    Model([PackedNode(LEAF, 0.5, 0, 0)], net, 0.0, seq(inputs, _ => 0.0), seq(inputs, _ => 1.0))
  }

  lemma DeferringDecides(a: Arithmetic, net: Network, i: nat, inputs: nat, t: real)
    requires Shaped(net, inputs) && Holds(a.rnd, 0.0) && Holds(a.rnd, 1.0) && (t == 0.0 || t == 1.0)
    ensures Fits(Deferring(net, inputs), inputs)
    ensures Decide(a, Identity(), Deferring(net, inputs), Unit(inputs, i, t)).score == PreSigmoid(a.rnd, net, Unit(inputs, i, t))
  {
    var m, x := Deferring(net, inputs), Unit(inputs, i, t);
    forall k | 0 <= k < inputs ensures Normalized(a, m, x)[k] == x[k] {
      assert x[k] - 0.0 == x[k] && 1.0 - 0.0 == 1.0;
      assert x[k] / 1.0 == x[k];
    }
    assert Normalized(a, m, x) == x;
  }

  lemma DeferringApplies(op: real -> real, net: Network, b: seq<real>, i: nat, inputs: nat)
    requires Shaped(net, inputs) && |b| == |net.w1| && HoldsAll(op, b) && i < inputs
    ensures Applies(op, net, i, inputs, Identity(), Deferring(net.(b1 := b), inputs), Unit(inputs, i, 0.0), Unit(inputs, i, 1.0))
  {
  }

  lemma NegativeProductLenient(a: Arithmetic, net: Network, i: nat, j: nat, inputs: nat)
    requires Additive(a.rnd) && Resolves(a.rnd) && Shaped(net, inputs) && Held(a.rnd, net)
    requires i < inputs && j < |net.w1| && net.w2[j] * net.w1[j][i] < 0.0
    ensures !NeverLenient(a, net, i, inputs)
  {
    var b := NegativeProductFalls(a.rnd, net, i, j, inputs);
    DeferringApplies(a.rnd, net, b, i, inputs);
    DeferringDecides(a, net.(b1 := b), i, inputs, 0.0);
    DeferringDecides(a, net.(b1 := b), i, inputs, 1.0);
  }

  /** No scanner with these weights becomes more lenient when feature `i` rises if and only if no weight
      product through that feature is negative. */
  lemma NeverLenientIff(a: Arithmetic, net: Network, i: nat, inputs: nat)
    requires Additive(a.rnd) && Resolves(a.rnd) && Shaped(net, inputs) && Held(a.rnd, net) && i < inputs
    ensures NeverLenient(a, net, i, inputs) <==> SignsAgree(net, i, inputs)
  {
    if SignsAgree(net, i, inputs) {
      forall sigmoid, m, raw, raw' | Applies(a.rnd, net, i, inputs, sigmoid, m, raw, raw') ensures Rises(a, sigmoid, m, raw, raw') {
        EnsembleRises(a, sigmoid, m, raw, raw', i);
      }
    } else {
      var j :| 0 <= j < |net.w1| && net.w2[j] * net.w1[j][i] < 0.0;
      NegativeProductLenient(a, net, i, j, inputs);
    }
  }

  /** The audit's clearance can be trusted if and only if no negative product rounded to zero. */
  lemma ClearanceHoldsIff(audit: Audit, step: real, m: Model, i: nat, inputs: nat)
    requires step > 0.0 && Fits(m, inputs) && Held(Grid(step).rnd, m.net) && i < inputs
    requires IsAudit(audit, Grid(step), m, inputs) && ProvablyMonotone(audit, i) && audit.hasDeferLeaf
    ensures NeverLenient(Grid(step), m.net, i, inputs) <==> NoUnderflow(Grid(step), m.net, i, inputs)
  {
    GridAdditive(step);
    GridResolves(step);
    NeverLenientIff(Grid(step), m.net, i, inputs);
    if NoUnderflow(Grid(step), m.net, i, inputs) {
      ClearedSignsAgree(audit, Grid(step), m, inputs, i);
    }
  }

  // ---- A clearance that does not hold ----

  /** One input and one neuron, with weights 1/4 and -1/4, on a grid of quarters. */
  function TinyNetwork(): Network {
    Network([[0.25]], [1.5], [-0.25], 0.0)
  }

  lemma RoundsQuarters()
    ensures RoundTo(0.25, -0.0625) == 0.0 && RoundTo(0.25, 0.0) == 0.0 && RoundTo(0.25, 0.25) == 0.25
    ensures RoundTo(0.25, 1.0) == 1.0 && RoundTo(0.25, 1.5) == 1.5 && RoundTo(0.25, 1.75) == 1.75
    ensures RoundTo(0.25, -0.375) == -0.25 && RoundTo(0.25, -0.4375) == -0.5
    ensures RoundTo(0.25, -0.25) == -0.25 && RoundTo(0.25, -0.5) == -0.5
  {
  }

  lemma TinyOutputs()
    ensures PreSigmoid(Grid(0.25).rnd, TinyNetwork(), [0.0]) == -0.25
    ensures PreSigmoid(Grid(0.25).rnd, TinyNetwork(), [1.0]) == -0.5
  {
    var op, net := Grid(0.25).rnd, TinyNetwork();
    RoundsQuarters();
    assert Accumulate(op, [0.25], [0.0], 1.5, 1) == AddTo(op, 1.5, 0.0) == 1.5;
    assert Accumulate(op, [0.25], [1.0], 1.5, 1) == AddTo(op, 1.5, 0.25) == 1.75;
    assert Hidden(op, net, [0.0]) == [1.5] && Hidden(op, net, [1.0]) == [1.75];
    assert Accumulate(op, [-0.25], [1.5], 0.0, 1) == AddTo(op, 0.0, -0.375) == -0.25;
    assert Accumulate(op, [-0.25], [1.75], 0.0, 1) == AddTo(op, 0.0, -0.4375) == -0.5;
  }

  /** The product of 1/4 and -1/4 rounds to zero, so the audit clears the feature, yet raising it from
      0 to 1 lowers the scanner's score. */
  lemma UnderflowDefeatsAudit(audit: Audit)
    requires IsAudit(audit, Grid(0.25), Deferring(TinyNetwork(), 1), 1)
    ensures ProvablyMonotone(audit, 0) && Raises([0.0], [1.0], 0)
    ensures !Rises(Grid(0.25), Identity(), Deferring(TinyNetwork(), 1), [0.0], [1.0])
  {
    var a, m := Grid(0.25), Deferring(TinyNetwork(), 1);
    RoundsQuarters();
    assert IsMinProduct(audit.minProducts[0], a, m.net, 0, 1);
    assert Product(a, m.net, 0, 0) == 0.0;
    assert Unit(1, 0, 0.0) == [0.0] && Unit(1, 0, 1.0) == [1.0];
    DeferringDecides(a, m.net, 0, 1, 0.0);
    DeferringDecides(a, m.net, 0, 1, 1.0);
    TinyOutputs();
  }
}
