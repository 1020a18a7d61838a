/** Certified robustness: outward-rounded interval propagation through the perceptron and the check
    that a verdict is stable around an input (src/ensemble/crown.rs). */
module Crown {
  import opened Rounding
  import opened Mlp

  datatype Interval = Interval(lo: real, hi: real)

  predicate Contains(i: Interval, x: real) {
    i.lo <= x <= i.hi
  }

  predicate Covers(outer: Interval, inner: Interval) {
    outer.lo <= inner.lo && inner.hi <= outer.hi
  }

  ghost predicate BoxContains(box: seq<Interval>, x: seq<real>) {
    |box| == |x| && forall i | 0 <= i < |x| :: Contains(box[i], x[i])
  }

  ghost predicate BoxCovers(outer: seq<Interval>, inner: seq<Interval>) {
    |outer| == |inner| && forall i | 0 <= i < |inner| :: Covers(outer[i], inner[i])
  }

  // ---- Interval propagation ----

  /** `add_down` of `mul_down` below, `add_up` of `mul_up` above. */
  function AddToInterval(a: Arithmetic, acc: Interval, low: real, high: real): Interval {
    Interval(a.down(a.rnd(acc.lo + a.down(a.rnd(low)))), a.up(a.rnd(acc.hi + a.up(a.rnd(high)))))
  }

  /** One outward-rounded multiply-add; a negative weight swaps the ends. */
  function AddProductInterval(a: Arithmetic, acc: Interval, w: real, x: Interval): Interval {
    if w >= 0.0 then AddToInterval(a, acc, w * x.lo, w * x.hi) else AddToInterval(a, acc, w * x.hi, w * x.lo)
  }

  function AccumulateInterval(a: Arithmetic, w: seq<real>, box: seq<Interval>, bias: real, k: nat): Interval
    requires k <= |w| && k <= |box|
  {
    if k == 0 then Interval(bias, bias)
    else AddProductInterval(a, AccumulateInterval(a, w, box, bias, k - 1), w[k - 1], box[k - 1])
  }

  function ReluInterval(i: Interval): Interval {
    Interval(Relu(i.lo), Relu(i.hi))
  }

  function HiddenBox(a: Arithmetic, net: Network, box: seq<Interval>): (h: seq<Interval>)
    requires Shaped(net, |box|)
    ensures |h| == |net.w1|
  {
    seq(|net.w1|, j requires 0 <= j < |net.w1| => ReluInterval(AccumulateInterval(a, net.w1[j], box, net.b1[j], |box|)))
  }

  function PreSigmoidInterval(a: Arithmetic, net: Network, box: seq<Interval>): Interval
    requires Shaped(net, |box|)
  {
    AccumulateInterval(a, net.w2, HiddenBox(a, net, box), net.b2, |net.w1|)
  }

  // ---- The propagation contains every forward pass ----

  lemma SumInside(a: Arithmetic, op: real -> real, lo: real, s: real, hi: real)
    requires Outward(a) && Within(a, op) && lo <= s <= hi
    ensures a.down(a.rnd(lo)) <= op(s) <= a.up(a.rnd(hi))
  {
    ShiftMonotone(a, lo, s);
    ShiftMonotone(a, s, hi);
    assert a.down(a.rnd(s)) <= op(s) <= a.up(a.rnd(s));
  }

  lemma AddInside(a: Arithmetic, op: real -> real, acc: Interval, sum: real, pl: real, p: real, ph: real)
    requires Outward(a) && Within(a, op) && Contains(acc, sum) && pl <= p <= ph
    ensures Contains(AddToInterval(a, acc, pl, ph), AddTo(op, sum, p))
  {
    SumInside(a, op, pl, p, ph);
    SumInside(a, op, acc.lo + a.down(a.rnd(pl)), sum + op(p), acc.hi + a.up(a.rnd(ph)));
  }

  /** Whatever lies between two products stays between them after one accumulation step. */
  ghost predicate StaysInside(a: Arithmetic, op: real -> real, acc: Interval, sum: real) {
    forall pl, p, ph {:trigger AddToInterval(a, acc, pl, ph), AddTo(op, sum, p)} | pl <= p <= ph ::
      Contains(AddToInterval(a, acc, pl, ph), AddTo(op, sum, p))
  }

  lemma AlwaysStaysInside(a: Arithmetic, op: real -> real, acc: Interval, sum: real)
    requires Outward(a) && Within(a, op) && Contains(acc, sum)
    ensures StaysInside(a, op, acc, sum)
  {
    forall pl, p, ph | pl <= p <= ph ensures Contains(AddToInterval(a, acc, pl, ph), AddTo(op, sum, p)) {
      AddInside(a, op, acc, sum, pl, p, ph);
    }
  }

  lemma AddProductInside(a: Arithmetic, op: real -> real, acc: Interval, sum: real, w: real, i: Interval, x: real)
    requires StaysInside(a, op, acc, sum) && Contains(i, x)
    ensures Contains(AddProductInterval(a, acc, w, i), AddProduct(op, sum, w, x))
  {
    ScaleOrder(w, i.lo, x);
    ScaleOrder(w, x, i.hi);
  }

  lemma {:induction false} AccumulateInside(a: Arithmetic, op: real -> real, w: seq<real>, box: seq<Interval>, x: seq<real>, bias: real, k: nat)
    requires Outward(a) && Within(a, op) && BoxContains(box, x) && k <= |w| && k <= |x|
    ensures Contains(AccumulateInterval(a, w, box, bias, k), Accumulate(op, w, x, bias, k))
  {
    if k > 0 {
      AccumulateInside(a, op, w, box, x, bias, k - 1);
      var acc, sum := AccumulateInterval(a, w, box, bias, k - 1), Accumulate(op, w, x, bias, k - 1);
      AlwaysStaysInside(a, op, acc, sum);
      AddProductInside(a, op, acc, sum, w[k - 1], box[k - 1], x[k - 1]);
    }
  }

  /** For every network, box and point of the box, any forward pass whose operations err by less
      than an outward step lies in the propagated interval: the exact one and the rounded one. */
  lemma ForwardPassInside(a: Arithmetic, op: real -> real, net: Network, box: seq<Interval>, x: seq<real>)
    requires Outward(a) && Within(a, op) && Shaped(net, |x|) && BoxContains(box, x)
    ensures Contains(PreSigmoidInterval(a, net, box), PreSigmoid(op, net, x))
  {
    var hb, h := HiddenBox(a, net, box), Hidden(op, net, x);
    forall j | 0 <= j < |net.w1| ensures Contains(hb[j], h[j]) {
      AccumulateInside(a, op, net.w1[j], box, x, net.b1[j], |x|);
    }
    AccumulateInside(a, op, net.w2, hb, h, net.b2, |net.w1|);
  }

  // ---- The propagation is monotone in the box ----

  lemma AddCovers(a: Arithmetic, acc: Interval, acc': Interval, pl: real, pl': real, ph': real, ph: real)
    requires Outward(a) && Covers(acc, acc') && pl <= pl' && ph' <= ph
    ensures Covers(AddToInterval(a, acc, pl, ph), AddToInterval(a, acc', pl', ph'))
  {
    ShiftMonotone(a, pl, pl');
    ShiftMonotone(a, ph', ph);
    ShiftMonotone(a, acc.lo + a.down(a.rnd(pl)), acc'.lo + a.down(a.rnd(pl')));
    ShiftMonotone(a, acc'.hi + a.up(a.rnd(ph')), acc.hi + a.up(a.rnd(ph)));
  }

  ghost predicate StaysCovered(a: Arithmetic, acc: Interval, acc': Interval) {
    forall pl, pl', ph', ph {:trigger AddToInterval(a, acc, pl, ph), AddToInterval(a, acc', pl', ph')} | pl <= pl' && ph' <= ph ::
      Covers(AddToInterval(a, acc, pl, ph), AddToInterval(a, acc', pl', ph'))
  }

  lemma AlwaysStaysCovered(a: Arithmetic, acc: Interval, acc': Interval)
    requires Outward(a) && Covers(acc, acc')
    ensures StaysCovered(a, acc, acc')
  {
    forall pl, pl', ph', ph | pl <= pl' && ph' <= ph
      ensures Covers(AddToInterval(a, acc, pl, ph), AddToInterval(a, acc', pl', ph'))
    {
      AddCovers(a, acc, acc', pl, pl', ph', ph);
    }
  }

  lemma AddProductCovers(a: Arithmetic, acc: Interval, acc': Interval, w: real, i: Interval, i': Interval)
    requires StaysCovered(a, acc, acc') && Covers(i, i')
    ensures Covers(AddProductInterval(a, acc, w, i), AddProductInterval(a, acc', w, i'))
  {
    ScaleOrder(w, i.lo, i'.lo);
    ScaleOrder(w, i'.hi, i.hi);
  }

  lemma ShiftMonotone(a: Arithmetic, x: real, y: real)
    requires Outward(a) && x <= y
    ensures a.down(a.rnd(x)) <= a.down(a.rnd(y)) && a.up(a.rnd(x)) <= a.up(a.rnd(y))
  {
    assert Ordered(x, y) && Ordered(a.rnd(x), a.rnd(y));
  }

  lemma {:induction false} AccumulateCovers(a: Arithmetic, w: seq<real>, box: seq<Interval>, box': seq<Interval>, bias: real, k: nat)
    requires Outward(a) && BoxCovers(box, box') && k <= |w| && k <= |box|
    ensures Covers(AccumulateInterval(a, w, box, bias, k), AccumulateInterval(a, w, box', bias, k))
  {
    if k > 0 {
      AccumulateCovers(a, w, box, box', bias, k - 1);
      var acc, acc' := AccumulateInterval(a, w, box, bias, k - 1), AccumulateInterval(a, w, box', bias, k - 1);
      AlwaysStaysCovered(a, acc, acc');
      AddProductCovers(a, acc, acc', w[k - 1], box[k - 1], box'[k - 1]);
    }
  }

  lemma PropagationCovers(a: Arithmetic, net: Network, box: seq<Interval>, box': seq<Interval>)
    requires Outward(a) && Shaped(net, |box|) && BoxCovers(box, box')
    ensures Covers(PreSigmoidInterval(a, net, box), PreSigmoidInterval(a, net, box'))
  {
    var hb, hb' := HiddenBox(a, net, box), HiddenBox(a, net, box');
    forall j | 0 <= j < |net.w1| ensures Covers(hb[j], hb'[j]) {
      AccumulateCovers(a, net.w1[j], box, box', net.b1[j], |box|);
    }
    AccumulateCovers(a, net.w2, hb, hb', net.b2, |net.w1|);
  }

  // ---- The propagation loops ----

  method SumIntervals(a: Arithmetic, w: seq<real>, box: seq<Interval>, bias: real) returns (r: Interval)
    requires |w| == |box|
    ensures r == AccumulateInterval(a, w, box, bias, |box|)
  {
    r := Interval(bias, bias);
    for i := 0 to |box|
      invariant r == AccumulateInterval(a, w, box, bias, i)
    {
      r := AddProductInterval(a, r, w[i], box[i]);
    }
  }

  /** `ibp_linear` followed by ReLU. */
  method PropagateHidden(a: Arithmetic, net: Network, box: seq<Interval>) returns (h: seq<Interval>)
    requires Shaped(net, |box|)
    ensures h == HiddenBox(a, net, box)
  {
    var out := new Interval[|net.w1|];
    for j := 0 to |net.w1|
      invariant out[..j] == HiddenBox(a, net, box)[..j]
    {
      var z := SumIntervals(a, net.w1[j], box, net.b1[j]);
      out[j] := ReluInterval(z);
      assert out[..j + 1] == out[..j] + [out[j]];
    }
    h := out[..];
  }

  /** `ibp_mlp_pre_sigmoid`. */
  method Propagate(a: Arithmetic, net: Network, box: seq<Interval>) returns (pre: Interval)
    requires Shaped(net, |box|)
    ensures pre == PreSigmoidInterval(a, net, box)
  {
    var h := PropagateHidden(a, net, box);
    pre := SumIntervals(a, net.w2, h, net.b2);
  }

  // ---- The input box ----

  function Around(a: Arithmetic, x: real, eps: real): Interval {
    Interval(a.down(a.rnd(x - eps)), a.up(a.rnd(x + eps)))
  }

  function InputBox(a: Arithmetic, input: seq<real>, eps: real): (box: seq<Interval>)
    ensures |box| == |input|
  {
    seq(|input|, i requires 0 <= i < |input| => Around(a, input[i], eps))
  }

  /** Within L-infinity distance `eps`. */
  ghost predicate Near(x: seq<real>, y: seq<real>, eps: real) {
    |x| == |y| && forall i | 0 <= i < |x| :: x[i] - eps <= y[i] <= x[i] + eps
  }

  lemma AroundHolds(a: Arithmetic, x: real, eps: real, y: real)
    requires Outward(a) && x - eps <= y <= x + eps
    ensures Contains(Around(a, x, eps), y)
  {
    assert a.down(a.rnd(x - eps)) <= x - eps && x + eps <= a.up(a.rnd(x + eps));
  }

  lemma BoxHoldsBall(a: Arithmetic, input: seq<real>, eps: real, x: seq<real>)
    requires Outward(a) && Near(input, x, eps)
    ensures BoxContains(InputBox(a, input, eps), x)
  {
    forall i | 0 <= i < |x| ensures Contains(InputBox(a, input, eps)[i], x[i]) {
      AroundHolds(a, input[i], eps, x[i]);
    }
  }

  lemma AroundGrows(a: Arithmetic, x: real, small: real, large: real)
    requires Outward(a) && small <= large
    ensures Covers(Around(a, x, large), Around(a, x, small))
  {
    ShiftMonotone(a, x - large, x - small);
    ShiftMonotone(a, x + small, x + large);
  }

  lemma BoxGrows(a: Arithmetic, input: seq<real>, small: real, large: real)
    requires Outward(a) && small <= large
    ensures BoxCovers(InputBox(a, input, large), InputBox(a, input, small))
  {
    forall i | 0 <= i < |input| ensures Covers(InputBox(a, input, large)[i], InputBox(a, input, small)[i]) {
      AroundGrows(a, input[i], small, large);
    }
  }

  // ---- Verdicts ----

  const SIGMOID_ULP_SLACK := 8

  function SigmoidDown(a: Arithmetic, sigmoid: real -> real, x: real): real {
    Repeat(a.down, SIGMOID_ULP_SLACK, sigmoid(x))
  }

  function SigmoidUp(a: Arithmetic, sigmoid: real -> real, x: real): real {
    Repeat(a.up, SIGMOID_ULP_SLACK, sigmoid(x))
  }

  /** A monotone scoring of outputs that stays within the slack of the computed sigmoid. */
  ghost predicate Scores(a: Arithmetic, sigmoid: real -> real, score: real -> real) {
    && Monotone(score)
    && (forall x :: SigmoidDown(a, sigmoid, x) <= score(x) <= SigmoidUp(a, sigmoid, x))
  }

  /** The computed sigmoid is never more than `k` numbers away from `exact`. */
  ghost predicate Accurate(a: Arithmetic, sigmoid: real -> real, exact: real -> real, k: nat) {
    forall x :: Repeat(a.down, k, sigmoid(x)) <= exact(x) <= Repeat(a.up, k, sigmoid(x))
  }

  /** A sigmoid computed to within eight numbers lets the widened bounds enclose the exact one; the
      computed one, accurate to within zero of itself, is enclosed too. */
  lemma AccurateSigmoidScores(a: Arithmetic, sigmoid: real -> real, exact: real -> real, k: nat)
    requires Outward(a) && Monotone(exact) && Accurate(a, sigmoid, exact, k) && k <= SIGMOID_ULP_SLACK
    ensures Scores(a, sigmoid, exact)
  {
    forall x ensures SigmoidDown(a, sigmoid, x) <= exact(x) <= SigmoidUp(a, sigmoid, x) {
      RepeatWidens(a, k, SIGMOID_ULP_SLACK, sigmoid(x));
    }
  }

  lemma ComputedSigmoidScores(a: Arithmetic, sigmoid: real -> real)
    requires Outward(a) && Monotone(sigmoid)
    ensures Scores(a, sigmoid, sigmoid)
  {
    AccurateSigmoidScores(a, sigmoid, sigmoid, 0);
  }

  /** `verdict_stable` once the interval is known. */
  predicate Certifies(a: Arithmetic, sigmoid: real -> real, pre: Interval, threshold: real, above: bool) {
    if above then SigmoidDown(a, sigmoid, pre.lo) > threshold else SigmoidUp(a, sigmoid, pre.hi) < threshold
  }

  predicate VerdictStable(a: Arithmetic, sigmoid: real -> real, net: Network, input: seq<real>, eps: real, threshold: real, above: bool)
    requires Shaped(net, |input|)
  {
    Certifies(a, sigmoid, PreSigmoidInterval(a, net, InputBox(a, input, eps)), threshold, above)
  }

  method CheckStable(a: Arithmetic, sigmoid: real -> real, net: Network, input: seq<real>, eps: real, threshold: real, above: bool) returns (ok: bool)
    requires Shaped(net, |input|)
    ensures ok == VerdictStable(a, sigmoid, net, input, eps, threshold, above)
  {
    var pre := Propagate(a, net, InputBox(a, input, eps));
    ok := Certifies(a, sigmoid, pre, threshold, above);
  }

  lemma CertifiedScore(a: Arithmetic, sigmoid: real -> real, score: real -> real, pre: Interval, y: real, threshold: real, above: bool)
    requires Scores(a, sigmoid, score) && Contains(pre, y) && Certifies(a, sigmoid, pre, threshold, above)
    ensures if above then score(y) > threshold else score(y) < threshold
  {
    assert Ordered(pre.lo, y) && Ordered(y, pre.hi);
    assert SigmoidDown(a, sigmoid, pre.lo) <= score(pre.lo) && score(pre.hi) <= SigmoidUp(a, sigmoid, pre.hi);
  }

  /** A certified radius certifies: every point within `eps` of the input gets the certified verdict,
      computed with rounding or exactly. */
  lemma StableMeansSameVerdict(a: Arithmetic, sigmoid: real -> real, net: Network, input: seq<real>, eps: real, threshold: real, above: bool,
                               op: real -> real, score: real -> real, x: seq<real>)
    requires Outward(a) && Within(a, op) && Scores(a, sigmoid, score)
    requires Shaped(net, |input|) && Near(input, x, eps)
    requires VerdictStable(a, sigmoid, net, input, eps, threshold, above)
    ensures score(PreSigmoid(op, net, x)) > threshold <==> above
  {
    var box := InputBox(a, input, eps);
    BoxHoldsBall(a, input, eps, x);
    ForwardPassInside(a, op, net, box, x);
    CertifiedScore(a, sigmoid, score, PreSigmoidInterval(a, net, box), PreSigmoid(op, net, x), threshold, above);
  }

  /** Certification at one radius implies it at every smaller one. */
  lemma StableShrinks(a: Arithmetic, sigmoid: real -> real, net: Network, input: seq<real>, small: real, large: real, threshold: real, above: bool)
    requires Outward(a) && Monotone(sigmoid) && Shaped(net, |input|) && small <= large
    requires VerdictStable(a, sigmoid, net, input, large, threshold, above)
    ensures VerdictStable(a, sigmoid, net, input, small, threshold, above)
  {
    BoxGrows(a, input, small, large);
    PropagationCovers(a, net, InputBox(a, input, large), InputBox(a, input, small));
    var outer, inner := PreSigmoidInterval(a, net, InputBox(a, input, large)), PreSigmoidInterval(a, net, InputBox(a, input, small));
    assert Ordered(outer.lo, inner.lo) && Ordered(inner.hi, outer.hi);
    RepeatMonotone(a.down, SIGMOID_ULP_SLACK, sigmoid(outer.lo), sigmoid(inner.lo));
    RepeatMonotone(a.up, SIGMOID_ULP_SLACK, sigmoid(inner.hi), sigmoid(outer.hi));
  }
}
