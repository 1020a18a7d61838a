/** When `certified_radius` ends, on any arithmetic with next numbers, and a call that does not. */
module SearchTermination {
  import opened Rounding
  import opened Mlp
  import opened Crown
  import opened Bisection
  import opened CertifiedRadius

  // ---- The arithmetic ----

  /** `up` gives the next number. */
  ghost predicate NextIs(a: Arithmetic, x: real, y: real) {
    Representable(a, x) ==>
      Representable(a, a.up(x)) && x < a.up(x) && (Representable(a, y) && x < y ==> a.up(x) <= y && a.rnd(x - y) < 0.0)
  }

  ghost predicate NegationHeld(a: Arithmetic, x: real) {
    Representable(a, x) ==> Representable(a, -x)
  }

  /** Numbers have a next one, distinct numbers do not cancel, and 1 and every negation are numbers. */
  ghost predicate Stepping(a: Arithmetic) {
    && (forall x, y :: NextIs(a, x, y))
    && Representable(a, 1.0) && (forall x :: NegationHeld(a, x))
  }

  lemma {:induction false} RepeatHeld(a: Arithmetic, n: nat, x: real)
    requires Stepping(a) && Representable(a, x)
    ensures Representable(a, Repeat(a.up, n, x))
  {
    if n > 0 {
      RepeatHeld(a, n - 1, x);
      assert NextIs(a, Repeat(a.up, n - 1, x), 0.0);
    }
  }

  lemma SigmoidUpMonotone(a: Arithmetic, sigmoid: real -> real, x: real, y: real)
    requires Outward(a) && Monotone(sigmoid) && x <= y
    ensures SigmoidUp(a, sigmoid, x) <= SigmoidUp(a, sigmoid, y)
  {
    assert Ordered(x, y);
    RepeatMonotone(a.up, SIGMOID_ULP_SLACK, sigmoid(x), sigmoid(y));
  }

  // ---- A network that tells two neighbours apart ----

  /** One neuron that takes the input as it is, its bias, and its weight in the output. */
  function Alarm(bias: real, weight: real): Network {
    Network([[1.0]], [bias], [weight], 0.0)
  }

  /** What the input's upper end at radius `eps` contributes to the neuron. */
  function Reach(a: Arithmetic, eps: real): real {
    a.up(a.up(eps))
  }

  /** The upper end of the neuron's input at radius `eps`. */
  lemma AlarmInput(a: Arithmetic, bias: real, eps: real)
    requires Stepping(a) && Representable(a, eps)
    ensures var box := InputBox(a, [0.0], eps);
      |box| == 1 && AccumulateInterval(a, [1.0], box, bias, 1).hi == a.up(a.rnd(bias + Reach(a, eps)))
  {
    var box := InputBox(a, [0.0], eps);
    assert NextIs(a, eps, 0.0) && NextIs(a, a.up(eps), 0.0);
    assert 0.0 + eps == eps && box[0].hi == a.up(eps);
    assert 1.0 * box[0].hi == box[0].hi;
    assert AccumulateInterval(a, [1.0], box, bias, 0).hi == bias;
  }

  /** A product added to zero, rounded upwards at both operations. */
  function UpTwice(a: Arithmetic, p: real): real {
    a.up(a.rnd(a.up(a.rnd(p))))
  }

  lemma UpTwiceMonotone(a: Arithmetic, p: real, q: real)
    requires Outward(a) && p <= q
    ensures UpTwice(a, p) <= UpTwice(a, q)
  {
    ShiftMonotone(a, p, q);
    ShiftMonotone(a, a.up(a.rnd(p)), a.up(a.rnd(q)));
  }

  lemma UpTwiceAbove(a: Arithmetic, p: real)
    requires Outward(a)
    ensures UpTwice(a, p) >= p
  {
    assert a.up(a.rnd(p)) <= UpTwice(a, p);
  }

  lemma AddedToZero(a: Arithmetic, acc: Interval, low: real, high: real)
    requires acc.hi == 0.0
    ensures AddToInterval(a, acc, low, high).hi == UpTwice(a, high)
  {
    assert acc.hi + a.up(a.rnd(high)) == a.up(a.rnd(high));
  }

  /** What is added to `acc` compares with `b` as the results do. */
  ghost predicate Compares(a: Arithmetic, acc: Interval, b: real) {
    forall low, high {:trigger AddToInterval(a, acc, low, high)} ::
      && (high <= b ==> AddToInterval(a, acc, low, high).hi <= UpTwice(a, b))
      && (high >= b ==> AddToInterval(a, acc, low, high).hi >= UpTwice(a, b))
  }

  lemma ZeroCompares(a: Arithmetic, acc: Interval, b: real)
    requires Outward(a) && acc.hi == 0.0
    ensures Compares(a, acc, b)
  {
    forall low, high
      ensures (high <= b ==> AddToInterval(a, acc, low, high).hi <= UpTwice(a, b))
           && (high >= b ==> AddToInterval(a, acc, low, high).hi >= UpTwice(a, b))
    {
      AddedToZero(a, acc, low, high);
      if high <= b {
        UpTwiceMonotone(a, high, b);
      }
      if high >= b {
        UpTwiceMonotone(a, b, high);
      }
    }
  }

  lemma WeighedCompares(a: Arithmetic, acc: Interval, w: real, x: Interval, b: real)
    requires w >= 0.0 && Compares(a, acc, b)
    ensures w * x.hi <= b ==> AddProductInterval(a, acc, w, x).hi <= UpTwice(a, b)
    ensures w * x.hi >= b ==> AddProductInterval(a, acc, w, x).hi >= UpTwice(a, b)
  {
  }

  /** The output the neuron's value `h` gives through its weight compares as the product does. */
  ghost predicate Weighs(a: Arithmetic, weight: real, h: real, out: real) {
    forall b :: (weight * h <= b ==> out <= UpTwice(a, b)) && (weight * h >= b ==> out >= UpTwice(a, b))
  }

  lemma WeighedOutput(a: Arithmetic, acc: Interval, w: real, x: Interval)
    requires Outward(a) && acc.hi == 0.0 && w >= 0.0
    ensures Weighs(a, w, x.hi, AddProductInterval(a, acc, w, x).hi)
  {
    forall b ensures (w * x.hi <= b ==> AddProductInterval(a, acc, w, x).hi <= UpTwice(a, b))
                  && (w * x.hi >= b ==> AddProductInterval(a, acc, w, x).hi >= UpTwice(a, b)) {
      ZeroCompares(a, acc, b);
      WeighedCompares(a, acc, w, x, b);
    }
  }

  ghost function AlarmBound(a: Arithmetic, bias: real, weight: real, eps: real): real {
    PreSigmoidInterval(a, Alarm(bias, weight), InputBox(a, [0.0], eps)).hi
  }

  /** The neuron's value at radius `eps`. */
  function Fires(a: Arithmetic, bias: real, eps: real): real {
    Relu(a.up(a.rnd(bias + Reach(a, eps))))
  }

  lemma AlarmShape(a: Arithmetic, bias: real, weight: real, eps: real) returns (acc: Interval, x: Interval)
    requires Stepping(a) && Representable(a, eps)
    ensures acc.hi == 0.0 && x.hi == Fires(a, bias, eps)
    ensures AlarmBound(a, bias, weight, eps) == AddProductInterval(a, acc, weight, x).hi
  {
    var net, box := Alarm(bias, weight), InputBox(a, [0.0], eps);
    AlarmInput(a, bias, eps);
    var hidden := HiddenBox(a, net, box);
    acc, x := AccumulateInterval(a, [weight], hidden, 0.0, 0), hidden[0];
  }

  /** The output's upper end when the neuron's is `h`. */
  function Heard(a: Arithmetic, weight: real, h: real): real {
    UpTwice(a, weight * h)
  }

  lemma WeighsIsHeard(a: Arithmetic, weight: real, h: real, out: real)
    requires Weighs(a, weight, h, out)
    ensures out == Heard(a, weight, h)
  {
    var p := weight * h;
    assert out <= UpTwice(a, p) && out >= UpTwice(a, p);
  }

  lemma AlarmOutput(a: Arithmetic, bias: real, weight: real, eps: real)
    requires Outward(a) && Stepping(a) && Representable(a, eps) && weight >= 0.0
    ensures AlarmBound(a, bias, weight, eps) == Heard(a, weight, Fires(a, bias, eps))
  {
    var acc, x := AlarmShape(a, bias, weight, eps);
    WeighedOutput(a, acc, weight, x);
    WeighsIsHeard(a, weight, x.hi, AddProductInterval(a, acc, weight, x).hi);
  }

  /** The sigmoid, with its slack, scores what is heard at `x` lower than what is heard at `y`. */
  ghost predicate TellsApart(a: Arithmetic, sigmoid: real -> real, x: real, y: real, bias: real, weight: real) {
    && Representable(a, bias) && Representable(a, weight) && weight >= 0.0
    && SigmoidUp(a, sigmoid, Heard(a, weight, Fires(a, bias, x))) < SigmoidUp(a, sigmoid, Heard(a, weight, Fires(a, bias, y)))
  }

  // ---- Two such networks ----

  lemma ReachRises(a: Arithmetic, x: real, y: real)
    requires Stepping(a) && Representable(a, x) && Representable(a, y) && x < y
    ensures Representable(a, Reach(a, x)) && Representable(a, Reach(a, y)) && Reach(a, x) < Reach(a, y)
  {
    assert NextIs(a, x, y) && NextIs(a, a.up(x), a.up(y)) && NextIs(a, y, 0.0) && NextIs(a, a.up(y), 0.0);
    assert a.up(x) <= y < a.up(y);
  }

  /** With the reach of `y` as negative bias the neuron is silent at `x`. */
  lemma Silent(a: Arithmetic, x: real, y: real)
    requires Stepping(a) && RoundsToValues(a) && Representable(a, x) && Representable(a, y) && x < y
    ensures Fires(a, -Reach(a, y), x) == 0.0
  {
    var u, v := Reach(a, x), Reach(a, y);
    ReachRises(a, x, y);
    assert NextIs(a, u, v);
    var d := a.rnd(u - v);
    assert -v + u == u - v && Representable(a, d);
    assert NextIs(a, d, 0.0);
  }

  lemma FiresAtBias(a: Arithmetic, y: real)
    requires Stepping(a) && RoundsToValues(a)
    ensures Fires(a, -Reach(a, y), y) == a.up(0.0) && a.up(0.0) > 0.0 && Representable(a, a.up(0.0))
  {
    assert NextIs(a, 0.0, 0.0);
    assert -Reach(a, y) + Reach(a, y) == 0.0;
  }

  lemma HeardMonotone(a: Arithmetic, weight: real, h: real, h': real)
    requires Outward(a) && weight >= 0.0 && h <= h'
    ensures Heard(a, weight, h) <= Heard(a, weight, h')
  {
    ScaleOrder(weight, h, h');
    UpTwiceMonotone(a, weight * h, weight * h');
  }

  lemma NothingHeard(a: Arithmetic, weight: real)
    requires RoundsToValues(a) && Representable(a, a.up(0.0))
    ensures Heard(a, weight, 0.0) == a.up(a.up(0.0))
  {
    assert weight * 0.0 == 0.0;
  }

  lemma MuchHeard(a: Arithmetic, weight: real, h: real, q: real)
    requires Outward(a) && weight * h >= q
    ensures Heard(a, weight, h) >= q
  {
    UpTwiceAbove(a, weight * h);
  }

  /** A weight that lifts the least positive number past `q`. */
  ghost function Loud(a: Arithmetic, q: real): real {
    if a.up(0.0) > 0.0 then a.up(a.rnd(q / a.up(0.0))) else 0.0
  }

  lemma LoudEnough(a: Arithmetic, q: real)
    requires Outward(a) && Stepping(a) && RoundsToValues(a) && q >= 0.0
    ensures Representable(a, Loud(a, q)) && Loud(a, q) >= 0.0 && Loud(a, q) * a.up(0.0) >= q
  {
    var d := a.up(0.0);
    assert NextIs(a, 0.0, 0.0);
    assert Representable(a, a.rnd(q / d));
    assert NextIs(a, a.rnd(q / d), 0.0);
    DivideTimes(q, d);
    ScaleOrder(d, q / d, Loud(a, q));
    DivideMonotone(0.0, q, d);
  }

  lemma BiasHeld(a: Arithmetic, y: real)
    requires Stepping(a) && Representable(a, y)
    ensures Representable(a, -Reach(a, y))
  {
    assert NextIs(a, y, 0.0) && NextIs(a, a.up(y), 0.0) && NegationHeld(a, Reach(a, y));
  }

  /** Bounds that keep clear of two scores apart. */
  lemma ScoresApart(a: Arithmetic, sigmoid: real -> real, low: real, p: real, q: real, high: real)
    requires Outward(a) && Monotone(sigmoid) && low <= p && q <= high
    requires SigmoidUp(a, sigmoid, p) < SigmoidUp(a, sigmoid, q)
    ensures SigmoidUp(a, sigmoid, low) < SigmoidUp(a, sigmoid, high)
  {
    SigmoidUpMonotone(a, sigmoid, low, p);
    SigmoidUpMonotone(a, sigmoid, q, high);
  }

  lemma FiguresTellApart(a: Arithmetic, sigmoid: real -> real, x: real, y: real, bias: real, weight: real, h: real, g: real)
    requires Outward(a) && Monotone(sigmoid) && Representable(a, bias) && Representable(a, weight) && weight >= 0.0
    requires Fires(a, bias, x) == h && Fires(a, bias, y) >= g
    requires SigmoidUp(a, sigmoid, Heard(a, weight, h)) < SigmoidUp(a, sigmoid, Heard(a, weight, g))
    ensures TellsApart(a, sigmoid, x, y, bias, weight)
  {
    HeardMonotone(a, weight, g, Fires(a, bias, y));
    SigmoidUpMonotone(a, sigmoid, Heard(a, weight, g), Heard(a, weight, Fires(a, bias, y)));
  }

  lemma LoudScores(a: Arithmetic, sigmoid: real -> real, q: real)
    requires Outward(a) && Stepping(a) && RoundsToValues(a) && Monotone(sigmoid) && q >= 0.0
    requires SigmoidUp(a, sigmoid, a.up(a.up(0.0))) < SigmoidUp(a, sigmoid, q)
    ensures SigmoidUp(a, sigmoid, Heard(a, Loud(a, q), 0.0)) < SigmoidUp(a, sigmoid, Heard(a, Loud(a, q), a.up(0.0)))
  {
    LoudEnough(a, q);
    FiresAtBias(a, 0.0);
    NothingHeard(a, Loud(a, q));
    MuchHeard(a, Loud(a, q), a.up(0.0), q);
    ScoresApart(a, sigmoid, Heard(a, Loud(a, q), 0.0), a.up(a.up(0.0)), q, Heard(a, Loud(a, q), a.up(0.0)));
  }

  /** A loud neuron that is silent up to `x` tells `x` and `y` apart if the sigmoid rises past its slack
      around zero anywhere. */
  lemma LoudTellsApart(a: Arithmetic, sigmoid: real -> real, x: real, y: real, q: real)
    requires Outward(a) && Stepping(a) && RoundsToValues(a) && Monotone(sigmoid) && q >= 0.0
    requires SigmoidUp(a, sigmoid, a.up(a.up(0.0))) < SigmoidUp(a, sigmoid, q)
    requires Representable(a, x) && Representable(a, y) && x < y
    ensures TellsApart(a, sigmoid, x, y, -Reach(a, y), Loud(a, q))
  {
    BiasHeld(a, y);
    LoudEnough(a, q);
    Silent(a, x, y);
    FiresAtBias(a, y);
    LoudScores(a, sigmoid, q);
    FiguresTellApart(a, sigmoid, x, y, -Reach(a, y), Loud(a, q), 0.0, a.up(0.0));
  }

  lemma GapFires(a: Arithmetic, x: real, y: real)
    requires Outward(a) && Reach(a, x) < Reach(a, y)
    ensures Fires(a, -Reach(a, x), y) >= Reach(a, y) - Reach(a, x)
  {
    var gap := Reach(a, y) - Reach(a, x);
    assert -Reach(a, x) + Reach(a, y) == gap;
    assert a.up(a.rnd(gap)) >= gap;
  }

  /** With the reach of `x` as negative bias a weight tells `x` and `y` apart if the distance of their reaches
      is heard apart from the least positive number, as with weight 2^35 in binary32 for a distance above
      2^-30. */
  lemma GapTellsApart(a: Arithmetic, sigmoid: real -> real, x: real, y: real, weight: real)
    requires Outward(a) && Stepping(a) && RoundsToValues(a) && Monotone(sigmoid)
    requires Representable(a, x) && Representable(a, y) && x < y && Representable(a, weight) && weight >= 0.0
    requires SigmoidUp(a, sigmoid, Heard(a, weight, a.up(0.0))) < SigmoidUp(a, sigmoid, Heard(a, weight, Reach(a, y) - Reach(a, x)))
    ensures TellsApart(a, sigmoid, x, y, -Reach(a, x), weight)
  {
    BiasHeld(a, x);
    ReachRises(a, x, y);
    FiresAtBias(a, x);
    GapFires(a, x, y);
    FiguresTellApart(a, sigmoid, x, y, -Reach(a, x), weight, a.up(0.0), Reach(a, y) - Reach(a, x));
  }

  // ---- A call that never ends ----

  /** The call that looks for the radius of input 0 under an alarm, with the score at `y` as threshold. */
  ghost function AlarmCall(a: Arithmetic, sigmoid: real -> real, y: real, bias: real, weight: real): Query {
    Query(a, sigmoid, Alarm(bias, weight), [0.0], SigmoidUp(a, sigmoid, AlarmBound(a, bias, weight, y)), false)
  }

  lemma AlarmPassesUpTo(a: Arithmetic, sigmoid: real -> real, x: real, y: real, bias: real, weight: real)
    requires Outward(a) && Stepping(a) && Monotone(sigmoid) && Representable(a, x) && Representable(a, y)
    requires TellsApart(a, sigmoid, x, y, bias, weight)
    ensures PassesUpTo(a, Test(AlarmCall(a, sigmoid, y, bias, weight)), x, y)
    ensures forall z | z <= x :: StableAt(AlarmCall(a, sigmoid, y, bias, weight), z)
  {
    var c := AlarmCall(a, sigmoid, y, bias, weight);
    AlarmOutput(a, bias, weight, x);
    AlarmOutput(a, bias, weight, y);
    assert StableAt(c, x) && !StableAt(c, y);
    forall z ensures (z <= x ==> StableAt(c, z)) && (z >= y ==> !StableAt(c, z)) {
      if z <= x {
        Shrinks(c, z, x);
      }
      if z >= y && StableAt(c, z) {
        Shrinks(c, y, z);
      }
    }
  }

  /** A query that is stable at radius 0 and expects no verdict above the threshold is the one
      `certified_radius` makes. */
  lemma StableIsCentre(q: Query)
    requires WellFormed(q) && StableAt(q, 0.0) && !q.above
    ensures q == Centre(q.a, q.sigmoid, q.net, q.input, q.threshold)
  {
    ExactAndRoundedAreWithin(q.a);
    ComputedSigmoidScores(q.a, q.sigmoid);
    StableMeansSameVerdict(q.a, q.sigmoid, q.net, q.input, 0.0, q.threshold, false, q.a.rnd, q.sigmoid, q.input);
  }

  // ---- Exactly when every call ends ----

  ghost predicate AllHeld(a: Arithmetic, xs: seq<real>) {
    forall k | 0 <= k < |xs| :: Representable(a, xs[k])
  }

  /** Arguments that the arithmetic can hold. */
  ghost predicate IsCall(a: Arithmetic, net: Network, input: seq<real>, threshold: real) {
    && Shaped(net, |input|) && AllHeld(a, input) && Representable(a, threshold)
    && (forall j | 0 <= j < |net.w1| :: AllHeld(a, net.w1[j]))
    && AllHeld(a, net.b1) && AllHeld(a, net.w2) && Representable(a, net.b2)
  }

  /** `certified_radius` comes back with a result. */
  ghost predicate CallEnds(a: Arithmetic, sigmoid: real -> real, net: Network, input: seq<real>, threshold: real,
                           maxEps: real, tol: real)
    requires Shaped(net, |input|)
  {
    var q := Centre(a, sigmoid, net, input, threshold);
    StableAt(q, 0.0) ==> SearchEnds(q, maxEps, tol)
  }

  ghost predicate EveryCallEnds(a: Arithmetic, sigmoid: real -> real, maxEps: real, tol: real) {
    forall net, input, threshold | IsCall(a, net, input, threshold) :: CallEnds(a, sigmoid, net, input, threshold, maxEps, tol)
  }

  /** The sigmoid yields numbers and never falls. */
  ghost predicate Computed(a: Arithmetic, sigmoid: real -> real) {
    Monotone(sigmoid) && forall x :: Representable(a, sigmoid(x))
  }

  ghost predicate Tellable(a: Arithmetic, sigmoid: real -> real, x: real, y: real) {
    exists bias, weight :: TellsApart(a, sigmoid, x, y, bias, weight)
  }

  /** One neuron can tell any two neighbours apart that are further apart than the tolerance. */
  ghost predicate Discerning(a: Arithmetic, sigmoid: real -> real, maxEps: real, tol: real) {
    forall x, y | Neighbours(a, maxEps, x, y) && a.rnd(y - x) > tol :: Tellable(a, sigmoid, x, y)
  }

  lemma OneHeld(a: Arithmetic, x: real)
    requires Representable(a, x)
    ensures AllHeld(a, [x])
  {
  }

  lemma AlarmHeld(a: Arithmetic, bias: real, weight: real, threshold: real)
    requires Stepping(a) && RoundsToValues(a)
    requires Representable(a, bias) && Representable(a, weight) && Representable(a, threshold)
    ensures IsCall(a, Alarm(bias, weight), [0.0], threshold)
  {
    OneHeld(a, 0.0);
    OneHeld(a, 1.0);
    OneHeld(a, weight);
    OneHeld(a, bias);
  }

  lemma ScoreHeld(a: Arithmetic, sigmoid: real -> real, x: real)
    requires Stepping(a) && Computed(a, sigmoid)
    ensures Representable(a, SigmoidUp(a, sigmoid, x))
  {
    RepeatHeld(a, SIGMOID_ULP_SLACK, sigmoid(x));
  }

  /** If two neighbouring numbers are further apart than the tolerance, the call that tells them apart never
      ends. */
  lemma DistantNeighboursCall(a: Arithmetic, sigmoid: real -> real, maxEps: real, tol: real, x: real, y: real, bias: real, weight: real)
    requires Outward(a) && Stepping(a) && Regular(a, maxEps) && Computed(a, sigmoid)
    requires Neighbours(a, maxEps, x, y) && a.rnd(y - x) > tol && TellsApart(a, sigmoid, x, y, bias, weight)
    ensures var c := AlarmCall(a, sigmoid, y, bias, weight);
      IsCall(a, c.net, c.input, c.threshold) && !CallEnds(a, sigmoid, c.net, c.input, c.threshold, maxEps, tol)
  {
    var c := AlarmCall(a, sigmoid, y, bias, weight);
    ScoreHeld(a, sigmoid, AlarmBound(a, bias, weight, y));
    AlarmHeld(a, bias, weight, c.threshold);
    AlarmPassesUpTo(a, sigmoid, x, y, bias, weight);
    StableIsCentre(c);
    DistantNeighboursNeverEnd(a, Test(c), maxEps, tol, x, y);
  }

  /** A call certified at radius 0. */
  ghost function CalmCall(a: Arithmetic, sigmoid: real -> real): Query {
    Query(a, sigmoid, Alarm(0.0, 0.0), [0.0], a.up(SigmoidUp(a, sigmoid, AlarmBound(a, 0.0, 0.0, 0.0))), false)
  }

  lemma NegativeToleranceCall(a: Arithmetic, sigmoid: real -> real, maxEps: real, tol: real)
    requires Outward(a) && Stepping(a) && Regular(a, maxEps) && maxEps >= 0.0 && Computed(a, sigmoid) && tol < 0.0
    ensures !EveryCallEnds(a, sigmoid, maxEps, tol)
  {
    var c := CalmCall(a, sigmoid);
    var score := SigmoidUp(a, sigmoid, AlarmBound(a, 0.0, 0.0, 0.0));
    ScoreHeld(a, sigmoid, AlarmBound(a, 0.0, 0.0, 0.0));
    assert NextIs(a, score, 0.0);
    AlarmHeld(a, 0.0, 0.0, c.threshold);
    assert StableAt(c, 0.0);
    StableIsCentre(c);
    NegativeToleranceNeverEnds(a, Test(c), maxEps, tol);
    assert !CallEnds(a, sigmoid, c.net, c.input, c.threshold, maxEps, tol);
  }

  /** Every call with this maximum and this tolerance ends if and only if no two neighbouring numbers up
      to the maximum are further apart than the tolerance. In binary32 with maximum 0.5 they are at most
      2^-25 apart. */
  lemma EveryCallEndsIff(a: Arithmetic, sigmoid: real -> real, maxEps: real, tol: real, s: real)
    requires Outward(a) && Stepping(a) && Regular(a, maxEps) && Spaced(a, maxEps, s) && Halves(a, maxEps)
    requires maxEps >= 0.0 && Computed(a, sigmoid) && Discerning(a, sigmoid, maxEps, tol)
    ensures EveryCallEnds(a, sigmoid, maxEps, tol) <==> tol >= 0.0 && CloseNeighbours(a, maxEps, tol)
  {
    if tol < 0.0 {
      NegativeToleranceCall(a, sigmoid, maxEps, tol);
    } else if CloseNeighbours(a, maxEps, tol) {
      forall net, input, threshold | IsCall(a, net, input, threshold)
        ensures CallEnds(a, sigmoid, net, input, threshold, maxEps, tol)
      {
        CloseNeighboursEnd(a, Test(Centre(a, sigmoid, net, input, threshold)), maxEps, tol, s);
      }
    } else {
      var x, y :| Neighbours(a, maxEps, x, y) && a.rnd(y - x) > tol;
      assert Tellable(a, sigmoid, x, y);
      var bias, weight :| TellsApart(a, sigmoid, x, y, bias, weight);
      DistantNeighboursCall(a, sigmoid, maxEps, tol, x, y, bias, weight);
    }
  }

  /** Where weights are not bounded, any sigmoid that somewhere rises past its slack around zero will do. */
  lemma RisingIsDiscerning(a: Arithmetic, sigmoid: real -> real, maxEps: real, tol: real, q: real)
    requires Outward(a) && Stepping(a) && RoundsToValues(a) && Monotone(sigmoid)
    requires SigmoidUp(a, sigmoid, a.up(a.up(0.0))) < SigmoidUp(a, sigmoid, q)
    ensures Discerning(a, sigmoid, maxEps, tol)
  {
    assert NextIs(a, 0.0, 0.0) && NextIs(a, a.up(0.0), 0.0);
    if q < 0.0 {
      SigmoidUpMonotone(a, sigmoid, q, a.up(a.up(0.0)));
    }
    forall x, y | Neighbours(a, maxEps, x, y) && a.rnd(y - x) > tol ensures Tellable(a, sigmoid, x, y) {
      LoudTellsApart(a, sigmoid, x, y, q);
    }
  }
}
