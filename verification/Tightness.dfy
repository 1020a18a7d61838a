/** How tight the interval propagation of src/ensemble/crown.rs is: what it adds to the exact bounds. */
module Tightness {
  import opened Rounding
  import opened Mlp
  import opened Crown

  /** Computing without rounding and without shifting outward. */
  function Exact(): Arithmetic {
    Arithmetic(Identity(), Identity(), Identity())
  }

  // ---- Exact bounds ----

  /** Without rounding the input box is exactly the ball around the input. */
  lemma ExactBoxIsBall(input: seq<real>, eps: real, x: seq<real>)
    ensures BoxContains(InputBox(Exact(), input, eps), x) <==> Near(input, x, eps)
  {
    if BoxContains(InputBox(Exact(), input, eps), x) {
      forall i | 0 <= i < |x| ensures input[i] - eps <= x[i] <= input[i] + eps {
        assert Contains(InputBox(Exact(), input, eps)[i], x[i]);
      }
    }
    if Near(input, x, eps) {
      forall i | 0 <= i < |x| ensures Contains(InputBox(Exact(), input, eps)[i], x[i]) {
        assert input[i] - eps <= x[i] <= input[i] + eps;
      }
    }
  }

  /** The corner of the box where the weighted sum is least, or greatest. */
  function Corner(w: seq<real>, box: seq<Interval>, least: bool): (x: seq<real>)
    requires |w| == |box|
    ensures |x| == |w|
  {
    seq(|w|, i requires 0 <= i < |w| => if (w[i] >= 0.0) == least then box[i].lo else box[i].hi)
  }

  lemma ExactTerm(acc: Interval, w: real, x: Interval)
    ensures var r := AddProductInterval(Exact(), acc, w, x);
      && r.lo == AddProduct(Identity(), acc.lo, w, if w >= 0.0 then x.lo else x.hi)
      && r.hi == AddProduct(Identity(), acc.hi, w, if w >= 0.0 then x.hi else x.lo)
  {
    var low, high := w * x.lo, w * x.hi;
    assert AddToInterval(Exact(), acc, low, high) == Interval(acc.lo + low, acc.hi + high);
    assert AddToInterval(Exact(), acc, high, low) == Interval(acc.lo + high, acc.hi + low);
  }

  /** Without rounding the bounds of a neuron's sum are its values at two corners of the box. */
  lemma {:induction false} ExactSumAttained(w: seq<real>, box: seq<Interval>, bias: real, k: nat)
    requires |w| == |box| && k <= |w|
    ensures var r := AccumulateInterval(Exact(), w, box, bias, k);
      && r.lo == Accumulate(Identity(), w, Corner(w, box, true), bias, k)
      && r.hi == Accumulate(Identity(), w, Corner(w, box, false), bias, k)
  {
    if k > 0 {
      ExactSumAttained(w, box, bias, k - 1);
      ExactTerm(AccumulateInterval(Exact(), w, box, bias, k - 1), w[k - 1], box[k - 1]);
    }
  }

  lemma CornerInside(w: seq<real>, box: seq<Interval>, least: bool)
    requires |w| == |box| && forall i | 0 <= i < |box| :: box[i].lo <= box[i].hi
    ensures BoxContains(box, Corner(w, box, least))
  {
  }

  // ---- What rounding adds ----

  /** On a grid, one step outward for each product and one for each sum. */
  lemma TermAddsTwoSteps(step: real, acc: Interval, low: real, high: real)
    requires step > 0.0 && low <= high
    requires Representable(Grid(step), low) && Representable(Grid(step), high)
    requires Representable(Grid(step), acc.lo + low - step) && Representable(Grid(step), acc.hi + high + step)
    ensures AddToInterval(Grid(step), acc, low, high) == Interval(acc.lo + low - 2.0 * step, acc.hi + high + 2.0 * step)
  {
    assert acc.lo + (low - step) == acc.lo + low - step && acc.hi + (high + step) == acc.hi + high + step;
  }

  /** One step outward for each end of an input interval. */
  lemma InputAddsOneStep(step: real, x: real, eps: real)
    requires step > 0.0 && Representable(Grid(step), x - eps) && Representable(Grid(step), x + eps)
    ensures Around(Grid(step), x, eps) == Interval(x - eps - step, x + eps + step)
  {
  }

  lemma {:induction false} RepeatOnGrid(step: real, n: nat, x: real)
    requires step > 0.0
    ensures Repeat(Grid(step).down, n, x) == x - n as real * step && Repeat(Grid(step).up, n, x) == x + n as real * step
  {
    if n > 0 {
      RepeatOnGrid(step, n - 1, x);
      assert n as real * step == (n - 1) as real * step + step;
    }
  }

  /** A verdict is certified when the score keeps eight steps clear of the threshold over the whole interval,
      on the expected side. */
  lemma CertifiedByEightSteps(step: real, sigmoid: real -> real, pre: Interval, threshold: real, above: bool)
    requires step > 0.0
    ensures Certifies(Grid(step), sigmoid, pre, threshold, above) <==>
      if above then sigmoid(pre.lo) - 8.0 * step > threshold else sigmoid(pre.hi) + 8.0 * step < threshold
  {
    RepeatOnGrid(step, SIGMOID_ULP_SLACK, sigmoid(pre.lo));
    RepeatOnGrid(step, SIGMOID_ULP_SLACK, sigmoid(pre.hi));
  }
}
