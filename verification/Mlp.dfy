/** The two-layer perceptron of the scanner, for any input and hidden size. */
module Mlp {
  import opened Rounding

  datatype Network = Network(w1: seq<seq<real>>, b1: seq<real>, w2: seq<real>, b2: real)

  ghost predicate Shaped(net: Network, inputs: nat) {
    && |net.b1| == |net.w1| && |net.w2| == |net.w1|
    && forall j | 0 <= j < |net.w1| :: |net.w1[j]| == inputs
  }

  /** `acc + p` for a product `p`, with `op` applied to the product and to the sum. */
  function AddTo(op: real -> real, acc: real, p: real): real {
    op(acc + op(p))
  }

  function AddProduct(op: real -> real, acc: real, w: real, x: real): real {
    AddTo(op, acc, w * x)
  }

  /** `acc += w[i] * x[i]` for the first `k` terms. */
  function Accumulate(op: real -> real, w: seq<real>, x: seq<real>, acc: real, k: nat): real
    requires k <= |w| && k <= |x|
  {
    if k == 0 then acc
    else AddProduct(op, Accumulate(op, w, x, acc, k - 1), w[k - 1], x[k - 1])
  }

  function Relu(x: real): real {
    if x > 0.0 then x else 0.0
  }

  function Hidden(op: real -> real, net: Network, x: seq<real>): (h: seq<real>)
    requires Shaped(net, |x|)
    ensures |h| == |net.w1|
  {
    seq(|net.w1|, j requires 0 <= j < |net.w1| => Relu(Accumulate(op, net.w1[j], x, net.b1[j], |x|)))
  }

  /** The output before the sigmoid. */
  function PreSigmoid(op: real -> real, net: Network, x: seq<real>): real
    requires Shaped(net, |x|)
  {
    Accumulate(op, net.w2, Hidden(op, net, x), net.b2, |net.w1|)
  }

  /** The accumulation loop both layers run. */
  method Sum(a: Arithmetic, w: seq<real>, x: seq<real>, bias: real) returns (sum: real)
    requires |w| == |x|
    ensures sum == Accumulate(a.rnd, w, x, bias, |x|)
  {
    sum := bias;
    for i := 0 to |x|
      invariant sum == Accumulate(a.rnd, w, x, bias, i)
    {
      sum := AddProduct(a.rnd, sum, w[i], x[i]);
    }
  }

  /** `mlp_predict_32`. */
  method Predict(a: Arithmetic, sigmoid: real -> real, net: Network, input: seq<real>) returns (score: real)
    requires Shaped(net, |input|)
    ensures score == sigmoid(PreSigmoid(a.rnd, net, input))
  {
    var n := |net.w1|;
    var hidden := new real[n];
    for j := 0 to n
      invariant hidden[..j] == Hidden(a.rnd, net, input)[..j]
    {
      var sum := Sum(a, net.w1[j], input, net.b1[j]);
      hidden[j] := Relu(sum);
      assert hidden[..j + 1] == hidden[..j] + [hidden[j]];
    }
    assert hidden[..] == Hidden(a.rnd, net, input);
    var out := Sum(a, net.w2, hidden[..], net.b2);
    assert out == PreSigmoid(a.rnd, net, input);
    score := sigmoid(out);
  }

  // ---- The forward pass in closed form ----

  function Dot(w: seq<real>, x: seq<real>): real
    requires |w| == |x|
  {
    if w == [] then 0.0 else w[0] * x[0] + Dot(w[1..], x[1..])
  }

  lemma {:induction false} DotLast(w: seq<real>, x: seq<real>)
    requires |w| == |x| > 0
    ensures var n := |w| - 1; Dot(w, x) == Dot(w[..n], x[..n]) + w[n] * x[n]
  {
    if |w| > 1 {
      var n := |w| - 1;
      DotLast(w[1..], x[1..]);
      assert w[1..][..n - 1] == w[..n][1..] && x[1..][..n - 1] == x[..n][1..];
    }
  }

  lemma {:induction false} AccumulateExact(w: seq<real>, x: seq<real>, bias: real, k: nat)
    requires k <= |w| && k <= |x|
    ensures Accumulate(Identity(), w, x, bias, k) == bias + Dot(w[..k], x[..k])
  {
    if k > 0 {
      AccumulateExact(w, x, bias, k - 1);
      DotLast(w[..k], x[..k]);
      assert w[..k][..k - 1] == w[..k - 1] && x[..k][..k - 1] == x[..k - 1];
    }
  }

  /** Without rounding the output is the second bias plus the second weights times the positive parts of the
      first biases plus first weights times the input. */
  lemma ForwardExact(net: Network, x: seq<real>, hidden: seq<real>)
    requires Shaped(net, |x|) && |hidden| == |net.w1|
    requires forall j | 0 <= j < |hidden| ::
      var sum := net.b1[j] + Dot(net.w1[j], x); hidden[j] == if sum >= 0.0 then sum else 0.0
    ensures PreSigmoid(Identity(), net, x) == net.b2 + Dot(net.w2, hidden)
  {
    forall j | 0 <= j < |hidden| ensures Hidden(Identity(), net, x)[j] == hidden[j] {
      AccumulateExact(net.w1[j], x, net.b1[j], |x|);
      assert net.w1[j][..|x|] == net.w1[j] && x[..|x|] == x;
    }
    assert Hidden(Identity(), net, x) == hidden;
    AccumulateExact(net.w2, hidden, net.b2, |hidden|);
    assert net.w2[..|hidden|] == net.w2 && hidden[..|hidden|] == hidden;
  }
}
