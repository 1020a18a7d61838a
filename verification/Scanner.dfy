/** The scanner ensemble: normalisation, decision tree, and the perceptron when the tree defers
    (src/ensemble/scanner.rs), for any number of features. */
module Scanner {
  import opened Rounding
  import opened Mlp
  import opened DecisionTree

  datatype Model = Model(
    tree: seq<PackedNode>,
    net: Network,
    threshold: real,
    mins: seq<real>,
    maxs: seq<real>)

  ghost predicate Fits(m: Model, inputs: nat) {
    DecisionTree.WellFormed(m.tree, inputs) && Shaped(m.net, inputs) && |m.mins| == inputs && |m.maxs| == inputs
  }

  datatype EnsemblePath = TreeBlock | TreeAllow | Perceptron

  /** The action is a block or an allow. */
  datatype Verdict = Verdict(blocks: bool, score: real, reason: string, path: EnsemblePath)

  function Clamp(x: real): real {
    if x < 0.0 then 0.0 else if x > 1.0 then 1.0 else x
  }

  function NormalizeOne(a: Arithmetic, raw: real, min: real, max: real): real {
    var range := a.rnd(max - min);
    if range > 0.0 then Clamp(a.rnd(a.rnd(raw - min) / range)) else 0.0
  }

  function Normalized(a: Arithmetic, m: Model, raw: seq<real>): (r: seq<real>)
    requires |m.mins| == |raw| && |m.maxs| == |raw|
    ensures |r| == |raw|
  {
    seq(|raw|, i requires 0 <= i < |raw| => NormalizeOne(a, raw[i], m.mins[i], m.maxs[i]))
  }

  method Normalize(a: Arithmetic, m: Model, raw: seq<real>) returns (r: seq<real>)
    requires |m.mins| == |raw| && |m.maxs| == |raw|
    ensures r == Normalized(a, m, raw)
  {
    var out := new real[|raw|];
    ghost var want := Normalized(a, m, raw);
    for i := 0 to |raw|
      invariant forall k | 0 <= k < i :: out[k] == want[k]
    {
      var range := a.rnd(m.maxs[i] - m.mins[i]);
      var x := if range > 0.0 then Clamp(a.rnd(a.rnd(raw[i] - m.mins[i]) / range)) else 0.0;
      assert x == want[i];
      out[i] := x;
    }
    r := out[..];
  }

  /** What the ensemble decides: the tree overrules, the perceptron scores the rest. */
  ghost function Decide(a: Arithmetic, sigmoid: real -> real, m: Model, raw: seq<real>): Verdict
    requires Fits(m, |raw|)
  {
    var input := Normalized(a, m, raw);
    match Descend(m.tree, input, 0)
    case Block => Verdict(true, 1.0, "ensemble:tree_block", TreeBlock)
    case Allow => Verdict(false, 0.0, "ensemble:tree_allow", TreeAllow)
    case Defer =>
      var score := sigmoid(PreSigmoid(a.rnd, m.net, input));
      Verdict(score > m.threshold, score, "ensemble:mlp", Perceptron)
  }

  /** `scanner_ensemble_predict`. */
  method EnsemblePredict(a: Arithmetic, sigmoid: real -> real, m: Model, raw: seq<real>) returns (v: Verdict)
    requires Fits(m, |raw|)
    ensures v == Decide(a, sigmoid, m, raw)
  {
    var input := Normalize(a, m, raw);
    var d := TreePredict(m.tree, input);
    match d {
      case Block => v := Verdict(true, 1.0, "ensemble:tree_block", TreeBlock);
      case Allow => v := Verdict(false, 0.0, "ensemble:tree_allow", TreeAllow);
      case Defer =>
        var score := Predict(a, sigmoid, m.net, input);
        v := Verdict(score > m.threshold, score, "ensemble:mlp", Perceptron);
    }
  }

  lemma NormalizeMonotone(a: Arithmetic, raw: real, raw': real, min: real, max: real)
    requires Monotone(a.rnd) && raw <= raw'
    ensures NormalizeOne(a, raw, min, max) <= NormalizeOne(a, raw', min, max)
  {
    var range := a.rnd(max - min);
    if range > 0.0 {
      assert Ordered(raw - min, raw' - min);
      DivideMonotone(a.rnd(raw - min), a.rnd(raw' - min), range);
      assert Ordered(a.rnd(raw - min) / range, a.rnd(raw' - min) / range);
    }
  }

  lemma Divided(x: real, range: real)
    requires range > 0.0
    ensures (x / range) * range == x && (x <= 0.0 <==> x / range <= 0.0) && (x >= range <==> x / range >= 1.0)
  {
    DivideTimes(x, range);
    Compare(x / range, 0.0, range);
    Compare(1.0, x / range, range);
  }

  /** Normalised values lie between 0 and 1. Without rounding 0 stands for the minimum and below, 1 for the
      maximum and above, with equal steps in between; a feature without a range is always 0. */
  lemma NormalizeMeaning(a: Arithmetic, raw: real, min: real, max: real)
    ensures 0.0 <= NormalizeOne(a, raw, min, max) <= 1.0
    ensures a.rnd == Identity() ==> var v := NormalizeOne(a, raw, min, max);
      && (max <= min || raw <= min ==> v == 0.0)
      && (max > min && raw >= max ==> v == 1.0)
      && (min <= raw <= max && max > min ==> v * (max - min) == raw - min)
  {
    if max > min {
      Divided(raw - min, max - min);
    }
  }

  /** Each feature is normalised between its own minimum and maximum. */
  lemma NormalizedMeaning(a: Arithmetic, m: Model, raw: seq<real>, i: nat)
    requires |m.mins| == |raw| && |m.maxs| == |raw| && i < |raw|
    ensures var v, min, max := Normalized(a, m, raw)[i], m.mins[i], m.maxs[i];
      && 0.0 <= v <= 1.0
      && (a.rnd == Identity() && (max <= min || raw[i] <= min) ==> v == 0.0)
      && (a.rnd == Identity() && max > min && raw[i] >= max ==> v == 1.0)
      && (a.rnd == Identity() && min <= raw[i] <= max && max > min ==> v * (max - min) == raw[i] - min)
  {
    NormalizeMeaning(a, raw[i], m.mins[i], m.maxs[i]);
  }

  /** The ensemble decides as the tree does; where the tree defers, by the perceptron's score against the
      threshold. Each way has its own reason and path. */
  lemma DecideMeaning(a: Arithmetic, sigmoid: real -> real, m: Model, raw: seq<real>)
    requires Fits(m, |raw|)
    ensures var x := Normalized(a, m, raw);
      var d, v := Eval(Unpacked(m.tree, |raw|, 0), x), Decide(a, sigmoid, m, raw);
      && (d == Block ==> v == Verdict(true, 1.0, "ensemble:tree_block", TreeBlock))
      && (d == Allow ==> v == Verdict(false, 0.0, "ensemble:tree_allow", TreeAllow))
      && (d == Defer ==> v.score == sigmoid(PreSigmoid(a.rnd, m.net, x)) && v.reason == "ensemble:mlp" && v.path == Perceptron)
      && (d == Defer ==> (v.blocks <==> v.score > m.threshold))
  {
    DescendMeaning(m.tree, Normalized(a, m, raw), 0);
  }
}
