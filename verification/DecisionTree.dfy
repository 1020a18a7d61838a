/** The packed decision tree (src/ensemble/tree.rs). */
module DecisionTree {

  datatype TreeDecision = Block | Allow | Defer

  /** A leaf has feature 255 and encodes its decision in the threshold. */
  datatype PackedNode = PackedNode(feature: nat, threshold: real, left: nat, right: nat)

  const LEAF := 255

  function LeafDecision(threshold: real): TreeDecision {
    if threshold < 0.25 then Allow else if threshold > 0.75 then Block else Defer
  }

  /** Children come after their parent and features exist. */
  ghost predicate WellFormed(nodes: seq<PackedNode>, inputs: nat) {
    && nodes != []
    && forall i | 0 <= i < |nodes| && nodes[i].feature != LEAF ::
         nodes[i].feature < inputs && i < nodes[i].left < |nodes| && i < nodes[i].right < |nodes|
  }

  ghost function Descend(nodes: seq<PackedNode>, input: seq<real>, idx: nat): TreeDecision
    requires WellFormed(nodes, |input|) && idx < |nodes|
    decreases |nodes| - idx
  {
    var n := nodes[idx];
    if n.feature == LEAF then LeafDecision(n.threshold)
    else Descend(nodes, input, if input[n.feature] <= n.threshold then n.left else n.right)
  }

  /** `tree_predict`: ends at a leaf within as many steps as there are nodes. */
  method TreePredict(nodes: seq<PackedNode>, input: seq<real>) returns (d: TreeDecision)
    requires WellFormed(nodes, |input|)
    ensures d == Descend(nodes, input, 0)
  {
    var idx := 0;
    while nodes[idx].feature != LEAF
      invariant 0 <= idx < |nodes|
      invariant Descend(nodes, input, idx) == Descend(nodes, input, 0)
      decreases |nodes| - idx
    {
      var n := nodes[idx];
      idx := if input[n.feature] <= n.threshold then n.left else n.right;
    }
    d := LeafDecision(nodes[idx].threshold);
  }

  /** A tree that does not split on a feature does not see it change. */
  lemma {:induction false} UnusedFeature(nodes: seq<PackedNode>, x: seq<real>, y: seq<real>, feature: nat, idx: nat)
    requires WellFormed(nodes, |x|) && |y| == |x| && idx < |nodes|
    requires forall k | 0 <= k < |x| && k != feature :: x[k] == y[k]
    requires forall k | 0 <= k < |nodes| && nodes[k].feature != LEAF :: nodes[k].feature != feature
    ensures Descend(nodes, x, idx) == Descend(nodes, y, idx)
    decreases |nodes| - idx
  {
    var n := nodes[idx];
    if n.feature != LEAF {
      UnusedFeature(nodes, x, y, feature, if x[n.feature] <= n.threshold then n.left else n.right);
    }
  }

  /** Every decision is some leaf's decision. */
  lemma {:induction false} DecisionIsALeaf(nodes: seq<PackedNode>, input: seq<real>, idx: nat)
    requires WellFormed(nodes, |input|) && idx < |nodes|
    ensures exists k | 0 <= k < |nodes| :: nodes[k].feature == LEAF && LeafDecision(nodes[k].threshold) == Descend(nodes, input, idx)
    decreases |nodes| - idx
  {
    var n := nodes[idx];
    if n.feature != LEAF {
      DecisionIsALeaf(nodes, input, if input[n.feature] <= n.threshold then n.left else n.right);
    }
  }

  // ---- Packed trees mean trees ----

  datatype Tree = Leaf(threshold: real) | Split(feature: nat, threshold: real, low: Tree, high: Tree)

  /** Low where the feature is at most the threshold, high where it is above; at a leaf below 1/4 the request
      is allowed, above 3/4 blocked, and in between left to the perceptron. */
  function Eval(t: Tree, input: seq<real>): TreeDecision
    requires Uses(t, |input|)
  {
    match t
    case Leaf(x) => if x > 0.75 then Block else if x >= 0.25 then Defer else Allow
    case Split(f, x, low, high) => if input[f] > x then Eval(high, input) else Eval(low, input)
  }

  /** All features are below `n` and none is the mark of a leaf. */
  predicate Uses(t: Tree, n: nat) {
    match t
    case Leaf(_) => true
    case Split(f, _, low, high) => f < n && f != 255 && Uses(low, n) && Uses(high, n)
  }

  /** The tree in an array, each node before its children, starting at index `base`. */
  function Packed(t: Tree, base: nat): (nodes: seq<PackedNode>)
    ensures nodes != []
  {
    match t
    case Leaf(x) => [PackedNode(255, x, 0, 0)]
    case Split(f, x, low, high) =>
      var l := Packed(low, base + 1);
      [PackedNode(f, x, base + 1, base + 1 + |l|)] + l + Packed(high, base + 1 + |l|)
  }

  /** `nodes` holds the packed tree at `base`. */
  ghost predicate Holds(nodes: seq<PackedNode>, t: Tree, base: nat) {
    var p := Packed(t, base);
    base + |p| <= |nodes| && nodes[base..base + |p|] == p
  }

  lemma SliceOfSlice(nodes: seq<PackedNode>, base: nat, n: nat, i: nat, j: nat)
    requires base + n <= |nodes| && i <= j <= n
    ensures nodes[base..base + n][i..j] == nodes[base + i..base + j]
  {
    var a, b := nodes[base..base + n][i..j], nodes[base + i..base + j];
    assert |a| == |b| && forall k | 0 <= k < |a| :: a[k] == nodes[base + i + k] == b[k];
  }

  lemma HoldsParts(nodes: seq<PackedNode>, t: Tree, base: nat)
    requires t.Split? && Holds(nodes, t, base)
    ensures var k := base + 1 + |Packed(t.low, base + 1)|;
      Holds(nodes, t.low, base + 1) && Holds(nodes, t.high, k) && nodes[base] == PackedNode(t.feature, t.threshold, base + 1, k)
  {
    var p, l := Packed(t, base), Packed(t.low, base + 1);
    var h := Packed(t.high, base + 1 + |l|);
    assert p[0] == nodes[base] && p[1..1 + |l|] == l && p[1 + |l|..|p|] == h;
    SliceOfSlice(nodes, base, |p|, 1, 1 + |l|);
    SliceOfSlice(nodes, base, |p|, 1 + |l|, |p|);
  }

  lemma {:induction false} PackedNodes(t: Tree, base: nat, n: nat, i: nat)
    requires Uses(t, n) && i < |Packed(t, base)| && Packed(t, base)[i].feature != 255
    ensures var p := Packed(t, base);
      p[i].feature < n && base + i < p[i].left < base + |p| && base + i < p[i].right < base + |p|
    decreases t
  {
    var l := Packed(t.low, base + 1);
    if 1 <= i <= |l| {
      PackedNodes(t.low, base + 1, n, i - 1);
    } else if i > |l| {
      PackedNodes(t.high, base + 1 + |l|, n, i - 1 - |l|);
    }
  }

  lemma PackedIsWellFormed(t: Tree, n: nat)
    requires Uses(t, n)
    ensures WellFormed(Packed(t, 0), n)
  {
    forall i | 0 <= i < |Packed(t, 0)| && Packed(t, 0)[i].feature != LEAF
      ensures var p := Packed(t, 0); p[i].feature < n && i < p[i].left < |p| && i < p[i].right < |p|
    {
      PackedNodes(t, 0, n, i);
    }
  }

  lemma {:induction false} DescendsAsTree(nodes: seq<PackedNode>, t: Tree, base: nat, input: seq<real>)
    requires WellFormed(nodes, |input|) && Uses(t, |input|) && Holds(nodes, t, base)
    ensures Descend(nodes, input, base) == Eval(t, input)
    decreases t
  {
    if t.Leaf? {
      assert nodes[base] == Packed(t, base)[0];
    } else {
      HoldsParts(nodes, t, base);
      DescendsAsTree(nodes, t.low, base + 1, input);
      DescendsAsTree(nodes, t.high, base + 1 + |Packed(t.low, base + 1)|, input);
    }
  }

  /** `tree_predict` on any packed tree gives what the tree says. */
  method PredictPacked(t: Tree, input: seq<real>) returns (d: TreeDecision)
    requires Uses(t, |input|)
    ensures d == Eval(t, input)
  {
    PackedIsWellFormed(t, |input|);
    DescendsAsTree(Packed(t, 0), t, 0, input);
    d := TreePredict(Packed(t, 0), input);
  }

  /** The tree that an array stands for. */
  function Unpacked(nodes: seq<PackedNode>, inputs: nat, idx: nat): (t: Tree)
    requires WellFormed(nodes, inputs) && idx < |nodes|
    ensures Uses(t, inputs)
    decreases |nodes| - idx
  {
    var n := nodes[idx];
    if n.feature == 255 then Leaf(n.threshold)
    else Split(n.feature, n.threshold, Unpacked(nodes, inputs, n.left), Unpacked(nodes, inputs, n.right))
  }

  /** Every array is descended as the tree it stands for. */
  lemma {:induction false} DescendMeaning(nodes: seq<PackedNode>, input: seq<real>, idx: nat)
    requires WellFormed(nodes, |input|) && idx < |nodes|
    ensures Descend(nodes, input, idx) == Eval(Unpacked(nodes, |input|, idx), input)
    decreases |nodes| - idx
  {
    var n := nodes[idx];
    if n.feature != 255 {
      DescendMeaning(nodes, input, n.left);
      DescendMeaning(nodes, input, n.right);
    }
  }
}
