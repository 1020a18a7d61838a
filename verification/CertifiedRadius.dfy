/** The certified radius of an input (`certified_radius` in src/ensemble/crown.rs): the bisection over
    the stability check, what its result protects, and when it ends. */
module CertifiedRadius {
  import opened Text
  import opened Rounding
  import opened Mlp
  import opened Crown
  import opened Bisection

  /** Shared inputs of a certification. */
  datatype Query = Query(a: Arithmetic, sigmoid: real -> real, net: Network, input: seq<real>, threshold: real, above: bool)

  ghost predicate WellFormed(q: Query) {
    Outward(q.a) && Monotone(q.sigmoid) && Shaped(q.net, |q.input|)
  }

  ghost predicate StableAt(q: Query, eps: real) {
    Shaped(q.net, |q.input|) && VerdictStable(q.a, q.sigmoid, q.net, q.input, eps, q.threshold, q.above)
  }

  /** The check as a test of radii. */
  ghost function Test(q: Query): real -> bool {
    (eps: real) => StableAt(q, eps)
  }

  /** The bisection for `q` ends. */
  ghost predicate SearchEnds(q: Query, maxEps: real, tol: real) {
    Ends(q.a, Test(q), maxEps, tol)
  }

  /** Everything up to `r` is certified, `r` is in range, and either the whole range was within reach or
      nothing beyond one tolerance further can be certified. */
  ghost predicate IsRadius(q: Query, r: real, maxEps: real, tol: real) {
    && 0.0 <= r && (maxEps >= 0.0 ==> r <= maxEps)
    && (forall eps | eps <= r :: StableAt(q, eps))
    && (r + q.a.up(tol) >= maxEps || forall eps | eps >= r + q.a.up(tol) :: !StableAt(q, eps))
  }

  lemma Shrinks(q: Query, small: real, large: real)
    requires WellFormed(q) && small <= large && StableAt(q, large)
    ensures StableAt(q, small)
  {
    StableShrinks(q.a, q.sigmoid, q.net, q.input, small, large, q.threshold, q.above);
  }

  lemma CloseEnds(a: Arithmetic, r: Range, tol: real)
    requires Outward(a) && !Continues(a, r, tol)
    ensures r.hi <= r.lo + a.up(tol)
  {
    assert Ordered(a.rnd(r.hi - r.lo), tol);
    assert r.hi - r.lo <= a.up(a.rnd(r.hi - r.lo));
  }

  lemma SearchResult(q: Query, r: Range, maxEps: real, tol: real)
    requires WellFormed(q) && StableAt(q, r.lo) && (r.hi == maxEps || !StableAt(q, r.hi))
    requires 0.0 <= r.lo && (maxEps >= 0.0 ==> r.lo <= maxEps)
    requires !Continues(q.a, r, tol)
    ensures IsRadius(q, r.lo, maxEps, tol)
  {
    CloseEnds(q.a, r, tol);
    forall eps | eps <= r.lo ensures StableAt(q, eps) {
      Shrinks(q, eps, r.lo);
    }
    forall eps | eps >= r.lo + q.a.up(tol) && r.hi != maxEps ensures !StableAt(q, eps) {
      if StableAt(q, eps) {
        Shrinks(q, r.hi, eps);
      }
    }
  }

  /** `stable` is the check of `q`. */
  ghost predicate Tests(q: Query, stable: real -> bool) {
    Shaped(q.net, |q.input|) && forall eps {:trigger StableAt(q, eps)} :: stable(eps) <==> StableAt(q, eps)
  }

  method NextRange(q: Query, r: Range, ghost stable: real -> bool) returns (next: Range)
    requires Tests(q, stable)
    ensures next == Narrow(q.a, stable, r)
  {
    var mid := Midpoint(q.a, r);
    var ok := CheckStable(q.a, q.sigmoid, q.net, q.input, mid, q.threshold, q.above);
    assert ok <==> StableAt(q, mid);
    if ok {
      next := Range(mid, r.hi);
    } else {
      next := Range(r.lo, mid);
    }
  }

  /** The loop: it ends wherever the source's does. */
  method Narrowest(q: Query, maxEps: real, tol: real, ghost stable: real -> bool) returns (r: Range, ghost k: nat)
    requires Tests(q, stable) && stable(0.0)
    requires Regular(q.a, maxEps) && Ends(q.a, stable, maxEps, tol)
    ensures Searching(q.a, stable, r, maxEps, k) && !Continues(q.a, r, tol)
  {
    r, k := Range(0.0, maxEps), 0;
    StartsSearching(q.a, stable, maxEps, tol);
    ghost var last := LastPass(q.a, stable, maxEps, tol);
    while Continues(q.a, r, tol)
      invariant k <= last && Searching(q.a, stable, r, maxEps, k)
      invariant maxEps >= 0.0 || !Continues(q.a, r, tol)
      decreases last - k
    {
      KeepsSearching(q.a, stable, r, maxEps, k);
      r := NextRange(q, r, stable);
      k := k + 1;
    }
  }

  method Search(q: Query, maxEps: real, tol: real) returns (radius: real)
    requires WellFormed(q) && Regular(q.a, maxEps)
    requires StableAt(q, 0.0) && SearchEnds(q, maxEps, tol)
    ensures IsRadius(q, radius, maxEps, tol)
  {
    var r, _ := Narrowest(q, maxEps, tol, Test(q));
    SearchResult(q, r, maxEps, tol);
    radius := r.lo;
  }

  /** Every input within a certified radius gets the certified verdict, computed exactly or with
      rounding, and scored by any sigmoid within the slack. */
  lemma RadiusProtects(q: Query, r: real, maxEps: real, tol: real, op: real -> real, score: real -> real, x: seq<real>)
    requires WellFormed(q) && IsRadius(q, r, maxEps, tol) && Near(q.input, x, r)
    requires Within(q.a, op) && Scores(q.a, q.sigmoid, score)
    ensures score(PreSigmoid(op, q.net, x)) > q.threshold <==> q.above
  {
    assert StableAt(q, r);
    StableMeansSameVerdict(q.a, q.sigmoid, q.net, q.input, r, q.threshold, q.above, op, score, x);
  }

  /** The verdict the perceptron computes for `x`. */
  ghost predicate Blocks(q: Query, x: seq<real>)
    requires Shaped(q.net, |x|)
  {
    q.sigmoid(PreSigmoid(q.a.rnd, q.net, x)) > q.threshold
  }

  ghost predicate Protects(q: Query, r: real) {
    Shaped(q.net, |q.input|) && forall x | Near(q.input, x, r) :: Blocks(q, x) <==> Blocks(q, q.input)
  }

  lemma ComputedVerdictProtected(q: Query, r: real, maxEps: real, tol: real)
    requires WellFormed(q) && IsRadius(q, r, maxEps, tol) && q.above == Blocks(q, q.input)
    ensures Protects(q, r)
  {
    ExactAndRoundedAreWithin(q.a);
    ComputedSigmoidScores(q.a, q.sigmoid);
    forall x | Near(q.input, x, r) ensures Blocks(q, x) <==> Blocks(q, q.input) {
      RadiusProtects(q, r, maxEps, tol, q.a.rnd, q.sigmoid, x);
    }
  }

  /** `certified_radius`: none exactly when even the input alone is not certified; otherwise a radius
      within which every input gets the input's verdict. */
  method CertifiedRadius(a: Arithmetic, sigmoid: real -> real, net: Network, input: seq<real>, threshold: real,
                         maxEps: real, tol: real)
    returns (r: Option<real>)
    requires Outward(a) && Monotone(sigmoid) && Shaped(net, |input|)
    requires Regular(a, maxEps)
    requires var q := Centre(a, sigmoid, net, input, threshold); StableAt(q, 0.0) ==> SearchEnds(q, maxEps, tol)
    ensures var q := Centre(a, sigmoid, net, input, threshold);
      && (r.None? <==> !StableAt(q, 0.0))
      && (r.Some? ==> IsRadius(q, r.value, maxEps, tol) && Protects(q, r.value))
  {
    var center := Predict(a, sigmoid, net, input);
    var above := center > threshold;
    var stable := CheckStable(a, sigmoid, net, input, 0.0, threshold, above);
    if !stable {
      return None;
    }
    var q := Query(a, sigmoid, net, input, threshold, above);
    var radius := Search(q, maxEps, tol);
    ComputedVerdictProtected(q, radius, maxEps, tol);
    return Some(radius);
  }

  /** The query for the input's own verdict. */
  ghost function Centre(a: Arithmetic, sigmoid: real -> real, net: Network, input: seq<real>, threshold: real): Query
    requires Shaped(net, |input|)
  {
    Query(a, sigmoid, net, input, threshold, sigmoid(PreSigmoid(a.rnd, net, input)) > threshold)
  }
}
