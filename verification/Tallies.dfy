/** Counting and summing loops over sequences of values, and why the order of the values does not matter. */
module Tallies {
  function Sum(values: seq<nat>): nat {
    if values == [] then 0 else Sum(values[..|values| - 1]) + values[|values| - 1]
  }

  function Project<S, T>(s: seq<S>, f: S -> T): (r: seq<T>)
    ensures |r| == |s| && forall i | 0 <= i < |s| :: r[i] == f(s[i])
  {
    seq(|s|, i requires 0 <= i < |s| => f(s[i]))
  }

  function Distinct(values: seq<nat>): set<nat> {
    set v | v in values
  }

  /** How often the most frequent value occurs. */
  ghost predicate IsPeak(values: seq<nat>, peak: nat) {
    && (forall v: nat :: multiset(values)[v] <= peak)
    && (if values == [] then peak == 0 else exists v: nat :: multiset(values)[v] == peak)
  }

  function Peak(values: seq<nat>): nat {
    if values == [] then 0
    else
      var before, here := Peak(values[..|values| - 1]), multiset(values)[values[|values| - 1]];
      if here > before then here else before
  }

  lemma {:induction false} PeakIsPeak(values: seq<nat>)
    ensures IsPeak(values, Peak(values))
  {
    if values != [] {
      var init: seq<nat>, last := values[..|values| - 1], values[|values| - 1];
      assert values == init + [last];
      PeakIsPeak(init);
      forall v: nat ensures multiset(values)[v] <= Peak(values) {
        assert v != last ==> multiset(values)[v] == multiset(init)[v];
      }
      if Peak(values) == Peak(init) && Peak(values) != multiset(values)[last] {
        assert init != [];
        var v: nat :| multiset(init)[v] == Peak(init);
        assert multiset(values)[v] == Peak(values);
      }
    }
  }

  // ---- Permutations ----

  /** Takes one occurrence of `x` out of `s`. */
  lemma TakeOut<T>(s: seq<T>, x: T) returns (i: nat)
    requires x in multiset(s)
    ensures i < |s| && s[i] == x && s == s[..i] + [x] + s[i + 1..]
    ensures multiset(s[..i] + s[i + 1..]) == multiset(s) - multiset{x}
  {
    i :| 0 <= i < |s| && s[i] == x;
    assert s == s[..i] + [x] + s[i + 1..];
  }

  lemma {:induction false} SumConcat(a: seq<nat>, b: seq<nat>)
    ensures Sum(a + b) == Sum(a) + Sum(b)
  {
    if b == [] {
      assert a + b == a;
    } else {
      SumConcat(a, b[..|b| - 1]);
      assert (a + b)[..|a + b| - 1] == a + b[..|b| - 1];
    }
  }

  lemma {:induction false} SumPermutation(a: seq<nat>, b: seq<nat>)
    requires multiset(a) == multiset(b)
    ensures Sum(a) == Sum(b)
    decreases |a|
  {
    if a == [] {
      assert |multiset(b)| == 0;
    } else {
      var init, x := a[..|a| - 1], a[|a| - 1];
      assert a == init + [x];
      var i := TakeOut(b, x);
      SumPermutation(init, b[..i] + b[i + 1..]);
      SumConcat(b[..i], b[i + 1..]);
      SumConcat(b[..i] + [x], b[i + 1..]);
      SumConcat(b[..i], [x]);
      assert Sum([x]) == x;
    }
  }

  lemma ProjectConcat<S, T>(a: seq<S>, b: seq<S>, f: S -> T)
    ensures Project(a + b, f) == Project(a, f) + Project(b, f)
  {
  }

  lemma {:induction false} ProjectPermutation<S, T>(a: seq<S>, b: seq<S>, f: S -> T)
    requires multiset(a) == multiset(b)
    ensures multiset(Project(a, f)) == multiset(Project(b, f))
    decreases |a|
  {
    if a == [] {
      assert |multiset(b)| == 0;
    } else {
      var init, x := a[..|a| - 1], a[|a| - 1];
      assert a == init + [x];
      var i := TakeOut(b, x);
      var rest := b[..i] + b[i + 1..];
      ProjectPermutation(init, rest, f);
      ProjectConcat(init, [x], f);
      ProjectConcat(b[..i], b[i + 1..], f);
      ProjectConcat(b[..i] + [x], b[i + 1..], f);
      ProjectConcat(b[..i], [x], f);
    }
  }

  lemma PeakPermutation(a: seq<nat>, b: seq<nat>, p: nat, q: nat)
    requires multiset(a) == multiset(b) && IsPeak(a, p) && IsPeak(b, q)
    ensures p == q
  {
    assert |a| == |multiset(a)| == |multiset(b)| == |b|;
  }

  // ---- Peaks and distinct values ----

  function Within(values: seq<nat>, chosen: set<nat>): nat {
    if values == [] then 0
    else Within(values[..|values| - 1], chosen) + if values[|values| - 1] in chosen then 1 else 0
  }

  lemma {:induction false} WithinAll(values: seq<nat>, chosen: set<nat>)
    requires forall v | v in values :: v in chosen
    ensures Within(values, chosen) == |values|
  {
    if values != [] {
      WithinAll(values[..|values| - 1], chosen);
    }
  }

  lemma {:induction false} WithinSplit(values: seq<nat>, chosen: set<nat>, v: nat)
    requires v in chosen
    ensures Within(values, chosen) == Within(values, chosen - {v}) + multiset(values)[v]
  {
    if values != [] {
      var init := values[..|values| - 1];
      assert values == init + [values[|values| - 1]];
      WithinSplit(init, chosen, v);
    }
  }

  lemma {:induction false} WithinBound(values: seq<nat>, chosen: set<nat>, peak: nat)
    requires forall v: nat :: multiset(values)[v] <= peak
    ensures Within(values, chosen) <= |chosen| * peak
    decreases |chosen|
  {
    if chosen == {} {
      WithinNone(values);
    } else {
      var v :| v in chosen;
      WithinSplit(values, chosen, v);
      WithinBound(values, chosen - {v}, peak);
      assert |chosen| * peak == |chosen - {v}| * peak + peak;
    }
  }

  lemma {:induction false} WithinNone(values: seq<nat>)
    ensures Within(values, {}) == 0
  {
    if values != [] {
      WithinNone(values[..|values| - 1]);
    }
  }

  /** Distinct values times the peak covers every value. */
  lemma PigeonHole(values: seq<nat>, peak: nat)
    requires IsPeak(values, peak)
    ensures |Distinct(values)| * peak >= |values|
  {
    WithinAll(values, Distinct(values));
    WithinBound(values, Distinct(values), peak);
  }

  // ---- The loops ----

  method CountDistinct(values: seq<nat>) returns (n: nat)
    ensures n == |Distinct(values)|
  {
    var seen: set<nat> := {};
    for i := 0 to |values|
      invariant seen == Distinct(values[..i])
    {
      seen := seen + {values[i]};
    }
    assert values[..|values|] == values;
    return |seen|;
  }

  method CountTrue(flags: seq<bool>) returns (n: nat)
    ensures n == multiset(flags)[true]
  {
    n := 0;
    for i := 0 to |flags|
      invariant n == multiset(flags[..i])[true]
    {
      assert flags[..i + 1] == flags[..i] + [flags[i]];
      if flags[i] {
        n := n + 1;
      }
    }
    assert flags[..|flags|] == flags;
  }

  method Total(values: seq<nat>) returns (n: nat)
    ensures n == Sum(values)
  {
    n := 0;
    for i := 0 to |values|
      invariant n == Sum(values[..i])
    {
      assert values[..i + 1][..i] == values[..i];
      n := n + values[i];
    }
    assert values[..|values|] == values;
  }

  /** Counts each value, then takes the largest count. */
  method PeakCount(values: seq<nat>) returns (peak: nat)
    ensures peak == Peak(values)
  {
    var counts: map<nat, nat> := map[];
    for i := 0 to |values|
      invariant forall v: nat :: (v in counts <==> v in values[..i])
      invariant forall v | v in counts :: counts[v] == multiset(values[..i])[v]
    {
      assert values[..i + 1] == values[..i] + [values[i]];
      counts := counts[values[i] := (if values[i] in counts then counts[values[i]] else 0) + 1];
    }
    assert values[..|values|] == values;
    peak := LargestValue(counts);
    PeakFromCounts(values, counts, peak);
    PeakIsPeak(values);
    PeakPermutation(values, values, peak, Peak(values));
  }

  method LargestValue(counts: map<nat, nat>) returns (largest: nat)
    ensures forall v | v in counts :: counts[v] <= largest
    ensures if counts == map[] then largest == 0 else exists v | v in counts :: counts[v] == largest
  {
    largest := 0;
    var rest := counts.Keys;
    while rest != {}
      invariant rest <= counts.Keys
      invariant forall v | v in counts && v !in rest :: counts[v] <= largest
      invariant rest == counts.Keys ==> largest == 0
      invariant rest == counts.Keys || (exists v | v in counts :: counts[v] == largest) || largest == 0
      decreases rest
    {
      var v :| v in rest;
      if counts[v] > largest {
        largest := counts[v];
      }
      rest := rest - {v};
    }
    if counts != map[] && largest == 0 {
      var v :| v in counts;
      assert counts[v] == largest;
    }
  }

  lemma PeakFromCounts(values: seq<nat>, counts: map<nat, nat>, peak: nat)
    requires forall v: nat :: v in counts <==> v in values
    requires forall v | v in counts :: counts[v] == multiset(values)[v] <= peak
    requires if counts == map[] then peak == 0 else exists v | v in counts :: counts[v] == peak
    ensures IsPeak(values, peak)
  {
    if values != [] {
      assert values[0] in counts;
    }
    forall v: nat ensures multiset(values)[v] <= peak {
      if v !in counts {
        assert v !in multiset(values);
      }
    }
  }
}
