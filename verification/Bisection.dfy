/** The bisection of `certified_radius` on numbers with rounding, for any test of a radius, and exactly
    when it ends. */
module Bisection {
  import opened Rounding

  datatype Range = Range(lo: real, hi: real)

  function Midpoint(a: Arithmetic, r: Range): real {
    a.rnd(a.rnd(r.lo + r.hi) * 0.5)
  }

  predicate Continues(a: Arithmetic, r: Range, tol: real) {
    a.rnd(r.hi - r.lo) > tol
  }

  /** One pass of the loop. */
  function Narrow(a: Arithmetic, stable: real -> bool, r: Range): Range {
    var mid := Midpoint(a, r);
    if stable(mid) then Range(mid, r.hi) else Range(r.lo, mid)
  }

  /** The range after `n` passes. */
  function Bisect(a: Arithmetic, stable: real -> bool, maxEps: real, n: nat): Range {
    if n == 0 then Range(0.0, maxEps) else Narrow(a, stable, Bisect(a, stable, maxEps, n - 1))
  }

  ghost predicate Ends(a: Arithmetic, stable: real -> bool, maxEps: real, tol: real) {
    exists n: nat :: !Continues(a, Bisect(a, stable, maxEps, n), tol)
  }

  // ---- Ranges stay ranges ----

  ghost predicate Doubles(a: Arithmetic, maxEps: real, x: real) {
    (0.0 <= x <= maxEps || maxEps <= x <= 0.0) && Representable(a, x) ==> Representable(a, 2.0 * x)
  }

  /** Rounding is monotone and yields numbers, and twice a number between zero and `maxEps` is a number. */
  ghost predicate Regular(a: Arithmetic, maxEps: real) {
    && Monotone(a.rnd) && RoundsToValues(a) && Representable(a, maxEps)
    && forall x :: Doubles(a, maxEps, x)
  }

  ghost predicate Proper(a: Arithmetic, r: Range, maxEps: real) {
    0.0 <= r.lo <= r.hi <= maxEps && Representable(a, r.lo) && Representable(a, r.hi)
  }

  lemma MidpointInside(a: Arithmetic, r: Range, maxEps: real)
    requires Regular(a, maxEps) && Proper(a, r, maxEps)
    ensures r.lo <= Midpoint(a, r) <= r.hi && Representable(a, Midpoint(a, r))
  {
    assert Ordered(2.0 * r.lo, r.lo + r.hi) && Ordered(r.lo + r.hi, 2.0 * r.hi);
    assert Doubles(a, maxEps, r.lo) && Doubles(a, maxEps, r.hi);
    var twice := a.rnd(r.lo + r.hi);
    assert 2.0 * r.lo <= twice <= 2.0 * r.hi;
    assert Ordered(r.lo, twice * 0.5) && Ordered(twice * 0.5, r.hi);
  }

  lemma {:induction false} BisectProper(a: Arithmetic, stable: real -> bool, maxEps: real, n: nat)
    requires Regular(a, maxEps) && maxEps >= 0.0
    ensures Proper(a, Bisect(a, stable, maxEps, n), maxEps)
  {
    if n > 0 {
      BisectProper(a, stable, maxEps, n - 1);
      MidpointInside(a, Bisect(a, stable, maxEps, n - 1), maxEps);
    }
  }

  // ---- A range that splits ends the search ----

  /** While the search continues, the computed midpoint stays at least `gap` away from both ends. */
  ghost predicate SplitsBy(a: Arithmetic, maxEps: real, tol: real, gap: real) {
    && gap > 0.0
    && forall r | Proper(a, r, maxEps) && Continues(a, r, tol) :: r.lo + gap <= Midpoint(a, r) <= r.hi - gap
  }

  function Width(a: Arithmetic, stable: real -> bool, maxEps: real, n: nat): real {
    var r := Bisect(a, stable, maxEps, n);
    r.hi - r.lo
  }

  /** Pass `n`, if it happens, takes at least `d` off the width. */
  ghost predicate Loses(a: Arithmetic, stable: real -> bool, maxEps: real, tol: real, d: real, n: nat) {
    Continues(a, Bisect(a, stable, maxEps, n), tol) ==>
      Width(a, stable, maxEps, n + 1) <= Width(a, stable, maxEps, n) - d
  }

  lemma {:induction false} WidthLeft(a: Arithmetic, stable: real -> bool, maxEps: real, tol: real, d: real, n: nat)
    requires forall k: nat :: Loses(a, stable, maxEps, tol, d, k)
    requires forall k: nat | k < n :: Continues(a, Bisect(a, stable, maxEps, k), tol)
    ensures Width(a, stable, maxEps, n) <= maxEps - Times(n, d)
  {
    if n > 0 {
      WidthLeft(a, stable, maxEps, tol, d, n - 1);
      assert Loses(a, stable, maxEps, tol, d, n - 1);
    }
  }

  lemma LosingEnds(a: Arithmetic, stable: real -> bool, maxEps: real, tol: real, d: real)
    requires Regular(a, maxEps) && maxEps >= 0.0 && d > 0.0
    requires forall k: nat :: Loses(a, stable, maxEps, tol, d, k)
    ensures Ends(a, stable, maxEps, tol)
  {
    var n := Outgrows(maxEps, d);
    if forall k: nat | k < n :: Continues(a, Bisect(a, stable, maxEps, k), tol) {
      WidthLeft(a, stable, maxEps, tol, d, n);
      BisectProper(a, stable, maxEps, n);
    }
  }

  lemma SplittingEnds(a: Arithmetic, stable: real -> bool, maxEps: real, tol: real, gap: real)
    requires Regular(a, maxEps) && maxEps >= 0.0 && SplitsBy(a, maxEps, tol, gap)
    ensures Ends(a, stable, maxEps, tol)
  {
    forall n: nat ensures Loses(a, stable, maxEps, tol, gap, n) {
      BisectProper(a, stable, maxEps, n);
    }
    LosingEnds(a, stable, maxEps, tol, gap);
  }

  // ---- From a bound on the rounding error ----

  ghost predicate ErrsBy(a: Arithmetic, bound: real, e: real) {
    forall x | 0.0 <= x <= bound :: x - e <= a.rnd(x) <= x + e
  }

  lemma ErrorSplits(a: Arithmetic, maxEps: real, tol: real, e: real, r: Range)
    requires Regular(a, maxEps) && e >= 0.0 && ErrsBy(a, 2.0 * maxEps + e, e)
    requires Proper(a, r, maxEps) && Continues(a, r, tol)
    ensures var gap := (tol - 4.0 * e) / 2.0; r.lo + gap <= Midpoint(a, r) <= r.hi - gap
  {
    assert a.rnd(r.hi - r.lo) <= r.hi - r.lo + e;
    var twice := a.rnd(r.lo + r.hi);
    assert r.lo + r.hi - e <= twice <= r.lo + r.hi + e;
    assert Ordered(0.0, r.lo + r.hi);
    assert twice * 0.5 - e <= a.rnd(twice * 0.5) <= twice * 0.5 + e;
  }

  /** If rounding the numbers involved errs by less than a quarter of the tolerance, the search ends.
      In binary32 with `maxEps` 0.5 the error is at most 2^-24. */
  lemma SmallErrorEnds(a: Arithmetic, stable: real -> bool, maxEps: real, tol: real, e: real)
    requires Regular(a, maxEps) && maxEps >= 0.0
    requires e >= 0.0 && ErrsBy(a, 2.0 * maxEps + e, e) && tol > 4.0 * e
    ensures Ends(a, stable, maxEps, tol)
  {
    var gap := (tol - 4.0 * e) / 2.0;
    forall r | Proper(a, r, maxEps) && Continues(a, r, tol) ensures r.lo + gap <= Midpoint(a, r) <= r.hi - gap {
      ErrorSplits(a, maxEps, tol, e, r);
    }
    SplittingEnds(a, stable, maxEps, tol, gap);
  }

  // ---- Exactly when it ends ----

  /** Different numbers up to `maxEps` are at least `s` apart. */
  ghost predicate Spaced(a: Arithmetic, maxEps: real, s: real) {
    && s > 0.0
    && forall x, y | 0.0 <= x < y <= maxEps && Representable(a, x) && Representable(a, y) :: y - x >= s
  }

  /** After `n` passes the loop would go on, and another pass changes nothing. */
  ghost predicate Stuck(a: Arithmetic, stable: real -> bool, maxEps: real, tol: real, n: nat) {
    var r := Bisect(a, stable, maxEps, n);
    Continues(a, r, tol) && Narrow(a, stable, r) == r
  }

  lemma {:induction false} StuckForever(a: Arithmetic, stable: real -> bool, maxEps: real, tol: real, k: nat, n: nat)
    requires k <= n && Stuck(a, stable, maxEps, tol, k)
    ensures Bisect(a, stable, maxEps, n) == Bisect(a, stable, maxEps, k)
  {
    if k < n {
      StuckForever(a, stable, maxEps, tol, k, n - 1);
    }
  }

  lemma NeverWider(a: Arithmetic, stable: real -> bool, maxEps: real, n: nat)
    requires Regular(a, maxEps) && maxEps >= 0.0
    ensures Ordered(Width(a, stable, maxEps, n + 1), Width(a, stable, maxEps, n))
  {
    BisectProper(a, stable, maxEps, n);
    MidpointInside(a, Bisect(a, stable, maxEps, n), maxEps);
  }

  /** Once the ends are close enough they stay so. */
  lemma {:induction false} StaysClose(a: Arithmetic, stable: real -> bool, maxEps: real, tol: real, k: nat, n: nat)
    requires Regular(a, maxEps) && maxEps >= 0.0 && k <= n
    requires Continues(a, Bisect(a, stable, maxEps, n), tol)
    ensures Continues(a, Bisect(a, stable, maxEps, k), tol)
  {
    if k < n {
      NeverWider(a, stable, maxEps, n - 1);
      StaysClose(a, stable, maxEps, tol, k, n - 1);
    }
  }

  lemma StuckNeverEnds(a: Arithmetic, stable: real -> bool, maxEps: real, tol: real, k: nat, n: nat)
    requires Regular(a, maxEps) && maxEps >= 0.0 && Stuck(a, stable, maxEps, tol, k)
    ensures Continues(a, Bisect(a, stable, maxEps, n), tol)
  {
    if n <= k {
      StaysClose(a, stable, maxEps, tol, n, k);
    } else {
      StuckForever(a, stable, maxEps, tol, k, n);
    }
  }

  lemma MovesBy(a: Arithmetic, stable: real -> bool, maxEps: real, tol: real, s: real, n: nat)
    requires Regular(a, maxEps) && maxEps >= 0.0 && Spaced(a, maxEps, s)
    requires !Stuck(a, stable, maxEps, tol, n)
    ensures Loses(a, stable, maxEps, tol, s, n)
  {
    BisectProper(a, stable, maxEps, n);
    MidpointInside(a, Bisect(a, stable, maxEps, n), maxEps);
  }

  /** On numbers with a least distance, as binary32's are, the search ends if and only if it never
      reaches a range that a pass leaves as it is. */
  lemma EndsIffNeverStuck(a: Arithmetic, stable: real -> bool, maxEps: real, tol: real, s: real)
    requires Regular(a, maxEps) && maxEps >= 0.0 && Spaced(a, maxEps, s)
    ensures Ends(a, stable, maxEps, tol) <==> forall n: nat :: !Stuck(a, stable, maxEps, tol, n)
  {
    if k: nat :| Stuck(a, stable, maxEps, tol, k) {
      forall n: nat ensures Continues(a, Bisect(a, stable, maxEps, n), tol) {
        StuckNeverEnds(a, stable, maxEps, tol, k, n);
      }
      assert !Ends(a, stable, maxEps, tol);
    } else {
      forall n: nat ensures Loses(a, stable, maxEps, tol, s, n) {
        MovesBy(a, stable, maxEps, tol, s, n);
      }
      LosingEnds(a, stable, maxEps, tol, s);
    }
  }

  // ---- The condition on the numbers ----

  /** `x` and `y` are numbers of the range with none between them. */
  ghost predicate Neighbours(a: Arithmetic, maxEps: real, x: real, y: real) {
    && 0.0 <= x < y <= maxEps && Representable(a, x) && Representable(a, y)
    && forall z | Representable(a, z) && x < z :: y <= z
  }

  ghost predicate CloseNeighbours(a: Arithmetic, maxEps: real, tol: real) {
    forall x, y | Neighbours(a, maxEps, x, y) :: a.rnd(y - x) <= tol
  }

  /** The computed midpoint of a range with a number inside it is inside, as rounding to nearest gives. */
  ghost predicate Halves(a: Arithmetic, maxEps: real) {
    forall r, z | Proper(a, r, maxEps) && Representable(a, z) && r.lo < z < r.hi :: r.lo < Midpoint(a, r) < r.hi
  }

  lemma ClosePasses(a: Arithmetic, stable: real -> bool, maxEps: real, tol: real, s: real, n: nat)
    requires Regular(a, maxEps) && maxEps >= 0.0 && Spaced(a, maxEps, s) && Halves(a, maxEps)
    requires tol >= 0.0 && CloseNeighbours(a, maxEps, tol)
    ensures Loses(a, stable, maxEps, tol, s, n)
  {
    var r := Bisect(a, stable, maxEps, n);
    BisectProper(a, stable, maxEps, n);
    MidpointInside(a, r, maxEps);
    if Continues(a, r, tol) {
      assert r.lo < r.hi && !Neighbours(a, maxEps, r.lo, r.hi);
      var z :| Representable(a, z) && r.lo < z < r.hi;
      assert r.lo < Midpoint(a, r) < r.hi;
    }
  }

  lemma CloseNeighboursEnd(a: Arithmetic, stable: real -> bool, maxEps: real, tol: real, s: real)
    requires Regular(a, maxEps) && maxEps >= 0.0 && Spaced(a, maxEps, s) && Halves(a, maxEps)
    requires tol >= 0.0 && CloseNeighbours(a, maxEps, tol)
    ensures Ends(a, stable, maxEps, tol)
  {
    forall n: nat ensures Loses(a, stable, maxEps, tol, s, n) {
      ClosePasses(a, stable, maxEps, tol, s, n);
    }
    LosingEnds(a, stable, maxEps, tol, s);
  }

  /** The numbers up to `x` pass and those from `y` on fail. */
  ghost predicate PassesUpTo(a: Arithmetic, stable: real -> bool, x: real, y: real) {
    forall z | Representable(a, z) :: (z <= x ==> stable(z)) && (z >= y ==> !stable(z))
  }

  lemma {:induction false} StaysAround(a: Arithmetic, stable: real -> bool, maxEps: real, x: real, y: real, n: nat)
    requires Regular(a, maxEps) && Neighbours(a, maxEps, x, y) && PassesUpTo(a, stable, x, y)
    ensures var r := Bisect(a, stable, maxEps, n); r.lo <= x && y <= r.hi
  {
    if n > 0 {
      var r := Bisect(a, stable, maxEps, n - 1);
      StaysAround(a, stable, maxEps, x, y, n - 1);
      BisectProper(a, stable, maxEps, n - 1);
      MidpointInside(a, r, maxEps);
      assert Representable(a, Midpoint(a, r));
    }
  }

  /** A test that tells two distant neighbours apart keeps the search running for ever. */
  lemma DistantNeighboursNeverEnd(a: Arithmetic, stable: real -> bool, maxEps: real, tol: real, x: real, y: real)
    requires Regular(a, maxEps) && Neighbours(a, maxEps, x, y) && PassesUpTo(a, stable, x, y) && a.rnd(y - x) > tol
    ensures !Ends(a, stable, maxEps, tol)
  {
    forall n: nat ensures Continues(a, Bisect(a, stable, maxEps, n), tol) {
      StaysAround(a, stable, maxEps, x, y, n);
      var r := Bisect(a, stable, maxEps, n);
      assert Ordered(y - x, r.hi - r.lo);
    }
  }

  /** With a negative tolerance no search ends. */
  lemma NegativeToleranceNeverEnds(a: Arithmetic, stable: real -> bool, maxEps: real, tol: real)
    requires Regular(a, maxEps) && maxEps >= 0.0 && tol < 0.0
    ensures !Ends(a, stable, maxEps, tol)
  {
    forall n: nat ensures Continues(a, Bisect(a, stable, maxEps, n), tol) {
      BisectProper(a, stable, maxEps, n);
      var r := Bisect(a, stable, maxEps, n);
      assert Ordered(0.0, r.hi - r.lo);
    }
  }

  // ---- A negative maximum ----

  lemma {:induction false} ReversedWidens(a: Arithmetic, stable: real -> bool, maxEps: real, n: nat)
    requires Regular(a, maxEps) && maxEps < 0.0
    ensures var r := Bisect(a, stable, maxEps, n);
      && maxEps <= r.hi <= r.lo <= 0.0 && Representable(a, r.lo) && Representable(a, r.hi)
      && maxEps <= r.hi - r.lo
  {
    if n > 0 {
      var r := Bisect(a, stable, maxEps, n - 1);
      ReversedWidens(a, stable, maxEps, n - 1);
      assert Ordered(2.0 * r.hi, r.lo + r.hi) && Ordered(r.lo + r.hi, 2.0 * r.lo);
      assert Doubles(a, maxEps, r.lo) && Doubles(a, maxEps, r.hi);
      var twice := a.rnd(r.lo + r.hi);
      assert Ordered(r.hi, twice * 0.5) && Ordered(twice * 0.5, r.lo);
    }
  }

  /** A search up to a negative maximum ends at once or never. */
  lemma NegativeEndsAtOnce(a: Arithmetic, stable: real -> bool, maxEps: real, tol: real)
    requires Regular(a, maxEps) && maxEps < 0.0 && Ends(a, stable, maxEps, tol)
    ensures !Continues(a, Range(0.0, maxEps), tol)
  {
    if Continues(a, Range(0.0, maxEps), tol) {
      forall n: nat ensures Continues(a, Bisect(a, stable, maxEps, n), tol) {
        ReversedWidens(a, stable, maxEps, n);
        var r := Bisect(a, stable, maxEps, n);
        assert Ordered(maxEps, r.hi - r.lo);
      }
    }
  }

  // ---- The loop ----

  /** `r` is the range after `k` passes: passed below, and above either untouched or failed. */
  ghost predicate Searching(a: Arithmetic, stable: real -> bool, r: Range, maxEps: real, k: nat) {
    && r == Bisect(a, stable, maxEps, k)
    && (Proper(a, r, maxEps) || (r == Range(0.0, maxEps) && maxEps < 0.0))
    && stable(r.lo) && (r.hi == maxEps || !stable(r.hi))
  }

  lemma StartsSearching(a: Arithmetic, stable: real -> bool, maxEps: real, tol: real)
    requires Regular(a, maxEps) && stable(0.0) && Ends(a, stable, maxEps, tol)
    ensures Searching(a, stable, Range(0.0, maxEps), maxEps, 0)
    ensures maxEps >= 0.0 || !Continues(a, Range(0.0, maxEps), tol)
  {
    if maxEps < 0.0 {
      NegativeEndsAtOnce(a, stable, maxEps, tol);
    }
  }

  lemma KeepsSearching(a: Arithmetic, stable: real -> bool, r: Range, maxEps: real, k: nat)
    requires Regular(a, maxEps) && maxEps >= 0.0 && Searching(a, stable, r, maxEps, k)
    ensures Searching(a, stable, Narrow(a, stable, r), maxEps, k + 1)
  {
    MidpointInside(a, r, maxEps);
  }

  ghost function LastPass(a: Arithmetic, stable: real -> bool, maxEps: real, tol: real): (n: nat)
    requires Ends(a, stable, maxEps, tol)
    ensures !Continues(a, Bisect(a, stable, maxEps, n), tol)
  {
    var n: nat :| !Continues(a, Bisect(a, stable, maxEps, n), tol);
    n
  }
}
