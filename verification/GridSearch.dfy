/** Numbers of one spacing, on which every call of `certified_radius` ends exactly when the tolerance is
    at least the spacing. */
module GridSearch {
  import opened Rounding
  import opened Bisection
  import opened CertifiedRadius
  import opened SearchTermination

  // ---- The grid as an arithmetic ----

  lemma GridRegular(step: real, maxEps: real)
    requires step > 0.0 && Representable(Grid(step), maxEps)
    ensures Regular(Grid(step), maxEps)
  {
    var a := Grid(step);
    GridIsOutward(step);
    GridRoundsToValues(step);
    forall x ensures Doubles(a, maxEps, x) {
      if Representable(a, x) {
        var n := GridPosition(step, x);
        GridInteger(step, 2.0 * x, 2 * n);
      }
    }
  }

  lemma AddPositions(p: real, q: real, s: real)
    ensures p * s + q * s == (p + q) * s && ((p + q) * s) * 0.5 == ((p + q) * 0.5) * s
  {
  }

  /** The midpoint of positions `m` and `n`. */
  lemma GridMidpoint(step: real, m: int, n: int, r: Range)
    requires step > 0.0 && r == Range(m as real * step, n as real * step)
    ensures Midpoint(Grid(step), r) == Nearest((m + n) as real * 0.5) as real * step
  {
    AddPositions(m as real, n as real, step);
    GridInteger(step, r.lo + r.hi, m + n);
    GridPoint(step, (r.lo + r.hi) * 0.5, (m + n) as real * 0.5);
  }

  lemma BetweenPositions(step: real, x: real, mid: real, y: real, m: int, k: int, n: int)
    requires step > 0.0 && m + 1 <= k <= n - 1
    requires x == m as real * step && mid == k as real * step && y == n as real * step
    ensures x + step <= mid <= y - step
  {
    ScaleBounds((m + 1) as real, k as real, (n - 1) as real, step);
  }

  lemma ApartPositions(step: real, x: real, y: real, m: int, n: int)
    requires step > 0.0 && x == m as real * step && y == n as real * step && x < y
    ensures n - m >= 1 && y - x >= step && (y - x > step ==> n - m >= 2)
  {
    Subtract(n as real, m as real, step);
    WholeSteps(step, n - m, y - x);
  }

  lemma WholeSteps(step: real, d: int, width: real)
    requires step > 0.0 && width == d as real * step && width > 0.0
    ensures d >= 1 && width >= step && (width > step ==> d >= 2)
  {
    Compare(d as real, 0.0, step);
    Compare(1.0, d as real, step);
    Compare(d as real, 1.0, step);
  }

  lemma HalfwayBetween(m: int, n: int)
    requires n - m >= 2
    ensures m + 1 <= Nearest((m + n) as real * 0.5) <= n - 1
  {
  }

  lemma GridApart(step: real, x: real, y: real)
    requires step > 0.0 && Representable(Grid(step), x) && Representable(Grid(step), y) && x < y
    ensures y - x >= step && Grid(step).rnd(y - x) == y - x && Grid(step).rnd(x - y) == x - y
  {
    var m := GridPosition(step, x);
    var n := GridPosition(step, y);
    DifferenceAt(step, x, y, m, n);
  }

  lemma DifferenceAt(step: real, x: real, y: real, m: int, n: int)
    requires step > 0.0 && x == m as real * step && y == n as real * step && x < y
    ensures y - x >= step && RoundTo(step, y - x) == y - x && RoundTo(step, x - y) == x - y
  {
    ApartPositions(step, x, y, m, n);
    GridInteger(step, y - x, n - m);
    GridInteger(step, x - y, m - n);
  }

  lemma NextAt(step: real, x: real)
    requires step > 0.0 && Representable(Grid(step), x)
    ensures Representable(Grid(step), x + step) && Representable(Grid(step), -x)
  {
    var m := GridPosition(step, x);
    assert (m + 1) as real * step == x + step;
    GridInteger(step, x + step, m + 1);
    GridInteger(step, -x, -m);
  }

  lemma GridStepping(step: real)
    requires step > 0.0 && Representable(Grid(step), 1.0)
    ensures Stepping(Grid(step))
  {
    var a := Grid(step);
    forall x, y ensures NextIs(a, x, y) {
      if Representable(a, x) {
        NextAt(step, x);
        if Representable(a, y) && x < y {
          GridApart(step, x, y);
        }
      }
    }
    forall x ensures NegationHeld(a, x) {
      if Representable(a, x) {
        NextAt(step, x);
      }
    }
  }

  lemma GridSpaced(step: real, maxEps: real)
    requires step > 0.0
    ensures Spaced(Grid(step), maxEps, step)
  {
    forall x, y | 0.0 <= x < y <= maxEps && Representable(Grid(step), x) && Representable(Grid(step), y) ensures y - x >= step {
      GridApart(step, x, y);
    }
  }

  lemma MidpointAt(step: real, r: Range, m: int, n: int)
    requires step > 0.0 && r == Range(m as real * step, n as real * step) && n - m >= 2
    ensures r.lo < Midpoint(Grid(step), r) < r.hi
  {
    HalfwayBetween(m, n);
    GridMidpoint(step, m, n, r);
    BetweenPositions(step, r.lo, Midpoint(Grid(step), r), r.hi, m, Nearest((m + n) as real * 0.5), n);
  }

  lemma GridHalves(step: real, maxEps: real)
    requires step > 0.0
    ensures Halves(Grid(step), maxEps)
  {
    var a := Grid(step);
    forall r, z | Proper(a, r, maxEps) && Representable(a, z) && r.lo < z < r.hi ensures r.lo < Midpoint(a, r) < r.hi {
      GridApart(step, r.lo, z);
      GridApart(step, z, r.hi);
      var m := GridPosition(step, r.lo);
      var n := GridPosition(step, r.hi);
      ApartPositions(step, r.lo, r.hi, m, n);
      MidpointAt(step, r, m, n);
    }
  }

  /** Neighbours are one step apart. */
  lemma GridNeighbours(step: real, maxEps: real, tol: real)
    requires step > 0.0
    ensures CloseNeighbours(Grid(step), maxEps, tol) <==> maxEps < step || tol >= step
  {
    var a := Grid(step);
    GridRoundsToValues(step);
    NextAt(step, 0.0);
    if maxEps >= step {
      forall z | Representable(a, z) && 0.0 < z ensures step <= z {
        GridApart(step, 0.0, z);
      }
      assert Neighbours(a, maxEps, 0.0, step);
    }
    forall x, y | Neighbours(a, maxEps, x, y) ensures maxEps >= step && a.rnd(y - x) == step {
      GridApart(step, x, y);
      NextAt(step, x);
    }
  }

  /** On numbers of one spacing every call ends if and only if the tolerance is at least the spacing, or
      zero when the maximum is below the spacing. */
  lemma GridCallsEndIff(step: real, sigmoid: real -> real, maxEps: real, tol: real)
    requires step > 0.0 && Representable(Grid(step), 1.0)
    requires Computed(Grid(step), sigmoid) && Discerning(Grid(step), sigmoid, maxEps, tol)
    requires Representable(Grid(step), maxEps) && maxEps >= 0.0
    ensures EveryCallEnds(Grid(step), sigmoid, maxEps, tol) <==> tol >= if maxEps < step then 0.0 else step
  {
    GridIsOutward(step);
    GridStepping(step);
    GridRegular(step, maxEps);
    GridSpaced(step, maxEps);
    GridHalves(step, maxEps);
    GridNeighbours(step, maxEps, tol);
    EveryCallEndsIff(Grid(step), sigmoid, maxEps, tol, step);
  }

  /** Computed exactly, every search with a positive tolerance ends. */
  lemma ExactSearchEnds(q: Query, maxEps: real, tol: real)
    requires q.a.rnd == Identity() && maxEps >= 0.0 && tol > 0.0
    ensures SearchEnds(q, maxEps, tol)
  {
    SmallErrorEnds(q.a, Test(q), maxEps, tol, 0.0);
  }
}
