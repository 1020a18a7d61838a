/** The Gaussian-process surrogate of the autotuner: a squared-exponential kernel, observations kept
    with a factor of their kernel matrix, and predictions of mean and variance. Arithmetic is over the
    reals; the exponential and the square root are parameters. */
module GaussianProcess {
  import opened Cholesky
  import opened Definiteness
  import opened TriangularSolves
  import opened Vectors
  import Rounding

  const MIN_VARIANCE: real := 0.0000000001

  datatype Settings = Settings(exp: real -> real, sqrt: real -> real, lengthScale: real, noise: real)

  // ---- The kernel ----

  function Difference(x1: seq<real>, x2: seq<real>): Vector {
    var u, v := Entries(x1), Entries(x2);
    t => u(t) - v(t)
  }

  /** Over the coordinates both points have. */
  function SquaredDistance(x1: seq<real>, x2: seq<real>): real {
    Inner(if |x1| <= |x2| then |x1| else |x2|, Difference(x1, x2), Difference(x1, x2))
  }

  lemma {:induction false} InnerNegated(n: nat, u: Vector, v: Vector)
    requires forall t: nat | t < n :: u(t) == -v(t)
    ensures Inner(n, u, u) == Inner(n, v, v)
  {
    if n > 0 {
      InnerNegated(n - 1, u, v);
      assert u(n - 1) * u(n - 1) == v(n - 1) * v(n - 1);
    }
  }

  lemma PositiveProduct(a: real, b: real, q: real)
    requires a > 0.0 && b > 0.0 && q == a * b
    ensures q > 0.0
  {
  }

  lemma SameSign(a: real, b: real, q: real)
    requires (a > 0.0 && b > 0.0) || (a < 0.0 && b < 0.0)
    requires q == a * b
    ensures q > 0.0
  {
    PositiveProduct(if a > 0.0 then a else -a, if a > 0.0 then b else -b, q);
  }

  function TwiceSquared(l: real): (scale: real)
    requires l != 0.0
    ensures scale > 0.0
  {
    var scale := 2.0 * l * l;
    SameSign(2.0 * l, l, scale);
    scale
  }

  function Rbf(s: Settings, x1: seq<real>, x2: seq<real>): real
    requires s.lengthScale != 0.0
  {
    s.exp(-SquaredDistance(x1, x2) / TwiceSquared(s.lengthScale))
  }

  lemma RbfSymmetric(s: Settings, x1: seq<real>, x2: seq<real>)
    requires s.lengthScale != 0.0
    ensures Rbf(s, x1, x2) == Rbf(s, x2, x1)
  {
    InnerNegated(if |x1| <= |x2| then |x1| else |x2|, Difference(x1, x2), Difference(x2, x1));
  }

  /** The squares of the differences, coordinate by coordinate, as far as both points go. */
  function SumOfSquares(x1: seq<real>, x2: seq<real>): real {
    if x1 == [] || x2 == [] then 0.0 else (x1[0] - x2[0]) * (x1[0] - x2[0]) + SumOfSquares(x1[1..], x2[1..])
  }

  lemma {:induction false} SquaresUpTo(x1: seq<real>, x2: seq<real>, k: nat)
    requires k <= |x1| && k <= |x2|
    ensures Inner(k, Difference(x1, x2), Difference(x1, x2)) == SumOfSquares(x1[..k], x2[..k])
  {
    if k > 0 {
      SquaresUpTo(x1, x2, k - 1);
      LastSquare(x1[..k], x2[..k]);
      assert x1[..k][..k - 1] == x1[..k - 1] && x2[..k][..k - 1] == x2[..k - 1];
    }
  }

  lemma {:induction false} LastSquare(x1: seq<real>, x2: seq<real>)
    requires |x1| == |x2| > 0
    ensures var n := |x1| - 1; SumOfSquares(x1, x2) == SumOfSquares(x1[..n], x2[..n]) + (x1[n] - x2[n]) * (x1[n] - x2[n])
  {
    if |x1| > 1 {
      var n := |x1| - 1;
      LastSquare(x1[1..], x2[1..]);
      assert x1[1..][..n - 1] == x1[..n][1..] && x2[1..][..n - 1] == x2[..n][1..];
    }
  }

  lemma {:induction false} SharedSquares(x1: seq<real>, x2: seq<real>, k: nat)
    requires k == if |x1| <= |x2| then |x1| else |x2|
    ensures SumOfSquares(x1[..k], x2[..k]) == SumOfSquares(x1, x2)
  {
    if k > 0 {
      SharedSquares(x1[1..], x2[1..], k - 1);
      assert x1[..k][1..] == x1[1..][..k - 1] && x2[..k][1..] == x2[1..][..k - 1];
    }
  }

  /** The kernel is the exponential of minus the squared distance over twice the squared length scale. */
  lemma RbfMeaning(s: Settings, x1: seq<real>, x2: seq<real>, scale: real, e: real)
    requires s.lengthScale != 0.0 && scale == 2.0 * s.lengthScale * s.lengthScale
    requires e * scale == -SumOfSquares(x1, x2)
    ensures Rbf(s, x1, x2) == s.exp(e)
  {
    var k := if |x1| <= |x2| then |x1| else |x2|;
    SquaresUpTo(x1, x2, k);
    SharedSquares(x1, x2, k);
    var twice := TwiceSquared(s.lengthScale);
    assert scale == twice;
    Rounding.DivideBack(-SumOfSquares(x1, x2), e, twice);
    assert SquaredDistance(x1, x2) == SumOfSquares(x1, x2);
  }

  function Kernel(s: Settings, xs: seq<seq<real>>): Matrix
    requires s.lengthScale != 0.0
  {
    (i: int, j: int) => if 0 <= i < |xs| && 0 <= j < |xs| then Rbf(s, xs[i], xs[j]) else 0.0
  }

  /** The kernel matrix with the noise on its diagonal. */
  function Gram(s: Settings, xs: seq<seq<real>>): Matrix
    requires s.lengthScale != 0.0
  {
    var k := Kernel(s, xs);
    (i: int, j: int) => if i == j && 0 <= i < |xs| then k(i, j) + s.noise else k(i, j)
  }

  lemma GramSymmetric(s: Settings, xs: seq<seq<real>>)
    requires s.lengthScale != 0.0
    ensures Symmetric(Kernel(s, xs), |xs|) && Symmetric(Gram(s, xs), |xs|)
  {
    forall i: nat, j: nat | i < |xs| && j < |xs| ensures Kernel(s, xs)(i, j) == Kernel(s, xs)(j, i) {
      RbfSymmetric(s, xs[i], xs[j]);
    }
  }

  /** The kernel between `x` and each observed point. */
  function Against(s: Settings, xs: seq<seq<real>>, x: seq<real>): (k: seq<real>)
    requires s.lengthScale != 0.0
    ensures |k| == |xs| && forall i | 0 <= i < |xs| :: k[i] == Rbf(s, x, xs[i])
  {
    seq(|xs|, i requires 0 <= i < |xs| => Rbf(s, x, xs[i]))
  }

  // ---- Filling the kernel matrix ----

  ghost predicate Filled(m: Matrix, g: Matrix, i: nat) {
    forall r: nat, c: nat | r < i && c < i :: m(r, c) == g(r, c)
  }

  ghost predicate Filling(m: Matrix, k: Matrix, i: nat, j: nat) {
    forall c: nat | c < j :: m(i, c) == k(i, c) && m(c, i) == k(c, i)
  }

  method SetCell(buffer: array<real>, n: nat, i: nat, j: nat, x: real)
    requires buffer.Length == n * n && i < n && j < n
    modifies buffer
    ensures View(buffer[..], n)(i, j) == x
    ensures AgreeExceptAt(View(old(buffer[..]), n), View(buffer[..], n), i, j)
  {
    buffer[Cell(n, i, j)] := x;
    ViewUpdate(old(buffer[..]), n, i, j, x);
    assert buffer[..] == old(buffer[..])[Cell(n, i, j) := x];
  }

  method FillRow(buffer: array<real>, s: Settings, xs: seq<seq<real>>, i: nat)
    requires buffer.Length == |xs| * |xs| && s.lengthScale != 0.0 && i < |xs|
    requires Filled(View(buffer[..], |xs|), Gram(s, xs), i)
    modifies buffer
    ensures Filled(View(buffer[..], |xs|), Gram(s, xs), i)
    ensures Filling(View(buffer[..], |xs|), Kernel(s, xs), i, i + 1)
  {
    for j := 0 to i + 1
      invariant Filled(View(buffer[..], |xs|), Gram(s, xs), i)
      invariant Filling(View(buffer[..], |xs|), Kernel(s, xs), i, j)
    {
      var entry := Rbf(s, xs[i], xs[j]);
      RbfSymmetric(s, xs[i], xs[j]);
      SetCell(buffer, |xs|, i, j, entry);
      SetCell(buffer, |xs|, j, i, entry);
    }
  }

  method FillGram(s: Settings, xs: seq<seq<real>>) returns (k: seq<real>)
    requires s.lengthScale != 0.0
    ensures |k| == |xs| * |xs| && Filled(View(k, |xs|), Gram(s, xs), |xs|)
  {
    var n := |xs|;
    var buffer := new real[n * n](_ => 0.0);
    for i := 0 to n
      invariant Filled(View(buffer[..], n), Gram(s, xs), i)
    {
      FillRow(buffer, s, xs, i);
      SetCell(buffer, n, i, i, buffer[Cell(n, i, i)] + s.noise);
    }
    k := buffer[..];
  }

  lemma FactorAgrees(m: Matrix, a: Matrix, g: Matrix, n: nat)
    requires Factor(m, a, n) && Filled(a, g, n)
    ensures Factor(m, g, n)
  {
    forall r: nat, c: nat | r < n && Done(r, c, n, 0) ensures Factored(m, g, r, c) {
      FactoredCell(m, a, n, r, c);
    }
  }

  // ---- The process ----

  /** The factor is that of the observations' kernel matrix, and alpha solves the factored system for
      the observed values. */
  ghost predicate Fitted(s: Settings, xs: seq<seq<real>>, ys: seq<real>, cholL: seq<real>, alpha: seq<real>) {
    && s.lengthScale != 0.0 && |xs| <= |ys| && |alpha| == |xs| && |cholL| == |xs| * |xs|
    && Factor(View(cholL, |xs|), Gram(s, xs), |xs|)
    && SolvesProduct(View(cholL, |xs|), |xs|, Entries(alpha), Entries(ys))
  }

  class GaussianProcess {
    const settings: Settings
    var xs: seq<seq<real>>
    var ys: seq<real>
    var alpha: seq<real>
    var cholL: seq<real>
    var n: nat

    ghost predicate Sound() {
      settings.lengthScale != 0.0 && IsSqrt(settings.sqrt)
    }

    ghost predicate Valid()
      reads this
    {
      Sound() && n == |xs| && Fitted(settings, xs, ys, cholL, alpha)
    }

    constructor (settings: Settings)
      requires settings.lengthScale != 0.0 && IsSqrt(settings.sqrt)
      ensures Valid() && this.settings == settings && xs == [] && ys == []
    {
      this.settings, xs, ys, alpha, cholL, n := settings, [], [], [], [], 0;
    }

    method Observe(x: seq<real>, y: real)
      requires Valid()
      modifies this
      ensures Valid() && xs == old(xs) + [x] && ys == old(ys) + [y]
    {
      xs, ys := xs + [x], ys + [y];
      n := |xs|;
      Recompute();
    }

    method ObserveBatch(newXs: seq<seq<real>>, newYs: seq<real>)
      requires Valid() && |xs| + |newXs| <= |ys| + |newYs|
      modifies this
      ensures Valid() && xs == old(xs) + newXs && ys == old(ys) + newYs
    {
      xs, ys := xs + newXs, ys + newYs;
      n := |xs|;
      Recompute();
    }

    method Recompute()
      requires Sound() && n == |xs| <= |ys|
      modifies this`cholL, this`alpha
      ensures Valid()
    {
      var k := FillGram(settings, xs);
      cholL := Factorise(k, n, settings.sqrt);
      FactorAgrees(View(cholL, n), View(k, n), Gram(settings, xs), n);
      FactorTriangle(View(cholL, n), Gram(settings, xs), n);
      var z := ForwardSolve(cholL, n, ys);
      alpha := BackwardSolve(cholL, n, z);
      SolvesCompose(View(cholL, n), n, Entries(z), Entries(alpha), Entries(ys));
    }

    /** Mean and variance at `x`: the mean weighs the kernel by alpha; the variance is the prior's less
        the kernel's product with the solution of the factored system for it, floored. */
    method Predict(x: seq<real>) returns (mean: real, variance: real)
      requires Valid()
      ensures n == 0 ==> mean == 0.0 && variance == 1.0
      ensures n > 0 ==> mean == Inner(n, Entries(Against(settings, xs, x)), Entries(alpha))
      ensures variance >= 0.0000000001
      ensures n > 0 ==> exists w :: SolvesProduct(View(cholL, n), n, w, Entries(Against(settings, xs, x)))
      ensures n > 0 ==> forall w | SolvesProduct(View(cholL, n), n, w, Entries(Against(settings, xs, x))) ::
        variance == Variance(settings, x, n, w, Entries(Against(settings, xs, x)))
    {
      if n == 0 {
        return 0.0, 1.0;
      }
      var kStar := Against(settings, xs, x);
      mean := Inner(n, Entries(kStar), Entries(alpha));
      FactorTriangle(View(cholL, n), Gram(settings, xs), n);
      var v := ForwardSolve(cholL, n, kStar);
      var reduction := Inner(n, Entries(v), Entries(v));
      variance := Max(Rbf(settings, x, x) + settings.noise - reduction, MIN_VARIANCE);
      ghost var solution := BackwardSolution(View(cholL, n), n, Entries(v), 0);
      SolvesCompose(View(cholL, n), n, Entries(v), solution, Entries(kStar));
      forall w | SolvesProduct(View(cholL, n), n, w, Entries(kStar))
        ensures variance == Variance(settings, x, n, w, Entries(kStar))
      {
        ReductionIsQuadratic(View(cholL, n), n, Entries(v), w, Entries(kStar));
      }
    }
  }

  function Variance(s: Settings, x: seq<real>, n: nat, w: Vector, k: Vector): real
    requires s.lengthScale != 0.0
  {
    Max(Rbf(s, x, x) + s.noise - Inner(n, w, k), MIN_VARIANCE)
  }

  // ---- What the process computes ----

  /** The kernel at the point with itself plus the noise, less what the observations explain, but never below
      1e-10. */
  lemma VarianceMeaning(s: Settings, x: seq<real>, n: nat, w: Vector, k: Vector)
    requires s.lengthScale != 0.0
    ensures var v, rest := Variance(s, x, n, w, k), s.exp(0.0) + s.noise - Inner(n, w, k);
      v == if rest > 0.0000000001 then rest else 0.0000000001
  {
    NoDistance(x);
    RbfMeaning(s, x, x, 2.0 * s.lengthScale * s.lengthScale, 0.0);
  }

  lemma {:induction false} NoDistance(x: seq<real>)
    ensures SumOfSquares(x, x) == 0.0
  {
    if x != [] {
      NoDistance(x[1..]);
    }
  }

  ghost predicate RowIs(k: Matrix, n: nat, i: nat, v: Vector) {
    forall j: nat | j < n :: v(j) == k(i, j)
  }

  /** How far the mean at an observed point is from the observation. */
  function Misfit(noise: real, lift: real, weight: real): real {
    (noise + lift) * weight
  }

  lemma MeanOfSolution(m: Matrix, g: Matrix, k: Matrix, n: nat, noise: real,
                       kStar: Vector, alpha: Vector, y: Vector, i: nat)
    requires Factor(m, g, n) && Symmetric(g, n) && SolvesProduct(m, n, alpha, y)
    requires i < n && RaisedRow(k, g, n, noise, i) && RowIs(k, n, i, kStar)
    ensures Inner(n, kStar, alpha) == y(i) - Misfit(noise, Lift(m, g, i), alpha(i))
  {
    ProductIsRaised(m, g, n, i);
    RaisedApply(g, Product(m, n), n, Lift(m, g, i), alpha, i);
    RaisedApply(k, g, n, noise, alpha, i);
    InnerEqual(n, kStar, Row(k, i), alpha, alpha);
    TakeOut(alpha(i), noise, Lift(m, g, i));
  }

  lemma KernelRows(s: Settings, xs: seq<seq<real>>, i: nat)
    requires s.lengthScale != 0.0 && i < |xs|
    ensures RaisedRow(Kernel(s, xs), Gram(s, xs), |xs|, s.noise, i)
    ensures RowIs(Kernel(s, xs), |xs|, i, Entries(Against(s, xs, xs[i])))
  {
  }

  /** At an observed point the predicted mean misses the observation by the noise, and by whatever was
      added to its pivot, times its weight. */
  lemma MeanAtObservation(s: Settings, xs: seq<seq<real>>, ys: seq<real>, cholL: seq<real>, alpha: seq<real>, i: nat)
    requires Fitted(s, xs, ys, cholL, alpha) && i < |xs|
    ensures Inner(|xs|, Entries(Against(s, xs, xs[i])), Entries(alpha))
      == ys[i] - Misfit(s.noise, Lift(View(cholL, |xs|), Gram(s, xs), i), alpha[i])
  {
    GramSymmetric(s, xs);
    KernelRows(s, xs, i);
    MeanOfSolution(View(cholL, |xs|), Gram(s, xs), Kernel(s, xs), |xs|, s.noise,
      Entries(Against(s, xs, xs[i])), Entries(alpha), Entries(ys), i);
  }

  lemma NoisyForm(k: Matrix, g: Matrix, n: nat, noise: real, v: Vector)
    requires forall i: nat | i < n :: RaisedRow(k, g, n, noise, i)
    ensures Quadratic(g, n, v) == Quadratic(k, n, v) + noise * Inner(n, v, v)
  {
    var w, w2 := Applied(k, n, v), Applied(g, n, v);
    forall r: nat | r < n ensures AddsScaled(w, noise, v, w2, r) {
      RaisedApply(k, g, n, noise, v, r);
    }
    InnerAddScaled(n, v, w, noise, v, w2);
  }

  lemma Scaled(c: real, x: real)
    requires c >= 0.0 && x >= 1.0
    ensures c * x >= c
  {
  }

  ghost predicate PositiveSemidefinite(k: Matrix, n: nat) {
    forall v: Vector :: Quadratic(k, n, v) >= 0.0
  }

  lemma NoiseMakesDefinite(k: Matrix, g: Matrix, n: nat, noise: real)
    requires noise >= 0.0 && PositiveSemidefinite(k, n) && forall i: nat | i < n :: RaisedRow(k, g, n, noise, i)
    ensures DefiniteBy(g, n, noise)
  {
    forall v: Vector, i: nat | i < n && v(i) == 1.0 ensures Quadratic(g, n, v) >= noise {
      NoisyForm(k, g, n, noise, v);
      InnerSquares(n, v);
      Scaled(noise, Inner(n, v, v));
    }
  }

  /** With a positive semidefinite kernel and noise of at least `MIN_PIVOT` the factor is exact, and no
      observation's diagonal is disturbed. */
  lemma PositiveKernelIsExact(s: Settings, xs: seq<seq<real>>, m: Matrix)
    requires s.lengthScale != 0.0 && s.noise >= MIN_PIVOT
    requires PositiveSemidefinite(Kernel(s, xs), |xs|) && Factor(m, Gram(s, xs), |xs|)
    ensures ProductIs(m, Gram(s, xs), |xs|) && forall i: nat | i < |xs| :: Lift(m, Gram(s, xs), i) == 0.0
  {
    var g, n := Gram(s, xs), |xs|;
    forall i: nat | i < n ensures RaisedRow(Kernel(s, xs), g, n, s.noise, i) {
      KernelRows(s, xs, i);
    }
    NoiseMakesDefinite(Kernel(s, xs), g, n, s.noise);
    GramSymmetric(s, xs);
    DefiniteIsExact(m, g, n);
    forall i: nat | i < n ensures Lift(m, g, i) == 0.0 {
      ExactUnraised(m, g, n, i);
    }
  }
}
