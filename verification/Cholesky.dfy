/** The Cholesky factorisation behind the autotuner's Gaussian process. Matrices are stored row-major in
    flat buffers, as `View` reads them; arithmetic is over the reals. */
module Cholesky {
  import opened Vectors

  /** The smallest pivot the factorisation takes a square root of. */
  const MIN_PIVOT: real := 0.000000000000001

  function Max(x: real, y: real): real {
    if x >= y then x else y
  }

  ghost predicate IsSqrt(sqrt: real -> real) {
    forall x: real | x >= 0.0 :: sqrt(x) >= 0.0 && sqrt(x) * sqrt(x) == x
  }

  // ---- Flat storage ----

  function Cell(n: nat, i: nat, j: nat): (k: nat)
    requires i < n && j < n
    ensures k < n * n
  {
    CellInRange(n, i);
    i * n + j
  }

  lemma CellInRange(n: nat, i: nat)
    requires i < n
    ensures i * n + n <= n * n
  {
    assert (i + 1) * n <= n * n;
  }

  lemma CellsDiffer(n: nat, i: nat, j: nat, r: nat, c: nat)
    requires i < n && j < n && r < n && c < n && (i != r || j != c)
    ensures Cell(n, i, j) != Cell(n, r, c)
  {
    if i < r {
      assert (i + 1) * n <= r * n;
    } else if r < i {
      assert (r + 1) * n <= i * n;
    }
  }

  function View(l: seq<real>, n: nat): Matrix
    requires |l| == n * n
  {
    (i: int, j: int) => if 0 <= i < n && 0 <= j < n then l[Cell(n, i, j)] else 0.0
  }

  function Entries(v: seq<real>): Vector {
    (i: int) => if 0 <= i < |v| then v[i] else 0.0
  }

  lemma ViewUpdate(l: seq<real>, n: nat, i: nat, j: nat, x: real)
    requires |l| == n * n && i < n && j < n
    ensures var m, m2 := View(l, n), View(l[Cell(n, i, j) := x], n);
      && m2(i, j) == x
      && AgreeExceptAt(m, m2, i, j)
  {
    forall r: nat, c: nat | r < n && c < n && (r != i || c != j) ensures Cell(n, i, j) != Cell(n, r, c) {
      CellsDiffer(n, i, j, r, c);
    }
  }

  // ---- What a factor is ----

  /** The part of diagonal entry `i` that the earlier columns leave over. */
  function Pivot(m: Matrix, a: Matrix, i: nat): real {
    a(i, i) - RowProduct(m, i, i, i)
  }

  ghost predicate Factored(m: Matrix, a: Matrix, r: nat, c: nat) {
    if r == c then m(r, r) > 0.0 && m(r, r) * m(r, r) == Max(Pivot(m, a, r), MIN_PIVOT)
    else m(c, c) * m(r, c) == a(r, c) - RowProduct(m, c, r, c)
  }

  ghost predicate Done(r: nat, c: nat, i: nat, j: nat) {
    c <= r && (r < i || (r == i && c < j))
  }

  /** Cells before (i, j), row by row in the lower triangle, are factored; all others are still zero. */
  ghost predicate Progress(m: Matrix, a: Matrix, n: nat, i: nat, j: nat) {
    && (forall r: nat, c: nat {:trigger Done(r, c, i, j)} | r < n && Done(r, c, i, j) :: Factored(m, a, r, c))
    && (forall r: nat, c: nat | r < n && c < n && (r < c || i < r || (r == i && j <= c)) :: m(r, c) == 0.0)
  }

  lemma RowProductAgrees(m: Matrix, m2: Matrix, k: nat, r: nat, c: nat)
    requires forall t: nat | t < k :: m2(r, t) == m(r, t) && m2(c, t) == m(c, t)
    ensures RowProduct(m2, k, r, c) == RowProduct(m, k, r, c)
  {
    InnerEqual(k, Row(m2, r), Row(m, r), Row(m2, c), Row(m, c));
  }

  ghost predicate AgreeExceptAt(m: Matrix, m2: Matrix, i: nat, j: nat) {
    forall r, c | r != i || c != j :: m2(r, c) == m(r, c)
  }

  lemma StaysFactored(m: Matrix, m2: Matrix, a: Matrix, i: nat, j: nat, r: nat, c: nat)
    requires j <= i && Done(r, c, i, j) && AgreeExceptAt(m, m2, i, j) && Factored(m, a, r, c)
    ensures Factored(m2, a, r, c)
  {
    RowProductAgrees(m, m2, c, r, c);
  }

  lemma Extend(m: Matrix, m2: Matrix, a: Matrix, n: nat, i: nat, j: nat)
    requires j <= i < n && Progress(m, a, n, i, j) && AgreeExceptAt(m, m2, i, j) && Factored(m2, a, i, j)
    ensures Progress(m2, a, n, i, j + 1)
  {
    forall r: nat, c: nat | r < n && Done(r, c, i, j + 1) ensures Factored(m2, a, r, c) {
      if r != i || c != j {
        assert Done(r, c, i, j);
        StaysFactored(m, m2, a, i, j, r, c);
      }
    }
  }

  lemma NextRow(m: Matrix, a: Matrix, n: nat, i: nat)
    requires i < n && Progress(m, a, n, i, i + 1)
    ensures Progress(m, a, n, i + 1, 0)
  {
    forall r: nat, c: nat | r < n && Done(r, c, i + 1, 0) ensures Factored(m, a, r, c) {
      assert Done(r, c, i, i + 1);
    }
  }

  /** Row by row: subtract the products of the earlier columns, then divide by the pivot's root, or
      take the root of the pivot itself, raised to at least `MIN_PIVOT`. */
  method Factorise(a: seq<real>, n: nat, sqrt: real -> real) returns (l: seq<real>)
    requires |a| == n * n && IsSqrt(sqrt)
    ensures |l| == n * n && Progress(View(l, n), View(a, n), n, n, 0)
  {
    var buffer := new real[n * n](_ => 0.0);
    NothingDone(View(buffer[..], n), View(a, n), n);
    for i := 0 to n
      invariant Progress(View(buffer[..], n), View(a, n), n, i, 0)
    {
      FactoriseRow(buffer, a, n, i, sqrt);
    }
    l := buffer[..];
  }

  lemma NothingDone(m: Matrix, a: Matrix, n: nat)
    requires forall r: nat, c: nat | r < n && c < n :: m(r, c) == 0.0
    ensures Progress(m, a, n, 0, 0)
  {
  }

  method FactoriseRow(buffer: array<real>, a: seq<real>, n: nat, i: nat, sqrt: real -> real)
    requires buffer.Length == |a| == n * n && IsSqrt(sqrt) && i < n
    requires Progress(View(buffer[..], n), View(a, n), n, i, 0)
    modifies buffer
    ensures Progress(View(buffer[..], n), View(a, n), n, i + 1, 0)
  {
    for j := 0 to i + 1
      invariant Progress(View(buffer[..], n), View(a, n), n, i, j)
    {
      FactoriseCell(buffer, a, n, i, j, sqrt);
    }
    NextRow(View(buffer[..], n), View(a, n), n, i);
  }

  /** A value that, written to (i, j), factors that cell. */
  ghost predicate Fits(x: real, m: Matrix, a: Matrix, i: nat, j: nat) {
    var rest := a(i, j) - RowProduct(m, j, i, j);
    if i == j then x > 0.0 && x * x == Max(rest, MIN_PIVOT) else m(j, j) * x == rest
  }

  lemma FitsFactors(m: Matrix, m2: Matrix, a: Matrix, i: nat, j: nat)
    requires j <= i && AgreeExceptAt(m, m2, i, j) && Fits(m2(i, j), m, a, i, j)
    ensures Factored(m2, a, i, j)
  {
    RowProductAgrees(m, m2, j, i, j);
  }

  method FactoriseCell(buffer: array<real>, a: seq<real>, n: nat, i: nat, j: nat, sqrt: real -> real)
    requires buffer.Length == |a| == n * n && IsSqrt(sqrt) && j <= i < n
    requires Progress(View(buffer[..], n), View(a, n), n, i, j)
    modifies buffer
    ensures Progress(View(buffer[..], n), View(a, n), n, i, j + 1)
  {
    ghost var l := buffer[..];
    assert j < i ==> Done(j, j, i, j);
    var x := CellValue(buffer, a, n, i, j, sqrt);
    buffer[Cell(n, i, j)] := x;
    assert buffer[..] == l[Cell(n, i, j) := x];
    ViewUpdate(l, n, i, j, x);
    FitsFactors(View(l, n), View(buffer[..], n), View(a, n), i, j);
    Extend(View(l, n), View(buffer[..], n), View(a, n), n, i, j);
  }

  /** Entry (i, j) less the products of the columns before `j`. */
  method Residual(buffer: array<real>, a: seq<real>, n: nat, i: nat, j: nat) returns (sum: real)
    requires buffer.Length == |a| == n * n && i < n && j < n
    ensures sum == View(a, n)(i, j) - RowProduct(View(buffer[..], n), j, i, j)
  {
    sum := a[Cell(n, i, j)];
    for k := 0 to j
      invariant sum == View(a, n)(i, j) - RowProduct(View(buffer[..], n), k, i, j)
    {
      sum := sum - buffer[Cell(n, i, k)] * buffer[Cell(n, j, k)];
    }
  }

  lemma PositiveRoot(sqrt: real -> real, x: real)
    requires IsSqrt(sqrt) && x > 0.0
    ensures sqrt(x) > 0.0 && sqrt(x) * sqrt(x) == x
  {
  }

  method CellValue(buffer: array<real>, a: seq<real>, n: nat, i: nat, j: nat, sqrt: real -> real) returns (x: real)
    requires buffer.Length == |a| == n * n && IsSqrt(sqrt) && j <= i < n
    requires j < i ==> View(buffer[..], n)(j, j) > 0.0
    ensures Fits(x, View(buffer[..], n), View(a, n), i, j)
  {
    var sum := Residual(buffer, a, n, i, j);
    if i == j {
      PositiveRoot(sqrt, Max(sum, MIN_PIVOT));
      x := sqrt(Max(sum, MIN_PIVOT));
    } else {
      var pivot := buffer[Cell(n, j, j)];
      x := sum / pivot;
      assert pivot * x == sum;
    }
  }

  // ---- The factor's product ----

  ghost predicate Factor(m: Matrix, a: Matrix, n: nat) {
    Progress(m, a, n, n, 0)
  }

  /** What raising pivot `i` to `MIN_PIVOT` adds to diagonal entry `i`. */
  function Lift(m: Matrix, a: Matrix, i: nat): real {
    Max(0.0, MIN_PIVOT - Pivot(m, a, i))
  }

  ghost predicate Symmetric(a: Matrix, n: nat) {
    forall i: nat, j: nat | i < n && j < n :: a(i, j) == a(j, i)
  }

  /** `a` with the raised pivots on its diagonal. */
  function Lifted(m: Matrix, a: Matrix, i: nat, j: nat): real {
    a(i, j) + if i == j then Lift(m, a, i) else 0.0
  }

  lemma FactoredCell(m: Matrix, a: Matrix, n: nat, i: nat, j: nat)
    requires Factor(m, a, n) && j <= i < n
    ensures Factored(m, a, i, j)
  {
    assert Done(i, j, n, 0);
  }

  lemma FactorTriangle(m: Matrix, a: Matrix, n: nat)
    requires Factor(m, a, n)
    ensures Triangular(m, n)
  {
    forall i: nat | i < n ensures m(i, i) > 0.0 {
      FactoredCell(m, a, n, i, i);
    }
  }

  /** Zero above the diagonal and positive on it. */
  ghost predicate Triangular(m: Matrix, n: nat) {
    && (forall i: nat, j: nat | i < j < n :: m(i, j) == 0.0)
    && (forall i: nat | i < n :: m(i, i) > 0.0)
  }

  lemma TriangularProduct(m: Matrix, n: nat, i: nat, j: nat)
    requires Triangular(m, n) && j <= i < n
    ensures RowProduct(m, n, i, j) == RowProduct(m, j, i, j) + m(i, j) * m(j, j)
  {
    InnerPrefix(j + 1, n, Row(m, i), Row(m, j));
  }

  lemma LowerProduct(m: Matrix, a: Matrix, n: nat, i: nat, j: nat)
    requires Triangular(m, n) && j <= i < n && Factored(m, a, i, j)
    ensures RowProduct(m, n, i, j) == Lifted(m, a, i, j)
  {
    TriangularProduct(m, n, i, j);
  }

  /** For every symmetric input, the factor times its transpose is the input with each too small
      pivot's shortfall added to the diagonal. */
  lemma FactorProduct(m: Matrix, a: Matrix, n: nat, i: nat, j: nat)
    requires Factor(m, a, n) && Symmetric(a, n) && i < n && j < n
    ensures RowProduct(m, n, i, j) == Lifted(m, a, i, j)
  {
    FactorTriangle(m, a, n);
    var r, c := if j <= i then i else j, if j <= i then j else i;
    FactoredCell(m, a, n, r, c);
    LowerProduct(m, a, n, r, c);
    RowProductSymmetric(m, n, i, j);
  }

  // ---- Exactness ----

  ghost predicate ProductIs(p: Matrix, a: Matrix, n: nat) {
    forall i: nat, j: nat | i < n && j < n :: RowProduct(p, n, i, j) == a(i, j)
  }

  /** A factorisation of `a` whose pivots are all at least `MIN_PIVOT`. */
  ghost predicate WellPivoted(p: Matrix, a: Matrix, n: nat) {
    && Triangular(p, n) && ProductIs(p, a, n)
    && forall i: nat {:trigger LargeEnough(p, i)} | i < n :: LargeEnough(p, i)
  }

  ghost predicate LargeEnough(p: Matrix, i: nat) {
    p(i, i) * p(i, i) >= MIN_PIVOT
  }

  lemma SameRoot(x: real, y: real)
    requires x > 0.0 && y > 0.0 && x * x == y * y
    ensures x == y
  {
    assert (x - y) * (x + y) == 0.0;
  }

  lemma SameQuotient(x: real, y: real, d: real)
    requires d > 0.0 && d * x == d * y
    ensures x == y
  {
  }

  lemma SameStep(m: Matrix, p: Matrix, a: Matrix, n: nat, i: nat, j: nat)
    requires j <= i < n && Triangular(p, n) && Factored(m, a, i, j)
    requires RowProduct(p, n, i, j) == a(i, j) && RowProduct(m, j, i, j) == RowProduct(p, j, i, j)
    requires if i == j then LargeEnough(p, i) else m(j, j) == p(j, j)
    ensures m(i, j) == p(i, j)
  {
    TriangularProduct(p, n, i, j);
    if i == j {
      SameRoot(m(i, i), p(i, i));
    } else {
      SameQuotient(m(i, j), p(i, j), m(j, j));
    }
  }

  lemma {:induction false} SameCell(m: Matrix, p: Matrix, a: Matrix, n: nat, i: nat, j: nat)
    requires Factor(m, a, n) && WellPivoted(p, a, n) && j <= i < n
    ensures m(i, j) == p(i, j)
    decreases i, j
  {
    FactoredCell(m, a, n, i, j);
    forall t: nat | t < j ensures m(i, t) == p(i, t) && m(j, t) == p(j, t) {
      SameCell(m, p, a, n, i, t);
      SameCell(m, p, a, n, j, t);
    }
    RowProductAgrees(p, m, j, i, j);
    if j < i {
      SameCell(m, p, a, n, j, j);
    }
    assert LargeEnough(p, i);
    SameStep(m, p, a, n, i, j);
  }

  /** The factor of the zero matrix does not reproduce it. */
  lemma ZeroIsLifted(m: Matrix, a: Matrix)
    requires a(0, 0) == 0.0 && Factor(m, a, 1)
    ensures RowProduct(m, 1, 0, 0) == 0.000000000000001 && !ProductIs(m, a, 1)
  {
    FactorProduct(m, a, 1, 0, 0);
  }

  /** The computed factor reproduces `a` exactly if and only if `a` has a factorisation whose pivots
      reach `MIN_PIVOT`, and then the computed factor is that factorisation. */
  lemma ExactIffWellPivoted(m: Matrix, a: Matrix, n: nat)
    requires Factor(m, a, n) && Symmetric(a, n)
    ensures ProductIs(m, a, n) <==> exists p :: WellPivoted(p, a, n)
    ensures forall p | WellPivoted(p, a, n) :: forall i: nat, j: nat | i < n && j < n :: m(i, j) == p(i, j)
  {
    FactorTriangle(m, a, n);
    if ProductIs(m, a, n) {
      forall i: nat | i < n ensures LargeEnough(m, i) {
        FactoredCell(m, a, n, i, i);
      }
      assert WellPivoted(m, a, n);
    }
    forall p, i: nat, j: nat | WellPivoted(p, a, n) && i < n && j < n ensures m(i, j) == p(i, j) {
      if j <= i {
        SameCell(m, p, a, n, i, j);
      }
    }
    forall p | WellPivoted(p, a, n) ensures ProductIs(m, a, n) {
      forall i: nat, j: nat | i < n && j < n ensures RowProduct(m, n, i, j) == a(i, j) {
        RowProductAgrees(p, m, n, i, j);
      }
    }
  }
}
