/** Forward and backward substitution with a triangular factor, and the system the two solve together. */
module TriangularSolves {
  import opened Cholesky
  import opened Vectors

  /** `m` times `z` is `b` in its first `k` entries. */
  ghost predicate SolvesRows(m: Matrix, n: nat, z: Vector, b: Vector, k: nat) {
    forall r: nat | r < k :: Apply(m, n, z, r) == b(r)
  }

  /** The transpose of `m` times `x` is `z` from entry `k` on. */
  ghost predicate SolvesColumns(m: Matrix, n: nat, x: Vector, z: Vector, k: nat) {
    forall r: nat | k <= r < n :: ApplyTransposed(m, n, x, r) == z(r)
  }

  ghost predicate ZeroFrom(z: Vector, i: nat) {
    forall t: nat | i <= t :: z(t) == 0.0
  }

  ghost predicate ZeroBelow(x: Vector, i: nat) {
    forall t: nat | t < i :: x(t) == 0.0
  }

  lemma UpdateApply(m: Matrix, n: nat, z: Vector, z2: Vector, i: nat, r: nat)
    requires i < n && AgreeExcept(z, z2, i) && z(i) == 0.0
    ensures Apply(m, n, z2, r) == Apply(m, n, z, r) + m(r, i) * z2(i)
  {
    InnerUpdate(n, Row(m, r), z, z2, i);
  }

  lemma UpdateApplyTransposed(m: Matrix, n: nat, x: Vector, x2: Vector, i: nat, r: nat)
    requires i < n && AgreeExcept(x, x2, i) && x(i) == 0.0
    ensures ApplyTransposed(m, n, x2, r) == ApplyTransposed(m, n, x, r) + m(i, r) * x2(i)
  {
    InnerUpdate(n, Column(m, r), x, x2, i);
  }

  /** The value of unknown `i` that completes row `i` leaves the earlier rows alone. */
  lemma ForwardStep(m: Matrix, n: nat, z: Vector, z2: Vector, b: Vector, i: nat)
    requires Triangular(m, n) && i < n && AgreeExcept(z, z2, i) && ZeroFrom(z, i) && SolvesRows(m, n, z, b, i)
    requires m(i, i) * z2(i) == b(i) - Apply(m, n, z, i)
    ensures SolvesRows(m, n, z2, b, i + 1)
  {
    forall r: nat | r < i + 1 ensures Apply(m, n, z2, r) == b(r) {
      UpdateApply(m, n, z, z2, i, r);
      assert r < i ==> m(r, i) * z2(i) == 0.0;
    }
  }

  lemma BackwardStep(m: Matrix, n: nat, x: Vector, x2: Vector, z: Vector, i: nat)
    requires Triangular(m, n) && i < n && AgreeExcept(x, x2, i) && x(i) == 0.0 && SolvesColumns(m, n, x, z, i + 1)
    requires m(i, i) * x2(i) == z(i) - ApplyTransposed(m, n, x, i)
    ensures SolvesColumns(m, n, x2, z, i)
  {
    forall r: nat | i <= r < n ensures ApplyTransposed(m, n, x2, r) == z(r) {
      UpdateApplyTransposed(m, n, x, x2, i, r);
      assert i < r ==> m(i, r) * x2(i) == 0.0;
    }
  }

  method ForwardSum(l: seq<real>, n: nat, b: real, z: array<real>, i: nat) returns (sum: real)
    requires |l| == n * n && z.Length == n && i < n && ZeroFrom(Entries(z[..]), i)
    ensures sum == b - Apply(View(l, n), n, Entries(z[..]), i)
  {
    sum := b;
    for j := 0 to i
      invariant sum == b - Apply(View(l, n), j, Entries(z[..]), i)
    {
      sum := sum - l[Cell(n, i, j)] * z[j];
    }
    InnerPrefix(i, n, Row(View(l, n), i), Entries(z[..]));
  }

  method BackwardSum(l: seq<real>, n: nat, z: real, x: array<real>, i: nat) returns (sum: real)
    requires |l| == n * n && x.Length == n && i < n && ZeroBelow(Entries(x[..]), i + 1)
    ensures sum == z - ApplyTransposed(View(l, n), n, Entries(x[..]), i)
  {
    InnerPrefix(0, i + 1, Column(View(l, n), i), Entries(x[..]));
    sum := z;
    for j := i + 1 to n
      invariant sum == z - ApplyTransposed(View(l, n), j, Entries(x[..]), i)
    {
      sum := sum - l[Cell(n, j, i)] * x[j];
    }
  }

  /** The solution of L z = b. */
  method ForwardSolve(l: seq<real>, n: nat, b: seq<real>) returns (z: seq<real>)
    requires |l| == n * n && Triangular(View(l, n), n) && |b| >= n
    ensures |z| == n && SolvesRows(View(l, n), n, Entries(z), Entries(b), n)
  {
    var buffer := new real[n](_ => 0.0);
    for i := 0 to n
      invariant ZeroFrom(Entries(buffer[..]), i)
      invariant SolvesRows(View(l, n), n, Entries(buffer[..]), Entries(b), i)
    {
      ghost var before := buffer[..];
      var sum := ForwardSum(l, n, b[i], buffer, i);
      assert View(l, n)(i, i) > 0.0;
      buffer[i] := sum / l[Cell(n, i, i)];
      ForwardStep(View(l, n), n, Entries(before), Entries(buffer[..]), Entries(b), i);
    }
    z := buffer[..];
  }

  /** The solution of the transposed system, from the last unknown to the first. */
  method BackwardSolve(l: seq<real>, n: nat, z: seq<real>) returns (x: seq<real>)
    requires |l| == n * n && Triangular(View(l, n), n) && |z| >= n
    ensures |x| == n && SolvesColumns(View(l, n), n, Entries(x), Entries(z), 0)
  {
    var buffer := new real[n](_ => 0.0);
    for i := n downto 0
      invariant ZeroBelow(Entries(buffer[..]), i)
      invariant SolvesColumns(View(l, n), n, Entries(buffer[..]), Entries(z), i)
    {
      ghost var before := buffer[..];
      var sum := BackwardSum(l, n, z[i], buffer, i);
      assert View(l, n)(i, i) > 0.0;
      buffer[i] := sum / l[Cell(n, i, i)];
      BackwardStep(View(l, n), n, Entries(before), Entries(buffer[..]), Entries(z), i);
    }
    x := buffer[..];
  }

  // ---- The two solves together ----

  /** `x` solves the system whose matrix is the factor times its transpose. */
  ghost predicate SolvesProduct(m: Matrix, n: nat, x: Vector, b: Vector) {
    forall i: nat | i < n :: Apply(Product(m, n), n, x, i) == b(i)
  }

  lemma ComposedRow(m: Matrix, n: nat, z: Vector, x: Vector, i: nat)
    requires SolvesColumns(m, n, x, z, 0)
    ensures Apply(Product(m, n), n, x, i) == Apply(m, n, z, i)
  {
    ApplyProduct(m, n, x, i);
    InnerEqual(n, Row(m, i), Row(m, i), AppliedTransposed(m, n, x), z);
  }

  /** Forward then backward substitution solves the product system. */
  lemma SolvesCompose(m: Matrix, n: nat, z: Vector, x: Vector, b: Vector)
    requires SolvesRows(m, n, z, b, n) && SolvesColumns(m, n, x, z, 0)
    ensures SolvesProduct(m, n, x, b)
  {
    forall i: nat | i < n ensures Apply(Product(m, n), n, x, i) == b(i) {
      ComposedRow(m, n, z, x, i);
    }
  }

  lemma RowEnds(m: Matrix, n: nat, u: Vector, i: nat)
    requires Triangular(m, n) && i < n
    ensures Apply(m, n, u, i) == Apply(m, i, u, i) + m(i, i) * u(i)
  {
    InnerPrefix(i + 1, n, Row(m, i), u);
    assert Inner(i + 1, Row(m, i), u) == Inner(i, Row(m, i), u) + Row(m, i)(i) * u(i);
  }

  /** A triangular system has at most one solution. */
  lemma {:induction false} ForwardUnique(m: Matrix, n: nat, u: Vector, v: Vector, i: nat)
    requires Triangular(m, n) && i < n && forall r: nat | r < n :: Apply(m, n, u, r) == Apply(m, n, v, r)
    ensures u(i) == v(i)
  {
    forall t: nat | t < i ensures u(t) == v(t) {
      ForwardUnique(m, n, u, v, t);
    }
    RowEnds(m, n, u, i);
    RowEnds(m, n, v, i);
    InnerEqual(i, Row(m, i), Row(m, i), u, v);
    SameQuotient(u(i), v(i), m(i, i));
  }

  lemma TransposeThenApply(m: Matrix, n: nat, x: Vector, b: Vector)
    requires SolvesProduct(m, n, x, b)
    ensures SolvesRows(m, n, AppliedTransposed(m, n, x), b, n)
  {
    forall i: nat | i < n ensures Apply(m, n, AppliedTransposed(m, n, x), i) == b(i) {
      ApplyProduct(m, n, x, i);
    }
  }

  /** Whatever solves the product system for `b`, its inner product with `b` is the squared length of
      the forward solution. */
  lemma ReductionIsQuadratic(m: Matrix, n: nat, z: Vector, w: Vector, b: Vector)
    requires Triangular(m, n) && SolvesRows(m, n, z, b, n) && SolvesProduct(m, n, w, b)
    ensures Inner(n, w, b) == Inner(n, z, z)
  {
    var y := AppliedTransposed(m, n, w);
    TransposeThenApply(m, n, w, b);
    forall i: nat | i < n ensures y(i) == z(i) {
      ForwardUnique(m, n, y, z, i);
    }
    InnerTranspose(m, n, n, w, z);
    InnerEqual(n, w, w, b, Applied(m, n, z));
    InnerEqual(n, z, z, y, z);
  }

  /** The transposed system always has a solution. */
  lemma {:induction false} BackwardSolution(m: Matrix, n: nat, z: Vector, i: nat) returns (x: Vector)
    requires Triangular(m, n) && i <= n
    ensures SolvesColumns(m, n, x, z, i) && ZeroBelow(x, i)
    decreases n - i
  {
    if i == n {
      x := t => 0.0;
    } else {
      var x1 := BackwardSolution(m, n, z, i + 1);
      var value := (z(i) - ApplyTransposed(m, n, x1, i)) / m(i, i);
      x := t => if t == i then value else x1(t);
      assert m(i, i) * x(i) == z(i) - ApplyTransposed(m, n, x1, i);
      BackwardStep(m, n, x1, x, z, i);
    }
  }
}
