/** When the factorisation raises no pivot: each pivot is the matrix's quadratic form at a vector with a unit entry. */
module Definiteness {
  import opened Cholesky
  import opened Vectors
  import opened TriangularSolves

  function Quadratic(a: Matrix, n: nat, v: Vector): real {
    Inner(n, v, Applied(a, n, v))
  }

  /** The quadratic form is at least `c` wherever some entry is one. */
  ghost predicate DefiniteBy(a: Matrix, n: nat, c: real) {
    forall v: Vector, i: nat | i < n && v(i) == 1.0 :: Quadratic(a, n, v) >= c
  }

  lemma LeadingFactor(m: Matrix, a: Matrix, k: nat, n: nat)
    requires Factor(m, a, n) && k <= n
    ensures Factor(m, a, k)
  {
    forall r: nat, c: nat | r < k && Done(r, c, k, 0) ensures Factored(m, a, r, c) {
      assert Done(r, c, n, 0);
    }
  }

  /** Only row `i` of the last column's system involves the last unknown. */
  lemma ColumnStarts(m: Matrix, i: nat, v: Vector)
    requires Triangular(m, i + 1)
    ensures ApplyTransposed(m, i + 1, v, i) == m(i, i) * v(i)
  {
    InnerPrefix(0, i, Column(m, i), v);
  }

  /** A vector that the transposed factor sends to a multiple of the last unit vector. */
  lemma LastUnit(m: Matrix, i: nat) returns (v: Vector, z: Vector)
    requires Triangular(m, i + 1)
    ensures v(i) == 1.0 && SolvesColumns(m, i + 1, v, z, 0)
    ensures forall t :: z(t) == if t == i then m(i, i) else 0.0
  {
    z := t => if t == i then m(i, i) else 0.0;
    v := BackwardSolution(m, i + 1, z, 0);
    ColumnStarts(m, i, v);
    SameQuotient(v(i), 1.0, m(i, i));
  }

  /** The product's quadratic form at that vector is the squared pivot root. */
  lemma ProductForm(m: Matrix, i: nat, v: Vector, z: Vector)
    requires SolvesColumns(m, i + 1, v, z, 0) && forall t :: z(t) == if t == i then m(i, i) else 0.0
    ensures Inner(i + 1, v, Applied(m, i + 1, z)) == m(i, i) * m(i, i)
  {
    InnerTranspose(m, i + 1, i + 1, v, z);
    InnerEqual(i + 1, z, z, AppliedTransposed(m, i + 1, v), z);
    InnerPrefix(0, i, z, z);
  }

  /** Row `i` of `g` is row `i` of `k` with `c` more on the diagonal. */
  ghost predicate RaisedRow(k: Matrix, g: Matrix, n: nat, c: real, i: nat) {
    forall j: nat | j < n :: g(i, j) == k(i, j) + if i == j then c else 0.0
  }

  lemma RaisedTerm(entry: real, c: real, raised: real, v: real)
    requires raised == entry + c
    ensures v * raised == v * entry + c * v
  {
  }

  /** Applying a row raised on the diagonal adds the multiple of that entry. */
  lemma RaisedApply(k: Matrix, g: Matrix, n: nat, c: real, v: Vector, i: nat)
    requires i < n && RaisedRow(k, g, n, c, i)
    ensures Apply(g, n, v, i) == Apply(k, n, v, i) + c * v(i)
  {
    var row := Row(k, i);
    var raised: Vector := t => if t == i then g(i, i) else row(t);
    RaisedTerm(k(i, i), c, g(i, i), v(i));
    InnerUpdate(n, v, row, raised, i);
    InnerCommutes(n, v, row);
    InnerCommutes(n, v, raised);
    InnerEqual(n, Row(g, i), raised, v, v);
  }

  lemma ProductIsRaised(m: Matrix, a: Matrix, n: nat, r: nat)
    requires Factor(m, a, n) && Symmetric(a, n) && r < n
    ensures RaisedRow(a, Product(m, n), n, Lift(m, a, r), r)
  {
    forall j: nat | j < n ensures Product(m, n)(r, j) == Lifted(m, a, r, j) {
      FactorProduct(m, a, n, r, j);
    }
  }

  /** Entry `r` of the factor times `z` is entry `r` of the lifted matrix times `v`. */
  ghost predicate LiftedAt(m: Matrix, a: Matrix, n: nat, v: Vector, z: Vector, r: nat) {
    Apply(m, n, z, r) == Apply(a, n, v, r) + Lift(m, a, r) * v(r)
  }

  lemma LiftedRow(m: Matrix, a: Matrix, n: nat, v: Vector, z: Vector, r: nat)
    requires Factor(m, a, n) && Symmetric(a, n) && SolvesColumns(m, n, v, z, 0) && r < n
    ensures LiftedAt(m, a, n, v, z, r)
  {
    ProductIsRaised(m, a, n, r);
    RaisedApply(a, Product(m, n), n, Lift(m, a, r), v, r);
    ComposedRow(m, n, z, v, r);
  }

  ghost predicate LiftedRows(m: Matrix, a: Matrix, n: nat, v: Vector, z: Vector) {
    forall r: nat | r < n :: LiftedAt(m, a, n, v, z, r)
  }

  lemma AllLifted(m: Matrix, a: Matrix, n: nat, v: Vector, z: Vector)
    requires Factor(m, a, n) && Symmetric(a, n) && SolvesColumns(m, n, v, z, 0)
    ensures LiftedRows(m, a, n, v, z)
  {
    forall r: nat | r < n ensures LiftedAt(m, a, n, v, z, r) {
      LiftedRow(m, a, n, v, z, r);
    }
  }

  /** No pivot before `i` was raised. */
  ghost predicate UnraisedBefore(m: Matrix, a: Matrix, i: nat) {
    forall k: nat | k < i :: Lift(m, a, k) == 0.0
  }

  lemma UnraisedAgree(m: Matrix, a: Matrix, i: nat, n: nat, v: Vector, z: Vector)
    requires n == i + 1 && v(i) == 1.0 && UnraisedBefore(m, a, i) && LiftedRows(m, a, n, v, z)
    ensures Agree(i, Applied(m, n, z), Applied(a, n, v))
    ensures Applied(m, n, z)(i) == Applied(a, n, v)(i) + Lift(m, a, i)
  {
    forall r: nat | r < i ensures Applied(m, n, z)(r) == Applied(a, n, v)(r) {
      assert LiftedAt(m, a, n, v, z, r);
      assert Lift(m, a, r) * v(r) == 0.0;
    }
    assert LiftedAt(m, a, n, v, z, i);
  }

  /** If only the last pivot was raised, the lifted form exceeds the form by that lift. */
  lemma FormDifference(m: Matrix, a: Matrix, i: nat, n: nat, v: Vector, z: Vector)
    requires n == i + 1 && v(i) == 1.0 && UnraisedBefore(m, a, i) && LiftedRows(m, a, n, v, z)
    ensures Inner(n, v, Applied(m, n, z)) == Quadratic(a, n, v) + Lift(m, a, i)
  {
    UnraisedAgree(m, a, i, n, v, z);
    InnerEqual(i, v, v, Applied(m, n, z), Applied(a, n, v));
  }

  lemma LastPivot(m: Matrix, a: Matrix, n: nat, i: nat) returns (v: Vector)
    requires n == i + 1 && Factor(m, a, n) && Symmetric(a, n) && UnraisedBefore(m, a, i)
    ensures v(i) == 1.0 && Quadratic(a, n, v) == Pivot(m, a, i)
  {
    FactorTriangle(m, a, n);
    var z;
    v, z := LastUnit(m, i);
    AllLifted(m, a, n, v, z);
    FormDifference(m, a, i, n, v, z);
    ProductForm(m, i, v, z);
    RootAndLift(m, a, n, i);
  }

  /** If no earlier pivot was raised, pivot `i` is the quadratic form of the leading block at a vector
      whose entry `i` is one. */
  lemma PivotIsQuadratic(m: Matrix, a: Matrix, n: nat, i: nat) returns (v: Vector)
    requires Factor(m, a, n) && Symmetric(a, n) && i < n && UnraisedBefore(m, a, i)
    ensures v(i) == 1.0 && Quadratic(a, i + 1, v) == Pivot(m, a, i)
  {
    LeadingFactor(m, a, i + 1, n);
    v := LastPivot(m, a, i + 1, i);
  }

  lemma RootAndLift(m: Matrix, a: Matrix, n: nat, i: nat)
    requires Factor(m, a, n) && i < n
    ensures m(i, i) * m(i, i) == Pivot(m, a, i) + Lift(m, a, i)
  {
    FactoredCell(m, a, n, i, i);
  }

  lemma TruncatedRow(a: Matrix, k: nat, n: nat, v: Vector, w: Vector, i: nat)
    requires k <= n && forall t :: w(t) == if t < k then v(t) else 0.0
    ensures Apply(a, n, w, i) == Apply(a, k, v, i)
  {
    InnerPrefix(k, n, Row(a, i), w);
    InnerEqual(k, Row(a, i), Row(a, i), w, v);
  }

  lemma Truncate(a: Matrix, k: nat, n: nat, v: Vector, w: Vector)
    requires k <= n && forall t :: w(t) == if t < k then v(t) else 0.0
    ensures Quadratic(a, n, w) == Quadratic(a, k, v)
  {
    InnerPrefix(k, n, w, Applied(a, n, w));
    forall i: nat | i < k ensures Applied(a, n, w)(i) == Applied(a, k, v)(i) {
      TruncatedRow(a, k, n, v, w, i);
    }
    InnerEqual(k, w, v, Applied(a, n, w), Applied(a, k, v));
  }

  lemma LeadingForm(a: Matrix, k: nat, n: nat, v: Vector, i: nat, c: real)
    requires i < k <= n && v(i) == 1.0 && DefiniteBy(a, n, c)
    ensures Quadratic(a, k, v) >= c
  {
    var w: Vector := t => if t < k then v(t) else 0.0;
    Truncate(a, k, n, v, w);
    assert w(i) == 1.0;
  }

  /** The quadratic form of each leading block is at least `c` wherever its last entry is one. */
  ghost predicate LeadingBy(a: Matrix, n: nat, c: real) {
    forall v: Vector, i: nat | i < n && v(i) == 1.0 :: Quadratic(a, i + 1, v) >= c
  }

  lemma {:induction false} NoPivotRaised(m: Matrix, a: Matrix, n: nat, i: nat)
    requires Factor(m, a, n) && Symmetric(a, n) && LeadingBy(a, n, MIN_PIVOT) && i < n
    ensures Lift(m, a, i) == 0.0
  {
    forall k: nat | k < i ensures Lift(m, a, k) == 0.0 {
      NoPivotRaised(m, a, n, k);
    }
    var v := PivotIsQuadratic(m, a, n, i);
    assert Quadratic(a, i + 1, v) >= MIN_PIVOT;
  }

  lemma ExactUnraised(m: Matrix, a: Matrix, n: nat, i: nat)
    requires Factor(m, a, n) && Symmetric(a, n) && ProductIs(m, a, n) && i < n
    ensures Lift(m, a, i) == 0.0
  {
    FactorProduct(m, a, n, i, i);
  }

  lemma FormOfFactor(m: Matrix, a: Matrix, k: nat, v: Vector)
    requires Factor(m, a, k) && Symmetric(a, k) && UnraisedBefore(m, a, k)
    ensures var z := AppliedTransposed(m, k, v); Quadratic(a, k, v) == Inner(k, z, z)
  {
    var z := AppliedTransposed(m, k, v);
    AllLifted(m, a, k, v, z);
    forall r: nat | r < k ensures Applied(m, k, z)(r) == Applied(a, k, v)(r) {
      assert LiftedAt(m, a, k, v, z, r);
      assert Lift(m, a, r) * v(r) == 0.0;
    }
    InnerEqual(k, v, v, Applied(m, k, z), Applied(a, k, v));
    InnerTranspose(m, k, k, v, z);
  }

  /** Exactly factored, a leading block's form is at least the last squared diagonal entry. */
  lemma ExactLeadingForm(m: Matrix, a: Matrix, n: nat, v: Vector, i: nat)
    requires Factor(m, a, n) && Symmetric(a, n) && ProductIs(m, a, n) && i < n && v(i) == 1.0
    ensures Quadratic(a, i + 1, v) >= MIN_PIVOT
  {
    forall k: nat | k < i + 1 ensures Lift(m, a, k) == 0.0 {
      ExactUnraised(m, a, n, k);
    }
    LeadingFactor(m, a, i + 1, n);
    FactorTriangle(m, a, i + 1);
    FormOfFactor(m, a, i + 1, v);
    var z := AppliedTransposed(m, i + 1, v);
    ColumnStarts(m, i, v);
    InnerSquares(i, z);
    FactoredCell(m, a, n, i, i);
  }

  /** A symmetric matrix is factored exactly if and only if each leading block's quadratic form keeps
      `MIN_PIVOT` clear of zero where its last entry is one. */
  lemma ExactIffLeading(m: Matrix, a: Matrix, n: nat)
    requires Factor(m, a, n) && Symmetric(a, n)
    ensures ProductIs(m, a, n) <==> LeadingBy(a, n, MIN_PIVOT)
  {
    if LeadingBy(a, n, MIN_PIVOT) {
      forall i: nat, j: nat | i < n && j < n ensures RowProduct(m, n, i, j) == a(i, j) {
        FactorProduct(m, a, n, i, j);
        NoPivotRaised(m, a, n, i);
      }
    }
    if ProductIs(m, a, n) {
      forall v: Vector, i: nat | i < n && v(i) == 1.0 ensures Quadratic(a, i + 1, v) >= MIN_PIVOT {
        ExactLeadingForm(m, a, n, v, i);
      }
    }
  }

  /** In particular one whose whole form keeps clear of zero. */
  lemma DefiniteIsExact(m: Matrix, a: Matrix, n: nat)
    requires Factor(m, a, n) && Symmetric(a, n) && DefiniteBy(a, n, MIN_PIVOT)
    ensures ProductIs(m, a, n)
  {
    forall v: Vector, i: nat | i < n && v(i) == 1.0 ensures Quadratic(a, i + 1, v) >= MIN_PIVOT {
      LeadingForm(a, i + 1, n, v, i, MIN_PIVOT);
    }
    ExactIffLeading(m, a, n);
  }
}
