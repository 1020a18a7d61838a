/** Vectors as functions of one index, matrices as functions of two, and their finite inner products. */
module Vectors {
  type Vector = int -> real
  type Matrix = (int, int) -> real

  function Inner(n: nat, u: Vector, v: Vector): real {
    if n == 0 then 0.0 else Inner(n - 1, u, v) + u(n - 1) * v(n - 1)
  }

  function Row(m: Matrix, i: int): Vector {
    t => m(i, t)
  }

  function Column(m: Matrix, j: int): Vector {
    t => m(t, j)
  }

  /** Entry `i` of `m` times `v`. */
  function Apply(m: Matrix, n: nat, v: Vector, i: int): real {
    Inner(n, Row(m, i), v)
  }

  /** Entry `j` of the transpose of `m` times `v`. */
  function ApplyTransposed(m: Matrix, n: nat, v: Vector, j: int): real {
    Inner(n, Column(m, j), v)
  }

  function Applied(m: Matrix, n: nat, v: Vector): Vector {
    i => Apply(m, n, v, i)
  }

  function AppliedTransposed(m: Matrix, n: nat, v: Vector): Vector {
    j => ApplyTransposed(m, n, v, j)
  }

  /** Rows `i` and `j` multiplied over their first `k` columns. */
  function RowProduct(m: Matrix, k: nat, i: int, j: int): real {
    Inner(k, Row(m, i), Row(m, j))
  }

  /** `m` times its transpose. */
  function Product(m: Matrix, n: nat): Matrix {
    (i, j) => RowProduct(m, n, i, j)
  }

  ghost predicate Agree(n: nat, u: Vector, v: Vector) {
    forall t: nat | t < n :: u(t) == v(t)
  }

  // ---- Inner products ----

  lemma {:induction false} InnerEqual(n: nat, u: Vector, u2: Vector, v: Vector, v2: Vector)
    requires Agree(n, u, u2) && Agree(n, v, v2)
    ensures Inner(n, u, v) == Inner(n, u2, v2)
  {
    if n > 0 {
      InnerEqual(n - 1, u, u2, v, v2);
    }
  }

  lemma {:induction false} InnerCommutes(n: nat, u: Vector, v: Vector)
    ensures Inner(n, u, v) == Inner(n, v, u)
  {
    if n > 0 {
      InnerCommutes(n - 1, u, v);
    }
  }

  /** Terms that vanish from `k` on do not contribute. */
  lemma {:induction false} InnerPrefix(k: nat, n: nat, u: Vector, v: Vector)
    requires k <= n && forall t: nat | k <= t < n :: u(t) == 0.0 || v(t) == 0.0
    ensures Inner(n, u, v) == Inner(k, u, v)
  {
    if k < n {
      InnerPrefix(k, n - 1, u, v);
      assert u(n - 1) * v(n - 1) == 0.0;
    }
  }

  lemma ScaleTerm(x: real, w: real, r: real, c: real)
    ensures x * (w + c * r) == x * w + c * (x * r)
  {
  }

  lemma TakeOut(c: real, p: real, q: real)
    ensures c * p + c * q == c * (p + q)
  {
  }

  /** Entry `t` of `w2` is that of `w` plus `c` times that of `r`. */
  ghost predicate AddsScaled(w: Vector, c: real, r: Vector, w2: Vector, t: nat) {
    w2(t) == w(t) + c * r(t)
  }

  /** Adding a multiple of a vector adds that multiple of the product. */
  lemma {:induction false} InnerAddScaled(n: nat, v: Vector, w: Vector, c: real, r: Vector, w2: Vector)
    requires forall t: nat | t < n :: AddsScaled(w, c, r, w2, t)
    ensures Inner(n, v, w2) == Inner(n, v, w) + c * Inner(n, v, r)
  {
    if n > 0 {
      var k := n - 1;
      InnerAddScaled(k, v, w, c, r, w2);
      assert AddsScaled(w, c, r, w2, k);
      ScaleTerm(v(k), w(k), r(k), c);
      TakeOut(c, Inner(k, v, r), v(k) * r(k));
    }
  }

  ghost predicate AgreeExcept(x: Vector, x2: Vector, i: nat) {
    forall t | t != i :: x2(t) == x(t)
  }

  /** Changing one entry changes the product by its term. */
  lemma {:induction false} InnerUpdate(n: nat, u: Vector, v: Vector, v2: Vector, i: nat)
    requires i < n && AgreeExcept(v, v2, i)
    ensures Inner(n, u, v2) == Inner(n, u, v) - u(i) * v(i) + u(i) * v2(i)
  {
    if i == n - 1 {
      InnerEqual(n - 1, u, u, v2, v);
    } else {
      InnerUpdate(n - 1, u, v, v2, i);
    }
  }

  lemma {:induction false} InnerSquares(n: nat, v: Vector)
    ensures Inner(n, v, v) >= 0.0
    ensures forall i: nat | i < n && v(i) == 1.0 :: Inner(n, v, v) >= 1.0
  {
    if n > 0 {
      InnerSquares(n - 1, v);
      SquareNonNegative(v(n - 1));
    }
  }

  lemma SquareNonNegative(x: real)
    ensures x * x >= 0.0
  {
  }

  // ---- Transposes ----

  lemma TransposedStep(m: Matrix, k: nat, u: Vector, j: nat)
    ensures AddsScaled(AppliedTransposed(m, k, u), u(k), Row(m, k), AppliedTransposed(m, k + 1, u), j)
  {
  }

  lemma SameProduct(c: real, p: real, q: real)
    requires p == q
    ensures c * p == c * q
  {
  }

  /** Both sides of `InnerTranspose` grow by the same amount with each row. */
  lemma LastRow(m: Matrix, k: nat, n: nat, u: Vector, v: Vector)
    ensures Inner(n, v, AppliedTransposed(m, k + 1, u)) - Inner(n, v, AppliedTransposed(m, k, u))
      == Inner(k + 1, u, Applied(m, n, v)) - Inner(k, u, Applied(m, n, v))
  {
    var w, w2, r := AppliedTransposed(m, k, u), AppliedTransposed(m, k + 1, u), Row(m, k);
    forall j: nat | j < n ensures AddsScaled(w, u(k), r, w2, j) {
      TransposedStep(m, k, u, j);
    }
    InnerAddScaled(n, v, w, u(k), r, w2);
    InnerCommutes(n, v, r);
    SameProduct(u(k), Inner(n, v, r), Applied(m, n, v)(k));
  }

  /** The transpose moves from one side of an inner product to the other. */
  lemma {:induction false} InnerTranspose(m: Matrix, k: nat, n: nat, u: Vector, v: Vector)
    ensures Inner(k, u, Applied(m, n, v)) == Inner(n, v, AppliedTransposed(m, k, u))
  {
    if k == 0 {
      InnerPrefix(0, n, v, AppliedTransposed(m, 0, u));
    } else {
      InnerTranspose(m, k - 1, n, u, v);
      LastRow(m, k - 1, n, u, v);
    }
  }

  function Transpose(m: Matrix): Matrix {
    (i, j) => m(j, i)
  }

  lemma RowProductSymmetric(m: Matrix, k: nat, i: int, j: int)
    ensures RowProduct(m, k, i, j) == RowProduct(m, k, j, i)
  {
    InnerCommutes(k, Row(m, i), Row(m, j));
  }

  lemma ColumnOfTranspose(m: Matrix, n: nat, v: Vector, t: int)
    ensures Apply(Transpose(m), n, v, t) == ApplyTransposed(m, n, v, t)
  {
    InnerEqual(n, Row(Transpose(m), t), Column(m, t), v, v);
  }

  lemma RowOfProduct(m: Matrix, n: nat, i: int, j: int)
    ensures ApplyTransposed(Transpose(m), n, Row(m, i), j) == Row(Product(m, n), i)(j)
  {
    InnerEqual(n, Column(Transpose(m), j), Row(m, j), Row(m, i), Row(m, i));
    InnerCommutes(n, Row(m, i), Row(m, j));
  }

  /** Applying the transpose and then the matrix is applying their product. */
  lemma ApplyProduct(m: Matrix, n: nat, v: Vector, i: int)
    ensures Apply(m, n, AppliedTransposed(m, n, v), i) == Apply(Product(m, n), n, v, i)
  {
    var p := Transpose(m);
    InnerTranspose(p, n, n, Row(m, i), v);
    forall t: nat | t < n ensures Applied(p, n, v)(t) == AppliedTransposed(m, n, v)(t) {
      ColumnOfTranspose(m, n, v, t);
    }
    InnerEqual(n, Row(m, i), Row(m, i), Applied(p, n, v), AppliedTransposed(m, n, v));
    forall j: nat | j < n ensures AppliedTransposed(p, n, Row(m, i))(j) == Row(Product(m, n), i)(j) {
      RowOfProduct(m, n, i, j);
    }
    InnerEqual(n, v, v, AppliedTransposed(p, n, Row(m, i)), Row(Product(m, n), i));
    InnerCommutes(n, v, Row(Product(m, n), i));
  }
}
