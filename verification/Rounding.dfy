/** Binary32 arithmetic seen from the reals: a rounding function and one-step outward shifts.
    NaN and infinity do not occur. */
module Rounding {

  /** `rnd` rounds the exact result of an operation; `down` and `up` are `next_down` and `next_up`. */
  datatype Arithmetic = Arithmetic(rnd: real -> real, down: real -> real, up: real -> real)

  predicate Ordered(x: real, y: real) {
    x <= y
  }

  ghost predicate Monotone(f: real -> real) {
    forall x, y {:trigger Ordered(x, y)} | Ordered(x, y) :: f(x) <= f(y)
  }

  /** Rounding errs by less than one step, and steps go outward. */
  ghost predicate Outward(a: Arithmetic) {
    && Monotone(a.rnd) && Monotone(a.down) && Monotone(a.up)
    && (forall x :: a.down(a.rnd(x)) <= x <= a.up(a.rnd(x)))
    && (forall x :: a.down(x) <= x <= a.up(x))
  }

  /** The values a variable can hold. */
  ghost predicate Representable(a: Arithmetic, x: real) {
    a.rnd(x) == x
  }

  /** Rounding yields representable values, and zero is one. */
  ghost predicate RoundsToValues(a: Arithmetic) {
    Representable(a, 0.0) && forall x :: Representable(a, a.rnd(x))
  }

  /** `op` turns an exact result into one inside the outward-shifted rounded result. */
  ghost predicate Within(a: Arithmetic, op: real -> real) {
    forall x :: a.down(a.rnd(x)) <= op(x) <= a.up(a.rnd(x))
  }

  function Identity(): real -> real {
    x => x
  }

  /** Exact arithmetic and rounded arithmetic both qualify. */
  lemma ExactAndRoundedAreWithin(a: Arithmetic)
    requires Outward(a)
    ensures Within(a, Identity()) && Within(a, a.rnd)
  {
  }

  /** `next_down` or `next_up` applied `n` times. */
  function Repeat(f: real -> real, n: nat, x: real): real {
    if n == 0 then x else f(Repeat(f, n - 1, x))
  }

  lemma {:induction false} RepeatMonotone(f: real -> real, n: nat, x: real, y: real)
    requires Monotone(f) && x <= y
    ensures Repeat(f, n, x) <= Repeat(f, n, y)
  {
    if n > 0 {
      RepeatMonotone(f, n - 1, x, y);
      assert Ordered(Repeat(f, n - 1, x), Repeat(f, n - 1, y));
    }
  }

  /** More steps outward never come back in. */
  lemma {:induction false} RepeatWidens(a: Arithmetic, k: nat, n: nat, x: real)
    requires Outward(a) && k <= n
    ensures Repeat(a.down, n, x) <= Repeat(a.down, k, x) && Repeat(a.up, k, x) <= Repeat(a.up, n, x)
  {
    if k < n {
      RepeatWidens(a, k, n - 1, x);
    }
  }

  // ---- One concrete instance: a fixed grid ----

  function Nearest(q: real): int {
    (q + 0.5).Floor
  }

  /** Rounds to the nearest multiple of `step`. */
  function RoundTo(step: real, x: real): real
    requires step > 0.0
  {
    Nearest(x / step) as real * step
  }

  function Grid(step: real): Arithmetic
    requires step > 0.0
  {
    Arithmetic(x => RoundTo(step, x), x => x - step, x => x + step)
  }

  lemma DivideTimes(x: real, s: real)
    requires s > 0.0
    ensures (x / s) * s == x
  {
  }

  lemma Cancel(p: real, q: real, s: real)
    requires s > 0.0 && p * s == q * s
    ensures p == q
  {
  }

  lemma DivideBack(y: real, q: real, s: real)
    requires s > 0.0 && y == q * s
    ensures y / s == q
  {
    DivideTimes(y, s);
    Cancel(y / s, q, s);
  }

  lemma ScaleOrder(w: real, x: real, y: real)
    requires x <= y
    ensures w >= 0.0 ==> w * x <= w * y
    ensures w <= 0.0 ==> w * y <= w * x
  {
  }

  lemma ScaleBounds(a: real, b: real, c: real, s: real)
    requires a <= b <= c && s >= 0.0
    ensures a * s <= b * s <= c * s
  {
  }

  lemma Half(d: real, s: real, y: real)
    requires s > 0.0 && -0.5 <= d <= 0.5 && y == d * s
    ensures -(s / 2.0) <= y <= s / 2.0
  {
    ScaleBounds(-0.5, d, 0.5, s);
  }

  lemma Subtract(f: real, q: real, s: real)
    ensures (f - q) * s == f * s - q * s
  {
  }

  lemma ScaledNear(q: real, f: real, s: real, x: real)
    requires s > 0.0 && q * s == x && q - 0.5 <= f <= q + 0.5
    ensures x - s / 2.0 <= f * s <= x + s / 2.0
  {
    Subtract(f, q, s);
    Half(f - q, s, f * s - x);
  }

  lemma GridRoundNear(step: real, x: real)
    requires step > 0.0
    ensures x - step / 2.0 <= RoundTo(step, x) <= x + step / 2.0
  {
    DivideTimes(x, step);
    ScaledNear(x / step, Nearest(x / step) as real, step, x);
  }

  lemma RoundQuotient(step: real, y: real, q: real)
    requires step > 0.0 && y / step == q
    ensures RoundTo(step, y) == Nearest(q) as real * step
  {
  }

  /** A point between two multiples of the step rounds as its position does. */
  lemma GridPoint(step: real, y: real, q: real)
    requires step > 0.0 && y == q * step
    ensures RoundTo(step, y) == Nearest(q) as real * step
  {
    DivideBack(y, q, step);
    RoundQuotient(step, y, q);
  }

  lemma DivideMonotone(x: real, y: real, s: real)
    requires x <= y && s > 0.0
    ensures x / s <= y / s
  {
    DivideTimes(x, s);
    DivideTimes(y, s);
    Compare(x / s, y / s, s);
  }

  lemma Compare(p: real, q: real, s: real)
    requires s > 0.0
    ensures p <= q <==> p * s <= q * s
  {
    assert (q - p) * s == q * s - p * s;
    if p <= q {
      assert (q - p) * s >= 0.0;
    } else {
      assert (q - p) * s < 0.0;
    }
  }

  lemma RoundMonotone(step: real, x: real, y: real)
    requires step > 0.0 && x <= y
    ensures RoundTo(step, x) <= RoundTo(step, y)
  {
    DivideMonotone(x, y, step);
    var m, n := Nearest(x / step) as real, Nearest(y / step) as real;
    ScaleBounds(m, n, n, step);
  }

  /** The grid meets the hypotheses. */
  lemma GridIsOutward(step: real)
    requires step > 0.0
    ensures Outward(Grid(step))
  {
    var a := Grid(step);
    forall x, y | Ordered(x, y) ensures a.rnd(x) <= a.rnd(y) {
      RoundMonotone(step, x, y);
    }
    forall x ensures a.down(a.rnd(x)) <= x <= a.up(a.rnd(x)) {
      GridRoundNear(step, x);
    }
  }

  lemma GridRoundsToValues(step: real)
    requires step > 0.0
    ensures RoundsToValues(Grid(step))
  {
    var a := Grid(step);
    GridPoint(step, 0.0, 0.0);
    forall x ensures Representable(a, a.rnd(x)) {
      var n := Nearest(x / step);
      GridPoint(step, RoundTo(step, x), n as real);
      assert Nearest(n as real) == n;
    }
  }

  lemma GridInteger(step: real, y: real, n: int)
    requires step > 0.0 && y == n as real * step
    ensures RoundTo(step, y) == y
  {
    GridPoint(step, y, n as real);
    assert Nearest(n as real) == n;
  }

  /** Every number of the grid is a whole number of steps. */
  lemma GridPosition(step: real, y: real) returns (n: int)
    requires step > 0.0 && RoundTo(step, y) == y
    ensures y == n as real * step
  {
    n := Nearest(y / step);
  }

  // ---- Multiples ----

  function Times(n: nat, d: real): real {
    if n == 0 then 0.0 else Times(n - 1, d) + d
  }

  lemma {:induction false} TimesIsProduct(n: nat, d: real)
    ensures Times(n, d) == n as real * d
  {
    if n > 0 {
      TimesIsProduct(n - 1, d);
      assert n as real * d == (n - 1) as real * d + d;
    }
  }

  lemma {:induction false} TimesScales(n: nat, u: real, d: real)
    ensures u * Times(n, d) == Times(n, u * d)
  {
    if n > 0 {
      TimesScales(n - 1, u, d);
      assert u * (Times(n - 1, d) + d) == u * Times(n - 1, d) + u * d;
    }
  }

  lemma {:induction false} TimesSign(n: nat, d: real)
    ensures Times(n, -d) == -Times(n, d) && (d >= 0.0 ==> Times(n, d) >= 0.0)
  {
    if n > 0 {
      TimesSign(n - 1, d);
    }
  }

  /** Enough multiples pass any limit. */
  lemma Outgrows(limit: real, d: real) returns (n: nat)
    requires limit >= 0.0 && d > 0.0
    ensures Times(n, d) > limit
  {
    DivideTimes(limit, d);
    n := (limit / d).Floor + 1;
    Compare(n as real, limit / d, d);
    TimesIsProduct(n, d);
  }
}
