/** Sums over the values of a map, and unsigned 64-bit arithmetic. */
module MapSums {
  const WORD: int := 0x1_0000_0000_0000_0000
  const MAX_WORD: int := WORD - 1

  type Word = x: int | 0 <= x < WORD

  function Wrap(x: int): Word {
    x % WORD
  }

  function Saturate(x: nat): Word {
    if x <= MAX_WORD then x else MAX_WORD
  }

  function SaturatingAdd(x: Word, y: Word): Word {
    if x as int + y as int <= MAX_WORD then x as int + y as int else MAX_WORD
  }

  /** Saturating at every step is saturating once, at the end. */
  lemma SaturateStep(total: nat, y: Word)
    ensures SaturatingAdd(Saturate(total), y) == Saturate(total + y as int)
  {
  }

  lemma WrapAdd(x: int, y: int)
    ensures Wrap(Wrap(x) as int + y) == Wrap(x + y)
  {
    var q := x / WORD;
    assert x == q * WORD + x % WORD;
    ModShift(x % WORD + y, q);
  }

  /** Congruent amounts have congruent differences. */
  lemma WrapSub(a: int, b: int, c: int, d: int)
    requires Wrap(a) == Wrap(b) && Wrap(c) == Wrap(d)
    ensures Wrap(a - c) == Wrap(b - d)
  {
    WrapAdd(a, -c);
    WrapAdd(b, -c);
    var q := c / WORD - d / WORD;
    assert b - d == b - c + q * WORD;
    ModShift(b - c, q);
  }

  lemma ModShift(x: int, q: int)
    ensures (x + q * WORD) % WORD == x % WORD
  {
    var r := x / WORD;
    assert x + q * WORD == (r + q) * WORD + x % WORD;
    Euclid(x + q * WORD, r + q, x % WORD);
  }

  lemma Euclid(x: int, q: int, r: int)
    requires 0 <= r < WORD && x == q * WORD + r
    ensures x % WORD == r
  {
  }

  /** The sum of `f` over a map's values, in whatever order. */
  ghost function MapSum<K, V>(m: map<K, V>, f: V -> int): int
    decreases |m|
  {
    if m == map[] then 0
    else
      var k :| k in m;
      f(m[k]) + MapSum(m - {k}, f)
  }

  lemma {:induction false} MapSumRemove<K, V>(m: map<K, V>, f: V -> int, k: K)
    requires k in m
    ensures MapSum(m, f) == f(m[k]) + MapSum(m - {k}, f)
    decreases |m|
  {
    var j :| j in m && MapSum(m, f) == f(m[j]) + MapSum(m - {j}, f);
    if j != k {
      MapSumRemove(m - {j}, f, k);
      MapSumRemove(m - {k}, f, j);
      assert m - {j} - {k} == m - {k} - {j};
    }
  }

  lemma MapSumInsert<K, V>(m: map<K, V>, f: V -> int, k: K, v: V)
    ensures MapSum(m[k := v], f) == f(v) + MapSum(m - {k}, f)
    ensures k in m ==> MapSum(m[k := v], f) == MapSum(m, f) - f(m[k]) + f(v)
    ensures k !in m ==> MapSum(m[k := v], f) == MapSum(m, f) + f(v)
  {
    MapSumRemove(m[k := v], f, k);
    assert m[k := v] - {k} == m - {k};
    if k in m {
      MapSumRemove(m, f, k);
    } else {
      assert m - {k} == m;
    }
  }

  lemma {:induction false} MapSumDifference<K, V>(m: map<K, V>, f: V -> int, g: V -> int, h: V -> int)
    requires forall k | k in m :: h(m[k]) == f(m[k]) - g(m[k])
    ensures MapSum(m, h) == MapSum(m, f) - MapSum(m, g)
    decreases |m|
  {
    if m != map[] {
      var k :| k in m;
      MapSumRemove(m, f, k);
      MapSumRemove(m, g, k);
      MapSumRemove(m, h, k);
      MapSumDifference(m - {k}, f, g, h);
    }
  }

  lemma {:induction false} MapSumNonNegative<K, V>(m: map<K, V>, f: V -> int)
    requires forall k | k in m :: f(m[k]) >= 0
    ensures MapSum(m, f) >= 0
    decreases |m|
  {
    if m != map[] {
      var k :| k in m;
      MapSumRemove(m, f, k);
      MapSumNonNegative(m - {k}, f);
    }
  }
}
