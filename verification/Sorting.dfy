/** Stable sorting, as `Vec::sort_by` promises it, and the facts the other modules need about it. */
module Sorting {

  /** `le(a, b)` reads "the comparator does not put a after b". */
  ghost predicate TotalPreorder<T(!new)>(le: (T, T) -> bool) {
    && (forall x, y :: le(x, y) || le(y, x))
    && (forall x, y, z :: le(x, y) && le(y, z) ==> le(x, z))
  }

  ghost predicate SortedBy<T>(s: seq<T>, le: (T, T) -> bool) {
    forall i, j | 0 <= i < j < |s| :: le(s[i], s[j])
  }

  lemma MultisetMembers<T>(a: seq<T>, b: seq<T>)
    requires multiset(a) == multiset(b)
    ensures forall x :: x in a <==> x in b
    ensures |a| == |b|
  {
    assert forall x :: x in a <==> x in multiset(a);
    assert forall x :: x in b <==> x in multiset(b);
    assert |multiset(a)| == |a| && |multiset(b)| == |b|;
  }

  function Insert<T>(x: T, s: seq<T>, le: (T, T) -> bool): (r: seq<T>)
    ensures |r| == |s| + 1
    ensures multiset(r) == multiset([x] + s)
  {
    if s == [] then [x]
    else if le(x, s[0]) then [x] + s
    else
      assert s == [s[0]] + s[1..];
      [s[0]] + Insert(x, s[1..], le)
  }

  /** The sorted permutation of `s`; equal elements keep their order. */
  function Sort<T>(s: seq<T>, le: (T, T) -> bool): (r: seq<T>)
    ensures multiset(r) == multiset(s)
  {
    if s == [] then []
    else
      assert s == [s[0]] + s[1..];
      Insert(s[0], Sort(s[1..], le), le)
  }

  /** The element inserted in front of a sorted list never comes before a lower bound of both. */
  lemma {:induction false} InsertKeepsLowerBound<T>(b: T, x: T, s: seq<T>, le: (T, T) -> bool)
    requires le(b, x)
    requires forall j | 0 <= j < |s| :: le(b, s[j])
    ensures forall j | 0 <= j < |s| + 1 :: le(b, Insert(x, s, le)[j])
  {
    if s != [] && !le(x, s[0]) {
      InsertKeepsLowerBound(b, x, s[1..], le);
    }
  }

  lemma {:induction false} InsertSorted<T(!new)>(x: T, s: seq<T>, le: (T, T) -> bool)
    requires TotalPreorder(le)
    requires SortedBy(s, le)
    ensures SortedBy(Insert(x, s, le), le)
  {
    if s == [] || le(x, s[0]) {
      forall j | 0 <= j < |s| ensures le(x, s[j]) {
        assert j == 0 || le(s[0], s[j]);
      }
    } else {
      InsertSorted(x, s[1..], le);
      InsertKeepsLowerBound(s[0], x, s[1..], le);
    }
  }

  lemma {:induction false} SortIsSorted<T(!new)>(s: seq<T>, le: (T, T) -> bool)
    requires TotalPreorder(le)
    ensures SortedBy(Sort(s, le), le)
  {
    if s != [] {
      SortIsSorted(s[1..], le);
      InsertSorted(s[0], Sort(s[1..], le), le);
    }
  }

  /** In order, and by `before` where the comparator does not separate them. */
  predicate Stably<T>(x: T, y: T, le: (T, T) -> bool, before: (T, T) -> bool) {
    le(x, y) && (le(y, x) ==> before(x, y))
  }

  ghost predicate SortedStably<T>(s: seq<T>, le: (T, T) -> bool, before: (T, T) -> bool) {
    forall i, j | 0 <= i < j < |s| :: Stably(s[i], s[j], le, before)
  }

  lemma PrependStably<T>(x: T, s: seq<T>, le: (T, T) -> bool, before: (T, T) -> bool)
    requires SortedStably(s, le, before) && forall y | y in s :: Stably(x, y, le, before)
    ensures SortedStably([x] + s, le, before)
  {
  }

  lemma {:induction false} InsertStably<T(!new)>(x: T, s: seq<T>, le: (T, T) -> bool, before: (T, T) -> bool)
    requires TotalPreorder(le) && SortedStably(s, le, before)
    requires forall y | y in s :: before(x, y)
    ensures SortedStably(Insert(x, s, le), le, before)
  {
    if s == [] {
    } else if le(x, s[0]) {
      forall y | y in s ensures Stably(x, y, le, before) {
        var k :| 0 <= k < |s| && s[k] == y;
        assert k == 0 || Stably(s[0], s[k], le, before);
      }
      PrependStably(x, s, le, before);
    } else {
      var rest := Insert(x, s[1..], le);
      InsertStably(x, s[1..], le, before);
      MultisetMembers(rest, [x] + s[1..]);
      forall y | y in rest ensures Stably(s[0], y, le, before) {
        if y != x {
          var k :| 1 <= k < |s| && s[k] == y;
          assert Stably(s[0], s[k], le, before);
        }
      }
      PrependStably(s[0], rest, le, before);
    }
  }

  /** Elements given in the order `before` keep it where the comparator does not separate them. */
  lemma {:induction false} SortIsStable<T(!new)>(s: seq<T>, le: (T, T) -> bool, before: (T, T) -> bool)
    requires TotalPreorder(le)
    requires forall i, j | 0 <= i < j < |s| :: before(s[i], s[j])
    ensures SortedStably(Sort(s, le), le, before)
  {
    if s != [] {
      SortIsStable(s[1..], le, before);
      SortMembers(s[1..], le);
      forall y | y in Sort(s[1..], le) ensures before(s[0], y) {
        assert y in s[1..];
      }
      InsertStably(s[0], Sort(s[1..], le), le, before);
    }
  }

  lemma SortMembers<T>(s: seq<T>, le: (T, T) -> bool)
    ensures forall x :: x in Sort(s, le) <==> x in s
    ensures |Sort(s, le)| == |s|
  {
    MultisetMembers(Sort(s, le), s);
  }

  lemma SameHead<T>(a: seq<T>, b: seq<T>, le: (T, T) -> bool)
    requires a != [] && b != [] && a[0] in b && b[0] in a
    requires SortedBy(a, le) && SortedBy(b, le)
    requires forall x, y | x in a && y in a && le(x, y) && le(y, x) :: x == y
    ensures a[0] == b[0]
  {
    var i :| 0 <= i < |b| && b[i] == a[0];
    var j :| 0 <= j < |a| && a[j] == b[0];
    if i > 0 && j > 0 {
      assert le(b[0], b[i]) && le(a[0], a[j]);
    }
  }

  lemma HeadAndTail<T>(a: seq<T>)
    requires a != []
    ensures a == [a[0]] + a[1..]
    ensures multiset(a[1..]) == multiset(a) - multiset{a[0]}
  {
    assert a == [a[0]] + a[1..];
  }

  /** With a comparator that separates different elements there is only one sorted arrangement,
      so the order in which a hash map hands over its entries cannot be seen after sorting. */
  lemma {:induction false} SortedArrangementIsUnique<T>(a: seq<T>, b: seq<T>, le: (T, T) -> bool)
    requires multiset(a) == multiset(b)
    requires SortedBy(a, le) && SortedBy(b, le)
    requires forall x, y | x in a && y in a && le(x, y) && le(y, x) :: x == y
    ensures a == b
    decreases |a|
  {
    MultisetMembers(a, b);
    if a != [] {
      SameHead(a, b, le);
      HeadAndTail(a);
      HeadAndTail(b);
      SortedArrangementIsUnique(a[1..], b[1..], le);
    }
  }
}
