/** The string operations the proxy uses.  A Rust `str` is a `string` here, one character per
    UTF-8 byte, so `|s|` is `s.len()`. */
module Text {

  datatype Option<+T> = None | Some(value: T)

  // ---- ASCII case ----

  function LowerChar(c: char): char {
    if 'A' <= c <= 'Z' then (c as int + 32) as char else c
  }

  function Lower(s: string): (r: string)
    ensures |r| == |s|
  {
    if s == [] then [] else [LowerChar(s[0])] + Lower(s[1..])
  }

  /** `str::eq_ignore_ascii_case`. */
  predicate EqIgnoreCase(a: string, b: string) {
    Lower(a) == Lower(b)
  }

  /** The same character, or the same ASCII letter in the other case. */
  predicate SameLetter(c: char, d: char) {
    || c == d
    || ('A' <= c <= 'Z' && d as int == c as int + 32)
    || ('A' <= d <= 'Z' && c as int == d as int + 32)
  }

  predicate SameLetters(a: string, b: string) {
    |a| == |b| && forall i | 0 <= i < |a| :: SameLetter(a[i], b[i])
  }

  lemma {:induction false} LowerAt(s: string, i: nat)
    requires i < |s|
    ensures Lower(s)[i] == LowerChar(s[i])
  {
    if i > 0 {
      LowerAt(s[1..], i - 1);
    }
  }

  lemma LowerAgrees(c: char, d: char)
    ensures LowerChar(c) == LowerChar(d) <==> SameLetter(c, d)
  {
  }

  /** Two texts are equal but for case exactly when they are so letter by letter. */
  lemma EqIgnoreCaseIff(a: string, b: string)
    ensures EqIgnoreCase(a, b) <==> SameLetters(a, b)
  {
    forall i | 0 <= i < |a| && i < |b| ensures Lower(a)[i] == Lower(b)[i] <==> SameLetter(a[i], b[i]) {
      LowerAt(a, i);
      LowerAt(b, i);
      LowerAgrees(a[i], b[i]);
    }
    if SameLetters(a, b) {
      forall i | 0 <= i < |a| ensures Lower(a)[i] == Lower(b)[i] {
        assert SameLetter(a[i], b[i]);
      }
      assert Lower(a) == Lower(b);
    }
  }

  predicate IsLower(s: string) {
    forall i | 0 <= i < |s| :: !('A' <= s[i] <= 'Z')
  }

  lemma LowerOfLower(s: string)
    ensures IsLower(Lower(s)) && SameLetters(Lower(s), s)
    ensures IsLower(s) ==> Lower(s) == s
  {
    forall i | 0 <= i < |s| ensures Lower(s)[i] == LowerChar(s[i]) {
      LowerAt(s, i);
    }
  }

  // ---- Splitting ----

  /** `str::split(sep)`. */
  function Split(s: string, sep: char): (parts: seq<string>)
    ensures |parts| >= 1
  {
    if s == [] then [[]]
    else
      var rest := Split(s[1..], sep);
      if s[0] == sep then [[]] + rest else [[s[0]] + rest[0]] + rest[1..]
  }

  function NonEmpty(parts: seq<string>): (r: seq<string>)
    ensures [] !in r
  {
    if parts == [] then []
    else if parts[0] == [] then NonEmpty(parts[1..])
    else [parts[0]] + NonEmpty(parts[1..])
  }

  /** Non-empty path segments: `path.split('/').filter(|s| !s.is_empty())`. */
  function Segments(path: string): (r: seq<string>)
    ensures [] !in r
  {
    NonEmpty(Split(path, '/'))
  }

  lemma {:induction false} SplitAtSeparator(a: string, b: string, sep: char)
    ensures Split(a + [sep] + b, sep) == Split(a, sep) + Split(b, sep)
  {
    var whole := a + [sep] + b;
    if a == [] {
      assert whole[1..] == b;
    } else {
      assert whole[1..] == a[1..] + [sep] + b;
      SplitAtSeparator(a[1..], b, sep);
    }
  }

  lemma {:induction false} NonEmptyConcat(a: seq<string>, b: seq<string>)
    ensures NonEmpty(a + b) == NonEmpty(a) + NonEmpty(b)
  {
    if a == [] {
      assert a + b == b;
    } else {
      assert (a + b)[1..] == a[1..] + b;
      NonEmptyConcat(a[1..], b);
    }
  }

  /** Segments never straddle a slash. */
  lemma SegmentsAtSlash(a: string, b: string)
    ensures Segments(a + "/" + b) == Segments(a) + Segments(b)
  {
    SplitAtSeparator(a, b, '/');
    NonEmptyConcat(Split(a, '/'), Split(b, '/'));
  }

  lemma {:induction false} SplitWithoutSeparator(s: string, sep: char)
    requires sep !in s
    ensures Split(s, sep) == [s]
  {
    if s != [] {
      SplitWithoutSeparator(s[1..], sep);
      assert s == [s[0]] + s[1..];
    }
  }

  predicate IsSegment(s: string) {
    s != [] && '/' !in s
  }

  /** The canonical path of some segments: `/a/b`. */
  function Join(segments: seq<string>): string {
    if segments == [] then [] else "/" + (segments[0] + Join(segments[1..]))
  }

  /** Splitting undoes joining. */
  lemma {:induction false} SegmentsOfJoin(segments: seq<string>)
    requires forall i | 0 <= i < |segments| :: IsSegment(segments[i])
    ensures Segments(Join(segments)) == segments
  {
    if segments != [] {
      var s, rest := segments[0], segments[1..];
      SegmentsOfJoin(rest);
      SplitWithoutSeparator(s, '/');
      assert NonEmpty([s]) == [s] + NonEmpty([s][1..]);
      assert Segments(s) == [s];
      assert Segments([]) == [];
      SegmentsAtSlash([], s + Join(rest));
      assert [] + "/" + (s + Join(rest)) == Join(segments);
      if rest == [] {
        assert s + Join(rest) == s;
      } else {
        var tail := rest[0] + Join(rest[1..]);
        SegmentsAtSlash(s, tail);
        SegmentsAtSlash([], tail);
        assert [] + "/" + tail == Join(rest);
        assert s + "/" + tail == s + Join(rest);
      }
    }
  }

  // ---- Prefixes and suffixes ----

  predicate StartsWith(s: string, prefix: string) {
    |prefix| <= |s| && s[..|prefix|] == prefix
  }

  predicate EndsWith(s: string, suffix: string) {
    |suffix| <= |s| && s[|s| - |suffix|..] == suffix
  }

  function Count(s: string, c: char): (n: nat)
    ensures n <= |s|
  {
    if s == [] then 0 else (if s[0] == c then 1 else 0) + Count(s[1..], c)
  }

  lemma {:induction false} CountConcat(a: string, b: string, c: char)
    ensures Count(a + b, c) == Count(a, c) + Count(b, c)
  {
    if a == [] {
      assert a + b == b;
    } else {
      assert (a + b)[1..] == a[1..] + b;
      CountConcat(a[1..], b, c);
    }
  }

  // ---- Byte order of strings ----

  /** `str::cmp` is not Greater. */
  predicate StringLe(a: string, b: string) {
    a == [] || (b != [] && (a[0] < b[0] || (a[0] == b[0] && StringLe(a[1..], b[1..]))))
  }

  lemma {:induction false} StringLeTotal(a: string, b: string)
    ensures StringLe(a, b) || StringLe(b, a)
  {
    if a != [] && b != [] {
      StringLeTotal(a[1..], b[1..]);
    }
  }

  lemma {:induction false} StringLeTransitive(a: string, b: string, c: string)
    requires StringLe(a, b) && StringLe(b, c)
    ensures StringLe(a, c)
  {
    if a != [] && b != [] && c != [] && a[0] == b[0] == c[0] {
      StringLeTransitive(a[1..], b[1..], c[1..]);
    }
  }

  lemma {:induction false} StringLeAntisymmetric(a: string, b: string)
    requires StringLe(a, b) && StringLe(b, a)
    ensures a == b
  {
    if a != [] && b != [] {
      StringLeAntisymmetric(a[1..], b[1..]);
      assert a == [a[0]] + a[1..] && b == [b[0]] + b[1..];
    }
  }

  /** The strings differ first at `i`: `a` ends there, or has the smaller character. */
  predicate FirstDiffer(a: string, b: string, i: nat) {
    && i <= |a| && i < |b| && a[..i] == b[..i]
    && (i == |a| || a[i] < b[i])
  }

  /** The byte order of strings: equal, or decided at the first difference. */
  lemma {:induction false} StringLeIff(a: string, b: string)
    ensures StringLe(a, b) <==> a == b || exists i: nat :: FirstDiffer(a, b, i)
  {
    if a == [] {
      assert b != [] ==> FirstDiffer(a, b, 0);
    } else if b != [] {
      StringLeIff(a[1..], b[1..]);
      assert a == [a[0]] + a[1..] && b == [b[0]] + b[1..];
      if a[0] < b[0] {
        assert FirstDiffer(a, b, 0);
      } else if a[0] == b[0] {
        if i: nat :| FirstDiffer(a[1..], b[1..], i) {
          assert a[..i + 1] == [a[0]] + a[1..][..i] && b[..i + 1] == [b[0]] + b[1..][..i];
          assert FirstDiffer(a, b, i + 1);
        }
        if i: nat :| FirstDiffer(a, b, i) {
          assert i > 0 && a[1..][..i - 1] == a[..i][1..] && b[1..][..i - 1] == b[..i][1..];
          assert FirstDiffer(a[1..], b[1..], i - 1);
        }
      } else {
        forall i: nat ensures !FirstDiffer(a, b, i) {
          assert 0 < i <= |a| && i < |b| ==> a[..i][0] == a[0] && b[..i][0] == b[0];
        }
      }
    }
  }
}
