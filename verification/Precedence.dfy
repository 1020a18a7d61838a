/** The packed rule precedence of `compute_precedence` and the order it stands for. */
module Precedence {
  import opened Text
  import opened RouteIr

  // ---- u64 bit operations on naturals ----

  function Pow2(k: nat): (r: nat)
    ensures r > 0
  {
    if k == 0 then 1 else 2 * Pow2(k - 1)
  }

  function BitOr(a: nat, b: nat): nat
    decreases a + b
  {
    if a == 0 && b == 0 then 0
    else (if a % 2 == 1 || b % 2 == 1 then 1 else 0) + 2 * BitOr(a / 2, b / 2)
  }

  /** `x << k` on a `u64`, with `weight == 2^k`. */
  function Shl64(x: nat, weight: nat): nat {
    (x * weight) % 0x1_0000_0000_0000_0000
  }

  lemma {:induction false} BitOrZero(a: nat)
    ensures BitOr(a, 0) == a
  {
    if a != 0 { BitOrZero(a / 2); }
  }

  /** Or-ing a value into lanes that are clear is addition. */
  lemma {:induction false} BitOrDisjoint(x: nat, k: nat, y: nat)
    requires y < Pow2(k)
    ensures BitOr(x * Pow2(k), y) == x * Pow2(k) + y
    decreases k
  {
    if k == 0 {
      BitOrZero(x);
    } else if x * Pow2(k) != 0 || y != 0 {
      var half := x * Pow2(k - 1);
      assert x * Pow2(k) == 2 * half;
      BitOrDisjoint(x, k - 1, y / 2);
    }
  }

  lemma {:induction false} BitOrBelow(a: nat, b: nat, k: nat)
    requires a < Pow2(k) && b < Pow2(k)
    ensures BitOr(a, b) < Pow2(k)
    decreases k
  {
    if k > 0 && (a != 0 || b != 0) {
      BitOrBelow(a / 2, b / 2, k - 1);
    }
  }

  lemma Powers()
    ensures Pow2(16) == LANE
    ensures Pow2(32) == BIT_32
    ensures Pow2(48) == BIT_48
    ensures Pow2(64) == 0x1_0000_0000_0000_0000
  {
    assert Pow2(8) == 256;
    assert Pow2(16) == 0x1_0000;
    assert Pow2(24) == 0x100_0000;
    assert Pow2(32) == 0x1_0000_0000;
    assert Pow2(40) == 0x100_0000_0000;
    assert Pow2(48) == 0x1_0000_0000_0000;
    assert Pow2(56) == 0x100_0000_0000_0000;
  }

  // ---- The four fields ----

  datatype Fields = Fields(pathLen: nat, verb: nat, headers: nat, queries: nat)

  const LANE: nat := 0x1_0000
  const BIT_32: nat := 0x1_0000_0000
  const BIT_48: nat := 0x1_0000_0000_0000

  predicate InRange(f: Fields) {
    f.pathLen < LANE && f.verb < LANE && f.headers < LANE && f.queries < LANE
  }

  /** Path length first, then method, then header count, then query count. */
  predicate LexLess(f: Fields, g: Fields) {
    || f.pathLen < g.pathLen
    || (f.pathLen == g.pathLen && f.verb < g.verb)
    || (f.pathLen == g.pathLen && f.verb == g.verb && f.headers < g.headers)
    || (f.pathLen == g.pathLen && f.verb == g.verb && f.headers == g.headers && f.queries < g.queries)
  }

  function Pack(f: Fields): nat {
    BitOr(BitOr(BitOr(Shl64(f.pathLen, BIT_48), Shl64(f.verb, BIT_32)), Shl64(f.headers, LANE)), Shl64(f.queries, 1))
  }

  /** Shifting a 16-bit value into its lane loses nothing. */
  lemma ShlInRange(x: nat)
    requires x < LANE
    ensures Shl64(x, BIT_48) == x * BIT_48 && Shl64(x, BIT_32) == x * BIT_32
    ensures Shl64(x, LANE) == x * LANE && Shl64(x, 1) == x
  {
  }

  lemma OrIntoLane(high: nat, k: nat, width: nat, low: nat)
    requires width == Pow2(k) && low < width
    ensures BitOr(high * width, low) == high * width + low
  {
    BitOrDisjoint(high, k, low);
  }

  lemma TopLanes(pathLen: nat, verb: nat)
    requires verb < LANE
    ensures BitOr(pathLen * BIT_48, verb * BIT_32) == (pathLen * LANE + verb) * BIT_32
  {
    Powers();
    OrIntoLane(pathLen, 48, BIT_48, verb * BIT_32);
  }

  lemma HeaderLane(high: nat, headers: nat)
    requires headers < LANE
    ensures BitOr(high * BIT_32, headers * LANE) == (high * LANE + headers) * LANE
  {
    Powers();
    OrIntoLane(high, 32, BIT_32, headers * LANE);
  }

  lemma QueryLane(high: nat, queries: nat)
    requires queries < LANE
    ensures BitOr(high * LANE, queries) == high * LANE + queries
  {
    Powers();
    OrIntoLane(high, 16, LANE, queries);
  }

  lemma PackInRange(f: Fields)
    requires InRange(f)
    ensures Pack(f) == ((f.pathLen * LANE + f.verb) * LANE + f.headers) * LANE + f.queries
  {
    ShlInRange(f.pathLen);
    ShlInRange(f.verb);
    ShlInRange(f.headers);
    ShlInRange(f.queries);
    TopLanes(f.pathLen, f.verb);
    HeaderLane(f.pathLen * LANE + f.verb, f.headers);
    QueryLane((f.pathLen * LANE + f.verb) * LANE + f.headers, f.queries);
  }

  lemma PackFitsWord(f: Fields)
    ensures Pack(f) < 0x1_0000_0000_0000_0000
  {
    Powers();
    var a, b, c := Shl64(f.pathLen, BIT_48), Shl64(f.verb, BIT_32), Shl64(f.headers, LANE);
    BitOrBelow(a, b, 64);
    BitOrBelow(BitOr(a, b), c, 64);
    BitOrBelow(BitOr(BitOr(a, b), c), Shl64(f.queries, 1), 64);
  }

  ghost predicate SameOrder(f: Fields, g: Fields) {
    && (Pack(f) < Pack(g) <==> LexLess(f, g))
    && (Pack(g) < Pack(f) <==> LexLess(g, f))
  }

  lemma PackedOrderIsLexicographic(f: Fields, g: Fields)
    requires InRange(f) && InRange(g)
    ensures SameOrder(f, g)
  {
    PackInRange(f);
    PackInRange(g);
  }

  /** The four lanes of a packed word. */
  function Unpack(w: nat): Fields {
    Fields(w / BIT_48, (w / BIT_32) % LANE, (w / LANE) % LANE, w % LANE)
  }

  lemma UnpackInRange(w: nat)
    requires w < 0x1_0000_0000_0000_0000
    ensures InRange(Unpack(w)) && Pack(Unpack(w)) == w
  {
    var g := Unpack(w);
    ShiftByLanes(w);
    PackInRange(g);
  }

  lemma LastDigit(high: nat, low: nat)
    requires low < LANE
    ensures (high * LANE + low) / LANE == high && (high * LANE + low) % LANE == low
  {
  }

  lemma UnpackPacked(f: Fields)
    requires InRange(f)
    ensures Unpack(Pack(f)) == f
  {
    PackInRange(f);
    var top := f.pathLen * LANE + f.verb;
    var three := top * LANE + f.headers;
    var w := three * LANE + f.queries;
    LastDigit(f.pathLen, f.verb);
    LastDigit(top, f.headers);
    LastDigit(three, f.queries);
    ShiftByLanes(w);
  }

  lemma ShiftByLanes(w: nat)
    ensures w / BIT_32 == (w / LANE) / LANE && w / BIT_48 == (w / LANE) / LANE / LANE
  {
  }

  /** The packed order is trustworthy for a rule exactly when all four of its counts fit 16 bits:
      any wider count makes the rule tie with a different in-range rule. */
  lemma PackedOrderExactlyInRange(f: Fields)
    ensures (forall g | InRange(g) :: SameOrder(f, g)) <==> InRange(f)
  {
    if InRange(f) {
      forall g | InRange(g) ensures SameOrder(f, g) {
        PackedOrderIsLexicographic(f, g);
      }
    } else {
      PackFitsWord(f);
      UnpackInRange(Pack(f));
      var g := Unpack(Pack(f));
      assert InRange(g) && f != g && !SameOrder(f, g);
    }
  }

  // ---- Precedence of a rule: each field is the maximum over the rule's matches ----

  function PathLen(m: RequestMatch): nat {
    match m.path
    case None => 0
    case Some(p) => |p.path|
  }

  function MatchFields(m: RequestMatch): Fields {
    Fields(PathLen(m), if m.verb.Some? then 1 else 0, |m.headers|, |m.queryParams|)
  }

  function Max(a: nat, b: nat): nat {
    if a >= b then a else b
  }

  function RuleFields(ms: seq<RequestMatch>): Fields {
    if ms == [] then Fields(0, 0, 0, 0)
    else
      var f, g := RuleFields(ms[1..]), MatchFields(ms[0]);
      Fields(Max(f.pathLen, g.pathLen), Max(f.verb, g.verb), Max(f.headers, g.headers), Max(f.queries, g.queries))
  }

  function ComputePrecedence(r: Rule): nat {
    Pack(RuleFields(r.matches))
  }

  /** In-range rules compare by the length of their longest path, then whether a method is matched,
      then their header count, then their query count. */
  lemma PrecedenceOrdersRules(a: Rule, b: Rule)
    requires InRange(RuleFields(a.matches)) && InRange(RuleFields(b.matches))
    ensures ComputePrecedence(a) < ComputePrecedence(b) <==> LexLess(RuleFields(a.matches), RuleFields(b.matches))
    ensures ComputePrecedence(a) == ComputePrecedence(b) <==> RuleFields(a.matches) == RuleFields(b.matches)
  {
    PackedOrderIsLexicographic(RuleFields(a.matches), RuleFields(b.matches));
  }

  // ---- The same order on the matches themselves ----

  /** `n` is the length of the longest path that a match names, 0 if none does. */
  ghost predicate LongestPath(ms: seq<RequestMatch>, n: nat) {
    && (forall m | m in ms && m.path.Some? :: |m.path.value.path| <= n)
    && (n == 0 || exists m | m in ms :: m.path.Some? && |m.path.value.path| == n)
  }

  ghost predicate NamesMethod(ms: seq<RequestMatch>) {
    exists m | m in ms :: m.verb.Some?
  }

  /** `n` is the greatest number of headers in one match. */
  ghost predicate MostHeaders(ms: seq<RequestMatch>, n: nat) {
    && (forall m | m in ms :: |m.headers| <= n)
    && (n == 0 || exists m | m in ms :: |m.headers| == n)
  }

  /** `n` is the greatest number of query parameters in one match. */
  ghost predicate MostQueries(ms: seq<RequestMatch>, n: nat) {
    && (forall m | m in ms :: |m.queryParams| <= n)
    && (n == 0 || exists m | m in ms :: |m.queryParams| == n)
  }

  ghost predicate Measures(ms: seq<RequestMatch>, path: nat, verb: bool, headers: nat, queries: nat) {
    LongestPath(ms, path) && verb == NamesMethod(ms) && MostHeaders(ms, headers) && MostQueries(ms, queries)
  }

  lemma MeasuresOneMore(m: RequestMatch, ms: seq<RequestMatch>, f: Fields)
    requires f.verb <= 1 && Measures(ms, f.pathLen, f.verb == 1, f.headers, f.queries)
    ensures Measures([m] + ms,
                     Max(f.pathLen, PathLen(m)), f.verb == 1 || m.verb.Some?,
                     Max(f.headers, |m.headers|), Max(f.queries, |m.queryParams|))
  {
    assert m in [m] + ms && forall x | x in ms :: x in [m] + ms;
  }

  /** The fields of a rule are these measures, and no others are. */
  lemma {:induction false} FieldsMeasure(ms: seq<RequestMatch>)
    ensures var f := RuleFields(ms); f.verb <= 1 && Measures(ms, f.pathLen, f.verb == 1, f.headers, f.queries)
  {
    if ms != [] {
      FieldsMeasure(ms[1..]);
      assert ms == [ms[0]] + ms[1..];
      MeasuresOneMore(ms[0], ms[1..], RuleFields(ms[1..]));
    }
  }

  lemma MeasuredFields(ms: seq<RequestMatch>, path: nat, verb: bool, headers: nat, queries: nat)
    requires Measures(ms, path, verb, headers, queries)
    ensures RuleFields(ms) == Fields(path, if verb then 1 else 0, headers, queries)
  {
    FieldsMeasure(ms);
  }

  /** `compute_precedence` ranks rules by their longest path, then by whether a method is named, then by
      the most headers of a match, then by the most query parameters, all below 2^16. */
  lemma PrecedenceLaw(a: Rule, b: Rule, path: nat, verb: bool, headers: nat, queries: nat,
                      path': nat, verb': bool, headers': nat, queries': nat)
    requires Measures(a.matches, path, verb, headers, queries) && Measures(b.matches, path', verb', headers', queries')
    requires path < 65536 && headers < 65536 && queries < 65536 && path' < 65536 && headers' < 65536 && queries' < 65536
    ensures ComputePrecedence(a) < ComputePrecedence(b) <==>
      || path < path'
      || (path == path' && !verb && verb')
      || (path == path' && verb == verb' && headers < headers')
      || (path == path' && verb == verb' && headers == headers' && queries < queries')
    ensures ComputePrecedence(a) == ComputePrecedence(b) <==>
      path == path' && verb == verb' && headers == headers' && queries == queries'
  {
    MeasuredFields(a.matches, path, verb, headers, queries);
    MeasuredFields(b.matches, path', verb', headers', queries');
    PrecedenceOrdersRules(a, b);
  }
}
