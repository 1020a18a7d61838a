/** Adaptive discriminators: a crowded trie node splits its plans by one request attribute, so a
    lookup only fetches the bucket that fits the request. */
module Discriminators {
  import opened Text
  import opened RouteIr
  import opened Matching
  import Sorting

  datatype Attribute = ByMethod | ByHeader(name: string) | ByQuery(name: string)

  /** Where a plan goes when its node is split by an attribute. */
  datatype Slot = Bucket(value: string) | AnyValue | Fallback

  datatype Discriminator = Discriminator(
    attribute: Attribute,
    exact: map<string, seq<Plan>>,
    any: seq<Plan>,
    fallback: seq<Plan>)

  // ---- Slots ----

  function FirstHeader(hs: seq<HeaderMatch>, name: string): Option<HeaderMatchValue> {
    if hs == [] then None
    else if hs[0].name == name then Some(hs[0].value)
    else FirstHeader(hs[1..], name)
  }

  function FirstQuery(qs: seq<QueryMatch>, name: string): Option<QueryMatchValue> {
    if qs == [] then None
    else if qs[0].name == name then Some(qs[0].value)
    else FirstQuery(qs[1..], name)
  }

  function SlotOf(a: Attribute, m: RequestMatch): Slot {
    match a
    case ByMethod => if m.verb.Some? then Bucket(m.verb.value) else AnyValue
    case ByHeader(name) =>
      (match FirstHeader(m.headers, name)
       case None => AnyValue
       case Some(HeaderExact(v)) => Bucket(v)
       case Some(_) => Fallback)
    case ByQuery(name) =>
      (match FirstQuery(m.queryParams, name)
       case None => AnyValue
       case Some(QueryExact(v)) => Bucket(v)
       case Some(_) => Fallback)
  }

  /** The request's value of the attribute, compared with bucket keys byte for byte. */
  function ValueOf(a: Attribute, req: Request): Option<string> {
    match a
    case ByMethod => Some(req.verb)
    case ByHeader(name) => HeaderValue(req, name)
    case ByQuery(name) => QueryValue(req, name)
  }

  /** The lookup fetches the plan's slot. */
  predicate Visible(a: Attribute, m: RequestMatch, req: Request) {
    SlotOf(a, m).Bucket? ==> ValueOf(a, req) == Some(SlotOf(a, m).value)
  }

  lemma {:induction false} FirstHeaderIsAMatch(hs: seq<HeaderMatch>, name: string)
    requires FirstHeader(hs, name).Some?
    ensures exists i :: 0 <= i < |hs| && hs[i] == HeaderMatch(name, FirstHeader(hs, name).value)
  {
    if hs[0].name == name {
      assert hs[0] == HeaderMatch(name, FirstHeader(hs, name).value);
    } else {
      FirstHeaderIsAMatch(hs[1..], name);
      var i :| 0 <= i < |hs[1..]| && hs[1..][i] == HeaderMatch(name, FirstHeader(hs, name).value);
      assert hs[i + 1] == hs[1..][i];
    }
  }

  lemma {:induction false} FirstQueryIsAMatch(qs: seq<QueryMatch>, name: string)
    requires FirstQuery(qs, name).Some?
    ensures exists i :: 0 <= i < |qs| && qs[i] == QueryMatch(name, FirstQuery(qs, name).value)
  {
    if qs[0].name == name {
      assert qs[0] == QueryMatch(name, FirstQuery(qs, name).value);
    } else {
      FirstQueryIsAMatch(qs[1..], name);
      var i :| 0 <= i < |qs[1..]| && qs[1..][i] == QueryMatch(name, FirstQuery(qs, name).value);
      assert qs[i + 1] == qs[1..][i];
    }
  }

  /** A method is a bucket, none is any value. The first test of the header or the query parameter gives a bucket
      if it asks for an exact value and the fallback otherwise; no test is any value. */
  lemma SlotMeaning(a: Attribute, m: RequestMatch, i: nat)
    ensures a == ByMethod ==> SlotOf(a, m) == if m.verb.None? then AnyValue else Bucket(m.verb.value)
    ensures a.ByHeader? && i < |m.headers| && m.headers[i].name == a.name && (forall j | 0 <= j < i :: m.headers[j].name != a.name) ==>
      SlotOf(a, m) == if m.headers[i].value.HeaderExact? then Bucket(m.headers[i].value.value) else Fallback
    ensures a.ByQuery? && i < |m.queryParams| && m.queryParams[i].name == a.name && (forall j | 0 <= j < i :: m.queryParams[j].name != a.name) ==>
      SlotOf(a, m) == if m.queryParams[i].value.QueryExact? then Bucket(m.queryParams[i].value.value) else Fallback
    ensures a.ByHeader? && (forall h | h in m.headers :: h.name != a.name) ==> SlotOf(a, m) == AnyValue
    ensures a.ByQuery? && (forall q | q in m.queryParams :: q.name != a.name) ==> SlotOf(a, m) == AnyValue
  {
    match a
    case ByMethod =>
    case ByHeader(name) =>
      FirstHeaderAt(m.headers, name, i);
      if FirstHeader(m.headers, name).Some? {
        FirstHeaderIsAMatch(m.headers, name);
      }
    case ByQuery(name) =>
      FirstQueryAt(m.queryParams, name, i);
      if FirstQuery(m.queryParams, name).Some? {
        FirstQueryIsAMatch(m.queryParams, name);
      }
  }

  /** A plan that constrains the method, or whose first test of the header or the query parameter asks for an
      exact value, is fetched exactly by requests with that very value; every other plan always is. */
  lemma VisibleIff(a: Attribute, m: RequestMatch, req: Request, i: nat)
    ensures a == ByMethod ==> (Visible(a, m, req) <==> m.verb.None? || m.verb.value == req.verb)
    ensures a.ByHeader? && i < |m.headers| && m.headers[i].name == a.name && (forall j | 0 <= j < i :: m.headers[j].name != a.name) ==>
      (Visible(a, m, req) <==> !m.headers[i].value.HeaderExact? || HeaderValue(req, a.name) == Some(m.headers[i].value.value))
    ensures a.ByQuery? && i < |m.queryParams| && m.queryParams[i].name == a.name && (forall j | 0 <= j < i :: m.queryParams[j].name != a.name) ==>
      (Visible(a, m, req) <==> !m.queryParams[i].value.QueryExact? || QueryValue(req, a.name) == Some(m.queryParams[i].value.value))
    ensures a.ByHeader? && (forall h | h in m.headers :: h.name != a.name) ==> Visible(a, m, req)
    ensures a.ByQuery? && (forall q | q in m.queryParams :: q.name != a.name) ==> Visible(a, m, req)
  {
    SlotMeaning(a, m, i);
  }

  lemma {:induction false} FirstHeaderAt(hs: seq<HeaderMatch>, name: string, i: nat)
    ensures i < |hs| && hs[i].name == name && (forall j | 0 <= j < i :: hs[j].name != name) ==>
      FirstHeader(hs, name) == Some(hs[i].value)
  {
    if 0 < i < |hs| {
      FirstHeaderAt(hs[1..], name, i - 1);
    }
  }

  lemma {:induction false} FirstQueryAt(qs: seq<QueryMatch>, name: string, i: nat)
    ensures i < |qs| && qs[i].name == name && (forall j | 0 <= j < i :: qs[j].name != name) ==>
      FirstQuery(qs, name) == Some(qs[i].value)
  {
    if 0 < i < |qs| {
      FirstQueryAt(qs[1..], name, i - 1);
    }
  }

  /** The only way a plan that matches a request can be missed: the request spells the attribute's
      value in another case than the plan, which the match test forgives and the bucket does not. */
  predicate SpelledDifferently(a: Attribute, m: RequestMatch, req: Request) {
    && SlotOf(a, m).Bucket?
    && ValueOf(a, req).Some?
    && ValueOf(a, req).value != SlotOf(a, m).value
    && EqIgnoreCase(ValueOf(a, req).value, SlotOf(a, m).value)
  }

  lemma HiddenOnlyByCase(a: Attribute, m: RequestMatch, req: Request, regex: Regex)
    requires AttributesMatch(m, req, regex)
    ensures Visible(a, m, req) <==> !SpelledDifferently(a, m, req)
    ensures a.ByQuery? ==> Visible(a, m, req)
  {
    if SlotOf(a, m).Bucket? {
      match a
      case ByMethod =>
      case ByHeader(name) =>
        FirstHeaderIsAMatch(m.headers, name);
        var i :| 0 <= i < |m.headers| && m.headers[i] == HeaderMatch(name, FirstHeader(m.headers, name).value);
        assert HeaderMatches(m.headers[i], req, regex);
      case ByQuery(name) =>
        FirstQueryIsAMatch(m.queryParams, name);
        var i :| 0 <= i < |m.queryParams| && m.queryParams[i] == QueryMatch(name, FirstQuery(m.queryParams, name).value);
        assert QueryMatches(m.queryParams[i], req, regex);
    }
  }

  // ---- Building ----

  /** Every plan sits in its slot and nothing else does. */
  ghost predicate Splits(d: Discriminator, plans: seq<Plan>) {
    && (forall v, p | v in d.exact :: p in d.exact[v] <==> p in plans && SlotOf(d.attribute, p.matches) == Bucket(v))
    && (forall p | p in plans && SlotOf(d.attribute, p.matches).Bucket? :: SlotOf(d.attribute, p.matches).value in d.exact)
    && (forall p :: p in d.any || p in d.fallback <==> p in plans && !SlotOf(d.attribute, p.matches).Bucket?)
  }

  /** Plans without the attribute are kept apart from those that constrain it otherwise than by a value. */
  ghost predicate Parts(d: Discriminator, plans: seq<Plan>) {
    && (forall p :: p in d.any <==> p in plans && SlotOf(d.attribute, p.matches) == AnyValue)
    && (forall p :: p in d.fallback <==> p in plans && SlotOf(d.attribute, p.matches) == Fallback)
  }

  ghost predicate BucketsRanked(d: Discriminator) {
    && (forall v | v in d.exact :: Sorting.SortedBy(d.exact[v], Ranks))
    && Sorting.SortedBy(d.any, Ranks) && Sorting.SortedBy(d.fallback, Ranks)
  }

  /** The header or query names a match constrains. */
  function Names(a: Attribute, m: RequestMatch): seq<string> {
    match a
    case ByMethod => []
    case ByHeader(_) => seq(|m.headers|, i requires 0 <= i < |m.headers| => m.headers[i].name)
    case ByQuery(_) => seq(|m.queryParams|, i requires 0 <= i < |m.queryParams| => m.queryParams[i].name)
  }

  function AllNames(a: Attribute, plans: seq<Plan>): seq<string> {
    if plans == [] then [] else AllNames(a, plans[..|plans| - 1]) + Names(a, plans[|plans| - 1].matches)
  }

  ghost predicate Tallies(counts: map<string, nat>, names: seq<string>) {
    && (forall n :: multiset(names)[n] == if n in counts then counts[n] else 0)
    && (forall n | n in counts :: counts[n] > 0)
  }

  function CountOne(counts: map<string, nat>, name: string): map<string, nat> {
    counts[name := (if name in counts then counts[name] else 0) + 1]
  }

  lemma TallyOne(counts: map<string, nat>, seen: seq<string>, name: string)
    requires Tallies(counts, seen)
    ensures Tallies(CountOne(counts, name), seen + [name])
  {
    forall n ensures multiset(seen + [name])[n] == multiset(seen)[n] + if n == name then 1 else 0 {
    }
  }

  method Tally(before: map<string, nat>, names: seq<string>, ghost seen: seq<string>) returns (counts: map<string, nat>)
    requires Tallies(before, seen)
    ensures Tallies(counts, seen + names)
  {
    counts := before;
    assert seen + names[..0] == seen;
    for i := 0 to |names|
      invariant Tallies(counts, seen + names[..i])
    {
      assert seen + names[..i + 1] == (seen + names[..i]) + [names[i]];
      TallyOne(counts, seen + names[..i], names[i]);
      counts := CountOne(counts, names[i]);
    }
    assert names[..|names|] == names;
  }

  /** `count_header_occurrences` and `count_query_occurrences`. */
  method CountOccurrences(a: Attribute, plans: seq<Plan>) returns (counts: map<string, nat>)
    ensures Tallies(counts, AllNames(a, plans))
  {
    counts := map[];
    for k := 0 to |plans|
      invariant Tallies(counts, AllNames(a, plans[..k]))
    {
      assert plans[..k + 1][..k] == plans[..k];
      counts := Tally(counts, Names(a, plans[k].matches), AllNames(a, plans[..k]));
    }
    assert plans[..|plans|] == plans;
  }

  /** `max_by_key` over a hash map: some entry with the largest count; ties depend on hash order. */
  method MaxByCount(counts: map<string, nat>) returns (best: Option<(string, nat)>)
    ensures best.None? <==> counts == map[]
    ensures best.Some? ==> best.value.0 in counts && counts[best.value.0] == best.value.1
    ensures best.Some? ==> forall n | n in counts :: counts[n] <= best.value.1
  {
    best := None;
    var keys := counts.Keys;
    while keys != {}
      invariant keys <= counts.Keys
      invariant best.None? <==> keys == counts.Keys
      invariant best.Some? ==> best.value.0 in counts && counts[best.value.0] == best.value.1
      invariant best.Some? ==> forall n | n in counts && n !in keys :: counts[n] <= best.value.1
    {
      var k :| k in keys;
      if best.None? || best.value.1 <= counts[k] {
        best := Some((k, counts[k]));
      }
      keys := keys - {k};
    }
  }

  /** `build_method_discriminator`, `build_header_discriminator` and `build_query_discriminator`. */
  method FillBuckets(a: Attribute, plans: seq<Plan>) returns (d: Discriminator)
    ensures d.attribute == a
    ensures Splits(d, plans) && Parts(d, plans) && BucketsRanked(d)
  {
    var exact: map<string, seq<Plan>> := map[];
    var any: seq<Plan>, fallback: seq<Plan> := [], [];
    for k := 0 to |plans|
      invariant Splits(Discriminator(a, exact, any, fallback), plans[..k])
      invariant Parts(Discriminator(a, exact, any, fallback), plans[..k])
    {
      var p := plans[k];
      assert plans[..k + 1] == plans[..k] + [p];
      match SlotOf(a, p.matches) {
        case Bucket(v) => exact := exact[v := (if v in exact then exact[v] else []) + [p]];
        case AnyValue => any := any + [p];
        case Fallback => fallback := fallback + [p];
      }
    }
    assert plans[..|plans|] == plans;
    d := Discriminator(a, exact, any, fallback);
    SortBucketsSplits(d, plans);
    SortBucketsRanked(d);
    d := SortBuckets(d);
  }

  function SortBuckets(d: Discriminator): Discriminator {
    Discriminator(d.attribute,
                  map v | v in d.exact :: Sorting.Sort(d.exact[v], Ranks),
                  Sorting.Sort(d.any, Ranks),
                  Sorting.Sort(d.fallback, Ranks))
  }

  ghost predicate SameMembers(a: seq<Plan>, b: seq<Plan>) {
    forall p :: p in a <==> p in b
  }

  lemma SplitsIgnoresOrder(d: Discriminator, r: Discriminator, plans: seq<Plan>)
    requires Splits(d, plans)
    requires r.attribute == d.attribute && r.exact.Keys == d.exact.Keys
    requires forall v | v in d.exact :: SameMembers(r.exact[v], d.exact[v])
    requires SameMembers(r.any, d.any) && SameMembers(r.fallback, d.fallback)
    ensures Splits(r, plans)
  {
  }

  lemma SortBucketsSplits(d: Discriminator, plans: seq<Plan>)
    requires Splits(d, plans) && Parts(d, plans)
    ensures Splits(SortBuckets(d), plans) && Parts(SortBuckets(d), plans)
  {
    var r := SortBuckets(d);
    forall v | v in d.exact ensures SameMembers(r.exact[v], d.exact[v]) {
      Sorting.SortMembers(d.exact[v], Ranks);
    }
    assert SameMembers(r.any, d.any) by { Sorting.SortMembers(d.any, Ranks); }
    assert SameMembers(r.fallback, d.fallback) by { Sorting.SortMembers(d.fallback, Ranks); }
    SplitsIgnoresOrder(d, r, plans);
  }

  lemma RanksIsTotalPreorder()
    ensures Sorting.TotalPreorder(Ranks)
  {
  }

  lemma SortBucketsRanked(d: Discriminator)
    ensures BucketsRanked(SortBuckets(d))
  {
    RanksIsTotalPreorder();
    forall v | v in d.exact ensures Sorting.SortedBy(SortBuckets(d).exact[v], Ranks) {
      Sorting.SortIsSorted(d.exact[v], Ranks);
    }
    Sorting.SortIsSorted(d.any, Ranks);
    Sorting.SortIsSorted(d.fallback, Ranks);
  }

  function MethodCount(plans: seq<Plan>): nat {
    if plans == [] then 0
    else MethodCount(plans[1..]) + (if plans[0].matches.verb.Some? then 1 else 0)
  }

  /** Occurrences of one attribute over the plans of a node. */
  ghost function Occurrences(a: Attribute, plans: seq<Plan>): nat {
    if a.ByMethod? then MethodCount(plans) else multiset(AllNames(a, plans))[a.name]
  }

  /** On equal counts the method goes before headers and headers before query parameters. */
  function Kind(a: Attribute): nat {
    match a
    case ByMethod => 0
    case ByHeader(_) => 1
    case ByQuery(_) => 2
  }

  /** No attribute is constrained more often by the plans, or as often and of an earlier kind. */
  ghost predicate MostUsed(chosen: Attribute, plans: seq<Plan>) {
    forall a: Attribute ::
      && Occurrences(a, plans) <= Occurrences(chosen, plans)
      && (Kind(a) < Kind(chosen) ==> Occurrences(a, plans) < Occurrences(chosen, plans))
  }

  lemma {:induction false} UnnamedAttribute(plans: seq<Plan>)
    requires MethodCount(plans) == 0
    ensures forall p | p in plans :: !SlotOf(ByMethod, p.matches).Bucket?
  {
    if plans != [] {
      UnnamedAttribute(plans[1..]);
    }
  }

  lemma {:induction false} NamesIgnoreName(a: Attribute, b: Attribute, plans: seq<Plan>)
    requires !a.ByMethod? && !b.ByMethod? && (a.ByHeader? <==> b.ByHeader?)
    ensures AllNames(a, plans) == AllNames(b, plans)
  {
    if plans != [] {
      NamesIgnoreName(a, b, plans[..|plans| - 1]);
    }
  }

  /** The tallies bound how often any attribute of that kind occurs. */
  lemma OccurrencesBounded(a: Attribute, b: Attribute, plans: seq<Plan>, counts: map<string, nat>, best: nat)
    requires !a.ByMethod? && !b.ByMethod? && (a.ByHeader? <==> b.ByHeader?)
    requires Tallies(counts, AllNames(b, plans))
    requires forall n | n in counts :: counts[n] <= best
    ensures Occurrences(a, plans) <= best
    ensures a.name in counts ==> Occurrences(a, plans) == counts[a.name]
  {
    NamesIgnoreName(a, b, plans);
  }

  lemma ChosenIsMostUsed(chosen: Attribute, plans: seq<Plan>, hs: map<string, nat>, qs: map<string, nat>, h: nat, q: nat)
    requires Tallies(hs, AllNames(ByHeader(""), plans)) && Tallies(qs, AllNames(ByQuery(""), plans))
    requires forall n | n in hs :: hs[n] <= h
    requires forall n | n in qs :: qs[n] <= q
    requires Occurrences(chosen, plans) >= h && Occurrences(chosen, plans) >= q
    requires Occurrences(chosen, plans) >= MethodCount(plans)
    requires Kind(chosen) > 0 ==> Occurrences(chosen, plans) > MethodCount(plans)
    requires Kind(chosen) > 1 ==> Occurrences(chosen, plans) > h
    ensures MostUsed(chosen, plans)
  {
    forall a: Attribute
      ensures Occurrences(a, plans) <= Occurrences(chosen, plans)
      ensures Kind(a) < Kind(chosen) ==> Occurrences(a, plans) < Occurrences(chosen, plans)
    {
      match a
      case ByMethod =>
      case ByHeader(_) => OccurrencesBounded(a, ByHeader(""), plans, hs, h);
      case ByQuery(_) => OccurrencesBounded(a, ByQuery(""), plans, qs, q);
    }
  }

  /** The attribute that the plans constrain most often, if they constrain any. */
  method PickAttribute(plans: seq<Plan>) returns (r: Option<Attribute>)
    ensures r.Some? ==> MostUsed(r.value, plans)
    ensures r.None? ==> MethodCount(plans) == 0 && MostUsed(ByMethod, plans)
  {
    var methodCount := MethodCount(plans);
    var headerCounts := CountOccurrences(ByHeader(""), plans);
    var queryCounts := CountOccurrences(ByQuery(""), plans);
    var bestHeader := MaxByCount(headerCounts);
    var bestQuery := MaxByCount(queryCounts);
    var bestHeaderCount := if bestHeader.Some? then bestHeader.value.1 else 0;
    var bestQueryCount := if bestQuery.Some? then bestQuery.value.1 else 0;

    var attribute := ByMethod;
    if methodCount >= bestHeaderCount && methodCount >= bestQueryCount && methodCount > 0 {
      r := Some(attribute);
    } else if bestHeaderCount >= bestQueryCount && bestHeader.Some? {
      attribute := ByHeader(bestHeader.value.0);
      OccurrencesBounded(attribute, ByHeader(""), plans, headerCounts, bestHeaderCount);
      r := Some(attribute);
    } else if bestQuery.Some? {
      attribute := ByQuery(bestQuery.value.0);
      OccurrencesBounded(attribute, ByQuery(""), plans, queryCounts, bestQueryCount);
      r := Some(attribute);
    } else {
      r := None;
    }
    ChosenIsMostUsed(attribute, plans, headerCounts, queryCounts, bestHeaderCount, bestQueryCount);
  }

  /** Splits by that attribute. */
  method BuildDiscriminator(plans: seq<Plan>) returns (d: Discriminator)
    ensures Splits(d, plans)
    ensures MostUsed(d.attribute, plans)
  {
    var attribute := PickAttribute(plans);
    if attribute.Some? {
      d := FillBuckets(attribute.value, plans);
    } else {
      UnnamedAttribute(plans);
      d := Discriminator(ByMethod, map[], [], plans);
    }
  }

  // ---- Resolving ----

  /** The plans a lookup fetches from a discriminator (`resolve_node_plans`). */
  function Fetch(d: Discriminator, req: Request): seq<Plan> {
    var v := ValueOf(d.attribute, req);
    (if v.Some? && v.value in d.exact then d.exact[v.value] else []) + d.any + d.fallback
  }

  lemma FetchIsVisiblePlans(d: Discriminator, plans: seq<Plan>, req: Request)
    requires Splits(d, plans)
    ensures forall p :: p in Fetch(d, req) <==> p in plans && Visible(d.attribute, p.matches, req)
  {
  }
}
