/** Requests, compiled plans and the per-plan match test (`plan_matches`). */
module Matching {
  import opened Text
  import opened RouteIr
  import opened Precedence

  /** `regex(pattern, text)`: the pattern compiles and matches the text. */
  type Regex = (string, string) -> bool

  /** `headers` maps lower-case header names to their first readable value. */
  datatype Request = Request(path: string, verb: string, headers: map<string, string>, query: Option<string>)

  /** One compiled plan; `id` is the address of its shared allocation. */
  datatype Plan = Plan(id: nat, precedence: nat, ruleOrder: nat, matches: RequestMatch, action: Action)

  /** `HeaderMap::get(name).and_then(to_str)`. */
  function HeaderValue(req: Request, name: string): Option<string> {
    if Lower(name) in req.headers then Some(req.headers[Lower(name)]) else None
  }

  // ---- Query parameters ----

  /** `pair.splitn(2, '=')` as a key and the text after the first `=` (empty when there is none). */
  function KeyAndValue(pair: string): (string, string) {
    if pair == [] then ([], [])
    else if pair[0] == '=' then ([], pair[1..])
    else var (k, v) := KeyAndValue(pair[1..]); ([pair[0]] + k, v)
  }

  function FindParam(pairs: seq<string>, name: string): Option<string> {
    if pairs == [] then None
    else if KeyAndValue(pairs[0]).0 == name then Some(KeyAndValue(pairs[0]).1)
    else FindParam(pairs[1..], name)
  }

  function ExtractQueryParam(query: string, name: string): Option<string> {
    FindParam(Split(query, '&'), name)
  }

  /** A query string with these parameters, in this order. */
  function EncodeQuery(params: seq<(string, string)>): string
    requires params != []
  {
    var first := params[0].0 + "=" + params[0].1;
    if |params| == 1 then first else first + "&" + EncodeQuery(params[1..])
  }

  function FirstParam(params: seq<(string, string)>, name: string): Option<string> {
    if params == [] then None
    else if params[0].0 == name then Some(params[0].1)
    else FirstParam(params[1..], name)
  }

  predicate IsParam(p: (string, string)) {
    '&' !in p.0 && '=' !in p.0 && '&' !in p.1
  }

  lemma {:induction false} KeyAndValueOfPair(k: string, v: string)
    requires '=' !in k
    ensures KeyAndValue(k + "=" + v) == (k, v)
  {
    var pair := k + "=" + v;
    if k == [] {
      assert pair[1..] == v;
    } else {
      assert pair[1..] == k[1..] + "=" + v;
      KeyAndValueOfPair(k[1..], v);
      assert k == [k[0]] + k[1..];
    }
  }

  /** Extraction gives the first value of the name, even one that holds further `=` signs. */
  lemma {:induction false} QueryRoundTrip(params: seq<(string, string)>, name: string)
    requires params != [] && forall p | p in params :: IsParam(p)
    ensures ExtractQueryParam(EncodeQuery(params), name) == FirstParam(params, name)
  {
    var first := params[0].0 + "=" + params[0].1;
    assert IsParam(params[0]);
    SplitWithoutSeparator(first, '&');
    KeyAndValueOfPair(params[0].0, params[0].1);
    if |params| > 1 {
      SplitAtSeparator(first, EncodeQuery(params[1..]), '&');
      QueryRoundTrip(params[1..], name);
      assert ([first] + Split(EncodeQuery(params[1..]), '&'))[1..] == Split(EncodeQuery(params[1..]), '&');
    } else {
      assert [first][1..] == [] && params[1..] == [];
      assert FindParam([first], name) == if KeyAndValue(first).0 == name then Some(KeyAndValue(first).1) else None;
      assert FirstParam(params[1..], name) == None;
    }
  }

  function QueryValue(req: Request, name: string): Option<string> {
    match req.query
    case None => None
    case Some(q) => ExtractQueryParam(q, name)
  }

  // ---- The match test ----

  predicate HeaderMatches(hm: HeaderMatch, req: Request, regex: Regex) {
    var val := HeaderValue(req, hm.name);
    match hm.value
    case HeaderExact(expected) => val.Some? && EqIgnoreCase(val.value, expected)
    case HeaderRegex(pattern) => val.Some? && regex(pattern, val.value)
    case HeaderPresent => val.Some?
    case HeaderAbsent => val.None?
  }

  predicate QueryMatches(qm: QueryMatch, req: Request, regex: Regex) {
    var val := QueryValue(req, qm.name);
    match qm.value
    case QueryExact(expected) => val == Some(expected)
    case QueryRegex(pattern) => val.Some? && regex(pattern, val.value)
  }

  /** Everything but the path. */
  predicate AttributesMatch(m: RequestMatch, req: Request, regex: Regex) {
    && (m.verb.Some? ==> EqIgnoreCase(m.verb.value, req.verb))
    && (forall i | 0 <= i < |m.headers| :: HeaderMatches(m.headers[i], req, regex))
    && (forall i | 0 <= i < |m.queryParams| :: QueryMatches(m.queryParams[i], req, regex))
  }

  /** `plan_matches`: test by test, stopping at the first that fails. */
  method PlanMatches(m: RequestMatch, req: Request, regex: Regex) returns (ok: bool)
    ensures ok == AttributesMatch(m, req, regex)
  {
    if m.verb.Some? && !EqIgnoreCase(m.verb.value, req.verb) {
      return false;
    }
    for i := 0 to |m.headers|
      invariant forall k | 0 <= k < i :: HeaderMatches(m.headers[k], req, regex)
    {
      if !HeaderMatches(m.headers[i], req, regex) {
        return false;
      }
    }
    for i := 0 to |m.queryParams|
      invariant forall k | 0 <= k < i :: QueryMatches(m.queryParams[k], req, regex)
    {
      if !QueryMatches(m.queryParams[i], req, regex) {
        return false;
      }
    }
    return true;
  }

  // ---- What the tests mean ----

  /** Header names of a request are in lower case, as the HTTP library keeps them. */
  predicate LowerNames(req: Request) {
    forall k | k in req.headers :: IsLower(k)
  }

  /** The request carries the header, named in any case, with this value. */
  ghost predicate Carries(req: Request, name: string, value: string) {
    exists k | k in req.headers :: SameLetters(k, name) && req.headers[k] == value
  }

  lemma LowerUnique(k: string, name: string)
    requires IsLower(k) && SameLetters(k, name)
    ensures k == Lower(name)
  {
    EqIgnoreCaseIff(k, name);
    LowerOfLower(k);
  }

  lemma HeaderValueIff(req: Request, name: string, value: string)
    requires LowerNames(req)
    ensures HeaderValue(req, name) == Some(value) <==> Carries(req, name, value)
  {
    LowerOfLower(name);
    if HeaderValue(req, name) == Some(value) {
      assert req.headers[Lower(name)] == value;
    }
    if k :| k in req.headers && SameLetters(k, name) && req.headers[k] == value {
      LowerUnique(k, name);
    }
  }

  /** Header tests: an exact value ignores case, a pattern is matched against the value, and presence and
      absence look at the name alone. */
  lemma HeaderMeaning(hm: HeaderMatch, req: Request, regex: Regex)
    requires LowerNames(req)
    ensures HeaderMatches(hm, req, regex) <==>
      match hm.value
      case HeaderExact(expected) => exists v :: Carries(req, hm.name, v) && SameLetters(v, expected)
      case HeaderRegex(pattern) => exists v :: Carries(req, hm.name, v) && regex(pattern, v)
      case HeaderPresent => exists v :: Carries(req, hm.name, v)
      case HeaderAbsent => !exists v :: Carries(req, hm.name, v)
  {
    var val := HeaderValue(req, hm.name);
    forall v ensures val == Some(v) <==> Carries(req, hm.name, v) {
      HeaderValueIff(req, hm.name, v);
    }
    forall v, expected ensures EqIgnoreCase(v, expected) <==> SameLetters(v, expected) {
      EqIgnoreCaseIff(v, expected);
    }
    assert val.Some? ==> Carries(req, hm.name, val.value);
  }

  /** A pair without an equals sign has an empty value. */
  lemma {:induction false} KeyAlone(pair: string)
    requires '=' !in pair
    ensures KeyAndValue(pair) == (pair, [])
  {
    if pair != [] {
      KeyAlone(pair[1..]);
      assert pair == [pair[0]] + pair[1..];
    }
  }

  lemma {:induction false} FirstParamAt(params: seq<(string, string)>, name: string, i: nat)
    requires i < |params| && params[i].0 == name && forall j | 0 <= j < i :: params[j].0 != name
    ensures FirstParam(params, name) == Some(params[i].1)
  {
    if i > 0 {
      FirstParamAt(params[1..], name, i - 1);
    }
  }

  lemma {:induction false} NoSuchParam(params: seq<(string, string)>, name: string)
    requires forall p | p in params :: p.0 != name
    ensures FirstParam(params, name) == None
  {
    if params != [] {
      NoSuchParam(params[1..], name);
    }
  }

  ghost predicate Asks(req: Request, params: seq<(string, string)>) {
    params != [] && (forall p | p in params :: IsParam(p)) && req.query == Some(EncodeQuery(params))
  }

  /** Query tests look at the first parameter of the name, byte for byte. */
  lemma QueryMeaning(qm: QueryMatch, req: Request, params: seq<(string, string)>, i: nat, regex: Regex)
    requires Asks(req, params) && i < |params| && params[i].0 == qm.name && forall j | 0 <= j < i :: params[j].0 != qm.name
    ensures QueryMatches(qm, req, regex) <==>
      match qm.value
      case QueryExact(expected) => params[i].1 == expected
      case QueryRegex(pattern) => regex(pattern, params[i].1)
  {
    QueryRoundTrip(params, qm.name);
    FirstParamAt(params, qm.name, i);
  }

  /** Without the parameter, or without a query, no query test succeeds. */
  lemma QueryMissing(qm: QueryMatch, req: Request, params: seq<(string, string)>, regex: Regex)
    requires req.query == None || (Asks(req, params) && forall p | p in params :: p.0 != qm.name)
    ensures !QueryMatches(qm, req, regex)
  {
    if req.query.Some? {
      QueryRoundTrip(params, qm.name);
      NoSuchParam(params, qm.name);
    }
  }

  /** A match is met when its method, in any case, is the request's and every header and query test succeeds. */
  lemma AttributesMeaning(m: RequestMatch, req: Request, regex: Regex)
    ensures AttributesMatch(m, req, regex) <==>
      && (m.verb.None? || SameLetters(m.verb.value, req.verb))
      && (forall h | h in m.headers :: HeaderMatches(h, req, regex))
      && (forall q | q in m.queryParams :: QueryMatches(q, req, regex))
  {
    if m.verb.Some? {
      EqIgnoreCaseIff(m.verb.value, req.verb);
    }
  }

  // ---- Paths ----

  predicate ExactPathMatches(m: RequestMatch, req: Request) {
    m.path == Some(PathExact(req.path))
  }

  /** A prefix matches whole segments; a match without a path matches every path. */
  predicate LoosePathMatches(m: RequestMatch, req: Request, regex: Regex) {
    match m.path
    case None => true
    case Some(PathPrefix(p)) => Segments(p) <= Segments(req.path)
    case Some(PathRegex(p)) => regex(p, req.path)
    case Some(PathExact(_)) => false
  }

  // ---- Ranking ----

  /** The comparator of `sort_plans`: higher precedence first, then lower rule order. */
  predicate Ranks(a: Plan, b: Plan) {
    a.precedence > b.precedence || (a.precedence == b.precedence && a.ruleOrder <= b.ruleOrder)
  }

  /** Rule `a` beats rule `b`. */
  predicate Beats(a: Rule, b: Rule) {
    || ComputePrecedence(a) > ComputePrecedence(b)
    || (ComputePrecedence(a) == ComputePrecedence(b) && a.ruleOrder < b.ruleOrder)
  }
}
