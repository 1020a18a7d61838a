/** One compiled host: `compile_host` and `HostNode::lookup`. */
module HostRouting {
  import opened Text
  import opened RouteIr
  import opened Precedence
  import opened Matching
  import opened Discriminators
  import opened PathTrie
  import Sorting

  // ---- Flattening rules into plans ----

  function PlanOf(r: Rule, m: RequestMatch, id: nat): Plan {
    Plan(id, ComputePrecedence(r), r.ruleOrder, m, r.action)
  }

  /** The plans of the rules in order, one per request match; the id is the position. */
  function Flatten(rules: seq<Rule>): (plans: seq<Plan>)
    ensures forall i | 0 <= i < |plans| :: plans[i].id == i
  {
    if rules == [] then []
    else
      var before, r := Flatten(rules[..|rules| - 1]), rules[|rules| - 1];
      before + RulePlans(r, |before|)
  }

  function RulePlans(r: Rule, base: nat): (plans: seq<Plan>)
    ensures |plans| == |r.matches|
    ensures forall j | 0 <= j < |plans| :: plans[j] == PlanOf(r, r.matches[j], base + j)
  {
    seq(|r.matches|, j requires 0 <= j < |r.matches| => PlanOf(r, r.matches[j], base + j))
  }

  /** `p` is a plan of rule `r`. */
  predicate PlanOfRule(p: Plan, r: Rule) {
    && p.matches in r.matches && p.action == r.action && p.ruleOrder == r.ruleOrder
    && p.precedence == ComputePrecedence(r)
  }

  lemma {:induction false} FlattenComesFromRules(rules: seq<Rule>, p: Plan)
    requires p in Flatten(rules)
    ensures exists i :: 0 <= i < |rules| && PlanOfRule(p, rules[i])
  {
    var n := |rules|;
    var before, r := Flatten(rules[..n - 1]), rules[n - 1];
    if p in before {
      FlattenComesFromRules(rules[..n - 1], p);
      var i :| 0 <= i < n - 1 && PlanOfRule(p, rules[..n - 1][i]);
      assert PlanOfRule(p, rules[i]);
    } else {
      var k :| 0 <= k < |Flatten(rules)| && Flatten(rules)[k] == p;
      assert p == PlanOf(r, r.matches[k - |before|], k);
      assert PlanOfRule(p, rules[n - 1]);
    }
  }

  lemma {:induction false} FlattenKeepsMatches(rules: seq<Rule>, i: nat, m: RequestMatch)
    requires i < |rules| && m in rules[i].matches
    ensures exists p :: p in Flatten(rules) && p.matches == m && PlanOfRule(p, rules[i])
  {
    var n := |rules|;
    var before, r := Flatten(rules[..n - 1]), rules[n - 1];
    if i < n - 1 {
      FlattenKeepsMatches(rules[..n - 1], i, m);
      var p :| p in before && p.matches == m && PlanOfRule(p, rules[..n - 1][i]);
      assert p in Flatten(rules);
    } else {
      var j :| 0 <= j < |r.matches| && r.matches[j] == m;
      var p := Flatten(rules)[|before| + j];
      assert p == PlanOf(r, m, |before| + j) && p in Flatten(rules) && PlanOfRule(p, rules[i]);
    }
  }

  // ---- Choosing ----

  /** `r` is a best-ranked member of `s`, or `s` is empty. */
  ghost predicate IsBest(r: Option<Plan>, s: set<Plan>) {
    if r.None? then s == {} else r.value in s && forall q | q in s :: Ranks(r.value, q)
  }

  /** `sort_plans`. */
  function RankPlans(plans: seq<Plan>): (r: seq<Plan>)
    ensures Sorting.SortedBy(r, Ranks) && SameMembers(r, plans) && |r| == |plans|
  {
    RanksIsTotalPreorder();
    Sorting.SortIsSorted(plans, Ranks);
    Sorting.SortMembers(plans, Ranks);
    Sorting.Sort(plans, Ranks)
  }

  predicate InTrie(m: RequestMatch) {
    m.path.None? || m.path.value.PathPrefix?
  }

  predicate HasRegexPath(m: RequestMatch) {
    m.path.Some? && m.path.value.PathRegex?
  }

  ghost function MatchingPlans(plans: seq<Plan>, req: Request, regex: Regex): set<Plan> {
    set p | p in plans && AttributesMatch(p.matches, req, regex)
  }

  /** The first matching plan of a ranked list is a best one. */
  method FirstMatch(ranked: seq<Plan>, req: Request, regex: Regex) returns (r: Option<Plan>)
    requires Sorting.SortedBy(ranked, Ranks)
    ensures IsBest(r, MatchingPlans(ranked, req, regex))
  {
    for k := 0 to |ranked|
      invariant forall j | 0 <= j < k :: !AttributesMatch(ranked[j].matches, req, regex)
    {
      var ok := PlanMatches(ranked[k].matches, req, regex);
      if ok {
        assert forall j | k <= j < |ranked| :: Ranks(ranked[k], ranked[j]);
        return Some(ranked[k]);
      }
    }
    return None;
  }

  /** The same, skipping plans whose allocation was already looked at. */
  method FirstUnseenMatch(ranked: seq<Plan>, req: Request, regex: Regex) returns (r: Option<Plan>)
    requires Sorting.SortedBy(ranked, Ranks)
    requires forall p, q | p in ranked && q in ranked && p.id == q.id :: p == q
    ensures IsBest(r, MatchingPlans(ranked, req, regex))
  {
    var seen: set<nat> := {};
    for k := 0 to |ranked|
      invariant forall j | 0 <= j < k :: !AttributesMatch(ranked[j].matches, req, regex)
      invariant seen == set j | 0 <= j < k :: ranked[j].id
    {
      if ranked[k].id !in seen {
        var ok := PlanMatches(ranked[k].matches, req, regex);
        if ok {
          assert forall j | k <= j < |ranked| :: Ranks(ranked[k], ranked[j]);
          return Some(ranked[k]);
        }
      }
      seen := seen + {ranked[k].id};
    }
    return None;
  }

  // ---- Looking up in the three parts ----

  ghost function ExactCandidates(plans: seq<Plan>, req: Request, regex: Regex): set<Plan> {
    set p | p in plans && ExactPathMatches(p.matches, req) && AttributesMatch(p.matches, req, regex)
  }

  /** The plans that match without an exact path, apart from the hidden ones. */
  ghost function LooseCandidates(plans: seq<Plan>, hidden: set<Plan>, req: Request, regex: Regex): set<Plan> {
    set p | p in plans && p !in hidden && LoosePathMatches(p.matches, req, regex) && AttributesMatch(p.matches, req, regex)
  }

  /** The outcome of a lookup that cannot see the hidden plans. */
  ghost predicate IsChoice(r: Option<Plan>, plans: seq<Plan>, hidden: set<Plan>, req: Request, regex: Regex) {
    var exact := ExactCandidates(plans, req, regex);
    IsBest(r, if exact != {} then exact else LooseCandidates(plans, hidden, req, regex))
  }

  method LookupExact(exact: ExactPaths, ghost plans: seq<Plan>, req: Request, regex: Regex) returns (r: Option<Plan>)
    requires HoldsExactPlans(exact, plans)
    requires forall k | k in exact :: Sorting.SortedBy(exact[k], Ranks)
    ensures IsBest(r, ExactCandidates(plans, req, regex))
  {
    if req.path in exact {
      r := FirstMatch(exact[req.path], req, regex);
      assert MatchingPlans(exact[req.path], req, regex) == ExactCandidates(plans, req, regex);
    } else {
      r := None;
    }
  }

  predicate RegexPathMatches(m: RequestMatch, req: Request, regex: Regex) {
    HasRegexPath(m) ==> regex(m.path.value.path, req.path)
  }

  method MatchRegexPlans(regexPlans: seq<Plan>, req: Request, regex: Regex) returns (found: seq<Plan>)
    ensures forall p :: p in found <==>
      p in regexPlans && AttributesMatch(p.matches, req, regex) && RegexPathMatches(p.matches, req, regex)
  {
    found := [];
    for i := 0 to |regexPlans|
      invariant forall p :: p in found <==>
        p in regexPlans[..i] && AttributesMatch(p.matches, req, regex) && RegexPathMatches(p.matches, req, regex)
    {
      var plan := regexPlans[i];
      var ok := PlanMatches(plan.matches, req, regex);
      if ok && RegexPathMatches(plan.matches, req, regex) {
        found := found + [plan];
      }
    }
  }

  /** Ranks the collected plans and takes the first that matches. */
  method PickLoose(collected: seq<Plan>, ghost plans: seq<Plan>, ghost hidden: set<Plan>, req: Request, regex: Regex)
    returns (r: Option<Plan>)
    requires forall i | 0 <= i < |plans| :: plans[i].id == i
    requires forall p | p in collected :: p in plans && p !in hidden && LoosePathMatches(p.matches, req, regex)
    requires forall p | p in LooseCandidates(plans, hidden, req, regex) :: p in collected
    ensures IsBest(r, LooseCandidates(plans, hidden, req, regex))
  {
    var ranked := RankPlans(collected);
    assert forall p :: p in ranked <==> p in collected;
    r := FirstUnseenMatch(ranked, req, regex);
    assert MatchingPlans(ranked, req, regex) == LooseCandidates(plans, hidden, req, regex);
  }

  // ---- Compiling ----

  method FlattenRules(rules: seq<Rule>) returns (plans: seq<Plan>)
    ensures plans == Flatten(rules)
  {
    plans := [];
    for i := 0 to |rules|
      invariant plans == Flatten(rules[..i])
    {
      assert rules[..i + 1][..i] == rules[..i];
      plans := FlattenRule(plans, rules[i]);
    }
    assert rules[..|rules|] == rules;
  }

  method FlattenRule(before: seq<Plan>, r: Rule) returns (plans: seq<Plan>)
    ensures plans == before + RulePlans(r, |before|)
  {
    plans := before;
    for j := 0 to |r.matches|
      invariant plans == before + RulePlans(r, |before|)[..j]
    {
      plans := plans + [PlanOf(r, r.matches[j], |plans|)];
    }
  }

  type ExactPaths = map<string, seq<Plan>>

  ghost predicate HoldsExactPlans(exact: ExactPaths, plans: seq<Plan>) {
    && (forall k, p | k in exact :: p in exact[k] <==> p in plans && p.matches.path == Some(PathExact(k)))
    && (forall p | p in plans && HasExactPath(p.matches) :: p.matches.path.value.path in exact)
  }

  function NonExactCount(plans: seq<Plan>): nat {
    if plans == [] then 0
    else NonExactCount(plans[..|plans| - 1]) + (if HasExactPath(plans[|plans| - 1].matches) then 0 else 1)
  }

  /** The three parts together hold the plans, each in its place. */
  ghost predicate Separated(plans: seq<Plan>, triePlans: seq<Plan>, exact: ExactPaths, regexPlans: seq<Plan>) {
    && (forall p :: p in triePlans <==> p in plans && InTrie(p.matches))
    && (forall p :: p in regexPlans <==> p in plans && HasRegexPath(p.matches))
    && HoldsExactPlans(exact, plans)
    && |triePlans| + |regexPlans| == NonExactCount(plans)
  }

  function PushExactPlan(exact: ExactPaths, path: string, plan: Plan): ExactPaths {
    exact[path := (if path in exact then exact[path] else []) + [plan]]
  }

  lemma SeparateOneMore(plans: seq<Plan>, plan: Plan, triePlans: seq<Plan>, exact: ExactPaths, regexPlans: seq<Plan>)
    requires Separated(plans, triePlans, exact, regexPlans)
    ensures HasRegexPath(plan.matches) ==> Separated(plans + [plan], triePlans, exact, regexPlans + [plan])
    ensures HasExactPath(plan.matches) ==>
      Separated(plans + [plan], triePlans, PushExactPlan(exact, plan.matches.path.value.path, plan), regexPlans)
    ensures InTrie(plan.matches) ==> Separated(plans + [plan], triePlans + [plan], exact, regexPlans)
  {
    assert (plans + [plan])[..|plans|] == plans;
  }

  /** Separates trie plans, exact-path buckets and regex plans. */
  method SeparatePlans(plans: seq<Plan>) returns (triePlans: seq<Plan>, exact: ExactPaths, regexPlans: seq<Plan>)
    ensures Separated(plans, triePlans, exact, regexPlans)
  {
    triePlans, exact, regexPlans := [], map[], [];
    for i := 0 to |plans|
      invariant Separated(plans[..i], triePlans, exact, regexPlans)
    {
      var plan := plans[i];
      assert plans[..i + 1] == plans[..i] + [plan];
      SeparateOneMore(plans[..i], plan, triePlans, exact, regexPlans);
      match plan.matches.path {
        case Some(PathRegex(_)) => regexPlans := regexPlans + [plan];
        case Some(PathExact(path)) => exact := PushExactPlan(exact, path, plan);
        case _ => triePlans := triePlans + [plan];
      }
    }
    assert plans[..|plans|] == plans;
  }

  lemma ExactPlansIgnoreOrder(a: ExactPaths, b: ExactPaths, plans: seq<Plan>)
    requires HoldsExactPlans(a, plans) && a.Keys == b.Keys
    requires forall k | k in a :: SameMembers(b[k], a[k])
    ensures HoldsExactPlans(b, plans)
  {
    forall k, p | k in b ensures p in b[k] <==> p in plans && p.matches.path == Some(PathExact(k)) {
      assert SameMembers(b[k], a[k]);
    }
  }

  ghost predicate ExactRanked(exact: ExactPaths) {
    forall k | k in exact :: Sorting.SortedBy(exact[k], Ranks)
  }

  /** Separates the plans, then ranks every exact-path bucket and the regex list. */
  method SeparateAndRank(plans: seq<Plan>) returns (triePlans: seq<Plan>, exact: ExactPaths, regexPlans: seq<Plan>)
    ensures Separated(plans, triePlans, exact, regexPlans)
    ensures ExactRanked(exact) && Sorting.SortedBy(regexPlans, Ranks)
  {
    var buckets, regexes;
    triePlans, buckets, regexes := SeparatePlans(plans);
    exact := map k | k in buckets :: RankPlans(buckets[k]);
    ExactPlansIgnoreOrder(buckets, exact, plans);
    regexPlans := RankPlans(regexes);
  }

  ghost predicate AllInTrie(plans: seq<Plan>) {
    forall p | p in plans :: InTrie(p.matches)
  }

  /** The parts of a host before its trie is built. */
  method CompileRules(rules: seq<Rule>) returns (triePlans: seq<Plan>, exact: ExactPaths, regexPlans: seq<Plan>)
    ensures Separated(Flatten(rules), triePlans, exact, regexPlans) && ExactRanked(exact) && AllInTrie(triePlans)
    ensures |triePlans| + |regexPlans| == NonExactCount(Flatten(rules))
  {
    var plans := FlattenRules(rules);
    triePlans, exact, regexPlans := SeparateAndRank(plans);
  }

  method FillTrie(triePlans: seq<Plan>) returns (trie: Trie)
    requires AllInTrie(triePlans)
    ensures trie.Collects(triePlans) && fresh(trie.at.Values) && fresh(trie)
  {
    trie := new Trie();
    for i := 0 to |triePlans|
      invariant trie.Collects(triePlans[..i]) && fresh(trie.at.Values) && fresh(trie)
    {
      assert triePlans[..i + 1] == triePlans[..i] + [triePlans[i]];
      trie.InsertNext(triePlans[i], triePlans[..i]);
    }
    assert triePlans[..|triePlans|] == triePlans;
  }

  /** Inserts the plans, then builds the discriminators. */
  method BuildTrie(triePlans: seq<Plan>) returns (trie: Trie)
    requires AllInTrie(triePlans)
    ensures trie.Holds(triePlans)
  {
    trie := FillTrie(triePlans);
    trie.SplitCrowdedNodes();
  }

  method BuildAndCount(triePlans: seq<Plan>) returns (trie: Trie, count: nat)
    requires AllInTrie(triePlans)
    ensures trie.Holds(triePlans) && count == |triePlans|
  {
    trie := BuildTrie(triePlans);
    count := trie.TotalPlanCount(trie.root);
  }

  class HostNode {
    const route: HostRoute
    const trie: Trie
    var exactPaths: ExactPaths
    var regexPlans: seq<Plan>
    /** `rules_count`, taken once when the node is built. */
    const rulesCount: nat
    ghost const triePlans: seq<Plan>

    ghost function Plans(): seq<Plan> {
      Flatten(route.rules)
    }

    /** The trie, the exact buckets and the regex list together hold the host's plans. */
    ghost predicate Compiled()
      reads this, trie, trie.at.Values
    {
      && trie.Holds(triePlans)
      && Separated(Plans(), triePlans, exactPaths, regexPlans)
      && ExactRanked(exactPaths)
    }

    /** `compile_host`. */
    constructor (route: HostRoute)
      ensures Compiled() && this.route == route
      ensures rulesCount == NonExactCount(Plans())
    {
      var forTrie, exact, regexes := CompileRules(route.rules);
      var built, count := BuildAndCount(forTrie);
      rulesCount := count + |regexes|;
      this.route, trie, triePlans := route, built, forTrie;
      exactPaths, regexPlans := exact, regexes;
    }

    /** The trie plans that a discriminator keeps from the request. */
    ghost function Hidden(req: Request): set<Plan>
      reads trie, trie.at.Values
    {
      set p | p in Plans() && InTrie(p.matches) && !trie.Reachable(p, req)
    }

    /** Walks the trie; what it finds are the trie plans on the path that are not hidden. */
    method CollectTriePlans(req: Request) returns (found: seq<Plan>)
      requires Compiled()
      ensures forall p :: p in found <==>
        p in Plans() && InTrie(p.matches) && TrieKey(p.matches) <= Segments(req.path) && p !in Hidden(req)
    {
      found := trie.Walk(Segments(req.path), req);
    }

    method Collect(req: Request, regex: Regex) returns (collected: seq<Plan>)
      requires Compiled()
      ensures forall p | p in collected :: p in Plans() && p !in Hidden(req) && LoosePathMatches(p.matches, req, regex)
      ensures forall p | p in LooseCandidates(Plans(), Hidden(req), req, regex) :: p in collected
    {
      var onPath := CollectTriePlans(req);
      var byRegex := MatchRegexPlans(regexPlans, req, regex);
      collected := onPath + byRegex;
    }

    /** `HostNode::lookup`: exact-path plans first, then everything the trie walk and the regex list give. */
    method Lookup(req: Request, regex: Regex) returns (r: Option<Plan>)
      requires Compiled()
      ensures IsChoice(r, Plans(), Hidden(req), req, regex)
    {
      r := LookupExact(exactPaths, Plans(), req, regex);
      if r.None? {
        var collected := Collect(req, regex);
        r := PickLoose(collected, Plans(), Hidden(req), req, regex);
      }
    }
  }
}
