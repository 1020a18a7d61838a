/** The plain scan of a host's rules, and the proof that the compiled lookup agrees with it. */
module LinearScan {
  import opened Text
  import opened RouteIr
  import opened Precedence
  import opened Matching
  import opened Discriminators
  import opened PathTrie
  import opened HostRouting

  // ---- The reference: look at the rules one after the other ----

  /** The match fits the request, with an exact path or without one. */
  predicate Fits(m: RequestMatch, exactly: bool, req: Request, regex: Regex) {
    (if exactly then ExactPathMatches(m, req) else LoosePathMatches(m, req, regex)) && AttributesMatch(m, req, regex)
  }

  predicate RuleFits(r: Rule, exactly: bool, req: Request, regex: Regex) {
    exists m | m in r.matches :: Fits(m, exactly, req, regex)
  }

  /** The index of the first rule that no later wanted rule beats. */
  function ScanFor(rules: seq<Rule>, wanted: Rule -> bool): (best: Option<nat>)
    ensures best.Some? ==> best.value < |rules|
  {
    if rules == [] then None
    else
      var n := |rules| - 1;
      var best := ScanFor(rules[..n], wanted);
      if wanted(rules[n]) && (best.None? || Beats(rules[n], rules[best.value])) then Some(n) else best
  }

  /** A rule with a matching exact path wins over every rule without one. */
  function Scan(rules: seq<Rule>, req: Request, regex: Regex): (best: Option<nat>)
    ensures best.Some? ==> best.value < |rules|
  {
    var exact := ScanFor(rules, r => RuleFits(r, true, req, regex));
    if exact.Some? then exact else ScanFor(rules, r => RuleFits(r, false, req, regex))
  }

  lemma {:induction false} ScanForIsUnbeaten(rules: seq<Rule>, wanted: Rule -> bool)
    ensures var best := ScanFor(rules, wanted);
      if best.None? then forall j | 0 <= j < |rules| :: !wanted(rules[j])
      else wanted(rules[best.value]) && forall j | 0 <= j < |rules| && wanted(rules[j]) :: !Beats(rules[j], rules[best.value])
  {
    if rules != [] {
      var n := |rules| - 1;
      ScanForIsUnbeaten(rules[..n], wanted);
      assert forall j | 0 <= j < n :: rules[..n][j] == rules[j];
    }
  }

  // ---- Agreement ----

  ghost predicate DistinctOrders(rules: seq<Rule>) {
    forall i, j | 0 <= i < j < |rules| :: rules[i].ruleOrder != rules[j].ruleOrder
  }

  /** The lookup's plan belongs to the rule the scan chose. */
  ghost predicate Agrees(r: Option<Plan>, rules: seq<Rule>, chosen: Option<nat>)
    requires chosen.Some? ==> chosen.value < |rules|
  {
    if chosen.None? then r.None? else r.Some? && PlanOfRule(r.value, rules[chosen.value])
  }

  /** Every fitting rule contributes a fitting plan, and every fitting plan comes from such a rule. */
  lemma FittingPlan(rules: seq<Rule>, i: nat, exactly: bool, req: Request, regex: Regex)
    requires i < |rules| && RuleFits(rules[i], exactly, req, regex)
    ensures exists p :: p in Flatten(rules) && PlanOfRule(p, rules[i]) && Fits(p.matches, exactly, req, regex)
  {
    var m :| m in rules[i].matches && Fits(m, exactly, req, regex);
    FlattenKeepsMatches(rules, i, m);
  }

  lemma FittingRule(rules: seq<Rule>, p: Plan, exactly: bool, req: Request, regex: Regex) returns (i: nat)
    requires p in Flatten(rules) && Fits(p.matches, exactly, req, regex)
    ensures i < |rules| && PlanOfRule(p, rules[i]) && RuleFits(rules[i], exactly, req, regex)
  {
    FlattenComesFromRules(rules, p);
    i :| 0 <= i < |rules| && PlanOfRule(p, rules[i]);
  }

  /** Best plan and unbeaten rule coincide when rule orders are distinct. */
  lemma SameRule(rules: seq<Rule>, i: nat, j: nat, p: Plan, q: Plan)
    requires DistinctOrders(rules) && i < |rules| && j < |rules|
    requires PlanOfRule(p, rules[i]) && PlanOfRule(q, rules[j])
    requires !Beats(rules[i], rules[j]) && Ranks(p, q)
    ensures i == j
  {
    assert p.precedence == ComputePrecedence(rules[i]) && q.precedence == ComputePrecedence(rules[j]);
  }

  /** The scan of one phase against a best plan among some of that phase's plans. */
  lemma PhaseAgrees(rules: seq<Rule>, exactly: bool, shown: set<Plan>, r: Option<Plan>, best: nat, req: Request, regex: Regex)
    requires DistinctOrders(rules) && best < |rules|
    requires RuleFits(rules[best], exactly, req, regex)
    requires forall j | 0 <= j < |rules| && RuleFits(rules[j], exactly, req, regex) :: !Beats(rules[j], rules[best])
    requires forall p | p in shown :: p in Flatten(rules) && Fits(p.matches, exactly, req, regex)
    requires IsBest(r, shown)
    ensures Agrees(r, rules, Some(best)) <==> exists p :: p in shown && PlanOfRule(p, rules[best])
  {
    if p :| p in shown && PlanOfRule(p, rules[best]) {
      var i := FittingRule(rules, r.value, exactly, req, regex);
      SameRule(rules, i, best, r.value, p);
    }
  }

  /** The scan's winner has a matching plan that the lookup can see. */
  ghost predicate WinnerShown(rules: seq<Rule>, hidden: set<Plan>, req: Request, regex: Regex)
  {
    var chosen := Scan(rules, req, regex);
    chosen.Some? ==>
      || RuleFits(rules[chosen.value], true, req, regex)
      || exists p :: p in LooseCandidates(Flatten(rules), hidden, req, regex) && PlanOfRule(p, rules[chosen.value])
  }

  /** The compiled lookup finds the scan's rule exactly when that rule has a plan it can see. */
  lemma LookupAgreesIffWinnerShown(rules: seq<Rule>, hidden: set<Plan>, r: Option<Plan>, req: Request, regex: Regex)
    requires DistinctOrders(rules)
    requires IsChoice(r, Flatten(rules), hidden, req, regex)
    ensures Agrees(r, rules, Scan(rules, req, regex)) <==> WinnerShown(rules, hidden, req, regex)
  {
    var plans := Flatten(rules);
    var exact := ScanFor(rules, r => RuleFits(r, true, req, regex));
    ScanForIsUnbeaten(rules, r => RuleFits(r, true, req, regex));
    if exact.Some? {
      FittingPlan(rules, exact.value, true, req, regex);
      var p :| p in plans && PlanOfRule(p, rules[exact.value]) && Fits(p.matches, true, req, regex);
      assert p in ExactCandidates(plans, req, regex);
      PhaseAgrees(rules, true, ExactCandidates(plans, req, regex), r, exact.value, req, regex);
    } else {
      if p :| p in ExactCandidates(plans, req, regex) {
        var i := FittingRule(rules, p, true, req, regex);
        assert false;
      }
      LoosePhaseAgrees(rules, hidden, r, req, regex);
    }
  }

  lemma LoosePhaseAgrees(rules: seq<Rule>, hidden: set<Plan>, r: Option<Plan>, req: Request, regex: Regex)
    requires DistinctOrders(rules)
    requires forall j | 0 <= j < |rules| :: !RuleFits(rules[j], true, req, regex)
    requires IsBest(r, LooseCandidates(Flatten(rules), hidden, req, regex))
    ensures Agrees(r, rules, Scan(rules, req, regex)) <==> WinnerShown(rules, hidden, req, regex)
  {
    ScanForIsUnbeaten(rules, r => RuleFits(r, true, req, regex));
    ScanForIsUnbeaten(rules, r => RuleFits(r, false, req, regex));
    var shown := LooseCandidates(Flatten(rules), hidden, req, regex);
    var chosen := Scan(rules, req, regex);
    if chosen.Some? {
      PhaseAgrees(rules, false, shown, r, chosen.value, req, regex);
    } else if p :| p in shown {
      var i := FittingRule(rules, p, false, req, regex);
      assert false;
    }
  }

  // ---- What the scan's winner means ----

  /** Among rules whose counts fit 16 bits, the winner is lexicographically maximal in (path length,
      method, headers, query parameters) within its phase, and the earliest of its equals. */
  lemma WinnerIsLexMaximal(rules: seq<Rule>, j: nat, req: Request, regex: Regex)
    requires forall k | 0 <= k < |rules| :: InRange(RuleFields(rules[k].matches))
    requires Scan(rules, req, regex).Some? && j < |rules|
    requires RuleFits(rules[j], RuleFits(rules[Scan(rules, req, regex).value], true, req, regex), req, regex)
    ensures var w := rules[Scan(rules, req, regex).value];
      && !LexLess(RuleFields(w.matches), RuleFields(rules[j].matches))
      && (RuleFields(w.matches) == RuleFields(rules[j].matches) ==> w.ruleOrder <= rules[j].ruleOrder)
  {
    ScanForIsUnbeaten(rules, r => RuleFits(r, true, req, regex));
    ScanForIsUnbeaten(rules, r => RuleFits(r, false, req, regex));
    PrecedenceOrdersRules(rules[Scan(rules, req, regex).value], rules[j]);
  }

  /** The same in terms of the matches: no rule of the winner's phase has a longer path; with paths as long,
      none names a method the winner lacks, and so on for headers and query parameters. */
  lemma WinnerLaw(rules: seq<Rule>, j: nat, req: Request, regex: Regex, path: nat, verb: bool, headers: nat, queries: nat,
                  path': nat, verb': bool, headers': nat, queries': nat)
    requires Scan(rules, req, regex).Some? && j < |rules|
    requires RuleFits(rules[j], RuleFits(rules[Scan(rules, req, regex).value], true, req, regex), req, regex)
    requires Measures(rules[Scan(rules, req, regex).value].matches, path, verb, headers, queries)
    requires Measures(rules[j].matches, path', verb', headers', queries')
    requires path < 65536 && headers < 65536 && queries < 65536 && path' < 65536 && headers' < 65536 && queries' < 65536
    ensures path >= path'
    ensures path == path' && verb' ==> verb
    ensures path == path' && verb == verb' ==> headers >= headers'
    ensures path == path' && verb == verb' && headers == headers' ==> queries >= queries'
    ensures path == path' && verb == verb' && headers == headers' && queries == queries' ==>
      rules[Scan(rules, req, regex).value].ruleOrder <= rules[j].ruleOrder
  {
    ScanForIsUnbeaten(rules, r => RuleFits(r, true, req, regex));
    ScanForIsUnbeaten(rules, r => RuleFits(r, false, req, regex));
    PrecedenceLaw(rules[Scan(rules, req, regex).value], rules[j], path, verb, headers, queries, path', verb', headers', queries');
  }

  /** A match names exactly the request's path and its other tests succeed. */
  ghost predicate NamesPath(r: Rule, req: Request, regex: Regex) {
    exists m | m in r.matches :: m.path == Some(PathExact(req.path)) && AttributesMatch(m, req, regex)
  }

  /** A match has no path, a prefix of the request's path, or a pattern it meets, and its other tests succeed. */
  ghost predicate CoversPath(r: Rule, req: Request, regex: Regex) {
    exists m | m in r.matches ::
      && (m.path.None? || (m.path.value.PathPrefix? && Segments(m.path.value.path) <= Segments(req.path))
          || (m.path.value.PathRegex? && regex(m.path.value.path, req.path)))
      && AttributesMatch(m, req, regex)
  }

  /** A rule that names the path comes before every rule that only covers it; nothing is found exactly when
      no rule does either. */
  lemma ExactPathFirst(rules: seq<Rule>, req: Request, regex: Regex)
    ensures var chosen := Scan(rules, req, regex);
      && (chosen.None? <==> forall r | r in rules :: !NamesPath(r, req, regex) && !CoversPath(r, req, regex))
      && (chosen.Some? && (exists r | r in rules :: NamesPath(r, req, regex)) ==> NamesPath(rules[chosen.value], req, regex))
      && (chosen.Some? && !NamesPath(rules[chosen.value], req, regex) ==> CoversPath(rules[chosen.value], req, regex))
  {
    ScanForIsUnbeaten(rules, r => RuleFits(r, true, req, regex));
    ScanForIsUnbeaten(rules, r => RuleFits(r, false, req, regex));
    forall r ensures RuleFits(r, true, req, regex) <==> NamesPath(r, req, regex) {
      FitsExactly(r, req, regex);
    }
    forall r ensures RuleFits(r, false, req, regex) <==> CoversPath(r, req, regex) {
      FitsLoosely(r, req, regex);
    }
  }

  lemma FitsExactly(r: Rule, req: Request, regex: Regex)
    ensures RuleFits(r, true, req, regex) <==> NamesPath(r, req, regex)
  {
    forall m | m in r.matches ensures Fits(m, true, req, regex) <==> m.path == Some(PathExact(req.path)) && AttributesMatch(m, req, regex) {
    }
  }

  lemma FitsLoosely(r: Rule, req: Request, regex: Regex)
    ensures RuleFits(r, false, req, regex) <==> CoversPath(r, req, regex)
  {
    forall m | m in r.matches && Fits(m, false, req, regex) ensures CoversPath(r, req, regex) {
    }
  }

  predicate PrefixOnly(r: Rule) {
    && |r.matches| == 1 && r.matches[0].path.Some? && r.matches[0].path.value.PathPrefix?
    && r.matches[0].verb.None? && r.matches[0].headers == [] && r.matches[0].queryParams == []
  }

  function PrefixOf(r: Rule): string
    requires PrefixOnly(r)
  {
    r.matches[0].path.value.path
  }

  lemma PrefixRule(r: Rule, req: Request, regex: Regex)
    requires PrefixOnly(r)
    ensures RuleFields(r.matches) == Fields(|PrefixOf(r)|, 0, 0, 0)
    ensures !RuleFits(r, true, req, regex)
    ensures RuleFits(r, false, req, regex) <==> Segments(PrefixOf(r)) <= Segments(req.path)
  {
    assert r.matches == [r.matches[0]] && r.matches[0] in r.matches;
  }

  /** With plain prefix rules the longest matching prefix wins. */
  lemma LongestPrefixWins(rules: seq<Rule>, j: nat, req: Request, regex: Regex)
    requires forall k | 0 <= k < |rules| :: PrefixOnly(rules[k])
    requires forall k | 0 <= k < |rules| :: |PrefixOf(rules[k])| < LANE
    requires j < |rules| && Segments(PrefixOf(rules[j])) <= Segments(req.path)
    ensures Scan(rules, req, regex).Some?
    ensures var w := rules[Scan(rules, req, regex).value];
      Segments(PrefixOf(w)) <= Segments(req.path) && |PrefixOf(w)| >= |PrefixOf(rules[j])|
  {
    ScanForIsUnbeaten(rules, r => RuleFits(r, true, req, regex));
    ScanForIsUnbeaten(rules, r => RuleFits(r, false, req, regex));
    forall k | 0 <= k < |rules|
      ensures RuleFields(rules[k].matches) == Fields(|PrefixOf(rules[k])|, 0, 0, 0)
      ensures !RuleFits(rules[k], true, req, regex)
      ensures RuleFits(rules[k], false, req, regex) <==> Segments(PrefixOf(rules[k])) <= Segments(req.path)
    {
      PrefixRule(rules[k], req, regex);
    }
    WinnerIsLexMaximal(rules, j, req, regex);
  }

  /** On canonical paths a prefix matches whole segments: `/foo` covers `/foo/bar` and not `/foobar`. */
  lemma CanonicalPrefixMatch(prefix: seq<string>, path: seq<string>, m: RequestMatch, req: Request, regex: Regex)
    requires forall i | 0 <= i < |prefix| :: IsSegment(prefix[i])
    requires forall i | 0 <= i < |path| :: IsSegment(path[i])
    requires m.path == Some(PathPrefix(Join(prefix))) && req.path == Join(path)
    ensures LoosePathMatches(m, req, regex) <==> prefix <= path
  {
    SegmentsOfJoin(prefix);
    SegmentsOfJoin(path);
  }

  // ---- What hides a plan ----

  /** The request spells the method, and every header value a rule names, as the rule does. */
  predicate CanonicalCase(m: RequestMatch, req: Request) {
    && (m.verb.Some? && EqIgnoreCase(m.verb.value, req.verb) ==> m.verb.value == req.verb)
    && (forall i | 0 <= i < |m.headers| && m.headers[i].value.HeaderExact? ::
          var v := HeaderValue(req, m.headers[i].name);
          v.Some? && EqIgnoreCase(v.value, m.headers[i].value.value) ==> v.value == m.headers[i].value.value)
  }

  predicate CanonicalRules(rules: seq<Rule>, req: Request) {
    forall i, k | 0 <= i < |rules| && 0 <= k < |rules[i].matches| :: CanonicalCase(rules[i].matches[k], req)
  }

  lemma CanonicalIsVisible(a: Attribute, m: RequestMatch, req: Request, regex: Regex)
    requires CanonicalCase(m, req) && AttributesMatch(m, req, regex)
    ensures Visible(a, m, req)
  {
    HiddenOnlyByCase(a, m, req, regex);
    if a.ByHeader? && SlotOf(a, m).Bucket? {
      FirstHeaderIsAMatch(m.headers, a.name);
      var i :| 0 <= i < |m.headers| && m.headers[i] == HeaderMatch(a.name, FirstHeader(m.headers, a.name).value);
      assert m.headers[i].value.HeaderExact?;
    }
  }

  /** The plan's trie node is split by an attribute that the request spells in another case. */
  ghost predicate LostToCase(node: HostNode, p: Plan, req: Request)
    reads node.trie, node.trie.at.Values
  {
    var q := TrieKey(p.matches);
    && InTrie(p.matches) && q in node.trie.at && node.trie.at[q].discriminator.Some?
    && SpelledDifferently(node.trie.at[q].discriminator.value.attribute, p.matches, req)
  }

  lemma HiddenIffLostToCase(node: HostNode, p: Plan, req: Request, regex: Regex)
    requires p in node.Plans() && AttributesMatch(p.matches, req, regex)
    ensures p in node.Hidden(req) <==> LostToCase(node, p, req)
  {
    var q := TrieKey(p.matches);
    if q in node.trie.at && node.trie.at[q].discriminator.Some? {
      HiddenOnlyByCase(node.trie.at[q].discriminator.value.attribute, p.matches, req, regex);
    }
  }

  lemma CanonicalRulesShowWinner(node: HostNode, req: Request, regex: Regex)
    requires CanonicalRules(node.route.rules, req)
    ensures WinnerShown(node.route.rules, node.Hidden(req), req, regex)
  {
    var rules := node.route.rules;
    var chosen := Scan(rules, req, regex);
    if chosen.Some? && !RuleFits(rules[chosen.value], true, req, regex) {
      var i := chosen.value;
      ScanForIsUnbeaten(rules, r => RuleFits(r, true, req, regex));
      ScanForIsUnbeaten(rules, r => RuleFits(r, false, req, regex));
      FittingPlan(rules, i, false, req, regex);
      var p :| p in Flatten(rules) && PlanOfRule(p, rules[i]) && Fits(p.matches, false, req, regex);
      var k :| 0 <= k < |rules[i].matches| && rules[i].matches[k] == p.matches;
      HiddenIffLostToCase(node, p, req, regex);
      if LostToCase(node, p, req) {
        CanonicalIsVisible(node.trie.at[TrieKey(p.matches)].discriminator.value.attribute, p.matches, req, regex);
      }
      assert p in LooseCandidates(Flatten(rules), node.Hidden(req), req, regex);
    }
  }

  /** The lookup of a compiled host, stated against the scan of its rules. */
  method LookupRule(node: HostNode, req: Request, regex: Regex) returns (r: Option<Plan>)
    requires node.Compiled()
    ensures DistinctOrders(node.route.rules) ==>
      (Agrees(r, node.route.rules, Scan(node.route.rules, req, regex))
       <==> WinnerShown(node.route.rules, node.Hidden(req), req, regex))
    ensures DistinctOrders(node.route.rules) && CanonicalRules(node.route.rules, req) ==>
      Agrees(r, node.route.rules, Scan(node.route.rules, req, regex))
  {
    r := node.Lookup(req, regex);
    if DistinctOrders(node.route.rules) {
      LookupAgreesIffWinnerShown(node.route.rules, node.Hidden(req), r, req, regex);
      if CanonicalRules(node.route.rules, req) {
        CanonicalRulesShowWinner(node, req, regex);
      }
    }
  }

  // ---- Small hosts hide nothing ----

  lemma {:induction false} NonExactAtMost(plans: seq<Plan>)
    ensures NonExactCount(plans) <= |plans|
  {
    if plans != [] {
      NonExactAtMost(plans[..|plans| - 1]);
    }
  }

  lemma SlotsHoldNode(trie: Trie, q: seq<string>)
    requires trie.Valid() && q in trie.at
    ensures |trie.Slots([])| >= trie.PlanCountAt(q)
  {
    var n := trie.PlanCountAt(q);
    trie.OwnSlotsCount(q, n);
    assert trie.OwnSlots(q, n) <= trie.Slots([]);
    SubsetCount(trie.OwnSlots(q, n), trie.Slots([]));
  }

  lemma {:induction false} SubsetCount<T>(a: set<T>, b: set<T>)
    requires a <= b
    ensures |a| <= |b|
  {
    if a != {} {
      var x :| x in a;
      SubsetCount(a - {x}, b - {x});
    }
  }

  /** A host of at most eight matches finds every plan, however the request is spelled. */
  lemma FewPlansHideNothing(node: HostNode, req: Request)
    requires node.Compiled() && |node.Plans()| <= 8
    ensures node.Hidden(req) == {}
  {
    NonExactAtMost(node.Plans());
    forall p | p in node.Plans() && InTrie(p.matches) ensures node.trie.Reachable(p, req) {
      var q := TrieKey(p.matches);
      if q in node.trie.at {
        SlotsHoldNode(node.trie, q);
        assert node.trie.at[q].SplitWhenCrowded();
      }
    }
  }

  // ---- A lookup that misses ----

  const GetLowerCase := RequestMatch(None, Some("get"), [], [])

  function LowerCaseRules(): seq<Rule> {
    seq(9, i requires 0 <= i < 9 => Rule([GetLowerCase], i, i))
  }

  lemma {:induction false} OnlyMethodsUsed(plans: seq<Plan>, a: Attribute)
    requires forall p | p in plans :: p.matches == GetLowerCase
    ensures MethodCount(plans) == |plans|
    ensures AllNames(a, plans) == []
  {
    if plans != [] {
      OnlyMethodsUsed(plans[1..], a);
      OnlyMethodsUsed(plans[..|plans| - 1], a);
    }
  }

  lemma {:induction false} CountLowerCasePlans(rules: seq<Rule>)
    requires forall i | 0 <= i < |rules| :: rules[i].matches == [GetLowerCase]
    ensures NonExactCount(Flatten(rules)) == |rules|
    ensures forall p | p in Flatten(rules) :: p.matches == GetLowerCase
  {
    if rules != [] {
      var init, plans := rules[..|rules| - 1], Flatten(rules);
      CountLowerCasePlans(init);
      assert plans[..|plans| - 1] == Flatten(init);
    }
  }

  lemma EmptyOrMember(s: seq<Plan>)
    ensures s == [] || exists p :: p in s
  {
    if s != [] {
      assert s[0] in s;
    }
  }

  /** All nine plans share the root. */
  lemma RootIsCrowded(t: Trie, plans: seq<Plan>)
    requires t.Holds(plans) && forall p | p in plans :: TrieKey(p.matches) == []
    ensures |t.root.prefixPlans| + |t.root.exactPlans| == |plans|
  {
    forall q | q != [] ensures t.PlanCountAt(q) == 0 {
      assert forall p | p in t.PrefixAt(q) || p in t.ExactAt(q) :: TrieKey(p.matches) == q && t.Stored(p);
      EmptyOrMember(t.PrefixAt(q));
      EmptyOrMember(t.ExactAt(q));
    }
    assert t.Slots([]) == t.OwnSlots([], t.PlanCountAt([]));
    t.OwnSlotsCount([], t.PlanCountAt([]));
  }

  lemma MethodIsMostUsed(plans: seq<Plan>, a: Attribute)
    requires forall p | p in plans :: p.matches == GetLowerCase
    requires plans != [] && MostUsed(a, plans)
    ensures a == ByMethod
  {
    OnlyMethodsUsed(plans, a);
    assert Occurrences(ByMethod, plans) == |plans|;
  }

  lemma SplitByMethod(t: Trie, plans: seq<Plan>)
    requires t.Holds(plans) && |plans| == 9
    requires forall p | p in plans :: p.matches == GetLowerCase
    ensures t.root.discriminator.Some? && t.root.discriminator.value.attribute == ByMethod
  {
    RootIsCrowded(t, plans);
    var atRoot := t.root.prefixPlans + t.root.exactPlans;
    forall p | p in atRoot ensures p.matches == GetLowerCase {
      assert p in t.PrefixAt([]) || p in t.ExactAt([]);
      assert t.Stored(p);
    }
    assert t.root.SplitWhenCrowded();
    MethodIsMostUsed(atRoot, t.root.discriminator.value.attribute);
  }

  lemma {:induction false} ScansFirst(rules: seq<Rule>, n: nat, req: Request, regex: Regex)
    requires rules == LowerCaseRules() && 0 < n <= 9 && EqIgnoreCase("get", req.verb)
    ensures ScanFor(rules[..n], r => RuleFits(r, false, req, regex)) == Some(0)
    ensures ScanFor(rules[..n], r => RuleFits(r, true, req, regex)) == None
  {
    var m := n - 1;
    assert rules[..n][..m] == rules[..m] && rules[..n][m] == rules[m];
    assert Fits(rules[m].matches[0], false, req, regex) && rules[m].matches[0] in rules[m].matches;
    assert !RuleFits(rules[m], true, req, regex);
    if m > 0 {
      ScansFirst(rules, m, req, regex);
    }
  }

  lemma GetIgnoresCase()
    ensures EqIgnoreCase("get", "GET")
  {
    assert Lower("get") == Lower("GET") == "get";
  }

  lemma AllInTrie(node: HostNode)
    requires node.Compiled() && node.route.rules == LowerCaseRules()
    ensures |node.triePlans| == 9 && forall p | p in node.Plans() :: p in node.triePlans && p.matches == GetLowerCase
    ensures forall p | p in node.triePlans :: p.matches == GetLowerCase
  {
    CountLowerCasePlans(node.route.rules);
    EmptyOrMember(node.regexPlans);
  }

  lemma NothingShown(node: HostNode, req: Request, regex: Regex)
    requires node.Compiled() && node.route.rules == LowerCaseRules() && req.verb == "GET"
    ensures ExactCandidates(node.Plans(), req, regex) == {}
    ensures LooseCandidates(node.Plans(), node.Hidden(req), req, regex) == {}
  {
    AllInTrie(node);
    SplitByMethod(node.trie, node.triePlans);
    forall p | p in node.Plans() ensures p in node.Hidden(req) {
      assert TrieKey(p.matches) == [] && node.trie.at[[]] == node.trie.root;
    }
  }

  lemma ScanFindsFirst(req: Request, regex: Regex)
    requires EqIgnoreCase("get", req.verb)
    ensures Scan(LowerCaseRules(), req, regex) == Some(0)
  {
    ScansFirst(LowerCaseRules(), 9, req, regex);
    assert LowerCaseRules()[..9] == LowerCaseRules();
  }

  method LookupMisses(node: HostNode, req: Request, regex: Regex) returns (r: Option<Plan>)
    requires node.Compiled() && node.route.rules == LowerCaseRules() && req.verb == "GET"
    ensures r.None?
  {
    NothingShown(node, req, regex);
    r := node.Lookup(req, regex);
  }

  method CompileLowerCase() returns (node: HostNode)
    ensures node.Compiled() && node.route.rules == LowerCaseRules()
  {
    node := new HostNode(HostRoute(HostAny, None, None, true, LowerCaseRules()));
  }

  /** Nine rules for method `get` crowd one node, which is then split by method.  A `GET` request
      matches all nine, the scan takes the first, and the compiled lookup finds nothing. */
  method MissedByCase(req: Request, regex: Regex) returns (r: Option<Plan>)
    requires req.verb == "GET"
    ensures r.None? && Scan(LowerCaseRules(), req, regex) == Some(0)
  {
    var node := CompileLowerCase();
    r := LookupMisses(node, req, regex);
    GetIgnoresCase();
    ScanFindsFirst(req, regex);
  }
}
