/** The compiled route table: `CompiledRouteTable::compile`, `find_host_node` and `lookup`. */
module RouteTables {
  import opened Text
  import opened RouteIr
  import opened Hostnames
  import opened Matching
  import opened PathTrie
  import opened HostRouting
  import opened LinearScan
  import opened HostRanking
  import Sorting

  type Nodes = seq<HostNode>

  /** Patterns are kept sorted, most specific first. */
  datatype CompiledTable = CompiledTable(
    exactHosts: map<string, seq<HostNode>>,
    patternHosts: seq<HostNode>,
    anyHost: Option<HostNode>)

  // ---- Nodes of hosts ----

  ghost predicate Aligned(nodes: Nodes, hosts: Hosts) {
    |nodes| == |hosts| && forall i | 0 <= i < |hosts| :: nodes[i].route == hosts[i]
  }

  /** The count a node took when it was built. */
  ghost predicate Counted(nodes: Nodes) {
    forall i | 0 <= i < |nodes| :: nodes[i].rulesCount == RulesCount(nodes[i].route)
  }

  function At(nodes: Nodes, idx: seq<nat>): (r: seq<HostNode>)
    requires Positions(idx, |nodes|)
    ensures |r| == |idx|
  {
    seq(|idx|, k requires 0 <= k < |idx| => nodes[idx[k]])
  }

  lemma AtMore(nodes: Nodes, node: HostNode, idx: seq<nat>)
    requires Positions(idx, |nodes|)
    ensures Positions(idx, |nodes + [node]|) && At(nodes + [node], idx) == At(nodes, idx)
  {
  }

  lemma AtTogether(nodes: Nodes, a: seq<nat>, b: seq<nat>)
    requires Positions(a, |nodes|) && Positions(b, |nodes|)
    ensures Positions(a + b, |nodes|) && At(nodes, a + b) == At(nodes, a) + At(nodes, b)
  {
  }

  // ---- What a table holds ----

  function Bucket(exact: map<string, seq<HostNode>>, s: string): seq<HostNode> {
    if s in exact then exact[s] else []
  }

  /** Each bucket holds the hosts of its name in the order declared. */
  ghost predicate BucketHolds(exact: map<string, seq<HostNode>>, hosts: Hosts, nodes: Nodes, s: string) {
    var idx := Indices(hosts, Named(s));
    Positions(idx, |nodes|) && Bucket(exact, s) == At(nodes, idx)
  }

  ghost predicate AnyHolds(any: Option<HostNode>, hosts: Hosts, nodes: Nodes) {
    var idx := LastAny(hosts);
    Positions(idx, |nodes|) && (if idx == [] then any == None else any == Some(nodes[idx[0]]))
  }

  ghost predicate PatternsHold(patterns: seq<HostNode>, nodes: Nodes, order: seq<nat>) {
    Positions(order, |nodes|) && patterns == At(nodes, order)
  }

  /** The table holds the nodes of the hosts: exact ones by name, patterns in the given order, and the
      last catch-all. */
  ghost predicate Holds(t: CompiledTable, hosts: Hosts, nodes: Nodes, order: seq<nat>) {
    && Aligned(nodes, hosts)
    && (forall s :: BucketHolds(t.exactHosts, hosts, nodes, s))
    && PatternsHold(t.patternHosts, nodes, order)
    && AnyHolds(t.anyHost, hosts, nodes)
  }

  /** The same with the patterns ranked. */
  ghost predicate Represents(t: CompiledTable, hosts: Hosts, nodes: Nodes, order: seq<nat>) {
    Holds(t, hosts, nodes, order) && Ranked(hosts, order)
  }

  // ---- Compiling ----

  lemma OneMoreNode(nodes: Nodes, hosts: Hosts, i: nat, node: HostNode)
    requires i < |hosts| && Aligned(nodes, hosts[..i]) && Counted(nodes)
    requires node.route == hosts[i] && node.rulesCount == RulesCount(node.route)
    ensures Aligned(nodes + [node], hosts[..i + 1]) && Counted(nodes + [node])
  {
    assert hosts[..i + 1] == hosts[..i] + [hosts[i]];
  }

  method CompileHosts(hosts: Hosts) returns (nodes: Nodes)
    ensures Aligned(nodes, hosts) && Counted(nodes)
    ensures forall n | n in nodes :: n.Compiled()
  {
    nodes := [];
    for i := 0 to |hosts|
      invariant Aligned(nodes, hosts[..i]) && Counted(nodes)
      invariant forall n | n in nodes :: n.Compiled()
    {
      var node := new HostNode(hosts[i]);
      OneMoreNode(nodes, hosts, i, node);
      nodes := nodes + [node];
    }
    assert hosts[..|hosts|] == hosts;
  }

  function AddNode(t: CompiledTable, node: HostNode): CompiledTable {
    match node.route.hostname
    case HostExact(s) => t.(exactHosts := t.exactHosts[s := Bucket(t.exactHosts, s) + [node]])
    case HostAny => t.(anyHost := Some(node))
    case _ => t.(patternHosts := t.patternHosts + [node])
  }

  lemma AddedToBucket(t: CompiledTable, hosts: Hosts, nodes: Nodes, node: HostNode, s: string)
    requires |nodes| == |hosts| && BucketHolds(t.exactHosts, hosts, nodes, s)
    ensures BucketHolds(AddNode(t, node).exactHosts, hosts + [node.route], nodes + [node], s)
  {
    var idx := Indices(hosts, Named(s));
    IndicesOfMore(hosts, node.route, Named(s));
    AtMore(nodes, node, idx);
    if node.route.hostname == HostExact(s) {
      AtTogether(nodes + [node], idx, [|nodes|]);
    }
  }

  lemma AddedPattern(t: CompiledTable, hosts: Hosts, nodes: Nodes, node: HostNode)
    requires |nodes| == |hosts| && PatternsHold(t.patternHosts, nodes, Indices(hosts, Pattern()))
    ensures PatternsHold(AddNode(t, node).patternHosts, nodes + [node], Indices(hosts + [node.route], Pattern()))
  {
    var idx := Indices(hosts, Pattern());
    IndicesOfMore(hosts, node.route, Pattern());
    AtMore(nodes, node, idx);
    if IsPattern(node.route.hostname) {
      AtTogether(nodes + [node], idx, [|nodes|]);
    }
  }

  lemma AddedAny(t: CompiledTable, hosts: Hosts, nodes: Nodes, node: HostNode)
    requires |nodes| == |hosts| && AnyHolds(t.anyHost, hosts, nodes)
    ensures AnyHolds(AddNode(t, node).anyHost, hosts + [node.route], nodes + [node])
  {
    IndicesOfMore(hosts, node.route, CatchAll());
  }

  lemma AddNodeHolds(t: CompiledTable, hosts: Hosts, nodes: Nodes, node: HostNode)
    requires Holds(t, hosts, nodes, Indices(hosts, Pattern()))
    ensures Holds(AddNode(t, node), hosts + [node.route], nodes + [node], Indices(hosts + [node.route], Pattern()))
  {
    forall s ensures BucketHolds(AddNode(t, node).exactHosts, hosts + [node.route], nodes + [node], s) {
      assert BucketHolds(t.exactHosts, hosts, nodes, s);
      AddedToBucket(t, hosts, nodes, node, s);
    }
    AddedPattern(t, hosts, nodes, node);
    AddedAny(t, hosts, nodes, node);
  }

  method PlaceNodes(hosts: Hosts, nodes: Nodes) returns (t: CompiledTable)
    requires Aligned(nodes, hosts)
    ensures Holds(t, hosts, nodes, Indices(hosts, Pattern()))
  {
    t := CompiledTable(map[], [], None);
    for i := 0 to |hosts|
      invariant Holds(t, hosts[..i], nodes[..i], Indices(hosts[..i], Pattern()))
    {
      assert hosts[..i + 1] == hosts[..i] + [nodes[i].route] && nodes[..i + 1] == nodes[..i] + [nodes[i]];
      AddNodeHolds(t, hosts[..i], nodes[..i], nodes[i]);
      t := AddNode(t, nodes[i]);
    }
    assert hosts[..|hosts|] == hosts && nodes[..|nodes|] == nodes;
  }

  // ---- Sorting the patterns ----

  /** The sort key of a pattern host, with its place in the list. */
  datatype Tag = Tag(score: nat, count: nat, index: nat)

  predicate TagLe(a: Tag, b: Tag) {
    a.score > b.score || (a.score == b.score && a.count <= b.count)
  }

  predicate TagBefore(a: Tag, b: Tag) {
    a.index < b.index
  }

  function MakeTags(nodes: Nodes): seq<Tag> {
    seq(|nodes|, i requires 0 <= i < |nodes| => Tag(Specificity(nodes[i].route.hostname), nodes[i].rulesCount, i))
  }

  /** The sorted tags name every place once, in the stable order. */
  lemma RankedTags(nodes: Nodes)
    ensures var ranked := Sorting.Sort(MakeTags(nodes), TagLe);
      && Sorting.SortedStably(ranked, TagLe, TagBefore)
      && (forall k | 0 <= k < |ranked| :: ranked[k].index < |nodes| && ranked[k] == MakeTags(nodes)[ranked[k].index])
      && (forall i | 0 <= i < |nodes| :: MakeTags(nodes)[i] in ranked)
  {
    var tags := MakeTags(nodes);
    Sorting.SortIsStable(tags, TagLe, TagBefore);
    Sorting.SortMembers(tags, TagLe);
    forall k | 0 <= k < |Sorting.Sort(tags, TagLe)|
      ensures var x := Sorting.Sort(tags, TagLe)[k]; x.index < |nodes| && x == tags[x.index]
    {
      assert Sorting.Sort(tags, TagLe)[k] in tags;
    }
    forall i | 0 <= i < |nodes| ensures tags[i] in Sorting.Sort(tags, TagLe) {
      assert tags[i] in tags;
    }
  }

  function Arrange<T>(items: seq<T>, ranked: seq<Tag>): (r: seq<T>)
    requires forall k | 0 <= k < |ranked| :: ranked[k].index < |items|
    ensures |r| == |ranked| && forall k | 0 <= k < |ranked| :: r[k] == items[ranked[k].index]
  {
    seq(|ranked|, k requires 0 <= k < |ranked| => items[ranked[k].index])
  }

  /** The positions of the pattern hosts, arranged as their sorted tags say, are ranked. */
  lemma ArrangedIsRanked(hosts: Hosts, idx: seq<nat>, tags: seq<Tag>, ranked: seq<Tag>)
    requires AreIndices(idx, hosts, Pattern()) && Increasing(idx) && |tags| == |idx|
    requires forall i | 0 <= i < |idx| :: tags[i] == Tag(Specificity(hosts[idx[i]].hostname), RulesCount(hosts[idx[i]]), i)
    requires Sorting.SortedStably(ranked, TagLe, TagBefore)
    requires forall k | 0 <= k < |ranked| :: ranked[k].index < |idx| && ranked[k] == tags[ranked[k].index]
    requires forall i | 0 <= i < |idx| :: tags[i] in ranked
    ensures Ranked(hosts, Arrange(idx, ranked))
  {
    var order := Arrange(idx, ranked);
    forall k | 0 <= k < |order| ensures order[k] in idx {
    }
    forall i | 0 <= i < |hosts| ensures i in order <==> IsPattern(hosts[i].hostname) {
      if i in idx {
        var at :| 0 <= at < |idx| && idx[at] == i;
        var k :| 0 <= k < |ranked| && ranked[k] == tags[at];
        assert order[k] == i;
      }
    }
    forall a, b | 0 <= a < b < |order| ensures PatternBefore(hosts, order[a], order[b]) {
      assert Sorting.Stably(ranked[a], ranked[b], TagLe, TagBefore);
      ScoresRankNames(hosts[order[a]].hostname, hosts[order[b]].hostname);
    }
  }

  lemma TagsOfHosts(patterns: seq<HostNode>, hosts: Hosts, nodes: Nodes, idx: seq<nat>)
    requires Aligned(nodes, hosts) && Counted(nodes) && PatternsHold(patterns, nodes, idx)
    ensures forall i | 0 <= i < |idx| ::
      MakeTags(patterns)[i] == Tag(Specificity(hosts[idx[i]].hostname), RulesCount(hosts[idx[i]]), i)
  {
  }

  lemma ArrangedNodes(patterns: seq<HostNode>, nodes: Nodes, idx: seq<nat>, ranked: seq<Tag>)
    requires PatternsHold(patterns, nodes, idx)
    requires forall k | 0 <= k < |ranked| :: ranked[k].index < |idx|
    ensures PatternsHold(Arrange(patterns, ranked), nodes, Arrange(idx, ranked))
  {
  }

  /** Stable sort of the pattern hosts by specificity and rule count. */
  method SortPatterns(patterns: seq<HostNode>, ghost hosts: Hosts, ghost nodes: Nodes)
    returns (sorted: seq<HostNode>, ghost order: seq<nat>)
    requires Aligned(nodes, hosts) && Counted(nodes) && PatternsHold(patterns, nodes, Indices(hosts, Pattern()))
    ensures PatternsHold(sorted, nodes, order) && Ranked(hosts, order)
  {
    ghost var idx := Indices(hosts, Pattern());
    IndicesProperties(hosts, Pattern());
    var tags := MakeTags(patterns);
    var ranked := Sorting.Sort(tags, TagLe);
    RankedTags(patterns);
    TagsOfHosts(patterns, hosts, nodes, idx);
    ArrangedIsRanked(hosts, idx, tags, ranked);
    ArrangedNodes(patterns, nodes, idx, ranked);
    sorted, order := Arrange(patterns, ranked), Arrange(idx, ranked);
  }

  /** `CompiledRouteTable::compile`. */
  method Compile(hosts: Hosts) returns (t: CompiledTable, ghost nodes: Nodes, ghost order: seq<nat>)
    ensures Represents(t, hosts, nodes, order)
    ensures forall n | n in nodes :: n.Compiled()
  {
    var compiled := CompileHosts(hosts);
    nodes := compiled;
    t := PlaceNodes(hosts, compiled);
    var sorted;
    sorted, order := SortPatterns(t.patternHosts, hosts, compiled);
    t := t.(patternHosts := sorted);
  }

  // ---- Finding the host ----

  /** `Vec::retain`. */
  function Keep(nodes: Nodes, wanted: HostRoute -> bool): seq<HostNode> {
    if nodes == [] then []
    else
      var k := |nodes| - 1;
      Keep(nodes[..k], wanted) + if wanted(nodes[k].route) then [nodes[k]] else []
  }

  lemma {:induction false} KeepAt(nodes: Nodes, hosts: Hosts, idx: seq<nat>, wanted: HostRoute -> bool)
    requires Aligned(nodes, hosts) && Positions(idx, |hosts|)
    ensures Keep(At(nodes, idx), wanted) == At(nodes, Filter(hosts, idx, wanted))
  {
    if idx != [] {
      var k := |idx| - 1;
      KeepAt(nodes, hosts, idx[..k], wanted);
      assert At(nodes, idx)[..k] == At(nodes, idx[..k]);
    }
  }

  method Retain(nodes: Nodes, wanted: HostRoute -> bool) returns (r: seq<HostNode>)
    ensures r == Keep(nodes, wanted)
  {
    r := [];
    for i := 0 to |nodes|
      invariant r == Keep(nodes[..i], wanted)
    {
      assert nodes[..i + 1][..i] == nodes[..i];
      if wanted(nodes[i].route) {
        r := r + [nodes[i]];
      }
    }
    assert nodes[..|nodes|] == nodes;
  }

  /** The nodes whose hostname matches, exact first, then patterns, then the catch-all. */
  method Candidates(t: CompiledTable, host: string, ghost hosts: Hosts, ghost nodes: Nodes, ghost order: seq<nat>)
    returns (c: seq<HostNode>)
    requires Holds(t, hosts, nodes, order)
    ensures Positions(CandidateIndices(hosts, order, host), |nodes|)
    ensures c == At(nodes, CandidateIndices(hosts, order, host))
  {
    ghost var exact, patterns, any := Indices(hosts, Named(host)), Filter(hosts, order, NameMatches(host)), LastAny(hosts);
    assert BucketHolds(t.exactHosts, hosts, nodes, host);
    c := Bucket(t.exactHosts, host);
    var matching := Retain(t.patternHosts, NameMatches(host));
    KeepAt(nodes, hosts, order, NameMatches(host));
    c := c + matching;
    AtTogether(nodes, exact, patterns);
    AtTogether(nodes, exact + patterns, any);
    if t.anyHost.Some? {
      c := c + [t.anyHost.value];
    }
  }

  function MaxScore(nodes: Nodes, score: HostRoute -> nat): (m: nat)
    ensures forall k | 0 <= k < |nodes| :: score(nodes[k].route) <= m
    ensures nodes != [] ==> exists k | 0 <= k < |nodes| :: score(nodes[k].route) == m
  {
    if nodes == [] then 0
    else
      var n := |nodes| - 1;
      var rest := MaxScore(nodes[..n], score);
      if nodes[..n] != [] && rest >= score(nodes[n].route) then
        assert exists k :: 0 <= k < n && score(nodes[..n][k].route) == rest;
        rest
      else score(nodes[n].route)
  }

  function ListenerScore(): HostRoute -> nat {
    (h: HostRoute) => ListenerSpecificity(h.listenerHostname)
  }

  function RouteScore(): HostRoute -> nat {
    (h: HostRoute) => Specificity(h.hostname)
  }

  function Scores(nodes: Nodes): seq<nat> {
    seq(|nodes|, k requires 0 <= k < |nodes| => Specificity(nodes[k].route.hostname))
  }

  /** `find`: the first node with the greatest route score. */
  method FirstMostSpecific(nodes: Nodes) returns (k: nat)
    requires nodes != []
    ensures FirstBest(Scores(nodes), k)
  {
    var maxRoute := MaxScore(nodes, RouteScore());
    k := 0;
    while Specificity(nodes[k].route.hostname) != maxRoute
      invariant 0 <= k < |nodes|
      invariant forall j | 0 <= j < k :: Specificity(nodes[j].route.hostname) < maxRoute
      decreases |nodes| - k
    {
      assert k + 1 < |nodes|;
      k := k + 1;
    }
  }

  lemma ScoresAt(nodes: Nodes, hosts: Hosts, idx: seq<nat>)
    requires Aligned(nodes, hosts) && Positions(idx, |hosts|)
    ensures Scores(At(nodes, idx)) == HostScores(hosts, idx)
  {
  }

  /** The first node of the greatest route score among those of the greatest listener score. */
  method PickHost(c: seq<HostNode>, ghost hosts: Hosts, ghost nodes: Nodes, ghost idx: seq<nat>)
    returns (r: HostNode, ghost i: nat)
    requires Aligned(nodes, hosts) && Listed(hosts, idx) && idx != [] && c == At(nodes, idx)
    ensures i in idx && i < |nodes| && r == nodes[i]
    ensures forall j | j in idx && j != i :: j < |hosts| && Outranks(hosts, i, j)
  {
    var maxListener := MaxScore(c, ListenerScore());
    var isolated := Retain(c, Isolated(maxListener));
    KeepAt(nodes, hosts, idx, Isolated(maxListener));
    ghost var best := Filter(hosts, idx, Isolated(maxListener));
    GreatestListener(nodes, hosts, idx, maxListener);
    var k := FirstMostSpecific(isolated);
    ScoresAt(nodes, hosts, best);
    r, i := isolated[k], best[k];
    assert best[k] in best;
    forall j | j in idx && j != i ensures j < |hosts| && Outranks(hosts, i, j) {
      FirstOutranks(hosts, idx, maxListener, k, j);
    }
  }

  lemma GreatestListener(nodes: Nodes, hosts: Hosts, idx: seq<nat>, m: nat)
    requires Aligned(nodes, hosts) && Positions(idx, |hosts|) && idx != []
    requires m == MaxScore(At(nodes, idx), ListenerScore())
    ensures IsGreatestListener(hosts, idx, m) && Filter(hosts, idx, Isolated(m)) != []
  {
    var c := At(nodes, idx);
    forall k | 0 <= k < |idx| ensures ListenerSpecificity(hosts[idx[k]].listenerHostname) <= m {
      assert ListenerScore()(c[k].route) <= m;
    }
    var k :| 0 <= k < |c| && ListenerScore()(c[k].route) == m;
    assert ListenerSpecificity(hosts[idx[k]].listenerHostname) == m;
    assert idx[k] in idx && idx[k] in Filter(hosts, idx, Isolated(m));
  }

  /** `find_host_node`: the node of the one host that serves the request, or none when no host takes it. */
  method FindHost(t: CompiledTable, host: string, port: nat, ghost hosts: Hosts, ghost nodes: Nodes, ghost order: seq<nat>)
    returns (r: Option<HostNode>, ghost i: nat)
    requires Represents(t, hosts, nodes, order)
    ensures r.None? <==> NobodyTakes(hosts, host, port)
    ensures r.Some? ==> Serves(hosts, i, host, port) && r.value == nodes[i]
  {
    TakingProperties(hosts, order, host, port);
    var c := Candidates(t, host, hosts, nodes, order);
    KeepAt(nodes, hosts, CandidateIndices(hosts, order, host), Listening(host, port));
    c := Retain(c, Listening(host, port));
    ghost var idx := TakingIndices(hosts, order, host, port);
    if c == [] {
      r, i := None, 0;
    } else {
      var node;
      node, i := PickHost(c, hosts, nodes, idx);
      r := Some(node);
    }
  }

  // ---- Looking up ----

  /** The plan is of the rule a scan of the host's rules chooses. */
  ghost predicate ScanChooses(r: Option<Plan>, h: HostRoute, req: Request, regex: Regex) {
    Agrees(r, h.rules, Scan(h.rules, req, regex))
  }

  /** What the lookup in a host's node gives: the scan's rule if and only if a plan of it can be seen, as
      when the request is spelled as the rules are. */
  ghost predicate Answers(r: Option<Plan>, node: HostNode, req: Request, regex: Regex)
    reads node.trie, node.trie.at.Values
  {
    DistinctOrders(node.route.rules) ==>
      && (ScanChooses(r, node.route, req, regex) <==> WinnerShown(node.route.rules, node.Hidden(req), req, regex))
      && (CanonicalRules(node.route.rules, req) ==> ScanChooses(r, node.route, req, regex))
  }

  method LookupServed(node: HostNode, req: Request, regex: Regex) returns (r: Option<Plan>)
    requires node.Compiled()
    ensures Answers(r, node, req, regex)
  {
    r := LookupRule(node, req, regex);
  }

  /** `CompiledRouteTable::lookup`: pick the host, then look up its plan. */
  method Lookup(t: CompiledTable, host: string, port: nat, req: Request, regex: Regex,
                ghost hosts: Hosts, ghost nodes: Nodes, ghost order: seq<nat>)
    returns (r: Option<Plan>, ghost i: nat)
    requires Represents(t, hosts, nodes, order) && forall n | n in nodes :: n.Compiled()
    ensures NobodyTakes(hosts, host, port) ==> r.None?
    ensures !NobodyTakes(hosts, host, port) ==> Serves(hosts, i, host, port) && Answers(r, nodes[i], req, regex)
  {
    var found;
    found, i := FindHost(t, host, port, hosts, nodes, order);
    if found.None? {
      r := None;
    } else {
      assert found.value in nodes;
      r := LookupServed(found.value, req, regex);
    }
  }
}
