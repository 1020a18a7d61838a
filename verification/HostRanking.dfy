/** Which host of a route table serves a request: the order behind `CompiledRouteTable::compile` and
    `find_host_node`, stated on the positions of the hosts in the table. */
module HostRanking {
  import opened Text
  import opened RouteIr
  import opened Hostnames
  import opened HostRouting

  type Hosts = seq<HostRoute>

  // ---- The order ----

  predicate IsPattern(hm: HostnameMatch) {
    hm.HostPrefix? || hm.HostWildcard?
  }

  /** `rules_count`: exact-path plans do not count. */
  function RulesCount(h: HostRoute): nat {
    NonExactCount(Flatten(h.rules))
  }

  /** Patterns: more specific first, then fewer rules first, then as declared. */
  predicate PatternBefore(hosts: Hosts, i: nat, j: nat)
    requires i < |hosts| && j < |hosts|
  {
    var a, b := hosts[i], hosts[j];
    || Finer(a.hostname, b.hostname)
    || (AsFine(a.hostname, b.hostname)
        && (RulesCount(a) < RulesCount(b) || (RulesCount(a) == RulesCount(b) && i < j)))
  }

  /** Candidates are listed exact hostnames first, then patterns, then the catch-all. */
  function Group(hm: HostnameMatch): nat {
    if hm.HostExact? then 0 else if IsPattern(hm) then 1 else 2
  }

  predicate ListedBefore(hosts: Hosts, i: nat, j: nat)
    requires i < |hosts| && j < |hosts|
  {
    var g, h := Group(hosts[i].hostname), Group(hosts[j].hostname);
    g < h || (g == h && if g == 1 then PatternBefore(hosts, i, j) else i < j)
  }

  /** The more specific listener, then the more specific hostname, then the one listed first. */
  predicate Outranks(hosts: Hosts, i: nat, j: nat)
    requires i < |hosts| && j < |hosts|
  {
    var a, b := hosts[i], hosts[j];
    var l, m := ListenerName(a.listenerHostname), ListenerName(b.listenerHostname);
    Finer(l, m) || (AsFine(l, m) &&
      (Finer(a.hostname, b.hostname) || (AsFine(a.hostname, b.hostname) && ListedBefore(hosts, i, j))))
  }

  /** Of several catch-all hosts only the last one is kept. */
  predicate Kept(hosts: Hosts, i: nat)
    requires i < |hosts|
  {
    hosts[i].hostname.HostAny? ==> forall j | i < j < |hosts| :: !hosts[j].hostname.HostAny?
  }

  /** Host `i` is kept and takes the request. */
  predicate Takes(hosts: Hosts, i: nat, host: string, port: nat)
    requires i < |hosts|
  {
    Kept(hosts, i) && Accepts(hosts[i], host, port)
  }

  /** Host `i` serves the request: every other host that takes it is outranked. */
  ghost predicate Serves(hosts: Hosts, i: nat, host: string, port: nat) {
    && i < |hosts| && Takes(hosts, i, host, port)
    && forall j | 0 <= j < |hosts| && j != i && Takes(hosts, j, host, port) :: Outranks(hosts, i, j)
  }

  ghost predicate NobodyTakes(hosts: Hosts, host: string, port: nat) {
    forall i | 0 <= i < |hosts| :: !Takes(hosts, i, host, port)
  }

  lemma FinerOneWay(a: HostnameMatch, b: HostnameMatch)
    ensures !(Finer(a, b) && Finer(b, a))
  {
    ScoresRankNames(a, b);
    ScoresRankNames(b, a);
  }

  lemma OutranksOneWay(hosts: Hosts, i: nat, j: nat)
    requires i < |hosts| && j < |hosts| && i != j
    ensures Outranks(hosts, i, j) <==> !Outranks(hosts, j, i)
  {
    FinerOneWay(hosts[i].hostname, hosts[j].hostname);
    FinerOneWay(ListenerName(hosts[i].listenerHostname), ListenerName(hosts[j].listenerHostname));
  }

  /** At most one host serves a request. */
  lemma ServesOnce(hosts: Hosts, i: nat, j: nat, host: string, port: nat)
    requires Serves(hosts, i, host, port) && Serves(hosts, j, host, port)
    ensures i == j
  {
    if i != j {
      OutranksOneWay(hosts, i, j);
    }
  }

  // ---- What serving means ----

  ghost predicate SameListenerRank(hosts: Hosts, i: nat, j: nat)
    requires i < |hosts| && j < |hosts|
  {
    AsFine(ListenerName(hosts[i].listenerHostname), ListenerName(hosts[j].listenerHostname))
  }

  /** No host that takes the request is on a more specific listener than the one that serves it. */
  lemma ListenerDecides(hosts: Hosts, i: nat, j: nat, host: string, port: nat)
    requires Serves(hosts, i, host, port) && j < |hosts| && Takes(hosts, j, host, port)
    ensures !Finer(ListenerName(hosts[j].listenerHostname), ListenerName(hosts[i].listenerHostname))
  {
    if i != j {
      FinerOneWay(ListenerName(hosts[i].listenerHostname), ListenerName(hosts[j].listenerHostname));
    }
  }

  /** On equally specific listeners an exact name is served before a prefix, a prefix before a wildcard, a
      wildcard before one with fewer dots, and the catch-all last, as long as wildcards have fewer than 900,
      or 400, dots. */
  lemma KindDecides(hosts: Hosts, i: nat, j: nat, host: string, port: nat)
    requires Serves(hosts, i, host, port) && j < |hosts| && Takes(hosts, j, host, port) && SameListenerRank(hosts, i, j)
    ensures var a, b := hosts[i].hostname, hosts[j].hostname;
      && (b.HostExact? ==> a.HostExact? || (a.HostWildcard? && Count(a.name, '.') > 900))
      && (b.HostPrefix? ==> a.HostExact? || a.HostPrefix? || (a.HostWildcard? && Count(a.name, '.') >= 400))
      && (b.HostWildcard? ==> !a.HostAny? && (a.HostWildcard? ==> Count(a.name, '.') >= Count(b.name, '.')))
      && (a.HostExact? && b.HostWildcard? ==> Count(b.name, '.') <= 900)
      && (a.HostPrefix? && b.HostWildcard? ==> Count(b.name, '.') <= 400)
  {
    if i != j {
      FinerOneWay(hosts[i].hostname, hosts[j].hostname);
    }
  }

  /** Of hosts with the same name on equally specific listeners, the first declared is served; of patterns,
      the one with the fewest matches without an exact path. */
  lemma TieDecides(hosts: Hosts, i: nat, j: nat, host: string, port: nat)
    requires Serves(hosts, i, host, port) && j < |hosts| && j != i && Takes(hosts, j, host, port)
    requires SameListenerRank(hosts, i, j) && hosts[i].hostname == hosts[j].hostname
    ensures hosts[i].hostname.HostExact? ==> i < j
    ensures IsPattern(hosts[i].hostname) ==>
      NonExactCount(Flatten(hosts[i].rules)) <= NonExactCount(Flatten(hosts[j].rules))
    ensures IsPattern(hosts[i].hostname) && NonExactCount(Flatten(hosts[i].rules)) == NonExactCount(Flatten(hosts[j].rules)) ==> i < j
  {
    FinerOneWay(hosts[i].hostname, hosts[j].hostname);
  }

  /** Only the last catch-all host ever serves, and it does when it alone accepts the request. */
  lemma LastCatchAllServes(hosts: Hosts, i: nat, host: string, port: nat)
    requires i < |hosts| && hosts[i].hostname.HostAny?
    ensures Serves(hosts, i, host, port) ==> forall j | i < j < |hosts| :: !hosts[j].hostname.HostAny?
    ensures Accepts(hosts[i], host, port) && (forall j | i < j < |hosts| :: !hosts[j].hostname.HostAny?)
      && (forall j | 0 <= j < |hosts| && !hosts[j].hostname.HostAny? :: !Accepts(hosts[j], host, port))
      ==> Serves(hosts, i, host, port)
  {
  }

  // ---- Lists of positions ----

  ghost predicate Positions(idx: seq<nat>, n: nat) {
    forall k | 0 <= k < |idx| :: idx[k] < n
  }

  ghost predicate Increasing(idx: seq<nat>) {
    forall a, b | 0 <= a < b < |idx| :: idx[a] < idx[b]
  }

  ghost predicate Listed(hosts: Hosts, idx: seq<nat>) {
    Positions(idx, |hosts|) && forall a, b | 0 <= a < b < |idx| :: ListedBefore(hosts, idx[a], idx[b])
  }

  /** The positions of the hosts whose hostname is wanted, in order. */
  function Indices(hosts: Hosts, wanted: HostnameMatch -> bool): seq<nat> {
    if hosts == [] then []
    else
      var n := |hosts| - 1;
      Indices(hosts[..n], wanted) + if wanted(hosts[n].hostname) then [n] else []
  }

  ghost predicate AreIndices(idx: seq<nat>, hosts: Hosts, wanted: HostnameMatch -> bool) {
    && Positions(idx, |hosts|)
    && forall i | 0 <= i < |hosts| :: i in idx <==> wanted(hosts[i].hostname)
  }

  lemma IndicesOfOneMore(idx: seq<nat>, hosts: Hosts, wanted: HostnameMatch -> bool)
    requires hosts != [] && AreIndices(idx, hosts[..|hosts| - 1], wanted) && Increasing(idx)
    ensures var n := |hosts| - 1;
      var more := idx + if wanted(hosts[n].hostname) then [n] else [];
      AreIndices(more, hosts, wanted) && Increasing(more)
  {
    var n := |hosts| - 1;
    forall i | 0 <= i < n ensures i in idx <==> wanted(hosts[i].hostname) {
      assert hosts[..n][i] == hosts[i];
    }
  }

  lemma {:induction false} IndicesProperties(hosts: Hosts, wanted: HostnameMatch -> bool)
    ensures AreIndices(Indices(hosts, wanted), hosts, wanted) && Increasing(Indices(hosts, wanted))
  {
    if hosts != [] {
      var init := hosts[..|hosts| - 1];
      IndicesProperties(init, wanted);
      IndicesOfOneMore(Indices(init, wanted), hosts, wanted);
    }
  }

  lemma IndicesOfMore(hosts: Hosts, h: HostRoute, wanted: HostnameMatch -> bool)
    ensures Indices(hosts + [h], wanted) == Indices(hosts, wanted) + if wanted(h.hostname) then [|hosts|] else []
  {
    assert (hosts + [h])[..|hosts|] == hosts;
  }

  function Named(s: string): HostnameMatch -> bool {
    (hm: HostnameMatch) => hm == HostExact(s)
  }

  function Pattern(): HostnameMatch -> bool {
    (hm: HostnameMatch) => IsPattern(hm)
  }

  function CatchAll(): HostnameMatch -> bool {
    (hm: HostnameMatch) => hm.HostAny?
  }

  /** `Vec::retain` on positions. */
  function Filter(hosts: Hosts, idx: seq<nat>, wanted: HostRoute -> bool): (r: seq<nat>)
    requires Positions(idx, |hosts|)
    ensures Positions(r, |hosts|)
    ensures forall i :: i in r <==> i in idx && i < |hosts| && wanted(hosts[i])
  {
    if idx == [] then []
    else
      var k := |idx| - 1;
      assert idx == idx[..k] + [idx[k]];
      Filter(hosts, idx[..k], wanted) + if wanted(hosts[idx[k]]) then [idx[k]] else []
  }

  lemma AppendListed(hosts: Hosts, idx: seq<nat>, i: nat)
    requires Listed(hosts, idx) && i < |hosts| && forall a | a in idx :: a < |hosts| && ListedBefore(hosts, a, i)
    ensures Listed(hosts, idx + [i])
  {
    var more := idx + [i];
    forall a, b | 0 <= a < b < |more| ensures ListedBefore(hosts, more[a], more[b]) {
      assert b == |idx| ==> more[a] in idx;
    }
  }

  lemma {:induction false} FilterListed(hosts: Hosts, idx: seq<nat>, wanted: HostRoute -> bool)
    requires Listed(hosts, idx)
    ensures Listed(hosts, Filter(hosts, idx, wanted))
  {
    if idx != [] {
      var k := |idx| - 1;
      var r := Filter(hosts, idx[..k], wanted);
      FilterListed(hosts, idx[..k], wanted);
      forall a | a in r ensures a < |hosts| && ListedBefore(hosts, a, idx[k]) {
        var at :| 0 <= at < k && idx[at] == a;
      }
      AppendListed(hosts, r, idx[k]);
    }
  }

  /** The patterns in their order. */
  ghost predicate Ranked(hosts: Hosts, order: seq<nat>) {
    && AreIndices(order, hosts, Pattern())
    && forall a, b | 0 <= a < b < |order| :: PatternBefore(hosts, order[a], order[b])
  }

  function NameMatches(host: string): HostRoute -> bool {
    (h: HostRoute) => HostnameMatches(host, h.hostname)
  }

  function Listening(host: string, port: nat): HostRoute -> bool {
    (h: HostRoute) => ListenerHostnameMatches(host, h.listenerHostname) && ListenerPortMatches(port, h.listenerPort)
  }

  /** The last catch-all. */
  function LastAny(hosts: Hosts): seq<nat> {
    var any := Indices(hosts, CatchAll());
    if any == [] then [] else [any[|any| - 1]]
  }

  lemma LastAnyIsKept(hosts: Hosts, i: nat)
    ensures Positions(LastAny(hosts), |hosts|) && |LastAny(hosts)| <= 1
    ensures i in LastAny(hosts) <==> i < |hosts| && hosts[i].hostname.HostAny? && Kept(hosts, i)
  {
    IndicesProperties(hosts, CatchAll());
    var any := Indices(hosts, CatchAll());
    forall j | 0 <= j < |hosts| && hosts[j].hostname.HostAny? ensures any != [] && j <= any[|any| - 1] {
      var k :| 0 <= k < |any| && any[k] == j;
    }
    if any != [] {
      assert any[|any| - 1] in any;
    }
  }

  /** The candidates of a host name in the order they are listed. */
  function CandidateIndices(hosts: Hosts, order: seq<nat>, host: string): seq<nat>
    requires Positions(order, |hosts|)
  {
    Indices(hosts, Named(host)) + Filter(hosts, order, NameMatches(host)) + LastAny(hosts)
  }

  /** All positions are of hosts of one group. */
  ghost predicate OfGroup(hosts: Hosts, idx: seq<nat>, g: nat) {
    Positions(idx, |hosts|) && forall k | 0 <= k < |idx| :: Group(hosts[idx[k]].hostname) == g
  }

  lemma PatternsListed(hosts: Hosts, order: seq<nat>)
    requires Ranked(hosts, order)
    ensures Listed(hosts, order)
  {
    forall a, b | 0 <= a < b < |order| ensures ListedBefore(hosts, order[a], order[b]) {
      assert order[a] in order && order[b] in order;
    }
  }

  lemma PatternGroup(hosts: Hosts, order: seq<nat>, host: string)
    requires Ranked(hosts, order)
    ensures OfGroup(hosts, Filter(hosts, order, NameMatches(host)), 1)
  {
    var r := Filter(hosts, order, NameMatches(host));
    forall k | 0 <= k < |r| ensures Group(hosts[r[k]].hostname) == 1 {
      assert r[k] in r && r[k] in order;
    }
  }

  lemma ExactGroup(hosts: Hosts, host: string)
    ensures var exact := Indices(hosts, Named(host)); OfGroup(hosts, exact, 0) && Listed(hosts, exact)
  {
    IndicesProperties(hosts, Named(host));
    var exact := Indices(hosts, Named(host));
    forall k | 0 <= k < |exact| ensures hosts[exact[k]].hostname.HostExact? {
      assert exact[k] in exact;
    }
  }

  lemma AnyGroup(hosts: Hosts)
    ensures OfGroup(hosts, LastAny(hosts), 2) && Listed(hosts, LastAny(hosts))
  {
    var any := LastAny(hosts);
    if any != [] {
      LastAnyIsKept(hosts, any[0]);
      assert any[0] in any;
    }
  }

  /** Lists of groups before `h`, followed by one of group `h`. */
  lemma ListedTogether(hosts: Hosts, a: seq<nat>, b: seq<nat>, h: nat)
    requires Listed(hosts, a) && Listed(hosts, b) && OfGroup(hosts, b, h)
    requires forall k | 0 <= k < |a| :: Group(hosts[a[k]].hostname) < h
    ensures Listed(hosts, a + b)
  {
    var c := a + b;
    forall i, j | 0 <= i < j < |c| ensures ListedBefore(hosts, c[i], c[j]) {
      assert i < |a| <= j ==> c[i] == a[i] && c[j] == b[j - |a|];
    }
  }

  lemma CandidatesListed(hosts: Hosts, order: seq<nat>, host: string)
    requires Ranked(hosts, order)
    ensures Listed(hosts, CandidateIndices(hosts, order, host))
  {
    PatternsListed(hosts, order);
    FilterListed(hosts, order, NameMatches(host));
    ExactGroup(hosts, host);
    PatternGroup(hosts, order, host);
    AnyGroup(hosts);
    ListedTogether(hosts, Indices(hosts, Named(host)), Filter(hosts, order, NameMatches(host)), 1);
    ListedTogether(hosts, Indices(hosts, Named(host)) + Filter(hosts, order, NameMatches(host)), LastAny(hosts), 2);
  }

  lemma CandidateMembers(hosts: Hosts, order: seq<nat>, host: string, i: nat)
    requires Ranked(hosts, order)
    ensures i in CandidateIndices(hosts, order, host) <==>
      i < |hosts| && Kept(hosts, i) && HostnameMatches(host, hosts[i].hostname)
  {
    IndicesProperties(hosts, Named(host));
    LastAnyIsKept(hosts, i);
  }

  /** The candidates that also listen are those that take the request. */
  function TakingIndices(hosts: Hosts, order: seq<nat>, host: string, port: nat): seq<nat>
    requires Positions(order, |hosts|) && Positions(CandidateIndices(hosts, order, host), |hosts|)
  {
    Filter(hosts, CandidateIndices(hosts, order, host), Listening(host, port))
  }

  lemma TakingProperties(hosts: Hosts, order: seq<nat>, host: string, port: nat)
    requires Ranked(hosts, order)
    ensures Positions(CandidateIndices(hosts, order, host), |hosts|)
    ensures Listed(hosts, TakingIndices(hosts, order, host, port))
    ensures forall i | 0 <= i < |hosts| :: i in TakingIndices(hosts, order, host, port) <==> Takes(hosts, i, host, port)
  {
    CandidatesListed(hosts, order, host);
    FilterListed(hosts, CandidateIndices(hosts, order, host), Listening(host, port));
    forall i | 0 <= i < |hosts| ensures i in TakingIndices(hosts, order, host, port) <==> Takes(hosts, i, host, port) {
      CandidateMembers(hosts, order, host, i);
    }
  }

  // ---- The first of the best ----

  /** `k` is the first position in the list whose score is greatest. */
  ghost predicate FirstBest(scores: seq<nat>, k: nat) {
    && k < |scores| && (forall j | 0 <= j < |scores| :: scores[j] <= scores[k])
    && (forall j | 0 <= j < k :: scores[j] < scores[k])
  }

  function HostScores(hosts: Hosts, idx: seq<nat>): seq<nat>
    requires Positions(idx, |hosts|)
  {
    seq(|idx|, k requires 0 <= k < |idx| => Specificity(hosts[idx[k]].hostname))
  }

  /** The listener of host `i` scores `m`. */
  function Isolated(m: nat): HostRoute -> bool {
    (h: HostRoute) => ListenerSpecificity(h.listenerHostname) == m
  }

  ghost predicate IsGreatestListener(hosts: Hosts, idx: seq<nat>, m: nat)
    requires Positions(idx, |hosts|)
  {
    && (forall k | 0 <= k < |idx| :: ListenerSpecificity(hosts[idx[k]].listenerHostname) <= m)
    && exists k | 0 <= k < |idx| :: ListenerSpecificity(hosts[idx[k]].listenerHostname) == m
  }

  lemma FirstBestOutranks(hosts: Hosts, best: seq<nat>, k: nat, j: nat, m: nat)
    requires Listed(hosts, best) && FirstBest(HostScores(hosts, best), k) && j < |best| && j != k
    requires ListenerSpecificity(hosts[best[j]].listenerHostname) == ListenerSpecificity(hosts[best[k]].listenerHostname) == m
    ensures Outranks(hosts, best[k], best[j])
  {
    assert HostScores(hosts, best)[j] == Specificity(hosts[best[j]].hostname);
    assert HostScores(hosts, best)[k] == Specificity(hosts[best[k]].hostname);
    assert k < j ==> ListedBefore(hosts, best[k], best[j]);
    ScoresRankNames(hosts[best[k]].hostname, hosts[best[j]].hostname);
    ScoresRankListeners(hosts[best[k]].listenerHostname, hosts[best[j]].listenerHostname);
  }

  lemma ListenerOf(hosts: Hosts, idx: seq<nat>, m: nat, i: nat)
    requires Positions(idx, |hosts|) && IsGreatestListener(hosts, idx, m) && i in idx
    ensures i < |hosts| && ListenerSpecificity(hosts[i].listenerHostname) <= m
    ensures ListenerSpecificity(hosts[i].listenerHostname) == m <==> i in Filter(hosts, idx, Isolated(m))
  {
    var at :| 0 <= at < |idx| && idx[at] == i;
  }

  /** The first host of the greatest route score among those of the greatest listener score outranks all
      others in the list. */
  lemma FirstOutranks(hosts: Hosts, idx: seq<nat>, m: nat, k: nat, i: nat)
    requires Listed(hosts, idx) && IsGreatestListener(hosts, idx, m)
    requires FirstBest(HostScores(hosts, Filter(hosts, idx, Isolated(m))), k)
    requires i in idx && i != Filter(hosts, idx, Isolated(m))[k]
    ensures i < |hosts| && Outranks(hosts, Filter(hosts, idx, Isolated(m))[k], i)
  {
    var best := Filter(hosts, idx, Isolated(m));
    assert best[k] in best;
    ListenerOf(hosts, idx, m, best[k]);
    ListenerOf(hosts, idx, m, i);
    ScoresRankListeners(hosts[best[k]].listenerHostname, hosts[i].listenerHostname);
    if i in best {
      var j :| 0 <= j < |best| && best[j] == i;
      FilterListed(hosts, idx, Isolated(m));
      FirstBestOutranks(hosts, best, k, j, m);
    }
  }
}
