/** Merging the route tables of several sources by priority (`RouteManager::merge_sources`). */
module SourceMerge {
  import opened Text
  import opened RouteIr
  import Sorting

  // ---- Listing a hash map's keys ----

  /** Some enumeration of a set, standing for hash order. */
  ghost function Listing(ids: set<string>): (r: seq<string>)
    ensures multiset(r) == multiset(ids)
  {
    if ids == {} then []
    else
      var x :| x in ids;
      assert multiset(ids) == multiset{x} + multiset(ids - {x});
      [x] + Listing(ids - {x})
  }

  /** Collects the keys in whatever order the map gives them. */
  method Collect(ids: set<string>) returns (r: seq<string>)
    ensures multiset(r) == multiset(ids)
  {
    r := [];
    var todo := ids;
    while todo != {}
      invariant todo <= ids
      invariant multiset(r) + multiset(todo) == multiset(ids)
    {
      var x :| x in todo;
      r := r + [x];
      todo := todo - {x};
    }
  }

  // ---- Orders ----

  predicate NameLe(a: string, b: string) {
    StringLe(a, b)
  }

  function Priority(priorities: map<string, int>, id: string): int {
    if id in priorities then priorities[id] else 0
  }

  /** Higher priority first; equal priorities by id. */
  predicate Precedes(priorities: map<string, int>, a: string, b: string) {
    || Priority(priorities, a) > Priority(priorities, b)
    || (Priority(priorities, a) == Priority(priorities, b) && StringLe(a, b))
  }

  /** A total order that separates different ids. */
  ghost predicate Linear(le: (string, string) -> bool) {
    Sorting.TotalPreorder(le) && forall a, b | le(a, b) && le(b, a) :: a == b
  }

  lemma NameLeIsLinear()
    ensures Linear(NameLe)
  {
    forall a, b ensures NameLe(a, b) || NameLe(b, a) { StringLeTotal(a, b); }
    forall a, b, c | NameLe(a, b) && NameLe(b, c) ensures NameLe(a, c) { StringLeTransitive(a, b, c); }
    forall a, b | NameLe(a, b) && NameLe(b, a) ensures a == b { StringLeAntisymmetric(a, b); }
  }

  function ByPriority(priorities: map<string, int>): (string, string) -> bool {
    (a, b) => Precedes(priorities, a, b)
  }

  lemma ByPriorityIsLinear(priorities: map<string, int>)
    ensures Linear(ByPriority(priorities))
  {
    var le := ByPriority(priorities);
    forall a, b ensures le(a, b) || le(b, a) { StringLeTotal(a, b); }
    forall a, b, c | le(a, b) && le(b, c) ensures le(a, c) {
      if StringLe(a, b) && StringLe(b, c) { StringLeTransitive(a, b, c); }
    }
    forall a, b | le(a, b) && le(b, a) ensures a == b { StringLeAntisymmetric(a, b); }
  }

  /** The ids in order. */
  ghost function Ordered(ids: set<string>, le: (string, string) -> bool): seq<string> {
    Sorting.Sort(Listing(ids), le)
  }

  /** Sorting forgets the order in which the keys were collected. */
  method CollectOrdered(ids: set<string>, le: (string, string) -> bool) returns (r: seq<string>)
    requires Linear(le)
    ensures r == Ordered(ids, le)
  {
    var keys := Collect(ids);
    r := Sorting.Sort(keys, le);
    Sorting.SortIsSorted(keys, le);
    Sorting.SortIsSorted(Listing(ids), le);
    Sorting.SortedArrangementIsUnique(r, Ordered(ids, le), le);
  }

  lemma ListsOnce(r: seq<string>, ids: set<string>)
    requires multiset(r) == multiset(ids)
    ensures forall x :: x in r <==> x in ids
    ensures forall i, j | 0 <= i < j < |r| :: r[i] != r[j]
  {
    assert forall x :: x in r <==> x in multiset(r);
    forall i, j | 0 <= i < j < |r| ensures r[i] != r[j] {
      assert r == r[..j] + [r[j]] + r[j + 1..];
      assert r[i] in r[..j];
      assert multiset(r)[r[j]] <= 1;
    }
  }

  lemma OrderedProperties(ids: set<string>, le: (string, string) -> bool)
    requires Linear(le)
    ensures var r := Ordered(ids, le);
      && (forall x :: x in r <==> x in ids)
      && Sorting.SortedBy(r, le)
      && (forall i, j | 0 <= i < j < |r| :: r[i] != r[j])
  {
    Sorting.SortIsSorted(Listing(ids), le);
    ListsOnce(Ordered(ids, le), ids);
  }

  // ---- First entry per id ----

  /** `entry(id).or_insert(item)` for each item in turn. */
  function KeepFirst<T>(m: map<string, T>, items: seq<T>, id: T -> string): (r: map<string, T>)
    ensures forall k | k in m :: k in r && r[k] == m[k]
    decreases |items|
  {
    if items == [] then m
    else
      var x := items[0];
      KeepFirst(if id(x) in m then m else m[id(x) := x], items[1..], id)
  }

  method KeepFirstLoop<T>(m: map<string, T>, items: seq<T>, id: T -> string) returns (r: map<string, T>)
    ensures r == KeepFirst(m, items, id)
  {
    r := m;
    for i := 0 to |items|
      invariant KeepFirst(r, items[i..], id) == KeepFirst(m, items, id)
    {
      assert items[i..][1..] == items[i + 1..];
      if id(items[i]) !in r {
        r := r[id(items[i]) := items[i]];
      }
    }
  }

  /** `BTreeMap::into_values`. */
  ghost function ValuesInOrder<T>(m: map<string, T>): (r: seq<T>) {
    NameLeIsLinear();
    OrderedProperties(m.Keys, NameLe);
    var ks := Ordered(m.Keys, NameLe);
    seq(|ks|, i requires 0 <= i < |ks| => m[ks[i]])
  }

  method IntoValues<T>(m: map<string, T>) returns (r: seq<T>)
    ensures r == ValuesInOrder(m)
  {
    NameLeIsLinear();
    OrderedProperties(m.Keys, NameLe);
    var ks := CollectOrdered(m.Keys, NameLe);
    r := seq(|ks|, i requires 0 <= i < |ks| => m[ks[i]]);
  }

  // ---- Merging ----

  datatype Merging = Merging(
    listeners: map<string, ListenerConfig>,
    certs: map<string, TlsCertConfig>,
    hosts: seq<HostRoute>,
    acmeRoutes: map<string, string>,
    l4Routes: seq<L4Route>)

  function ListenerId(l: ListenerConfig): string {
    l.id
  }

  function CertId(c: TlsCertConfig): string {
    c.id
  }

  /** One source's table on top of those merged before it. */
  function MergeTable(m: Merging, t: RouteTable): Merging {
    Merging(KeepFirst(m.listeners, t.listeners, ListenerId), KeepFirst(m.certs, t.tlsCerts, CertId),
            m.hosts + t.hosts, m.acmeRoutes + t.acmeRoutes, m.l4Routes + t.l4Routes)
  }

  const NothingMerged := Merging(map[], map[], [], map[], [])

  function MergeTables(ts: seq<RouteTable>): Merging {
    if ts == [] then NothingMerged else MergeTable(MergeTables(ts[..|ts| - 1]), ts[|ts| - 1])
  }

  function TablesOf(ids: seq<string>, sources: map<string, RouteTable>): seq<RouteTable>
    requires forall i | 0 <= i < |ids| :: ids[i] in sources
  {
    seq(|ids|, i requires 0 <= i < |ids| => sources[ids[i]])
  }

  /** The sources, highest priority first. */
  ghost function RankedSources(sources: map<string, RouteTable>, priorities: map<string, int>): seq<string> {
    Ordered(sources.Keys, ByPriority(priorities))
  }

  ghost function RankedTables(sources: map<string, RouteTable>, priorities: map<string, int>): seq<RouteTable> {
    ByPriorityIsLinear(priorities);
    OrderedProperties(sources.Keys, ByPriority(priorities));
    TablesOf(RankedSources(sources, priorities), sources)
  }

  /** The merged table as a function of the two maps alone. */
  ghost function Merged(sources: map<string, RouteTable>, priorities: map<string, int>): RouteTable {
    var m := MergeTables(RankedTables(sources, priorities));
    RouteTable(ValuesInOrder(m.listeners), m.hosts, m.acmeRoutes, m.l4Routes, ValuesInOrder(m.certs))
  }

  method FoldTables(tables: seq<RouteTable>) returns (m: Merging)
    ensures m == MergeTables(tables)
  {
    m := NothingMerged;
    for i := 0 to |tables|
      invariant m == MergeTables(tables[..i])
    {
      var table := tables[i];
      assert tables[..i + 1][..i] == tables[..i] && tables[..i + 1][i] == table;
      var listeners := KeepFirstLoop(m.listeners, table.listeners, ListenerId);
      var certs := KeepFirstLoop(m.certs, table.tlsCerts, CertId);
      m := Merging(listeners, certs, m.hosts + table.hosts, m.acmeRoutes + table.acmeRoutes, m.l4Routes + table.l4Routes);
    }
    assert tables[..|tables|] == tables;
  }

  method RankTables(sources: map<string, RouteTable>, priorities: map<string, int>) returns (tables: seq<RouteTable>)
    ensures tables == RankedTables(sources, priorities)
  {
    ByPriorityIsLinear(priorities);
    OrderedProperties(sources.Keys, ByPriority(priorities));
    var ranked := CollectOrdered(sources.Keys, ByPriority(priorities));
    tables := TablesOf(ranked, sources);
  }

  /** `merge_sources`: the outcome does not depend on the order in which the hash map is walked. */
  method MergeSources(sources: map<string, RouteTable>, priorities: map<string, int>) returns (merged: RouteTable)
    ensures merged == Merged(sources, priorities)
  {
    var tables := RankTables(sources, priorities);
    var m := FoldTables(tables);
    var ls := IntoValues(m.listeners);
    var cs := IntoValues(m.certs);
    merged := RouteTable(ls, m.hosts, m.acmeRoutes, m.l4Routes, cs);
  }

  // ---- Who wins ----

  function FirstWith<T>(items: seq<T>, id: T -> string, k: string): (r: Option<T>)
    ensures r.Some? ==> r.value in items && id(r.value) == k
  {
    if items == [] then None
    else if id(items[0]) == k then Some(items[0])
    else FirstWith(items[1..], id, k)
  }

  /** The first item with the id, wherever it stands. */
  lemma {:induction false} FirstWithIs<T>(items: seq<T>, id: T -> string, k: string, i: nat)
    requires i < |items| && id(items[i]) == k && forall j | 0 <= j < i :: id(items[j]) != k
    ensures FirstWith(items, id, k) == Some(items[i])
  {
    if i > 0 {
      FirstWithIs(items[1..], id, k, i - 1);
    }
  }

  lemma {:induction false} NoneWith<T>(items: seq<T>, id: T -> string, k: string)
    requires forall x | x in items :: id(x) != k
    ensures FirstWith(items, id, k) == None
  {
    if items != [] {
      NoneWith(items[1..], id, k);
    }
  }

  lemma {:induction false} KeepFirstEntry<T>(m: map<string, T>, items: seq<T>, id: T -> string, k: string)
    ensures var r := KeepFirst(m, items, id);
      && (k in r <==> k in m || FirstWith(items, id, k).Some?)
      && (k in r ==> r[k] == if k in m then m[k] else FirstWith(items, id, k).value)
    decreases |items|
  {
    if items != [] {
      var x := items[0];
      KeepFirstEntry(if id(x) in m then m else m[id(x) := x], items[1..], id, k);
    }
  }

  ghost predicate FirstHasListener(ts: seq<RouteTable>, i: nat, k: string)
    requires i < |ts|
  {
    FirstWith(ts[i].listeners, ListenerId, k).Some? && forall j | 0 <= j < i :: FirstWith(ts[j].listeners, ListenerId, k).None?
  }

  ghost predicate FirstHasCert(ts: seq<RouteTable>, i: nat, k: string)
    requires i < |ts|
  {
    FirstWith(ts[i].tlsCerts, CertId, k).Some? && forall j | 0 <= j < i :: FirstWith(ts[j].tlsCerts, CertId, k).None?
  }

  /** The listener for `k` comes from the first table that has one. */
  lemma {:induction false} FirstTableWins(ts: seq<RouteTable>, i: nat, k: string)
    requires i < |ts| && FirstHasListener(ts, i, k)
    ensures k in MergeTables(ts).listeners && MergeTables(ts).listeners[k] == FirstWith(ts[i].listeners, ListenerId, k).value
  {
    var n := |ts| - 1;
    KeepFirstEntry(MergeTables(ts[..n]).listeners, ts[n].listeners, ListenerId, k);
    if i < n {
      FirstTableWins(ts[..n], i, k);
    } else {
      NobodyHas(ts[..n], k);
    }
  }

  /** The same for certificates. */
  lemma {:induction false} FirstCertWins(ts: seq<RouteTable>, i: nat, k: string)
    requires i < |ts| && FirstHasCert(ts, i, k)
    ensures k in MergeTables(ts).certs && MergeTables(ts).certs[k] == FirstWith(ts[i].tlsCerts, CertId, k).value
  {
    var n := |ts| - 1;
    KeepFirstEntry(MergeTables(ts[..n]).certs, ts[n].tlsCerts, CertId, k);
    if i < n {
      FirstCertWins(ts[..n], i, k);
    } else {
      NobodyHas(ts[..n], k);
    }
  }

  ghost predicate NoListener(ts: seq<RouteTable>, k: string) {
    forall j | 0 <= j < |ts| :: FirstWith(ts[j].listeners, ListenerId, k).None?
  }

  ghost predicate NoCert(ts: seq<RouteTable>, k: string) {
    forall j | 0 <= j < |ts| :: FirstWith(ts[j].tlsCerts, CertId, k).None?
  }

  lemma {:induction false} NobodyHas(ts: seq<RouteTable>, k: string)
    ensures NoListener(ts, k) <==> k !in MergeTables(ts).listeners
    ensures NoCert(ts, k) <==> k !in MergeTables(ts).certs
  {
    if ts != [] {
      var n := |ts| - 1;
      NobodyHas(ts[..n], k);
      OneMoreHas(ts[..n], ts[n], k);
      assert ts == ts[..n] + [ts[n]];
    }
  }

  lemma OneMoreHas(ts: seq<RouteTable>, t: RouteTable, k: string)
    requires NoListener(ts, k) <==> k !in MergeTables(ts).listeners
    requires NoCert(ts, k) <==> k !in MergeTables(ts).certs
    ensures NoListener(ts + [t], k) <==> k !in MergeTable(MergeTables(ts), t).listeners
    ensures NoCert(ts + [t], k) <==> k !in MergeTable(MergeTables(ts), t).certs
  {
    var m := MergeTables(ts);
    KeepFirstEntry(m.listeners, t.listeners, ListenerId, k);
    KeepFirstEntry(m.certs, t.tlsCerts, CertId, k);
    assert (ts + [t])[|ts|] == t && forall j | 0 <= j < |ts| :: (ts + [t])[j] == ts[j];
  }

  lemma {:induction false} FiledUnderOwnId(ts: seq<RouteTable>)
    ensures forall k | k in MergeTables(ts).listeners :: MergeTables(ts).listeners[k].id == k
    ensures forall k | k in MergeTables(ts).certs :: MergeTables(ts).certs[k].id == k
  {
    if ts != [] {
      var n := |ts| - 1;
      var m := MergeTables(ts[..n]);
      FiledUnderOwnId(ts[..n]);
      forall k ensures k in MergeTables(ts).listeners ==> MergeTables(ts).listeners[k].id == k {
        KeepFirstEntry(m.listeners, ts[n].listeners, ListenerId, k);
      }
      forall k ensures k in MergeTables(ts).certs ==> MergeTables(ts).certs[k].id == k {
        KeepFirstEntry(m.certs, ts[n].tlsCerts, CertId, k);
      }
    }
  }

  lemma ValueMembers<T>(m: map<string, T>, x: T)
    ensures x in ValuesInOrder(m) <==> exists k | k in m :: m[k] == x
  {
    NameLeIsLinear();
    OrderedProperties(m.Keys, NameLe);
    var ks := Ordered(m.Keys, NameLe);
    if k :| k in m && m[k] == x {
      var i :| 0 <= i < |ks| && ks[i] == k;
      assert ValuesInOrder(m)[i] == x;
    }
  }

  /** Values filed under their own id come out in strict order of their ids, so each id once. */
  lemma ValuesSorted<T>(m: map<string, T>, id: T -> string)
    requires forall k | k in m :: id(m[k]) == k
    ensures var r := ValuesInOrder(m);
      forall i, j | 0 <= i < j < |r| :: NameLe(id(r[i]), id(r[j])) && id(r[i]) != id(r[j])
  {
    NameLeIsLinear();
    OrderedProperties(m.Keys, NameLe);
    var ks, r := Ordered(m.Keys, NameLe), ValuesInOrder(m);
    forall i, j | 0 <= i < j < |r| ensures NameLe(id(r[i]), id(r[j])) && id(r[i]) != id(r[j]) {
      assert ks[i] in m && ks[j] in m;
    }
  }

  /** Merged listeners and certificates are in strict order of their ids. */
  lemma MergedIdsSorted(sources: map<string, RouteTable>, priorities: map<string, int>)
    ensures var ls := Merged(sources, priorities).listeners;
      forall i, j | 0 <= i < j < |ls| :: NameLe(ls[i].id, ls[j].id) && ls[i].id != ls[j].id
    ensures var cs := Merged(sources, priorities).tlsCerts;
      forall i, j | 0 <= i < j < |cs| :: NameLe(cs[i].id, cs[j].id) && cs[i].id != cs[j].id
  {
    var m := MergeTables(RankedTables(sources, priorities));
    FiledUnderOwnId(RankedTables(sources, priorities));
    ValuesSorted(m.listeners, ListenerId);
    ValuesSorted(m.certs, CertId);
  }

  function HasListener(k: string): RouteTable -> bool {
    (t: RouteTable) => FirstWith(t.listeners, ListenerId, k).Some?
  }

  function HasCert(k: string): RouteTable -> bool {
    (t: RouteTable) => FirstWith(t.tlsCerts, CertId, k).Some?
  }

  /** The source `s` is the highest-ranked one that satisfies `has`. */
  ghost predicate HighestRanked(s: string, sources: map<string, RouteTable>, priorities: map<string, int>, has: RouteTable -> bool) {
    s in sources && has(sources[s]) && forall t | t in sources && has(sources[t]) :: Precedes(priorities, s, t)
  }

  lemma RankOfHighest(s: string, sources: map<string, RouteTable>, priorities: map<string, int>, has: RouteTable -> bool)
    returns (i: nat)
    requires HighestRanked(s, sources, priorities, has)
    ensures var ts := RankedTables(sources, priorities);
      i < |ts| && ts[i] == sources[s] && forall j | 0 <= j < i :: !has(ts[j])
  {
    var le := ByPriority(priorities);
    ByPriorityIsLinear(priorities);
    OrderedProperties(sources.Keys, le);
    var ranked := RankedSources(sources, priorities);
    i :| 0 <= i < |ranked| && ranked[i] == s;
    forall j | 0 <= j < i ensures !has(sources[ranked[j]]) {
      assert le(ranked[j], ranked[i]);
    }
  }

  /** Each listener id is kept once, from the highest-ranked source that has it. */
  lemma HighestListenerWins(s: string, k: string, sources: map<string, RouteTable>, priorities: map<string, int>)
    requires HighestRanked(s, sources, priorities, HasListener(k))
    ensures var l := FirstWith(sources[s].listeners, ListenerId, k).value;
      && l in Merged(sources, priorities).listeners
      && (forall x | x in Merged(sources, priorities).listeners && x.id == k :: x == l)
  {
    var ts := RankedTables(sources, priorities);
    var i := RankOfHighest(s, sources, priorities, HasListener(k));
    FirstTableWins(ts, i, k);
    FiledUnderOwnId(ts);
    var m := MergeTables(ts).listeners;
    ValueMembers(m, m[k]);
    forall x | x in Merged(sources, priorities).listeners && x.id == k ensures x == m[k] {
      ValueMembers(m, x);
    }
  }

  /** The same for certificates. */
  lemma HighestCertWins(s: string, k: string, sources: map<string, RouteTable>, priorities: map<string, int>)
    requires HighestRanked(s, sources, priorities, HasCert(k))
    ensures var c := FirstWith(sources[s].tlsCerts, CertId, k).value;
      && c in Merged(sources, priorities).tlsCerts
      && (forall x | x in Merged(sources, priorities).tlsCerts && x.id == k :: x == c)
  {
    var ts := RankedTables(sources, priorities);
    var i := RankOfHighest(s, sources, priorities, HasCert(k));
    FirstCertWins(ts, i, k);
    FiledUnderOwnId(ts);
    var m := MergeTables(ts).certs;
    ValueMembers(m, m[k]);
    forall x | x in Merged(sources, priorities).tlsCerts && x.id == k ensures x == m[k] {
      ValueMembers(m, x);
    }
  }

  /** ACME routes go the other way: the lowest-ranked source that has a path decides it. */
  lemma {:induction false} LastTableDecidesAcme(ts: seq<RouteTable>, i: nat, path: string)
    requires i < |ts| && path in ts[i].acmeRoutes
    requires forall j | i < j < |ts| :: path !in ts[j].acmeRoutes
    ensures path in MergeTables(ts).acmeRoutes && MergeTables(ts).acmeRoutes[path] == ts[i].acmeRoutes[path]
  {
    var n := |ts| - 1;
    if i < n {
      LastTableDecidesAcme(ts[..n], i, path);
    }
  }

  function HasAcme(path: string): RouteTable -> bool {
    (t: RouteTable) => path in t.acmeRoutes
  }

  /** The source `s` is the lowest-ranked one that satisfies `has`. */
  ghost predicate LowestRanked(s: string, sources: map<string, RouteTable>, priorities: map<string, int>, has: RouteTable -> bool) {
    s in sources && has(sources[s]) && forall t | t in sources && has(sources[t]) :: Precedes(priorities, t, s)
  }

  lemma BelowLowest(s: string, t: string, sources: map<string, RouteTable>, priorities: map<string, int>, has: RouteTable -> bool)
    requires LowestRanked(s, sources, priorities, has) && t in sources && t != s && Precedes(priorities, s, t)
    ensures !has(sources[t])
  {
    ByPriorityIsLinear(priorities);
    var le := ByPriority(priorities);
    assert le(s, t) && le(t, s) ==> s == t;
  }

  /** The sources ranked after `s`. */
  lemma RankOf(s: string, sources: map<string, RouteTable>, priorities: map<string, int>) returns (i: nat)
    requires s in sources
    ensures var ranked, ts := RankedSources(sources, priorities), RankedTables(sources, priorities);
      && i < |ts| == |ranked| && ts[i] == sources[s]
      && (forall j | i < j < |ts| :: ranked[j] in sources && ts[j] == sources[ranked[j]])
      && (forall j | i < j < |ts| :: ranked[j] != s && Precedes(priorities, s, ranked[j]))
  {
    var le := ByPriority(priorities);
    ByPriorityIsLinear(priorities);
    OrderedProperties(sources.Keys, le);
    var ranked := RankedSources(sources, priorities);
    i :| 0 <= i < |ranked| && ranked[i] == s;
    forall j | i < j < |ranked| ensures ranked[j] in sources && ranked[j] != s && Precedes(priorities, s, ranked[j]) {
      assert ranked[j] in ranked && le(ranked[i], ranked[j]);
    }
  }

  lemma RankOfLowest(s: string, sources: map<string, RouteTable>, priorities: map<string, int>, has: RouteTable -> bool)
    returns (i: nat)
    requires LowestRanked(s, sources, priorities, has)
    ensures var ts := RankedTables(sources, priorities);
      i < |ts| && ts[i] == sources[s] && forall j | i < j < |ts| :: !has(ts[j])
  {
    i := RankOf(s, sources, priorities);
    var ranked, ts := RankedSources(sources, priorities), RankedTables(sources, priorities);
    forall j | i < j < |ts| ensures !has(ts[j]) {
      BelowLowest(s, ranked[j], sources, priorities, has);
    }
  }

  /** An ACME path of the merged table comes from the lowest-ranked source that has it. */
  lemma LowestAcmeWins(s: string, path: string, sources: map<string, RouteTable>, priorities: map<string, int>)
    requires LowestRanked(s, sources, priorities, HasAcme(path))
    ensures var routes := Merged(sources, priorities).acmeRoutes;
      path in routes && routes[path] == sources[s].acmeRoutes[path]
  {
    var i := RankOfLowest(s, sources, priorities, HasAcme(path));
    LastTableDecidesAcme(RankedTables(sources, priorities), i, path);
  }
}
