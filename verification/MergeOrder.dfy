/** The order in which a merged table lists the hosts and L4 routes of its sources. */
module MergeOrder {
  import opened Text
  import opened RouteIr
  import opened SourceMerge
  import opened MapSums
  import Sorting

  // ---- Which source comes first ----

  /** `s` comes before `t`: by a higher recorded priority, 0 if none is recorded, or by its name. */
  ghost predicate ComesFirst(s: string, t: string, priorities: map<string, int>) {
    var p := if s in priorities then priorities[s] else 0;
    var q := if t in priorities then priorities[t] else 0;
    p > q || (p == q && exists i: nat :: FirstDiffer(s, t, i))
  }

  lemma PrecedesIff(s: string, t: string, priorities: map<string, int>)
    requires s != t
    ensures Precedes(priorities, s, t) <==> ComesFirst(s, t, priorities)
  {
    StringLeIff(s, t);
  }

  function HostsOf(t: RouteTable): seq<HostRoute> {
    t.hosts
  }

  function RoutesOf(t: RouteTable): seq<L4Route> {
    t.l4Routes
  }

  // ---- Lists one after the other ----

  /** The lists of the tables one after the other. */
  ghost function Joined<T>(ts: seq<RouteTable>, part: RouteTable -> seq<T>): seq<T> {
    if ts == [] then [] else Joined(ts[..|ts| - 1], part) + part(ts[|ts| - 1])
  }

  lemma {:induction false} MergedParts(ts: seq<RouteTable>)
    ensures MergeTables(ts).hosts == Joined(ts, HostsOf) && MergeTables(ts).l4Routes == Joined(ts, RoutesOf)
  {
    if ts != [] {
      MergedParts(ts[..|ts| - 1]);
    }
  }

  /** Where the list of table `i` starts. */
  ghost function Offset<T>(ts: seq<RouteTable>, part: RouteTable -> seq<T>, i: nat): nat
    requires i <= |ts|
  {
    |Joined(ts[..i], part)|
  }

  lemma OffsetStep<T>(ts: seq<RouteTable>, part: RouteTable -> seq<T>, i: nat)
    requires i < |ts|
    ensures Offset(ts, part, i + 1) == Offset(ts, part, i) + |part(ts[i])|
  {
    assert ts[..i + 1][..i] == ts[..i];
  }

  lemma {:induction false} OffsetsRise<T>(ts: seq<RouteTable>, part: RouteTable -> seq<T>, i: nat, j: nat)
    requires i < j <= |ts|
    ensures Offset(ts, part, i) + |part(ts[i])| <= Offset(ts, part, j)
  {
    if i + 1 == j {
      OffsetStep(ts, part, i);
    } else {
      OffsetsRise(ts, part, i, j - 1);
      OffsetStep(ts, part, j - 1);
    }
  }

  lemma {:induction false} BlockAt<T>(ts: seq<RouteTable>, part: RouteTable -> seq<T>, i: nat)
    requires i < |ts|
    ensures var k := Offset(ts, part, i);
      k + |part(ts[i])| <= |Joined(ts, part)| && Joined(ts, part)[k..k + |part(ts[i])|] == part(ts[i])
  {
    var n := |ts| - 1;
    if i < n {
      BlockAt(ts[..n], part, i);
      assert ts[..n][..i] == ts[..i];
    }
  }

  lemma {:induction false} InSomeBlock<T>(ts: seq<RouteTable>, part: RouteTable -> seq<T>, p: nat) returns (i: nat)
    requires p < |Joined(ts, part)|
    ensures i < |ts| && Offset(ts, part, i) <= p < Offset(ts, part, i) + |part(ts[i])|
  {
    var n := |ts| - 1;
    if p < |Joined(ts[..n], part)| {
      i := InSomeBlock(ts[..n], part, p);
      assert ts[..n][..i] == ts[..i];
    } else {
      i := n;
    }
  }

  // ---- Blocks ----

  /** The ids of the sources in rank order, and their tables. */
  ghost predicate IsRanking(ids: seq<string>, ts: seq<RouteTable>, sources: map<string, RouteTable>, priorities: map<string, int>) {
    && |ts| == |ids|
    && (forall i | 0 <= i < |ids| :: ids[i] in sources && ts[i] == sources[ids[i]])
    && (forall s | s in sources :: s in ids)
    && (forall i, j | 0 <= i < j < |ids| :: ids[i] != ids[j] && Precedes(priorities, ids[i], ids[j]))
  }

  lemma RankedIsRanking(sources: map<string, RouteTable>, priorities: map<string, int>)
    ensures IsRanking(RankedSources(sources, priorities), RankedTables(sources, priorities), sources, priorities)
  {
    var le := ByPriority(priorities);
    ByPriorityIsLinear(priorities);
    OrderedProperties(sources.Keys, le);
    var ids := RankedSources(sources, priorities);
    forall i, j | 0 <= i < j < |ids| ensures Precedes(priorities, ids[i], ids[j]) {
      assert le(ids[i], ids[j]);
    }
  }

  ghost function IndexOf(ids: seq<string>, s: string): (i: nat)
    requires s in ids
    ensures i < |ids| && ids[i] == s
  {
    var i :| 0 <= i < |ids| && ids[i] == s;
    i
  }

  lemma RankedBefore(ids: seq<string>, ts: seq<RouteTable>, sources: map<string, RouteTable>, priorities: map<string, int>, i: nat, j: nat)
    requires IsRanking(ids, ts, sources, priorities) && i < |ids| && j < |ids| && i != j
    ensures ComesFirst(ids[i], ids[j], priorities) <==> i < j
  {
    PrecedesIff(ids[i], ids[j], priorities);
    PrecedesOneWay(ids[i], ids[j], priorities);
  }

  lemma PrecedesOneWay(s: string, t: string, priorities: map<string, int>)
    requires s != t
    ensures !(Precedes(priorities, s, t) && Precedes(priorities, t, s))
  {
    if StringLe(s, t) && StringLe(t, s) {
      StringLeAntisymmetric(s, t);
    }
  }

  /** `mine` is one block of `all` that starts at `k`. */
  ghost predicate IsBlock<T>(all: seq<T>, mine: seq<T>, k: nat) {
    k + |mine| <= |all| && all[k..k + |mine|] == mine
  }

  /** Position `p` is in the block of some source. */
  ghost predicate Covered<T>(sources: map<string, RouteTable>, part: RouteTable -> seq<T>, start: map<string, nat>, p: nat) {
    exists s | s in sources && s in start :: start[s] <= p < start[s] + |part(sources[s])|
  }

  /** The lists of the sources make up `all`, each as one block, in the order of their sources. */
  ghost predicate InBlocks<T>(all: seq<T>, sources: map<string, RouteTable>, part: RouteTable -> seq<T>, start: map<string, nat>, priorities: map<string, int>) {
    && start.Keys == sources.Keys
    && (forall s | s in sources :: IsBlock(all, part(sources[s]), start[s]))
    && (forall s, t | s in sources && t in sources && s != t ::
          ComesFirst(s, t, priorities) ==> start[s] + |part(sources[s])| <= start[t])
    && (forall p | 0 <= p < |all| :: Covered(sources, part, start, p))
  }

  ghost function StartOf<T>(ids: seq<string>, ts: seq<RouteTable>, part: RouteTable -> seq<T>, s: string): nat
    requires s in ids && |ts| == |ids|
  {
    Offset(ts, part, IndexOf(ids, s))
  }

  lemma BlockOf<T>(ids: seq<string>, ts: seq<RouteTable>, sources: map<string, RouteTable>, priorities: map<string, int>, part: RouteTable -> seq<T>, s: string)
    requires IsRanking(ids, ts, sources, priorities) && s in sources
    ensures IsBlock(Joined(ts, part), part(sources[s]), StartOf(ids, ts, part, s))
  {
    BlockAt(ts, part, IndexOf(ids, s));
  }

  lemma BlocksInOrder<T>(ids: seq<string>, ts: seq<RouteTable>, sources: map<string, RouteTable>, priorities: map<string, int>, part: RouteTable -> seq<T>, s: string, t: string)
    requires IsRanking(ids, ts, sources, priorities) && s in sources && t in sources && s != t && ComesFirst(s, t, priorities)
    ensures StartOf(ids, ts, part, s) + |part(sources[s])| <= StartOf(ids, ts, part, t)
  {
    var i, j := IndexOf(ids, s), IndexOf(ids, t);
    RankedBefore(ids, ts, sources, priorities, i, j);
    OffsetsRise(ts, part, i, j);
  }

  lemma BlockAround<T>(ids: seq<string>, ts: seq<RouteTable>, sources: map<string, RouteTable>, priorities: map<string, int>, part: RouteTable -> seq<T>, p: nat)
    returns (s: string)
    requires IsRanking(ids, ts, sources, priorities) && p < |Joined(ts, part)|
    ensures s in sources && StartOf(ids, ts, part, s) <= p < StartOf(ids, ts, part, s) + |part(sources[s])|
  {
    var i := InSomeBlock(ts, part, p);
    SameIndex(ids, ts, sources, priorities, i);
    s := ids[i];
  }

  lemma BlocksOf<T>(ids: seq<string>, ts: seq<RouteTable>, sources: map<string, RouteTable>, priorities: map<string, int>, part: RouteTable -> seq<T>)
    returns (start: map<string, nat>)
    requires IsRanking(ids, ts, sources, priorities)
    ensures InBlocks(Joined(ts, part), sources, part, start, priorities)
  {
    start := map s | s in sources :: StartOf(ids, ts, part, s);
    forall s | s in sources ensures IsBlock(Joined(ts, part), part(sources[s]), start[s]) {
      BlockOf(ids, ts, sources, priorities, part, s);
    }
    forall s, t | s in sources && t in sources && s != t
      ensures ComesFirst(s, t, priorities) ==> start[s] + |part(sources[s])| <= start[t]
    {
      if ComesFirst(s, t, priorities) {
        BlocksInOrder(ids, ts, sources, priorities, part, s, t);
      }
    }
    forall p | 0 <= p < |Joined(ts, part)| ensures Covered(sources, part, start, p) {
      var s := BlockAround(ids, ts, sources, priorities, part, p);
      assert s in sources && s in start;
    }
  }

  lemma SameIndex(ids: seq<string>, ts: seq<RouteTable>, sources: map<string, RouteTable>, priorities: map<string, int>, i: nat)
    requires IsRanking(ids, ts, sources, priorities) && i < |ids|
    ensures IndexOf(ids, ids[i]) == i
  {
  }

  /** The sources ranked up to `n`. */
  ghost function Upto(ids: seq<string>, sources: map<string, RouteTable>, n: nat): map<string, RouteTable>
    requires n <= |ids|
  {
    map s | s in sources && s in ids[..n] :: sources[s]
  }

  /** Every source once, with its table. */
  ghost predicate IsListing(ids: seq<string>, ts: seq<RouteTable>, sources: map<string, RouteTable>) {
    && |ts| == |ids| && (forall s | s in sources :: s in ids)
    && (forall i | 0 <= i < |ids| :: ListsAt(ids, ts, sources, i))
  }

  ghost predicate ListsAt(ids: seq<string>, ts: seq<RouteTable>, sources: map<string, RouteTable>, i: nat)
    requires i < |ids| == |ts|
  {
    ids[i] in sources && ts[i] == sources[ids[i]] && ids[i] !in ids[..i]
  }

  lemma RankingIsListing(ids: seq<string>, ts: seq<RouteTable>, sources: map<string, RouteTable>, priorities: map<string, int>)
    requires IsRanking(ids, ts, sources, priorities)
    ensures IsListing(ids, ts, sources)
  {
  }

  lemma UptoStep(ids: seq<string>, sources: map<string, RouteTable>, n: nat)
    requires n < |ids| && ids[n] in sources
    ensures Upto(ids, sources, n + 1) == Upto(ids, sources, n)[ids[n] := sources[ids[n]]]
  {
    assert ids[..n + 1] == ids[..n] + [ids[n]];
  }

  /** One more source adds its count. */
  lemma CountStep(ids: seq<string>, sources: map<string, RouteTable>, count: RouteTable -> int, n: nat)
    requires n < |ids| && ids[n] in sources && ids[n] !in ids[..n]
    ensures MapSum(Upto(ids, sources, n + 1), count) == MapSum(Upto(ids, sources, n), count) + count(sources[ids[n]])
  {
    UptoStep(ids, sources, n);
    MapSumInsert(Upto(ids, sources, n), count, ids[n], sources[ids[n]]);
  }

  lemma {:induction false} JoinedLength<T>(ids: seq<string>, ts: seq<RouteTable>, sources: map<string, RouteTable>,
                                           part: RouteTable -> seq<T>, count: RouteTable -> int, n: nat)
    requires IsListing(ids, ts, sources) && n <= |ids| && forall t :: count(t) == |part(t)|
    ensures Offset(ts, part, n) == MapSum(Upto(ids, sources, n), count)
  {
    if n == 0 {
      assert ts[..0] == [] && Upto(ids, sources, 0) == map[];
    } else {
      assert ListsAt(ids, ts, sources, n - 1);
      JoinedLength(ids, ts, sources, part, count, n - 1);
      CountStep(ids, sources, count, n - 1);
      OffsetStep(ts, part, n - 1);
    }
  }

  lemma WholeLength<T>(ids: seq<string>, ts: seq<RouteTable>, sources: map<string, RouteTable>, part: RouteTable -> seq<T>, count: RouteTable -> int)
    requires IsListing(ids, ts, sources) && forall t :: count(t) == |part(t)|
    ensures |Joined(ts, part)| == MapSum(sources, count)
  {
    JoinedLength(ids, ts, sources, part, count, |ids|);
    assert ts[..|ids|] == ts && Upto(ids, sources, |ids|) == sources;
  }

  function HostCount(t: RouteTable): int {
    |t.hosts|
  }

  function RouteCount(t: RouteTable): int {
    |t.l4Routes|
  }

  /** Nothing is lost and nothing added: the lengths are the sums over the sources. */
  lemma MergedLengths(sources: map<string, RouteTable>, priorities: map<string, int>)
    ensures |Merged(sources, priorities).hosts| == MapSum(sources, HostCount)
    ensures |Merged(sources, priorities).l4Routes| == MapSum(sources, RouteCount)
  {
    var ids, ts := RankedSources(sources, priorities), RankedTables(sources, priorities);
    RankedIsRanking(sources, priorities);
    RankingIsListing(ids, ts, sources, priorities);
    MergedParts(ts);
    WholeLength(ids, ts, sources, HostsOf, HostCount);
    WholeLength(ids, ts, sources, RoutesOf, RouteCount);
  }

  /** The merged hosts and L4 routes are those of every source, each source's in its own order as one block,
      higher priorities first and equal ones by name. */
  lemma MergedInBlocks(sources: map<string, RouteTable>, priorities: map<string, int>)
    returns (hostStart: map<string, nat>, routeStart: map<string, nat>)
    ensures InBlocks(Merged(sources, priorities).hosts, sources, HostsOf, hostStart, priorities)
    ensures InBlocks(Merged(sources, priorities).l4Routes, sources, RoutesOf, routeStart, priorities)
  {
    var ids, ts := RankedSources(sources, priorities), RankedTables(sources, priorities);
    RankedIsRanking(sources, priorities);
    MergedParts(ts);
    hostStart := BlocksOf(ids, ts, sources, priorities, HostsOf);
    routeStart := BlocksOf(ids, ts, sources, priorities, RoutesOf);
  }
}
