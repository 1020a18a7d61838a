# A verified model of the Sunbeam proxy

This project models, in Dafny, the parts of the Sunbeam reverse proxy that decide something: which
route a request takes, what a configuration change leaves live, what the learned scanner may be trusted
with, and what the counters and supervisors add up to. `dafny verify dfyconfig.toml` checks the whole
project.

What is proved, by component:

- **Routing** (`Text`, `RouteIr`, `Precedence`, `Matching`, `Discriminators`, `PathTrie`, `HostRouting`,
  `LinearScan`, `Hostnames`, `HostRanking`, `RouteTables`). The compiled lookup (path trie on the heap,
  exact-path buckets, regex list, attribute discriminators) against a plain scan of the rules; host
  selection against a total order on hosts; packed precedence against the lexicographic order.
- **L4 compilation** (`L4Config`, `L4Order`). Listener merging, socket identity, whose certificate is served, and
  where routes end up.
- **Route manager** (`SourceMerge`, `MergeOrder`, `RouteManager`, `ConcurrentApply`). Merging by priority whatever the
  hash order; every run of apply, rollback and priority changes; the coalescing worker; every interleaving
  of concurrent applies. Hash order is a parameter wherever a result depends on it.
- **Scanner** (`Rounding`, `Mlp`, `Crown`, `Tightness`, `Bisection`, `CertifiedRadius`, `SearchTermination`,
  `GridSearch`, `DecisionTree`, `Scanner`, `MonotonicityAudit`, `AuditExactness`). Interval propagation,
  what a certified radius protects and when its search ends, and how far the monotonicity audit can be
  trusted, for any weights and dimensions, with rounding as any monotone function whose results `down` and
  `up` enclose.
- **Gaussian process** (`Vectors`, `Cholesky`, `TriangularSolves`, `Definiteness`, `GaussianProcess`). The
  factorisation and the two substitutions for every input, what clamped pivots add, and the predictions.
- **ClientHello** (`Sni`, `SniCodec`, `Utf8Encoding`). The parser against what the bytes say, round trips with
  an encoder, partial buffers, and a stream seen piece by piece. The formats are section 5.1 and section
  4.1.2 of RFC 8446, section 3 of RFC 6066 and section 3 of RFC 3629.
- **Bandwidth** (`MapSums`, `BandwidthTracker`, `BandwidthMeter`, `ClusterBandwidth`). Conservation over
  every interleaving, the forgetting window against a log that forgets nothing, saturating totals.
- **Watchdog** (`Watchdog`, `WatchdogRuns`). The supervisor and what it keeps over every run.
- **DDoS features** (`Tallies`, `DdosFeatures`, `FeatureMeaning`, `IpState`). The ring buffer, the two feature
  extractions, and what each feature counts.

`Sorting` holds the stable sort the others use. What a definition is for is stated beside it in terms that do
not use it (`PrecedenceLaw`, `MergedInBlocks`, `HistoryIsFull`, the lemmas named `...Meaning` and `...Iff`).

Where the code does not do what its comments or a reader would expect, the model follows the code, a
lemma gives a concrete failing case, and the exact condition is proved beside it:

- Discriminator buckets are keyed by the spelling in the rule, while matching ignores case. A request
  that spells a method or header value differently misses plans at nodes with more than eight plans
  (`LinearScan.MissedByCase`, `LinearScan.LookupAgreesIffWinnerShown`).
- Precedence lanes are 16 bits wide; a longer path or a larger count spills into the next lane
  (`Precedence.PackedOrderExactlyInRange`).
- Of several catch-all hosts only the last one is kept (`RouteTables.PlaceNodes`).
- Rollback restores the tables but not the sources, so the next apply from another source brings the
  rolled-back table back (`RouteManager.RollbackIsUndoneByNextApply`, `RouteManager.StaleAfterRollback`,
  `RouteManager.StaysUpToDateIff`); rollbacks compose only under the condition of
  `RouteManager.RollbacksCompose`.
- Concurrent applies can lose a source: each stores the map it read (`ConcurrentApply.LostUpdate`,
  `ConcurrentApply.StoreKeepsOthersIff`).
- Which certificate a shared TLS listener gets can depend on hash order (`L4Config.HashOrderMattersIff`).
- Listeners and certificates come from the highest-priority source, ACME routes from the lowest
  (`SourceMerge.HighestListenerWins`, `SourceMerge.LowestAcmeWins`).
- The worker keeps only the latest table of a batch, so a batch whose latest table does not compile also
  loses the earlier ones that do (`RouteManager.CoalescingLosesGood`,
  `RouteManager.CoalescingIsTransparentIff`).
- The bisection of `certified_radius` need not end when two neighbouring numbers are further apart than the
  tolerance (`SearchTermination.DistantNeighboursCall`, `SearchTermination.EveryCallEndsIff`).
- The audit tests computed products; a negative product that underflows to zero passes
  (`AuditExactness.UnderflowDefeatsAudit`, `AuditExactness.ClearanceHoldsIff`).
- `cholesky` is documented to return L with A = L Lᵀ; clamping adds to the diagonal otherwise
  (`Cholesky.ZeroIsLifted`, `Cholesky.FactorProduct`, `Definiteness.ExactIffLeading`).
- The meter and its readers take the time before they take the lock; a reader with an older time than a
  recorder can miss samples (`BandwidthMeter.StaleReaderMisses`, `BandwidthMeter.KeptWindowIff`).
- A panic signal left over from before `abort_all` counts against the key's next task, so a key can be
  reported poisoned and still be restarted (`WatchdogRuns.PoisonedCanRestart`,
  `WatchdogRuns.PoisonedStaysIff`).

## Model

| member | source | states |
|---|---|---|
| Text.SegmentsOfJoin | src/ir/compile.rs:897-902 | splitting the joined path of any slash-free non-empty segments gives those segments back |
| Text.SegmentsAtSlash | src/ir/compile.rs:897-902 | a path's segments are those before and those after any slash: no segment straddles one |
| Text.EqIgnoreCaseIff | src/ir/compile.rs:1354-1369 | two texts are equal but for case exactly when each letter is the other's letter in either case |
| Text.StringLeIff | src/route_manager.rs:241-246 | the byte order of names: equal, or the first difference decides |
| Precedence.BitOrDisjoint | src/ir/compile.rs:746-749 | or-ing a value into lower bits that are zero is adding it |
| Precedence.PackInRange | src/ir/compile.rs:746-749 | with every field below 2^16 the packed word is the four fields as digits in base 2^16 |
| Precedence.PackFitsWord | src/ir/compile.rs:746-749 | whatever the fields, the packed precedence fits 64 bits |
| Precedence.PackedOrderIsLexicographic | src/ir/compile.rs:714-750 | fields below 2^16: packed words compare as the field tuples do lexicographically, both ways |
| Precedence.UnpackInRange | src/ir/compile.rs:746-749 | every 64-bit word is the packing of in-range fields: packing undoes unpacking |
| Precedence.UnpackPacked | src/ir/compile.rs:746-749 | for fields below 2^16 unpacking undoes packing |
| Precedence.PackedOrderExactlyInRange | src/ir/compile.rs:714-750 | a tuple compares correctly with every in-range tuple if and only if it is itself in range: a field of 2^16 or more breaks the order |
| Precedence.PrecedenceOrdersRules | src/ir/compile.rs:714-750 | rule precedence orders rules by longest path, then method, then header count, then query count, and ties exactly on equal tuples |
| Precedence.PrecedenceLaw | src/ir/compile.rs:714-750 | stated on the matches alone: a rule ranks lower if and only if its longest path is shorter, or at equal length only the other names a method, or then its most headers, or then its most query parameters, are fewer; it ties if and only if all four agree |
| Matching.PlanMatches | src/ir/compile.rs:1346-1414 | the early-exit test succeeds exactly when method, every header test and every query test hold |
| Matching.HeaderMeaning | src/ir/compile.rs:1361-1390 | header tests on the request's headers: an exact value in any letter case, a pattern, presence or absence of the name in any letter case |
| Matching.QueryMeaning | src/ir/compile.rs:1392-1411 | query tests look at the first parameter of the name in the encoded query, byte for byte |
| Matching.QueryMissing | src/ir/compile.rs:1334-1411 | without the parameter or without a query every query test fails |
| Matching.AttributesMeaning | src/ir/compile.rs:1346-1414 | a match holds if and only if its method is absent or the request's in any letter case and every header and query test holds |
| Matching.QueryRoundTrip | src/ir/compile.rs:1334-1344 | extracting a name from an encoded query gives its first value, whatever `=` signs the value holds, and none for an absent name |
| Discriminators.CountOccurrences | src/ir/compile.rs:963-981 | the counting loop gives each name the number of its occurrences over all plans |
| Discriminators.MaxByCount | src/ir/compile.rs:932-961 | the entry taken from a count map has the largest count, whatever the map's order |
| Discriminators.FillBuckets | src/ir/compile.rs:983-1077 | every plan lands in exactly the bucket, the any list or the fallback list its constraint on the attribute asks for, and every list is ranked |
| Discriminators.SortBucketsSplits | src/ir/compile.rs:998-1001 | sorting the buckets moves no plan between them |
| Discriminators.PickAttribute | src/ir/compile.rs:932-961 | the attribute chosen is used at least as often as any other, and more often than any of an earlier kind in the order method, header, query |
| Discriminators.BuildDiscriminator | src/ir/compile.rs:932-961 | the plans are split by that attribute |
| Discriminators.FetchIsVisiblePlans | src/ir/compile.rs:1291-1332 | what a request fetches from a discriminator is exactly the plans whose slot the request's spelling of the attribute selects |
| Discriminators.SlotMeaning | src/ir/compile.rs:983-1077 | a method is a bucket; the first test of the split header or parameter is a bucket if it asks for an exact value, the fallback otherwise; no test is any value |
| Discriminators.VisibleIff | src/ir/compile.rs:983-1332 | a plan is fetched if and only if its method, or the first test of the split header or parameter, is absent or no exact value, or is the very value of the request |
| Discriminators.HiddenOnlyByCase | src/ir/compile.rs:1291-1332 | a plan that matches the request is missed by the buckets if and only if the request spells the split attribute in another letter case; query splits miss nothing |
| PathTrie.Trie.WalkOrCreate | src/ir/compile.rs:904-910 | the node at the end of the segments is returned and only empty nodes are added on the way |
| PathTrie.Trie.Place | src/ir/compile.rs:871-895 | a plan is appended at the node of its segments, in the prefix or the exact list, and no other node's lists change |
| PathTrie.Trie.Insert | src/ir/compile.rs:871-895 | the trie stores exactly one more plan, and the plan count below the root grows by one |
| PathTrie.Trie.BuildDiscriminators | src/ir/compile.rs:916-930 | every node below with more plans than the limit is split, no node loses a plan |
| PathTrie.Trie.SplitCrowdedNodes | src/ir/compile.rs:916-930 | splitting the whole trie leaves the stored plans and their number as they were |
| PathTrie.Trie.TotalPlanCount | src/ir/compile.rs:618-625 | the recursive count is the number of (node, position) slots holding a plan in the subtree |
| PathTrie.Trie.ResolveNode | src/ir/compile.rs:1291-1332 | a node yields exactly its stored plans that its discriminator lets the request see |
| PathTrie.Trie.Walk | src/ir/compile.rs:1243-1261 | the walk collects exactly the stored, visible plans whose segments are a prefix of the path's segments |
| PathTrie.Trie.NothingDeeper | src/ir/compile.rs:1253-1261 | where the walk stops for want of a child, no node further along the path exists |
| HostRouting.FlattenRules | src/ir/compile.rs:637-654 | one plan per (rule, match), in order, with the rule's precedence and order |
| HostRouting.FlattenComesFromRules | src/ir/compile.rs:637-654 | every plan comes from a rule and carries its action, order and precedence and one of its matches |
| HostRouting.FlattenKeepsMatches | src/ir/compile.rs:637-654 | every match of every rule has a plan |
| HostRouting.SeparatePlans | src/ir/compile.rs:656-669 | each plan goes to exactly one of trie list, exact-path bucket and regex list, by its path kind |
| HostRouting.SeparateAndRank | src/ir/compile.rs:656-690 | separation with every exact bucket and the regex list ranked |
| HostRouting.BuildTrie | src/ir/compile.rs:676-683 | the trie holds exactly the given plans and is split where crowded |
| HostRouting.HostNode.constructor | src/ir/compile.rs:637-712 | a compiled host holds exactly the plans of its rules, and its rule count is the number of plans without an exact path |
| HostRouting.FirstMatch | src/ir/compile.rs:1234-1241 | the first match in a ranked list is a best match: none outranks it, and none is found only if none matches |
| HostRouting.FirstUnseenMatch | src/ir/compile.rs:1277-1286 | skipping allocations already looked at changes nothing: the result is still a best match |
| HostRouting.LookupExact | src/ir/compile.rs:1234-1241 | the result is a best one among the matching plans whose exact path is the request's |
| HostRouting.MatchRegexPlans | src/ir/compile.rs:1263-1268 | exactly the regex plans that match path and attributes are collected |
| HostRouting.PickLoose | src/ir/compile.rs:1270-1286 | the result is a best one among the visible plans that match without an exact path |
| HostRouting.HostNode.Collect | src/ir/compile.rs:1243-1268 | trie walk and regex list together yield exactly the plans whose path matches loosely and that are not hidden |
| HostRouting.HostNode.Lookup | src/ir/compile.rs:1227-1287 | a matching exact-path plan of best rank if there is one, otherwise a best loosely matching plan that is not hidden, otherwise none |
| LinearScan.ScanForIsUnbeaten | src/ir/compile.rs:1227-1287 | the reference scan's rule matches and no matching rule beats it; it finds none exactly when none matches |
| LinearScan.LookupAgreesIffWinnerShown | src/ir/compile.rs:1227-1287 | with distinct rule orders the compiled lookup returns a plan of the scan's rule if and only if that rule has a matching plan that no bucket hides |
| LinearScan.HiddenIffLostToCase | src/ir/compile.rs:1291-1332 | a matching plan is hidden exactly when its node is split by an attribute the request spells in another case |
| LinearScan.CanonicalRulesShowWinner | src/ir/compile.rs:1227-1332 | if the request spells methods and header values as the rules do, the scan's winner is never hidden |
| LinearScan.LookupRule | src/ir/compile.rs:1227-1287 | lookup of any compiled host: agreement with the scan exactly when the winner is shown, always for canonical spelling |
| LinearScan.WinnerIsLexMaximal | src/ir/compile.rs:714-750 | the winner is lexicographically maximal among the matching rules of its phase, and earliest among equals |
| LinearScan.WinnerLaw | src/ir/compile.rs:714-750 | the same stated on the matches alone: no rule of the winner's phase has a longer path; then the winner names a method if the other does, then has at least as many headers, then query parameters, then is declared no later |
| LinearScan.ExactPathFirst | src/ir/compile.rs:1227-1287 | a rule that names the very path wins over rules that only cover it, and none is found if and only if no rule names or covers it |
| LinearScan.FewPlansHideNothing | src/ir/compile.rs:916-930 | a host with at most eight matches hides no plan from any request |
| LinearScan.LongestPrefixWins | src/ir/compile.rs:1270-1284 | with single-match prefix-only rules a longest matching prefix string wins, and some rule wins if any prefix matches |
| LinearScan.CanonicalPrefixMatch | src/ir/compile.rs:871-902 | on canonical paths a prefix matches exactly the paths that extend it by whole segments |
| LinearScan.MissedByCase | src/ir/compile.rs:983-1007 | nine rules for method `get`: the scan takes the first for a `GET` request, the compiled lookup finds nothing |
| Hostnames.NestedWildcardHasMoreDots | src/ir/compile.rs:1431-1443 | of two wildcards matching one host the longer has strictly more dots |
| Hostnames.WildcardScoreIdentifies | src/ir/compile.rs:628-635 | two wildcards matching one host with equal score are the same wildcard |
| Hostnames.HostnameMeaning | src/ir/compile.rs:1431-1443 | exact: the name; prefix: the name, or the name, a dot and anything; wildcard: at least one character, a dot and the name; any: everything |
| Hostnames.AcceptsMeaning | src/ir/compile.rs:1130-1214 | a host route takes a request if and only if its name matches, its listener's hostname is absent, empty or matches, and its port is absent or the same |
| Hostnames.ScoresRankNames | src/ir/compile.rs:628-635 | scores compare as the names do: exact, prefix, wildcards by dots, any, except where a wildcard has more than 900 or 400 dots |
| Hostnames.ScoresRankListeners | src/ir/compile.rs:1216-1224 | so do listener scores, an absent or empty hostname counting as any |
| RouteTables.CompileHosts | src/ir/compile.rs:385-391 | one compiled node per host, in order |
| RouteTables.PlaceNodes | src/ir/compile.rs:385-403 | each bucket holds the exact hosts of its name in declared order, the patterns are in declared order, and of several catch-all hosts the last is kept |
| RouteTables.SortPatterns | src/ir/compile.rs:405-410 | the patterns are put in the one order by descending specificity, then fewer rules, then as declared |
| RouteTables.Compile | src/ir/compile.rs:385-418 | the compiled table represents the hosts, patterns ranked, every node compiled |
| RouteTables.Candidates | src/ir/compile.rs:1110-1128 | exact, then pattern, then catch-all nodes whose hostname matches, each group in its order |
| RouteTables.FirstMostSpecific | src/ir/compile.rs:1152-1160 | the node found has the greatest route score and every earlier one a smaller score |
| RouteTables.PickHost | src/ir/compile.rs:1140-1160 | the host picked outranks every other candidate: more specific listener, then more specific hostname, then listed first |
| RouteTables.FindHost | src/ir/compile.rs:1110-1161 | the one host that serves the request, ties included, ranked by what the names are and not by scores; none if and only if no kept host accepts host, listener hostname and port |
| HostRanking.FirstOutranks | src/ir/compile.rs:1140-1160 | the first of the greatest route score among those of the greatest listener score outranks every other in the list |
| HostRanking.TakingProperties | src/ir/compile.rs:1110-1138 | the filtered candidates are exactly the kept hosts that accept the request, in listed order |
| HostRanking.ServesOnce | src/ir/compile.rs:1110-1161 | at most one host of a table serves a request |
| HostRanking.ListenerDecides | src/ir/compile.rs:1140-1151 | no host that takes the request is on a more specific listener than the one that serves it |
| HostRanking.KindDecides | src/ir/compile.rs:1140-1161 | on equally specific listeners exact names are served before prefixes, prefixes before wildcards, wildcards by their dots, the catch-all last, up to 900 and 400 dots |
| HostRanking.TieDecides | src/ir/compile.rs:405-410 | of hosts of one name the first declared serves; of patterns the one with the fewest plans without an exact path |
| HostRanking.LastCatchAllServes | src/ir/compile.rs:385-403 | only the last catch-all host ever serves, and it does where it alone accepts the request |
| RouteTables.Lookup | src/ir/compile.rs:1095-1106 | no plan if no host takes the request; otherwise, in the host that serves it, the plan of the rule a scan chooses if and only if that rule has a plan the request can see, as with canonical spelling |
| L4Config.SameSocketIff | src/ir/compile.rs:480-506 | two listeners share an output socket if and only if they have one address and the same protocol or both speak TLS |
| L4Config.SocketNames | src/ir/compile.rs:480-506 | the id is the address and the protocol's name, or `#tls` where an HTTPS and a TLS listener share the address |
| L4Config.GroupListeners | src/ir/compile.rs:468-478 | each listener is in exactly the group of its address and protocol, in declared order |
| L4Config.MergeGroups | src/ir/compile.rs:496-506 | whatever order the hash map gives, each socket ends with exactly the listeners that belong to it, those of one protocol in declared order |
| L4Config.MergeMembersRepresents | src/ir/compile.rs:510-536 | the merged listener has the members' address, TLS protocol iff some member has it, some member's certificate iff one exists, the redirect iff some member asks, and strict client validation iff some member is strict |
| L4Order.FirstCertificateServes | src/ir/compile.rs:508-536 | a merged listener has the certificate of the first listener declared with one for its address and protocol, of either protocol on a shared TLS socket |
| L4Order.FirstValidationServes | src/ir/compile.rs:508-536 | and the client validation of the first strict listener in the same sense, or the first that has one where none is strict |
| L4Config.BuildListeners | src/ir/compile.rs:508-536 | one output listener per socket, and every listener id mapped to its socket |
| L4Config.CompileListeners | src/ir/compile.rs:468-537 | output listeners sorted by distinct ids, each representing its members, one for every input listener |
| L4Config.ClassesPartition | src/ir/compile.rs:545-566 | the five route lists together hold exactly the routes |
| L4Config.ListMeaning | src/ir/compile.rs:545-566 | each of the five lists holds exactly the routes whose action asks for it |
| L4Config.DistributeRoutes | src/ir/compile.rs:545-566 | each list is the routes of its class in their original order, moved to the mapped listener ids |
| L4Config.FindLacking | src/ir/compile.rs:432-453 | the first HTTPS or TLS listener without TLS configuration |
| L4Config.Compile | src/ir/compile.rs:432-576 | an error exactly when a TLS-speaking listener lacks TLS configuration, naming the first such listener; otherwise merged listeners and routes that keep everything but their listener id |
| L4Config.HashOrderMattersIff | src/ir/compile.rs:496-527 | the listener merged from the HTTPS and the TLS group of an address is the same in both hash orders if and only if the groups do not bring different certificates or validations |
| L4Config.RoutesReachTheirSocket | src/ir/compile.rs:545-556 | with distinct listener ids each route on a known listener names that listener's socket, which is an output listener |
| SourceMerge.CollectOrdered | src/route_manager.rs:238-248 | collecting a map's keys in any order and sorting gives one and the same list |
| SourceMerge.KeepFirstLoop | src/route_manager.rs:251-259 | inserting only absent ids keeps the first item of each id |
| SourceMerge.MergeSources | src/route_manager.rs:234-273 | the merged table is a function of the source and priority maps, whatever the iteration order |
| MergeOrder.PrecedesIff | src/route_manager.rs:238-248 | a source comes first if and only if its priority, 0 if unset, is greater, or is equal and its name is first in byte order |
| MergeOrder.MergedInBlocks | src/route_manager.rs:234-273 | the merged hosts are the hosts of every source, each source's in its own order as one block, blocks by priority and then name, and nothing else; likewise the L4 routes |
| MergeOrder.MergedLengths | src/route_manager.rs:234-273 | the number of merged hosts and of L4 routes is the sum over the sources |
| SourceMerge.FirstTableWins | src/route_manager.rs:254-259 | a listener id is taken from the first table in rank order that has it |
| SourceMerge.HighestListenerWins | src/route_manager.rs:234-273 | each listener id comes from the highest-priority source that has it (ties by source id) |
| SourceMerge.MergedIdsSorted | src/route_manager.rs:234-273 | merged listeners and certificates are in strict order of their ids, so each id occurs once |
| SourceMerge.HighestCertWins | src/route_manager.rs:234-273 | the same for certificate ids |
| SourceMerge.LowestAcmeWins | src/route_manager.rs:234-273 | ACME routes go the other way: a path comes from the lowest-priority source that has it |
| RouteManager.RunIsSound | src/route_manager.rs:134-218 | over every run of applies, rollbacks and priority changes: live tables are the newest version's, history is a suffix of the unbounded undo stack, no longer than max(1, max_history), and empty only if the stack is |
| RouteManager.HistoryIsFull | src/route_manager.rs:134-218 | over every run the history lacks exactly the versions that did not fit: as many as the deepest undo stack so far exceeded max(1, max_history) |
| RouteManager.HistoryLength | src/route_manager.rs:134-192 | k successful applies and no rollback leave min(k, max(1, max_history)) versions |
| RouteManager.ApplyMeaning | src/route_manager.rs:134-192 | an apply succeeds if and only if the sources with the new table compile; then it serves and records them and is the newest version, otherwise nothing changes |
| RouteManager.RollbackMeaning | src/route_manager.rs:198-218 | a rollback succeeds if and only if it is by at least one and the history is longer; then the version below is live and the newer ones are gone |
| RouteManager.RollbackUndoesApplies | src/route_manager.rs:134-218 | rolling back fewer applies than the history holds, in one call, serves again what was live before them |
| RouteManager.BuildMeaning | src/route_manager.rs:149-170 | what is served is both compilations of the merged sources and the rewrites of the compiled table, and nothing if either fails |
| RouteManager.RollbacksCompose | src/route_manager.rs:198-218 | rolling back a then b equals rolling back a + b if and only if a or b is 0, a + b is less than the history, or both exceed it |
| RouteManager.UpToDateUntilRollback | src/route_manager.rs:134-192 | after a successful apply the live tables are a compilation of the recorded sources until a rollback or priority change takes effect |
| RouteManager.StaysUpToDateIff | src/route_manager.rs:122-218 | from there an apply keeps them so, a rollback if and only if the restored version is a compilation of the sources recorded now, a priority change if and only if the live tables are one under the new priorities |
| RouteManager.StaysUpToDateIffEqual | src/route_manager.rs:122-218 | where hash order does not matter: if and only if the restored version equals the live tables, or both priorities compile alike |
| RouteManager.StaleAfterRollback | src/route_manager.rs:134-218 | two applies and a rollback: the live tables lack a source that is recorded |
| RouteManager.RollbackIsUndoneByNextApply | src/route_manager.rs:134-218 | a rollback keeps the sources: the next apply from another source compiles the rolled-back table again |
| RouteManager.Manager.SetPriority | src/route_manager.rs:122-127 | refines the priority step |
| RouteManager.Manager.CompileAll | src/route_manager.rs:149-152 | the compiled triple in the given hash order, or none if either compilation fails |
| RouteManager.Manager.Apply | src/route_manager.rs:134-192 | refines the apply step; a failed apply changes nothing |
| RouteManager.Manager.Rollback | src/route_manager.rs:198-218 | refines the rollback step; a refused rollback changes nothing |
| RouteManager.ApplyAllSettles | src/route_manager.rs:281-307 | applying every message leaves the last table that compiles as the default source's |
| RouteManager.WakeUp | src/route_manager.rs:281-307 | one wake-up applies the latest table unless it equals the one applied last, and leaves the sources settled on it |
| RouteManager.Work | src/route_manager.rs:281-307 | the worker ends settled on the last batch end that compiles |
| RouteManager.CoalescingIsTransparentIff | src/route_manager.rs:281-307 | batching with no-op skipping ends with the sources that applying every message gives if and only if the last compiling batch end is the last compiling message, always so if all compile; the live tables are then compilations of the same sources |
| RouteManager.SettledServesSame | src/route_manager.rs:281-307 | where hash order does not matter, states settled on the same table serve the same tables |
| RouteManager.CoalescingLosesGood | src/route_manager.rs:281-307 | a batch of a table that compiles and one that does not leaves the old sources, while applying each leaves the good table |
| ConcurrentApply.PlayGrounded | src/route_manager.rs:134-192 | over every interleaving of the steps of concurrent applies the recorded sources compile, and every live table and version comes from a compilation |
| ConcurrentApply.UninterruptedIsAtomic | src/route_manager.rs:134-192 | the steps of an apply that nobody interrupts are the atomic apply |
| ConcurrentApply.StoreKeepsOthersIff | src/route_manager.rs:142-176 | storing the sources keeps the other sources if and only if they are as the caller read them |
| ConcurrentApply.StaysFresh | src/route_manager.rs:142-176 | an update can only be lost if another caller stores its sources between the caller's reading and its storing |
| ConcurrentApply.LostUpdate | src/route_manager.rs:142-176 | two applies that both read before either stores both succeed, and only one table is recorded |
| Mlp.Predict | src/ensemble/mlp.rs:11-35 | the loops compute the rounded two-layer forward pass, then the sigmoid |
| Mlp.ForwardExact | src/ensemble/mlp.rs:11-35 | without rounding the output before the sigmoid is b2 + w2 · max(0, b1 + W1 x) |
| Crown.ForwardPassInside | src/ensemble/crown.rs:124-190 | for every network, box and point in the box, the exact and the rounded forward pass lie in the propagated interval |
| Crown.PropagationCovers | src/ensemble/crown.rs:124-190 | a larger box propagates to an interval that contains the smaller box's |
| Crown.Propagate | src/ensemble/crown.rs:156-190 | the loops compute the propagated interval |
| Crown.BoxHoldsBall | src/ensemble/crown.rs:198-206 | the rounded input box contains every point within eps of the input |
| Crown.AccurateSigmoidScores | src/ensemble/crown.rs:88-115 | if the computed sigmoid is within the slack of the real one, the real sigmoid lies in the widened bounds |
| Crown.CheckStable | src/ensemble/crown.rs:215-232 | the check is the stability test on the propagated interval |
| Crown.StableMeansSameVerdict | src/ensemble/crown.rs:215-232 | if the check succeeds at eps, every point within eps gets the centre's verdict, in exact and in rounded arithmetic |
| Crown.StableShrinks | src/ensemble/crown.rs:215-232 | stability at a radius implies stability at every smaller radius |
| Tightness.ExactBoxIsBall | src/ensemble/crown.rs:198-206 | without rounding the input box is exactly the ball of radius eps |
| Tightness.ExactSumAttained | src/ensemble/crown.rs:124-154 | without rounding both bounds of a neuron's sum are attained at corners of the box |
| Tightness.TermAddsTwoSteps | src/ensemble/crown.rs:124-154 | on a grid each term widens the bounds by exactly two steps each way |
| Tightness.InputAddsOneStep | src/ensemble/crown.rs:198-206 | and each input interval by one |
| Tightness.CertifiedByEightSteps | src/ensemble/crown.rs:88-232 | on a grid a verdict is certified if and only if the score keeps more than eight steps clear of the threshold |
| CertifiedRadius.NextRange | src/ensemble/crown.rs:266-272 | one pass of the loop is one step of the bisection |
| CertifiedRadius.Narrowest | src/ensemble/crown.rs:264-276 | wherever the bisection ends, the loop ends, with a certified lower end and an upper end that is the maximum or not certifiable |
| CertifiedRadius.Search | src/ensemble/crown.rs:263-277 | everything up to the result is certified, it is at most the maximum and, unless the maximum is within one tolerance, nothing beyond one tolerance further is certifiable |
| CertifiedRadius.CertifiedRadius | src/ensemble/crown.rs:250-278 | none exactly when eps 0 is not certified, otherwise a radius as above within which every input gets the verdict computed for the centre |
| CertifiedRadius.RadiusProtects | src/ensemble/crown.rs:234-249 | within a returned radius every input gets the certified verdict, computed exactly or with rounding, with any sigmoid within the slack |
| CertifiedRadius.ComputedVerdictProtected | src/ensemble/crown.rs:234-249 | within a returned radius the perceptron as computed gives every input the verdict of the centre |
| Bisection.SmallErrorEnds | src/ensemble/crown.rs:263-277 | the bisection ends if rounding numbers up to twice the maximum errs by less than a quarter of the tolerance, as binary32 does at the tolerances used |
| Bisection.EndsIffNeverStuck | src/ensemble/crown.rs:263-277 | on numbers with a least distance the bisection ends if and only if no pass leaves its range as it is |
| SearchTermination.EveryCallEndsIff | src/ensemble/crown.rs:250-278 | for a given sigmoid, maximum and tolerance every call ends if and only if no two neighbouring numbers up to the maximum are further apart than the tolerance, on every arithmetic with next numbers and rounding to nearest, as binary32 |
| SearchTermination.DistantNeighboursCall | src/ensemble/crown.rs:250-278 | two neighbours further apart than the tolerance that one neuron tells apart: a call with that neuron and one input, all arguments representable, never ends |
| SearchTermination.GapTellsApart | src/ensemble/crown.rs:156-232 | a neuron with the reach of the lower neighbour as negative bias tells two neighbours apart if its weight lifts their distance past the slack of the sigmoid |
| SearchTermination.RisingIsDiscerning | src/ensemble/crown.rs:156-232 | without a bound on weights any sigmoid that rises past its slack around zero lets one neuron tell all neighbours apart |
| Bisection.CloseNeighboursEnd | src/ensemble/crown.rs:263-277 | if neighbouring numbers are within the tolerance, the bisection ends for every test |
| Bisection.NegativeEndsAtOnce | src/ensemble/crown.rs:263-277 | with a negative maximum the bisection ends at once or never |
| GridSearch.GridCallsEndIff | src/ensemble/crown.rs:250-278 | on numbers of one spacing every call ends if and only if the tolerance is at least the spacing |
| GridSearch.ExactSearchEnds | src/ensemble/crown.rs:263-277 | computed exactly, every search with a positive tolerance ends |
| DecisionTree.TreePredict | src/ensemble/tree.rs:26-45 | the loop ends at the leaf reached by descending from the root |
| DecisionTree.PredictPacked | src/ensemble/tree.rs:26-45 | on the packed nodes of any tree the loop gives what the tree says: low branch up to the threshold, high branch above, block above 0.75, allow below 0.25 |
| DecisionTree.DescendMeaning | src/ensemble/tree.rs:26-45 | every well-formed node array is descended as the tree it stands for |
| DecisionTree.UnusedFeature | src/ensemble/tree.rs:26-45 | a tree that never splits on a feature decides the same when only that feature changes |
| DecisionTree.DecisionIsALeaf | src/ensemble/tree.rs:26-45 | every decision is some leaf's |
| Scanner.Normalize | src/ensemble/scanner.rs:34-45 | the loop computes the clamped min-max normalisation |
| Scanner.NormalizeMonotone | src/ensemble/scanner.rs:34-45 | normalisation with rounding never reverses an order |
| Scanner.NormalizedMeaning | src/ensemble/scanner.rs:34-45 | every normalised feature is in [0, 1]; without rounding linear from its minimum to its maximum, 0 below, 1 above, 0 without a range |
| Scanner.EnsemblePredict | src/ensemble/scanner.rs:51-89 | tree first, perceptron when it defers, with the action, score, reason and path of each case |
| Scanner.DecideMeaning | src/ensemble/scanner.rs:51-89 | the verdict in terms of the tree the nodes stand for and the perceptron's score, with the reason and path of each case |
| MonotonicityAudit.MinProduct | src/ensemble/monotonicity_audit.rs:60-70 | the least computed weight product of a feature, attained by some neuron |
| MonotonicityAudit.RunAudit | src/ensemble/monotonicity_audit.rs:50-78 | the audit records split features, deferring leaves and least products |
| MonotonicityAudit.ClearedIff | src/ensemble/monotonicity_audit.rs:50-96 | a feature is cleared if and only if no node splits on it and no leaf defers or no computed weight product of it is negative |
| MonotonicityAudit.PerceptronRises | src/ensemble/monotonicity_audit.rs:60-70 | if no weight product of a feature is negative, raising it never lowers the rounded output |
| MonotonicityAudit.EnsembleRises | src/ensemble/monotonicity_audit.rs:60-96 | if the tree does not split on a feature and, where a leaf defers, no weight product of it is negative, raising only that raw feature never lowers the ensemble score and never turns Block into Allow |
| MonotonicityAudit.AuditIsSound | src/ensemble/monotonicity_audit.rs:50-96 | the same for a feature the audit clears, given that no negative product rounded to zero if a leaf defers |
| AuditExactness.SignsAgreeIff | src/ensemble/monotonicity_audit.rs:60-70 | the rounded output never falls, for all biases and inputs, if and only if no product is negative, exactly and on every grid that holds the weights |
| AuditExactness.NeverLenientIff | src/ensemble/monotonicity_audit.rs:60-96 | no scanner with the given weights becomes more lenient when a feature its tree does not use rises if and only if no product is negative |
| AuditExactness.ClearanceHoldsIff | src/ensemble/monotonicity_audit.rs:50-96 | on a grid that holds the weights a clearance by the audit can be trusted if and only if no negative product rounded to zero |
| AuditExactness.UnderflowDefeatsAudit | src/ensemble/monotonicity_audit.rs:50-96 | a scanner whose only weight product is negative and rounds to zero: the audit clears the feature, and raising it lowers the score |
| Vectors.InnerTranspose | src/autotune/gp.rs:103-108 | a transpose moves from one side of an inner product to the other |
| Vectors.ApplyProduct | src/autotune/gp.rs:106-108 | applying the transposed factor and then the factor is applying their product |
| Cholesky.Factorise | src/autotune/gp.rs:144-161 | every cell of the lower triangle satisfies its factorisation equation, pivots clamped at 1e-15, and the rest is zero |
| Cholesky.FactorTriangle | src/autotune/gp.rs:144-161 | the factor is lower triangular with a positive diagonal |
| Cholesky.FactorProduct | src/autotune/gp.rs:144-161 | for every symmetric input the factor times its transpose is the input plus each clamped pivot's shortfall on the diagonal |
| Cholesky.ExactIffWellPivoted | src/autotune/gp.rs:144-161 | the product is the input exactly if and only if the input has a triangular factorisation with pivots of at least 1e-15, and then the computed factor is that factorisation |
| Cholesky.ZeroIsLifted | src/autotune/gp.rs:152-155 | the zero matrix is not reproduced: its factor squares to 1e-15 |
| TriangularSolves.ForwardSolve | src/autotune/gp.rs:112-124 | the result solves the factor's system for the right-hand side |
| TriangularSolves.BackwardSolve | src/autotune/gp.rs:127-139 | the result solves the transposed system |
| TriangularSolves.SolvesCompose | src/autotune/gp.rs:106-108 | forward then backward substitution solves the system of the factor times its transpose |
| TriangularSolves.ForwardUnique | src/autotune/gp.rs:112-124 | a triangular system has at most one solution |
| TriangularSolves.ReductionIsQuadratic | src/autotune/gp.rs:72-77 | the squared forward solution equals the inner product of the right-hand side with any solution of the whole system |
| Definiteness.PivotIsQuadratic | src/autotune/gp.rs:144-161 | if no earlier pivot was raised, a pivot is the quadratic form at a vector with a unit entry |
| Definiteness.ExactIffLeading | src/autotune/gp.rs:144-161 | a symmetric matrix is factored exactly if and only if the quadratic form of each leading block is at least 1e-15 where its last entry is one |
| Definiteness.DefiniteIsExact | src/autotune/gp.rs:144-161 | in particular if the form of the whole matrix is at least 1e-15 at every vector with a unit entry |
| GaussianProcess.RbfSymmetric | src/autotune/gp.rs:7-10 | the kernel is symmetric, also for points of different length |
| GaussianProcess.RbfMeaning | src/autotune/gp.rs:7-10 | the kernel is exp(e) for the e that, times twice the squared length scale, is minus the sum of squared differences over the shared coordinates |
| GaussianProcess.FillGram | src/autotune/gp.rs:90-101 | the filled buffer is the kernel matrix with the noise on its diagonal |
| GaussianProcess.GaussianProcess.Observe | src/autotune/gp.rs:38-43 | the observation is appended and the process is fitted to all of them |
| GaussianProcess.GaussianProcess.ObserveBatch | src/autotune/gp.rs:45-50 | the observations are appended and the process is fitted to all of them |
| GaussianProcess.GaussianProcess.Recompute | src/autotune/gp.rs:90-109 | the factor is that of the kernel matrix and alpha solves the factored system for the observed values |
| GaussianProcess.GaussianProcess.Predict | src/autotune/gp.rs:53-80 | (0, 1) without observations; otherwise the kernel-weighted mean, and the prior variance less k·w for the solution w of the factored system, floored at 1e-10 |
| GaussianProcess.VarianceMeaning | src/autotune/gp.rs:72-79 | exp(0) plus the noise less what the observations explain, and never below 1e-10 |
| GaussianProcess.MeanAtObservation | src/autotune/gp.rs:53-109 | at an observed point the mean is the observation less (noise + clamped shortfall) times its weight |
| GaussianProcess.PositiveKernelIsExact | src/autotune/gp.rs:90-109 | with a positive semidefinite kernel matrix and noise of at least 1e-15 nothing is clamped and the factor is exact |
| Sni.ParseServerNames | src/sni.rs:85-110 | the position loop computes the first host name entry, if complete and UTF-8 |
| Sni.OpenHello | src/sni.rs:31-55 | field by field, the extension block as far as it has arrived |
| Sni.WalkExtensions | src/sni.rs:57-70 | the loop stops at the first server_name extension or at a truncated one |
| Sni.ParseClientHello | src/sni.rs:15-71 | on every buffer, in bounds and terminating, the server name the bytes give |
| Utf8Encoding.Utf8Iff | src/sni.rs:101-104 | a name counts as UTF-8 if and only if it encodes some sequence of Unicode scalar values |
| SniCodec.RoundTrip | src/sni.rs:15-192 | parsing any encoded ClientHello, with any bytes behind it, gives the host of its first server_name extension, and none without one |
| SniCodec.NameRoundTrip | src/sni.rs:15-192 | the name comes back from behind any other extensions and any entries that are not host names |
| SniCodec.NamelessRoundTrip | src/sni.rs:15-70 | an encoded hello without a server_name extension parses to no name |
| SniCodec.LongerBufferAgrees | src/sni.rs:15-110 | a name found in a prefix of a buffer is the name found in the whole buffer |
| SniCodec.FirstRecordDecides | src/sni.rs:15-79 | the answer depends only on the first record |
| SniCodec.PayloadOfEncoding | src/sni.rs:76-79 | the total record length of an encoding is its length |
| SniCodec.PeekServerName | src/l4/router.rs:96-123 | however the stream is cut into pieces, a name found is the stream's, and it is found if the first record arrives and fits the buffer; the first peek that has the whole record, or the whole buffer of 16389 bytes, decides |
| SniCodec.BuildExtensions | src/sni.rs:141-167 | the appended bytes are the encoding of the sample's extension list |
| SniCodec.BuildClientHello | src/sni.rs:125-192 | the bytes are the encoding of the sample ClientHello |
| SniCodec.SampleRoundTrip | src/sni.rs:15-192 | parsing the sample gives back its name, or none if it has none or the name is not UTF-8 |
| BandwidthTracker.NextKeepsInvariant | src/cluster/bandwidth.rs:44-61 | each atomic addition or swap keeps drained + live + pending equal to recorded, modulo 2^64 |
| BandwidthTracker.RunKeepsInvariant | src/cluster/bandwidth.rs:44-61 | so does every interleaving of records and snapshots, additions taking effect in any order |
| BandwidthTracker.InFlightDifference | src/cluster/bandwidth.rs:44-61 | drained plus live minus cumulative is, modulo 2^64, what records in flight have added to the one and not to the other, for both directions |
| BandwidthTracker.QuiescentBooksBalance | src/cluster/bandwidth.rs:44-61 | with no record in flight drained plus live equals cumulative modulo 2^64, and exactly what was recorded if that fits a word |
| BandwidthTracker.EveryCallIsCounted | src/cluster/bandwidth.rs:44-61 | with no record in flight drained plus live, and the cumulative counters, are the sums over the calls made, per direction, and the request count their number, modulo 2^64 |
| BandwidthTracker.BandwidthTracker.Record | src/cluster/bandwidth.rs:44-50 | wrapping additions that add the record to what was recorded and keep the books |
| BandwidthTracker.BandwidthTracker.SnapshotAndReset | src/cluster/bandwidth.rs:53-61 | what is returned is what is newly drained; the cumulative counters are everything drained, modulo 2^64 |
| BandwidthMeter.BandwidthMeter.RecordSample | src/cluster/bandwidth.rs:202-215 | what is kept is the log of all samples without the ones its recordings dropped from the front |
| BandwidthMeter.BandwidthMeter.Aggregate | src/cluster/bandwidth.rs:218-245 | the rate is that of the window over everything ever recorded if and only if no dropped sample is inside the window, as when no sample is later than the reader |
| BandwidthMeter.RateMeaning | src/cluster/bandwidth.rs:218-245 | each rate times the seconds is what went its way, up to 2^64-1, and the total is the sum of both |
| BandwidthMeter.KeptWindowIff | src/cluster/bandwidth.rs:202-233 | a kept suffix shows what the whole log would if and only if every dropped sample is before the window, and fewer samples otherwise |
| BandwidthMeter.ForgottenLeftBehind | src/cluster/bandwidth.rs:202-215 | a dropped sample is more than a window older than some recorded one |
| BandwidthMeter.NothingMissing | src/cluster/bandwidth.rs:202-233 | read no earlier than any sample, every dropped sample is before the window |
| BandwidthMeter.StaleReaderMisses | src/cluster/bandwidth.rs:202-245 | a meter that records at times 0 and 20 with a window of 10 and is read at time 5 counts one sample where the log has two |
| BandwidthMeter.BandwidthLimiter.Check | src/cluster/bandwidth.rs:277-288 | rejects exactly when a limit is set and the kept bytes exceed limit times window length, or go both ways in a window of no length |
| MapSums.SaturateStep | src/cluster/bandwidth.rs:131-137 | saturating at every step is saturating the true sum once |
| ClusterBandwidth.ClusterBandwidthState.UpdatePeer | src/cluster/bandwidth.rs:110-121 | the report replaces the peer's entry and the totals are the saturated sums |
| ClusterBandwidth.ClusterBandwidthState.EvictStale | src/cluster/bandwidth.rs:124-129 | exactly the peers seen after the cutoff stay and the totals are the saturated sums |
| ClusterBandwidth.ClusterBandwidthState.Recalculate | src/cluster/bandwidth.rs:131-141 | in whatever order the map is walked, the totals are min(2^64-1, true sum) and the count is the number of peers |
| ClusterBandwidth.ReportReplaces | src/cluster/bandwidth.rs:110-121 | a report changes the true sums by the difference to the peer's previous report |
| Watchdog.Watchdog.MakeRestarts | src/gateway/watchdog.rs:111-120 | the removal loop restarts exactly the due entries, in order, and keeps the others in order |
| Watchdog.Watchdog.DrainPanics | src/gateway/watchdog.rs:122-136 | every queued signal is accounted for in order |
| Watchdog.Watchdog.Tick | src/gateway/watchdog.rs:107-140 | a tick restarts what is due and then accounts for every signal |
| WatchdogRuns.TickKeepsSeparate | src/gateway/watchdog.rs:107-140 | a tick keeps running and waiting keys apart and leaves every restart due strictly later |
| WatchdogRuns.RestartedWith | src/gateway/watchdog.rs:111-120 | a restarted task runs with the factory it waited with and running tasks keep theirs |
| WatchdogRuns.BackoffSchedule | src/gateway/watchdog.rs:122-136 | of the panics of a key within 60 s the first restarts after 50 ms, the second after 100 ms, the third poisons |
| WatchdogRuns.ObserveKey | src/gateway/watchdog.rs:122-136 | the effect of a tick's signals on one key: its budget list, whether it runs, and whether it waits |
| WatchdogRuns.PoisonedIff | src/gateway/watchdog.rs:128-130 | Poisoned is reported for a key exactly when it panicked and its budget list reaches three |
| WatchdogRuns.PoisonedStaysIff | src/gateway/watchdog.rs:122-136 | a poisoned key stays supervised if and only if a restart was already waiting or its first panic of the tick still had budget for one |
| WatchdogRuns.RunKeepsInvariant | src/gateway/watchdog.rs:88-148 | over every run that spawns only unsupervised keys on a clock that does not go back: no key both runs and waits or waits twice, every restart is due after the last tick, each budget list is the observations less than 60 s before its latest |
| WatchdogRuns.PoisonedStopsUntilShutdown | src/gateway/watchdog.rs:107-140 | in every such run without a shutdown, a key reported poisoned neither runs nor waits afterwards |
| WatchdogRuns.ShutdownIsFinal | src/gateway/watchdog.rs:142-148 | after a shutdown no key runs or waits until something is spawned, whatever signals and ticks follow |
| WatchdogRuns.PoisonedCanRestart | src/gateway/watchdog.rs:107-148 | with shutdowns, left-over signals make one tick report a key poisoned and the next one restart it |
| Tallies.PeakCount | src/ddos/features.rs:202-209 | count map and maximum give the number of occurrences of the most frequent value |
| Tallies.CountDistinct | src/ddos/features.rs:143-149 | the set loop counts the distinct values |
| DdosFeatures.MethodEntropy | src/ddos/features.rs:168-181 | the bucket loop and the entropy loop compute the entropy of the bucket counts |
| DdosFeatures.FillFeatures | src/ddos/features.rs:139-251 | the loops compute the feature vector of the columns |
| DdosFeatures.FeaturesPermutation | src/ddos/features.rs:132-252 | the features depend only on the multiset of events |
| FeatureMeaning.ErrorMeaning | src/ddos/features.rs:160-162 | the error rate times the number of events is how many have a status from 400 on |
| FeatureMeaning.RatioMeaning | src/ddos/features.rs:223-234 | each ratio times the number of events is how many have its flag |
| FeatureMeaning.UniqueMeaning | src/ddos/features.rs:142-221 | each unique count is the number of different values of its field |
| FeatureMeaning.MeanMeaning | src/ddos/features.rs:164-212 | each average times the number of events is the sum of its field |
| FeatureMeaning.RequestRateMeaning | src/ddos/features.rs:139-140 | the request rate times the window is the number of events |
| FeatureMeaning.RepetitionMeaning | src/ddos/features.rs:201-209 | the repetition times the number of events is the visits of the most visited path |
| FeatureMeaning.BurstMeaning | src/ddos/features.rs:183-199 | the burst score is the number of gaps over the span, the number of events without a span, 0 for one event |
| FeatureMeaning.SpanMeaning | src/ddos/features.rs:183-199 | the span is the time from the first event to the last |
| FeatureMeaning.EntropyMeaning | src/ddos/features.rs:167-181 | the entropy is that of the counts of events by method number modulo 8 |
| DdosFeatures.PathsTimesRepetition | src/ddos/features.rs:142-209 | unique_paths times path_repetition is at least one when there are events |
| IpState.IpState.Push | src/ddos/features.rs:101-109 | after any pushes the ring is the history until full, then, read from the cursor, its last `capacity` events |
| IpState.IpState.HoldsTheLast | src/ddos/features.rs:91-117 | the buffer holds exactly the last min(k, capacity) events |
| IpState.IpState.ActiveEvents | src/ddos/features.rs:122-129 | exactly the events within the window, in buffer order |
| IpState.ActiveCount | src/ddos/features.rs:122-129 | an event is active as often as it is there if it is no older than the window, and never otherwise |
| IpState.IpState.ExtractFeatures | src/ddos/features.rs:132-252 | the features of the active ones among the last `capacity` events, as if in arrival order |
| IpState.BurstScore | src/ddos/features.rs:183-199 | the span of the sorted times is latest minus earliest |
| IpState.ExtractForWindow | src/ddos/features.rs:360-479 | the log's features of the events in a window, with the span from the first to the last |
| IpState.LogAgrees | src/ddos/features.rs:360-479 | on events in time order the log's features equal the ring buffer's |

## Left out

- Kubernetes watchers, certificate files, telemetry, metrics, upgrades, SSH and TLS relays, static files
  and dataset downloads: input and output with little logic.
- Leader election: it rests on the Kubernetes API server, which is not part of this model.
- Gossip transport and its encoding, Caddyfile and TOML conversion: foreign libraries and field-by-field
  copying.
- Action payloads of plans (filters, CORS, cache, auth, rewrites): carried as opaque data, since lookup
  never reads them; compiling them, which can fail for a host, is not modelled.
- Regular expressions are an uninterpreted function of pattern and text, hash order is any order, and
  strings have one character per UTF-8 byte. Header values that are not text count as absent.
- Trained weights and the DDoS copies of CROWN and the audit: the model covers any weights and dimensions.
- IEEE details: numbers are reals; `Rounding` states the hypotheses on rounding and on the sigmoid. NaN
  and infinities are not modelled, apart from the meter's rates. In the Gaussian process, the
  features and the limiter arithmetic is exact, with exponential, square root and logarithm as parameters.
- CertifiedRadius.CertifiedRadius: requires that the bisection ends, since the source loop may not;
  `SearchTermination.EveryCallEndsIff` and `Bisection.SmallErrorEnds` say when it does.
- SearchTermination.EveryCallEndsIff: requires that one neuron can tell distant neighbours apart
  (`Discerning`), which `SearchTermination.GapTellsApart` and `SearchTermination.RisingIsDiscerning` give;
  numbers grow without overflow.
- AuditExactness.ClearanceHoldsIff: that the condition is necessary is stated on numbers of one spacing,
  where sums are exact; in binary32 a weight can be so small that every sum absorbs it. That it is
  sufficient is `MonotonicityAudit.AuditIsSound`, for every monotone rounding.
- GaussianProcess.PositiveKernelIsExact: that the squared-exponential kernel is positive semidefinite is a
  hypothesis, since the exponential is a parameter.
- RouteManager.Manager.Apply: one atomic step; `ConcurrentApply` has the interleavings of applies, without
  rollbacks among them. Version ids and times are left out.
- RouteManager.Work: that a compilation succeeds or fails whatever the hash order (`Decided`) is a
  hypothesis; for the L4 part it is what `L4Config.Compile` states.
- RouteManager.CoalescingIsTransparentIff: assumes the default source starts empty, as `spawn` creates it,
  and that no other source changes meanwhile.
- BandwidthTracker.BandwidthTracker.Record: the class runs alone; interleavings are the state machine's.
- DdosFeatures.FillFeatures, IpState.IpState.ExtractFeatures, IpState.ExtractForWindow: require a positive
  window; a zero window gives an infinite request rate in the source.
- IpState.IpState.Push: requires a positive capacity; the source panics without one.
- GaussianProcess.GaussianProcess.Predict: requires a non-zero length scale; zero gives NaN in the source.
- Watchdog.Watchdog.Tick: tasks, their runtime and abort handles are opaque; a panic is a signal in the
  queue.
- SniCodec.BuildClientHello: requires lengths that fit their fields; beyond them the source truncates.
- `listener_hostname_for`, `has_gateway_api_listener`, `has_gateway_api_routes`, static rewrites of a host,
  `NormParams`, `method_to_u8` and `is_suspicious_path`: easy members that no property above needs.
