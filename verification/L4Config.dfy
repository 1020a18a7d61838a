/** Compiling the L4 part of a route table (`CompiledL4Config::compile`): listeners on one address
    are merged onto shared sockets and the L4 routes follow them. */
module L4Config {
  import opened Text
  import opened RouteIr
  import Sorting

  datatype CompileResult<+T> = Compiled(config: T) | CompileError(listenerId: string)

  datatype L4Config = L4Config(
    listeners: seq<ListenerConfig>,
    tcpRoutes: seq<L4Route>,
    udpRoutes: seq<L4Route>,
    tlsRoutes: seq<L4Route>,
    httpsRoutes: seq<L4Route>,
    httpRoutes: seq<L4Route>)

  // ---- Socket identity ----

  predicate SpeaksTls(p: Protocol) {
    p.Https? || p.Tls?
  }

  function ProtocolName(p: Protocol): string {
    match p
    case Http => "Http"
    case Https => "Https"
    case Tcp => "Tcp"
    case Udp => "Udp"
    case Tls => "Tls"
  }

  ghost predicate Listens(ls: seq<ListenerConfig>, addr: string, p: Protocol) {
    exists l | l in ls :: l.bindAddr == addr && l.protocol == p
  }

  ghost predicate SharesTlsSocket(ls: seq<ListenerConfig>, addr: string) {
    Listens(ls, addr, Https) && Listens(ls, addr, Tls)
  }

  function SocketKey(addr: string, p: Protocol, shared: bool): string {
    if SpeaksTls(p) && shared then addr + "#tls" else addr + "#" + ProtocolName(p)
  }

  /** The id of the output listener that a listener is merged into. */
  ghost function CanonicalId(ls: seq<ListenerConfig>, l: ListenerConfig): string {
    SocketKey(l.bindAddr, l.protocol, SharesTlsSocket(ls, l.bindAddr))
  }

  /** The id is the address with the protocol's name, or with `tls` where an HTTPS and a TLS listener share it. */
  lemma SocketNames(ls: seq<ListenerConfig>, l: ListenerConfig)
    ensures var both := (exists x | x in ls :: x.bindAddr == l.bindAddr && x.protocol == Https)
                     && (exists x | x in ls :: x.bindAddr == l.bindAddr && x.protocol == Tls);
      CanonicalId(ls, l) == l.bindAddr +
        match l.protocol
        case Http => "#Http"
        case Tcp => "#Tcp"
        case Udp => "#Udp"
        case Https => if both then "#tls" else "#Https"
        case Tls => if both then "#tls" else "#Tls"
  {
    assert "#" + ProtocolName(l.protocol) ==
      match l.protocol case Http => "#Http" case Tcp => "#Tcp" case Udp => "#Udp" case Https => "#Https" case Tls => "#Tls";
    assert l.bindAddr + "#" + ProtocolName(l.protocol) == l.bindAddr + ("#" + ProtocolName(l.protocol));
  }

  lemma TagsDiffer(a: string, b: string, s: string, t: string)
    requires a + "#" + s == b + "#" + t && '#' !in s && '#' !in t
    ensures a == b && s == t
  {
    var whole := a + "#" + s;
    assert whole[|a|] == '#' && whole[|b|] == '#';
    assert |a| == |b|;
    assert whole[..|a|] == a && whole[..|b|] == b;
    assert whole[|a| + 1..] == s && whole[|b| + 1..] == t;
  }

  /** Two listeners share an output socket iff they have the same address and either the same
      protocol or are both TLS-speaking. */
  lemma SameSocketIff(ls: seq<ListenerConfig>, a: ListenerConfig, b: ListenerConfig)
    requires a in ls && b in ls
    ensures CanonicalId(ls, a) == CanonicalId(ls, b) <==>
      a.bindAddr == b.bindAddr && (a.protocol == b.protocol || (SpeaksTls(a.protocol) && SpeaksTls(b.protocol)))
  {
    var s := if SpeaksTls(a.protocol) && SharesTlsSocket(ls, a.bindAddr) then "tls" else ProtocolName(a.protocol);
    var t := if SpeaksTls(b.protocol) && SharesTlsSocket(ls, b.bindAddr) then "tls" else ProtocolName(b.protocol);
    assert CanonicalId(ls, a) == a.bindAddr + "#" + s;
    assert CanonicalId(ls, b) == b.bindAddr + "#" + t;
    if CanonicalId(ls, a) == CanonicalId(ls, b) {
      TagsDiffer(a.bindAddr, b.bindAddr, s, t);
      TagNames(a.protocol, b.protocol);
    }
  }

  lemma TagNames(p: Protocol, q: Protocol)
    ensures ProtocolName(p) == ProtocolName(q) ==> p == q
    ensures ProtocolName(p) != "tls"
  {
    assert ProtocolName(p)[0] != 't';
    assert |ProtocolName(p)| == if p.Http? then 4 else if p.Https? then 5 else 3;
    assert ProtocolName(p)[1] == if p.Udp? then 'd' else if p.Tls? then 'l' else if p.Tcp? then 'c' else 't';
  }

  // ---- Grouping ----

  datatype GroupKey = GroupKey(addr: string, protocol: Protocol)

  type Groups = map<GroupKey, seq<ListenerConfig>>

  /** Listeners grouped by address and protocol. */
  ghost predicate GroupsOf(groups: Groups, ls: seq<ListenerConfig>) {
    && (forall k | k in groups :: groups[k] != [])
    && (forall k, l | k in groups && l in groups[k] :: l in ls && GroupKey(l.bindAddr, l.protocol) == k)
    && (forall l | l in ls :: GroupKey(l.bindAddr, l.protocol) in groups && l in groups[GroupKey(l.bindAddr, l.protocol)])
  }

  function KeyOf(l: ListenerConfig): GroupKey {
    GroupKey(l.bindAddr, l.protocol)
  }

  /** The listeners of one address and protocol, in declared order. */
  function Declared(ls: seq<ListenerConfig>, k: GroupKey): seq<ListenerConfig> {
    if ls == [] then []
    else
      var rest, last := Declared(ls[..|ls| - 1], k), ls[|ls| - 1];
      if KeyOf(last) == k then rest + [last] else rest
  }

  /** Each group is in declared order. */
  ghost predicate InDeclaredOrder(groups: Groups, ls: seq<ListenerConfig>) {
    forall k: GroupKey :: (if k in groups then groups[k] else []) == Declared(ls, k)
  }

  function Push(groups: Groups, l: ListenerConfig): Groups {
    groups[KeyOf(l) := (if KeyOf(l) in groups then groups[KeyOf(l)] else []) + [l]]
  }

  lemma PushGroups(groups: Groups, ls: seq<ListenerConfig>, l: ListenerConfig)
    requires GroupsOf(groups, ls)
    ensures GroupsOf(Push(groups, l), ls + [l])
  {
  }

  lemma PushKeepsOrder(groups: Groups, ls: seq<ListenerConfig>, l: ListenerConfig)
    requires InDeclaredOrder(groups, ls)
    ensures InDeclaredOrder(Push(groups, l), ls + [l])
  {
    assert (ls + [l])[..|ls|] == ls;
    forall k: GroupKey ensures (if k in Push(groups, l) then Push(groups, l)[k] else []) == Declared(ls + [l], k) {
      assert (if k in groups then groups[k] else []) == Declared(ls, k);
    }
  }

  method GroupListeners(ls: seq<ListenerConfig>) returns (groups: Groups)
    ensures GroupsOf(groups, ls) && InDeclaredOrder(groups, ls)
  {
    groups := map[];
    for i := 0 to |ls|
      invariant GroupsOf(groups, ls[..i]) && InDeclaredOrder(groups, ls[..i])
    {
      assert ls[..i + 1] == ls[..i] + [ls[i]];
      PushGroups(groups, ls[..i], ls[i]);
      PushKeepsOrder(groups, ls[..i], ls[i]);
      groups := Push(groups, ls[i]);
    }
    assert ls[..|ls|] == ls;
  }

  /** The addresses on which both HTTPS and TLS listeners bind. */
  function SharedTlsAddrs(groups: Groups): set<string> {
    var httpsAddrs := set k | k in groups && k.protocol == Https :: k.addr;
    var tlsAddrs := set k | k in groups && k.protocol == Tls :: k.addr;
    httpsAddrs * tlsAddrs
  }

  lemma SharedTlsAddrsIff(groups: Groups, ls: seq<ListenerConfig>, addr: string)
    requires GroupsOf(groups, ls)
    ensures addr in SharedTlsAddrs(groups) <==> SharesTlsSocket(ls, addr)
  {
    ListensIff(groups, ls, addr, Https);
    ListensIff(groups, ls, addr, Tls);
    assert addr in SharedTlsAddrs(groups) <==> GroupKey(addr, Https) in groups && GroupKey(addr, Tls) in groups;
  }

  lemma ListensIff(groups: Groups, ls: seq<ListenerConfig>, addr: string, p: Protocol)
    requires GroupsOf(groups, ls)
    ensures GroupKey(addr, p) in groups <==> Listens(ls, addr, p)
  {
    if GroupKey(addr, p) in groups {
      assert groups[GroupKey(addr, p)][0] in ls;
    }
  }

  type Sockets = map<string, seq<ListenerConfig>>

  /** Members of each output socket; `todo` holds the groups not merged yet. */
  ghost predicate SocketsOf(sockets: Sockets, groups: Groups, todo: set<GroupKey>, ls: seq<ListenerConfig>) {
    && (forall id | id in sockets :: sockets[id] != [])
    && (forall id, l | id in sockets && l in sockets[id] :: l in ls && CanonicalId(ls, l) == id)
    && (forall k, l | k in groups && k !in todo && l in groups[k] ::
          CanonicalId(ls, l) in sockets && l in sockets[CanonicalId(ls, l)])
  }

  lemma GroupSocket(groups: Groups, ls: seq<ListenerConfig>, k: GroupKey, id: string)
    requires GroupsOf(groups, ls) && k in groups && id == SocketKey(k.addr, k.protocol, k.addr in SharedTlsAddrs(groups))
    ensures forall l | l in groups[k] :: CanonicalId(ls, l) == id
  {
    SharedTlsAddrsIff(groups, ls, k.addr);
  }

  lemma MergeStep(sockets: Sockets, groups: Groups, todo: set<GroupKey>, ls: seq<ListenerConfig>, k: GroupKey, id: string)
    requires GroupsOf(groups, ls) && SocketsOf(sockets, groups, todo, ls) && k in todo && k in groups
    requires forall l | l in groups[k] :: CanonicalId(ls, l) == id
    ensures SocketsOf(sockets[id := (if id in sockets then sockets[id] else []) + groups[k]], groups, todo - {k}, ls)
  {
  }

  /** The members of one address and protocol are all there, in declared order. */
  ghost predicate KeepsOrder(members: seq<ListenerConfig>, ls: seq<ListenerConfig>) {
    forall l | l in members :: Declared(members, KeyOf(l)) == Declared(ls, KeyOf(l))
  }

  ghost predicate KeepOrder(sockets: Sockets, todo: set<GroupKey>, ls: seq<ListenerConfig>) {
    && (forall id | id in sockets :: KeepsOrder(sockets[id], ls))
    && (forall id, l | id in sockets && l in sockets[id] :: KeyOf(l) !in todo)
  }

  lemma {:induction false} DeclaredConcat(a: seq<ListenerConfig>, b: seq<ListenerConfig>, k: GroupKey)
    ensures Declared(a + b, k) == Declared(a, k) + Declared(b, k)
  {
    if b == [] {
      assert a + b == a;
    } else {
      DeclaredConcat(a, b[..|b| - 1], k);
      assert (a + b)[..|a + b| - 1] == a + b[..|b| - 1];
    }
  }

  lemma {:induction false} DeclaredAll(ls: seq<ListenerConfig>, k: GroupKey)
    requires forall l | l in ls :: KeyOf(l) == k
    ensures Declared(ls, k) == ls
  {
    if ls != [] {
      assert ls == ls[..|ls| - 1] + [ls[|ls| - 1]] && ls[|ls| - 1] in ls;
      DeclaredAll(ls[..|ls| - 1], k);
    }
  }

  lemma {:induction false} DeclaredNone(ls: seq<ListenerConfig>, k: GroupKey)
    requires forall l | l in ls :: KeyOf(l) != k
    ensures Declared(ls, k) == []
  {
    if ls != [] {
      assert ls[|ls| - 1] in ls;
      DeclaredNone(ls[..|ls| - 1], k);
    }
  }

  lemma ExtendKeepsOrder(members: seq<ListenerConfig>, group: seq<ListenerConfig>, k: GroupKey, ls: seq<ListenerConfig>)
    requires KeepsOrder(members, ls) && group == Declared(ls, k)
    requires (forall l | l in members :: KeyOf(l) != k) && (forall l | l in group :: KeyOf(l) == k)
    ensures KeepsOrder(members + group, ls)
  {
    forall l | l in members + group ensures Declared(members + group, KeyOf(l)) == Declared(ls, KeyOf(l)) {
      DeclaredConcat(members, group, KeyOf(l));
      if KeyOf(l) == k {
        DeclaredNone(members, k);
        DeclaredAll(group, k);
      } else {
        DeclaredNone(group, KeyOf(l));
      }
    }
  }

  lemma OrderStep(sockets: Sockets, groups: Groups, todo: set<GroupKey>, ls: seq<ListenerConfig>, k: GroupKey, id: string)
    requires GroupsOf(groups, ls) && InDeclaredOrder(groups, ls) && KeepOrder(sockets, todo, ls) && k in todo && k in groups
    ensures KeepOrder(sockets[id := (if id in sockets then sockets[id] else []) + groups[k]], todo - {k}, ls)
  {
    var members := if id in sockets then sockets[id] else [];
    ExtendKeepsOrder(members, groups[k], k, ls);
  }

  /** Merges the groups in whatever order the hash map gives them. */
  method MergeGroups(groups: Groups, ghost ls: seq<ListenerConfig>) returns (sockets: Sockets)
    requires GroupsOf(groups, ls) && InDeclaredOrder(groups, ls)
    ensures SocketsOf(sockets, groups, {}, ls) && KeepOrder(sockets, {}, ls)
  {
    sockets := map[];
    var todo := groups.Keys;
    while todo != {}
      invariant todo <= groups.Keys
      invariant SocketsOf(sockets, groups, todo, ls) && KeepOrder(sockets, todo, ls)
    {
      var k :| k in todo;
      var id := SocketKey(k.addr, k.protocol, k.addr in SharedTlsAddrs(groups));
      GroupSocket(groups, ls, k, id);
      MergeStep(sockets, groups, todo, ls, k, id);
      OrderStep(sockets, groups, todo, ls, k, id);
      sockets := sockets[id := (if id in sockets then sockets[id] else []) + groups[k]];
      todo := todo - {k};
    }
  }

  // ---- One output listener per socket ----

  function FirstTls(members: seq<ListenerConfig>): Option<TlsConfig> {
    if members == [] then None
    else if members[0].tls.Some? then members[0].tls
    else FirstTls(members[1..])
  }

  function FirstValidation(members: seq<ListenerConfig>, strictOnly: bool): Option<FrontendValidation> {
    if members == [] then None
    else
      var v := members[0].frontendValidation;
      if v.Some? && (strictOnly ==> !v.value.allowInsecureFallback) then v
      else FirstValidation(members[1..], strictOnly)
  }

  function MergeMembers(id: string, members: seq<ListenerConfig>): ListenerConfig
    requires members != []
  {
    var strict := FirstValidation(members, true);
    ListenerConfig(
      id,
      members[0].bindAddr,
      if exists l | l in members :: l.protocol == Tls then Tls else members[0].protocol,
      FirstTls(members),
      exists l | l in members :: l.redirectHttpToHttps,
      if strict.Some? then strict else FirstValidation(members, false))
  }

  ghost predicate Strict(l: ListenerConfig) {
    l.frontendValidation.Some? && !l.frontendValidation.value.allowInsecureFallback
  }

  lemma {:induction false} FirstTlsIsMembers(members: seq<ListenerConfig>)
    ensures FirstTls(members).None? <==> forall l | l in members :: l.tls.None?
    ensures FirstTls(members).Some? ==> exists l | l in members :: l.tls == FirstTls(members)
  {
    if members != [] {
      FirstTlsIsMembers(members[1..]);
      assert members == [members[0]] + members[1..];
      assert members[0] in members;
    }
  }

  lemma {:induction false} FirstValidationIsMembers(members: seq<ListenerConfig>, strictOnly: bool)
    ensures var v := FirstValidation(members, strictOnly);
      && (v.None? <==> forall l | l in members :: l.frontendValidation.Some? ==> strictOnly && !Strict(l))
      && (v.Some? ==> exists l | l in members :: l.frontendValidation == v)
      && (v.Some? && strictOnly ==> !v.value.allowInsecureFallback)
  {
    if members != [] {
      FirstValidationIsMembers(members[1..], strictOnly);
      assert members == [members[0]] + members[1..];
      assert members[0] in members;
    }
  }

  /** What an output listener owes to the listeners merged into it. */
  ghost predicate Represents(o: ListenerConfig, ls: seq<ListenerConfig>) {
    var members := set l | l in ls && CanonicalId(ls, l) == o.id;
    && members != {}
    && (forall l | l in members :: l.bindAddr == o.bindAddr)
    && (o.protocol == Tls <==> exists l | l in members :: l.protocol == Tls)
    && (o.protocol != Tls ==> forall l | l in members :: l.protocol == o.protocol)
    && (o.tls.Some? <==> exists l | l in members :: l.tls.Some?)
    && (o.tls.Some? ==> exists l | l in members :: l.tls == o.tls)
    && (o.redirectHttpToHttps <==> exists l | l in members :: l.redirectHttpToHttps)
    && (Strict(o) <==> exists l | l in members :: Strict(l))
    && (o.frontendValidation.Some? <==> exists l | l in members :: l.frontendValidation.Some?)
    && (o.frontendValidation.Some? ==> exists l | l in members :: l.frontendValidation == o.frontendValidation)
  }

  lemma MergeMembersRepresents(id: string, members: seq<ListenerConfig>, ls: seq<ListenerConfig>)
    requires members != []
    requires forall l :: l in members <==> l in ls && CanonicalId(ls, l) == id
    ensures Represents(MergeMembers(id, members), ls)
  {
    FirstTlsIsMembers(members);
    FirstValidationIsMembers(members, true);
    FirstValidationIsMembers(members, false);
    assert members[0] in members;
    forall l | l in members
      ensures l.bindAddr == members[0].bindAddr
      ensures l.protocol == members[0].protocol || (SpeaksTls(l.protocol) && SpeaksTls(members[0].protocol))
    {
      SameSocketIff(ls, l, members[0]);
    }
    var asSet := set l | l in ls && CanonicalId(ls, l) == id;
    assert forall l :: l in asSet <==> l in members;
  }

  // ---- Hash order ----

  function OrElse<T>(a: Option<T>, b: Option<T>): Option<T> {
    if a.Some? then a else b
  }

  predicate Agree<T(==)>(a: Option<T>, b: Option<T>) {
    a.None? || b.None? || a == b
  }

  lemma {:induction false} FirstTlsConcat(a: seq<ListenerConfig>, b: seq<ListenerConfig>)
    ensures FirstTls(a + b) == OrElse(FirstTls(a), FirstTls(b))
  {
    if a == [] {
      assert a + b == b;
    } else {
      FirstTlsConcat(a[1..], b);
      assert (a + b)[1..] == a[1..] + b;
    }
  }

  lemma {:induction false} FirstValidationConcat(a: seq<ListenerConfig>, b: seq<ListenerConfig>, strictOnly: bool)
    ensures FirstValidation(a + b, strictOnly) == OrElse(FirstValidation(a, strictOnly), FirstValidation(b, strictOnly))
  {
    if a == [] {
      assert a + b == b;
    } else {
      FirstValidationConcat(a[1..], b, strictOnly);
      assert (a + b)[1..] == a[1..] + b;
    }
  }

  /** The HTTPS and the TLS group of an address meet in hash order. The shared listener is the same either
      way if and only if the two groups do not bring different certificates or different validations. */
  lemma HashOrderMattersIff(id: string, https: seq<ListenerConfig>, tls: seq<ListenerConfig>)
    requires https != [] && tls != [] && https[0].bindAddr == tls[0].bindAddr && tls[0].protocol == Tls
    ensures MergeMembers(id, https + tls) == MergeMembers(id, tls + https) <==>
      && Agree(FirstTls(https), FirstTls(tls))
      && (if FirstValidation(https, true).Some? || FirstValidation(tls, true).Some?
          then Agree(FirstValidation(https, true), FirstValidation(tls, true))
          else Agree(FirstValidation(https, false), FirstValidation(tls, false)))
  {
    assert tls[0] in https + tls && tls[0] in tls + https;
    assert forall l :: l in https + tls <==> l in tls + https;
    FirstTlsConcat(https, tls);
    FirstTlsConcat(tls, https);
    FirstValidationConcat(https, tls, true);
    FirstValidationConcat(tls, https, true);
    FirstValidationConcat(https, tls, false);
    FirstValidationConcat(tls, https, false);
  }

  // ---- Output listeners and the id map ----

  predicate IdLe(a: ListenerConfig, b: ListenerConfig) {
    StringLe(a.id, b.id)
  }

  lemma IdLeIsTotalPreorder()
    ensures Sorting.TotalPreorder(IdLe)
  {
    forall a, b ensures IdLe(a, b) || IdLe(b, a) {
      StringLeTotal(a.id, b.id);
    }
    forall a, b, c | IdLe(a, b) && IdLe(b, c) ensures IdLe(a, c) {
      StringLeTransitive(a.id, b.id, c.id);
    }
  }

  ghost predicate DistinctIds(ls: seq<ListenerConfig>) {
    forall i, j | 0 <= i < j < |ls| :: ls[i].id != ls[j].id
  }

  /** Every known listener id leads to the socket of a listener with that id. */
  ghost predicate MapsIds(idMap: map<string, string>, ls: seq<ListenerConfig>) {
    && (forall id | id in idMap :: exists l | l in ls :: l.id == id && idMap[id] == CanonicalId(ls, l))
    && (forall l | l in ls :: l.id in idMap)
  }

  /** `after` sends the members to `id` and is otherwise like `before`. */
  ghost predicate SendsTo(before: map<string, string>, after: map<string, string>, id: string, members: seq<ListenerConfig>) {
    && (forall l | l in members :: l.id in after)
    && (forall x | x in before :: x in after)
    && (forall x | x in after :: after[x] == id || (x in before && after[x] == before[x]))
    && (forall x | x in after && !(x in before && after[x] == before[x]) :: exists l | l in members :: l.id == x)
  }

  method MapMembers(before: map<string, string>, id: string, members: seq<ListenerConfig>) returns (idMap: map<string, string>)
    ensures SendsTo(before, idMap, id, members)
  {
    idMap := before;
    for i := 0 to |members|
      invariant SendsTo(before, idMap, id, members[..i])
    {
      assert members[..i + 1] == members[..i] + [members[i]];
      assert members[i] in members[..i + 1];
      idMap := idMap[members[i].id := id];
    }
    assert members[..|members|] == members;
  }

  lemma IdsStep(before: map<string, string>, after: map<string, string>, id: string, sockets: Sockets, todo: set<string>, ls: seq<ListenerConfig>)
    requires IdsDone(before, sockets, todo, ls) && id in todo && id in sockets
    requires forall l | l in sockets[id] :: l in ls && CanonicalId(ls, l) == id
    requires SendsTo(before, after, id, sockets[id])
    ensures IdsDone(after, sockets, todo - {id}, ls)
  {
    forall x | x in after ensures exists l | l in ls :: l.id == x && after[x] == CanonicalId(ls, l) {
      if !(x in before && after[x] == before[x]) {
        var l :| l in sockets[id] && l.id == x;
        assert l in ls && after[x] == CanonicalId(ls, l);
      }
    }
  }

  ghost predicate IsMerged(o: ListenerConfig, members: seq<ListenerConfig>) {
    members != [] && o == MergeMembers(o.id, members)
  }

  /** One output listener per finished socket. */
  ghost predicate OutDone(out: seq<ListenerConfig>, sockets: Sockets, todo: set<string>) {
    && DistinctIds(out)
    && (forall o | o in out :: o.id in sockets && o.id !in todo && IsMerged(o, sockets[o.id]))
    && (forall id | id in sockets && id !in todo :: exists o | o in out :: o.id == id)
  }

  ghost predicate IdsDone(idMap: map<string, string>, sockets: Sockets, todo: set<string>, ls: seq<ListenerConfig>) {
    && (forall x | x in idMap :: exists l | l in ls :: l.id == x && idMap[x] == CanonicalId(ls, l))
    && (forall id, l | id in sockets && id !in todo && l in sockets[id] :: l.id in idMap)
  }

  lemma OutStep(out: seq<ListenerConfig>, o: ListenerConfig, sockets: Sockets, todo: set<string>)
    requires OutDone(out, sockets, todo) && o.id in todo && o.id in sockets && IsMerged(o, sockets[o.id])
    ensures OutDone(out + [o], sockets, todo - {o.id})
  {
    assert o in out + [o];
    assert forall x | x in out :: x in out + [o];
  }

  method BuildListener(before: seq<ListenerConfig>, idsBefore: map<string, string>, id: string, sockets: Sockets,
                       ghost todo: set<string>, ghost ls: seq<ListenerConfig>)
    returns (out: seq<ListenerConfig>, idMap: map<string, string>)
    requires OutDone(before, sockets, todo) && IdsDone(idsBefore, sockets, todo, ls)
    requires id in todo && id in sockets && sockets[id] != []
    requires forall l | l in sockets[id] :: l in ls && CanonicalId(ls, l) == id
    ensures OutDone(out, sockets, todo - {id}) && IdsDone(idMap, sockets, todo - {id}, ls)
  {
    var merged := MergeMembers(id, sockets[id]);
    OutStep(before, merged, sockets, todo);
    out := before + [merged];
    idMap := MapMembers(idsBefore, id, sockets[id]);
    IdsStep(idsBefore, idMap, id, sockets, todo, ls);
  }

  /** Builds the output listeners, socket by socket in hash order, and records where each id went. */
  method BuildListeners(sockets: Sockets, ghost groups: Groups, ghost ls: seq<ListenerConfig>)
    returns (out: seq<ListenerConfig>, idMap: map<string, string>)
    requires GroupsOf(groups, ls) && SocketsOf(sockets, groups, {}, ls)
    ensures OutDone(out, sockets, {}) && IdsDone(idMap, sockets, {}, ls)
  {
    out, idMap := [], map[];
    var todo := sockets.Keys;
    while todo != {}
      invariant todo <= sockets.Keys
      invariant OutDone(out, sockets, todo)
      invariant IdsDone(idMap, sockets, todo, ls)
    {
      var id :| id in todo;
      out, idMap := BuildListener(out, idMap, id, sockets, todo, ls);
      todo := todo - {id};
    }
  }

  lemma MembersAreAll(id: string, members: seq<ListenerConfig>, sockets: Sockets, groups: Groups, ls: seq<ListenerConfig>)
    requires GroupsOf(groups, ls) && SocketsOf(sockets, groups, {}, ls)
    requires id in sockets && members == sockets[id]
    ensures forall l :: l in members <==> l in ls && CanonicalId(ls, l) == id
  {
  }

  lemma EverySocketIsBuilt(out: seq<ListenerConfig>, idMap: map<string, string>, sockets: Sockets, groups: Groups, ls: seq<ListenerConfig>)
    requires GroupsOf(groups, ls) && SocketsOf(sockets, groups, {}, ls)
    requires OutDone(out, sockets, {}) && IdsDone(idMap, sockets, {}, ls)
    ensures forall l | l in ls :: exists o | o in out :: o.id == CanonicalId(ls, l)
    ensures MapsIds(idMap, ls)
  {
    forall l | l in ls ensures CanonicalId(ls, l) in sockets && l in sockets[CanonicalId(ls, l)] {
      assert l in groups[GroupKey(l.bindAddr, l.protocol)];
    }
  }

  // ---- Routes ----

  datatype RouteClass = TcpClass | UdpClass | TlsClass | HttpsClass | HttpClass

  function ClassOf(a: L4Action): RouteClass {
    match a
    case TcpRelay(_) => TcpClass
    case UdpRelay(_) => UdpClass
    case TlsPassthrough(_) => TlsClass
    case TlsTerminate(_) => TlsClass
    case TerminateAndHttp(_) => HttpsClass
    case HttpRelay(_) => HttpClass
  }

  /** The routes of one class, in their original order. */
  function Select(routes: seq<L4Route>, c: RouteClass): seq<L4Route> {
    if routes == [] then []
    else
      var rest, last := Select(routes[..|routes| - 1], c), routes[|routes| - 1];
      if ClassOf(last.action) == c then rest + [last] else rest
  }

  /** The five classes lose no route. */
  lemma {:induction false} ClassesPartition(routes: seq<L4Route>)
    ensures multiset(routes) ==
      multiset(Select(routes, TcpClass)) + multiset(Select(routes, UdpClass)) + multiset(Select(routes, TlsClass))
      + multiset(Select(routes, HttpsClass)) + multiset(Select(routes, HttpClass))
  {
    if routes != [] {
      ClassesPartition(routes[..|routes| - 1]);
      assert routes == routes[..|routes| - 1] + [routes[|routes| - 1]];
    }
  }

  function Move(r: L4Route, idMap: map<string, string>): L4Route {
    r.(listenerId := if r.listenerId in idMap then idMap[r.listenerId] else r.listenerId)
  }

  function MoveAll(routes: seq<L4Route>, idMap: map<string, string>): (moved: seq<L4Route>)
    ensures |moved| == |routes|
    ensures forall i | 0 <= i < |routes| :: moved[i] == Move(routes[i], idMap)
  {
    seq(|routes|, i requires 0 <= i < |routes| => Move(routes[i], idMap))
  }

  method DistributeRoutes(routes: seq<L4Route>, idMap: map<string, string>, listeners: seq<ListenerConfig>) returns (c: L4Config)
    ensures c == ConfigOf(listeners, MoveAll(routes, idMap))
  {
    c := L4Config(listeners, [], [], [], [], []);
    ghost var moved := MoveAll(routes, idMap);
    for i := 0 to |routes|
      invariant c == ConfigOf(listeners, moved[..i])
    {
      var route := Move(routes[i], idMap);
      assert moved[..i + 1][..i] == moved[..i] && moved[..i + 1][i] == route;
      match route.action {
        case TcpRelay(_) => c := c.(tcpRoutes := c.tcpRoutes + [route]);
        case UdpRelay(_) => c := c.(udpRoutes := c.udpRoutes + [route]);
        case TlsPassthrough(_) => c := c.(tlsRoutes := c.tlsRoutes + [route]);
        case TlsTerminate(_) => c := c.(tlsRoutes := c.tlsRoutes + [route]);
        case TerminateAndHttp(_) => c := c.(httpsRoutes := c.httpsRoutes + [route]);
        case HttpRelay(_) => c := c.(httpRoutes := c.httpRoutes + [route]);
      }
    }
    assert moved[..|routes|] == moved;
  }

  function ConfigOf(listeners: seq<ListenerConfig>, routes: seq<L4Route>): L4Config {
    L4Config(listeners, Select(routes, TcpClass), Select(routes, UdpClass), Select(routes, TlsClass),
             Select(routes, HttpsClass), Select(routes, HttpClass))
  }

  // ---- The whole compilation ----

  lemma {:induction false} SelectMembers(routes: seq<L4Route>, c: RouteClass, r: L4Route)
    ensures r in Select(routes, c) <==> r in routes && ClassOf(r.action) == c
  {
    if routes != [] {
      SelectMembers(routes[..|routes| - 1], c, r);
      assert routes == routes[..|routes| - 1] + [routes[|routes| - 1]];
    }
  }

  /** Each route is in the one list that its action asks for. */
  lemma ListMeaning(listeners: seq<ListenerConfig>, routes: seq<L4Route>, r: L4Route)
    ensures var c := ConfigOf(listeners, routes);
      && (r in c.tcpRoutes <==> r in routes && r.action.TcpRelay?)
      && (r in c.udpRoutes <==> r in routes && r.action.UdpRelay?)
      && (r in c.tlsRoutes <==> r in routes && (r.action.TlsPassthrough? || r.action.TlsTerminate?))
      && (r in c.httpsRoutes <==> r in routes && r.action.TerminateAndHttp?)
      && (r in c.httpRoutes <==> r in routes && r.action.HttpRelay?)
  {
    SelectMembers(routes, TcpClass, r);
    SelectMembers(routes, UdpClass, r);
    SelectMembers(routes, TlsClass, r);
    SelectMembers(routes, HttpsClass, r);
    SelectMembers(routes, HttpClass, r);
  }

  predicate LacksTls(l: ListenerConfig) {
    SpeaksTls(l.protocol) && l.tls.None?
  }

  /** Output listeners for the input listeners: sorted by distinct ids, one per socket. */
  ghost predicate MergedListeners(out: seq<ListenerConfig>, ls: seq<ListenerConfig>) {
    && Sorting.SortedBy(out, IdLe) && DistinctIds(out)
    && (forall o | o in out :: Represents(o, ls))
    && (forall l | l in ls :: exists o | o in out :: o.id == CanonicalId(ls, l))
  }

  /** The route keeps everything but its listener id, which now names the socket of its listener. */
  ghost predicate Follows(moved: L4Route, r: L4Route, ls: seq<ListenerConfig>) {
    && moved == r.(listenerId := moved.listenerId)
    && ((exists l | l in ls :: l.id == r.listenerId) ==>
          exists l | l in ls :: l.id == r.listenerId && moved.listenerId == CanonicalId(ls, l))
    && ((forall l | l in ls :: l.id != r.listenerId) ==> moved == r)
  }

  lemma SameIdSameListener(ls: seq<ListenerConfig>, a: ListenerConfig, b: ListenerConfig)
    requires DistinctIds(ls) && a in ls && b in ls && a.id == b.id
    ensures a == b
  {
    var i :| 0 <= i < |ls| && ls[i] == a;
    var j :| 0 <= j < |ls| && ls[j] == b;
    assert i == j;
  }

  lemma RearrangedIds(ls: seq<ListenerConfig>, sorted: seq<ListenerConfig>, i: nat, j: nat)
    requires DistinctIds(ls) && multiset(sorted) == multiset(ls) && i < j < |sorted|
    ensures sorted[i].id != sorted[j].id
  {
    Sorting.MultisetMembers(sorted, ls);
    assert sorted[i] in sorted && sorted[j] in sorted;
    if sorted[i].id == sorted[j].id {
      SameIdSameListener(ls, sorted[i], sorted[j]);
      TwiceInMultiset(sorted, i, j);
      OnceInMultiset(ls, sorted[i]);
      assert false;
    }
  }

  lemma SortKeepsDistinct(out: seq<ListenerConfig>)
    requires DistinctIds(out)
    ensures DistinctIds(Sorting.Sort(out, IdLe))
  {
    var sorted := Sorting.Sort(out, IdLe);
    forall i, j | 0 <= i < j < |sorted| ensures sorted[i].id != sorted[j].id {
      RearrangedIds(out, sorted, i, j);
    }
  }

  lemma TwiceInMultiset(s: seq<ListenerConfig>, i: nat, j: nat)
    requires i < j < |s| && s[i] == s[j]
    ensures multiset(s)[s[i]] >= 2
  {
    assert s == s[..j] + [s[j]] + s[j + 1..];
    assert s[i] in s[..j];
  }

  lemma OnceInMultiset(s: seq<ListenerConfig>, l: ListenerConfig)
    requires DistinctIds(s) && l in s
    ensures multiset(s)[l] == 1
  {
    var i :| 0 <= i < |s| && s[i] == l;
    assert s == s[..i] + [s[i]] + s[i + 1..];
    assert s[i] !in s[..i] && s[i] !in s[i + 1..];
  }

  /** `o` is merged from exactly the listeners of its socket, those of one protocol in declared order. */
  ghost predicate FromDeclared(o: ListenerConfig, ls: seq<ListenerConfig>) {
    exists members :: IsMerged(o, members) && KeepsOrder(members, ls)
      && forall l :: l in members <==> l in ls && CanonicalId(ls, l) == o.id
  }

  lemma BuiltFromSocket(o: ListenerConfig, sockets: Sockets, groups: Groups, ls: seq<ListenerConfig>)
    requires GroupsOf(groups, ls) && SocketsOf(sockets, groups, {}, ls) && KeepOrder(sockets, {}, ls)
    requires o.id in sockets && IsMerged(o, sockets[o.id])
    ensures Represents(o, ls) && FromDeclared(o, ls)
  {
    MembersAreAll(o.id, sockets[o.id], sockets, groups, ls);
    MergeMembersRepresents(o.id, sockets[o.id], ls);
  }

  method CompileListeners(ls: seq<ListenerConfig>) returns (out: seq<ListenerConfig>, idMap: map<string, string>)
    ensures MergedListeners(out, ls) && MapsIds(idMap, ls) && forall o | o in out :: FromDeclared(o, ls)
  {
    var groups := GroupListeners(ls);
    var sockets := MergeGroups(groups, ls);
    out, idMap := BuildListeners(sockets, groups, ls);
    EverySocketIsBuilt(out, idMap, sockets, groups, ls);
    forall o | o in out ensures Represents(o, ls) && FromDeclared(o, ls) {
      BuiltFromSocket(o, sockets, groups, ls);
    }
    IdLeIsTotalPreorder();
    Sorting.SortIsSorted(out, IdLe);
    Sorting.SortMembers(out, IdLe);
    SortKeepsDistinct(out);
    out := Sorting.Sort(out, IdLe);
  }

  lemma MoveFollows(r: L4Route, idMap: map<string, string>, ls: seq<ListenerConfig>)
    requires MapsIds(idMap, ls)
    ensures Follows(Move(r, idMap), r, ls)
  {
  }

  predicate IsFirstLacking(ls: seq<ListenerConfig>, i: nat)
    requires i < |ls|
  {
    LacksTls(ls[i]) && forall j | 0 <= j < i :: !LacksTls(ls[j])
  }

  /** The first listener that must terminate TLS and has no TLS settings, if there is one. */
  method FindLacking(ls: seq<ListenerConfig>) returns (i: nat)
    ensures i <= |ls|
    ensures i < |ls| ==> (ls[i].protocol == Https || ls[i].protocol == Tls) && ls[i].tls == None
    ensures forall j | 0 <= j < i :: ls[j].tls == None ==> ls[j].protocol != Https && ls[j].protocol != Tls
  {
    i := 0;
    while i < |ls| && !LacksTls(ls[i])
      invariant i <= |ls| && forall j | 0 <= j < i :: !LacksTls(ls[j])
    {
      i := i + 1;
    }
  }

  method CompileRoutes(ls: seq<ListenerConfig>, routes: seq<L4Route>) returns (c: L4Config, ghost moved: seq<L4Route>)
    ensures MergedListeners(c.listeners, ls) && forall o | o in c.listeners :: FromDeclared(o, ls)
    ensures |moved| == |routes| && c == ConfigOf(c.listeners, moved)
    ensures forall i | 0 <= i < |moved| :: Follows(moved[i], routes[i], ls)
  {
    var out, idMap := CompileListeners(ls);
    c := DistributeRoutes(routes, idMap, out);
    moved := MoveAll(routes, idMap);
    forall i | 0 <= i < |moved| ensures Follows(moved[i], routes[i], ls) {
      MoveFollows(routes[i], idMap, ls);
    }
  }

  /** `CompiledL4Config::compile`. */
  method Compile(table: RouteTable) returns (r: CompileResult<L4Config>, ghost moved: seq<L4Route>)
    ensures r.CompileError? <==> exists l | l in table.listeners :: LacksTls(l)
    ensures r.CompileError? ==> exists i | 0 <= i < |table.listeners| :: IsFirstLacking(table.listeners, i) && table.listeners[i].id == r.listenerId
    ensures r.Compiled? ==> MergedListeners(r.config.listeners, table.listeners)
    ensures r.Compiled? ==> forall o | o in r.config.listeners :: FromDeclared(o, table.listeners)
    ensures r.Compiled? ==> |moved| == |table.l4Routes| && r.config == ConfigOf(r.config.listeners, moved)
    ensures r.Compiled? ==> forall i | 0 <= i < |moved| :: Follows(moved[i], table.l4Routes[i], table.listeners)
  {
    var ls := table.listeners;
    var i := FindLacking(ls);
    if i < |ls| {
      assert ls[i] in ls && IsFirstLacking(ls, i);
      return CompileError(ls[i].id), [];
    }
    var c;
    c, moved := CompileRoutes(ls, table.l4Routes);
    r := Compiled(c);
  }

  /** With distinct listener ids every route on a known listener lands on that listener's socket,
      which is one of the output listeners. */
  lemma RoutesReachTheirSocket(moved: L4Route, r: L4Route, ls: seq<ListenerConfig>, out: seq<ListenerConfig>, i: nat)
    requires MergedListeners(out, ls) && DistinctIds(ls) && Follows(moved, r, ls)
    requires i < |ls| && r.listenerId == ls[i].id
    ensures moved.listenerId == CanonicalId(ls, ls[i])
    ensures exists o | o in out :: o.id == moved.listenerId
  {
    assert ls[i] in ls;
    var l :| l in ls && l.id == r.listenerId && moved.listenerId == CanonicalId(ls, l);
    SameIdSameListener(ls, l, ls[i]);
  }
}
