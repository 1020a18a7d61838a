/** Which listener's certificate and client validation a merged listener gets. */
module L4Order {
  import opened Text
  import opened RouteIr
  import opened L4Config

  function First(ls: seq<ListenerConfig>, wanted: ListenerConfig -> bool): Option<ListenerConfig> {
    if ls == [] then None else if wanted(ls[0]) then Some(ls[0]) else First(ls[1..], wanted)
  }

  /** Listener `i` is wanted, and no earlier one of its address and protocol is. */
  ghost predicate IsFirst(ls: seq<ListenerConfig>, i: nat, wanted: ListenerConfig -> bool)
    requires i < |ls|
  {
    wanted(ls[i]) && forall j | 0 <= j < i && ls[j].bindAddr == ls[i].bindAddr && ls[j].protocol == ls[i].protocol :: !wanted(ls[j])
  }

  lemma {:induction false} FirstConcat(a: seq<ListenerConfig>, b: seq<ListenerConfig>, wanted: ListenerConfig -> bool)
    ensures First(a + b, wanted) == if First(a, wanted).Some? then First(a, wanted) else First(b, wanted)
  {
    if a == [] {
      assert a + b == b;
    } else {
      FirstConcat(a[1..], b, wanted);
      assert (a + b)[1..] == a[1..] + b;
    }
  }

  lemma {:induction false} FirstIsWanted(ls: seq<ListenerConfig>, wanted: ListenerConfig -> bool)
    ensures var f := First(ls, wanted);
      if f.Some? then f.value in ls && wanted(f.value) else forall l | l in ls :: !wanted(l)
  {
    if ls != [] {
      FirstIsWanted(ls[1..], wanted);
      assert ls == [ls[0]] + ls[1..];
    }
  }

  lemma {:induction false} DeclaredMembers(ls: seq<ListenerConfig>, k: GroupKey)
    ensures forall l :: l in Declared(ls, k) <==> l in ls && KeyOf(l) == k
  {
    if ls != [] {
      DeclaredMembers(ls[..|ls| - 1], k);
      assert ls == ls[..|ls| - 1] + [ls[|ls| - 1]];
    }
  }

  /** The first wanted one of a group is the first wanted one of its address and protocol. */
  lemma {:induction false} FirstDeclared(ls: seq<ListenerConfig>, k: GroupKey, wanted: ListenerConfig -> bool) returns (i: nat)
    requires First(Declared(ls, k), wanted).Some?
    ensures i < |ls| && KeyOf(ls[i]) == k && IsFirst(ls, i, wanted) && First(Declared(ls, k), wanted) == Some(ls[i])
  {
    var n := |ls| - 1;
    var init := ls[..n];
    var before := Declared(init, k);
    if First(before, wanted).Some? {
      i := FirstDeclared(init, k, wanted);
      FirstConcat(before, [ls[n]], wanted);
    } else {
      i := n;
      DeclaredMembers(init, k);
      FirstIsWanted(before, wanted);
      FirstConcat(before, [ls[n]], wanted);
      forall j | 0 <= j < n && KeyOf(ls[j]) == k ensures !wanted(ls[j]) {
        assert init[j] in before;
      }
    }
  }

  /** What comes first in a list is first in its group. */
  lemma {:induction false} FirstOfGroup(ls: seq<ListenerConfig>, wanted: ListenerConfig -> bool)
    requires First(ls, wanted).Some?
    ensures First(Declared(ls, KeyOf(First(ls, wanted).value)), wanted) == First(ls, wanted)
  {
    var n := |ls| - 1;
    var init, last := ls[..n], ls[n];
    assert ls == init + [last];
    FirstConcat(init, [last], wanted);
    var l := First(ls, wanted).value;
    if First(init, wanted).Some? {
      FirstOfGroup(init, wanted);
    } else {
      FirstIsWanted(init, wanted);
      DeclaredMembers(init, KeyOf(l));
      FirstIsWanted(Declared(init, KeyOf(l)), wanted);
    }
    FirstConcat(Declared(init, KeyOf(l)), [last], wanted);
  }

  /** The first wanted member of a socket is the first declared one of its address and protocol. */
  lemma FirstMember(members: seq<ListenerConfig>, ls: seq<ListenerConfig>, wanted: ListenerConfig -> bool) returns (i: nat)
    requires KeepsOrder(members, ls) && First(members, wanted).Some?
    ensures i < |ls| && IsFirst(ls, i, wanted) && First(members, wanted) == Some(ls[i]) && ls[i] in members
  {
    FirstIsWanted(members, wanted);
    FirstOfGroup(members, wanted);
    i := FirstDeclared(ls, KeyOf(First(members, wanted).value), wanted);
  }

  // ---- Certificates and validations ----

  function HasTls(): ListenerConfig -> bool {
    (l: ListenerConfig) => l.tls.Some?
  }

  /** Listeners that validate clients, or only those that do not fall back. */
  function Validates(strictOnly: bool): ListenerConfig -> bool {
    (l: ListenerConfig) =>
      l.frontendValidation.Some? && !(strictOnly && l.frontendValidation.value.allowInsecureFallback)
  }

  lemma {:induction false} FirstTlsIs(members: seq<ListenerConfig>)
    ensures var f := First(members, HasTls()); FirstTls(members) == if f.Some? then f.value.tls else None
  {
    if members != [] {
      FirstTlsIs(members[1..]);
    }
  }

  lemma {:induction false} FirstValidationIs(members: seq<ListenerConfig>, strictOnly: bool)
    ensures var f := First(members, Validates(strictOnly));
      FirstValidation(members, strictOnly) == if f.Some? then f.value.frontendValidation else None
  {
    if members != [] {
      FirstValidationIs(members[1..], strictOnly);
    }
  }

  /** A merged listener's certificate is that of the first listener declared with one for its address and
      protocol, of one of the two protocols where HTTPS and TLS share the socket. */
  lemma FirstCertificateServes(o: ListenerConfig, ls: seq<ListenerConfig>) returns (i: nat)
    requires FromDeclared(o, ls) && o.tls.Some?
    ensures i < |ls| && CanonicalId(ls, ls[i]) == o.id && IsFirst(ls, i, HasTls()) && o.tls == ls[i].tls
  {
    var members :| IsMerged(o, members) && KeepsOrder(members, ls)
      && forall l :: l in members <==> l in ls && CanonicalId(ls, l) == o.id;
    FirstTlsIs(members);
    i := FirstMember(members, ls, HasTls());
  }

  /** Its validation is, in the same way, that of the first strict listener, and without one the first. */
  lemma FirstValidationServes(o: ListenerConfig, ls: seq<ListenerConfig>) returns (i: nat)
    requires FromDeclared(o, ls) && o.frontendValidation.Some?
    ensures i < |ls| && CanonicalId(ls, ls[i]) == o.id && o.frontendValidation == ls[i].frontendValidation
    ensures IsFirst(ls, i, Validates(exists l | l in ls :: CanonicalId(ls, l) == o.id && Strict(l)))
  {
    var members :| IsMerged(o, members) && KeepsOrder(members, ls)
      && forall l :: l in members <==> l in ls && CanonicalId(ls, l) == o.id;
    FirstValidationIs(members, true);
    FirstValidationIs(members, false);
    FirstIsWanted(members, Validates(true));
    var strict := exists l | l in ls :: CanonicalId(ls, l) == o.id && Strict(l);
    assert strict <==> First(members, Validates(true)).Some?;
    i := FirstMember(members, ls, Validates(strict));
  }
}
