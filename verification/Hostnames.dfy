/** Hostname matching and specificity. */
module Hostnames {
  import opened Text
  import opened RouteIr

  /** `ir_hostname_matches`. */
  predicate HostnameMatches(host: string, hm: HostnameMatch) {
    match hm
    case HostExact(s) => host == s
    case HostPrefix(p) => host == p || StartsWith(host, p + ".")
    case HostWildcard(s) =>
      EndsWith(host, s) &&
      var rest := host[..|host| - |s|];
      |rest| > 1 && rest[|rest| - 1] == '.'
    case HostAny => true
  }

  /** `specificity_score`. */
  function Specificity(hm: HostnameMatch): nat {
    match hm
    case HostExact(_) => 1000
    case HostPrefix(_) => 500
    case HostWildcard(s) => 100 + Count(s, '.')
    case HostAny => 0
  }

  /** `listener_specificity_score`: a missing or empty listener hostname is the least specific. */
  function ListenerSpecificity(listener: Option<HostnameMatch>): nat {
    match listener
    case None => 0
    case Some(hm) => if hm == HostExact("") then 0 else Specificity(hm)
  }

  predicate ListenerHostnameMatches(host: string, listener: Option<HostnameMatch>) {
    listener.None? || listener.value == HostExact("") || HostnameMatches(host, listener.value)
  }

  predicate ListenerPortMatches(port: nat, listener: Option<nat>) {
    listener.None? || listener.value == port
  }

  /** The host route takes requests for this host and port. */
  predicate Accepts(h: HostRoute, host: string, port: nat) {
    && HostnameMatches(host, h.hostname)
    && ListenerHostnameMatches(host, h.listenerHostname)
    && ListenerPortMatches(port, h.listenerPort)
  }

  /** A longer wildcard that matches the same host extends the shorter one by at least a label. */
  lemma NestedWildcardHasMoreDots(host: string, short: string, long: string)
    requires HostnameMatches(host, HostWildcard(short)) && HostnameMatches(host, HostWildcard(long))
    requires |short| < |long|
    ensures Count(long, '.') > Count(short, '.')
  {
    var cut := |host| - |long|;
    var k := |long| - |short|;
    assert long == host[cut..];
    assert long[k..] == short by {
      assert long[k..] == host[cut + k..];
    }
    assert long[k - 1] == '.' by {
      assert long[k - 1] == host[cut + k - 1];
      assert host[..|host| - |short|][|host| - |short| - 1] == host[cut + k - 1];
    }
    assert long == long[..k - 1] + (['.'] + long[k..]);
    CountConcat(long[..k - 1], ['.'] + long[k..], '.');
    CountConcat(['.'], long[k..], '.');
  }

  /** Wildcards that match the same host with the same score are the same wildcard. */
  lemma WildcardScoreIdentifies(host: string, a: string, b: string)
    requires HostnameMatches(host, HostWildcard(a)) && HostnameMatches(host, HostWildcard(b))
    requires Specificity(HostWildcard(a)) == Specificity(HostWildcard(b))
    ensures a == b
  {
    if |a| < |b| {
      NestedWildcardHasMoreDots(host, a, b);
    } else if |b| < |a| {
      NestedWildcardHasMoreDots(host, b, a);
    }
  }

  // ---- What the names match ----

  ghost predicate Labelled(host: string, first: string, name: string) {
    first != [] && host == first + "." + name
  }

  ghost predicate Extended(host: string, name: string, rest: string) {
    host == name + "." + rest
  }

  /** An exact name matches itself; a prefix the name and whatever follows it after a dot; a wildcard
      whatever ends in the name after a dot and at least one more character; the catch-all everything. */
  lemma HostnameMeaning(host: string, hm: HostnameMatch)
    ensures HostnameMatches(host, hm) <==>
      match hm
      case HostExact(s) => host == s
      case HostPrefix(p) => host == p || exists rest :: Extended(host, p, rest)
      case HostWildcard(s) => exists first :: Labelled(host, first, s)
      case HostAny => true
  {
    match hm
    case HostExact(_) =>
    case HostAny =>
    case HostPrefix(p) =>
      if StartsWith(host, p + ".") {
        assert host == (p + ".") + host[|p| + 1..];
        assert Extended(host, p, host[|p| + 1..]);
      }
    case HostWildcard(s) =>
      if HostnameMatches(host, hm) {
        var k := |host| - |s|;
        assert host == host[..k - 1] + [host[k - 1]] + host[k..];
        assert Labelled(host, host[..k - 1], s);
      }
      if first :| Labelled(host, first, s) {
        var k := |first| + 1;
        assert host[k..] == s && host[..k] == first + ".";
      }
  }

  /** A listener without a hostname, or with an empty one, takes every host; one without a port, every port. */
  lemma AcceptsMeaning(h: HostRoute, host: string, port: nat)
    ensures Accepts(h, host, port) <==>
      && HostnameMatches(host, h.hostname)
      && (h.listenerHostname.Some? && h.listenerHostname.value != HostExact("") ==> HostnameMatches(host, h.listenerHostname.value))
      && (h.listenerPort.Some? ==> h.listenerPort.value == port)
  {
  }

  // ---- Which name is more specific ----

  /** Exact names, then prefixes, then wildcards by their dots, then the catch-all; but a wildcard of more
      than 400 dots passes a prefix, and of more than 900 an exact name. */
  predicate Finer(a: HostnameMatch, b: HostnameMatch) {
    match a
    case HostExact(_) => b.HostPrefix? || (b.HostWildcard? && Count(b.name, '.') < 900) || b.HostAny?
    case HostPrefix(_) => (b.HostWildcard? && Count(b.name, '.') < 400) || b.HostAny?
    case HostWildcard(s) =>
      || (b.HostExact? && Count(s, '.') > 900)
      || (b.HostPrefix? && Count(s, '.') > 400)
      || (b.HostWildcard? && Count(s, '.') > Count(b.name, '.'))
      || b.HostAny?
    case HostAny => false
  }

  predicate AsFine(a: HostnameMatch, b: HostnameMatch) {
    !Finer(a, b) && !Finer(b, a)
  }

  /** The name a listener stands for. */
  function ListenerName(listener: Option<HostnameMatch>): HostnameMatch {
    if listener.None? || listener.value == HostExact("") then HostAny else listener.value
  }

  lemma ScoresRankNames(a: HostnameMatch, b: HostnameMatch)
    ensures Specificity(a) > Specificity(b) <==> Finer(a, b)
    ensures Specificity(a) == Specificity(b) <==> AsFine(a, b)
  {
  }

  lemma ScoresRankListeners(a: Option<HostnameMatch>, b: Option<HostnameMatch>)
    ensures ListenerSpecificity(a) > ListenerSpecificity(b) <==> Finer(ListenerName(a), ListenerName(b))
    ensures ListenerSpecificity(a) == ListenerSpecificity(b) <==> AsFine(ListenerName(a), ListenerName(b))
  {
    ScoresRankNames(ListenerName(a), ListenerName(b));
  }
}
