/** The routing model that every configuration source produces (src/ir/mod.rs). */
module RouteIr {
  import opened Text

  /** What a rule does once it is chosen; the router only carries it along. */
  type Action = nat

  datatype PathMatch = PathPrefix(path: string) | PathExact(path: string) | PathRegex(path: string)

  datatype HeaderMatchValue = HeaderExact(value: string) | HeaderRegex(value: string) | HeaderPresent | HeaderAbsent

  datatype HeaderMatch = HeaderMatch(name: string, value: HeaderMatchValue)

  datatype QueryMatchValue = QueryExact(value: string) | QueryRegex(value: string)

  datatype QueryMatch = QueryMatch(name: string, value: QueryMatchValue)

  datatype RequestMatch = RequestMatch(
    path: Option<PathMatch>,
    verb: Option<string>,
    headers: seq<HeaderMatch>,
    queryParams: seq<QueryMatch>)

  datatype Rule = Rule(matches: seq<RequestMatch>, action: Action, ruleOrder: nat)

  datatype HostnameMatch = HostExact(name: string) | HostPrefix(name: string) | HostWildcard(name: string) | HostAny

  datatype HostRoute = HostRoute(
    hostname: HostnameMatch,
    listenerHostname: Option<HostnameMatch>,
    listenerPort: Option<nat>,
    gatewayApi: bool,
    rules: seq<Rule>)

  // ---- Listeners, certificates and L4 routes ----

  datatype Protocol = Http | Https | Tcp | Udp | Tls

  datatype TlsConfig = Registry(certId: string) | Files(certPath: string, keyPath: string)

  datatype FrontendValidation = FrontendValidation(caBundlePem: string, allowInsecureFallback: bool)

  datatype ListenerConfig = ListenerConfig(
    id: string,
    bindAddr: string,
    protocol: Protocol,
    tls: Option<TlsConfig>,
    redirectHttpToHttps: bool,
    frontendValidation: Option<FrontendValidation>)

  datatype L4Match = MatchAny | MatchSni(hostname: HostnameMatch)

  /** The payload stands for the weighted backends or the upstream address. */
  datatype L4Action =
    | TcpRelay(target: nat)
    | UdpRelay(target: nat)
    | TlsPassthrough(target: nat)
    | TlsTerminate(target: nat)
    | TerminateAndHttp(target: nat)
    | HttpRelay(target: nat)

  datatype L4Route = L4Route(listenerId: string, listenerHostname: HostnameMatch, match_: L4Match, action: L4Action)

  datatype TlsCertConfig = TlsCertConfig(id: string, source: nat)

  datatype RouteTable = RouteTable(
    listeners: seq<ListenerConfig>,
    hosts: seq<HostRoute>,
    acmeRoutes: map<string, string>,
    l4Routes: seq<L4Route>,
    tlsCerts: seq<TlsCertConfig>)

  const EmptyTable := RouteTable([], [], map[], [], [])
}
