/** The Kubernetes and Gateway API objects the controller reads and writes, reduced to the fields
    its decisions depend on. */
module Kube {
  import opened Text

  /** Namespace and name. The source keys its maps by the text "namespace/name". */
  datatype ObjectKey = ObjectKey(namespace: string, name: string) {
    function Rendered(): string { namespace + "/" + name }
  }

  /** Since a namespace contains no "/", the rendered text identifies the object. */
  lemma RenderedKeyInjective(a: ObjectKey, b: ObjectKey)
    requires '/' !in a.namespace && '/' !in b.namespace
    ensures a.Rendered() == b.Rendered() <==> a == b
  {
    if a.Rendered() == b.Rendered() {
      SeparatorInjective('/', a.namespace, a.name, b.namespace, b.name);
    }
  }

  /*** networking.k8s.io/v1 ***/

  datatype PathType = Exact | Prefix | ImplementationSpecific | OtherPathType(text: string) {
    function Rendered(): string {
      match this
      case Exact => "Exact"
      case Prefix => "Prefix"
      case ImplementationSpecific => "ImplementationSpecific"
      case OtherPathType(text) => text
    }
  }

  datatype ServicePort = ServicePort(number: int, name: string)
  datatype Backend = ServiceBackend(name: string, port: ServicePort) | ResourceBackend
  datatype IngressPath = IngressPath(path: string, pathType: Option<PathType>, backend: Backend)

  /** `http` is absent when the rule only names a host. */
  datatype IngressRule = IngressRule(host: string, http: Option<seq<IngressPath>>) {
    function Paths(): seq<IngressPath> { if http.Some? then http.value else [] }
  }

  datatype Ingress = Ingress(
    key: ObjectKey,
    annotations: map<string, string>,
    rules: seq<IngressRule>,
    hasDefaultBackend: bool,
    tlsBlocks: nat)

  /** One Ingress per namespace/name, as the API server guarantees. */
  ghost predicate DistinctKeys(ings: seq<Ingress>) {
    forall i, j | 0 <= i < j < |ings| :: ings[i].key != ings[j].key
  }

  /*** gateway.networking.k8s.io/v1 ***/

  datatype MatchType = MatchExact | MatchPathPrefix
  datatype PathMatch = PathMatch(kind: MatchType, value: string)

  /** Fields the API server fills in when absent are options, so that leaving one out can be told
      from setting it. */
  datatype BackendRef = BackendRef(
    group: Option<string>, kind: Option<string>, name: string, port: int, weight: Option<int>)

  datatype Filter =
    | RequestRedirect(scheme: Option<string>, fullPath: Option<string>, statusCode: Option<int>)
    | PrefixReplacement(value: string)
    | HeaderSet(name: string, value: string)
    | Cors(origins: string, methods: string, headers: string, exposed: string, credentials: bool, maxAge: int)

  datatype SessionPersistence = CookieSession(sessionName: Option<string>)

  /** Durations are whole seconds: every timeout translator emits the text "<n>s". */
  datatype Timeouts = Timeouts(request: Option<nat>, backendRequest: Option<nat>)

  datatype HTTPRule = HTTPRule(
    matches: seq<PathMatch>,
    backendRefs: seq<BackendRef>,
    filters: seq<Filter>,
    sessionPersistence: Option<SessionPersistence>,
    timeouts: Option<Timeouts>)

  datatype ParentRef = ParentRef(
    group: Option<string>, kind: Option<string>, name: string, namespace: Option<string>)
  datatype HTTPRoute = HTTPRoute(key: ObjectKey, parent: ParentRef, hostnames: seq<string>, rules: seq<HTTPRule>)
  datatype GRPCRule = GRPCRule(backendRefs: seq<BackendRef>)
  datatype GRPCRoute = GRPCRoute(key: ObjectKey, parent: ParentRef, hostnames: seq<string>, rules: seq<GRPCRule>)

  /*** Conversion issues: what was reported, how severely, and about which annotation or path ***/

  datatype Severity = Info | Warning | Error
  datatype IssueKind =
    | NoTranslator | NoEquivalent | ListenerConcern | BadValue | Approximation
    | ResourceBackendIssue | PortUnresolvable | NoPort | PathNotPreserved
    | DefaultBackend | NoRules | TlsOnListener | OverlappingMatch
  datatype Issue = Issue(ingress: ObjectKey, severity: Severity, kind: IssueKind, subject: string)
}
