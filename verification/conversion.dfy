/** The Ingress compiler: route.go, grpc.go and `ConvertIngress` of engine.go. */
module Conversion {
  import opened Text
  import opened Kube
  import opened Annotations

  /** Looks up the number of a named Service port; `None` stands for a lookup error. */
  type PortResolver = (string, string, string) -> Option<int>

  datatype Options = Options(
    gatewayName: string,
    gatewayNamespace: string,
    drop: seq<string>,
    resolver: Option<PortResolver>)

  datatype Result = Result(route: Option<HTTPRoute>, grpcRoute: Option<GRPCRoute>, issues: seq<Issue>)

  ghost predicate HasError(issues: seq<Issue>) {
    exists i :: i in issues && i.severity == Error
  }

  method Failed(r: Result) returns (failed: bool)
    ensures failed <==> HasError(r.issues)
  {
    for i := 0 to |r.issues|
      invariant forall j | 0 <= j < i :: r.issues[j].severity != Error
    {
      if r.issues[i].severity == Error {
        assert r.issues[i] in r.issues;
        return true;
      }
    }
    return false;
  }

  /*** regexPrefix ***/

  const META := ".*+?()[]{}|^$\\"

  predicate IsPlain(seg: string) { forall c | c in seg :: c !in META }

  function NonEmpty(segs: seq<string>): seq<string> {
    if segs == [] then []
    else if segs[0] == "" then NonEmpty(segs[1..])
    else [segs[0]] + NonEmpty(segs[1..])
  }

  lemma {:induction false} NonEmptyConcat(a: seq<string>, b: seq<string>)
    ensures NonEmpty(a + b) == NonEmpty(a) + NonEmpty(b)
  {
    if a == [] {
      assert a + b == b;
    } else {
      assert (a + b)[1..] == a[1..] + b;
      NonEmptyConcat(a[1..], b);
    }
  }

  /** An empty segment is skipped, any other kept, in order. */
  lemma SegmentsKept(before: seq<string>, seg: string, behind: seq<string>)
    ensures NonEmpty(before + [seg] + behind)
            == NonEmpty(before) + (if seg == "" then [] else [seg]) + NonEmpty(behind)
  {
    NonEmptyConcat(before + [seg], behind);
    NonEmptyConcat(before, [seg]);
  }

  function LeadingPlain(segs: seq<string>): (r: seq<string>)
    ensures r <= segs
    ensures forall i | 0 <= i < |r| :: IsPlain(r[i])
    ensures |r| < |segs| ==> !IsPlain(segs[|r|])
  {
    if segs == [] || !IsPlain(segs[0]) then [] else [segs[0]] + LeadingPlain(segs[1..])
  }

  /** The elements of a path that are not empty. */
  function Segments(p: string): seq<string> { NonEmpty(Split(p)) }

  function RegexPrefixOf(p: string): string {
    var kept := LeadingPlain(Segments(p));
    if kept == [] then "/" else "/" + Join(kept)
  }

  /** What the loop still keeps from segment `i` on. */
  function KeptFrom(segs: seq<string>, i: nat): seq<string>
    requires i <= |segs|
  {
    LeadingPlain(NonEmpty(segs[i..]))
  }

  lemma NextSegment(segs: seq<string>, i: nat)
    requires i < |segs|
    ensures KeptFrom(segs, i) == if segs[i] == "" then KeptFrom(segs, i + 1)
                                 else if !IsPlain(segs[i]) then []
                                 else [segs[i]] + KeptFrom(segs, i + 1)
  {
    assert segs[i..][1..] == segs[i + 1..];
  }

  lemma KeptFromEnds(segs: seq<string>)
    ensures KeptFrom(segs, 0) == LeadingPlain(NonEmpty(segs))
    ensures KeptFrom(segs, |segs|) == []
  {
    assert segs[0..] == segs && segs[|segs|..] == [];
  }

  /** The loop over the segments. */
  method KeepPlain(segs: seq<string>) returns (kept: seq<string>)
    ensures kept == LeadingPlain(NonEmpty(segs))
  {
    kept := [];
    var i := 0;
    KeptFromEnds(segs);
    while i < |segs|
      invariant 0 <= i <= |segs|
      invariant KeptFrom(segs, 0) == kept + KeptFrom(segs, i)
    {
      NextSegment(segs, i);
      if segs[i] != "" {
        if !IsPlain(segs[i]) {
          break;
        }
        kept := kept + [segs[i]];
      }
      i := i + 1;
    }
  }

  method RegexPrefix(p: string) returns (r: string)
    ensures r == RegexPrefixOf(p)
  {
    var kept := KeepPlain(Split(p));
    if |kept| == 0 {
      return "/";
    }
    return "/" + Join(kept);
  }

  lemma {:induction false} NonEmptyIdentity(segs: seq<string>)
    requires forall i | 0 <= i < |segs| :: segs[i] != ""
    ensures NonEmpty(segs) == segs
  {
    if segs != [] { NonEmptyIdentity(segs[1..]); }
  }

  lemma {:induction false} NonEmptyKeepsProperties(segs: seq<string>)
    requires forall i | 0 <= i < |segs| :: '/' !in segs[i]
    ensures forall i | 0 <= i < |NonEmpty(segs)| :: NonEmpty(segs)[i] != "" && '/' !in NonEmpty(segs)[i]
  {
    if segs != [] { NonEmptyKeepsProperties(segs[1..]); }
  }

  lemma {:induction false} LeadingPlainIdentity(segs: seq<string>)
    requires forall i | 0 <= i < |segs| :: IsPlain(segs[i])
    ensures LeadingPlain(segs) == segs
  {
    if segs != [] { LeadingPlainIdentity(segs[1..]); }
  }

  lemma {:induction false} JoinIsPlain(segs: seq<string>)
    requires forall i | 0 <= i < |segs| :: IsPlain(segs[i])
    ensures IsPlain(Join(segs))
  {
    if |segs| > 1 {
      JoinIsPlain(segs[1..]);
      forall c | c in Join(segs) ensures c !in META {
        assert c in segs[0] || c == '/' || c in Join(segs[1..]);
      }
    }
  }

  /** The approximation is a slash-led path without metacharacters whose segments are the longest
      leading run of plain segments of the input, and approximating twice changes nothing. */
  lemma RegexPrefixCanonical(p: string)
    ensures RegexPrefixOf(p) != "" && RegexPrefixOf(p)[0] == '/'
    ensures IsPlain(RegexPrefixOf(p))
    ensures Segments(RegexPrefixOf(p)) == LeadingPlain(Segments(p))
    ensures RegexPrefixOf(RegexPrefixOf(p)) == RegexPrefixOf(p)
  {
    var kept := LeadingPlain(Segments(p));
    var r := RegexPrefixOf(p);
    NonEmptyKeepsProperties(Split(p));
    if kept == [] {
      assert Split("") == [""] && Split("/") == [""] + Split("");
      assert IsPlain("/");
    } else {
      assert forall i | 0 <= i < |kept| :: kept[i] == Segments(p)[i];
      SplitJoin(kept);
      assert r[1..] == Join(kept);
      assert Split(r) == [""] + kept;
      assert Split(r)[1..] == kept;
      NonEmptyIdentity(kept);
      JoinIsPlain(kept);
    }
    LeadingPlainIdentity(kept);
  }

  /*** convertPath ***/

  predicate LooksLikeRegex(p: string) {
    exists c | c in p :: c in "*+?()[]{}|^$\\"
  }

  /** The path type in force: an absent one means Prefix. */
  function EffectiveType(p: IngressPath): PathType {
    if p.pathType.Some? then p.pathType.value else Prefix
  }

  function EffectiveValue(p: IngressPath): string {
    if p.path == "" then "/" else p.path
  }

  function ConvertPath(ing: Ingress, p: IngressPath): (PathMatch, Option<Issue>) {
    var value := EffectiveValue(p);
    match EffectiveType(p)
    case Exact => (PathMatch(MatchExact, value), None)
    case Prefix => (PathMatch(MatchPathPrefix, value), None)
    case ImplementationSpecific =>
      if LooksLikeRegex(value) then
        (PathMatch(MatchPathPrefix, RegexPrefixOf(value)), Some(Issue(ing.key, Warning, Approximation, value)))
      else
        (PathMatch(MatchPathPrefix, value), Some(Issue(ing.key, Info, Approximation, value)))
    case OtherPathType(_) =>
      (PathMatch(MatchPathPrefix, value), Some(Issue(ing.key, Warning, Approximation, value)))
  }

  /*** convertBackend ***/

  datatype Converted = Ok(backend: BackendRef) | Bad(issue: Issue)

  /** Group, kind and weight are written out, to the values the API server would default them to. */
  function ServiceRef(name: string, port: int): BackendRef {
    BackendRef(Some(""), Some("Service"), name, port, Some(1))
  }

  function ConvertBackend(ing: Ingress, p: IngressPath, resolver: Option<PortResolver>): Converted {
    match p.backend
    case ResourceBackend => Bad(Issue(ing.key, Error, ResourceBackendIssue, p.path))
    case ServiceBackend(name, port) =>
      if port.number != 0 then Ok(ServiceRef(name, port.number))
      else if port.name != "" then
        if resolver.None? then Bad(Issue(ing.key, Error, PortUnresolvable, name))
        else
          (match resolver.value(ing.key.namespace, name, port.name)
           case None => Bad(Issue(ing.key, Error, PortUnresolvable, name))
           case Some(n) => Ok(ServiceRef(name, n)))
      else Bad(Issue(ing.key, Error, NoPort, name))
  }

  /*** What both converters compute over the paths of the Ingress, in rule order ***/

  function PathsOf(rules: seq<IngressRule>): seq<IngressPath> {
    if rules == [] then [] else PathsOf(rules[..|rules| - 1]) + rules[|rules| - 1].Paths()
  }

  ghost function HostsOf(rules: seq<IngressRule>): set<string> {
    set r | r in rules && r.host != "" :: r.host
  }

  function OptIssue(i: Option<Issue>): seq<Issue> { if i.None? then [] else [i.value] }

  function HTTPRuleOf(ing: Ingress, p: IngressPath, backend: BackendRef, ann: Translated): HTTPRule {
    HTTPRule([ConvertPath(ing, p).0], [backend], ann.filters,
             if ann.effect.Some? then ann.effect.value.sessionPersistence else None,
             if ann.effect.Some? then ann.effect.value.timeouts else None)
  }

  function HTTPRules(ing: Ingress, paths: seq<IngressPath>, resolver: Option<PortResolver>,
                     ann: Translated): seq<HTTPRule> {
    if paths == [] then []
    else
      var before, p := HTTPRules(ing, paths[..|paths| - 1], resolver, ann), paths[|paths| - 1];
      match ConvertBackend(ing, p, resolver)
      case Bad(_) => before
      case Ok(backend) => before + [HTTPRuleOf(ing, p, backend, ann)]
  }

  function HTTPIssues(ing: Ingress, paths: seq<IngressPath>, resolver: Option<PortResolver>): seq<Issue> {
    if paths == [] then []
    else
      var before, p := HTTPIssues(ing, paths[..|paths| - 1], resolver), paths[|paths| - 1];
      match ConvertBackend(ing, p, resolver)
      case Bad(issue) => before + [issue]
      case Ok(_) => before + OptIssue(ConvertPath(ing, p).1)
  }

  function GRPCRules(ing: Ingress, paths: seq<IngressPath>, resolver: Option<PortResolver>): seq<GRPCRule> {
    if paths == [] then []
    else
      var before, p := GRPCRules(ing, paths[..|paths| - 1], resolver), paths[|paths| - 1];
      match ConvertBackend(ing, p, resolver)
      case Bad(_) => before
      case Ok(backend) => before + [GRPCRule([backend])]
  }

  function GRPCIssues(ing: Ingress, paths: seq<IngressPath>, resolver: Option<PortResolver>): seq<Issue> {
    if paths == [] then []
    else
      var before, p := GRPCIssues(ing, paths[..|paths| - 1], resolver), paths[|paths| - 1];
      match ConvertBackend(ing, p, resolver)
      case Bad(issue) => before + [issue]
      case Ok(_) =>
        if p.path != "" && p.path != "/" then before + [Issue(ing.key, Info, PathNotPreserved, p.path)] else before
  }

  function DefaultBackendIssues(ing: Ingress): seq<Issue> {
    if ing.hasDefaultBackend then [Issue(ing.key, Warning, DefaultBackend, "")] else []
  }

  const GATEWAY_GROUP := "gateway.networking.k8s.io"

  function ParentOf(ing: Ingress, opts: Options): ParentRef {
    ParentRef(Some(GATEWAY_GROUP), Some("Gateway"), opts.gatewayName,
              if opts.gatewayNamespace != "" && opts.gatewayNamespace != ing.key.namespace
              then Some(opts.gatewayNamespace) else None)
  }

  function TlsIssues(ing: Ingress): seq<Issue> {
    if ing.tlsBlocks > 0 then [Issue(ing.key, Info, TlsOnListener, "")] else []
  }

  ghost function HTTPResult(e: Engine, ing: Ingress, opts: Options): Result {
    HTTPResultWith(ing, opts, Annotated(e, ing, opts.drop))
  }

  ghost function HTTPResultWith(ing: Ingress, opts: Options, ann: Translated): Result {
    var rules := HTTPRules(ing, PathsOf(ing.rules), opts.resolver, ann);
    var issues := ann.issues + HTTPIssues(ing, PathsOf(ing.rules), opts.resolver) + DefaultBackendIssues(ing);
    if rules == [] then Result(None, None, issues + [Issue(ing.key, Error, NoRules, "")])
    else
      Result(Some(HTTPRoute(ing.key, ParentOf(ing, opts), Sorted(HostsOf(ing.rules)), rules)), None,
             issues + TlsIssues(ing))
  }

  ghost function GRPCResult(ing: Ingress, opts: Options): Result {
    var rules := GRPCRules(ing, PathsOf(ing.rules), opts.resolver);
    var issues := GRPCIssues(ing, PathsOf(ing.rules), opts.resolver) + DefaultBackendIssues(ing);
    if rules == [] then Result(None, None, issues + [Issue(ing.key, Error, NoRules, "")])
    else
      Result(None, Some(GRPCRoute(ing.key, ParentOf(ing, opts), Sorted(HostsOf(ing.rules)), rules)), issues)
  }

  predicate IsGRPCBackend(e: Engine, ing: Ingress) {
    exists k | k in e.grpcProtocolKeys :: EqualFold(Lookup(ing.annotations, k), "GRPC")
  }

  ghost function Convert(e: Engine, ing: Ingress, opts: Options): Result {
    if IsGRPCBackend(e, ing) then GRPCResult(ing, opts) else HTTPResult(e, ing, opts)
  }

  /*** The converters ***/

  lemma PathsSnoc(rules: seq<IngressRule>, i: nat)
    requires i < |rules|
    ensures PathsOf(rules[..i + 1]) == PathsOf(rules[..i]) + rules[i].Paths()
  {
    assert rules[..i + 1][..i] == rules[..i];
  }

  lemma HostsSnoc(rules: seq<IngressRule>, i: nat)
    requires i < |rules|
    ensures HostsOf(rules[..i + 1]) == HostsOf(rules[..i]) + if rules[i].host != "" then {rules[i].host} else {}
  {
    assert rules[..i + 1] == rules[..i] + [rules[i]];
  }

  lemma AppendPath(done: seq<IngressPath>, paths: seq<IngressPath>, j: nat)
    requires j < |paths|
    ensures done + paths[..j + 1] != []
    ensures (done + paths[..j + 1])[..|done + paths[..j + 1]| - 1] == done + paths[..j]
    ensures (done + paths[..j + 1])[|done + paths[..j + 1]| - 1] == paths[j]
  {
  }

  /** The loop over the paths of one rule. */
  method ConvertHTTPPaths(ing: Ingress, paths: seq<IngressPath>, resolver: Option<PortResolver>, ann: Translated,
                          ghost done: seq<IngressPath>, before: seq<HTTPRule>, found: seq<Issue>)
    returns (rules: seq<HTTPRule>, issues: seq<Issue>)
    requires before == HTTPRules(ing, done, resolver, ann) && found == HTTPIssues(ing, done, resolver)
    ensures rules == HTTPRules(ing, done + paths, resolver, ann) && issues == HTTPIssues(ing, done + paths, resolver)
  {
    rules, issues := before, found;
    assert done + paths[..0] == done;
    for j := 0 to |paths|
      invariant rules == HTTPRules(ing, done + paths[..j], resolver, ann)
      invariant issues == HTTPIssues(ing, done + paths[..j], resolver)
    {
      AppendPath(done, paths, j);
      match ConvertBackend(ing, paths[j], resolver)
      case Bad(issue) =>
        issues := issues + [issue];
      case Ok(backend) =>
        issues := issues + OptIssue(ConvertPath(ing, paths[j]).1);
        rules := rules + [HTTPRuleOf(ing, paths[j], backend, ann)];
    }
    assert paths[..|paths|] == paths;
  }

  /** The same loop of the gRPC compiler. */
  method ConvertGRPCPaths(ing: Ingress, paths: seq<IngressPath>, resolver: Option<PortResolver>,
                          ghost done: seq<IngressPath>, before: seq<GRPCRule>, found: seq<Issue>)
    returns (rules: seq<GRPCRule>, issues: seq<Issue>)
    requires before == GRPCRules(ing, done, resolver) && found == GRPCIssues(ing, done, resolver)
    ensures rules == GRPCRules(ing, done + paths, resolver) && issues == GRPCIssues(ing, done + paths, resolver)
  {
    rules, issues := before, found;
    assert done + paths[..0] == done;
    for j := 0 to |paths|
      invariant rules == GRPCRules(ing, done + paths[..j], resolver)
      invariant issues == GRPCIssues(ing, done + paths[..j], resolver)
    {
      AppendPath(done, paths, j);
      match ConvertBackend(ing, paths[j], resolver)
      case Bad(issue) =>
        issues := issues + [issue];
      case Ok(backend) =>
        if paths[j].path != "" && paths[j].path != "/" {
          issues := issues + [Issue(ing.key, Info, PathNotPreserved, paths[j].path)];
        }
        rules := rules + [GRPCRule([backend])];
    }
    assert paths[..|paths|] == paths;
  }

  /** The loop over the rules. */
  method ConvertHTTPRules(ing: Ingress, resolver: Option<PortResolver>, ann: Translated)
    returns (rules: seq<HTTPRule>, issues: seq<Issue>, hostnames: set<string>)
    ensures rules == HTTPRules(ing, PathsOf(ing.rules), resolver, ann)
    ensures issues == HTTPIssues(ing, PathsOf(ing.rules), resolver)
    ensures hostnames == HostsOf(ing.rules)
  {
    rules, issues, hostnames := [], [], {};
    for i := 0 to |ing.rules|
      invariant hostnames == HostsOf(ing.rules[..i])
      invariant rules == HTTPRules(ing, PathsOf(ing.rules[..i]), resolver, ann)
      invariant issues == HTTPIssues(ing, PathsOf(ing.rules[..i]), resolver)
    {
      var rule := ing.rules[i];
      HostsSnoc(ing.rules, i);
      PathsSnoc(ing.rules, i);
      if rule.host != "" {
        hostnames := hostnames + {rule.host};
      }
      ghost var done := PathsOf(ing.rules[..i]);
      assert done + [] == done;
      if rule.http.None? {
        continue;
      }
      rules, issues := ConvertHTTPPaths(ing, rule.http.value, resolver, ann, done, rules, issues);
    }
    assert ing.rules[..|ing.rules|] == ing.rules;
  }

  method ConvertIngress(e: Engine, ing: Ingress, opts: Options) returns (res: Result)
    ensures res == Convert(e, ing, opts)
  {
    if IsGRPCBackend(e, ing) {
      res := ConvertGRPCRoute(ing, opts);
      return;
    }
    var ann := ConvertAnnotations(e, ing, opts.drop);
    res := ConvertHTTPRoute(ing, opts, ann);
  }

  /** What follows the annotations. */
  method ConvertHTTPRoute(ing: Ingress, opts: Options, ann: Translated) returns (res: Result)
    ensures res == HTTPResultWith(ing, opts, ann)
  {
    var rules, issues, hostnames := ConvertHTTPRules(ing, opts.resolver, ann);
    issues := ann.issues + issues + DefaultBackendIssues(ing);
    if |rules| == 0 {
      return Result(None, None, issues + [Issue(ing.key, Error, NoRules, "")]);
    }
    var sorted := SortedKeys(hostnames);
    res := Result(Some(HTTPRoute(ing.key, ParentOf(ing, opts), sorted, rules)), None, issues + TlsIssues(ing));
  }

  /** The loop over the rules of the gRPC compiler. */
  method ConvertGRPCRules(ing: Ingress, resolver: Option<PortResolver>)
    returns (rules: seq<GRPCRule>, issues: seq<Issue>, hostnames: set<string>)
    ensures rules == GRPCRules(ing, PathsOf(ing.rules), resolver)
    ensures issues == GRPCIssues(ing, PathsOf(ing.rules), resolver)
    ensures hostnames == HostsOf(ing.rules)
  {
    rules, issues, hostnames := [], [], {};
    for i := 0 to |ing.rules|
      invariant hostnames == HostsOf(ing.rules[..i])
      invariant rules == GRPCRules(ing, PathsOf(ing.rules[..i]), resolver)
      invariant issues == GRPCIssues(ing, PathsOf(ing.rules[..i]), resolver)
    {
      var rule := ing.rules[i];
      HostsSnoc(ing.rules, i);
      PathsSnoc(ing.rules, i);
      if rule.host != "" {
        hostnames := hostnames + {rule.host};
      }
      ghost var done := PathsOf(ing.rules[..i]);
      assert done + [] == done;
      if rule.http.None? {
        continue;
      }
      rules, issues := ConvertGRPCPaths(ing, rule.http.value, resolver, done, rules, issues);
    }
    assert ing.rules[..|ing.rules|] == ing.rules;
  }

  method ConvertGRPCRoute(ing: Ingress, opts: Options) returns (res: Result)
    ensures res == GRPCResult(ing, opts)
  {
    var rules, issues, hostnames := ConvertGRPCRules(ing, opts.resolver);
    issues := issues + DefaultBackendIssues(ing);
    if |rules| == 0 {
      return Result(None, None, issues + [Issue(ing.key, Error, NoRules, "")]);
    }
    var sorted := SortedKeys(hostnames);
    res := Result(None, Some(GRPCRoute(ing.key, ParentOf(ing, opts), sorted, rules)), issues);
  }

  /*** What conversion guarantees ***/

  ghost predicate AllConvertible(ing: Ingress, paths: seq<IngressPath>, resolver: Option<PortResolver>) {
    forall p | p in paths :: ConvertBackend(ing, p, resolver).Ok?
  }

  function Backends(ing: Ingress, paths: seq<IngressPath>, resolver: Option<PortResolver>): seq<BackendRef> {
    if paths == [] then []
    else
      var before := Backends(ing, paths[..|paths| - 1], resolver);
      match ConvertBackend(ing, paths[|paths| - 1], resolver)
      case Bad(_) => before
      case Ok(b) => before + [b]
  }

  function ErrorCount(issues: seq<Issue>): nat {
    if issues == [] then 0
    else ErrorCount(issues[..|issues| - 1]) + if issues[|issues| - 1].severity == Error then 1 else 0
  }

  lemma ErrorCountSnoc(issues: seq<Issue>, i: Issue)
    ensures ErrorCount(issues + [i]) == ErrorCount(issues) + if i.severity == Error then 1 else 0
  {
    assert (issues + [i])[..|issues|] == issues;
  }

  lemma {:induction false} ErrorsCounted(issues: seq<Issue>)
    ensures ErrorCount(issues) > 0 <==> HasError(issues)
  {
    if issues != [] {
      var init, last := issues[..|issues| - 1], issues[|issues| - 1];
      assert issues == init + [last];
      ErrorsCounted(init);
    }
  }

  lemma {:induction false} BackendsConserved(ing: Ingress, paths: seq<IngressPath>, resolver: Option<PortResolver>)
    ensures |Backends(ing, paths, resolver)| <= |paths|
    ensures AllConvertible(ing, paths, resolver) <==> |Backends(ing, paths, resolver)| == |paths|
  {
    if paths != [] {
      var init, p := paths[..|paths| - 1], paths[|paths| - 1];
      assert paths == init + [p];
      BackendsConserved(ing, init, resolver);
    }
  }

  lemma {:induction false} HTTPPathsConserved(ing: Ingress, paths: seq<IngressPath>, resolver: Option<PortResolver>)
    ensures |Backends(ing, paths, resolver)| + ErrorCount(HTTPIssues(ing, paths, resolver)) == |paths|
  {
    if paths != [] {
      var init, p := paths[..|paths| - 1], paths[|paths| - 1];
      HTTPPathsConserved(ing, init, resolver);
      match ConvertBackend(ing, p, resolver)
      case Bad(issue) =>
        ErrorCountSnoc(HTTPIssues(ing, init, resolver), issue);
      case Ok(_) =>
        NoErrorForPath(HTTPIssues(ing, init, resolver), ing, p);
    }
  }

  lemma NoErrorForPath(before: seq<Issue>, ing: Ingress, p: IngressPath)
    ensures ErrorCount(before + OptIssue(ConvertPath(ing, p).1)) == ErrorCount(before)
  {
    PathIssueIsNoError(ing, p);
    if ConvertPath(ing, p).1.Some? { ErrorCountSnoc(before, ConvertPath(ing, p).1.value); }
    assert before + [] == before;
  }

  lemma {:induction false} GRPCPathsConserved(ing: Ingress, paths: seq<IngressPath>, resolver: Option<PortResolver>)
    ensures |Backends(ing, paths, resolver)| + ErrorCount(GRPCIssues(ing, paths, resolver)) == |paths|
  {
    if paths != [] {
      var init, p := paths[..|paths| - 1], paths[|paths| - 1];
      GRPCPathsConserved(ing, init, resolver);
      match ConvertBackend(ing, p, resolver)
      case Bad(issue) =>
        ErrorCountSnoc(GRPCIssues(ing, init, resolver), issue);
      case Ok(_) =>
        GRPCIssuesSnoc(ing, paths, resolver);
        ErrorCountSnoc(GRPCIssues(ing, init, resolver), Issue(ing.key, Info, PathNotPreserved, p.path));
    }
  }

  lemma GRPCIssuesSnoc(ing: Ingress, paths: seq<IngressPath>, resolver: Option<PortResolver>)
    requires paths != [] && ConvertBackend(ing, paths[|paths| - 1], resolver).Ok?
    ensures var before, p := GRPCIssues(ing, paths[..|paths| - 1], resolver), paths[|paths| - 1];
            GRPCIssues(ing, paths, resolver)
            == if p.path != "" && p.path != "/" then before + [Issue(ing.key, Info, PathNotPreserved, p.path)]
               else before
  {
  }

  /** Every path is accounted for, by both compilers, as a rule or as an error. */
  lemma PathsConserved(ing: Ingress, paths: seq<IngressPath>, resolver: Option<PortResolver>)
    ensures |Backends(ing, paths, resolver)| + ErrorCount(HTTPIssues(ing, paths, resolver)) == |paths|
    ensures |Backends(ing, paths, resolver)| + ErrorCount(GRPCIssues(ing, paths, resolver)) == |paths|
    ensures AllConvertible(ing, paths, resolver) <==> |Backends(ing, paths, resolver)| == |paths|
  {
    BackendsConserved(ing, paths, resolver);
    HTTPPathsConserved(ing, paths, resolver);
    GRPCPathsConserved(ing, paths, resolver);
  }

  lemma PathIssueIsNoError(ing: Ingress, p: IngressPath)
    ensures ConvertPath(ing, p).1.Some? ==> ConvertPath(ing, p).1.value.severity != Error
  {
  }

  /** Both compilers keep every convertible backend, in order, as a rule of its own. */
  lemma {:induction false} BackendsKept(ing: Ingress, paths: seq<IngressPath>, resolver: Option<PortResolver>,
                                        ann: Translated)
    ensures |HTTPRules(ing, paths, resolver, ann)| == |Backends(ing, paths, resolver)|
         == |GRPCRules(ing, paths, resolver)|
    ensures forall i | 0 <= i < |Backends(ing, paths, resolver)| ::
              && HTTPRules(ing, paths, resolver, ann)[i].backendRefs == [Backends(ing, paths, resolver)[i]]
              && GRPCRules(ing, paths, resolver)[i].backendRefs == [Backends(ing, paths, resolver)[i]]
  {
    if paths != [] {
      BackendsKept(ing, paths[..|paths| - 1], resolver, ann);
    }
  }

  lemma OneRulePaths(rule: IngressRule)
    ensures PathsOf([rule]) == rule.Paths()
  {
    assert [rule][..0] == [];
  }

  lemma OnePathRules(ing: Ingress, p: IngressPath, resolver: Option<PortResolver>, ann: Translated)
    ensures HTTPRules(ing, [p], resolver, ann)
            == if ConvertBackend(ing, p, resolver).Bad? then []
               else [HTTPRuleOf(ing, p, ConvertBackend(ing, p, resolver).backend, ann)]
    ensures GRPCRules(ing, [p], resolver)
            == if ConvertBackend(ing, p, resolver).Bad? then []
               else [GRPCRule([ConvertBackend(ing, p, resolver).backend])]
  {
    assert [p][..0] == [];
  }

  lemma HasErrorConcat(a: seq<Issue>, b: seq<Issue>)
    ensures HasError(a + b) <==> HasError(a) || HasError(b)
  {
    if HasError(a) { var i :| i in a && i.severity == Error; assert i in a + b; }
    if HasError(b) { var i :| i in b && i.severity == Error; assert i in a + b; }
  }

  lemma HTTPFailsExactlyWhen(e: Engine, ing: Ingress, opts: Options)
    ensures HasError(HTTPResult(e, ing, opts).issues)
            <==> !AllConvertible(ing, PathsOf(ing.rules), opts.resolver) || PathsOf(ing.rules) == []
  {
    var paths, ann := PathsOf(ing.rules), Annotated(e, ing, opts.drop);
    var http := HTTPIssues(ing, paths, opts.resolver);
    PathsConserved(ing, paths, opts.resolver);
    BackendsKept(ing, paths, opts.resolver, ann);
    AnnotationsNeverFail(e, ing, opts.drop, Sorted(ing.annotations.Keys));
    ErrorsCounted(http);
    HasErrorConcat(ann.issues, http);
    HasErrorConcat(ann.issues + http, DefaultBackendIssues(ing));
    HasErrorConcat(ann.issues + http + DefaultBackendIssues(ing), TlsIssues(ing));
    var none := Issue(ing.key, Error, NoRules, "");
    assert none in [none];
    HasErrorConcat(ann.issues + http + DefaultBackendIssues(ing), [none]);
  }

  lemma GRPCFailsExactlyWhen(ing: Ingress, opts: Options)
    ensures HasError(GRPCResult(ing, opts).issues)
            <==> !AllConvertible(ing, PathsOf(ing.rules), opts.resolver) || PathsOf(ing.rules) == []
  {
    var paths := PathsOf(ing.rules);
    var grpc := GRPCIssues(ing, paths, opts.resolver);
    PathsConserved(ing, paths, opts.resolver);
    BackendsKept(ing, paths, opts.resolver, Translated([], None, []));
    ErrorsCounted(grpc);
    HasErrorConcat(grpc, DefaultBackendIssues(ing));
    var none := Issue(ing.key, Error, NoRules, "");
    assert none in [none];
    HasErrorConcat(grpc + DefaultBackendIssues(ing), [none]);
  }

  /** A conversion fails exactly when some backend is inconvertible or there is no path at all, and
      a conversion that does not fail yields exactly one route, of the kind the annotations ask for. */
  lemma FailsExactlyWhen(e: Engine, ing: Ingress, opts: Options)
    ensures HasError(Convert(e, ing, opts).issues)
            <==> !AllConvertible(ing, PathsOf(ing.rules), opts.resolver) || PathsOf(ing.rules) == []
    ensures !HasError(Convert(e, ing, opts).issues) ==>
              if IsGRPCBackend(e, ing)
              then Convert(e, ing, opts).grpcRoute.Some? && Convert(e, ing, opts).route.None?
              else Convert(e, ing, opts).route.Some? && Convert(e, ing, opts).grpcRoute.None?
  {
    HTTPFailsExactlyWhen(e, ing, opts);
    GRPCFailsExactlyWhen(ing, opts);
    PathsConserved(ing, PathsOf(ing.rules), opts.resolver);
    BackendsKept(ing, PathsOf(ing.rules), opts.resolver, Annotated(e, ing, opts.drop));
  }

  /** The two compilers accept the same Ingresses and agree on hostnames and ordered backends. */
  lemma CompilersAgree(e: Engine, ing: Ingress, opts: Options)
    ensures HasError(HTTPResult(e, ing, opts).issues) <==> HasError(GRPCResult(ing, opts).issues)
    ensures HTTPResult(e, ing, opts).route.Some? <==> GRPCResult(ing, opts).grpcRoute.Some?
    ensures HTTPResult(e, ing, opts).route.Some? ==>
              var http, grpc := HTTPResult(e, ing, opts).route.value, GRPCResult(ing, opts).grpcRoute.value;
              && http.key == grpc.key == ing.key && http.parent == grpc.parent
              && http.hostnames == grpc.hostnames && StrictlySorted(http.hostnames)
              && Elements(http.hostnames) == HostsOf(ing.rules)
              && |http.rules| == |grpc.rules|
              && forall i | 0 <= i < |http.rules| :: http.rules[i].backendRefs == grpc.rules[i].backendRefs
  {
    HTTPFailsExactlyWhen(e, ing, opts);
    GRPCFailsExactlyWhen(ing, opts);
    PathsConserved(ing, PathsOf(ing.rules), opts.resolver);
    BackendsKept(ing, PathsOf(ing.rules), opts.resolver, Annotated(e, ing, opts.drop));
  }

  /*** The same over the fields of the Ingress alone ***/

  predicate IsMeta(c: char) {
    || c == '*' || c == '+' || c == '?' || c == '(' || c == ')' || c == '[' || c == ']' || c == '{' || c == '}'
    || c == '|' || c == '^' || c == '$' || c == '\\'
  }

  lemma MetaCharacters(s: string)
    ensures LooksLikeRegex(s) <==> exists c :: c in s && IsMeta(c)
    ensures IsPlain(s) <==> forall c | c in s :: c != '.' && !IsMeta(c)
  {
    assert forall c :: c in "*+?()[]{}|^$\\" <==> IsMeta(c);
    assert forall c :: c in META <==> c == '.' || IsMeta(c);
  }

  /** What a path compiles to: absent type is Prefix, an empty path is "/", any other path is itself unless
      it is a regular expression of an implementation. */
  ghost predicate CompilesTo(p: IngressPath, m: PathMatch) {
    var value := if p.path == "" then "/" else p.path;
    if p.pathType == Some(Exact) then m == PathMatch(MatchExact, value)
    else m.kind.MatchPathPrefix?
         && m.value == if p.pathType == Some(ImplementationSpecific) && exists c :: c in value && IsMeta(c)
                       then RegexPrefixOf(value) else value
  }

  /** What is reported about its path: nothing for the standard types; that it was approximated for the
      others, as a warning if routing may change. */
  ghost predicate PathReport(ing: Ingress, p: IngressPath, i: Issue) {
    var value := if p.path == "" then "/" else p.path;
    && p.pathType.Some? && !p.pathType.value.Exact? && !p.pathType.value.Prefix?
    && i.ingress == ing.key && i.kind == Approximation && i.subject == value
    && i.severity == if p.pathType.value.ImplementationSpecific? && !exists c :: c in value && IsMeta(c)
                     then Info else Warning
  }

  lemma PathCompiles(ing: Ingress, p: IngressPath)
    ensures CompilesTo(p, ConvertPath(ing, p).0)
    ensures forall i :: ConvertPath(ing, p).1 == Some(i) <==> PathReport(ing, p, i)
  {
    MetaCharacters(if p.path == "" then "/" else p.path);
  }

  /** A backend converts to a core Service with weight 1, on its port number or on the number its port name
      resolves to. */
  ghost predicate BackendBecomes(ing: Ingress, p: IngressPath, resolver: Option<PortResolver>, b: BackendRef) {
    && p.backend.ServiceBackend?
    && b.group == Some("") && b.kind == Some("Service") && b.weight == Some(1) && b.name == p.backend.name
    && (b.port == p.backend.port.number != 0
        || (p.backend.port.number == 0 && p.backend.port.name != "" && resolver.Some?
            && resolver.value(ing.key.namespace, p.backend.name, p.backend.port.name) == Some(b.port)))
  }

  /** Otherwise it is an error about the path or the Service. */
  predicate BackendReport(ing: Ingress, p: IngressPath, resolver: Option<PortResolver>, i: Issue) {
    && i.ingress == ing.key && i.severity == Error
    && if p.backend.ResourceBackend? then i.kind == ResourceBackendIssue && i.subject == p.path
       else
         && i.subject == p.backend.name && p.backend.port.number == 0
         && if p.backend.port.name == "" then i.kind == NoPort
            else i.kind == PortUnresolvable
                 && (resolver.Some? ==> resolver.value(ing.key.namespace, p.backend.name, p.backend.port.name) == None)
  }

  lemma BackendCompiles(ing: Ingress, p: IngressPath, resolver: Option<PortResolver>)
    ensures forall b :: ConvertBackend(ing, p, resolver) == Ok(b) <==> BackendBecomes(ing, p, resolver, b)
    ensures forall i :: ConvertBackend(ing, p, resolver) == Bad(i) <==> BackendReport(ing, p, resolver, i)
  {
  }

  /** Every route attaches to the Gateway of the options, named with its namespace if that is another. */
  lemma RouteAttaches(e: Engine, ing: Ingress, opts: Options, parent: ParentRef)
    requires Convert(e, ing, opts).route.Some? ==> parent == Convert(e, ing, opts).route.value.parent
    requires Convert(e, ing, opts).grpcRoute.Some? ==> parent == Convert(e, ing, opts).grpcRoute.value.parent
    requires Convert(e, ing, opts).route.Some? || Convert(e, ing, opts).grpcRoute.Some?
    ensures parent.group == Some("gateway.networking.k8s.io") && parent.kind == Some("Gateway")
    ensures parent.name == opts.gatewayName
    ensures opts.gatewayNamespace != "" ==>
              (if parent.namespace.Some? then parent.namespace.value else ing.key.namespace) == opts.gatewayNamespace
    ensures parent.namespace.Some? <==> opts.gatewayNamespace != "" && opts.gatewayNamespace != ing.key.namespace
  {
  }

  /** An Ingress is compiled to a GRPCRoute exactly when a backend-protocol annotation says GRPC, in
      whatever case. */
  lemma GRPCExactlyWhen(e: Engine, ing: Ingress)
    ensures IsGRPCBackend(e, ing)
            <==> exists k :: k in e.grpcProtocolKeys && k in ing.annotations && |ing.annotations[k]| == 4
                   && ing.annotations[k][0] in "Gg" && ing.annotations[k][1] in "Rr"
                   && ing.annotations[k][2] in "Pp" && ing.annotations[k][3] in "Cc"
  {
    forall k | k in e.grpcProtocolKeys
      ensures EqualFold(Lookup(ing.annotations, k), "GRPC")
              <==> (k in ing.annotations && |ing.annotations[k]| == 4
                    && ing.annotations[k][0] in "Gg" && ing.annotations[k][1] in "Rr"
                    && ing.annotations[k][2] in "Pp" && ing.annotations[k][3] in "Cc")
    {
      GRPCSpellings(Lookup(ing.annotations, k));
    }
  }

  lemma {:induction false} HTTPIssuesGather(ing: Ingress, paths: seq<IngressPath>, resolver: Option<PortResolver>,
                                            i: Issue)
    ensures i in HTTPIssues(ing, paths, resolver)
            <==> exists p :: p in paths && (BackendReport(ing, p, resolver, i)
                                            || (ConvertBackend(ing, p, resolver).Ok? && PathReport(ing, p, i)))
  {
    if paths != [] {
      var init, p := paths[..|paths| - 1], paths[|paths| - 1];
      assert paths == init + [p];
      HTTPIssuesGather(ing, init, resolver, i);
      BackendCompiles(ing, p, resolver);
      PathCompiles(ing, p);
    }
  }

  /** A GRPCRoute does not keep the path. */
  predicate PathLost(ing: Ingress, p: IngressPath, i: Issue) {
    p.path != "" && p.path != "/" && i == Issue(ing.key, Info, PathNotPreserved, p.path)
  }

  lemma {:induction false} GRPCIssuesGather(ing: Ingress, paths: seq<IngressPath>, resolver: Option<PortResolver>,
                                            i: Issue)
    ensures i in GRPCIssues(ing, paths, resolver)
            <==> exists p :: p in paths && (BackendReport(ing, p, resolver, i)
                                            || (ConvertBackend(ing, p, resolver).Ok? && PathLost(ing, p, i)))
  {
    if paths != [] {
      var init, p := paths[..|paths| - 1], paths[|paths| - 1];
      assert paths == init + [p];
      GRPCIssuesGather(ing, init, resolver, i);
      BackendCompiles(ing, p, resolver);
      if ConvertBackend(ing, p, resolver).Ok? { GRPCIssuesSnoc(ing, paths, resolver); }
    }
  }

  /** What is reported about the Ingress as a whole: a default backend, TLS blocks beside an HTTPRoute, and
      that no rule resulted. */
  predicate WholeReport(ing: Ingress, grpc: bool, ruled: bool, i: Issue) {
    || (ing.hasDefaultBackend && i == Issue(ing.key, Warning, DefaultBackend, ""))
    || (!grpc && ruled && ing.tlsBlocks > 0 && i == Issue(ing.key, Info, TlsOnListener, ""))
    || (!ruled && i == Issue(ing.key, Error, NoRules, ""))
  }

  /** All that a conversion reports, and nothing else. */
  lemma ConversionReports(e: Engine, ing: Ingress, opts: Options, i: Issue)
    ensures var r, grpc := Convert(e, ing, opts), IsGRPCBackend(e, ing);
            i in r.issues
            <==> || WholeReport(ing, grpc, r.route.Some? || r.grpcRoute.Some?, i)
                 || (!grpc && exists k :: Reports(e, ing, opts.drop, k, i))
                 || (exists p :: p in PathsOf(ing.rules)
                       && (BackendReport(ing, p, opts.resolver, i)
                           || (ConvertBackend(ing, p, opts.resolver).Ok?
                               && (if grpc then PathLost(ing, p, i) else PathReport(ing, p, i)))))
  {
    HTTPIssuesGather(ing, PathsOf(ing.rules), opts.resolver, i);
    GRPCIssuesGather(ing, PathsOf(ing.rules), opts.resolver, i);
    IssuesFromValues(e, ing, opts.drop, i);
  }
}
