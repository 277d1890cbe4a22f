/** What an Ingress and an HTTPRoute mean for a request, and when compiling one into the other
    preserves it. The request semantics are those of the Kubernetes Ingress documentation ("Path
    types", "Hostname wildcards") and of the Gateway API reference (`HTTPRouteSpec.hostnames`,
    `HTTPPathMatch`). A request is given the ordered list of candidate (match, backend) pairs, so
    that equal lists give equal answers under any precedence policy. */
module Meaning {
  import opened Text
  import opened Kube
  import opened Annotations
  import opened Conversion

  datatype Request = Request(host: string, path: string)
  datatype Candidate = Candidate(match_: PathMatch, backend: string, port: int)

  /*** Hosts ***/

  predicate IsWildcard(pattern: string) { "*." <= pattern }

  /** `host` ends in the wildcard's suffix, with something in front of it. */
  predicate UnderSuffix(pattern: string, host: string)
    requires IsWildcard(pattern)
  {
    var suffix := pattern[1..];
    |host| > |suffix| && host[|host| - |suffix|..] == suffix
  }

  /** An Ingress wildcard stands for exactly one DNS label; an absent host matches everything. */
  predicate IngressHostMatches(pattern: string, host: string) {
    if pattern == "" then true
    else if IsWildcard(pattern) then
      UnderSuffix(pattern, host) && '.' !in host[..|host| - |pattern| + 1]
    else host == pattern
  }

  /** A Gateway API wildcard stands for one or more DNS labels. */
  predicate GatewayHostMatches(pattern: string, host: string) {
    if IsWildcard(pattern) then UnderSuffix(pattern, host) else host == pattern
  }

  /** No hostnames at all admit every host. */
  predicate Admits(hostnames: seq<string>, host: string) {
    hostnames == [] || exists h | h in hostnames :: GatewayHostMatches(h, host)
  }

  /*** Paths ***/

  function TrimSlash(value: string): string {
    if value != "" && value[|value| - 1] == '/' then value[..|value| - 1] else value
  }

  /** Ingress: a prefix is compared element by element, a trailing slash ignored. */
  predicate IngressPathMatches(m: PathMatch, path: string) {
    match m.kind
    case MatchExact => path == m.value
    case MatchPathPrefix => Split(TrimSlash(m.value)) <= Split(path)
  }

  /** Gateway: the path is the prefix itself or continues it after a slash. */
  predicate GatewayPathMatches(m: PathMatch, path: string) {
    match m.kind
    case MatchExact => path == m.value
    case MatchPathPrefix => path == TrimSlash(m.value) || TrimSlash(m.value) + "/" <= path
  }

  lemma PathReadingsAgree(m: PathMatch, path: string)
    ensures IngressPathMatches(m, path) <==> GatewayPathMatches(m, path)
  {
    ElementPrefixIsTextPrefix(TrimSlash(m.value), path);
  }

  /*** Candidates ***/

  /** The path match an Ingress path means, for the path types the standard defines: an absent type is
      Prefix, an empty path is "/". */
  function MatchOf(p: IngressPath): PathMatch {
    PathMatch(if p.pathType == Some(Exact) then MatchExact else MatchPathPrefix, if p.path == "" then "/" else p.path)
  }

  /** One of the path types the standard defines. */
  predicate Standard(p: IngressPath) { p.pathType in {None, Some(Exact), Some(Prefix)} }

  /** The compiler takes such a path for what it means. */
  lemma CompilerAgrees(ing: Ingress, p: IngressPath)
    requires Standard(p)
    ensures ConvertPath(ing, p) == (MatchOf(p), None)
  {
    PathCompiles(ing, p);
  }

  /** The Service and port an Ingress backend designates, if any. */
  function Target(ns: string, b: Backend, resolver: Option<PortResolver>): Option<(string, int)> {
    if b.ResourceBackend? then None
    else if b.port.number != 0 then Some((b.name, b.port.number))
    else if b.port.name == "" || resolver.None? then None
    else
      match resolver.value(ns, b.name, b.port.name)
      case None => None
      case Some(n) => Some((b.name, n))
  }

  datatype Entry = Entry(host: string, path: IngressPath)

  function EntriesOf(rules: seq<IngressRule>): seq<Entry> {
    if rules == [] then []
    else
      var last := rules[|rules| - 1];
      EntriesOf(rules[..|rules| - 1])
        + seq(|last.Paths()|, i requires 0 <= i < |last.Paths()| => Entry(last.host, last.Paths()[i]))
  }

  predicate EntryMatches(en: Entry, req: Request) {
    IngressHostMatches(en.host, req.host) && IngressPathMatches(MatchOf(en.path), req.path)
  }

  function EntryCandidates(ing: Ingress, en: Entry, resolver: Option<PortResolver>): seq<Candidate> {
    match Target(ing.key.namespace, en.path.backend, resolver)
    case None => []
    case Some(t) => [Candidate(MatchOf(en.path), t.0, t.1)]
  }

  function CandidatesAmong(ing: Ingress, entries: seq<Entry>, resolver: Option<PortResolver>,
                           req: Request): seq<Candidate> {
    if entries == [] then []
    else
      var before, en := CandidatesAmong(ing, entries[..|entries| - 1], resolver, req), entries[|entries| - 1];
      if EntryMatches(en, req) then before + EntryCandidates(ing, en, resolver) else before
  }

  /** What the Ingress offers a request. */
  function IngressCandidates(ing: Ingress, resolver: Option<PortResolver>, req: Request): seq<Candidate> {
    CandidatesAmong(ing, EntriesOf(ing.rules), resolver, req)
  }

  function RuleCandidates(r: HTTPRule, req: Request): seq<Candidate> {
    if exists m | m in r.matches :: GatewayPathMatches(m, req.path) then
      seq(|r.backendRefs|, i requires 0 <= i < |r.backendRefs| =>
        Candidate(if r.matches != [] then r.matches[0] else PathMatch(MatchPathPrefix, "/"),
                  r.backendRefs[i].name, r.backendRefs[i].port))
    else []
  }

  function CandidatesOfRules(rules: seq<HTTPRule>, req: Request): seq<Candidate> {
    if rules == [] then []
    else CandidatesOfRules(rules[..|rules| - 1], req) + RuleCandidates(rules[|rules| - 1], req)
  }

  /** What the HTTPRoute offers a request: every rule applies to every admitted host. */
  function RouteCandidates(route: HTTPRoute, req: Request): seq<Candidate> {
    if Admits(route.hostnames, req.host) then CandidatesOfRules(route.rules, req) else []
  }

  /** `part` is obtained from `whole` by leaving elements out. */
  ghost predicate Subsequence<T>(part: seq<T>, whole: seq<T>) {
    if part == [] then true
    else if whole == [] then false
    else
      || (part[|part| - 1] == whole[|whole| - 1] && Subsequence(part[..|part| - 1], whole[..|whole| - 1]))
      || Subsequence(part, whole[..|whole| - 1])
  }

  /*** From the Ingress to its route ***/

  predicate StrictTypes(ing: Ingress) {
    forall p | p in PathsOf(ing.rules) :: Standard(p)
  }

  /** The Ingress compiles to an HTTPRoute, without error. */
  ghost predicate Compiles(e: Engine, ing: Ingress, opts: Options) {
    !IsGRPCBackend(e, ing) && !HasError(Convert(e, ing, opts).issues)
  }

  ghost function RouteOf(e: Engine, ing: Ingress, opts: Options): HTTPRoute
    requires Compiles(e, ing, opts)
  {
    HTTPFailsExactlyWhen(e, ing, opts);
    PathsConserved(ing, PathsOf(ing.rules), opts.resolver);
    BackendsKept(ing, PathsOf(ing.rules), opts.resolver, Annotated(e, ing, opts.drop));
    Convert(e, ing, opts).route.value
  }

  lemma {:induction false} EntriesAreThePaths(rules: seq<IngressRule>)
    ensures |EntriesOf(rules)| == |PathsOf(rules)|
    ensures forall i | 0 <= i < |EntriesOf(rules)| :: EntriesOf(rules)[i].path == PathsOf(rules)[i]
  {
    if rules != [] { EntriesAreThePaths(rules[..|rules| - 1]); }
  }

  lemma {:induction false} EntryHasRule(rules: seq<IngressRule>, i: nat) returns (r: IngressRule)
    requires i < |EntriesOf(rules)|
    ensures r in rules && r.host == EntriesOf(rules)[i].host && EntriesOf(rules)[i].path in r.Paths()
  {
    var init, last := rules[..|rules| - 1], rules[|rules| - 1];
    if i < |EntriesOf(init)| {
      r := EntryHasRule(init, i);
    } else {
      r := last;
    }
  }

  lemma {:induction false} RuleHasEntry(rules: seq<IngressRule>, r: IngressRule) returns (i: nat)
    requires r in rules && r.Paths() != []
    ensures i < |EntriesOf(rules)| && EntriesOf(rules)[i].host == r.host
  {
    var init, last := rules[..|rules| - 1], rules[|rules| - 1];
    assert rules == init + [last];
    if r == last {
      i := |EntriesOf(init)|;
    } else {
      i := RuleHasEntry(init, r);
    }
  }

  /** Entry for entry, the compiled rule offers what the entry offers, once hosts are set aside. */
  lemma RuleOfEntry(ing: Ingress, en: Entry, resolver: Option<PortResolver>, ann: Translated, req: Request)
    requires Standard(en.path)
    requires ConvertBackend(ing, en.path, resolver).Ok?
    ensures RuleCandidates(HTTPRuleOf(ing, en.path, ConvertBackend(ing, en.path, resolver).backend, ann), req)
            == if IngressPathMatches(MatchOf(en.path), req.path) then EntryCandidates(ing, en, resolver) else []
    ensures |EntryCandidates(ing, en, resolver)| == 1
  {
    var r := HTTPRuleOf(ing, en.path, ConvertBackend(ing, en.path, resolver).backend, ann);
    CompilerAgrees(ing, en.path);
    PathReadingsAgree(MatchOf(en.path), req.path);
    assert r.matches == [MatchOf(en.path)];
    assert MatchOf(en.path) in r.matches;
  }

  ghost predicate Translatable(ing: Ingress, entries: seq<Entry>, resolver: Option<PortResolver>) {
    forall en | en in entries ::
      Standard(en.path) && ConvertBackend(ing, en.path, resolver).Ok?
  }

  function PathsIn(entries: seq<Entry>): seq<IngressPath> {
    seq(|entries|, i requires 0 <= i < |entries| => entries[i].path)
  }

  /** No entry's path matches the request on a host that is not the entry's own. */
  ghost predicate NoForeignMatch(entries: seq<Entry>, req: Request) {
    forall en | en in entries ::
      IngressPathMatches(MatchOf(en.path), req.path) ==> IngressHostMatches(en.host, req.host)
  }

  /** What an entry offers a request it matches. */
  function Offer(ing: Ingress, en: Entry, resolver: Option<PortResolver>): Candidate
    requires Target(ing.key.namespace, en.path.backend, resolver).Some?
  {
    var t := Target(ing.key.namespace, en.path.backend, resolver).value;
    Candidate(MatchOf(en.path), t.0, t.1)
  }

  lemma CandidatesSnoc(ing: Ingress, init: seq<Entry>, en: Entry, resolver: Option<PortResolver>, req: Request)
    requires Target(ing.key.namespace, en.path.backend, resolver).Some?
    ensures CandidatesAmong(ing, init + [en], resolver, req)
            == CandidatesAmong(ing, init, resolver, req)
             + if EntryMatches(en, req) then [Offer(ing, en, resolver)] else []
  {
    assert (init + [en])[..|init|] == init;
    assert CandidatesAmong(ing, init, resolver, req) + [] == CandidatesAmong(ing, init, resolver, req);
  }

  lemma RouteCandidatesSnoc(ing: Ingress, init: seq<Entry>, en: Entry, resolver: Option<PortResolver>,
                            ann: Translated, req: Request)
    requires Translatable(ing, [en], resolver)
    ensures Target(ing.key.namespace, en.path.backend, resolver).Some?
    ensures CandidatesOfRules(HTTPRules(ing, PathsIn(init + [en]), resolver, ann), req)
            == CandidatesOfRules(HTTPRules(ing, PathsIn(init), resolver, ann), req)
             + if IngressPathMatches(MatchOf(en.path), req.path) then [Offer(ing, en, resolver)] else []
  {
    assert en in [en];
    RuleOfEntry(ing, en, resolver, ann, req);
    RulesSnoc(ing, init, en, resolver, ann, req);
  }

  lemma NoForeignSnoc(init: seq<Entry>, en: Entry, req: Request)
    ensures NoForeignMatch(init + [en], req)
            <==> (NoForeignMatch(init, req)
                  && (IngressPathMatches(MatchOf(en.path), req.path) ==> IngressHostMatches(en.host, req.host)))
  {
    assert en in init + [en] && forall x | x in init :: x in init + [en];
  }

  /** The route never loses a candidate of an entry, keeps their order, and gains some exactly when
      a path matches on a foreign host. */
  lemma {:induction false} GainedCandidates(ing: Ingress, entries: seq<Entry>, resolver: Option<PortResolver>,
                                            ann: Translated, req: Request)
    requires Translatable(ing, entries, resolver)
    ensures var mine := CandidatesAmong(ing, entries, resolver, req);
            var theirs := CandidatesOfRules(HTTPRules(ing, PathsIn(entries), resolver, ann), req);
            Subsequence(mine, theirs) && |mine| <= |theirs| && (mine == theirs <==> NoForeignMatch(entries, req))
  {
    if entries != [] {
      var init, en := entries[..|entries| - 1], entries[|entries| - 1];
      assert entries == init + [en];
      GainedCandidates(ing, init, resolver, ann, req);
      RouteCandidatesSnoc(ing, init, en, resolver, ann, req);
      CandidatesSnoc(ing, init, en, resolver, req);
      var c := Offer(ing, en, resolver);
      NoForeignSnoc(init, en, req);
      ExtendBoth(CandidatesAmong(ing, init, resolver, req),
                 CandidatesOfRules(HTTPRules(ing, PathsIn(init), resolver, ann), req), c);
    }
  }

  lemma ExtendBoth<T>(a: seq<T>, b: seq<T>, x: T)
    requires Subsequence(a, b) && |a| <= |b|
    ensures Subsequence(a + [x], b + [x]) && Subsequence(a, b + [x])
    ensures a + [x] == b + [x] <==> a == b
    ensures a + [] == a && b + [] == b && a != b + [x]
  {
    SubsequenceGrows(a, b, x);
    ConcatEqual(a, b, [x]);
  }

  lemma ConcatEqual<T>(a: seq<T>, b: seq<T>, c: seq<T>)
    ensures a + c == b + c <==> a == b
  {
    if a + c == b + c {
      assert |a| == |b|;
      assert a == (a + c)[..|a|] == (b + c)[..|b|] == b;
    }
  }

  lemma SubsequenceGrows<T>(part: seq<T>, whole: seq<T>, x: T)
    requires Subsequence(part, whole)
    ensures Subsequence(part + [x], whole + [x]) && Subsequence(part, whole + [x])
  {
    assert (part + [x])[..|part|] == part && (whole + [x])[..|whole|] == whole;
  }

  lemma RulesSnoc(ing: Ingress, init: seq<Entry>, en: Entry, resolver: Option<PortResolver>, ann: Translated,
                  req: Request)
    requires ConvertBackend(ing, en.path, resolver).Ok?
    ensures CandidatesOfRules(HTTPRules(ing, PathsIn(init + [en]), resolver, ann), req)
            == CandidatesOfRules(HTTPRules(ing, PathsIn(init), resolver, ann), req)
             + RuleCandidates(HTTPRuleOf(ing, en.path, ConvertBackend(ing, en.path, resolver).backend, ann), req)
  {
    var before := HTTPRules(ing, PathsIn(init), resolver, ann);
    var rule := HTTPRuleOf(ing, en.path, ConvertBackend(ing, en.path, resolver).backend, ann);
    assert PathsIn(init + [en])[..|init|] == PathsIn(init);
    assert HTTPRules(ing, PathsIn(init + [en]), resolver, ann) == before + [rule];
    assert (before + [rule])[..|before|] == before;
  }

  lemma CompiledEntries(e: Engine, ing: Ingress, opts: Options)
    requires Compiles(e, ing, opts) && StrictTypes(ing)
    ensures Translatable(ing, EntriesOf(ing.rules), opts.resolver)
    ensures EntriesOf(ing.rules) != []
    ensures RouteOf(e, ing, opts).rules
            == HTTPRules(ing, PathsIn(EntriesOf(ing.rules)), opts.resolver, Annotated(e, ing, opts.drop))
    ensures Elements(RouteOf(e, ing, opts).hostnames) == HostsOf(ing.rules)
  {
    HTTPFailsExactlyWhen(e, ing, opts);
    EntriesAreThePaths(ing.rules);
    assert PathsIn(EntriesOf(ing.rules)) == PathsOf(ing.rules);
    forall en | en in EntriesOf(ing.rules)
      ensures en.path in PathsOf(ing.rules)
    {
      var i :| 0 <= i < |EntriesOf(ing.rules)| && EntriesOf(ing.rules)[i] == en;
      assert PathsOf(ing.rules)[i] == en.path;
    }
  }

  /** On an admitted host the route offers everything the Ingress does, in order; the two agree
      exactly when no path matches on a foreign host. On any other host the route offers nothing. */
  lemma CandidatesCompared(e: Engine, ing: Ingress, opts: Options, req: Request)
    requires Compiles(e, ing, opts) && StrictTypes(ing)
    ensures var mine, theirs := IngressCandidates(ing, opts.resolver, req), RouteCandidates(RouteOf(e, ing, opts), req);
            if Admits(RouteOf(e, ing, opts).hostnames, req.host) then
              && Subsequence(mine, theirs)
              && (mine == theirs <==> NoForeignMatch(EntriesOf(ing.rules), req))
            else theirs == [] && (mine == [] <==> forall en | en in EntriesOf(ing.rules) :: !EntryMatches(en, req))
  {
    CompiledEntries(e, ing, opts);
    GainedCandidates(ing, EntriesOf(ing.rules), opts.resolver, Annotated(e, ing, opts.drop), req);
    NoneExactlyWhenNoMatch(ing, EntriesOf(ing.rules), opts.resolver, req);
  }

  lemma {:induction false} NoneExactlyWhenNoMatch(ing: Ingress, entries: seq<Entry>, resolver: Option<PortResolver>,
                                                  req: Request)
    requires Translatable(ing, entries, resolver)
    ensures CandidatesAmong(ing, entries, resolver, req) == [] <==> forall en | en in entries :: !EntryMatches(en, req)
  {
    if entries != [] {
      var init, en := entries[..|entries| - 1], entries[|entries| - 1];
      assert entries == init + [en];
      NoneExactlyWhenNoMatch(ing, init, resolver, req);
      RuleOfEntry(ing, en, resolver, Translated([], None, []), req);
    }
  }

  /*** Meaning preservation ***/

  ghost predicate SameMeaning(e: Engine, ing: Ingress, opts: Options)
    requires Compiles(e, ing, opts)
  {
    forall req: Request ::
      IngressCandidates(ing, opts.resolver, req) == RouteCandidates(RouteOf(e, ing, opts), req)
  }

  ghost predicate LosesNothing(e: Engine, ing: Ingress, opts: Options)
    requires Compiles(e, ing, opts)
  {
    forall req: Request ::
      Subsequence(IngressCandidates(ing, opts.resolver, req), RouteCandidates(RouteOf(e, ing, opts), req))
  }

  /** Every rule names the one host `h`, which is no wildcard; a rule without host and without
      paths says nothing and may stand beside them. */
  predicate SingleHost(rules: seq<IngressRule>, h: string) {
    !IsWildcard(h) && forall r | r in rules :: r.host == h || (r.host == "" && r.Paths() == [])
  }

  /** A catch-all rule with paths stands beside a rule that names a host. */
  predicate MixesCatchAllWithHosts(rules: seq<IngressRule>) {
    (exists r | r in rules :: r.host == "" && r.Paths() != []) && (exists r | r in rules :: r.host != "")
  }

  lemma SuffixOfConcat(front: string, pattern: string)
    requires IsWildcard(pattern) && front != ""
    ensures UnderSuffix(pattern, front + pattern[1..])
    ensures (front + pattern[1..])[..|front + pattern[1..]| - |pattern| + 1] == front
  {
  }

  lemma OneLabelIsSomeLabels(pattern: string, host: string)
    requires pattern != "" && IngressHostMatches(pattern, host)
    ensures GatewayHostMatches(pattern, host)
  {
  }

  /** A host name longer than all of `hosts` and without dots: no listed pattern matches it. */
  function Stranger(hosts: seq<string>): string {
    if hosts == [] then "x"
    else
      var rest := Stranger(hosts[1..]);
      if |rest| > |hosts[0]| then rest else seq(|hosts[0]| + 1, _ => 'x')
  }

  lemma {:induction false} StrangerNotAdmitted(hosts: seq<string>)
    ensures Stranger(hosts) != "" && '.' !in Stranger(hosts)
    ensures forall h | h in hosts :: |h| < |Stranger(hosts)| && !GatewayHostMatches(h, Stranger(hosts))
  {
    var s := Stranger(hosts);
    if hosts != [] {
      StrangerNotAdmitted(hosts[1..]);
      assert hosts == [hosts[0]] + hosts[1..];
    }
    forall h | h in hosts ensures |h| < |s| && !GatewayHostMatches(h, s) {
      if IsWildcard(h) {
        assert h[1..][0] == '.';
        assert UnderSuffix(h, s) ==> '.' in s[|s| - |h| + 1..];
        assert forall c | c in s[|s| - |h| + 1..] :: c in s;
      }
    }
  }

  lemma {:induction false} TrimSlashPrefix(v: string)
    ensures v == TrimSlash(v) || v == TrimSlash(v) + "/"
  {
  }

  lemma OwnPathMatches(p: IngressPath)
    ensures IngressPathMatches(MatchOf(p), MatchOf(p).value)
  {
    PathReadingsAgree(MatchOf(p), MatchOf(p).value);
    TrimSlashPrefix(MatchOf(p).value);
  }

  /** A request host that the route admits because of `h` but that an entry for `own` does not
      cover: some host other than the precise `own`, or two labels under the wildcard `own`. */
  lemma ForeignHost(h: string, own: string) returns (host: string)
    requires h != "" && own != ""
    requires if IsWildcard(own) then h == own else h != own
    ensures GatewayHostMatches(h, host) && !IngressHostMatches(own, host)
  {
    if IsWildcard(h) {
      SuffixOfConcat("a.b", h);
      SuffixOfConcat("b.b", h);
      assert '.' in "a.b" && ("a.b" + h[1..])[0] != ("b.b" + h[1..])[0];
      host := if own == "a.b" + h[1..] then "b.b" + h[1..] else "a.b" + h[1..];
    } else {
      host := h;
    }
  }

  /** A request on which the Ingress and its route differ because some other rule's host lets the
      request in. */
  lemma LeaksFrom(e: Engine, ing: Ingress, opts: Options, i: nat, h: string)
    requires Compiles(e, ing, opts) && StrictTypes(ing)
    requires i < |EntriesOf(ing.rules)| && EntriesOf(ing.rules)[i].host != ""
    requires h in HostsOf(ing.rules)
    requires if IsWildcard(EntriesOf(ing.rules)[i].host) then h == EntriesOf(ing.rules)[i].host
             else h != EntriesOf(ing.rules)[i].host
    ensures !SameMeaning(e, ing, opts)
  {
    var en := EntriesOf(ing.rules)[i];
    var host := ForeignHost(h, en.host);
    var req := Request(host, MatchOf(en.path).value);
    OwnPathMatches(en.path);
    CompiledEntries(e, ing, opts);
    assert h in Elements(RouteOf(e, ing, opts).hostnames);
    CandidatesCompared(e, ing, opts, req);
    assert en in EntriesOf(ing.rules);
    assert IngressCandidates(ing, opts.resolver, req) != RouteCandidates(RouteOf(e, ing, opts), req);
  }

  /** A request on which the route offers nothing and the Ingress does. */
  lemma LostRequest(e: Engine, ing: Ingress, opts: Options) returns (req: Request)
    requires Compiles(e, ing, opts) && StrictTypes(ing)
    requires MixesCatchAllWithHosts(ing.rules)
    ensures IngressCandidates(ing, opts.resolver, req) != [] && RouteCandidates(RouteOf(e, ing, opts), req) == []
  {
    var r :| r in ing.rules && r.host == "" && r.Paths() != [];
    var i := RuleHasEntry(ing.rules, r);
    var en := EntriesOf(ing.rules)[i];
    var hostnames := RouteOf(e, ing, opts).hostnames;
    CompiledEntries(e, ing, opts);
    var named :| named in ing.rules && named.host != "";
    assert named.host in Elements(hostnames);
    StrangerNotAdmitted(hostnames);
    req := Request(Stranger(hostnames), MatchOf(en.path).value);
    OwnPathMatches(en.path);
    assert en in EntriesOf(ing.rules) && EntryMatches(en, req);
    CandidatesCompared(e, ing, opts, req);
  }

  lemma SingleHostEntries(rules: seq<IngressRule>, h: string)
    requires SingleHost(rules, h)
    ensures forall en | en in EntriesOf(rules) :: en.host == h
    ensures EntriesOf(rules) != [] && h != "" ==> h in HostsOf(rules)
  {
    forall en | en in EntriesOf(rules)
      ensures en.host == h
    {
      var i :| 0 <= i < |EntriesOf(rules)| && EntriesOf(rules)[i] == en;
      var r := EntryHasRule(rules, i);
    }
    if EntriesOf(rules) != [] {
      var r := EntryHasRule(rules, 0);
    }
  }

  lemma SingleHostAdmits(hostnames: seq<string>, h: string, host: string)
    requires !IsWildcard(h)
    requires Elements(hostnames) == if h != "" then {h} else {}
    ensures Admits(hostnames, host) <==> (h == "" || GatewayHostMatches(h, host))
  {
    assert forall x :: x in hostnames <==> x in Elements(hostnames);
    assert hostnames == [] || hostnames[0] in Elements(hostnames);
  }

  /** With a single precise (or absent) host the compiled route means what the Ingress means, for
      every request. */
  lemma SingleHostPreserves(e: Engine, ing: Ingress, opts: Options, h: string)
    requires Compiles(e, ing, opts) && StrictTypes(ing) && SingleHost(ing.rules, h)
    ensures SameMeaning(e, ing, opts)
  {
    CompiledEntries(e, ing, opts);
    SingleHostEntries(ing.rules, h);
    forall req: Request
      ensures IngressCandidates(ing, opts.resolver, req) == RouteCandidates(RouteOf(e, ing, opts), req)
    {
      CandidatesCompared(e, ing, opts, req);
      SingleHostAdmits(RouteOf(e, ing, opts).hostnames, h, req.host);
    }
  }

  /** The compiled route means the same as the Ingress, on every request, exactly when the Ingress
      speaks of one host that is no wildcard. Hosts collected across rules (the general case of the
      source) leak paths between hosts; wildcards widen from one label to many. */
  lemma MeaningPreservedExactlyForSingleHost(e: Engine, ing: Ingress, opts: Options)
    requires Compiles(e, ing, opts) && StrictTypes(ing)
    ensures SameMeaning(e, ing, opts) <==> exists h :: SingleHost(ing.rules, h)
  {
    if h :| SingleHost(ing.rules, h) {
      SingleHostPreserves(e, ing, opts, h);
    }
    if SameMeaning(e, ing, opts) {
      CompiledEntries(e, ing, opts);
      var own := EntriesOf(ing.rules)[0].host;
      var mine := EntryHasRule(ing.rules, 0);
      if IsWildcard(own) {
        LeaksFrom(e, ing, opts, 0, own);
        assert false;
      }
      forall r | r in ing.rules
        ensures r.host == own || (r.host == "" && r.Paths() == [])
      {
        if r.host != own {
          if own != "" && r.host != "" {
            LeaksFrom(e, ing, opts, 0, r.host);
            assert false;
          } else if own == "" || r.Paths() != [] {
            var req := LostRequest(e, ing, opts);
            assert false;
          }
        }
      }
      assert SingleHost(ing.rules, own);
    }
  }

  /** Nothing the Ingress offers is lost, on any request, exactly when no catch-all rule with paths
      stands beside a rule naming a host; wildcards and foreign hosts only ever add candidates. */
  lemma NothingLostExactlyWithoutMixing(e: Engine, ing: Ingress, opts: Options)
    requires Compiles(e, ing, opts) && StrictTypes(ing)
    ensures LosesNothing(e, ing, opts) <==> !MixesCatchAllWithHosts(ing.rules)
  {
    if MixesCatchAllWithHosts(ing.rules) {
      var req := LostRequest(e, ing, opts);
      assert !Subsequence(IngressCandidates(ing, opts.resolver, req), RouteCandidates(RouteOf(e, ing, opts), req));
    } else {
      forall req: Request
        ensures Subsequence(IngressCandidates(ing, opts.resolver, req), RouteCandidates(RouteOf(e, ing, opts), req))
      {
        OfferedHostsAreAdmitted(e, ing, opts, req);
        CandidatesCompared(e, ing, opts, req);
      }
    }
  }

  lemma OfferedHostsAreAdmitted(e: Engine, ing: Ingress, opts: Options, req: Request)
    requires Compiles(e, ing, opts) && StrictTypes(ing) && !MixesCatchAllWithHosts(ing.rules)
    ensures Admits(RouteOf(e, ing, opts).hostnames, req.host)
         || forall en | en in EntriesOf(ing.rules) :: !EntryMatches(en, req)
  {
    CompiledEntries(e, ing, opts);
    var hostnames := RouteOf(e, ing, opts).hostnames;
    assert forall x :: x in hostnames <==> x in Elements(hostnames);
    forall en | en in EntriesOf(ing.rules) && EntryMatches(en, req)
      ensures Admits(hostnames, req.host)
    {
      var i :| 0 <= i < |EntriesOf(ing.rules)| && EntriesOf(ing.rules)[i] == en;
      var r := EntryHasRule(ing.rules, i);
      if en.host != "" {
        OneLabelIsSomeLabels(en.host, req.host);
        assert en.host in hostnames;
      } else if hostnames != [] {
        assert hostnames[0] in hostnames;
      }
    }
  }

  /** One rule, one path of type Exact, on one precise host. */
  predicate OneExactPath(ing: Ingress, host: string, path: string, name: string, port: int) {
    && host != "" && !IsWildcard(host) && path != "" && port != 0
    && ing.rules == [IngressRule(host,
                                 Some([IngressPath(path, Some(Exact), ServiceBackend(name, ServicePort(port, "")))]))]
  }

  lemma OneExactPathCompiles(e: Engine, ing: Ingress, opts: Options, host: string, path: string, name: string,
                             port: int)
    requires OneExactPath(ing, host, path, name, port) && !IsGRPCBackend(e, ing)
    ensures Compiles(e, ing, opts) && StrictTypes(ing) && SingleHost(ing.rules, host)
  {
    var p := IngressPath(path, Some(Exact), ServiceBackend(name, ServicePort(port, "")));
    OneRulePaths(IngressRule(host, Some([p])));
    LonePathCompiles(e, ing, opts, p);
  }

  lemma LonePathCompiles(e: Engine, ing: Ingress, opts: Options, p: IngressPath)
    requires PathsOf(ing.rules) == [p] && ConvertBackend(ing, p, opts.resolver).Ok? && Standard(p)
    ensures !HasError(Convert(e, ing, opts).issues) && StrictTypes(ing)
  {
    FailsExactlyWhen(e, ing, opts);
  }

  lemma OneExactPathOffers(ing: Ingress, resolver: Option<PortResolver>, host: string, path: string, name: string,
                           port: int, req: Request)
    requires OneExactPath(ing, host, path, name, port)
    ensures IngressCandidates(ing, resolver, req)
            == if req == Request(host, path) then [Candidate(PathMatch(MatchExact, path), name, port)] else []
  {
    var en := Entry(host, ing.rules[0].Paths()[0]);
    assert ing.rules[..0] == [] && [en][..0] == [];
    assert EntriesOf(ing.rules) == [en];
    assert EntryMatches(en, req) <==> req == Request(host, path);
    assert CandidatesAmong(ing, [], resolver, req) == [];
  }

  /** For instance: on one precise host, a path of type Exact is offered to exactly the requests for it. */
  lemma ExactIsExact(e: Engine, ing: Ingress, opts: Options, host: string, path: string, name: string, port: int,
                     req: Request)
    requires OneExactPath(ing, host, path, name, port) && !IsGRPCBackend(e, ing)
    ensures Compiles(e, ing, opts)
    ensures RouteCandidates(RouteOf(e, ing, opts), req)
            == if req == Request(host, path) then [Candidate(PathMatch(MatchExact, path), name, port)] else []
  {
    OneExactPathCompiles(e, ing, opts, host, path, name, port);
    SingleHostPreserves(e, ing, opts, host);
    OneExactPathOffers(ing, opts.resolver, host, path, name, port, req);
  }
}
