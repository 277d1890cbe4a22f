/** Which overlaps of the compiled routes the warnings of `Check` cover. */
module Collisions {
  import opened Text
  import opened Kube
  import opened Grouping
  import opened Annotations
  import opened Conversion
  import opened Overlap
  import Meaning

  /*** Hosts ***/

  /** A route with these hostnames, or none, takes this host. */
  ghost predicate Takes(hosts: set<string>, host: string) {
    hosts == {} || exists h | h in hosts :: Meaning.GatewayHostMatches(h, host)
  }

  /** Some host reaches both. */
  ghost predicate Meet(a: set<string>, b: set<string>) {
    exists host :: Takes(a, host) && Takes(b, host)
  }

  predicate EndsWith(s: string, suffix: string) {
    |s| >= |suffix| && s[|s| - |suffix|..] == suffix
  }

  /** Two host patterns have a host in common. */
  predicate Compatible(g: string, h: string) {
    if Meaning.IsWildcard(g) && Meaning.IsWildcard(h) then EndsWith(g[1..], h[1..]) || EndsWith(h[1..], g[1..])
    else if Meaning.IsWildcard(g) then Meaning.UnderSuffix(g, h)
    else if Meaning.IsWildcard(h) then Meaning.UnderSuffix(h, g)
    else g == h
  }

  lemma SuffixesNest(s: string, a: string, b: string)
    requires EndsWith(s, a) && EndsWith(s, b) && |a| <= |b|
    ensures EndsWith(b, a)
  {
    assert b[|b| - |a|..] == s[|s| - |a|..];
  }

  lemma Representative(h: string) returns (host: string)
    ensures Meaning.GatewayHostMatches(h, host)
  {
    if Meaning.IsWildcard(h) {
      Meaning.SuffixOfConcat("x", h);
      host := "x" + h[1..];
    } else {
      host := h;
    }
  }

  lemma CompatibleExactlyWhen(g: string, h: string)
    ensures Compatible(g, h)
            <==> exists host :: Meaning.GatewayHostMatches(g, host) && Meaning.GatewayHostMatches(h, host)
  {
    if host :| Meaning.GatewayHostMatches(g, host) && Meaning.GatewayHostMatches(h, host) {
      if Meaning.IsWildcard(g) && Meaning.IsWildcard(h) {
        if |g| <= |h| { SuffixesNest(host, g[1..], h[1..]); } else { SuffixesNest(host, h[1..], g[1..]); }
      }
    }
    if Compatible(g, h) { CompatibleShare(g, h); }
  }

  lemma CompatibleShare(g: string, h: string)
    requires Compatible(g, h)
    ensures exists host :: Meaning.GatewayHostMatches(g, host) && Meaning.GatewayHostMatches(h, host)
  {
    if Meaning.IsWildcard(g) && (!Meaning.IsWildcard(h) || EndsWith(h[1..], g[1..])) {
      var host := Representative(h);
      if Meaning.IsWildcard(h) { LongerEnds(host, h[1..], g[1..]); }
      assert Meaning.GatewayHostMatches(g, host) && Meaning.GatewayHostMatches(h, host);
    } else {
      var host := Representative(g);
      if Meaning.IsWildcard(g) { LongerEnds(host, g[1..], h[1..]); }
      assert Meaning.GatewayHostMatches(g, host) && Meaning.GatewayHostMatches(h, host);
    }
  }

  lemma LongerEnds(s: string, b: string, a: string)
    requires EndsWith(s, b) && |s| > |b| && EndsWith(b, a)
    ensures EndsWith(s, a) && |s| > |a|
  {
    assert s[|s| - |a|..] == b[|b| - |a|..];
  }

  /** Host sets meet exactly when one is empty or they hold compatible patterns. */
  lemma MeetExactlyWhen(a: set<string>, b: set<string>)
    ensures Meet(a, b) <==> a == {} || b == {} || exists g, h :: g in a && h in b && Compatible(g, h)
  {
    forall g, h | g in a && h in b
      ensures Compatible(g, h)
              <==> exists host :: Meaning.GatewayHostMatches(g, host) && Meaning.GatewayHostMatches(h, host)
    {
      CompatibleExactlyWhen(g, h);
    }
    if a == {} || b == {} {
      EmptyMeets(a, b);
    }
    if g, h :| g in a && h in b && Compatible(g, h) {
      var host :| Meaning.GatewayHostMatches(g, host) && Meaning.GatewayHostMatches(h, host);
      assert Takes(a, host) && Takes(b, host);
    }
  }

  lemma EmptyMeets(a: set<string>, b: set<string>)
    requires a == {} || b == {}
    ensures Meet(a, b)
  {
    var host := "";
    if h :| h in a { host := Representative(h); }
    if h :| h in b { host := Representative(h); }
    assert Takes(a, host) && Takes(b, host);
  }

  lemma AdmitsExactlyWhen(hostnames: seq<string>, host: string)
    ensures Meaning.Admits(hostnames, host) <==> Takes(Elements(hostnames), host)
  {
    assert forall h :: h in hostnames <==> h in Elements(hostnames);
    assert hostnames == [] || hostnames[0] in Elements(hostnames);
  }

  /*** What becomes of a listed match ***/

  /** Where a path ends up: at a path match of an HTTPRoute, or, without its path, at any gRPC call. */
  datatype Landing = At(path: PathMatch) | AnyCall

  function PathMatchOf(pathType: PathType, path: string): PathMatch {
    ConvertPath(Ingress(ObjectKey("", ""), map[], [], false, 0), IngressPath(path, Some(pathType), ResourceBackend)).0
  }

  /** What the entries do not say about their Ingresses: all hosts of their rules, since a compiled route
      serves each path on each of them, whether they are marked gRPC, and how Service ports resolve. */
  datatype Setting = Setting(hosts: ObjectKey -> set<string>, grpc: ObjectKey -> bool, resolver: Option<PortResolver>)

  function LandingOf(s: Setting, m: Match, en: Entry): Landing {
    if s.grpc(en.ingress) then AnyCall else At(PathMatchOf(m.pathType, m.path))
  }

  /** The Service, by namespace and name, and the port an entry sends to; `None` if it does not convert. */
  function DestinationOf(en: Entry, resolver: Option<PortResolver>): Option<(string, string, int)> {
    match en.backend
    case Resource => None
    case Numbered(service, number) => if number == 0 then None else Some((en.ingress.namespace, service, number))
    case Named(service, port) =>
      if port == "" || resolver.None? then None
      else
        match resolver.value(en.ingress.namespace, service, port)
        case None => None
        case Some(n) => Some((en.ingress.namespace, service, n))
  }

  /** Two entries land alike, where some host reaches both, with different destinations. */
  ghost predicate Collide(s: Setting, entries: seq<(Match, Entry)>, i: nat, j: nat) {
    && i < |entries| && j < |entries| && Neighbours(s, entries[i], entries[j])
    && var a, b := DestinationOf(entries[i].1, s.resolver), DestinationOf(entries[j].1, s.resolver);
       a.Some? && b.Some? && a != b
  }

  ghost predicate Neighbours(s: Setting, a: (Match, Entry), b: (Match, Entry)) {
    LandingOf(s, a.0, a.1) == LandingOf(s, b.0, b.1) && Meet(s.hosts(a.1.ingress), s.hosts(b.1.ingress))
  }

  /** Each collision is between matches that `Check` finds ambiguous. */
  ghost predicate Covers(s: Setting, entries: seq<(Match, Entry)>) {
    forall i: nat, j: nat | Collide(s, entries, i, j) ::
      Ambiguous(entries, entries[i].0) || Ambiguous(entries, entries[j].0)
  }

  /** The same listed matches, sent to other backends. */
  function Sending(entries: seq<(Match, Entry)>, backends: seq<BackendSignature>): seq<(Match, Entry)>
    requires |backends| == |entries|
  {
    seq(|entries|, i requires 0 <= i < |entries| => (entries[i].0, entries[i].1.(backend := backends[i])))
  }

  /** Entries that land alike where some host reaches both are written alike, in one namespace. */
  ghost predicate WrittenAlike(s: Setting, entries: seq<(Match, Entry)>) {
    forall i, j | 0 <= i < |entries| && 0 <= j < |entries| && Neighbours(s, entries[i], entries[j]) ::
      entries[i].0 == entries[j].0 && entries[i].1.ingress.namespace == entries[j].1.ingress.namespace
  }

  /** `Check` compares listed hosts, path types, paths, and backends without their namespace. Its warnings
      cover every collision of the compiled routes, whatever the backends, exactly when entries that land
      alike on meeting hosts are written alike in one namespace. */
  lemma CoversExactlyWhen(s: Setting, entries: seq<(Match, Entry)>)
    ensures (forall backends | |backends| == |entries| :: Covers(s, Sending(entries, backends)))
            <==> WrittenAlike(s, entries)
  {
    if WrittenAlike(s, entries) {
      forall backends | |backends| == |entries|
        ensures Covers(s, Sending(entries, backends))
      {
        AlikeAfterSending(s, entries, backends);
        AlikeIsCovered(s, Sending(entries, backends));
      }
    } else {
      var i, j :| 0 <= i < |entries| && 0 <= j < |entries| && Neighbours(s, entries[i], entries[j])
        && !(entries[i].0 == entries[j].0 && entries[i].1.ingress.namespace == entries[j].1.ingress.namespace);
      if entries[i].0 != entries[j].0 {
        SpellingHides(s, entries, i, j);
      } else {
        NamespaceHides(s, entries, i, j);
      }
    }
  }

  lemma AlikeAfterSending(s: Setting, entries: seq<(Match, Entry)>, backends: seq<BackendSignature>)
    requires |backends| == |entries| && WrittenAlike(s, entries)
    ensures WrittenAlike(s, Sending(entries, backends))
  {
    var sent := Sending(entries, backends);
    forall i, j | 0 <= i < |sent| && 0 <= j < |sent| && Neighbours(s, sent[i], sent[j])
      ensures sent[i].0 == sent[j].0 && sent[i].1.ingress.namespace == sent[j].1.ingress.namespace
    {
      assert Neighbours(s, entries[i], entries[j]);
    }
  }

  lemma AlikeIsCovered(s: Setting, entries: seq<(Match, Entry)>)
    requires WrittenAlike(s, entries)
    ensures Covers(s, entries)
  {
    forall i: nat, j: nat | Collide(s, entries, i, j)
      ensures Ambiguous(entries, entries[i].0)
    {
      assert entries[i].1.backend != entries[j].1.backend;
    }
  }

  lemma SpellingHides(s: Setting, entries: seq<(Match, Entry)>, i: nat, j: nat)
    requires i < |entries| && j < |entries| && Neighbours(s, entries[i], entries[j]) && entries[i].0 != entries[j].0
    ensures exists backends :: |backends| == |entries| && !Covers(s, Sending(entries, backends))
  {
    var one, other := Numbered("s", 1), Numbered("s", 2);
    var backends :=
      seq(|entries|, k requires 0 <= k < |entries| => if entries[k].0 == entries[i].0 then one else other);
    var sent := Sending(entries, backends);
    assert forall m :: !Ambiguous(sent, m);
    assert Neighbours(s, sent[i], sent[j]) && Collide(s, sent, i, j);
    assert |backends| == |entries| && !Covers(s, sent);
  }

  lemma NamespaceHides(s: Setting, entries: seq<(Match, Entry)>, i: nat, j: nat)
    requires i < |entries| && j < |entries| && Neighbours(s, entries[i], entries[j])
    requires entries[i].1.ingress.namespace != entries[j].1.ingress.namespace
    ensures exists backends :: |backends| == |entries| && !Covers(s, Sending(entries, backends))
  {
    var backends: seq<BackendSignature> := seq(|entries|, k requires 0 <= k < |entries| => Numbered("s", 1));
    var sent := Sending(entries, backends);
    assert forall m :: !Ambiguous(sent, m);
    assert Neighbours(s, sent[i], sent[j]) && Collide(s, sent, i, j);
    assert |backends| == |entries| && !Covers(s, sent);
  }

  /*** Collisions are competing routes ***/

  ghost function HostsIn(ings: seq<Ingress>, key: ObjectKey): set<string> {
    set ing, r | ing in ings && r in ing.rules && ing.key == key && r.host != "" :: r.host
  }

  ghost predicate GRPCIn(e: Engine, ings: seq<Ingress>, key: ObjectKey) {
    exists ing :: ing in ings && ing.key == key && IsGRPCBackend(e, ing)
  }

  ghost function SettingOf(e: Engine, opts: Options, ings: seq<Ingress>): Setting {
    Setting(key => HostsIn(ings, key), key => GRPCIn(e, ings, key), opts.resolver)
  }

  lemma SettingIsThere(e: Engine, opts: Options, ings: seq<Ingress>, ing: Ingress)
    requires DistinctKeys(ings) && ing in ings
    ensures SettingOf(e, opts, ings).hosts(ing.key) == HostsOf(ing.rules)
    ensures SettingOf(e, opts, ings).grpc(ing.key) == IsGRPCBackend(e, ing)
  {
    forall x | x in ings && x.key == ing.key
      ensures x == ing
    {
      SameKeySameIngress(ings, x, ing);
    }
    assert HostsIn(ings, ing.key) == HostsOf(ing.rules);
  }

  /** The conversion succeeds. */
  ghost predicate Succeeds(e: Engine, ing: Ingress, opts: Options) { !HasError(Convert(e, ing, opts).issues) }

  predicate Reaches(l: Landing, path: string) {
    l.AnyCall? || Meaning.GatewayPathMatches(l.path, path)
  }

  function LandingIn(e: Engine, ing: Ingress, p: IngressPath): Landing {
    if IsGRPCBackend(e, ing) then AnyCall else At(ConvertPath(ing, p).0)
  }

  /** The compiled route offers a request this Service and port, by this match. */
  ghost predicate Offers(e: Engine, opts: Options, ing: Ingress, req: Meaning.Request, l: Landing, name: string,
                         port: int)
    requires Succeeds(e, ing, opts)
  {
    FailsExactlyWhen(e, ing, opts);
    var r := Convert(e, ing, opts);
    if IsGRPCBackend(e, ing) then l.AnyCall? && GRPCOffers(r.grpcRoute.value, req.host, name, port)
    else l.At? && Meaning.Candidate(l.path, name, port) in Meaning.RouteCandidates(r.route.value, req)
  }

  /** A GRPCRoute offers every call on its hosts all its backends. */
  ghost predicate GRPCOffers(route: GRPCRoute, host: string, name: string, port: int) {
    && Meaning.Admits(route.hostnames, host)
    && exists r, b :: r in route.rules && b in r.backendRefs && b.name == name && b.port == port
  }

  /** A path of the Ingress that lands there and converts to that Service and port. */
  ghost predicate PathGives(e: Engine, opts: Options, ing: Ingress, p: IngressPath, l: Landing, name: string,
                            port: int) {
    LandingIn(e, ing, p) == l && ConvertBackend(ing, p, opts.resolver) == Ok(ServiceRef(name, port))
  }

  lemma {:induction false} RuleGives(ing: Ingress, paths: seq<IngressPath>, resolver: Option<PortResolver>,
                                     ann: Translated, req: Meaning.Request, m: PathMatch, name: string, port: int)
    ensures Meaning.Candidate(m, name, port) in Meaning.CandidatesOfRules(HTTPRules(ing, paths, resolver, ann), req)
            <==> Meaning.GatewayPathMatches(m, req.path)
                 && exists p :: p in paths && ConvertPath(ing, p).0 == m
                                && ConvertBackend(ing, p, resolver) == Ok(ServiceRef(name, port))
  {
    if paths != [] {
      var init, p := paths[..|paths| - 1], paths[|paths| - 1];
      assert paths == init + [p];
      RuleGives(ing, init, resolver, ann, req, m, name, port);
      if ConvertBackend(ing, p, resolver).Ok? {
        LastRuleGives(ing, init, p, resolver, ann, req, Meaning.Candidate(m, name, port));
        RefOfPath(ing, p, resolver);
      }
    }
  }

  lemma RefOfPath(ing: Ingress, p: IngressPath, resolver: Option<PortResolver>)
    requires ConvertBackend(ing, p, resolver).Ok?
    ensures var b := ConvertBackend(ing, p, resolver).backend; b == ServiceRef(b.name, b.port)
  {
  }

  lemma LastRuleGives(ing: Ingress, init: seq<IngressPath>, p: IngressPath, resolver: Option<PortResolver>,
                      ann: Translated, req: Meaning.Request, c: Meaning.Candidate)
    requires ConvertBackend(ing, p, resolver).Ok?
    ensures var b := ConvertBackend(ing, p, resolver).backend;
            c in Meaning.CandidatesOfRules(HTTPRules(ing, init + [p], resolver, ann), req)
            <==> c in Meaning.CandidatesOfRules(HTTPRules(ing, init, resolver, ann), req)
                 || (Meaning.GatewayPathMatches(ConvertPath(ing, p).0, req.path)
                     && c == Meaning.Candidate(ConvertPath(ing, p).0, b.name, b.port))
  {
    var b := ConvertBackend(ing, p, resolver).backend;
    var before, rule := HTTPRules(ing, init, resolver, ann), HTTPRuleOf(ing, p, b, ann);
    assert (init + [p])[..|init|] == init;
    assert HTTPRules(ing, init + [p], resolver, ann) == before + [rule];
    assert (before + [rule])[..|before|] == before;
    OnlyCandidate(rule, ConvertPath(ing, p).0, b, req);
  }

  lemma OnlyCandidate(rule: HTTPRule, m: PathMatch, b: BackendRef, req: Meaning.Request)
    requires rule.matches == [m] && rule.backendRefs == [b]
    ensures Meaning.RuleCandidates(rule, req)
            == if Meaning.GatewayPathMatches(m, req.path) then [Meaning.Candidate(m, b.name, b.port)] else []
  {
    assert m in rule.matches;
  }

  lemma {:induction false} GRPCRuleGives(ing: Ingress, paths: seq<IngressPath>, resolver: Option<PortResolver>,
                                         name: string, port: int)
    ensures (exists r, b ::
               r in GRPCRules(ing, paths, resolver) && b in r.backendRefs && b.name == name && b.port == port)
            <==> exists p :: p in paths && ConvertBackend(ing, p, resolver) == Ok(ServiceRef(name, port))
  {
    if paths != [] {
      var init, p := paths[..|paths| - 1], paths[|paths| - 1];
      assert paths == init + [p];
      GRPCRuleGives(ing, init, resolver, name, port);
      var before := GRPCRules(ing, init, resolver);
      if ConvertBackend(ing, p, resolver).Ok? {
        RefOfPath(ing, p, resolver);
        var last := GRPCRule([ConvertBackend(ing, p, resolver).backend]);
        assert GRPCRules(ing, paths, resolver) == before + [last];
        assert last in before + [last] && last.backendRefs[0] in last.backendRefs;
        assert forall r | r in before :: r in before + [last];
      }
    }
  }

  /** What a compiled route offers, in terms of the Ingress: each path on every host of its rules. */
  lemma OffersExactlyWhen(e: Engine, opts: Options, ing: Ingress, req: Meaning.Request, l: Landing, name: string,
                          port: int)
    requires Succeeds(e, ing, opts)
    ensures Offers(e, opts, ing, req, l, name, port)
            <==> Takes(HostsOf(ing.rules), req.host) && Reaches(l, req.path)
                 && exists p :: p in PathsOf(ing.rules) && PathGives(e, opts, ing, p, l, name, port)
  {
    FailsExactlyWhen(e, ing, opts);
    if IsGRPCBackend(e, ing) {
      GRPCOffersExactlyWhen(ing, opts, req, name, port);
      forall p | p in PathsOf(ing.rules) && l.AnyCall?
        ensures PathGives(e, opts, ing, p, l, name, port)
                <==> ConvertBackend(ing, p, opts.resolver) == Ok(ServiceRef(name, port))
      {
      }
    } else if l.At? {
      HTTPOffersExactlyWhen(e, ing, opts, req, l.path, name, port);
    }
  }

  lemma HTTPOffersExactlyWhen(e: Engine, ing: Ingress, opts: Options, req: Meaning.Request, m: PathMatch, name: string,
                              port: int)
    requires HTTPResult(e, ing, opts).route.Some?
    ensures Meaning.Candidate(m, name, port) in Meaning.RouteCandidates(HTTPResult(e, ing, opts).route.value, req)
            <==> Takes(HostsOf(ing.rules), req.host) && Meaning.GatewayPathMatches(m, req.path)
                 && exists p :: p in PathsOf(ing.rules) && ConvertPath(ing, p).0 == m
                                && ConvertBackend(ing, p, opts.resolver) == Ok(ServiceRef(name, port))
  {
    RuleGives(ing, PathsOf(ing.rules), opts.resolver, Annotated(e, ing, opts.drop), req, m, name, port);
    AdmitsExactlyWhen(Sorted(HostsOf(ing.rules)), req.host);
  }

  lemma GRPCOffersExactlyWhen(ing: Ingress, opts: Options, req: Meaning.Request, name: string, port: int)
    requires GRPCResult(ing, opts).grpcRoute.Some?
    ensures GRPCOffers(GRPCResult(ing, opts).grpcRoute.value, req.host, name, port)
            <==> Takes(HostsOf(ing.rules), req.host)
                 && exists p ::
                      p in PathsOf(ing.rules) && ConvertBackend(ing, p, opts.resolver) == Ok(ServiceRef(name, port))
  {
    GRPCRuleGives(ing, PathsOf(ing.rules), opts.resolver, name, port);
    AdmitsExactlyWhen(Sorted(HostsOf(ing.rules)), req.host);
  }

  /** By one match, the two compiled routes offer some request different Services or ports. */
  ghost predicate Compete(e: Engine, opts: Options, x: Ingress, y: Ingress)
    requires Succeeds(e, x, opts) && Succeeds(e, y, opts)
  {
    exists req, l, n, a, k, b ::
      Offers(e, opts, x, req, l, n, a) && Offers(e, opts, y, req, l, k, b)
      && (x.key.namespace, n, a) != (y.key.namespace, k, b)
  }

  lemma OwnValueReached(l: Landing) returns (path: string)
    ensures Reaches(l, path)
  {
    if l.At? {
      path := l.path.value;
      Meaning.TrimSlashPrefix(path);
    } else {
      path := "/";
    }
  }

  lemma {:induction false} PathsListed(rules: seq<IngressRule>, p: IngressPath)
    ensures p in PathsOf(rules) <==> exists r :: r in rules && p in r.Paths()
  {
    if rules != [] {
      assert rules == rules[..|rules| - 1] + [rules[|rules| - 1]];
      PathsListed(rules[..|rules| - 1], p);
    }
  }

  lemma LandsAlike(e: Engine, opts: Options, ings: seq<Ingress>, ing: Ingress, r: IngressRule, p: IngressPath,
                   en: Entry)
    requires DistinctKeys(ings) && ing in ings && en.ingress == ing.key
    ensures LandingOf(SettingOf(e, opts, ings), MatchIn(r, p), en) == LandingIn(e, ing, p)
  {
    SettingIsThere(e, opts, ings, ing);
  }

  lemma EntryAt(ings: seq<Ingress>, canaries: set<ObjectKey>, ing: Ingress, r: IngressRule, p: IngressPath)
    returns (i: nat)
    requires ing in ings && ing.key !in canaries && r in ing.rules && p in r.Paths()
    ensures i < |AllEntries(ings, canaries)|
    ensures AllEntries(ings, canaries)[i] == (MatchIn(r, p), Entry(ing.key, SignatureOf(p.backend)))
  {
    var m, en := MatchIn(r, p), Entry(ing.key, SignatureOf(p.backend));
    assert Sends(ing, r, p, m, en.backend) && Lists(ing, m, en.backend);
    EntriesListed(ings, canaries, m, en);
    i :| 0 <= i < |AllEntries(ings, canaries)| && AllEntries(ings, canaries)[i] == (m, en);
  }

  lemma EntryFrom(ings: seq<Ingress>, canaries: set<ObjectKey>, ing: Ingress, i: nat)
    returns (r: IngressRule, p: IngressPath)
    requires DistinctKeys(ings) && ing in ings
    requires i < |AllEntries(ings, canaries)| && AllEntries(ings, canaries)[i].1.ingress == ing.key
    ensures r in ing.rules && p in r.Paths()
    ensures AllEntries(ings, canaries)[i] == (MatchIn(r, p), Entry(ing.key, SignatureOf(p.backend)))
  {
    var x := AllEntries(ings, canaries)[i];
    assert (x.0, x.1) in AllEntries(ings, canaries);
    EntriesListed(ings, canaries, x.0, x.1);
    var y :| y in ings && y.key !in canaries && y.key == ing.key && Lists(y, x.0, x.1.backend);
    SameKeySameIngress(ings, y, ing);
    r, p :| Sends(ing, r, p, x.0, x.1.backend);
  }

  /** An entry of the Ingress for the path: it lands where the path does, with the same destination. */
  lemma EntryForPath(e: Engine, opts: Options, ings: seq<Ingress>, canaries: set<ObjectKey>, ing: Ingress,
                     p: IngressPath, name: string, port: int)
    returns (i: nat)
    requires DistinctKeys(ings) && ing in ings && ing.key !in canaries && p in PathsOf(ing.rules)
    requires ConvertBackend(ing, p, opts.resolver) == Ok(ServiceRef(name, port))
    ensures i < |AllEntries(ings, canaries)|
    ensures var x := AllEntries(ings, canaries)[i];
            && x.1.ingress == ing.key && LandingOf(SettingOf(e, opts, ings), x.0, x.1) == LandingIn(e, ing, p)
            && DestinationOf(x.1, opts.resolver) == Some((ing.key.namespace, name, port))
  {
    PathsListed(ing.rules, p);
    var r :| r in ing.rules && p in r.Paths();
    i := EntryAt(ings, canaries, ing, r, p);
    LandsAlike(e, opts, ings, ing, r, p, AllEntries(ings, canaries)[i].1);
    DestinationOfPath(ing, p, opts.resolver);
  }

  lemma DestinationOfPath(ing: Ingress, p: IngressPath, resolver: Option<PortResolver>)
    ensures DestinationOf(Entry(ing.key, SignatureOf(p.backend)), resolver)
            == match ConvertBackend(ing, p, resolver)
               case Bad(_) => None
               case Ok(b) => Some((ing.key.namespace, b.name, b.port))
  {
  }

  lemma PathForEntry(e: Engine, opts: Options, ings: seq<Ingress>, canaries: set<ObjectKey>, ing: Ingress, i: nat)
    returns (p: IngressPath)
    requires DistinctKeys(ings) && ing in ings && ing.key !in canaries
    requires i < |AllEntries(ings, canaries)| && AllEntries(ings, canaries)[i].1.ingress == ing.key
    ensures var x := AllEntries(ings, canaries)[i];
            && p in PathsOf(ing.rules) && LandingOf(SettingOf(e, opts, ings), x.0, x.1) == LandingIn(e, ing, p)
            && x.1.backend == SignatureOf(p.backend)
  {
    var r;
    r, p := EntryFrom(ings, canaries, ing, i);
    PathsListed(ing.rules, p);
    LandsAlike(e, opts, ings, ing, r, p, AllEntries(ings, canaries)[i].1);
  }

  /** Entries of two Ingresses, or of one, collide exactly when their compiled routes compete. */
  lemma CollideExactlyWhen(e: Engine, opts: Options, ings: seq<Ingress>, canaries: set<ObjectKey>, x: Ingress,
                           y: Ingress)
    requires DistinctKeys(ings) && x in ings && y in ings && x.key !in canaries && y.key !in canaries
    requires Succeeds(e, x, opts) && Succeeds(e, y, opts)
    ensures Compete(e, opts, x, y)
            <==> exists i: nat, j: nat :: CollisionOf(e, opts, ings, canaries, x, y, i, j)
  {
    if Compete(e, opts, x, y) {
      var i, j := CompetitionCollides(e, opts, ings, canaries, x, y);
    }
    if i: nat, j: nat :| CollisionOf(e, opts, ings, canaries, x, y, i, j) {
      CollisionCompetes(e, opts, ings, canaries, x, y, i, j);
    }
  }

  ghost predicate CollisionOf(e: Engine, opts: Options, ings: seq<Ingress>, canaries: set<ObjectKey>, x: Ingress,
                              y: Ingress, i: nat, j: nat)
  {
    var entries := AllEntries(ings, canaries);
    Collide(SettingOf(e, opts, ings), entries, i, j) && entries[i].1.ingress == x.key && entries[j].1.ingress == y.key
  }

  lemma CompetitionCollides(e: Engine, opts: Options, ings: seq<Ingress>, canaries: set<ObjectKey>, x: Ingress,
                            y: Ingress)
    returns (i: nat, j: nat)
    requires DistinctKeys(ings) && x in ings && y in ings && x.key !in canaries && y.key !in canaries
    requires Succeeds(e, x, opts) && Succeeds(e, y, opts) && Compete(e, opts, x, y)
    ensures CollisionOf(e, opts, ings, canaries, x, y, i, j)
  {
    var req, l, n, a, k, b :| Offers(e, opts, x, req, l, n, a) && Offers(e, opts, y, req, l, k, b)
      && (x.key.namespace, n, a) != (y.key.namespace, k, b);
    OffersExactlyWhen(e, opts, x, req, l, n, a);
    OffersExactlyWhen(e, opts, y, req, l, k, b);
    var p :| p in PathsOf(x.rules) && PathGives(e, opts, x, p, l, n, a);
    var q :| q in PathsOf(y.rules) && PathGives(e, opts, y, q, l, k, b);
    i := EntryForPath(e, opts, ings, canaries, x, p, n, a);
    j := EntryForPath(e, opts, ings, canaries, y, q, k, b);
    SettingIsThere(e, opts, ings, x);
    SettingIsThere(e, opts, ings, y);
    assert Meet(HostsOf(x.rules), HostsOf(y.rules));
  }

  lemma CollisionCompetes(e: Engine, opts: Options, ings: seq<Ingress>, canaries: set<ObjectKey>, x: Ingress,
                          y: Ingress, i: nat, j: nat)
    requires DistinctKeys(ings) && x in ings && y in ings && x.key !in canaries && y.key !in canaries
    requires Succeeds(e, x, opts) && Succeeds(e, y, opts) && CollisionOf(e, opts, ings, canaries, x, y, i, j)
    ensures Compete(e, opts, x, y)
  {
    var p, n, a := GivingPath(e, opts, ings, canaries, x, i);
    var q, k, b := GivingPath(e, opts, ings, canaries, y, j);
    SettingIsThere(e, opts, ings, x);
    SettingIsThere(e, opts, ings, y);
    PathsCompete(e, opts, x, y, p, q, n, a, k, b);
  }

  /** The path behind an entry with a destination. */
  lemma GivingPath(e: Engine, opts: Options, ings: seq<Ingress>, canaries: set<ObjectKey>, ing: Ingress, i: nat)
    returns (p: IngressPath, name: string, port: int)
    requires DistinctKeys(ings) && ing in ings && ing.key !in canaries
    requires i < |AllEntries(ings, canaries)| && AllEntries(ings, canaries)[i].1.ingress == ing.key
    requires DestinationOf(AllEntries(ings, canaries)[i].1, opts.resolver).Some?
    ensures var x := AllEntries(ings, canaries)[i];
            && p in PathsOf(ing.rules) && LandingIn(e, ing, p) == LandingOf(SettingOf(e, opts, ings), x.0, x.1)
            && PathGives(e, opts, ing, p, LandingIn(e, ing, p), name, port)
            && DestinationOf(x.1, opts.resolver) == Some((ing.key.namespace, name, port))
  {
    p := PathForEntry(e, opts, ings, canaries, ing, i);
    assert AllEntries(ings, canaries)[i].1 == Entry(ing.key, SignatureOf(p.backend));
    DestinationOfPath(ing, p, opts.resolver);
    RefOfPath(ing, p, opts.resolver);
    var b := ConvertBackend(ing, p, opts.resolver).backend;
    name, port := b.name, b.port;
  }

  lemma PathsCompete(e: Engine, opts: Options, x: Ingress, y: Ingress, p: IngressPath, q: IngressPath,
                     n: string, a: int, k: string, b: int)
    requires Succeeds(e, x, opts) && Succeeds(e, y, opts) && Meet(HostsOf(x.rules), HostsOf(y.rules))
    requires p in PathsOf(x.rules) && q in PathsOf(y.rules) && LandingIn(e, x, p) == LandingIn(e, y, q)
    requires PathGives(e, opts, x, p, LandingIn(e, x, p), n, a) && PathGives(e, opts, y, q, LandingIn(e, y, q), k, b)
    requires (x.key.namespace, n, a) != (y.key.namespace, k, b)
    ensures Compete(e, opts, x, y)
  {
    var host :| Takes(HostsOf(x.rules), host) && Takes(HostsOf(y.rules), host);
    var l := LandingIn(e, x, p);
    var path := OwnValueReached(l);
    var req := Meaning.Request(host, path);
    OffersExactlyWhen(e, opts, x, req, l, n, a);
    OffersExactlyWhen(e, opts, y, req, l, k, b);
  }

  /** So where entries are written alike, two compiled routes compete only over a match that is reported. */
  lemma CompetitionIsReported(e: Engine, opts: Options, ings: seq<Ingress>, canaries: set<ObjectKey>,
                              issues: seq<Issue>, x: Ingress, y: Ingress)
    returns (m: Match)
    requires DistinctKeys(ings) && x in ings && y in ings && x.key !in canaries && y.key !in canaries
    requires Succeeds(e, x, opts) && Succeeds(e, y, opts) && Compete(e, opts, x, y)
    requires WrittenAlike(SettingOf(e, opts, ings), AllEntries(ings, canaries))
    requires forall z | z in AllEntries(ings, canaries) :: NoBars(z.0)
    requires var entries := Keyed(AllEntries(ings, canaries));
             && Reported(entries, Group(entries).Keys, issues)
             && forall sig | AmbiguousText(entries, sig) :: sig in Group(entries)
    ensures (exists b :: Lists(x, m, b)) && exists i :: i in issues && i.subject == MatchText(m)
  {
    var i, j := CompetitionCollides(e, opts, ings, canaries, x, y);
    var all := AllEntries(ings, canaries);
    m := all[i].0;
    AlikeIsCovered(SettingOf(e, opts, ings), all);
    assert Ambiguous(all, m) && (m, all[i].1) in all;
    TextAmbiguityIsAmbiguity(all, m);
    EntriesListed(ings, canaries, m, all[i].1);
    var z :| z in ings && z.key !in canaries && z.key == x.key && Lists(z, m, all[i].1.backend);
    SameKeySameIngress(ings, z, x);
  }

  /*** Collisions without a report ***/

  lemma MeetsItself(hosts: set<string>)
    ensures Meet(hosts, hosts)
  {
    var host := "";
    if h :| h in hosts { host := Representative(h); }
    assert Takes(hosts, host);
  }

  function TwoHosts(key: ObjectKey, a: string, b: string, one: string, other: string): Ingress {
    Ingress(key, map[], [IngressRule(a, Some([IngressPath("/", None, ServiceBackend(one, ServicePort(80, "")))])),
                         IngressRule(b, Some([IngressPath("/", None, ServiceBackend(other, ServicePort(80, "")))]))],
            false, 0)
  }

  lemma OnePathEntries(ing: Ingress, r: IngressRule, p: IngressPath)
    ensures RuleEntries(ing, r, [p]) == [(MatchIn(r, p), Entry(ing.key, SignatureOf(p.backend)))]
  {
    assert [p][..0] == [];
  }

  lemma TwoHostsEntries(key: ObjectKey, a: string, b: string, one: string, other: string)
    ensures AllEntries([TwoHosts(key, a, b, one, other)], {})
            == [(Match(a, Prefix, "/"), Entry(key, Numbered(one, 80))),
                (Match(b, Prefix, "/"), Entry(key, Numbered(other, 80)))]
  {
    var ing := TwoHosts(key, a, b, one, other);
    var r, q := ing.rules[0], ing.rules[1];
    var first, second := (Match(a, Prefix, "/"), Entry(key, Numbered(one, 80))),
                         (Match(b, Prefix, "/"), Entry(key, Numbered(other, 80)));
    assert [r][..0] == [] && [r, q][..1] == [r] && [ing][..0] == [];
    OnePathEntries(ing, r, r.Paths()[0]);
    OnePathEntries(ing, q, q.Paths()[0]);
    assert IngressEntries(ing, [r]) == [first];
    assert IngressEntries(ing, [r, q]) == [first, second];
    assert AllEntries([], {}) == [];
    assert AllEntries([ing], {}) == [] + IngressEntries(ing, ing.rules);
  }

  lemma TwoHostsSucceed(e: Engine, opts: Options, ing: Ingress)
    requires exists key, a, b, one, other :: ing == TwoHosts(key, a, b, one, other)
    ensures Succeeds(e, ing, opts) && !IsGRPCBackend(e, ing)
  {
    forall p | p in PathsOf(ing.rules)
      ensures ConvertBackend(ing, p, opts.resolver).Ok?
    {
      PathsListed(ing.rules, p);
    }
    PathsListed(ing.rules, ing.rules[0].Paths()[0]);
    FailsExactlyWhen(e, ing, opts);
    assert |"GRPC"| == 4;
  }

  lemma TwoEntriesCompete(e: Engine, opts: Options, ing: Ingress, entries: seq<(Match, Entry)>)
    requires Succeeds(e, ing, opts) && !IsGRPCBackend(e, ing) && entries == AllEntries([ing], {}) && |entries| == 2
    requires forall x | x in entries :: x.1.ingress == ing.key && x.0.pathType.Prefix? && x.0.path == "/"
    requires forall x | x in entries :: x.1.backend.Numbered? && x.1.backend.number == 80
    requires entries[0].1.backend != entries[1].1.backend
    ensures Compete(e, opts, ing, ing)
  {
    SettingIsThere(e, opts, [ing], ing);
    MeetsItself(HostsOf(ing.rules));
    assert entries[0] in entries && entries[1] in entries;
    CollisionCompetes(e, opts, [ing], {}, ing, ing, 0, 1);
  }

  /** One Ingress sending "/" to one Service on one host and to another on a second host: its compiled
      route offers both on both, and nothing is reported. */
  lemma TwoHostsUnreported(e: Engine, opts: Options, key: ObjectKey, a: string, b: string, one: string, other: string)
    requires a != b && one != other
    ensures var ing := TwoHosts(key, a, b, one, other);
            && (forall m :: !Ambiguous(AllEntries([ing], {}), m))
            && Succeeds(e, ing, opts) && Compete(e, opts, ing, ing)
  {
    var ing := TwoHosts(key, a, b, one, other);
    TwoHostsEntries(key, a, b, one, other);
    TwoHostsSucceed(e, opts, ing);
    TwoEntriesCompete(e, opts, ing, AllEntries([ing], {}));
  }

  /** Prefix "/" and an ImplementationSpecific empty path on one host. */
  lemma SpellingUnreported(s: Setting, one: Entry, other: Entry, host: string)
    requires !s.grpc(one.ingress) && !s.grpc(other.ingress) && Meet(s.hosts(one.ingress), s.hosts(other.ingress))
    requires DestinationOf(one, s.resolver).Some? && DestinationOf(other, s.resolver).Some?
    requires DestinationOf(one, s.resolver) != DestinationOf(other, s.resolver)
    ensures !Covers(s, [(Match(host, Prefix, "/"), one), (Match(host, ImplementationSpecific, ""), other)])
  {
    var entries := [(Match(host, Prefix, "/"), one), (Match(host, ImplementationSpecific, ""), other)];
    assert !LooksLikeRegex("/");
    assert PathMatchOf(Prefix, "/") == PathMatch(MatchPathPrefix, "/") == PathMatchOf(ImplementationSpecific, "");
    assert Collide(s, entries, 0, 1);
  }

  /** The same match to Services of one name in two namespaces. */
  lemma NamespacesUnreported(s: Setting, one: Entry, other: Entry, m: Match)
    requires s.grpc(one.ingress) == s.grpc(other.ingress) && Meet(s.hosts(one.ingress), s.hosts(other.ingress))
    requires one.backend == other.backend && one.ingress.namespace != other.ingress.namespace
    requires DestinationOf(one, s.resolver).Some? && DestinationOf(other, s.resolver).Some?
    ensures !Covers(s, [(m, one), (m, other)])
  {
    assert Collide(s, [(m, one), (m, other)], 0, 1);
  }
}
