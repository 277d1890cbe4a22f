/** Which compiled routes meet the Gateway API's rules on filters, backends, timeouts and the number of
    rules and hostnames, and what a refused route does to a migration. */
module Validity {
  import opened Text
  import opened Kube
  import opened Annotations
  import opened Conversion
  import opened CanaryPairs
  import opened RouteStore
  import opened Convergence
  import opened Defaults
  import opened Accounting
  import opened Completion
  import opened Rollout

  datatype FilterType = RedirectType | RewriteType | HeaderType | CorsType

  function TypeOf(f: Filter): FilterType {
    match f
    case RequestRedirect(_, _, _) => RedirectType
    case PrefixReplacement(_) => RewriteType
    case HeaderSet(_, _) => HeaderType
    case Cors(_, _, _, _, _, _) => CorsType
  }

  predicate Has(filters: seq<Filter>, t: FilterType) { exists f | f in filters :: TypeOf(f) == t }

  predicate NoRepeats(filters: seq<Filter>) {
    forall i, j | 0 <= i < j < |filters| :: TypeOf(filters[i]) != TypeOf(filters[j])
  }

  /** A duration has at most five digits. */
  predicate ValidDuration(d: Option<nat>) { d.Some? ==> d.value <= 99_999 }

  /** The attempt on one backend may not take longer than the request, unless that is unlimited. */
  predicate ValidTimeouts(request: Option<nat>, backendRequest: Option<nat>) {
    && ValidDuration(request) && ValidDuration(backendRequest)
    && (request.Some? && backendRequest.Some? && request.value != 0 ==> backendRequest.value <= request.value)
  }

  /** The rules of the reference: no filter twice; no redirect beside backends or beside a rewrite; a
      prefix can be replaced only where exactly one prefix is matched; timeouts as above. */
  predicate ValidRule(r: HTTPRule) {
    && NoRepeats(r.filters)
    && (Has(r.filters, RedirectType) ==> r.backendRefs == [] && !Has(r.filters, RewriteType))
    && (Has(r.filters, RewriteType) ==> |r.matches| == 1 && r.matches[0].kind.MatchPathPrefix?)
    && (r.timeouts.Some? ==> ValidTimeouts(r.timeouts.value.request, r.timeouts.value.backendRequest))
  }

  /** At most 16 rules and 16 hostnames. */
  predicate ValidSpec(spec: RouteSpec) {
    match spec
    case HTTPSpec(r) => |r.rules| <= 16 && |r.hostnames| <= 16 && forall rule | rule in r.rules :: ValidRule(rule)
    case GRPCSpec(r) => |r.rules| <= 16 && |r.hostnames| <= 16
  }

  /*** Filters gathered over a listing of keys ***/

  /** The filters the keys give, one after the other. */
  function Gathered(keys: seq<string>, gives: string -> seq<Filter>): seq<Filter> {
    if keys == [] then [] else Gathered(keys[..|keys| - 1], gives) + gives(keys[|keys| - 1])
  }

  predicate Gives(gives: string -> seq<Filter>, k: string, t: FilterType) { Has(gives(k), t) }

  ghost predicate SomeGives(all: set<string>, gives: string -> seq<Filter>, t: FilterType) {
    exists k :: k in all && Gives(gives, k, t)
  }

  lemma HasEither(a: seq<Filter>, b: seq<Filter>, t: FilterType)
    ensures Has(a + b, t) <==> Has(a, t) || Has(b, t)
  {
    assert forall f :: f in a + b <==> f in a || f in b;
  }

  lemma {:induction false} HasGiver(keys: seq<string>, gives: string -> seq<Filter>, t: FilterType)
    ensures Has(Gathered(keys, gives), t) <==> SomeGives(Elements(keys), gives, t)
  {
    if keys != [] {
      var init, k := keys[..|keys| - 1], keys[|keys| - 1];
      assert keys == init + [k];
      HasGiver(init, gives, t);
      HasEither(Gathered(init, gives), gives(k), t);
      assert Elements(keys) == Elements(init) + {k};
      SomeGivesGrows(Elements(init), gives, k, t);
    }
  }

  lemma SomeGivesGrows(all: set<string>, gives: string -> seq<Filter>, k: string, t: FilterType)
    ensures SomeGives(all + {k}, gives, t) <==> SomeGives(all, gives, t) || Gives(gives, k, t)
  {
    assert k in all + {k};
  }

  lemma NoRepeatsSnoc(before: seq<Filter>, one: seq<Filter>)
    requires |one| <= 1
    ensures NoRepeats(before + one) <==> NoRepeats(before) && (one == [] || !Has(before, TypeOf(one[0])))
  {
    if one != [] {
      if Has(before, TypeOf(one[0])) {
        var i :| 0 <= i < |before| && TypeOf(before[i]) == TypeOf(one[0]);
        assert (before + one)[i] == before[i] && (before + one)[|before|] == one[0];
      } else {
        assert forall i | 0 <= i < |before| :: before[i] in before;
      }
    } else {
      assert before + one == before;
    }
    if NoRepeats(before + one) {
      assert forall i | 0 <= i < |before| :: (before + one)[i] == before[i];
    }
  }

  /** No two keys give filters of one type. */
  ghost predicate NoneTwice(all: set<string>, gives: string -> seq<Filter>) {
    forall j, k, t | j in all && k in all && j != k :: !(Gives(gives, j, t) && Gives(gives, k, t))
  }

  lemma {:induction false} RepeatsExactlyWhen(keys: seq<string>, gives: string -> seq<Filter>)
    requires StrictlySorted(keys) && forall k :: |gives(k)| <= 1
    ensures NoRepeats(Gathered(keys, gives)) <==> NoneTwice(Elements(keys), gives)
  {
    if keys != [] {
      var init, k := keys[..|keys| - 1], keys[|keys| - 1];
      assert keys == init + [k];
      LessIrreflexive(k);
      assert k !in init;
      RepeatsExactlyWhen(init, gives);
      NoRepeatsSnoc(Gathered(init, gives), gives(k));
      assert Elements(keys) == Elements(init) + {k};
      NoneTwiceGrows(init, gives, k);
    }
  }

  lemma NoneTwiceGrows(init: seq<string>, gives: string -> seq<Filter>, k: string)
    requires k !in init && |gives(k)| <= 1
    ensures NoneTwice(Elements(init) + {k}, gives)
            <==> NoneTwice(Elements(init), gives)
                 && (gives(k) == [] || !Has(Gathered(init, gives), TypeOf(gives(k)[0])))
  {
    forall t {
      HasGiver(init, gives, t);
    }
    assert gives(k) != [] ==> gives(k)[0] in gives(k) && Gives(gives, k, TypeOf(gives(k)[0]));
    assert forall t :: Gives(gives, k, t) ==> gives(k) != [] && t == TypeOf(gives(k)[0]);
    assert k in Elements(init) + {k} && forall j | j in init :: j in Elements(init) + {k};
  }

  /*** In terms of annotations ***/

  function GivenBy(e: Engine, ing: Ingress, drop: seq<string>): string -> seq<Filter> {
    k => FiltersOf(e, ing, drop, k)
  }

  lemma {:induction false} FoldGathers(e: Engine, ing: Ingress, drop: seq<string>, keys: seq<string>)
    ensures Fold(e, ing, drop, keys).filters == Gathered(keys, GivenBy(e, ing, drop))
  {
    if keys != [] { FoldGathers(e, ing, drop, keys[..|keys| - 1]); }
  }

  lemma AtMostOneFilter(e: Engine, ing: Ingress, drop: seq<string>, k: string)
    ensures |GivenBy(e, ing, drop)(k)| <= 1
  {
  }

  /** If a value is asked for at all, one that parses is, and those that do have at most five digits. */
  ghost predicate ShortEnough(asked: iset<nat>) {
    && ((exists d :: d in asked) ==> exists d :: d in asked && DurationParses(d))
    && forall d | d in asked && DurationParses(d) :: d <= 99_999
  }

  /** Nothing but 0 is asked for the request, or as much as for any one backend. */
  ghost predicate RequestCovers(requests: iset<nat>, backendRequests: iset<nat>) {
    || (forall r | r in requests && DurationParses(r) :: r == 0)
    || forall b | b in backendRequests && DurationParses(b) ::
         exists r :: r in requests && DurationParses(r) && b <= r
  }

  /** No annotation asks for a redirect, no two for filters of one type, and none for a rewrite if a path
      is to match exactly; and the timeouts asked for are short enough and cover each other. */
  ghost predicate Admissible(e: Engine, ing: Ingress, drop: seq<string>) {
    var gives := GivenBy(e, ing, drop);
    && !SomeGives(ing.annotations.Keys, gives, RedirectType) && NoneTwice(ing.annotations.Keys, gives)
    && (SomeGives(ing.annotations.Keys, gives, RewriteType) ==>
          forall p | p in PathsOf(ing.rules) :: p.pathType != Some(Exact))
    && var requests, backendRequests := Seconds(e, ing, drop, RequestTimeout),
       Seconds(e, ing, drop, BackendRequestTimeout);
       ShortEnough(requests) && ShortEnough(backendRequests) && RequestCovers(requests, backendRequests)
  }

  lemma ShortExactlyWhen(t: Option<nat>, asked: iset<nat>)
    requires IsFinal(t, asked)
    ensures ValidDuration(t) <==> ShortEnough(asked)
  {
  }

  lemma TimeoutsValidExactlyWhen(request: Option<nat>, backendRequest: Option<nat>, requests: iset<nat>,
                                 backendRequests: iset<nat>)
    requires IsFinal(request, requests) && IsFinal(backendRequest, backendRequests)
    ensures ValidTimeouts(request, backendRequest)
            <==> ShortEnough(requests) && ShortEnough(backendRequests) && RequestCovers(requests, backendRequests)
  {
    ShortExactlyWhen(request, requests);
    ShortExactlyWhen(backendRequest, backendRequests);
  }

  lemma FiltersExactly(e: Engine, ing: Ingress, drop: seq<string>)
    ensures var gives := GivenBy(e, ing, drop);
            && (forall t :: Has(Annotated(e, ing, drop).filters, t) <==> SomeGives(ing.annotations.Keys, gives, t))
            && (NoRepeats(Annotated(e, ing, drop).filters) <==> NoneTwice(ing.annotations.Keys, gives))
  {
    FoldGathers(e, ing, drop, Sorted(ing.annotations.Keys));
    forall k ensures |GivenBy(e, ing, drop)(k)| <= 1 {
      AtMostOneFilter(e, ing, drop, k);
    }
    GatheredExactly(Sorted(ing.annotations.Keys), GivenBy(e, ing, drop));
  }

  lemma GatheredExactly(keys: seq<string>, gives: string -> seq<Filter>)
    requires StrictlySorted(keys) && forall k :: |gives(k)| <= 1
    ensures forall t :: Has(Gathered(keys, gives), t) <==> SomeGives(Elements(keys), gives, t)
    ensures NoRepeats(Gathered(keys, gives)) <==> NoneTwice(Elements(keys), gives)
  {
    forall t ensures Has(Gathered(keys, gives), t) <==> SomeGives(Elements(keys), gives, t) {
      HasGiver(keys, gives, t);
    }
    RepeatsExactlyWhen(keys, gives);
  }

  /*** Compiled rules ***/

  function TimeoutsIn(ann: Translated): Option<Timeouts> {
    if ann.effect.Some? then ann.effect.value.timeouts else None
  }

  /** A rule of an HTTP conversion, canary folded in or not: one match, one of the paths, at least one
      backend, and what the annotations contribute. */
  ghost predicate RuleFor(ing: Ingress, r: HTTPRule, ann: Translated, p: IngressPath) {
    && r.filters == ann.filters && r.timeouts == TimeoutsIn(ann) && r.sessionPersistence == SessionOf(ann.effect)
    && r.backendRefs != [] && r.matches == [ConvertPath(ing, p).0]
  }

  lemma ExactMatchOnlyForExact(ing: Ingress, p: IngressPath)
    ensures ConvertPath(ing, p).0.kind.MatchExact? <==> p.pathType == Some(Exact)
  {
  }

  /** What the annotations contribute is valid on any rule with backends, rewrites of exact paths aside. */
  predicate Sound(ann: Translated) {
    && NoRepeats(ann.filters) && !Has(ann.filters, RedirectType)
    && ValidTimeouts(RequestOf(ann.effect), BackendRequestOf(ann.effect))
  }

  lemma RuleValidExactlyWhen(ing: Ingress, r: HTTPRule, ann: Translated, p: IngressPath)
    requires RuleFor(ing, r, ann, p)
    ensures ValidRule(r) <==> Sound(ann) && (Has(ann.filters, RewriteType) ==> p.pathType != Some(Exact))
  {
    ExactMatchOnlyForExact(ing, p);
  }

  /** Rules and paths correspond one to one. */
  ghost predicate RulesFor(ing: Ingress, rules: seq<HTTPRule>, ann: Translated, paths: seq<IngressPath>) {
    |rules| == |paths| && forall i | 0 <= i < |rules| :: RuleFor(ing, rules[i], ann, paths[i])
  }

  lemma RulesValidExactlyWhen(ing: Ingress, rules: seq<HTTPRule>, ann: Translated, paths: seq<IngressPath>)
    requires RulesFor(ing, rules, ann, paths) && rules != []
    ensures (forall r | r in rules :: ValidRule(r))
            <==> Sound(ann) && (Has(ann.filters, RewriteType) ==> forall p | p in paths :: p.pathType != Some(Exact))
  {
    forall i | 0 <= i < |rules|
      ensures ValidRule(rules[i])
              <==> Sound(ann) && (Has(ann.filters, RewriteType) ==> paths[i].pathType != Some(Exact))
      ensures rules[i] in rules && paths[i] in paths
    {
      RuleValidExactlyWhen(ing, rules[i], ann, paths[i]);
    }
    assert ValidRule(rules[0]) ==> Sound(ann);
  }

  lemma {:induction false} CompiledRulesFor(ing: Ingress, paths: seq<IngressPath>, resolver: Option<PortResolver>,
                                            ann: Translated)
    requires AllConvertible(ing, paths, resolver)
    ensures RulesFor(ing, HTTPRules(ing, paths, resolver, ann), ann, paths)
  {
    if paths != [] {
      var init, p := paths[..|paths| - 1], paths[|paths| - 1];
      assert paths == init + [p];
      CompiledRulesFor(ing, init, resolver, ann);
    }
  }

  lemma MergedRulesFor(ing: Ingress, mine: seq<HTTPRule>, theirs: seq<HTTPRule>, weight: int, ann: Translated,
                       paths: seq<IngressPath>)
    requires RulesFor(ing, mine, ann, paths)
    ensures RulesFor(ing, MergedRules(mine, theirs, weight), ann, paths)
  {
  }

  lemma ConvertedRulesFor(e: Engine, ing: Ingress, opts: Options)
    requires Convert(e, ing, opts).route.Some? && !HasError(Convert(e, ing, opts).issues)
    ensures var r := Convert(e, ing, opts).route.value;
            && r.rules != [] && RulesFor(ing, r.rules, Annotated(e, ing, opts.drop), PathsOf(ing.rules))
            && r.hostnames == Sorted(HostsOf(ing.rules))
  {
    FailsExactlyWhen(e, ing, opts);
    ConvertedRules(e, ing, opts);
    CompiledRulesFor(ing, PathsOf(ing.rules), opts.resolver, Annotated(e, ing, opts.drop));
  }

  lemma WantedRulesFor(c: Context, ing: Ingress)
    requires WantOf(c, ing).Some? && WantOf(c, ing).value.spec.HTTPSpec?
    ensures var r := WantOf(c, ing).value.spec.http;
            && r.rules != [] && RulesFor(ing, r.rules, Annotated(c.engine, ing, c.opts.drop), PathsOf(ing.rules))
            && r.hostnames == Sorted(HostsOf(ing.rules))
  {
    ConvertedRulesFor(c.engine, ing, c.opts);
    if Folds(c, ing) {
      MergedRulesFor(ing, Convert(c.engine, ing, c.opts).route.value.rules,
                     Convert(c.engine, c.pairings[ing.key].ingress, c.opts).route.value.rules,
                     c.pairings[ing.key].weight, Annotated(c.engine, ing, c.opts.drop), PathsOf(ing.rules));
    }
  }

  lemma WantedGRPCRules(c: Context, ing: Ingress)
    requires WantOf(c, ing).Some? && WantOf(c, ing).value.spec.GRPCSpec?
    ensures var r := WantOf(c, ing).value.spec.grpc;
            |r.rules| == |PathsOf(ing.rules)| && r.hostnames == Sorted(HostsOf(ing.rules))
  {
    KindOfWant(c, ing);
    GRPCFailsExactlyWhen(ing, c.opts);
    PathsConserved(ing, PathsOf(ing.rules), c.opts.resolver);
    BackendsKept(ing, PathsOf(ing.rules), c.opts.resolver, Translated([], None, []));
  }

  lemma {:induction false} SortedSize(s: seq<string>)
    requires StrictlySorted(s)
    ensures |Elements(s)| == |s|
  {
    if s != [] {
      TailElements(s);
      SortedSize(s[1..]);
      assert s[0] in Elements(s);
    }
  }

  /** At most 16 paths and 16 hosts. */
  ghost predicate SmallEnough(ing: Ingress) { |PathsOf(ing.rules)| <= 16 && |HostsOf(ing.rules)| <= 16 }

  lemma SoundExactlyWhen(e: Engine, ing: Ingress, drop: seq<string>)
    ensures Admissible(e, ing, drop)
            <==> Sound(Annotated(e, ing, drop))
                 && (Has(Annotated(e, ing, drop).filters, RewriteType) ==>
                       forall p | p in PathsOf(ing.rules) :: p.pathType != Some(Exact))
  {
    var eff := Annotated(e, ing, drop).effect;
    FiltersExactly(e, ing, drop);
    TimeoutsFromValues(e, ing, drop);
    TimeoutsValidExactlyWhen(RequestOf(eff), BackendRequestOf(eff), Seconds(e, ing, drop, RequestTimeout),
                             Seconds(e, ing, drop, BackendRequestTimeout));
  }

  /** The route a pass wants is valid exactly when its Ingress has at most 16 paths and 16 hosts and, for an
      HTTPRoute, annotations that ask for no redirect, for no filter twice, for no rewrite of a path that
      is to match exactly, and for timeouts that are short enough and cover each other. */
  lemma WantIsValidExactlyWhen(c: Context, ing: Ingress)
    requires WantOf(c, ing).Some?
    ensures ValidSpec(WantOf(c, ing).value.spec)
            <==> SmallEnough(ing) && (IsGRPCBackend(c.engine, ing) || Admissible(c.engine, ing, c.opts.drop))
  {
    KindOfWant(c, ing);
    SortedSize(Sorted(HostsOf(ing.rules)));
    if WantOf(c, ing).value.spec.HTTPSpec? {
      WantedRulesFor(c, ing);
      SoundExactlyWhen(c.engine, ing, c.opts.drop);
      RulesValidExactlyWhen(ing, WantOf(c, ing).value.spec.http.rules, Annotated(c.engine, ing, c.opts.drop),
                            PathsOf(ing.rules));
    } else {
      WantedGRPCRules(c, ing);
    }
  }

  /*** What an invalid route does to a migration ***/

  /** The API server refuses the invalid routes among those the pass wants. */
  ghost predicate Validates(c: Context, ings: seq<Ingress>) {
    forall ing | ing in ings && WantOf(c, ing).Some? && !ValidSpec(WantOf(c, ing).value.spec) ::
      c.fails(WantOf(c, ing).value.spec.Id())
  }

  /** One selected Ingress with an inadmissible combination, a TLS redirect for instance, keeps the whole
      migration at 0. */
  lemma InadmissibleHoldsTheRollout(o: Object, env: Env, c: Context, before: Store, ings: seq<Ingress>, ing: Ingress)
    requires DistinctKeys(ings) && Validates(c, ings) && ing in ings && ing.key !in c.paired
    requires !SmallEnough(ing) || (!IsGRPCBackend(c.engine, ing) && !Admissible(c.engine, ing, c.opts.drop))
    requires Counted(PlanOf(c), before, ings, env) && Pass(o, env).Full?
    ensures Pass(o, env).status.percentage <= 0
  {
    var p := PlanOf(c);
    assert p.want(ing) == WantOf(c, ing);
    if WantOf(c, ing).Some? { WantIsValidExactlyWhen(c, ing); }
    assert !Accepted(p, before, ing);
    NoneFailedExactlyWhen(p, before, ings);
    BaseInRange(o, env);
  }

  /** Under validation the endless reports of `Defaults` come from CORS alone. */
  lemma OnlyCorsIsRestless(c: Context, before: Store, ings: seq<Ingress>, ing: Ingress)
    requires Validates(c, ings) && ing in ings && Restless(c, before, ing)
    ensures exists k :: LeavesOut(c.engine, ing, c.opts.drop, k) && c.engine.translators[k].CORS?
    ensures forall k | LeavesOut(c.engine, ing, c.opts.drop, k) :: c.engine.translators[k].CORS?
  {
    WantIsValidExactlyWhen(c, ing);
    assert Admissible(c.engine, ing, c.opts.drop);
    forall k | LeavesOut(c.engine, ing, c.opts.drop, k)
      ensures c.engine.translators[k].CORS?
    {
      RedirectContributes(c.engine, ing, c.opts.drop, k);
    }
  }

  lemma RedirectContributes(e: Engine, ing: Ingress, drop: seq<string>, k: string)
    requires LeavesOut(e, ing, drop, k)
    ensures e.translators[k].SSLRedirect? ==> Gives(GivenBy(e, ing, drop), k, RedirectType)
  {
    if e.translators[k].SSLRedirect? {
      var f := RequestRedirect(Some("https"), None, None);
      assert FiltersOf(e, ing, drop, k) == [f] && f in [f];
    }
  }
}
