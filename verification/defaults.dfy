/** What the API server fills in when a route is written, and which conversions already spell it out:
    the condition under which an unchanged Ingress stops being reported as a change. */
module Defaults {
  import opened Text
  import opened Kube
  import opened Annotations
  import opened Conversion
  import opened CanaryPairs
  import opened RouteStore
  import opened Convergence

  function Or<T>(given: Option<T>, default_: T): Option<T> { if given.Some? then given else Some(default_) }

  function DefaultRef(b: BackendRef): BackendRef {
    b.(group := Or(b.group, ""), kind := Or(b.kind, "Service"), weight := Or(b.weight, 1))
  }

  /** An unset cache time is 0, which the encoding omits. */
  function DefaultFilter(f: Filter): Filter {
    match f
    case RequestRedirect(_, _, status) => f.(statusCode := Or(status, 302))
    case Cors(_, _, _, _, _, maxAge) => f.(maxAge := if maxAge == 0 then 5 else maxAge)
    case _ => f
  }

  function DefaultRefs(refs: seq<BackendRef>): seq<BackendRef> {
    seq(|refs|, i requires 0 <= i < |refs| => DefaultRef(refs[i]))
  }

  function DefaultFilters(filters: seq<Filter>): seq<Filter> {
    seq(|filters|, i requires 0 <= i < |filters| => DefaultFilter(filters[i]))
  }

  function DefaultRule(r: HTTPRule): HTTPRule {
    r.(matches := if r.matches == [] then [PathMatch(MatchPathPrefix, "/")] else r.matches,
       backendRefs := DefaultRefs(r.backendRefs), filters := DefaultFilters(r.filters))
  }

  function DefaultRules(rules: seq<HTTPRule>): seq<HTTPRule> {
    seq(|rules|, i requires 0 <= i < |rules| => DefaultRule(rules[i]))
  }

  function DefaultGRPCRules(rules: seq<GRPCRule>): seq<GRPCRule> {
    seq(|rules|, i requires 0 <= i < |rules| => GRPCRule(DefaultRefs(rules[i].backendRefs)))
  }

  function DefaultParent(p: ParentRef): ParentRef {
    p.(group := Or(p.group, GATEWAY_GROUP), kind := Or(p.kind, "Gateway"))
  }

  /** The defaults of the Gateway API for the fields the conversion deals with. */
  function GatewayDefaults(spec: RouteSpec): RouteSpec {
    match spec
    case HTTPSpec(r) => HTTPSpec(r.(parent := DefaultParent(r.parent), rules := DefaultRules(r.rules)))
    case GRPCSpec(r) => GRPCSpec(r.(parent := DefaultParent(r.parent), rules := DefaultGRPCRules(r.rules)))
  }

  /** What conversions write out is what would be filled in. */
  lemma SpelledOutAsDefaulted(name: string, port: int, ns: Option<string>)
    ensures DefaultRef(BackendRef(None, None, name, port, None)) == ServiceRef(name, port)
    ensures DefaultParent(ParentRef(None, None, name, ns))
            == ParentRef(Some("gateway.networking.k8s.io"), Some("Gateway"), name, ns)
  {
  }

  lemma RulesSettle(rules: seq<HTTPRule>)
    ensures DefaultRules(DefaultRules(rules)) == DefaultRules(rules)
  {
    forall i | 0 <= i < |rules|
      ensures DefaultRule(DefaultRule(rules[i])) == DefaultRule(rules[i])
    {
      var r := rules[i];
      assert DefaultRefs(DefaultRefs(r.backendRefs)) == DefaultRefs(r.backendRefs);
      assert DefaultFilters(DefaultFilters(r.filters)) == DefaultFilters(r.filters);
    }
  }

  lemma GRPCRulesSettle(rules: seq<GRPCRule>)
    ensures DefaultGRPCRules(DefaultGRPCRules(rules)) == DefaultGRPCRules(rules)
  {
    forall i | 0 <= i < |rules|
      ensures DefaultRefs(DefaultRefs(rules[i].backendRefs)) == DefaultRefs(rules[i].backendRefs)
    {
    }
  }

  /** Defaults are filled in once and for all. */
  lemma DefaultsSettle(spec: RouteSpec)
    ensures GatewayDefaults(GatewayDefaults(spec)) == GatewayDefaults(spec)
  {
    match spec
    case HTTPSpec(r) => RulesSettle(r.rules);
    case GRPCSpec(r) => GRPCRulesSettle(r.rules);
  }

  /*** Which filters are complete ***/

  predicate SpellsOut(f: Filter) { DefaultFilter(f) == f }

  /** An annotation whose filter leaves a defaulted field out: a TLS redirect has no status code, and
      CORS without a positive max age has no cache time. */
  predicate LeavesOut(e: Engine, ing: Ingress, drop: seq<string>, k: string) {
    && k in ing.annotations && k !in drop && k in e.translators && ing.annotations[k] == "true"
    && (e.translators[k].SSLRedirect?
        || (e.translators[k].CORS? && MaxAge(Lookup(ing.annotations, e.translators[k].siblings.maxAge)) == 0))
  }

  lemma FiltersOfOne(e: Engine, ing: Ingress, drop: seq<string>, k: string)
    requires k in ing.annotations
    ensures (forall f | f in FiltersOf(e, ing, drop, k) :: SpellsOut(f)) <==> !LeavesOut(e, ing, drop, k)
  {
    var filters := FiltersOf(e, ing, drop, k);
    if k in e.translators && k !in drop && filters != [] {
      assert filters[0] in filters && filters == [filters[0]];
    }
  }

  lemma {:induction false} FiltersOfAll(e: Engine, ing: Ingress, drop: seq<string>, keys: seq<string>)
    requires forall k | k in keys :: k in ing.annotations
    ensures (forall f | f in Fold(e, ing, drop, keys).filters :: SpellsOut(f))
            <==> forall k | k in keys :: !LeavesOut(e, ing, drop, k)
  {
    if keys != [] {
      var init, k := keys[..|keys| - 1], keys[|keys| - 1];
      assert keys == init + [k];
      FiltersOfAll(e, ing, drop, init);
      FiltersOfOne(e, ing, drop, k);
      AllOfBoth(Fold(e, ing, drop, init).filters, FiltersOf(e, ing, drop, k));
    }
  }

  lemma AllOfBoth(a: seq<Filter>, b: seq<Filter>)
    ensures (forall f | f in a + b :: SpellsOut(f))
            <==> (forall f | f in a :: SpellsOut(f)) && (forall f | f in b :: SpellsOut(f))
  {
    assert forall f :: f in a + b <==> f in a || f in b;
  }

  /** The annotations of an Ingress leave nothing to be filled in. */
  predicate Complete(e: Engine, ing: Ingress, drop: seq<string>) {
    forall k | k in ing.annotations :: !LeavesOut(e, ing, drop, k)
  }

  lemma AnnotationsComplete(e: Engine, ing: Ingress, drop: seq<string>)
    ensures (forall f | f in Annotated(e, ing, drop).filters :: SpellsOut(f)) <==> Complete(e, ing, drop)
  {
    var keys := Sorted(ing.annotations.Keys);
    assert forall k :: k in keys <==> k in Elements(keys);
    FiltersOfAll(e, ing, drop, keys);
  }

  /*** Which routes are complete ***/

  predicate RefComplete(b: BackendRef) { b.group.Some? && b.kind.Some? && b.weight.Some? }

  /** Everything but the filters is spelled out, and the filters are these. */
  ghost predicate CompleteBut(r: HTTPRule, filters: seq<Filter>) {
    r.matches != [] && (forall b | b in r.backendRefs :: RefComplete(b)) && r.filters == filters
  }

  lemma RuleVerbatim(r: HTTPRule, filters: seq<Filter>)
    requires CompleteBut(r, filters)
    ensures DefaultRule(r) == r <==> forall f | f in filters :: SpellsOut(f)
  {
    assert DefaultRefs(r.backendRefs) == r.backendRefs by {
      forall i | 0 <= i < |r.backendRefs| ensures DefaultRef(r.backendRefs[i]) == r.backendRefs[i] {
        assert r.backendRefs[i] in r.backendRefs;
      }
    }
    if forall f | f in filters :: SpellsOut(f) {
      assert forall i | 0 <= i < |filters| :: filters[i] in filters;
      assert DefaultFilters(filters) == filters;
    } else {
      var i :| 0 <= i < |filters| && !SpellsOut(filters[i]);
      assert DefaultFilters(filters)[i] != filters[i];
    }
  }

  lemma RulesVerbatim(rules: seq<HTTPRule>, filters: seq<Filter>)
    requires rules != [] && forall r | r in rules :: CompleteBut(r, filters)
    ensures DefaultRules(rules) == rules <==> forall f | f in filters :: SpellsOut(f)
  {
    forall i | 0 <= i < |rules|
      ensures DefaultRule(rules[i]) == rules[i] <==> forall f | f in filters :: SpellsOut(f)
    {
      assert rules[i] in rules;
      RuleVerbatim(rules[i], filters);
    }
    assert DefaultRules(rules)[0] == DefaultRule(rules[0]);
  }

  lemma {:induction false} CompiledRules(ing: Ingress, paths: seq<IngressPath>, resolver: Option<PortResolver>,
                                         ann: Translated)
    ensures forall r | r in HTTPRules(ing, paths, resolver, ann) :: CompleteBut(r, ann.filters)
  {
    if paths != [] {
      CompiledRules(ing, paths[..|paths| - 1], resolver, ann);
    }
  }

  lemma {:induction false} CompiledGRPCRules(ing: Ingress, paths: seq<IngressPath>, resolver: Option<PortResolver>)
    ensures forall r | r in GRPCRules(ing, paths, resolver) :: forall b | b in r.backendRefs :: RefComplete(b)
  {
    if paths != [] {
      CompiledGRPCRules(ing, paths[..|paths| - 1], resolver);
    }
  }

  lemma MergedRulesComplete(mine: seq<HTTPRule>, theirs: seq<HTTPRule>, weight: int, filters: seq<Filter>,
                            other: seq<Filter>)
    requires forall r | r in mine :: CompleteBut(r, filters)
    requires forall r | r in theirs :: CompleteBut(r, other)
    ensures forall r | r in MergedRules(mine, theirs, weight) :: CompleteBut(r, filters)
  {
    if theirs != [] && theirs[0].backendRefs != [] {
      assert theirs[0] in theirs && RefComplete(theirs[0].backendRefs[0]);
      forall i | 0 <= i < |mine|
        ensures CompleteBut(MergedRule(mine[i], theirs[0].backendRefs[0], weight), filters)
      {
        assert mine[i] in mine;
        MergedRuleComplete(mine[i], theirs[0].backendRefs[0], weight, filters);
      }
    }
  }

  lemma MergedRuleComplete(r: HTTPRule, canary: BackendRef, weight: int, filters: seq<Filter>)
    requires CompleteBut(r, filters) && RefComplete(canary)
    ensures CompleteBut(MergedRule(r, canary, weight), filters)
  {
    forall b | b in Reweighted(r.backendRefs, 100 - weight)
      ensures RefComplete(b)
    {
      var i :| 0 <= i < |r.backendRefs| && b == WithWeight(r.backendRefs[i], 100 - weight);
      assert r.backendRefs[i] in r.backendRefs;
    }
  }

  lemma GRPCVerbatim(rules: seq<GRPCRule>)
    requires forall r | r in rules :: forall b | b in r.backendRefs :: RefComplete(b)
    ensures DefaultGRPCRules(rules) == rules
  {
    forall i | 0 <= i < |rules|
      ensures DefaultRefs(rules[i].backendRefs) == rules[i].backendRefs
    {
      assert rules[i] in rules;
      forall j | 0 <= j < |rules[i].backendRefs|
        ensures DefaultRef(rules[i].backendRefs[j]) == rules[i].backendRefs[j]
      {
        assert rules[i].backendRefs[j] in rules[i].backendRefs;
      }
    }
  }

  lemma ConvertedComplete(e: Engine, ing: Ingress, opts: Options)
    requires Convert(e, ing, opts).route.Some?
    ensures var r := Convert(e, ing, opts).route.value;
            && DefaultParent(r.parent) == r.parent && r.rules != []
            && forall rule | rule in r.rules :: CompleteBut(rule, Annotated(e, ing, opts.drop).filters)
  {
    ConvertedRules(e, ing, opts);
    CompiledRules(ing, PathsOf(ing.rules), opts.resolver, Annotated(e, ing, opts.drop));
  }

  lemma ConvertedGRPCComplete(e: Engine, ing: Ingress, opts: Options)
    requires Convert(e, ing, opts).grpcRoute.Some?
    ensures var r := Convert(e, ing, opts).grpcRoute.value;
            DefaultParent(r.parent) == r.parent && DefaultGRPCRules(r.rules) == r.rules
  {
    CompiledGRPCRules(ing, PathsOf(ing.rules), opts.resolver);
    GRPCVerbatim(GRPCRules(ing, PathsOf(ing.rules), opts.resolver));
  }

  /** The route a pass wants is stored verbatim exactly when it is a GRPCRoute or the annotations of its
      Ingress leave nothing to be filled in; a canary folded into it does not matter. */
  lemma WantIsVerbatimExactlyWhen(c: Context, ing: Ingress)
    requires WantOf(c, ing).Some?
    ensures GatewayDefaults(WantOf(c, ing).value.spec) == WantOf(c, ing).value.spec
            <==> IsGRPCBackend(c.engine, ing) || Complete(c.engine, ing, c.opts.drop)
  {
    var filters := Annotated(c.engine, ing, c.opts.drop).filters;
    AnnotationsComplete(c.engine, ing, c.opts.drop);
    var spec := WantOf(c, ing).value.spec;
    KindOfWant(c, ing);
    if spec.GRPCSpec? {
      ConvertedGRPCComplete(c.engine, ing, c.opts);
    } else {
      HTTPWantComplete(c, ing);
      RulesVerbatim(spec.http.rules, filters);
    }
  }

  lemma KindOfWant(c: Context, ing: Ingress)
    requires WantOf(c, ing).Some?
    ensures WantOf(c, ing).value.spec.GRPCSpec? <==> IsGRPCBackend(c.engine, ing)
    ensures WantOf(c, ing).value.spec.GRPCSpec? ==>
              Convert(c.engine, ing, c.opts).grpcRoute == Some(WantOf(c, ing).value.spec.grpc)
  {
  }

  lemma HTTPWantComplete(c: Context, ing: Ingress)
    requires WantOf(c, ing).Some? && WantOf(c, ing).value.spec.HTTPSpec?
    ensures var r := WantOf(c, ing).value.spec.http;
            && DefaultParent(r.parent) == r.parent && r.rules != []
            && forall rule | rule in r.rules :: CompleteBut(rule, Annotated(c.engine, ing, c.opts.drop).filters)
  {
    ConvertedComplete(c.engine, ing, c.opts);
    if Folds(c, ing) {
      var canary := c.pairings[ing.key].ingress;
      ConvertedComplete(c.engine, canary, c.opts);
      MergedRulesComplete(Convert(c.engine, ing, c.opts).route.value.rules,
                          Convert(c.engine, canary, c.opts).route.value.rules,
                          c.pairings[ing.key].weight, Annotated(c.engine, ing, c.opts.drop).filters,
                          Annotated(c.engine, canary, c.opts.drop).filters);
    }
  }

  /** An Ingress that gets an HTTPRoute which the API server completes. */
  ghost predicate Restless(c: Context, before: Store, ing: Ingress) {
    && ing.key !in c.paired && WantOf(c, ing).Some? && !Refused(PlanOf(c), before, WantOf(c, ing).value.spec)
    && !IsGRPCBackend(c.engine, ing) && !Complete(c.engine, ing, c.opts.drop)
  }

  /** Under the Gateway API's defaults, a pass repeated on its own outcome reports nothing exactly when
      no route was contested and no Ingress that gets an HTTPRoute asks for a TLS redirect, or for CORS
      without a max age. Such an Ingress is reported as modified by every pass, although it never is. */
  lemma SecondPassIsQuietExactlyWhen(c: Context, before: Store, ings: seq<Ingress>, after: Store, removed: seq<RouteId>,
                                     again: Store, removedAgain: seq<RouteId>)
    requires c.defaulted == GatewayDefaults && DistinctKeys(ings) && Defaulted(PlanOf(c), before)
    requires IsPass(PlanOf(c), before, ings, after, removed, true)
    requires IsPass(PlanOf(c), after, ings, again, removedAgain, true)
    ensures Reported(PlanOf(c), after, ings, removedAgain) == []
            <==> NothingContested(PlanOf(c), before, ings) && forall ing | ing in ings :: !Restless(c, before, ing)
  {
    var p := PlanOf(c);
    PassIsIdempotentExactlyWhen(p, before, ings, after, removed, again, removedAgain);
    forall ing | ing in ings && ing.key !in c.paired && WantOf(c, ing).Some?
      ensures Wanted(p, ings, WantOf(c, ing).value.spec)
      ensures p.defaulted(WantOf(c, ing).value.spec) == WantOf(c, ing).value.spec
              <==> IsGRPCBackend(c.engine, ing) || Complete(c.engine, ing, c.opts.drop)
    {
      assert Wants(p, ing, WantOf(c, ing).value.spec);
      WantIsVerbatimExactlyWhen(c, ing);
    }
    forall spec: RouteSpec | Applies(p, before, ings, spec)
      ensures exists ing ::
              ing in ings && ing.key !in c.paired && WantOf(c, ing).Some? && WantOf(c, ing).value.spec == spec
    {
      var ing :| ing in ings && Wants(p, ing, spec);
      assert p.want(ing) == WantOf(c, ing);
    }
    forall ing | ing in ings && Restless(c, before, ing)
      ensures Applies(p, before, ings, WantOf(c, ing).value.spec)
    {
    }
  }
}
