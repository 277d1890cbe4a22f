/** What dropping an annotation means for a whole conversion. */
module Dropping {
  import opened Text
  import opened Kube
  import opened Annotations
  import opened Conversion

  /** On every Ingress the drop list acts as if the dropped annotations were not there. */
  ghost predicate DroppingIgnores(e: Engine, opts: Options) {
    forall ing :: Convert(e, ing, opts) == Convert(e, Without(ing, opts.drop), opts.(drop := []))
  }

  predicate DropsNoProtocol(e: Engine, drop: seq<string>) {
    forall k | k in e.grpcProtocolKeys :: k !in drop
  }

  lemma {:induction false} OnlyTheKeyMatters(ing: Ingress, other: Ingress, paths: seq<IngressPath>,
                                             resolver: Option<PortResolver>, ann: Translated)
    requires ing.key == other.key
    ensures HTTPRules(ing, paths, resolver, ann) == HTTPRules(other, paths, resolver, ann)
    ensures HTTPIssues(ing, paths, resolver) == HTTPIssues(other, paths, resolver)
    ensures GRPCRules(ing, paths, resolver) == GRPCRules(other, paths, resolver)
    ensures GRPCIssues(ing, paths, resolver) == GRPCIssues(other, paths, resolver)
  {
    if paths != [] {
      OnlyTheKeyMatters(ing, other, paths[..|paths| - 1], resolver, ann);
    }
  }

  lemma SameProtocol(e: Engine, ing: Ingress, drop: seq<string>)
    requires DropsNoProtocol(e, drop)
    ensures IsGRPCBackend(e, ing) <==> IsGRPCBackend(e, Without(ing, drop))
  {
    forall k | k in e.grpcProtocolKeys
      ensures Lookup(ing.annotations, k) == Lookup(Without(ing, drop).annotations, k)
    {
    }
  }

  lemma IgnoredOn(e: Engine, ing: Ingress, opts: Options)
    requires DropsNoContext(e, opts.drop) && DropsNoProtocol(e, opts.drop)
    ensures Convert(e, ing, opts) == Convert(e, Without(ing, opts.drop), opts.(drop := []))
  {
    SameProtocol(e, ing, opts.drop);
    DropIsDeletion(e, ing, opts.drop);
    SameHTTPResult(e, ing, Without(ing, opts.drop), opts, opts.(drop := []));
    SameGRPCResult(ing, Without(ing, opts.drop), opts, opts.(drop := []));
  }

  lemma {:induction false} SameHTTPResult(e: Engine, ing: Ingress, rest: Ingress, opts: Options, other: Options)
    requires rest == ing.(annotations := rest.annotations) && other == opts.(drop := other.drop)
    requires Annotated(e, ing, opts.drop) == Annotated(e, rest, other.drop)
    ensures HTTPResult(e, ing, opts) == HTTPResult(e, rest, other)
  {
    SameHTTPResultWith(ing, rest, opts, other, Annotated(e, ing, opts.drop));
  }

  lemma {:induction false} SameHTTPResultWith(ing: Ingress, rest: Ingress, opts: Options, other: Options,
                                              ann: Translated)
    requires rest == ing.(annotations := rest.annotations) && other == opts.(drop := other.drop)
    ensures HTTPResultWith(ing, opts, ann) == HTTPResultWith(rest, other, ann)
  {
    OnlyTheKeyMatters(ing, rest, PathsOf(ing.rules), opts.resolver, ann);
  }

  lemma {:induction false} SameGRPCResult(ing: Ingress, rest: Ingress, opts: Options, other: Options)
    requires rest == ing.(annotations := rest.annotations) && other == opts.(drop := other.drop)
    ensures GRPCResult(ing, opts) == GRPCResult(rest, other)
  {
    OnlyTheKeyMatters(ing, rest, PathsOf(ing.rules), opts.resolver, Translated([], None, []));
  }

  /** An Ingress with one path that converts. */
  predicate OnePath(ing: Ingress, p: IngressPath) {
    ing.rules == [IngressRule("", Some([p]))] && p.backend.ServiceBackend? && p.backend.port.number != 0
  }

  lemma OnePathConverts(ing: Ingress, p: IngressPath, resolver: Option<PortResolver>, ann: Translated)
    requires OnePath(ing, p)
    ensures HTTPRules(ing, PathsOf(ing.rules), resolver, ann)
            == [HTTPRuleOf(ing, p, ServiceRef(p.backend.name, p.backend.port.number), ann)]
    ensures |GRPCRules(ing, PathsOf(ing.rules), resolver)| == 1
  {
    OneRulePaths(ing.rules[0]);
    OnePathRules(ing, p, resolver, ann);
  }

  /** Different filters or sessions show in the route. */
  lemma RoutesDiffer(e: Engine, ing: Ingress, rest: Ingress, opts: Options, other: Options, p: IngressPath)
    requires OnePath(ing, p) && OnePath(rest, p)
    requires other.resolver == opts.resolver
    requires !IsGRPCBackend(e, ing) && !IsGRPCBackend(e, rest)
    requires var a, b := Annotated(e, ing, opts.drop), Annotated(e, rest, other.drop);
             a.filters != b.filters || SessionOf(a.effect) != SessionOf(b.effect)
    ensures Convert(e, ing, opts).route != Convert(e, rest, other).route
  {
    var a, b := Annotated(e, ing, opts.drop), Annotated(e, rest, other.drop);
    OnePathConverts(ing, p, opts.resolver, a);
    OnePathConverts(rest, p, opts.resolver, b);
    var ref := ServiceRef(p.backend.name, p.backend.port.number);
    FirstRule(e, ing, opts, HTTPRuleOf(ing, p, ref, a));
    FirstRule(e, rest, other, HTTPRuleOf(rest, p, ref, b));
  }

  lemma FirstRule(e: Engine, ing: Ingress, opts: Options, r: HTTPRule)
    requires !IsGRPCBackend(e, ing)
    requires HTTPRules(ing, PathsOf(ing.rules), opts.resolver, Annotated(e, ing, opts.drop)) == [r]
    ensures Convert(e, ing, opts).route.Some? && Convert(e, ing, opts).route.value.rules == [r]
  {
  }

  predicate OrdinaryWords(all: map<string, string>) {
    forall k | k in all :: all[k] in ["true", "5", "10", "name", "cookie"]
  }

  lemma OrdinaryIsHTTP(e: Engine, ing: Ingress)
    requires OrdinaryWords(ing.annotations)
    ensures !IsGRPCBackend(e, ing)
  {
    forall k | k in e.grpcProtocolKeys
      ensures !EqualFold(Lookup(ing.annotations, k), "GRPC")
    {
      NoGRPCWord(Lookup(ing.annotations, k));
    }
  }

  lemma NoGRPCWord(v: string)
    requires v in ["", "true", "5", "10", "name", "cookie"]
    ensures !EqualFold(v, "GRPC")
  {
    assert Upper('t') == 'T' && Upper('n') == 'N' && Upper('G') == 'G';
    assert "true"[0] == 't' && "name"[0] == 'n' && "GRPC"[0] == 'G';
  }

  /** An Ingress that converts, with and without its dropped annotations, but to different routes. */
  ghost predicate Shows(e: Engine, opts: Options, ing: Ingress) {
    var a, b := Convert(e, ing, opts), Convert(e, Without(ing, opts.drop), opts.(drop := []));
    !HasError(a.issues) && !HasError(b.issues) && (a.route != b.route || a.grpcRoute != b.grpcRoute)
  }

  lemma OnePathSucceeds(e: Engine, ing: Ingress, opts: Options, p: IngressPath)
    requires OnePath(ing, p)
    ensures !HasError(Convert(e, ing, opts).issues)
  {
    OneRulePaths(ing.rules[0]);
    assert p in [p];
    FailsExactlyWhen(e, ing, opts);
  }

  const PLAIN := IngressPath("/", None, ServiceBackend("s", ServicePort(80, "")))

  lemma ContextShows(e: Engine, opts: Options, k: string, d: string) returns (ing: Ingress)
    requires k in e.translators && k !in opts.drop && d in opts.drop && d in Reads(e.translators[k])
    ensures Shows(e, opts, ing)
  {
    ing := RevealingIngress(e.translators[k], k, d, [IngressRule("", Some([PLAIN]))]);
    RevealingShows(e, opts, ing, k, d, PLAIN);
  }

  lemma RevealingShows(e: Engine, opts: Options, ing: Ingress, k: string, d: string, p: IngressPath)
    requires k in e.translators && k !in opts.drop && d in opts.drop && d in Reads(e.translators[k])
    requires Revealing(e.translators[k], ing.annotations, k, d) && OnePath(ing, p)
    ensures Shows(e, opts, ing)
  {
    var rest := Without(ing, opts.drop);
    ReadsDropped(e, ing, opts.drop, k, d);
    OrdinaryIsHTTP(e, ing);
    OrdinaryIsHTTP(e, rest);
    RoutesDiffer(e, ing, rest, opts, opts.(drop := []), p);
    OnePathSucceeds(e, ing, opts, p);
    OnePathSucceeds(e, rest, opts.(drop := []), p);
  }

  /** Whether the backend speaks gRPC is read before any annotation is dropped. */
  lemma ProtocolShows(e: Engine, opts: Options, g: string) returns (ing: Ingress)
    requires g in e.grpcProtocolKeys && g in opts.drop
    ensures Shows(e, opts, ing)
  {
    var p := PLAIN;
    ing := Ingress(ObjectKey(g, g), map[g := "GRPC"], [IngressRule("", Some([p]))], false, 0);
    OnePathConverts(ing, p, opts.resolver, Annotated(e, ing, opts.drop));
    ProtocolIgnoresDrops(e, ing, opts, g);
    OnePathSucceeds(e, ing, opts, p);
    OnePathSucceeds(e, Without(ing, opts.drop), opts.(drop := []), p);
  }

  lemma ProtocolIgnoresDrops(e: Engine, ing: Ingress, opts: Options, g: string)
    requires g in e.grpcProtocolKeys && g in opts.drop
    requires ing.annotations == map[g := "GRPC"] && GRPCRules(ing, PathsOf(ing.rules), opts.resolver) != []
    ensures Convert(e, ing, opts).grpcRoute.Some?
    ensures Convert(e, Without(ing, opts.drop), opts.(drop := [])).grpcRoute.None?
  {
    assert EqualFold(Lookup(ing.annotations, g), "GRPC");
    assert Without(ing, opts.drop).annotations == map[];
    OrdinaryIsHTTP(e, Without(ing, opts.drop));
  }

  /** If the list holds an annotation that matters elsewhere, some Ingress shows it. */
  lemma DroppingShows(e: Engine, opts: Options) returns (ing: Ingress)
    requires !DropsNoContext(e, opts.drop) || !DropsNoProtocol(e, opts.drop)
    ensures Shows(e, opts, ing)
  {
    if !DropsNoContext(e, opts.drop) {
      var k, d :| k in e.translators && k !in opts.drop && d in opts.drop && d in Reads(e.translators[k]);
      ing := ContextShows(e, opts, k, d);
    } else {
      var g :| g in e.grpcProtocolKeys && g in opts.drop;
      ing := ProtocolShows(e, opts, g);
    }
  }

  /** A drop list is documented to make a conversion ignore its annotations entirely. A single conversion
      does, on every Ingress, exactly when it holds neither an annotation that an undropped one's translator reads nor
      one that marks the backend as gRPC. */
  lemma DroppingIgnoresExactlyWhen(e: Engine, opts: Options)
    ensures DroppingIgnores(e, opts) <==> DropsNoContext(e, opts.drop) && DropsNoProtocol(e, opts.drop)
  {
    if DropsNoContext(e, opts.drop) && DropsNoProtocol(e, opts.drop) {
      forall ing ensures Convert(e, ing, opts) == Convert(e, Without(ing, opts.drop), opts.(drop := [])) {
        IgnoredOn(e, ing, opts);
      }
    } else {
      var ing := DroppingShows(e, opts);
    }
  }

  /** Entries are documented as patterns, but compared for equality: lists that name the same annotations
      of an Ingress convert it alike, whatever else they hold. */
  lemma EntriesAreNamesOnly(e: Engine, ing: Ingress, opts: Options, other: seq<string>)
    requires forall k | k in ing.annotations :: k in opts.drop <==> k in other
    ensures Convert(e, ing, opts) == Convert(e, ing, opts.(drop := other))
  {
    var keys := Sorted(ing.annotations.Keys);
    assert forall k :: k in keys <==> k in Elements(keys);
    SameFold(e, ing, opts.drop, other, keys);
    SameHTTPResult(e, ing, ing, opts, opts.(drop := other));
    SameGRPCResult(ing, ing, opts, opts.(drop := other));
  }

  lemma {:induction false} SameFold(e: Engine, ing: Ingress, drop: seq<string>, other: seq<string>, keys: seq<string>)
    requires forall k | k in keys :: k in drop <==> k in other
    ensures Fold(e, ing, drop, keys) == Fold(e, ing, other, keys)
  {
    if keys != [] {
      SameFold(e, ing, drop, other, keys[..|keys| - 1]);
    }
  }
}
