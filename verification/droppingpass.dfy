/** What dropping annotations means for a whole pass, which pairs canaries before it converts. */
module DroppingPass {
  import opened Text
  import opened Kube
  import opened Annotations
  import opened Conversion
  import opened CanaryPairs
  import opened RouteStore
  import opened Convergence
  import opened Dropping

  function WithoutAll(ings: seq<Ingress>, drop: seq<string>): seq<Ingress> {
    seq(|ings|, i requires 0 <= i < |ings| => Without(ings[i], drop))
  }

  /** Two passes that differ in this alone: one is given the drop list, the other Ingresses that never had
      those annotations. Each pairs the Ingresses it is given. */
  ghost predicate Counterparts(c: Context, d: Context, ings: seq<Ingress>) {
    && DistinctKeys(ings)
    && d == c.(opts := c.opts.(drop := []), paired := d.paired, pairings := d.pairings)
    && IsPairing(Elements(ings), c.paired, c.pairings)
    && IsPairing(Elements(WithoutAll(ings, c.opts.drop)), d.paired, d.pairings)
  }

  /** Passes act on the drop list as if the dropped annotations were not there. */
  ghost predicate PassesIgnore(e: Engine, opts: Options) {
    forall c: Context, d: Context, before: Store, ings: seq<Ingress> |
      c.engine == e && c.opts == opts && Counterparts(c, d, ings) ::
      ProcessAll(PlanOf(c), before, ings) == ProcessAll(PlanOf(d), before, WithoutAll(ings, opts.drop))
  }

  predicate DropsNoCanary(drop: seq<string>) { CANARY !in drop && CANARY_WEIGHT !in drop }

  /*** When no canary annotation is dropped the pairing is the same ***/

  lemma SameMarks(ing: Ingress, drop: seq<string>)
    requires DropsNoCanary(drop)
    ensures IsCanary(Without(ing, drop)) == IsCanary(ing) && CanaryWeight(Without(ing, drop)) == CanaryWeight(ing)
    ensures SoleRouteOf(Without(ing, drop)) == SoleRouteOf(ing) && Without(ing, drop).key == ing.key
  {
    MarksAreLookups(ing, Without(ing, drop), CANARY, CANARY_WEIGHT);
  }

  lemma MarksAreLookups(ing: Ingress, rest: Ingress, canary: string, weight: string)
    requires canary == CANARY && weight == CANARY_WEIGHT
    requires canary in ing.annotations <==> canary in rest.annotations
    requires canary in ing.annotations ==> ing.annotations[canary] == rest.annotations[canary]
    requires weight in ing.annotations <==> weight in rest.annotations
    requires weight in ing.annotations ==> ing.annotations[weight] == rest.annotations[weight]
    ensures IsCanary(rest) == IsCanary(ing) && CanaryWeight(rest) == CanaryWeight(ing)
  {
  }

  lemma Listed(ings: seq<Ingress>, drop: seq<string>, ing: Ingress)
    ensures ing in ings ==> Without(ing, drop) in WithoutAll(ings, drop)
    ensures ing in WithoutAll(ings, drop) ==> exists x :: x in ings && Without(x, drop) == ing
  {
    if ing in ings {
      var i :| 0 <= i < |ings| && ings[i] == ing;
      assert WithoutAll(ings, drop)[i] == Without(ing, drop);
    }
    if ing in WithoutAll(ings, drop) {
      var i :| 0 <= i < |ings| && WithoutAll(ings, drop)[i] == ing;
      assert Without(ings[i], drop) == ing;
    }
  }

  lemma SamePairs(ings: seq<Ingress>, drop: seq<string>, p: Ingress, k: Ingress)
    requires DistinctKeys(ings) && DropsNoCanary(drop) && p in ings && k in ings
    ensures Paired(Elements(ings), p, k)
            <==> Paired(Elements(WithoutAll(ings, drop)), Without(p, drop), Without(k, drop))
  {
    var all, rest := Elements(ings), Elements(WithoutAll(ings, drop));
    forall x | x in ings
      ensures Without(x, drop) in rest && SoleRouteOf(Without(x, drop)) == SoleRouteOf(x)
      ensures Without(x, drop) == Without(p, drop) <==> x == p
      ensures Without(x, drop) == Without(k, drop) <==> x == k
    {
      Listed(ings, drop, x);
      SameMarks(x, drop);
      if x.key == p.key { KeyIdentifies(ings, x, p); }
      if x.key == k.key { KeyIdentifies(ings, x, k); }
    }
    SameMarks(p, drop);
    SameMarks(k, drop);
    forall y | y in rest
      ensures exists x :: x in all && Without(x, drop) == y
    {
      Listed(ings, drop, y);
    }
  }

  /** The pairs of the stripped Ingresses are the stripped pairs. */
  lemma PairsStripped(ings: seq<Ingress>, drop: seq<string>)
    requires DistinctKeys(ings) && DropsNoCanary(drop)
    ensures PairsOf(Elements(WithoutAll(ings, drop)))
            == set x | x in PairsOf(Elements(ings)) :: (Without(x.0, drop), Without(x.1, drop))
  {
    var rest := Elements(WithoutAll(ings, drop));
    forall p, k | p in ings && k in ings
      ensures Paired(Elements(ings), p, k) <==> Paired(rest, Without(p, drop), Without(k, drop))
    {
      SamePairs(ings, drop, p, k);
    }
    forall y | y in PairsOf(rest)
      ensures exists x :: x in PairsOf(Elements(ings)) && (Without(x.0, drop), Without(x.1, drop)) == y
    {
      Listed(ings, drop, y.0);
      Listed(ings, drop, y.1);
      var p :| p in ings && Without(p, drop) == y.0;
      var k :| k in ings && Without(k, drop) == y.1;
      assert (p, k) in PairsOf(Elements(ings));
    }
    forall x | x in PairsOf(Elements(ings))
      ensures (Without(x.0, drop), Without(x.1, drop)) in PairsOf(rest)
    {
      Listed(ings, drop, x.0);
      Listed(ings, drop, x.1);
    }
  }

  lemma SamePairing(c: Context, d: Context, ings: seq<Ingress>)
    requires Counterparts(c, d, ings) && DropsNoCanary(c.opts.drop)
    ensures d.paired == c.paired && d.pairings.Keys == c.pairings.Keys
    ensures forall k | k in c.pairings ::
              d.pairings[k] == c.pairings[k].(ingress := Without(c.pairings[k].ingress, c.opts.drop))
  {
    var drop := c.opts.drop;
    var mine, theirs := PairsOf(Elements(ings)), PairsOf(Elements(WithoutAll(ings, drop)));
    PairsStripped(ings, drop);
    forall x | x in mine
      ensures (Without(x.0, drop), Without(x.1, drop)) in theirs
      ensures PairingOf(Without(x.1, drop)) == PairingOf(x.1).(ingress := Without(x.1, drop))
    {
      SameMarks(x.1, drop);
    }
    KeysStripped(mine, theirs, drop);
    forall k | k in c.pairings
      ensures d.pairings[k] == c.pairings[k].(ingress := Without(c.pairings[k].ingress, drop))
    {
      var x :| x in mine && x.0.key == k;
      assert Without(x.0, drop).key == k;
      assert (Without(x.0, drop), Without(x.1, drop)).0.key in PrimaryKeys(theirs);
    }
  }

  lemma KeysStripped(mine: set<(Ingress, Ingress)>, theirs: set<(Ingress, Ingress)>, drop: seq<string>)
    requires theirs == set x | x in mine :: (Without(x.0, drop), Without(x.1, drop))
    ensures CanaryKeys(theirs) == CanaryKeys(mine) && PrimaryKeys(theirs) == PrimaryKeys(mine)
  {
    forall x | x in mine
      ensures x.0.key in PrimaryKeys(theirs) && x.1.key in CanaryKeys(theirs)
    {
      var y := (Without(x.0, drop), Without(x.1, drop));
      assert y in theirs && y.0.key == x.0.key && y.1.key == x.1.key;
    }
  }

  /*** And so is the pass ***/

  lemma SameFolding(c: Context, d: Context, ings: seq<Ingress>, ing: Ingress)
    requires Counterparts(c, d, ings) && DropsNoCanary(c.opts.drop) && DroppingIgnores(c.engine, c.opts)
    ensures Folds(c, ing) <==> Folds(d, Without(ing, c.opts.drop))
    ensures Folds(c, ing) ==>
              Convert(c.engine, c.pairings[ing.key].ingress, c.opts)
              == Convert(d.engine, d.pairings[ing.key].ingress, d.opts)
              && c.pairings[ing.key].weight == d.pairings[ing.key].weight
  {
    SamePairing(c, d, ings);
    assert Convert(c.engine, ing, c.opts) == Convert(d.engine, Without(ing, c.opts.drop), d.opts);
    if ing.key in c.pairings {
      var canary := c.pairings[ing.key].ingress;
      assert Convert(c.engine, canary, c.opts) == Convert(d.engine, Without(canary, c.opts.drop), d.opts);
    }
  }

  lemma SameWant(c: Context, d: Context, ings: seq<Ingress>, ing: Ingress)
    requires Counterparts(c, d, ings) && DropsNoCanary(c.opts.drop) && DroppingIgnores(c.engine, c.opts)
    ensures PlanOf(c).want(ing) == PlanOf(d).want(Without(ing, c.opts.drop))
  {
    var rest := Without(ing, c.opts.drop);
    SameFolding(c, d, ings, ing);
    WantByParts(c, ing);
    WantByParts(d, rest);
    assert Convert(c.engine, ing, c.opts) == Convert(d.engine, rest, d.opts);
  }

  /** A want in terms of conversions. */
  lemma WantByParts(c: Context, ing: Ingress)
    ensures PlanOf(c).want(ing) == WantFrom(Convert(c.engine, ing, c.opts), Folds(c, ing),
              if Folds(c, ing) then Some(Convert(c.engine, c.pairings[ing.key].ingress, c.opts)) else None,
              if Folds(c, ing) then c.pairings[ing.key].weight else 0)
  {
    assert PlanOf(c).want(ing) == WantOf(c, ing);
  }

  ghost function WantFrom(r: Result, folds: bool, canary: Option<Result>, weight: int): Option<Want> {
    if HasError(r.issues) then None
    else if r.grpcRoute.Some? then Some(Want(GRPCSpec(r.grpcRoute.value), folds))
    else if r.route.None? then None
    else if canary.Some? && canary.value.route.Some? then
      var rules := MergedRules(r.route.value.rules, canary.value.route.value.rules, weight);
      Some(Want(HTTPSpec(r.route.value.(rules := rules)), folds))
    else Some(Want(HTTPSpec(r.route.value), folds))
  }

  lemma {:induction false} SameLoop(p: Plan, q: Plan, before: Store, ings: seq<Ingress>, drop: seq<string>)
    requires q == p.(want := q.want)
    requires forall ing | ing in ings :: p.want(ing) == q.want(Without(ing, drop))
    ensures ProcessAll(p, before, ings) == ProcessAll(q, before, WithoutAll(ings, drop))
  {
    if ings != [] {
      var init, ing := ings[..|ings| - 1], ings[|ings| - 1];
      assert WithoutAll(ings, drop)[..|ings| - 1] == WithoutAll(init, drop);
      SameLoop(p, q, before, init, drop);
      assert SamePlanStep(p, q, ProcessAll(p, before, init), ing, Without(ing, drop));
    }
  }

  ghost predicate SamePlanStep(p: Plan, q: Plan, acc: Acc, ing: Ingress, rest: Ingress) {
    ProcessOne(p, acc, ing) == ProcessOne(q, acc, rest)
  }

  lemma PassIgnored(c: Context, d: Context, before: Store, ings: seq<Ingress>)
    requires Counterparts(c, d, ings) && DropsNoCanary(c.opts.drop) && DroppingIgnores(c.engine, c.opts)
    ensures ProcessAll(PlanOf(c), before, ings) == ProcessAll(PlanOf(d), before, WithoutAll(ings, c.opts.drop))
  {
    SamePairing(c, d, ings);
    forall ing | ing in ings
      ensures PlanOf(c).want(ing) == PlanOf(d).want(Without(ing, c.opts.drop))
    {
      SameWant(c, d, ings, ing);
    }
    assert PlanOf(d) == PlanOf(c).(want := PlanOf(d).want);
    SameLoop(PlanOf(c), PlanOf(d), before, ings, c.opts.drop);
  }

  /*** Otherwise two passes tell them apart ***/

  lemma SinglePass(p: Plan, ing: Ingress)
    requires p.paired == {} && p.want(ing).Some? && forall id :: !p.fails(id)
    ensures ProcessAll(p, map[], [ing]).applied == map[p.want(ing).value.spec.Id() := p.want(ing).value.spec]
  {
    assert [ing][..0] == [];
    assert ProcessAll(p, map[], []) == Acc(map[], 0, 0, map[], []);
    assert ProcessAll(p, map[], [ing]) == ApplyWant(p, Acc(map[], 0, 0, map[], []), p.want(ing).value);
  }

  lemma NoPairAlone(ing: Ingress)
    ensures PairsOf(Elements([ing])) == {}
    ensures IsPairing(Elements([ing]), {}, map[])
  {
  }

  /** The surroundings of a pass in which nothing is paired and no call fails. */
  function Quiet(e: Engine, opts: Options): Context {
    Context(Migration("", ObjectKey("", ""), ""), e, opts, {}, map[], _ => false, spec => spec)
  }

  lemma UnpairedWant(c: Context, ing: Ingress)
    requires c.pairings == map[] && !HasError(Convert(c.engine, ing, c.opts).issues)
    ensures var r := Convert(c.engine, ing, c.opts);
            PlanOf(c).want(ing) == if r.grpcRoute.Some? then Some(Want(GRPCSpec(r.grpcRoute.value), false))
                                   else Some(Want(HTTPSpec(r.route.value), false))
  {
    FailsExactlyWhen(c.engine, ing, c.opts);
    WantByParts(c, ing);
  }

  lemma ConversionShows(e: Engine, opts: Options, ing: Ingress)
    requires Shows(e, opts, ing)
    ensures !PassesIgnore(e, opts)
  {
    var rest := Without(ing, opts.drop);
    var c, d := Quiet(e, opts), Quiet(e, opts.(drop := []));
    NoPairAlone(ing);
    NoPairAlone(rest);
    assert WithoutAll([ing], opts.drop) == [rest];
    assert Counterparts(c, d, [ing]);
    FailsExactlyWhen(e, ing, opts);
    FailsExactlyWhen(e, rest, opts.(drop := []));
    UnpairedWant(c, ing);
    UnpairedWant(d, rest);
    SinglePass(PlanOf(c), ing);
    SinglePass(PlanOf(d), rest);
    var a, b := PlanOf(c).want(ing).value.spec, PlanOf(d).want(rest).value.spec;
    assert a != b;
    assert map[a.Id() := a] != map[b.Id() := b] by { OneEntry(a.Id(), a, b.Id(), b); }
    LoopsTellApart(c, d, map[], [ing]);
  }

  lemma OneEntry<K, V>(k: K, v: V, j: K, w: V)
    requires v != w
    ensures map[k := v] != map[j := w]
  {
    assert map[k := v][k] == v && k in map[k := v];
    assert k in map[j := w] ==> map[j := w][k] == w;
  }

  const STABLE := Ingress(ObjectKey("n", "p"), map[], [IngressRule("", Some([PLAIN]))], false, 0)
  const TRIAL := Ingress(ObjectKey("n", "c"), map[CANARY := "true", CANARY_WEIGHT := "10"],
                         [IngressRule("", Some([PLAIN]))], false, 0)

  lemma TrialIsPaired()
    ensures PairsOf(Elements([STABLE, TRIAL])) == {(STABLE, TRIAL)}
  {
    assert |CANARY| != |CANARY_WEIGHT|;
    assert Atoi("10") == Some(10) by {
      assert "10"[..1] == "1";
      assert Digits("1") == Some(1);
    }
    assert SoleRouteOf(STABLE) == SoleRouteOf(TRIAL) == Some(SoleRoute("n", "", "/"));
    assert IsCanary(TRIAL) && !IsCanary(STABLE) && CanaryWeight(TRIAL) == Some(10);
    assert Paired(Elements([STABLE, TRIAL]), STABLE, TRIAL);
  }

  lemma StrippedTrialIsUnpaired(drop: seq<string>)
    requires !DropsNoCanary(drop)
    ensures PairsOf(Elements([Without(STABLE, drop), Without(TRIAL, drop)])) == {}
  {
    assert CANARY !in Without(STABLE, drop).annotations;
    assert CANARY !in Without(TRIAL, drop).annotations || CANARY_WEIGHT !in Without(TRIAL, drop).annotations;
  }

  /** Without pairs and failures an Ingress that converts is applied. */
  lemma UnpairedIsApplied(d: Context, ings: seq<Ingress>, ing: Ingress)
    requires d.paired == {} && d.pairings == map[] && forall id :: !d.fails(id)
    requires DistinctKeys(ings) && ing in ings && !HasError(Convert(d.engine, ing, d.opts).issues)
    ensures ing.key in DesiredKeys(ProcessAll(PlanOf(d), map[], ings))
  {
    UnpairedWant(d, ing);
    WantedIsApplied(PlanOf(d), ings, ing);
  }

  lemma WantedIsApplied(p: Plan, ings: seq<Ingress>, ing: Ingress)
    requires DistinctKeys(ings) && p.KeepsKeys() && p.paired == {} && forall id :: !p.fails(id)
    requires ing in ings && p.want(ing).Some?
    ensures ing.key in DesiredKeys(ProcessAll(p, map[], ings))
  {
    var spec := p.want(ing).value.spec;
    assert Wants(p, ing, spec) && Applies(p, map[], ings, spec);
    AppliedIds(p, map[], ings, spec.Id());
  }

  lemma PairedIsSkipped(p: Plan, before: Store, ings: seq<Ingress>, ing: Ingress)
    requires DistinctKeys(ings) && p.KeepsKeys() && ing.key in p.paired
    ensures ing.key !in DesiredKeys(ProcessAll(p, before, ings))
  {
    PassInvariant(p, before, ings);
    var acc := ProcessAll(p, before, ings);
    forall id | id in acc.applied
      ensures id.key != ing.key
    {
      AppliedIds(p, before, ings, id);
      var spec: RouteSpec :| Applies(p, before, ings, spec) && spec.Id() == id;
      var x :| x in ings && Wants(p, x, spec);
    }
  }

  lemma TrialContexts(e: Engine, opts: Options) returns (c: Context, d: Context)
    requires !DropsNoCanary(opts.drop)
    ensures c.engine == e && c.opts == opts && c.paired == {TRIAL.key}
    ensures d.paired == {} && d.pairings == map[] && forall id :: !d.fails(id)
    ensures Counterparts(c, d, [STABLE, TRIAL])
  {
    assert WithoutAll([STABLE, TRIAL], opts.drop) == [Without(STABLE, opts.drop), Without(TRIAL, opts.drop)];
    TrialIsPaired();
    StrippedTrialIsUnpaired(opts.drop);
    RecordsOne(STABLE, TRIAL);
    c := Quiet(e, opts).(paired := {TRIAL.key}, pairings := map[STABLE.key := PairingOf(TRIAL)]);
    d := Quiet(e, opts.(drop := []));
  }

  /** An Ingress that one pass skips and the other applies tells them apart. */
  lemma SkippedShows(c: Context, d: Context, ings: seq<Ingress>, i: nat, p: IngressPath)
    requires Counterparts(c, d, ings) && i < |ings| && ings[i].key in c.paired && OnePath(ings[i], p)
    requires d.paired == {} && d.pairings == map[] && forall id :: !d.fails(id)
    ensures !PassesIgnore(c.engine, c.opts)
  {
    var rest := WithoutAll(ings, c.opts.drop);
    assert forall j | 0 <= j < |ings| :: rest[j].key == ings[j].key;
    StrippedIsApplied(d, rest, rest[i], p);
    PairedIsSkipped(PlanOf(c), map[], ings, ings[i]);
    LoopsTellApart(c, d, map[], ings);
  }

  lemma StrippedIsApplied(d: Context, ings: seq<Ingress>, ing: Ingress, p: IngressPath)
    requires d.paired == {} && d.pairings == map[] && forall id :: !d.fails(id)
    requires DistinctKeys(ings) && ing in ings && OnePath(ing, p)
    ensures ing.key in DesiredKeys(ProcessAll(PlanOf(d), map[], ings))
  {
    OnePathSucceeds(d.engine, ing, d.opts, p);
    UnpairedIsApplied(d, ings, ing);
  }

  lemma LoopsTellApart(c: Context, d: Context, before: Store, ings: seq<Ingress>)
    requires Counterparts(c, d, ings)
    requires ProcessAll(PlanOf(c), before, ings) != ProcessAll(PlanOf(d), before, WithoutAll(ings, c.opts.drop))
    ensures !PassesIgnore(c.engine, c.opts)
  {
  }

  lemma CanaryShows(e: Engine, opts: Options)
    requires !DropsNoCanary(opts.drop)
    ensures !PassesIgnore(e, opts)
  {
    var c, d := TrialContexts(e, opts);
    SkippedShows(c, d, [STABLE, TRIAL], 1, PLAIN);
  }

  lemma RecordsOne(p: Ingress, k: Ingress)
    ensures Records({(p, k)}, {k.key}, map[p.key := PairingOf(k)])
  {
    assert (p, k) in {(p, k)};
  }

  /** A pass acts, on every listing and every store, as if the dropped annotations were not there exactly
      when the list holds none that an undropped one's translator reads, none that marks the backend as
      gRPC, and none that pairs canaries. */
  lemma PassesIgnoreExactlyWhen(e: Engine, opts: Options)
    ensures PassesIgnore(e, opts)
            <==> DropsNoContext(e, opts.drop) && DropsNoProtocol(e, opts.drop) && DropsNoCanary(opts.drop)
  {
    DroppingIgnoresExactlyWhen(e, opts);
    if !DropsNoContext(e, opts.drop) || !DropsNoProtocol(e, opts.drop) {
      var ing := DroppingShows(e, opts);
      ConversionShows(e, opts, ing);
    } else if !DropsNoCanary(opts.drop) {
      CanaryShows(e, opts);
    } else {
      forall c: Context, d: Context, before: Store, ings: seq<Ingress> |
        c.engine == e && c.opts == opts && Counterparts(c, d, ings)
        ensures ProcessAll(PlanOf(c), before, ings) == ProcessAll(PlanOf(d), before, WithoutAll(ings, opts.drop))
      {
        PassIgnored(c, d, before, ings);
      }
    }
  }
}
