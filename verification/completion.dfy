/** What a status that moves traffic, or calls the migration complete, says about the routes. */
module Completion {
  import opened Text
  import opened Kube
  import opened Annotations
  import opened Conversion
  import opened CanaryPairs
  import opened RouteStore
  import opened Convergence
  import opened Accounting
  import opened Rollout
  import Runs

  /** The route wanted for this Ingress is in the store. */
  ghost predicate Carries(p: Plan, before: Store, after: Store, ing: Ingress) {
    && Accepted(p, before, ing)
    && var spec := p.want(ing).value.spec;
       Existing(after, spec.Id()) == Some(p.Outcome(Existing(before, spec.Id()), spec))
  }

  /** No failure is counted exactly when every Ingress that is no paired canary gets its route. */
  lemma {:induction false} NoneFailedExactlyWhen(p: Plan, before: Store, ings: seq<Ingress>)
    requires DistinctKeys(ings) && p.KeepsKeys()
    ensures ProcessAll(p, before, ings).failed >= 0
    ensures ProcessAll(p, before, ings).failed == 0
            <==> forall ing | ing in ings && ing.key !in p.paired :: Accepted(p, before, ing)
  {
    if ings != [] {
      var init, ing := ings[..|ings| - 1], ings[|ings| - 1];
      assert ings == init + [ing];
      NoneFailedExactlyWhen(p, before, init);
      PassInvariant(p, before, init);
      LastIsNew(init, ing);
      FailsUnlessAccepted(p, before, ProcessAll(p, before, init), ing);
    }
  }

  lemma FailsUnlessAccepted(p: Plan, before: Store, acc: Acc, ing: Ingress)
    requires p.KeepsKeys() && StoreInv(p, before, acc) && FreshKey(acc, ing.key)
    ensures ProcessOne(p, acc, ing).failed
            == acc.failed + if ing.key !in p.paired && !Accepted(p, before, ing) then 1 else 0
  {
    if ing.key !in p.paired && p.want(ing).Some? {
      ApplyFresh(p, before, acc, p.want(ing).value);
    }
  }

  /** Applied routes survive the pruning, complete or not. */
  lemma AppliedStays(p: Plan, before: Store, ings: seq<Ingress>, after: Store, removed: seq<RouteId>, complete: bool,
                     ing: Ingress)
    requires DistinctKeys(ings) && p.KeepsKeys() && IsPass(p, before, ings, after, removed, complete)
    requires ing in ings && ing.key !in p.paired && Accepted(p, before, ing)
    ensures Carries(p, before, after, ing)
  {
    PassInvariant(p, before, ings);
    var acc, spec := ProcessAll(p, before, ings), p.want(ing).value.spec;
    assert Wants(p, ing, spec);
    assert acc.applied[spec.Id()] == spec;
    assert spec.Id().key in DesiredKeys(acc);
    assert spec.Id() in removed ==> Orphan(acc.store, p.mig, DesiredKeys(acc), spec.Id());
    assert Existing(acc.store, spec.Id()) == Some(p.Outcome(Existing(before, spec.Id()), spec));
  }

  /** The counters a pass was told are those of its loop. */
  ghost predicate Counted(p: Plan, before: Store, ings: seq<Ingress>, env: Env) {
    var acc := ProcessAll(p, before, ings);
    env.total == |ings| && env.converted == acc.converted && env.failed == acc.failed
  }

  /** A status that gives the Gateway a share means that every selected Ingress that is no paired canary
      has its route. */
  lemma TrafficMeansRoutes(o: Object, env: Env, p: Plan, before: Store, ings: seq<Ingress>, after: Store,
                           removed: seq<RouteId>, complete: bool)
    requires DistinctKeys(ings) && p.KeepsKeys() && IsPass(p, before, ings, after, removed, complete)
    requires Counted(p, before, ings, env) && Pass(o, env).Full? && Pass(o, env).status.percentage > 0
    ensures forall ing | ing in ings && ing.key !in p.paired :: Carries(p, before, after, ing)
  {
    BaseInRange(o, env);
    NoneFailedExactlyWhen(p, before, ings);
    forall ing | ing in ings && ing.key !in p.paired
      ensures Carries(p, before, after, ing)
    {
      AppliedStays(p, before, ings, after, removed, complete, ing);
    }
  }

  /** An Ingress with one path that compiles to an HTTPRoute. */
  predicate Routable(c: Context, ing: Ingress)
    requires SoleRouteOf(ing).Some?
  {
    !IsGRPCBackend(c.engine, ing) && SoleBackend(ing, c.opts).Ok?
  }

  /** Neither Ingress of any pair is marked gRPC, and both their backends convert. */
  ghost predicate EveryPairRoutable(c: Context, all: set<Ingress>) {
    forall p, k | p in all && k in all && Paired(all, p, k) :: Routable(c, p) && Routable(c, k)
  }

  lemma RoutableExactlyWhen(c: Context, ing: Ingress)
    requires SoleRouteOf(ing).Some?
    ensures Convert(c.engine, ing, c.opts).route.Some? && !HasError(Convert(c.engine, ing, c.opts).issues)
            <==> Routable(c, ing)
  {
    SolePath(ing);
    assert forall p :: p in PathsOf(ing.rules) <==> p == SolePathOf(ing);
    FailsExactlyWhen(c.engine, ing, c.opts);
    OneKind(c.engine, ing, c.opts);
  }

  lemma OneKind(e: Engine, ing: Ingress, opts: Options)
    ensures Convert(e, ing, opts).route.Some? ==> !IsGRPCBackend(e, ing)
  {
  }

  lemma FoldedExactlyWhen(c: Context, all: set<Ingress>, p: Ingress, k: Ingress)
    requires IsPairing(all, c.paired, c.pairings) && Paired(all, p, k)
    ensures FoldedInto(PlanOf(c), p) <==> Routable(c, p) && Routable(c, k)
  {
    assert (p, k) in PairsOf(all);
    assert c.pairings[p.key] == PairingOf(k);
    RoutableExactlyWhen(c, p);
    RoutableExactlyWhen(c, k);
    assert PlanOf(c).want(p) == WantOf(c, p);
    FoldsExactlyWhen(c, p);
  }

  lemma FoldsExactlyWhen(c: Context, ing: Ingress)
    ensures (WantOf(c, ing).Some? && WantOf(c, ing).value.folded) <==> Folds(c, ing)
  {
  }

  lemma NoneWaitingExactlyWhen(c: Context, all: set<Ingress>)
    requires IsPairing(all, c.paired, c.pairings)
    ensures WaitingPairs(PlanOf(c), all) == {} <==> EveryPairRoutable(c, all)
  {
    forall p, k | p in all && k in all && Paired(all, p, k)
      ensures (p, k) in WaitingPairs(PlanOf(c), all) <==> !(Routable(c, p) && Routable(c, k))
    {
      FoldedExactlyWhen(c, all, p, k);
    }
  }

  /** Complete is documented to mean that every selected Ingress converted. It does exactly when, in every
      canary pair, neither Ingress is marked gRPC and both backends convert. */
  lemma CompleteMeansAllConvertedExactlyWhen(o: Object, env: Env, c: Context, before: Store, ings: seq<Ingress>)
    requires DistinctKeys(ings) && IsPairing(Elements(ings), c.paired, c.pairings)
    requires Counted(PlanOf(c), before, ings, env) && Pass(o, env).Full? && Pass(o, env).status.phase.Complete?
    ensures env.converted == env.total <==> EveryPairRoutable(c, Elements(ings))
  {
    BaseInRange(o, env);
    assert Pass(o, env).status.percentage > 0;
    ContextFollowsPairing(c, ings);
    PendingIsUnfoldedCanaries(PlanOf(c), before, ings);
    NoneWaitingExactlyWhen(c, Elements(ings));
  }

  /** None of the selected Ingresses got a route, not even a refused one that took a canary in. */
  ghost predicate NothingConverted(p: Plan, before: Store, ings: seq<Ingress>) {
    forall ing | ing in ings && ing.key !in p.paired :: !Accepted(p, before, ing) && !FoldedInto(p, ing)
  }

  lemma NoneConvertedExactlyWhen(p: Plan, before: Store, ings: seq<Ingress>)
    requires DistinctKeys(ings) && p.KeepsKeys()
    ensures ProcessAll(p, before, ings).converted >= 0
    ensures ProcessAll(p, before, ings).converted == 0 <==> NothingConverted(p, before, ings)
  {
    var acc := ProcessAll(p, before, ings);
    LoopCounts(p, before, ings);
    PassInvariant(p, before, ings);
    forall ing | ing in ings && ing.key !in p.paired
      ensures FoldedInto(p, ing) ==> ing in Merging(p, ings)
      ensures Accepted(p, before, ing) ==> p.want(ing).value.spec.Id() in acc.applied
    {
      if Accepted(p, before, ing) { assert Wants(p, ing, p.want(ing).value.spec); }
    }
    assert |acc.applied| == 0 <==> acc.applied == map[];
    assert |Merging(p, ings)| == 0 <==> Merging(p, ings) == {};
    if NothingConverted(p, before, ings) {
      forall id ensures id !in acc.applied {
        AppliedIds(p, before, ings, id);
      }
    }
  }

  /** Every canary is paired with an Ingress that is not. */
  lemma SomeUnpaired(p: Plan, ings: seq<Ingress>) returns (ing: Ingress)
    requires ings != [] && DistinctKeys(ings) && FollowsPairing(p, Elements(ings))
    ensures ing in ings && ing.key !in p.paired
  {
    var all := Elements(ings);
    ing := ings[0];
    if ing.key in p.paired {
      var x :| x in PairsOf(all) && x.1.key == ing.key;
      ing := x.0;
      forall y | y in PairsOf(all)
        ensures y.1.key != x.0.key
      {
        RolesAreExclusive(all, x.0, x.1, y.0, y.1);
        if y.1.key == x.0.key {
          KeyIdentifies(ings, y.1, x.0);
          assert false;
        }
      }
    }
  }

  /** The phase of a full pass over the selected Ingresses: Analyzing when none is selected; Failed when
      none got a route; otherwise RolledBack, Pending, Complete or Canary by what `Runs` says. A refused
      primary that took a canary in counts the canary as converted, so it shows as Canary, not Failed. */
  lemma PhaseOverIngresses(o: Object, env: Env, c: Context, before: Store, ings: seq<Ingress>)
    requires DistinctKeys(ings) && IsPairing(Elements(ings), c.paired, c.pairings)
    requires Runs.ObjectInv(o) && Counted(PlanOf(c), before, ings, env) && Pass(o, env).Full?
    ensures var st, p := Pass(o, env).status, PlanOf(c);
            && (st.phase.Analyzing? <==> ings == [])
            && (st.phase.FailedPhase? <==> ings != [] && NothingConverted(p, before, ings))
            && (st.phase.CanaryPhase? <==>
                  ings != [] && !NothingConverted(p, before, ings) && !Runs.Condemned(o, env) && !Runs.Refuses(o, env)
                  && st.percentage < 100)
            && Find(st.conditions, Ready).Some? && Runs.ReasonFor(st.phase, Find(st.conditions, Ready).value.reason)
  {
    var p := PlanOf(c);
    ContextFollowsPairing(c, ings);
    PendingIsUnfoldedCanaries(p, before, ings);
    Runs.PhaseExactly(o, env);
    NoneConvertedExactlyWhen(p, before, ings);
    NoneFailedExactlyWhen(p, before, ings);
    if ings != [] { var ing := SomeUnpaired(p, ings); }
  }

  /** The status counts what the pass did: the paired canaries that wait are the pending ones, and under
      required approval the plan lists exactly the reported changes. */
  lemma StatusCounts(o: Object, env: Env, c: Context, before: Store, ings: seq<Ingress>, removed: seq<RouteId>)
    requires DistinctKeys(ings) && IsPairing(Elements(ings), c.paired, c.pairings)
    requires Counted(PlanOf(c), before, ings, env) && Pass(o, env).Full?
    requires env.changes == Reported(PlanOf(c), before, ings, removed)
    ensures var st := Pass(o, env).status;
            && st.processed.Some? && st.processed.value.total == |ings|
            && st.processed.value.pending == |WaitingPairs(PlanOf(c), Elements(ings))|
            && st.processed.value.converted + st.processed.value.failed + st.processed.value.pending == |ings|
            && (o.spec.requireApproval ==>
                  st.pendingPlan.Some? && st.pendingPlan.value.changes == Reported(PlanOf(c), before, ings, removed))
  {
    ContextFollowsPairing(c, ings);
    PendingIsUnfoldedCanaries(PlanOf(c), before, ings);
    Runs.FullPassPublishes(o, env);
  }

  /** A pair that can be routed: the pass wants one rule for the primary that sends the canary the weight
      its annotation spells. */
  lemma PassSplits(c: Context, all: set<Ingress>, p: Ingress, k: Ingress, w: int)
    returns (rule: HTTPRule, stable: BackendRef, trial: BackendRef)
    requires IsPairing(all, c.paired, c.pairings) && PairAt(all, p, k, w)
    requires SoleRouteOf(p).Some? && SoleRouteOf(k).Some? && Routable(c, p) && Routable(c, k)
    ensures PlanOf(c).want(p).Some? && PlanOf(c).want(p).value.spec.HTTPSpec?
    ensures SendsWeights(PlanOf(c).want(p).value.spec.http.rules, rule, stable, trial, w)
    ensures k.key in c.paired
    ensures |PathsOf(p.rules)| == 1 && BackendBecomes(p, PathsOf(p.rules)[0], c.opts.resolver, stable)
    ensures |PathsOf(k.rules)| == 1 && BackendBecomes(k, PathsOf(k.rules)[0], c.opts.resolver, trial)
  {
    PairAtExactly(all, p, k, w);
    PairingExactly(all, c.paired, c.pairings);
    RoutableExactlyWhen(c, p);
    RoutableExactlyWhen(c, k);
    var mine, theirs := Convert(c.engine, p, c.opts).route.value, Convert(c.engine, k, c.opts).route.value;
    stable, trial := SplitByTheText(all, p, k, w, c.engine, c.opts, mine, theirs);
    rule := mine.rules[0];
    FoldedWant(c, p, k, w);
  }

  lemma FoldedWant(c: Context, p: Ingress, k: Ingress, w: int)
    requires p.key in c.pairings && c.pairings[p.key] == Pairing(k, w)
    requires Convert(c.engine, p, c.opts).route.Some? && !HasError(Convert(c.engine, p, c.opts).issues)
    requires Convert(c.engine, k, c.opts).route.Some? && !HasError(Convert(c.engine, k, c.opts).issues)
    ensures PlanOf(c).want(p).Some? && PlanOf(c).want(p).value.spec.HTTPSpec?
    ensures PlanOf(c).want(p).value.spec.http.rules
            == MergedRules(Convert(c.engine, p, c.opts).route.value.rules,
                           Convert(c.engine, k, c.opts).route.value.rules, w)
  {
    OneRouteOnly(c.engine, p, c.opts);
    assert PlanOf(c).want(p) == WantOf(c, p);
  }

  /*** A complete migration that carries a canary nowhere ***/

  lemma OneAppliedOneSkipped(p: Plan, one: Ingress, other: Ingress)
    requires one.key !in p.paired && other.key in p.paired && forall id :: !p.fails(id)
    requires p.want(one).Some? && !p.want(one).value.folded
    ensures var acc := ProcessAll(p, map[], [one, other]); acc.converted == 1 && acc.failed == 0
  {
    assert [one, other][..1] == [one] && [one][..0] == [];
    assert ProcessAll(p, map[], []) == Acc(map[], 0, 0, map[], []);
    assert ProcessAll(p, map[], [one]) == ApplyWant(p, Acc(map[], 0, 0, map[], []), p.want(one).value);
    assert ProcessAll(p, map[], [one, other]) == ProcessAll(p, map[], [one]);
  }

  lemma LonePair(primary: Ingress, canary: Ingress)
    requires Paired({primary, canary}, primary, canary)
    ensures PairsOf({primary, canary}) == {(primary, canary)}
  {
  }

  lemma OnlyPair(c: Context, primary: Ingress, canary: Ingress)
    requires Paired({primary, canary}, primary, canary) && IsPairing({primary, canary}, c.paired, c.pairings)
    ensures c.paired == {canary.key}
  {
    LonePair(primary, canary);
  }

  lemma StrayPlan(c: Context, primary: Ingress, canary: Ingress)
    requires primary.key != canary.key && Paired({primary, canary}, primary, canary)
    requires IsPairing({primary, canary}, c.paired, c.pairings)
    requires Routable(c, primary) && !Routable(c, canary)
    ensures PlanOf(c).paired == {canary.key}
    ensures PlanOf(c).want(primary).Some? && !PlanOf(c).want(primary).value.folded
  {
    OnlyPair(c, primary, canary);
    FoldedExactlyWhen(c, {primary, canary}, primary, canary);
    RoutableIsWanted(c, primary);
  }

  lemma StrayCounts(c: Context, primary: Ingress, canary: Ingress)
    requires primary.key != canary.key && Paired({primary, canary}, primary, canary)
    requires IsPairing({primary, canary}, c.paired, c.pairings) && forall id :: !c.fails(id)
    requires Routable(c, primary) && !Routable(c, canary)
    ensures var acc := ProcessAll(PlanOf(c), map[], [primary, canary]); acc.converted == 1 && acc.failed == 0
  {
    StrayPlan(c, primary, canary);
    OneAppliedOneSkipped(PlanOf(c), primary, canary);
  }

  lemma RoutableIsWanted(c: Context, ing: Ingress)
    requires SoleRouteOf(ing).Some? && Routable(c, ing)
    ensures PlanOf(c).want(ing).Some?
  {
    RoutableExactlyWhen(c, ing);
    assert PlanOf(c).want(ing) == WantOf(c, ing);
  }

  lemma ImmediateCompletes(o: Object, env: Env)
    requires o.spec.mode.Immediate? && !o.spec.requireApproval && o.spec.hooks == {} && Pass(o, env).Full?
    requires env.total > 0 && env.converted > 0 && env.failed == 0
    ensures Pass(o, env).status.phase.Complete? && Pass(o, env).status.percentage == 100
    ensures Pass(o, env).status.processed == Some(Processed(env.total, env.converted, 0, env.total - env.converted))
  {
    assert Pass(o, env).traffic.clamped == 100;
  }

  /** Whenever the primary of a pair can be routed and its canary cannot, one is converted, none failed,
      and an immediate migration is Complete at 100 with one Ingress pending. */
  lemma CompleteWithoutTheCanary(c: Context, o: Object, env: Env, primary: Ingress, canary: Ingress)
    requires primary.key != canary.key && Paired({primary, canary}, primary, canary)
    requires IsPairing({primary, canary}, c.paired, c.pairings) && forall id :: !c.fails(id)
    requires Routable(c, primary) && !Routable(c, canary)
    requires Counted(PlanOf(c), map[], [primary, canary], env)
    requires o.spec.mode.Immediate? && !o.spec.requireApproval && o.spec.hooks == {} && Pass(o, env).Full?
    ensures Pass(o, env).status.phase.Complete? && Pass(o, env).status.percentage == 100
    ensures Pass(o, env).status.processed == Some(Processed(2, 1, 0, 1))
  {
    StrayCounts(c, primary, canary);
    ImmediateCompletes(o, env);
  }

  const PRIMARY := Ingress(ObjectKey("n", "p"), map[],
    [IngressRule("h", Some([IngressPath("/", None, ServiceBackend("s", ServicePort(80, "")))]))], false, 0)

  const STRAY := Ingress(ObjectKey("n", "c"), map[CANARY := "true", CANARY_WEIGHT := "10"],
    [IngressRule("h", Some([IngressPath("/", None, ResourceBackend)]))], false, 0)

  /** Such a pair: a canary on a resource backend. */
  lemma StrayPairExists(c: Context)
    ensures PRIMARY.key != STRAY.key && Paired({PRIMARY, STRAY}, PRIMARY, STRAY)
    ensures Routable(c, PRIMARY) && !Routable(c, STRAY)
  {
    assert |CANARY| != |CANARY_WEIGHT|;
    assert Atoi("10") == Some(10) by {
      assert "10"[..1] == "1";
      assert Digits("1") == Some(1);
    }
    assert SoleRouteOf(PRIMARY) == SoleRouteOf(STRAY) == Some(SoleRoute("n", "h", "/"));
    assert IsCanary(STRAY) && !IsCanary(PRIMARY) && CanaryWeight(STRAY) == Some(10);
  }
}
