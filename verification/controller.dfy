/** `Reconcile` as the source writes it: a status copy updated field by field, a route store updated
    call by call. Each method is proved against the pass functions of Rollout and RouteStore. */
module Controller {
  import opened Text
  import opened Kube
  import opened Annotations
  import opened Conversion
  import opened Grouping
  import opened CanaryPairs
  import opened RouteStore
  import opened Convergence
  import opened Accounting
  import opened Completion
  import Overlap
  import opened Schedule
  import opened Health
  import opened Rollout
  import Runs

  /** The mutable copy of the status a pass works on. */
  class StatusObject {
    var phase: Phase
    var percentage: int
    var routing: Option<Routing>
    var processed: Option<Processed>
    var pendingPlan: Option<PendingPlan>
    var rollbackReady: bool
    var rollbackGeneration: int
    var lastHealthCheck: Option<int>
    var nextHealthCheck: Option<int>
    var lastTransition: Option<int>
    var conditions: seq<Condition>

    constructor (s: Status)
      ensures View() == s
    {
      phase, percentage, routing, processed := s.phase, s.percentage, s.routing, s.processed;
      pendingPlan, rollbackReady, rollbackGeneration := s.pendingPlan, s.rollbackReady, s.rollbackGeneration;
      lastHealthCheck, nextHealthCheck, lastTransition := s.lastHealthCheck, s.nextHealthCheck, s.lastTransition;
      conditions := s.conditions;
    }

    function View(): Status
      reads this
    {
      Status(phase, percentage, routing, processed, pendingPlan, rollbackReady, rollbackGeneration,
             lastHealthCheck, nextHealthCheck, lastTransition, conditions)
    }

    /** The index of the first condition of a type, or -1. */
    method FindCondition(typ: ConditionType) returns (i: int)
      ensures -1 <= i < |conditions|
      ensures i >= 0 ==> conditions[i].typ == typ && forall j | 0 <= j < i :: conditions[j].typ != typ
      ensures i == -1 ==> forall c | c in conditions :: c.typ != typ
    {
      for k := 0 to |conditions|
        invariant forall j | 0 <= j < k :: conditions[j].typ != typ
      {
        if conditions[k].typ == typ {
          return k;
        }
      }
      return -1;
    }

    method SetCondition(typ: ConditionType, isTrue: bool, reason: Reason, now: int)
      modifies this`conditions
      ensures conditions == Rollout.SetCondition(old(conditions), typ, isTrue, reason, now)
    {
      var cond := Condition(typ, isTrue, reason, 0, now);
      for i := 0 to |conditions|
        invariant conditions == old(conditions)
        invariant forall j | 0 <= j < i :: conditions[j].typ != typ
      {
        if conditions[i].typ != typ {
          continue;
        }
        if conditions[i].isTrue == isTrue {
          cond := cond.(since := conditions[i].since);
        }
        SetAt(conditions, typ, isTrue, reason, now, i);
        conditions := conditions[i := cond];
        return;
      }
      SetNew(conditions, typ, isTrue, reason, now);
      conditions := conditions + [cond];
    }

    /** Resolves a stage's hook for the object's generation. */
    method RunHook(o: Object, env: Env, stage: Stage, blocking: bool) returns (proceed: bool, called: bool)
      modifies this`conditions
      ensures Rollout.RunHook(o, env, old(conditions), stage, blocking) == HookRun(proceed, conditions, called)
    {
      if stage !in o.spec.hooks {
        return true, false;
      }
      var i := FindCondition(HookCondition(stage));
      FindAt(conditions, HookCondition(stage), i);
      if i >= 0 && conditions[i].observedGeneration == o.generation && conditions[i].isTrue {
        return true, false;
      }
      if !env.wiring.hookCaller {
        return true, false;
      }
      proceed := env.answers(stage);
      var reason := if proceed then Approved else Blocked;
      SetCondition(HookCondition(stage), proceed, reason, env.now);
      i := FindCondition(HookCondition(stage));
      StampAt(conditions, HookCondition(stage), o.generation, i);
      if i >= 0 {
        conditions := conditions[i := conditions[i].(observedGeneration := o.generation)];
      }
      return !blocking || proceed, true;
    }
  }

  lemma {:induction false} SetAt(conds: seq<Condition>, typ: ConditionType, isTrue: bool, reason: Reason, now: int,
                                 i: nat)
    requires i < |conds| && conds[i].typ == typ && forall j | 0 <= j < i :: conds[j].typ != typ
    ensures Rollout.SetCondition(conds, typ, isTrue, reason, now)
            == conds[i := Condition(typ, isTrue, reason, 0, if conds[i].isTrue == isTrue then conds[i].since else now)]
  {
    if i > 0 { SetAt(conds[1..], typ, isTrue, reason, now, i - 1); }
  }

  lemma {:induction false} SetNew(conds: seq<Condition>, typ: ConditionType, isTrue: bool, reason: Reason, now: int)
    requires forall j | 0 <= j < |conds| :: conds[j].typ != typ
    ensures Rollout.SetCondition(conds, typ, isTrue, reason, now) == conds + [Condition(typ, isTrue, reason, 0, now)]
  {
    if conds != [] { SetNew(conds[1..], typ, isTrue, reason, now); }
  }

  lemma {:induction false} FindAt(conds: seq<Condition>, typ: ConditionType, i: int)
    requires -1 <= i < |conds|
    requires i >= 0 ==> conds[i].typ == typ && forall j | 0 <= j < i :: conds[j].typ != typ
    requires i == -1 ==> forall c | c in conds :: c.typ != typ
    ensures Find(conds, typ) == if i >= 0 then Some(conds[i]) else None
  {
    if i > 0 {
      FindAt(conds[1..], typ, i - 1);
    } else if i == -1 {
      FindIsMembership(conds, typ);
    }
  }

  lemma {:induction false} StampAt(conds: seq<Condition>, typ: ConditionType, generation: int, i: int)
    requires -1 <= i < |conds|
    requires i >= 0 ==> conds[i].typ == typ && forall j | 0 <= j < i :: conds[j].typ != typ
    requires i == -1 ==> forall c | c in conds :: c.typ != typ
    ensures Stamp(conds, typ, generation)
            == if i >= 0 then conds[i := conds[i].(observedGeneration := generation)] else conds
  {
    if conds != [] && i != 0 {
      assert conds == [conds[0]] + conds[1..];
      assert conds[0] in conds;
      StampAt(conds[1..], typ, generation, if i > 0 then i - 1 else -1);
    }
  }

  /** Compares the two paths when a check is due, recording when it ran and when the next is due. */
  method CheckHealth(status: StatusObject, o: Object, env: Env) returns (breach: Option<Breach>)
    requires status.lastHealthCheck == o.status.lastHealthCheck && status.nextHealthCheck == o.status.nextHealthCheck
    modifies status`lastHealthCheck, status`nextHealthCheck
    ensures EvaluateHealth(o, env) == HealthRun(breach, status.lastHealthCheck, status.nextHealthCheck)
  {
    if o.spec.monitoring.None? || !o.spec.monitoring.value.enabled || o.spec.monitoring.value.thresholds.None? {
      return None;
    }
    if !env.wiring.metricsSource {
      return None;
    }
    if status.nextHealthCheck.Some? && env.now < status.nextHealthCheck.value {
      return None;
    }
    if env.metrics.None? {
      return None;
    }
    status.lastHealthCheck := Some(env.now);
    status.nextHealthCheck := Some(env.now + HealthCheckInterval(o.spec.monitoring.value));
    return Evaluate(o.spec.monitoring.value.thresholds, env.metrics);
  }

  /** The scheduled percentage, past the PreRollout gate. */
  method Gate(status: StatusObject, o: Object, env: Env, base: int) returns (approved: bool, called: seq<Stage>)
    modifies status`conditions
    ensures var post := Rollout.RunHook(o, env, old(status.conditions), PostConversion, false);
            var pre := if base > 0 then Rollout.RunHook(o, env, post.conds, PreRollout, true)
                       else HookRun(true, post.conds, false);
            && approved == pre.proceed && status.conditions == pre.conds
            && called == Calls(post, PostConversion) + Calls(pre, PreRollout)
  {
    var _, calledPost := status.RunHook(o, env, PostConversion, false);
    called := if calledPost then [PostConversion] else [];
    approved := true;
    if base > 0 {
      var calledPre;
      approved, calledPre := status.RunHook(o, env, PreRollout, true);
      called := called + if calledPre then [PreRollout] else [];
    }
  }

  /** The approval clamp and the health rollback. */
  method Limit(status: StatusObject, o: Object, env: Env, scheduled: int)
    returns (clamped: int, breach: Option<Breach>, percentage: int)
    requires status.lastHealthCheck == o.status.lastHealthCheck && status.nextHealthCheck == o.status.nextHealthCheck
    modifies status`lastHealthCheck, status`nextHealthCheck
    ensures clamped == if o.spec.requireApproval && scheduled > o.spec.approvedPercentage
                       then o.spec.approvedPercentage else scheduled
    ensures HealthRun(breach, status.lastHealthCheck, status.nextHealthCheck)
            == if 0 < clamped < 100 then EvaluateHealth(o, env)
               else HealthRun(None, o.status.lastHealthCheck, o.status.nextHealthCheck)
    ensures percentage == if breach.Some? then 0 else clamped
  {
    percentage := scheduled;
    if o.spec.requireApproval && percentage > o.spec.approvedPercentage {
      percentage := o.spec.approvedPercentage;
    }
    clamped := percentage;
    breach := None;
    if percentage > 0 && percentage < 100 {
      breach := CheckHealth(status, o, env);
      if breach.Some? {
        percentage := 0;
      }
    }
  }

  /** The percentage of the pass, from the PostConversion hook to the health rollback. */
  method DecideTraffic(status: StatusObject, o: Object, env: Env, base: int) returns (t: Traffic)
    requires status.lastHealthCheck == o.status.lastHealthCheck && status.nextHealthCheck == o.status.nextHealthCheck
    modifies status`conditions, status`lastHealthCheck, status`nextHealthCheck
    ensures t == RouteFrom(o, env, old(status.conditions), base)
    ensures status.conditions == t.conds
    ensures status.lastHealthCheck == t.health.last && status.nextHealthCheck == t.health.next
  {
    var approved, called := Gate(status, o, env, base);
    var scheduled := if approved then base else 0;
    var clamped, breach, percentage := Limit(status, o, env, scheduled);
    t := Traffic(base, !approved, scheduled, clamped,
                 HealthRun(breach, status.lastHealthCheck, status.nextHealthCheck), percentage, status.conditions,
                 called);
  }

  /** From the PostConversion hook to the switch: fills in traffic and health. */
  method MoveTraffic(status: StatusObject, o: Object, env: Env, base: int) returns (t: Traffic)
    requires status.lastHealthCheck == o.status.lastHealthCheck && status.nextHealthCheck == o.status.nextHealthCheck
    modifies status
    ensures t == RouteFrom(o, env, old(status.conditions), base)
    ensures status.View() == old(status.View()).(percentage := t.percentage,
              routing := Some(Routing(t.percentage, 100 - t.percentage)), rollbackReady := env.converted > 0,
              pendingPlan := if o.spec.requireApproval then Some(PendingPlan(t.scheduled, t.percentage, env.changes))
                             else None,
              lastHealthCheck := t.health.last, nextHealthCheck := t.health.next, conditions := t.conds)
  {
    t := DecideTraffic(status, o, env, base);
    status.percentage := t.percentage;
    status.routing := Some(Routing(t.percentage, 100 - t.percentage));
    status.rollbackReady := env.converted > 0;
    if o.spec.requireApproval {
      status.pendingPlan := Some(PendingPlan(t.scheduled, t.percentage, env.changes));
    } else {
      status.pendingPlan := None;
    }
  }

  /** The closing switch, the resume mark and the transition time. */
  method Settle(status: StatusObject, o: Object, env: Env, t: Traffic)
    returns (called: seq<Stage>, alert: Option<string>)
    requires status.conditions == t.conds && status.rollbackGeneration == o.status.rollbackGeneration
    modifies status`phase, status`rollbackGeneration, status`conditions, status`lastTransition
    ensures var v := VerdictOf(o, env, t);
            && status.phase == v.phase && status.rollbackGeneration == v.rollbackGeneration
            && status.conditions == v.conds && called == v.called
    ensures status.lastTransition == Some(env.now)
    ensures alert == if t.health.breach.Some? then AlertURL(o, env.wiring) else None
  {
    called, alert := [], None;
    if t.health.breach.Some? {
      status.phase := RolledBack;
      status.rollbackGeneration := o.generation;
      status.SetCondition(Ready, false, HealthRollback, env.now);
      status.SetCondition(RolledBackCondition, true, ThresholdBreached, env.now);
      alert := AlertURL(o, env.wiring);
    } else if t.awaiting {
      status.phase := Pending;
      status.SetCondition(Ready, false, AwaitingPreRolloutHook, env.now);
    } else if env.total == 0 {
      status.phase := Analyzing;
      status.SetCondition(Ready, false, NoMatchingIngresses, env.now);
    } else if env.failed > 0 && env.converted == 0 {
      status.phase := FailedPhase;
      status.SetCondition(Ready, false, ConversionFailed, env.now);
    } else if t.percentage >= 100 {
      status.phase := Complete;
      status.SetCondition(Ready, true, MigrationComplete, env.now);
      var _, calledPost := status.RunHook(o, env, PostRollout, false);
      if calledPost { called := [PostRollout]; }
    } else {
      status.phase := CanaryPhase;
      status.SetCondition(Ready, false, RolloutInProgress, env.now);
    }
    if t.health.breach.None? {
      var i := status.FindCondition(RolledBackCondition);
      FindAt(status.conditions, RolledBackCondition, i);
      if i >= 0 {
        status.rollbackGeneration := 0;
        status.SetCondition(RolledBackCondition, false, Resumed, env.now);
      }
    }
    status.lastTransition := Some(env.now);
  }

  /** The surroundings of a pass, completed by the outcome of its conversion. */
  ghost function Told(env: Env, acc: Acc, removed: seq<RouteId>, total: int): Env {
    env.(total := total, converted := acc.converted, failed := acc.failed, changes := acc.changes + Removals(removed))
  }

  /** What the API server does to the route calls of a pass. */
  datatype Faults = Faults(apply: RouteId -> bool, list: Kind -> bool, delete: RouteId -> bool)

  /** The store part of a pass: pairing, overlap report, conversion, pruning. */
  method ConvertAndPrune(api: ApiServer, mig: Migration, ings: seq<Ingress>, engine: Engine, opts: Options,
                         env: Env, faults: Faults)
    returns (told: Env, pruned: bool, removed: seq<RouteId>, ghost c: Context)
    requires DistinctKeys(ings) && forall i | i in ings :: NoBars(i)
    modifies api
    ensures c == Context(mig, engine, opts, c.paired, c.pairings, faults.apply, api.defaulted)
    ensures IsPairing(Elements(ings), c.paired, c.pairings)
    ensures told == Told(env, ProcessAll(PlanOf(c), old(api.routes), ings), removed, |ings|) && told.Accounted()
    ensures IsPass(PlanOf(c), old(api.routes), ings, api.routes, removed, pruned)
  {
    var names, forPrimary := Pair(ings);
    var _ := Overlap.Check(ings, names);
    var context := Context(mig, engine, opts, names, forPrimary, faults.apply, api.defaulted);
    c := context;
    var converted, failed, desired, changes := ConvertAndApply(api, context, ings);
    var prunedChanges: seq<Change>;
    pruned, prunedChanges, removed := PruneOrphanedRoutes(api, mig, desired, faults.list, faults.delete);
    told := env.(total := |ings|, converted := converted, failed := failed, changes := changes + prunedChanges);
    ContextFollowsPairing(c, ings);
    PendingIsUnfoldedCanaries(PlanOf(c), old(api.routes), ings);
  }

  /** The status part of a full pass. */
  method FinishStatus(status: StatusObject, o: Object, told: Env, base: int, called: seq<Stage>) returns (r: PassResult)
    requires status.View() == o.status.(conditions := status.conditions)
    modifies status
    ensures r == Finish(o, told, RouteFrom(o, told, old(status.conditions), base), called)
  {
    status.processed := Some(Processed(told.total, told.converted, told.failed,
                                       told.total - told.converted - told.failed));
    var t := MoveTraffic(status, o, told, base);
    assert status.View().rollbackGeneration == o.status.rollbackGeneration;
    assert status.View().conditions == t.conds;
    var calledEnd, alert := Settle(status, o, told, t);
    r := Full(status.View(), called + t.called + calledEnd, t, alert);
  }

  /** Whether the pass gets as far as converting, and what the PreConversion hook left behind. */
  predicate Proceeds(o: Object, env: Env) {
    && !o.spec.paused && !HeldAfterRollback(o)
    && Rollout.RunHook(o, env, o.status.conditions, PreConversion, true).proceed
    && env.selectOk && (o.spec.generateGateway ==> env.gatewayOk)
  }

  /** Everything before the conversion: the holds, the PreConversion gate, selection and Gateway. */
  method Precheck(o: Object, env: Env) returns (ended: Option<PassResult>, status: StatusObject, called: seq<Stage>)
    ensures fresh(status)
    ensures ended.Some? <==> !Proceeds(o, env)
    ensures ended.Some? ==> ended.value == Pass(o, env) && !ended.value.Full?
    ensures var pre := Rollout.RunHook(o, env, o.status.conditions, PreConversion, true);
            ended.None? ==> status.View() == o.status.(conditions := pre.conds) && called == Calls(pre, PreConversion)
  {
    status := new StatusObject(o.status);
    called := [];
    if o.spec.paused {
      return Some(Skipped), status, called;
    }
    if HeldAfterRollback(o) {
      return Some(Skipped), status, called;
    }
    var proceed, calledPre := status.RunHook(o, env, PreConversion, true);
    called := if calledPre then [PreConversion] else [];
    if !proceed {
      status.phase := Pending;
      status.lastTransition := Some(env.now);
      return Some(Held(status.View(), called)), status, called;
    }
    if !env.selectOk {
      return Some(Aborted(called)), status, called;
    }
    if o.spec.generateGateway && !env.gatewayOk {
      return Some(Aborted(called)), status, called;
    }
    ended := None;
  }

  /** One reconcile pass. The result is the pass function on what the pass was told, which in a full
      pass includes the outcome of converting the selected Ingresses; routes change only in a full
      pass, and then by exactly one store pass; the counters satisfy the accounting the status
      relies on. A share above 0 means that every selected Ingress that is no paired canary has its route,
      and a Complete status counts every Ingress as converted exactly when every canary pair can be routed. */
  method Reconcile(api: ApiServer, mig: Migration, o: Object, ings: seq<Ingress>, engine: Engine, opts: Options,
                   env: Env, faults: Faults)
    returns (r: PassResult, told: Env, pruned: bool, removed: seq<RouteId>, ghost c: Context)
    requires DistinctKeys(ings) && forall i | i in ings :: NoBars(i)
    modifies api
    ensures r == Pass(o, told)
    ensures r.Full? ==>
              && c == Context(mig, engine, opts, c.paired, c.pairings, faults.apply, api.defaulted)
              && IsPairing(Elements(ings), c.paired, c.pairings)
              && told == Told(env, ProcessAll(PlanOf(c), old(api.routes), ings), removed, |ings|) && told.Accounted()
              && IsPass(PlanOf(c), old(api.routes), ings, api.routes, removed, pruned)
    ensures r.Full? && r.status.percentage > 0 ==>
              forall ing | ing in ings && ing.key !in c.paired :: Carries(PlanOf(c), old(api.routes), api.routes, ing)
    ensures r.Full? && r.status.phase.Complete? ==>
              (told.converted == told.total <==> EveryPairRoutable(c, Elements(ings)))
    ensures r.Full? && Runs.ObjectInv(o) ==>
              && (r.status.phase.Analyzing? <==> ings == [])
              && (r.status.phase.FailedPhase? <==> ings != [] && NothingConverted(PlanOf(c), old(api.routes), ings))
    ensures r.Full? ==> StatusReports(r.status, o, PlanOf(c), old(api.routes), ings, removed)
    ensures !r.Full? ==> told == env && api.routes == old(api.routes)
  {
    told, removed, pruned := env, [], false;
    c := Context(mig, engine, opts, {}, map[], faults.apply, api.defaulted);
    var ended, status, called := Precheck(o, env);
    if ended.Some? {
      return ended.value, told, pruned, removed, c;
    }
    told, pruned, removed, c := ConvertAndPrune(api, mig, ings, engine, opts, env, faults);
    var base := RolloutPercentage(o, told);
    r := FinishStatus(status, o, told, base, called);
    ProceedsTold(o, env, told);
    FullPassMeans(o, told, c, old(api.routes), ings, api.routes, removed, pruned);
    FullPassReports(o, told, c, old(api.routes), ings, removed);
  }

  /** The status counts the waiting canaries as pending and lists the reported changes in its plan. */
  ghost predicate StatusReports(st: Status, o: Object, p: Plan, before: Store, ings: seq<Ingress>,
                                removed: seq<RouteId>) {
    && st.processed.Some? && st.processed.value.total == |ings|
    && st.processed.value.pending == |WaitingPairs(p, Elements(ings))|
    && (o.spec.requireApproval ==>
          st.pendingPlan.Some? && st.pendingPlan.value.changes == Reported(p, before, ings, removed))
  }

  lemma FullPassReports(o: Object, told: Env, c: Context, before: Store, ings: seq<Ingress>, removed: seq<RouteId>)
    requires DistinctKeys(ings) && IsPairing(Elements(ings), c.paired, c.pairings)
    requires Counted(PlanOf(c), before, ings, told) && Pass(o, told).Full?
    requires told.changes == Reported(PlanOf(c), before, ings, removed)
    ensures StatusReports(Pass(o, told).status, o, PlanOf(c), before, ings, removed)
    ensures Runs.ObjectInv(o) ==>
              && (Pass(o, told).status.phase.Analyzing? <==> ings == [])
              && (Pass(o, told).status.phase.FailedPhase? <==> ings != [] && NothingConverted(PlanOf(c), before, ings))
  {
    StatusCounts(o, told, c, before, ings, removed);
    if Runs.ObjectInv(o) { PhaseOverIngresses(o, told, c, before, ings); }
  }

  lemma FullPassMeans(o: Object, told: Env, c: Context, before: Store, ings: seq<Ingress>, after: Store,
                      removed: seq<RouteId>, pruned: bool)
    requires DistinctKeys(ings) && IsPairing(Elements(ings), c.paired, c.pairings)
    requires Counted(PlanOf(c), before, ings, told) && Pass(o, told).Full?
    requires IsPass(PlanOf(c), before, ings, after, removed, pruned)
    ensures Pass(o, told).status.percentage > 0 ==>
              forall ing | ing in ings && ing.key !in c.paired :: Carries(PlanOf(c), before, after, ing)
    ensures Pass(o, told).status.phase.Complete? ==>
              (told.converted == told.total <==> EveryPairRoutable(c, Elements(ings)))
  {
    if Pass(o, told).status.percentage > 0 {
      TrafficMeansRoutes(o, told, PlanOf(c), before, ings, after, removed, pruned);
    }
    if Pass(o, told).status.phase.Complete? {
      CompleteMeansAllConvertedExactlyWhen(o, told, c, before, ings);
    }
  }

  /** The PreConversion hook ran before the outcome of the conversion was known, and does not depend
      on it. */
  lemma ProceedsTold(o: Object, env: Env, told: Env)
    requires Proceeds(o, env)
    requires told == env.(total := told.total, converted := told.converted, failed := told.failed,
                          changes := told.changes)
    ensures var pre := Rollout.RunHook(o, env, o.status.conditions, PreConversion, true);
            Pass(o, told) == Finish(o, told, Route(o, told, pre.conds), Calls(pre, PreConversion))
  {
    assert Rollout.RunHook(o, env, o.status.conditions, PreConversion, true)
        == Rollout.RunHook(o, told, o.status.conditions, PreConversion, true);
  }
}
