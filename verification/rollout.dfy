/** One reconcile pass as a function of the persisted object and of what the pass is told by its
    surroundings: `Reconcile` of transfergw_controller.go and the helpers it calls, without the
    route store, whose outcome it takes as counters. */
module Rollout {
  import opened Text
  import opened Schedule
  import opened Health
  import opened RouteStore

  /*** Specification and status of a migration ***/

  datatype Stage = PreConversion | PostConversion | PreRollout | PostRollout
  datatype Mode = Immediate | Gradual | CanaryMode | OtherMode

  datatype Alerting = Alerting(enabled: bool, url: string)

  /** `interval` is absent when empty or unparseable. */
  datatype Monitoring = Monitoring(
    enabled: bool, interval: Option<Nanos>, thresholds: Option<Thresholds>, alerting: Option<Alerting>)

  /** `hooks` are the stages with a webhook URL. */
  datatype Spec = Spec(
    paused: bool,
    mode: Mode,
    canary: Option<CanarySpec>,
    requireApproval: bool,
    approvedPercentage: int,
    hooks: set<Stage>,
    monitoring: Option<Monitoring>,
    generateGateway: bool)
  {
    /** The bounds the CRD schema enforces. */
    predicate Valid() { 0 <= approvedPercentage <= 100 && (canary.Some? ==> canary.value.Valid()) }
  }

  datatype Phase = NoPhase | Pending | Analyzing | CanaryPhase | Complete | FailedPhase | RolledBack

  datatype ConditionType = Ready | RolledBackCondition | HookCondition(stage: Stage)
  datatype Reason =
    | HealthRollback | ThresholdBreached | AwaitingPreRolloutHook | NoMatchingIngresses | ConversionFailed
    | MigrationComplete | RolloutInProgress | Resumed | Approved | Blocked
  datatype Condition = Condition(typ: ConditionType, isTrue: bool, reason: Reason, observedGeneration: int, since: int)

  datatype Processed = Processed(total: int, converted: int, failed: int, pending: int)
  datatype Routing = Routing(gateway: int, ingress: int)
  datatype PendingPlan = PendingPlan(next: int, current: int, changes: seq<Change>)

  datatype Status = Status(
    phase: Phase,
    percentage: int,
    routing: Option<Routing>,
    processed: Option<Processed>,
    pendingPlan: Option<PendingPlan>,
    rollbackReady: bool,
    rollbackGeneration: int,
    lastHealthCheck: Option<int>,
    nextHealthCheck: Option<int>,
    lastTransition: Option<int>,
    conditions: seq<Condition>)

  const EMPTY := Status(NoPhase, 0, None, None, None, false, 0, None, None, None, [])

  /** The persisted TransferGW. */
  datatype Object = Object(spec: Spec, generation: int, created: int, status: Status)

  /** What the controller process has wired up. */
  datatype Wiring = Wiring(hookCaller: bool, metricsSource: bool, alerter: bool, defaultWebhookURL: string)

  /** What one pass is told: the time, the answers of hooks and metrics backend (`None` for an
      error), which API calls succeed, and the outcome of converting the selected Ingresses. */
  datatype Env = Env(
    wiring: Wiring,
    now: int,
    answers: Stage -> bool,
    metrics: Option<Comparison>,
    selectOk: bool,
    gatewayOk: bool,
    writeOk: bool,
    total: int,
    converted: int,
    failed: int,
    changes: seq<Change>)
  {
    /** What the accounting of a pass guarantees. */
    predicate Accounted() { converted >= 0 && failed >= 0 && converted + failed <= total }
  }

  /*** Conditions ***/

  function Find(conds: seq<Condition>, typ: ConditionType): Option<Condition> {
    if conds == [] then None
    else if conds[0].typ == typ then Some(conds[0])
    else Find(conds[1..], typ)
  }

  function SetCondition(conds: seq<Condition>, typ: ConditionType, isTrue: bool, reason: Reason,
                        now: int): seq<Condition> {
    if conds == [] then [Condition(typ, isTrue, reason, 0, now)]
    else if conds[0].typ == typ then
      [Condition(typ, isTrue, reason, 0, if conds[0].isTrue == isTrue then conds[0].since else now)] + conds[1..]
    else [conds[0]] + SetCondition(conds[1..], typ, isTrue, reason, now)
  }

  function Stamp(conds: seq<Condition>, typ: ConditionType, generation: int): seq<Condition> {
    if conds == [] then []
    else if conds[0].typ == typ then [conds[0].(observedGeneration := generation)] + conds[1..]
    else [conds[0]] + Stamp(conds[1..], typ, generation)
  }

  ghost predicate UniqueTypes(conds: seq<Condition>) {
    forall i, j | 0 <= i < j < |conds| :: conds[i].typ != conds[j].typ
  }

  predicate IsTrue(conds: seq<Condition>, typ: ConditionType) {
    Find(conds, typ).Some? && Find(conds, typ).value.isTrue
  }

  /** The stage's hook approved at this generation, according to the conditions. */
  predicate ApprovedAt(conds: seq<Condition>, stage: Stage, generation: int) {
    IsTrue(conds, HookCondition(stage)) && Find(conds, HookCondition(stage)).value.observedGeneration == generation
  }

  lemma {:induction false} FindIsMembership(conds: seq<Condition>, typ: ConditionType)
    ensures Find(conds, typ).Some? ==> Find(conds, typ).value in conds && Find(conds, typ).value.typ == typ
    ensures Find(conds, typ).None? <==> forall c | c in conds :: c.typ != typ
  {
    if conds != [] {
      assert conds == [conds[0]] + conds[1..];
      FindIsMembership(conds[1..], typ);
    }
  }

  lemma {:induction false} TypesAfterSet(conds: seq<Condition>, typ: ConditionType, isTrue: bool, reason: Reason,
                                         now: int)
    ensures forall i | 0 <= i < |conds| :: i < |SetCondition(conds, typ, isTrue, reason, now)|
              && SetCondition(conds, typ, isTrue, reason, now)[i].typ == conds[i].typ
    ensures (exists c :: c in conds && c.typ == typ) ==> |SetCondition(conds, typ, isTrue, reason, now)| == |conds|
    ensures (forall c | c in conds :: c.typ != typ) ==>
              |SetCondition(conds, typ, isTrue, reason, now)| == |conds| + 1
              && SetCondition(conds, typ, isTrue, reason, now)[|conds|].typ == typ
  {
    if conds != [] && conds[0].typ != typ {
      assert conds == [conds[0]] + conds[1..];
      TypesAfterSet(conds[1..], typ, isTrue, reason, now);
    }
  }

  lemma SetKeepsTypesUnique(conds: seq<Condition>, typ: ConditionType, isTrue: bool, reason: Reason, now: int)
    requires UniqueTypes(conds)
    ensures UniqueTypes(SetCondition(conds, typ, isTrue, reason, now))
  {
    TypesAfterSet(conds, typ, isTrue, reason, now);
    if forall c | c in conds :: c.typ != typ {
      assert forall i | 0 <= i < |conds| :: conds[i] in conds;
    }
  }

  lemma {:induction false} StampKeepsTypes(conds: seq<Condition>, typ: ConditionType, generation: int)
    ensures |Stamp(conds, typ, generation)| == |conds|
    ensures forall i | 0 <= i < |conds| :: Stamp(conds, typ, generation)[i].typ == conds[i].typ
  {
    if conds != [] && conds[0].typ != typ {
      StampKeepsTypes(conds[1..], typ, generation);
    }
  }

  /** Setting a condition decides it, keeps its transition time unless the status flips, and leaves all
      others alone. */
  lemma {:induction false} FindAfterSet(conds: seq<Condition>, typ: ConditionType, isTrue: bool, reason: Reason,
                                        now: int, other: ConditionType)
    ensures var after := SetCondition(conds, typ, isTrue, reason, now);
            if other == typ then
              && Find(after, typ).Some? && Find(after, typ).value.isTrue == isTrue
              && Find(after, typ).value.reason == reason && Find(after, typ).value.observedGeneration == 0
              && Find(after, typ).value.since
                 == (if Find(conds, typ).Some? && Find(conds, typ).value.isTrue == isTrue
                     then Find(conds, typ).value.since else now)
            else Find(after, other) == Find(conds, other)
  {
    if conds != [] && conds[0].typ != typ {
      FindAfterSet(conds[1..], typ, isTrue, reason, now, other);
    }
  }

  lemma {:induction false} FindAfterStamp(conds: seq<Condition>, typ: ConditionType, generation: int,
                                          other: ConditionType)
    ensures Find(Stamp(conds, typ, generation), other)
            == if other == typ && Find(conds, typ).Some?
                then Some(Find(conds, typ).value.(observedGeneration := generation))
               else Find(conds, other)
  {
    if conds != [] && conds[0].typ != typ {
      FindAfterStamp(conds[1..], typ, generation, other);
    }
  }

  /*** Hooks ***/

  datatype HookRun = HookRun(proceed: bool, conds: seq<Condition>, called: bool)

  function RunHook(o: Object, env: Env, conds: seq<Condition>, stage: Stage, blocking: bool): HookRun {
    if stage !in o.spec.hooks then HookRun(true, conds, false)
    else if ApprovedAt(conds, stage, o.generation) then HookRun(true, conds, false)
    else if !env.wiring.hookCaller then HookRun(true, conds, false)
    else
      var proceed := env.answers(stage);
      var set_ := SetCondition(conds, HookCondition(stage), proceed, if proceed then Approved else Blocked, env.now);
      HookRun(!blocking || proceed, Stamp(set_, HookCondition(stage), o.generation), true)
  }

  /*** Traffic ***/

  /** `time.Since`, which saturates at the bounds of int64. */
  function Since(created: int, now: int): Nanos {
    var d := now - created;
    if d < -0x8000_0000_0000_0000 then -0x8000_0000_0000_0000
    else if d > 0x7fff_ffff_ffff_ffff then 0x7fff_ffff_ffff_ffff
    else d
  }

  function RolloutPercentage(o: Object, env: Env): int {
    if env.converted == 0 || env.failed > 0 then 0
    else
      match o.spec.mode
      case Immediate => 100
      case Gradual => CanaryPercentage(o.spec.canary, Since(o.created, env.now))
      case CanaryMode => CanaryPercentage(o.spec.canary, Since(o.created, env.now))
      case OtherMode => 100
  }

  const DEFAULT_HEALTH_INTERVAL := 300_000_000_000

  function HealthCheckInterval(m: Monitoring): int {
    if m.interval.Some? && m.interval.value > 0 then m.interval.value else DEFAULT_HEALTH_INTERVAL
  }

  datatype HealthRun = HealthRun(breach: Option<Breach>, last: Option<int>, next: Option<int>)

  function EvaluateHealth(o: Object, env: Env): HealthRun {
    var kept := HealthRun(None, o.status.lastHealthCheck, o.status.nextHealthCheck);
    if o.spec.monitoring.None? || !o.spec.monitoring.value.enabled || o.spec.monitoring.value.thresholds.None? then kept
    else if !env.wiring.metricsSource then kept
    else if o.status.nextHealthCheck.Some? && env.now < o.status.nextHealthCheck.value then kept
    else if env.metrics.None? then kept
    else
      HealthRun(Evaluate(o.spec.monitoring.value.thresholds, env.metrics), Some(env.now),
                Some(env.now + HealthCheckInterval(o.spec.monitoring.value)))
  }

  /** The percentages a full pass goes through, and the conditions as the hooks left them. */
  datatype Traffic = Traffic(
    base: int, awaiting: bool, scheduled: int, clamped: int, health: HealthRun, percentage: int,
    conds: seq<Condition>, called: seq<Stage>)

  function Calls(r: HookRun, stage: Stage): seq<Stage> { if r.called then [stage] else [] }

  /** From the scheduled percentage `base` on: PreRollout gate, approval clamp, health rollback. */
  function RouteFrom(o: Object, env: Env, conds: seq<Condition>, base: int): Traffic {
    var post := RunHook(o, env, conds, PostConversion, false);
    var pre := if base > 0 then RunHook(o, env, post.conds, PreRollout, true) else HookRun(true, post.conds, false);
    var scheduled := if pre.proceed then base else 0;
    var clamped := if o.spec.requireApproval && scheduled > o.spec.approvedPercentage then o.spec.approvedPercentage
                   else scheduled;
    var health := if 0 < clamped < 100 then EvaluateHealth(o, env)
                  else HealthRun(None, o.status.lastHealthCheck, o.status.nextHealthCheck);
    Traffic(base, !pre.proceed, scheduled, clamped, health, if health.breach.Some? then 0 else clamped,
            pre.conds, Calls(post, PostConversion) + Calls(pre, PreRollout))
  }

  function Route(o: Object, env: Env, conds: seq<Condition>): Traffic {
    RouteFrom(o, env, conds, RolloutPercentage(o, env))
  }

  /*** The closing switch ***/

  datatype Verdict = Verdict(phase: Phase, rollbackGeneration: int, conds: seq<Condition>, called: seq<Stage>)

  function Conclude(o: Object, env: Env, t: Traffic): Verdict {
    var g := o.status.rollbackGeneration;
    if t.health.breach.Some? then
      Verdict(RolledBack, o.generation,
              SetCondition(SetCondition(t.conds, Ready, false, HealthRollback, env.now),
                           RolledBackCondition, true, ThresholdBreached, env.now), [])
    else if t.awaiting then
      Verdict(Pending, g, SetCondition(t.conds, Ready, false, AwaitingPreRolloutHook, env.now), [])
    else if env.total == 0 then
      Verdict(Analyzing, g, SetCondition(t.conds, Ready, false, NoMatchingIngresses, env.now), [])
    else if env.failed > 0 && env.converted == 0 then
      Verdict(FailedPhase, g, SetCondition(t.conds, Ready, false, ConversionFailed, env.now), [])
    else if t.percentage >= 100 then
      var r := RunHook(o, env, SetCondition(t.conds, Ready, true, MigrationComplete, env.now), PostRollout, false);
      Verdict(Complete, g, r.conds, Calls(r, PostRollout))
    else
      Verdict(CanaryPhase, g, SetCondition(t.conds, Ready, false, RolloutInProgress, env.now), [])
  }

  /** Clears a recorded rollback once a pass gets by without a breach. */
  function Resume(v: Verdict, breached: bool, now: int): Verdict {
    if !breached && Find(v.conds, RolledBackCondition).Some? then
      v.(rollbackGeneration := 0, conds := SetCondition(v.conds, RolledBackCondition, false, Resumed, now))
    else v
  }

  /** The address `sendRollbackAlert` notifies, if any. */
  function AlertURL(o: Object, w: Wiring): Option<string> {
    if !w.alerter then None
    else if o.spec.monitoring.Some? && o.spec.monitoring.value.alerting.Some? then
      var a := o.spec.monitoring.value.alerting.value;
      if a.enabled && a.url != "" then Some(a.url) else None
    else if w.defaultWebhookURL != "" then Some(w.defaultWebhookURL) else None
  }

  /*** The whole pass ***/

  /** Skipped: paused or held. Aborted: an API error before any route was touched, nothing written.
      Held: a status write announcing that PreConversion has not approved. Full: routes converted
      and the complete status computed. */
  datatype PassResult =
    | Skipped
    | Aborted(called: seq<Stage>)
    | Held(status: Status, called: seq<Stage>)
    | Full(status: Status, called: seq<Stage>, traffic: Traffic, alert: Option<string>)

  predicate HeldAfterRollback(o: Object) {
    o.status.phase == RolledBack && o.status.rollbackGeneration == o.generation
  }

  function FullStatus(o: Object, env: Env, t: Traffic, v: Verdict): Status {
    Status(v.phase, t.percentage, Some(Routing(t.percentage, 100 - t.percentage)),
           Some(Processed(env.total, env.converted, env.failed, env.total - env.converted - env.failed)),
           if o.spec.requireApproval then Some(PendingPlan(t.scheduled, t.percentage, env.changes)) else None,
           env.converted > 0, v.rollbackGeneration, t.health.last, t.health.next, Some(env.now), v.conds)
  }

  function VerdictOf(o: Object, env: Env, t: Traffic): Verdict {
    Resume(Conclude(o, env, t), t.health.breach.Some?, env.now)
  }

  /** The end of a full pass, once the traffic is decided. */
  function Finish(o: Object, env: Env, t: Traffic, called: seq<Stage>): PassResult {
    var v := VerdictOf(o, env, t);
    Full(FullStatus(o, env, t, v), called + t.called + v.called, t,
         if t.health.breach.Some? then AlertURL(o, env.wiring) else None)
  }

  function Pass(o: Object, env: Env): PassResult {
    if o.spec.paused || HeldAfterRollback(o) then Skipped
    else
      var pre := RunHook(o, env, o.status.conditions, PreConversion, true);
      if !pre.proceed then
        Held(o.status.(phase := Pending, conditions := pre.conds, lastTransition := Some(env.now)),
             Calls(pre, PreConversion))
      else if !env.selectOk || (o.spec.generateGateway && !env.gatewayOk) then Aborted(Calls(pre, PreConversion))
      else
        Finish(o, env, Route(o, env, pre.conds), Calls(pre, PreConversion))
  }

  /*** What a full pass guarantees ***/

  lemma BaseInRange(o: Object, env: Env)
    ensures 0 <= RolloutPercentage(o, env) <= 100
    ensures RolloutPercentage(o, env) > 0 ==> env.converted != 0 && env.failed <= 0
  {
    FollowsPlanExactlyWhen(o.spec.canary, Since(o.created, env.now));
  }

  /** What the schedule asks for: nothing unless something converted and nothing failed; all at once
      unless the mode is gradual or canary; else what the schedule documents for the time since creation. */
  lemma ScheduleExactly(o: Object, env: Env)
    ensures env.converted == 0 || env.failed > 0 ==> RolloutPercentage(o, env) == 0
    ensures env.converted != 0 && env.failed <= 0 && !o.spec.mode.Gradual? && !o.spec.mode.CanaryMode? ==>
              RolloutPercentage(o, env) == 100
    ensures env.converted != 0 && env.failed <= 0 && (o.spec.mode.Gradual? || o.spec.mode.CanaryMode?)
            && -0x8000_0000_0000_0000 <= env.now - o.created < 0x8000_0000_0000_0000 ==>
              RolloutPercentage(o, env) == CanaryPercentage(o.spec.canary, env.now - o.created)
    ensures env.converted != 0 && env.failed <= 0 && (o.spec.mode.Gradual? || o.spec.mode.CanaryMode?)
            && env.now - o.created >= 0x8000_0000_0000_0000 ==>
              RolloutPercentage(o, env) == CanaryPercentage(o.spec.canary, 0x7fff_ffff_ffff_ffff)
    ensures env.converted != 0 && env.failed <= 0 && (o.spec.mode.Gradual? || o.spec.mode.CanaryMode?)
            && env.now - o.created < -0x8000_0000_0000_0000 ==>
              RolloutPercentage(o, env) == CanaryPercentage(o.spec.canary, -0x8000_0000_0000_0000)
  {
  }

  lemma TrafficInRange(o: Object, env: Env, conds: seq<Condition>)
    requires o.spec.Valid()
    ensures var t := Route(o, env, conds);
            && 0 <= t.percentage <= t.clamped <= t.scheduled <= t.base <= 100
            && (t.percentage == 100 ==> t.health.breach.None? && !t.awaiting)
            && (t.base > 0 ==> env.converted != 0 && env.failed <= 0)
            && (t.awaiting ==> t.base > 0)
  {
    BaseInRange(o, env);
  }

  /** How a pass ends: skipped while paused or held at this generation by a rollback; held while
      PreConversion refuses; aborted when an API call before the conversion fails; full otherwise. */
  lemma PassEndsExactly(o: Object, env: Env)
    ensures Pass(o, env).Skipped? <==>
              o.spec.paused || (o.status.phase.RolledBack? && o.status.rollbackGeneration == o.generation)
    ensures Pass(o, env).Held? <==> !Pass(o, env).Skipped? && Withheld(o, env)
    ensures Pass(o, env).Aborted? <==> !Pass(o, env).Skipped? && !Withheld(o, env)
                                       && (!env.selectOk || (o.spec.generateGateway && !env.gatewayOk))
  {
    ApprovedExactlyWhen(o.status.conditions, PreConversion, o.generation);
  }

  /** A held pass writes Pending, the refusal and the time, and nothing else. */
  lemma HeldWrites(o: Object, env: Env)
    requires Pass(o, env).Held?
    ensures var st := Pass(o, env).status;
            && st.phase == Pending && st.lastTransition == Some(env.now)
            && st == o.status.(phase := st.phase, lastTransition := st.lastTransition, conditions := st.conditions)
            && Find(st.conditions, HookCondition(PreConversion)).Some?
            && !Find(st.conditions, HookCondition(PreConversion)).value.isTrue
            && forall typ | typ != HookCondition(PreConversion) ::
                 Find(st.conditions, typ) == Find(o.status.conditions, typ)
    ensures Pass(o, env).called == [PreConversion]
  {
    HookLeaves(o, env, o.status.conditions, PreConversion, true);
    var mid := SetCondition(o.status.conditions, HookCondition(PreConversion), false, Blocked, env.now);
    forall typ | typ != HookCondition(PreConversion)
      ensures Find(Pass(o, env).status.conditions, typ) == Find(o.status.conditions, typ)
    {
      FindAfterSet(o.status.conditions, HookCondition(PreConversion), false, Blocked, env.now, typ);
      FindAfterStamp(mid, HookCondition(PreConversion), o.generation, typ);
    }
  }

  /** PreConversion is configured and wired, has not approved at this generation, and refuses. */
  ghost predicate Withheld(o: Object, env: Env) {
    && PreConversion in o.spec.hooks && env.wiring.hookCaller && !env.answers(PreConversion)
    && !exists i :: FirstApproves(o.status.conditions, PreConversion, o.generation, i)
  }

  /** The first condition of the stage is a true one stamped with this generation. */
  predicate FirstApproves(conds: seq<Condition>, stage: Stage, generation: int, i: int) {
    && 0 <= i < |conds| && conds[i].typ == HookCondition(stage) && conds[i].isTrue
    && conds[i].observedGeneration == generation
    && forall j | 0 <= j < i :: conds[j].typ != HookCondition(stage)
  }

  lemma {:induction false} ApprovedExactlyWhen(conds: seq<Condition>, stage: Stage, generation: int)
    ensures ApprovedAt(conds, stage, generation) <==> exists i :: FirstApproves(conds, stage, generation, i)
  {
    if conds != [] && conds[0].typ != HookCondition(stage) {
      ApprovedExactlyWhen(conds[1..], stage, generation);
      if i :| FirstApproves(conds, stage, generation, i) { assert FirstApproves(conds[1..], stage, generation, i - 1); }
      if i :| FirstApproves(conds[1..], stage, generation, i) { assert FirstApproves(conds, stage, generation, i + 1); }
    } else if conds != [] {
      assert conds[0].isTrue && conds[0].observedGeneration == generation ==>
          FirstApproves(conds, stage, generation, 0);
    }
  }

  /** A hook that is called leaves its answer, the reason, and the generation it was asked at. */
  lemma HookLeaves(o: Object, env: Env, conds: seq<Condition>, stage: Stage, blocking: bool)
    requires RunHook(o, env, conds, stage, blocking).called
    ensures var c := Find(RunHook(o, env, conds, stage, blocking).conds, HookCondition(stage));
            && c.Some? && c.value.isTrue == env.answers(stage) && c.value.observedGeneration == o.generation
            && c.value.reason == if env.answers(stage) then Approved else Blocked
    ensures RunHook(o, env, conds, stage, blocking).proceed <==> !blocking || env.answers(stage)
  {
    var proceed := env.answers(stage);
    var mid := SetCondition(conds, HookCondition(stage), proceed, if proceed then Approved else Blocked, env.now);
    FindAfterSet(conds, HookCondition(stage), proceed, if proceed then Approved else Blocked, env.now,
                 HookCondition(stage));
    FindAfterStamp(mid, HookCondition(stage), o.generation, HookCondition(stage));
  }

  /** A breach is only ever found while traffic is split, by a comparison that supports it. */
  lemma RollbackWitness(o: Object, env: Env)
    requires Pass(o, env).Full? && Pass(o, env).traffic.health.breach.Some?
    ensures var t := Pass(o, env).traffic;
            && 0 < t.clamped < 100
            && o.spec.monitoring.Some? && env.metrics.Some?
            && Evaluate(o.spec.monitoring.value.thresholds, env.metrics) == t.health.breach
            && Pass(o, env).status.phase == RolledBack && Pass(o, env).status.percentage == 0
  {
  }
}
