/** What every run of the controller keeps: passes interleaved with spec edits, under arbitrary
    hook answers, metrics, clocks, conversion outcomes and failed calls. */
module Runs {
  import opened Text
  import opened Schedule
  import opened Health
  import opened Rollout

  /*** Reachable statuses ***/

  /** What every persisted status satisfies, at a generation not older than its writer's. */
  ghost predicate StatusInv(st: Status, generation: int) {
    && UniqueTypes(st.conditions)
    && 0 <= st.percentage <= 100
    && (match st.routing
        case None => st.percentage == 0
        case Some(r) => r.gateway == st.percentage && r.ingress == 100 - st.percentage)
    && (st.phase.Complete? ==> st.percentage == 100)
    && (st.phase.RolledBack? ==>
          st.percentage == 0 && Find(st.conditions, Ready).Some? && !IsTrue(st.conditions, Ready)
          && IsTrue(st.conditions, RolledBackCondition))
    && 0 <= st.rollbackGeneration <= generation
    && (st.rollbackGeneration > 0 <==> IsTrue(st.conditions, RolledBackCondition))
    && (IsTrue(st.conditions, Ready) ==> st.percentage == 100 && (st.phase.Complete? || st.phase.Pending?))
  }

  /** Hooks touch no condition but their own, and never take an approval back. */
  lemma HookKeeps(o: Object, env: Env, conds: seq<Condition>, stage: Stage, blocking: bool)
    requires UniqueTypes(conds)
    ensures var r := RunHook(o, env, conds, stage, blocking);
            && UniqueTypes(r.conds)
            && (forall typ | typ != HookCondition(stage) :: Find(r.conds, typ) == Find(conds, typ))
            && (forall s :: ApprovedAt(conds, s, o.generation) ==> ApprovedAt(r.conds, s, o.generation))
            && (stage in o.spec.hooks && env.wiring.hookCaller && blocking && r.proceed ==>
                ApprovedAt(r.conds, stage, o.generation))
            && (r.called ==> stage in o.spec.hooks && !ApprovedAt(conds, stage, o.generation))
  {
    var r := RunHook(o, env, conds, stage, blocking);
    if r.called {
      var proceed := env.answers(stage);
      var mid := SetCondition(conds, HookCondition(stage), proceed, if proceed then Approved else Blocked, env.now);
      SetKeepsTypesUnique(conds, HookCondition(stage), proceed, if proceed then Approved else Blocked, env.now);
      StampKeepsTypes(mid, HookCondition(stage), o.generation);
      forall typ
        ensures Find(mid, HookCondition(stage)).Some? && IsTrue(mid, HookCondition(stage)) == proceed
        ensures Find(r.conds, typ)
             == if typ == HookCondition(stage)
                then Some(Find(mid, HookCondition(stage)).value.(observedGeneration := o.generation))
                else Find(conds, typ)
      {
        FindAfterSet(conds, HookCondition(stage), proceed, if proceed then Approved else Blocked, env.now,
                     HookCondition(stage));
        FindAfterSet(conds, HookCondition(stage), proceed, if proceed then Approved else Blocked, env.now, typ);
        FindAfterStamp(mid, HookCondition(stage), o.generation, typ);
      }
    }
  }

  /** Setting Ready or RolledBack decides just that condition. */
  lemma SetKeeps(conds: seq<Condition>, typ: ConditionType, isTrue: bool, reason: Reason, now: int)
    requires UniqueTypes(conds)
    ensures var after := SetCondition(conds, typ, isTrue, reason, now);
            && UniqueTypes(after)
            && Find(after, typ).Some? && IsTrue(after, typ) == isTrue
            && forall other | other != typ :: Find(after, other) == Find(conds, other)
  {
    SetKeepsTypesUnique(conds, typ, isTrue, reason, now);
    forall other { FindAfterSet(conds, typ, isTrue, reason, now, other); }
  }

  /** What the hooks of the traffic part leave behind. */
  lemma RouteKeeps(o: Object, env: Env, conds: seq<Condition>)
    requires UniqueTypes(conds)
    ensures var t := Route(o, env, conds);
            && UniqueTypes(t.conds)
            && Find(t.conds, Ready) == Find(conds, Ready)
            && Find(t.conds, RolledBackCondition) == Find(conds, RolledBackCondition)
            && (forall s :: ApprovedAt(conds, s, o.generation) ==> ApprovedAt(t.conds, s, o.generation))
            && (PreRollout in o.spec.hooks && env.wiring.hookCaller && t.scheduled > 0 ==>
                ApprovedAt(t.conds, PreRollout, o.generation))
  {
    HookKeeps(o, env, conds, PostConversion, false);
    HookKeeps(o, env, RunHook(o, env, conds, PostConversion, false).conds, PreRollout, true);
  }

  ghost predicate SameRollback(a: seq<Condition>, b: seq<Condition>) {
    Find(a, RolledBackCondition) == Find(b, RolledBackCondition)
  }

  /** How the closing switch decides phase, Ready and the rollback marks. */
  lemma ConcludeKeeps(o: Object, env: Env, t: Traffic)
    requires UniqueTypes(t.conds) && env.Accounted()
    requires 0 <= t.percentage <= 100 && (t.percentage > 0 ==> env.converted > 0 && env.failed == 0 && !t.awaiting)
    requires t.health.breach.Some? ==> t.percentage == 0
    ensures var v := Conclude(o, env, t);
            && UniqueTypes(v.conds)
            && (v.phase.Complete? <==> t.percentage == 100)
            && (v.phase.RolledBack? <==> t.health.breach.Some?)
            && Find(v.conds, Ready).Some? && (IsTrue(v.conds, Ready) <==> v.phase.Complete?)
            && (forall s :: ApprovedAt(t.conds, s, o.generation) ==> ApprovedAt(v.conds, s, o.generation))
            && (if t.health.breach.Some?
                then IsTrue(v.conds, RolledBackCondition) && v.rollbackGeneration == o.generation
                else SameRollback(v.conds, t.conds) && v.rollbackGeneration == o.status.rollbackGeneration)
  {
    SetKeeps(t.conds, Ready, false, HealthRollback, env.now);
    SetKeeps(SetCondition(t.conds, Ready, false, HealthRollback, env.now), RolledBackCondition, true,
             ThresholdBreached, env.now);
    SetKeeps(t.conds, Ready, false, AwaitingPreRolloutHook, env.now);
    SetKeeps(t.conds, Ready, false, NoMatchingIngresses, env.now);
    SetKeeps(t.conds, Ready, false, ConversionFailed, env.now);
    SetKeeps(t.conds, Ready, true, MigrationComplete, env.now);
    SetKeeps(t.conds, Ready, false, RolloutInProgress, env.now);
    HookKeeps(o, env, SetCondition(t.conds, Ready, true, MigrationComplete, env.now), PostRollout, false);
  }

  lemma ResumeKeeps(v: Verdict, breached: bool, now: int)
    requires UniqueTypes(v.conds)
    ensures var r := Resume(v, breached, now);
            && UniqueTypes(r.conds) && r.phase == v.phase
            && Find(r.conds, Ready) == Find(v.conds, Ready)
            && (forall s, g :: ApprovedAt(v.conds, s, g) ==> ApprovedAt(r.conds, s, g))
            && (breached ==> r == v)
            && (!breached ==> !IsTrue(r.conds, RolledBackCondition))
            && (!breached ==>
                r.rollbackGeneration == if Find(v.conds, RolledBackCondition).Some? then 0 else v.rollbackGeneration)
  {
    SetKeeps(v.conds, RolledBackCondition, false, Resumed, now);
  }

  /** Every full pass: the split adds up; traffic moves only over a conversion without failures; Complete
      means 100 and Ready; a rollback is recorded exactly when a threshold was breached, and cleared
      otherwise; and with a PreRollout hook wired no traffic moves without an approval stamped with
      this generation. */
  lemma FullPassConsistent(o: Object, env: Env)
    requires o.spec.Valid() && o.generation >= 1 && env.Accounted() && StatusInv(o.status, o.generation)
    requires Pass(o, env).Full?
    ensures var st, t := Pass(o, env).status, Pass(o, env).traffic;
            && StatusInv(st, o.generation)
            && st.routing == Some(Routing(st.percentage, 100 - st.percentage))
            && (st.percentage > 0 ==> env.converted > 0 && env.failed == 0)
            && (st.phase.Complete? <==> st.percentage == 100)
            && (IsTrue(st.conditions, Ready) <==> st.percentage == 100)
            && (st.phase.RolledBack? <==> t.health.breach.Some?)
            && st.rollbackGeneration == (if t.health.breach.Some? then o.generation else 0)
            && (PreRollout in o.spec.hooks && env.wiring.hookCaller && st.percentage > 0 ==>
                  ApprovedAt(st.conditions, PreRollout, o.generation))
            && (PreConversion in o.spec.hooks && env.wiring.hookCaller ==>
                  ApprovedAt(st.conditions, PreConversion, o.generation))
            && (forall s :: ApprovedAt(o.status.conditions, s, o.generation) ==>
                ApprovedAt(st.conditions, s, o.generation))
  {
    var pre := RunHook(o, env, o.status.conditions, PreConversion, true);
    HookKeeps(o, env, o.status.conditions, PreConversion, true);
    TrafficInRange(o, env, pre.conds);
    RouteKeeps(o, env, pre.conds);
    var t := Route(o, env, pre.conds);
    ConcludeKeeps(o, env, t);
    ResumeKeeps(Conclude(o, env, t), t.health.breach.Some?, env.now);
  }

  lemma HeldPassConsistent(o: Object, env: Env)
    requires StatusInv(o.status, o.generation) && Pass(o, env).Held?
    ensures StatusInv(Pass(o, env).status, o.generation)
    ensures Pass(o, env).status.percentage == o.status.percentage
    ensures PreConversion in o.spec.hooks && !ApprovedAt(Pass(o, env).status.conditions, PreConversion, o.generation)
    ensures forall s :: ApprovedAt(o.status.conditions, s, o.generation) ==>
            ApprovedAt(Pass(o, env).status.conditions, s, o.generation)
  {
    HookKeeps(o, env, o.status.conditions, PreConversion, true);
    HookRefused(o, env, o.status.conditions, PreConversion);
  }

  lemma HookRefused(o: Object, env: Env, conds: seq<Condition>, stage: Stage)
    requires !RunHook(o, env, conds, stage, true).proceed
    ensures stage in o.spec.hooks && !ApprovedAt(RunHook(o, env, conds, stage, true).conds, stage, o.generation)
  {
    var mid := SetCondition(conds, HookCondition(stage), false, Blocked, env.now);
    FindAfterSet(conds, HookCondition(stage), false, Blocked, env.now, HookCondition(stage));
    FindAfterStamp(mid, HookCondition(stage), o.generation, HookCondition(stage));
  }

  /** Under required approval the written percentage is 0 or the schedule cut off at the approved
      percentage, and the published plan shows the schedule itself, which is 0 while PreRollout is
      awaited. */
  lemma ApprovalGate(o: Object, env: Env)
    requires o.spec.Valid() && o.spec.requireApproval && Pass(o, env).Full?
    ensures var st, t := Pass(o, env).status, Pass(o, env).traffic;
            && st.pendingPlan.Some?
            && st.pendingPlan.value.next == (if t.awaiting then 0 else RolloutPercentage(o, env))
            && st.pendingPlan.value.current == st.percentage <= st.pendingPlan.value.next
            && st.percentage <= o.spec.approvedPercentage
            && (st.percentage == 0 || st.percentage == (if st.pendingPlan.value.next > o.spec.approvedPercentage
                                                       then o.spec.approvedPercentage else st.pendingPlan.value.next))
  {
    var pre := RunHook(o, env, o.status.conditions, PreConversion, true);
    TrafficInRange(o, env, pre.conds);
  }

  /*** Runs ***/

  datatype Event =
    | HookCalled(stage: Stage, generation: int, approved: bool)
    | Converting(generation: int, gated: bool)
    | RollbackStored(generation: int)
    | AlertSent(generation: int, stored: bool)

  /** The persisted object and what has happened so far. */
  datatype World = World(obj: Object, log: seq<Event>)

  /** An edit of the spec bumps the generation exactly when it changes something. A pass works on one
      snapshot and writes only the status, so edits during a pass act as edits after it. */
  datatype Act = Edit(spec: Spec) | Reconcile(env: Env)

  function Called(stages: seq<Stage>, generation: int, env: Env): seq<Event> {
    seq(|stages|, i requires 0 <= i < |stages| => HookCalled(stages[i], generation, env.answers(stages[i])))
  }

  function EventsOf(o: Object, env: Env, r: PassResult): seq<Event> {
    match r
    case Skipped => []
    case Aborted(called) => Called(called, o.generation, env)
    case Held(_, called) => Called(called, o.generation, env)
    case Full(status, called, t, alert) =>
      Called(called, o.generation, env)
        + [Converting(o.generation, PreConversion in o.spec.hooks && env.wiring.hookCaller)]
        + (if alert.Some? then [AlertSent(o.generation, env.writeOk)] else [])
        + (if t.health.breach.Some? && env.writeOk then [RollbackStored(o.generation)] else [])
  }

  function StatusAfter(o: Object, env: Env, r: PassResult): Status {
    if (r.Held? || r.Full?) && env.writeOk then r.status else o.status
  }

  function Next(w: World, a: Act): World {
    match a
    case Edit(spec) =>
      if spec == w.obj.spec then w
      else w.(obj := w.obj.(spec := spec, generation := w.obj.generation + 1))
    case Reconcile(env) =>
      var r := Pass(w.obj, env);
      World(w.obj.(status := StatusAfter(w.obj, env, r)), w.log + EventsOf(w.obj, env, r))
  }

  ghost predicate Allowed(a: Act) {
    match a
    case Edit(spec) => spec.Valid()
    case Reconcile(env) => env.Accounted()
  }

  function Run(w: World, acts: seq<Act>): World {
    if acts == [] then w else Next(Run(w, acts[..|acts| - 1]), acts[|acts| - 1])
  }

  ghost predicate AllAllowed(acts: seq<Act>) { forall a | a in acts :: Allowed(a) }

  /** A freshly created migration. */
  predicate Initial(w: World) {
    w.log == [] && w.obj.generation == 1 && w.obj.spec.Valid() && w.obj.status == EMPTY
  }

  ghost predicate ObjectInv(o: Object) {
    o.generation >= 1 && o.spec.Valid() && StatusInv(o.status, o.generation)
  }

  /** No event is younger than the object, and a rollback stored at the current generation still
      holds the migration. */
  ghost predicate LogInv(w: World) {
    && (forall e | e in w.log :: e.generation <= w.obj.generation)
    && (forall e | e in w.log && e.RollbackStored? && e.generation == w.obj.generation :: HeldAfterRollback(w.obj))
    && (forall e | e in w.log && e.AlertSent? && e.stored && e.generation == w.obj.generation ::
        HeldAfterRollback(w.obj))
  }

  lemma EventsAreCurrent(o: Object, env: Env, r: PassResult)
    ensures forall e | e in EventsOf(o, env, r) :: e.generation == o.generation
  {
  }

  lemma PassKeepsObject(o: Object, env: Env)
    requires ObjectInv(o) && env.Accounted()
    ensures ObjectInv(o.(status := StatusAfter(o, env, Pass(o, env))))
  {
    if Pass(o, env).Full? { FullPassConsistent(o, env); }
    if Pass(o, env).Held? { HeldPassConsistent(o, env); }
  }

  /** Whatever a pass logs about a stored rollback, the stored status holds the migration. */
  lemma StoredRollbackHolds(o: Object, env: Env)
    requires ObjectInv(o) && env.Accounted()
    ensures forall e | e in EventsOf(o, env, Pass(o, env)) && (e.RollbackStored? || (e.AlertSent? && e.stored)) ::
              HeldAfterRollback(o.(status := StatusAfter(o, env, Pass(o, env))))
  {
    if Pass(o, env).Full? { FullPassConsistent(o, env); }
    RollbackEventsNeedBreach(o, env, Pass(o, env));
  }

  lemma RollbackEventsNeedBreach(o: Object, env: Env, r: PassResult)
    requires r.Full? && r.alert.Some? ==> r.traffic.health.breach.Some?
    ensures forall e | e in EventsOf(o, env, r) && (e.RollbackStored? || (e.AlertSent? && e.stored)) ::
              r.Full? && r.traffic.health.breach.Some? && env.writeOk
  {
  }

  /** A held migration logs nothing. */
  lemma HeldLogsNothing(o: Object, env: Env)
    requires HeldAfterRollback(o)
    ensures EventsOf(o, env, Pass(o, env)) == [] && StatusAfter(o, env, Pass(o, env)) == o.status
  {
  }

  lemma PassKeepsLog(w: World, env: Env)
    requires ObjectInv(w.obj) && LogInv(w) && env.Accounted()
    ensures LogInv(Next(w, Reconcile(env)))
  {
    EventsAreCurrent(w.obj, env, Pass(w.obj, env));
    StoredRollbackHolds(w.obj, env);
    if HeldAfterRollback(w.obj) { HeldLogsNothing(w.obj, env); }
  }

  /** Every reachable status is consistent, however passes and edits interleave. */
  lemma {:induction false} ReachableInv(w: World, acts: seq<Act>)
    requires ObjectInv(w.obj) && LogInv(w) && AllAllowed(acts)
    ensures ObjectInv(Run(w, acts).obj) && LogInv(Run(w, acts))
  {
    if acts != [] {
      var init, a := acts[..|acts| - 1], acts[|acts| - 1];
      ReachableInv(w, init);
      var mid := Run(w, init);
      assert Allowed(a);
      match a
      case Edit(spec) =>
      case Reconcile(env) =>
        PassKeepsObject(mid.obj, env);
        PassKeepsLog(mid, env);
    }
  }

  lemma InitialInv(w: World)
    requires Initial(w)
    ensures ObjectInv(w.obj) && LogInv(w)
  {
  }

  /*** No flapping ***/

  /** The generations of the stored rollbacks, oldest first. */
  function Rollbacks(log: seq<Event>): seq<int> {
    if log == [] then []
    else
      var last := log[|log| - 1];
      Rollbacks(log[..|log| - 1]) + if last.RollbackStored? then [last.generation] else []
  }

  ghost predicate Increasing(s: seq<int>) { forall i, j | 0 <= i < j < |s| :: s[i] < s[j] }

  lemma {:induction false} RollbacksAppend(a: seq<Event>, b: seq<Event>)
    ensures Rollbacks(a + b) == Rollbacks(a) + Rollbacks(b)
  {
    if b == [] {
      assert a + b == a;
    } else {
      assert (a + b)[..|a + b| - 1] == a + b[..|b| - 1];
      RollbacksAppend(a, b[..|b| - 1]);
    }
  }

  lemma {:induction false} RollbacksAreLogged(log: seq<Event>)
    ensures forall g | g in Rollbacks(log) :: RollbackStored(g) in log
  {
    if log != [] {
      assert log == log[..|log| - 1] + [log[|log| - 1]];
      RollbacksAreLogged(log[..|log| - 1]);
    }
  }

  lemma {:induction false} NoRollbackEvents(log: seq<Event>)
    requires forall e | e in log :: !e.RollbackStored?
    ensures Rollbacks(log) == []
  {
    if log != [] {
      assert log[|log| - 1] in log;
      NoRollbackEvents(log[..|log| - 1]);
    }
  }

  lemma RollbackEvents(o: Object, env: Env, r: PassResult)
    ensures Rollbacks(EventsOf(o, env, r))
            == if r.Full? && r.traffic.health.breach.Some? && env.writeOk then [o.generation] else []
  {
    var events := EventsOf(o, env, r);
    if r.Full? && r.traffic.health.breach.Some? && env.writeOk {
      var before := events[..|events| - 1];
      assert events == before + [RollbackStored(o.generation)];
      assert forall e | e in before :: !e.RollbackStored?;
      NoRollbackEvents(before);
    } else {
      NoRollbackEvents(events);
    }
  }

  lemma PassRollbacks(o: Object, env: Env)
    ensures Rollbacks(EventsOf(o, env, Pass(o, env))) == []
         || (Rollbacks(EventsOf(o, env, Pass(o, env))) == [o.generation] && !HeldAfterRollback(o)
             && Pass(o, env).Full? && Pass(o, env).traffic.health.breach.Some?)
  {
    RollbackEvents(o, env, Pass(o, env));
  }

  /** No flapping: along every run the generations at which a rollback is stored strictly increase,
      so each spec generation is rolled back at most once. */
  lemma {:induction false} NoFlapping(w: World, acts: seq<Act>)
    requires Initial(w) && AllAllowed(acts)
    ensures Increasing(Rollbacks(Run(w, acts).log))
  {
    if acts != [] {
      var init, a := acts[..|acts| - 1], acts[|acts| - 1];
      NoFlapping(w, init);
      InitialInv(w);
      ReachableInv(w, init);
      var mid := Run(w, init);
      if a.Reconcile? { RollbacksGrow(mid, a.env); }
    }
  }

  lemma RollbacksGrow(w: World, env: Env)
    requires LogInv(w) && Increasing(Rollbacks(w.log))
    ensures Increasing(Rollbacks(Next(w, Reconcile(env)).log))
  {
    var events := EventsOf(w.obj, env, Pass(w.obj, env));
    RollbacksAppend(w.log, events);
    RollbacksAreLogged(w.log);
    PassRollbacks(w.obj, env);
    forall i | 0 <= i < |Rollbacks(w.log)| && Rollbacks(events) != []
      ensures Rollbacks(w.log)[i] < w.obj.generation
    {
      assert RollbackStored(Rollbacks(w.log)[i]) in w.log;
    }
  }

  /** Every stored rollback has a witness: a pass of the run, at that generation, whose percentage
      before the health check was strictly between 0 and 100 and whose comparison breached the
      thresholds of the spec. */
  lemma {:induction false} RollbackHasWitness(w: World, acts: seq<Act>, g: int) returns (k: nat)
    requires w.log == [] && g in Rollbacks(Run(w, acts).log)
    ensures k < |acts| && acts[k].Reconcile?
    ensures var o := Run(w, acts[..k]).obj;
            && o.generation == g && Pass(o, acts[k].env).Full?
            && var t := Pass(o, acts[k].env).traffic;
               && 0 < t.clamped < 100 && t.health.breach.Some? && o.spec.monitoring.Some?
               && Evaluate(o.spec.monitoring.value.thresholds, acts[k].env.metrics) == t.health.breach
  {
    var init, a := acts[..|acts| - 1], acts[|acts| - 1];
    var mid := Run(w, init);
    if g in Rollbacks(mid.log) {
      k := RollbackHasWitness(w, init, g);
      assert init[..k] == acts[..k];
    } else {
      k := |init|;
      RollbacksAppend(mid.log, EventsOf(mid.obj, a.env, Pass(mid.obj, a.env)));
      PassRollbacks(mid.obj, a.env);
      RollbackWitness(mid.obj, a.env);
    }
  }

  lemma BreachMeansWorse(thresholds: Option<Thresholds>, metrics: Option<Comparison>)
    requires Evaluate(thresholds, metrics).Some?
    ensures thresholds.Some?
    ensures var delta, b := thresholds.value.throughputDelta, Evaluate(thresholds, metrics).value;
            (delta.Some? ==> delta.value >= 0.0) ==> StrictlyWorse(b.kind, b.ingress, b.gateway)
  {
    ComparesFairlyExactlyWhen(thresholds.value);
  }

  /** So, with a throughput delta that is not negative, each stored rollback rests on a measurement on
      which the Gateway was strictly worse than the Ingress. */
  lemma {:induction false} RollbackMeansWorse(w: World, acts: seq<Act>, g: int) returns (k: nat)
    requires w.log == [] && g in Rollbacks(Run(w, acts).log)
    ensures k < |acts| && acts[k].Reconcile?
    ensures var m := Run(w, acts[..k]).obj.spec.monitoring;
            && Run(w, acts[..k]).obj.generation == g
            && m.Some? && Evaluate(m.value.thresholds, acts[k].env.metrics).Some?
            && m.value.thresholds.Some?
            && var delta, b := m.value.thresholds.value.throughputDelta,
               Evaluate(m.value.thresholds, acts[k].env.metrics).value;
               (delta.Some? ==> delta.value >= 0.0) ==> StrictlyWorse(b.kind, b.ingress, b.gateway)
  {
    k := RollbackHasWitness(w, acts, g);
    BreachMeansWorse(Run(w, acts[..k]).obj.spec.monitoring.value.thresholds, acts[k].env.metrics);
  }

  /** From a stored rollback until the spec is edited nothing moves: no pass calls a hook, converts,
      alerts or writes, and the percentage stays 0. */
  lemma {:induction false} HeldUntilEdited(w: World, acts: seq<Act>)
    requires ObjectInv(w.obj) && HeldAfterRollback(w.obj)
    requires forall a | a in acts :: a.Edit? ==> a.spec == w.obj.spec
    ensures Run(w, acts) == w && w.obj.status.percentage == 0
  {
    if acts != [] {
      HeldUntilEdited(w, acts[..|acts| - 1]);
      assert acts[|acts| - 1] in acts;
    }
  }

  /*** Alerts ***/

  /** An alert is sent again at the same generation only if the status recording the first one could
      not be stored. */
  lemma {:induction false} AlertsRepeatOnlyUnstored(w: World, acts: seq<Act>, i: nat, j: nat)
    requires Initial(w) && AllAllowed(acts)
    requires i < j < |Run(w, acts).log|
    requires Run(w, acts).log[i].AlertSent? && Run(w, acts).log[j].AlertSent?
    requires Run(w, acts).log[i].generation == Run(w, acts).log[j].generation
    ensures !Run(w, acts).log[i].stored
  {
    var init, a := acts[..|acts| - 1], acts[|acts| - 1];
    InitialInv(w);
    ReachableInv(w, init);
    var mid := Run(w, init);
    if j < |mid.log| {
      AlertsRepeatOnlyUnstored(w, init, i, j);
    } else {
      AlertAfter(mid, a.env, i, j);
    }
  }

  lemma AlertAfter(w: World, env: Env, i: nat, j: nat)
    requires LogInv(w) && i < j && |w.log| <= j < |Next(w, Reconcile(env)).log|
    requires Next(w, Reconcile(env)).log[i].AlertSent? && Next(w, Reconcile(env)).log[j].AlertSent?
    requires Next(w, Reconcile(env)).log[i].generation == Next(w, Reconcile(env)).log[j].generation
    ensures !Next(w, Reconcile(env)).log[i].stored
  {
    var events := EventsOf(w.obj, env, Pass(w.obj, env));
    EventsAreCurrent(w.obj, env, Pass(w.obj, env));
    assert Next(w, Reconcile(env)).log[j] == events[j - |w.log|];
    if i < |w.log| {
      assert w.log[i] in w.log;
    } else {
      OneAlertPerPass(w.obj, env, i - |w.log|, j - |w.log|);
    }
  }

  lemma OneAlertPerPass(o: Object, env: Env, i: nat, j: nat)
    requires i < j < |EventsOf(o, env, Pass(o, env))|
    ensures !(EventsOf(o, env, Pass(o, env))[i].AlertSent? && EventsOf(o, env, Pass(o, env))[j].AlertSent?)
  {
  }

  /** A pass that alerts can be followed by another alert without an edit exactly when its status could
      not be stored: a stored one holds the migration, an unstored one leaves the object as it was. */
  lemma AlertCanRepeatExactlyWhenUnstored(o: Object, env: Env)
    requires ObjectInv(o) && env.Accounted() && Pass(o, env).Full? && Pass(o, env).alert.Some?
    ensures var next := o.(status := StatusAfter(o, env, Pass(o, env)));
            (exists e: Env :: e.Accounted() && Pass(next, e).Full? && Pass(next, e).alert.Some?) <==> !env.writeOk
  {
    FullPassConsistent(o, env);
    assert Pass(o, env).traffic.health.breach.Some?;
  }

  /** A migration on its first canary step, seen by a controller whose status writes fail while the
      Gateway's error rate is up. */
  function Unlucky(): (World, Env) {
    var thresholds := Thresholds(Some(0.0), 0, 0.0, None);
    var spec := Spec(false, CanaryMode, None, false, 0, {}, Some(Monitoring(true, None, Some(thresholds), None)),
                     false);
    (World(Object(spec, 1, 0, EMPTY), []),
     Env(Wiring(false, true, true, "https://alerts.example"), 0, _ => true,
         Some(Comparison(Some(Metric(0.0, 1.0)), None, None, None)), true, true, false, 1, 1, 0, []))
  }

  /** And it is reached: two passes over a fresh object alert twice at generation 1. */
  lemma AlertRepeats()
    ensures var (w, env) := Unlucky();
            && Initial(w) && AllAllowed([Reconcile(env), Reconcile(env)])
            && exists i, j :: 0 <= i < j < |Run(w, [Reconcile(env), Reconcile(env)]).log|
                 && Run(w, [Reconcile(env), Reconcile(env)]).log[i] == AlertSent(1, false)
                 && Run(w, [Reconcile(env), Reconcile(env)]).log[j] == AlertSent(1, false)
  {
    var (w, env) := Unlucky();
    var once := [Reconcile(env)];
    UnluckyAlerts();
    assert once[..0] == [] && [Reconcile(env), Reconcile(env)][..1] == once;
    assert Run(w, []) == w && Run(w, once) == Next(w, Reconcile(env));
    var events := EventsOf(w.obj, env, Pass(w.obj, env));
    assert events[1] == AlertSent(1, false);
    assert Run(w, [Reconcile(env), Reconcile(env)]).log == w.log + events + events;
    assert (w.log + events + events)[1] == events[1] && (w.log + events + events)[|events| + 1] == events[1];
  }

  lemma UnluckyAlerts()
    ensures var (w, env) := Unlucky();
            Pass(w.obj, env).Full? && Pass(w.obj, env).alert.Some? && Pass(w.obj, env).called == []
  {
    var (w, env) := Unlucky();
    assert CanaryPercentage(None, 0) == 25;
    assert Route(w.obj, env, []).clamped == 25;
    assert Route(w.obj, env, []).health.breach.Some?;
  }

  /*** Hooks over runs ***/

  /** An approval on record was given by the hook, at that generation. */
  ghost predicate ApprovalsBacked(w: World) {
    forall s, g :: ApprovedAt(w.obj.status.conditions, s, g) ==> HookCalled(s, g, true) in w.log
  }

  /** Where the approvals after a hook run come from. */
  lemma HookApprovals(o: Object, env: Env, conds: seq<Condition>, stage: Stage, blocking: bool, s: Stage, g: int)
    requires ApprovedAt(RunHook(o, env, conds, stage, blocking).conds, s, g)
    ensures ApprovedAt(conds, s, g)
         || (s == stage && g == o.generation && env.answers(stage) && RunHook(o, env, conds, stage, blocking).called)
  {
    var r := RunHook(o, env, conds, stage, blocking);
    if r.called {
      var proceed := env.answers(stage);
      var mid := SetCondition(conds, HookCondition(stage), proceed, if proceed then Approved else Blocked, env.now);
      FindAfterSet(conds, HookCondition(stage), proceed, if proceed then Approved else Blocked, env.now,
                   HookCondition(s));
      FindAfterStamp(mid, HookCondition(stage), o.generation, HookCondition(s));
    }
  }

  lemma SetApprovals(conds: seq<Condition>, typ: ConditionType, isTrue: bool, reason: Reason, now: int, s: Stage,
                     g: int)
    requires !typ.HookCondition?
    ensures ApprovedAt(SetCondition(conds, typ, isTrue, reason, now), s, g) <==> ApprovedAt(conds, s, g)
  {
    FindAfterSet(conds, typ, isTrue, reason, now, HookCondition(s));
  }

  lemma RouteApprovals(o: Object, env: Env, conds: seq<Condition>, s: Stage, g: int)
    requires ApprovedAt(Route(o, env, conds).conds, s, g)
    ensures ApprovedAt(conds, s, g) || (g == o.generation && env.answers(s) && s in Route(o, env, conds).called)
  {
    var post := RunHook(o, env, conds, PostConversion, false);
    if RolloutPercentage(o, env) > 0 {
      HookApprovals(o, env, post.conds, PreRollout, true, s, g);
    }
    if ApprovedAt(post.conds, s, g) {
      HookApprovals(o, env, conds, PostConversion, false, s, g);
    }
  }

  lemma VerdictApprovals(o: Object, env: Env, t: Traffic, s: Stage, g: int)
    requires ApprovedAt(VerdictOf(o, env, t).conds, s, g)
    ensures ApprovedAt(t.conds, s, g) || (g == o.generation && env.answers(s) && s in VerdictOf(o, env, t).called)
  {
    var v := Conclude(o, env, t);
    SetApprovals(v.conds, RolledBackCondition, false, Resumed, env.now, s, g);
    assert ApprovedAt(v.conds, s, g) && v.called == VerdictOf(o, env, t).called;
    ConcludeApprovals(o, env, t, s, g);
  }

  lemma ConcludeApprovals(o: Object, env: Env, t: Traffic, s: Stage, g: int)
    requires ApprovedAt(Conclude(o, env, t).conds, s, g)
    ensures ApprovedAt(t.conds, s, g) || (g == o.generation && env.answers(s) && s in Conclude(o, env, t).called)
  {
    SetApprovals(t.conds, Ready, false, HealthRollback, env.now, s, g);
    SetApprovals(SetCondition(t.conds, Ready, false, HealthRollback, env.now), RolledBackCondition, true,
                 ThresholdBreached, env.now, s, g);
    SetApprovals(t.conds, Ready, false, AwaitingPreRolloutHook, env.now, s, g);
    SetApprovals(t.conds, Ready, false, NoMatchingIngresses, env.now, s, g);
    SetApprovals(t.conds, Ready, false, ConversionFailed, env.now, s, g);
    SetApprovals(t.conds, Ready, true, MigrationComplete, env.now, s, g);
    SetApprovals(t.conds, Ready, false, RolloutInProgress, env.now, s, g);
    var done := SetCondition(t.conds, Ready, true, MigrationComplete, env.now);
    if ApprovedAt(RunHook(o, env, done, PostRollout, false).conds, s, g) {
      HookApprovals(o, env, done, PostRollout, false, s, g);
    }
  }

  /** An approval in the status a pass computes was on record or was answered in this pass. */
  lemma PassApprovals(o: Object, env: Env, s: Stage, g: int)
    requires Pass(o, env).Held? || Pass(o, env).Full?
    requires ApprovedAt(Pass(o, env).status.conditions, s, g)
    ensures ApprovedAt(o.status.conditions, s, g)
         || (g == o.generation && HookCalled(s, g, true) in EventsOf(o, env, Pass(o, env)))
  {
    var pre := RunHook(o, env, o.status.conditions, PreConversion, true);
    var r := Pass(o, env);
    if r.Full? {
      VerdictApprovals(o, env, r.traffic, s, g);
      if ApprovedAt(r.traffic.conds, s, g) { RouteApprovals(o, env, pre.conds, s, g); }
    }
    if ApprovedAt(pre.conds, s, g) { HookApprovals(o, env, o.status.conditions, PreConversion, true, s, g); }
    if s in r.called && env.answers(s) { CalledInEvents(o, env, s); }
  }

  lemma CalledInEvents(o: Object, env: Env, s: Stage)
    requires Pass(o, env).Held? || Pass(o, env).Full?
    requires s in Pass(o, env).called
    ensures HookCalled(s, o.generation, env.answers(s)) in EventsOf(o, env, Pass(o, env))
  {
    var called := Pass(o, env).called;
    var i :| 0 <= i < |called| && called[i] == s;
    assert Called(called, o.generation, env)[i] == HookCalled(s, o.generation, env.answers(s));
  }

  lemma {:induction false} ApprovalsStayBacked(w: World, acts: seq<Act>)
    requires ApprovalsBacked(w)
    ensures ApprovalsBacked(Run(w, acts))
  {
    if acts != [] {
      var init, a := acts[..|acts| - 1], acts[|acts| - 1];
      ApprovalsStayBacked(w, init);
      var mid := Run(w, init);
      if a.Reconcile? {
        var r := Pass(mid.obj, a.env);
        forall s, g | ApprovedAt(Run(w, acts).obj.status.conditions, s, g)
          ensures HookCalled(s, g, true) in Run(w, acts).log
        {
          if (r.Held? || r.Full?) && a.env.writeOk { PassApprovals(mid.obj, a.env, s, g); }
        }
      }
    }
  }

  /** Gating over runs: whenever a pass converts with a PreConversion hook and a caller wired, the
      hook has approved at this very generation, in this run; and whenever it moves traffic with a
      PreRollout hook and a caller wired, so has that hook. */
  lemma GatesHold(w: World, acts: seq<Act>, env: Env)
    requires Initial(w) && AllAllowed(acts) && env.Accounted()
    requires Pass(Run(w, acts).obj, env).Full? && env.wiring.hookCaller
    ensures var mid := Run(w, acts);
            var log := Next(mid, Reconcile(env)).log;
            && (PreConversion in mid.obj.spec.hooks ==> HookCalled(PreConversion, mid.obj.generation, true) in log)
            && (PreRollout in mid.obj.spec.hooks && Pass(mid.obj, env).status.percentage > 0 ==>
                  HookCalled(PreRollout, mid.obj.generation, true) in log)
  {
    InitialInv(w);
    ReachableInv(w, acts);
    ApprovalsStayBacked(w, acts);
    var o := Run(w, acts).obj;
    FullPassConsistent(o, env);
    if PreConversion in o.spec.hooks { PassApprovals(o, env, PreConversion, o.generation); }
    if PreRollout in o.spec.hooks && Pass(o, env).status.percentage > 0 {
      PassApprovals(o, env, PreRollout, o.generation);
    }
  }

  /** What a pass logs when it converts behind a PreConversion hook: its approval is on record, or the
      first thing the pass logged. */
  lemma GatedConversion(o: Object, env: Env, i: nat)
    requires UniqueTypes(o.status.conditions)
    requires i < |EventsOf(o, env, Pass(o, env))| && EventsOf(o, env, Pass(o, env))[i] == Converting(o.generation, true)
    ensures ApprovedAt(o.status.conditions, PreConversion, o.generation)
         || (i > 0 && EventsOf(o, env, Pass(o, env))[0] == HookCalled(PreConversion, o.generation, true))
  {
    var pre := RunHook(o, env, o.status.conditions, PreConversion, true);
    assert Pass(o, env).Full? && PreConversion in o.spec.hooks && env.wiring.hookCaller;
    if pre.called {
      assert Pass(o, env).called[0] == PreConversion && env.answers(PreConversion);
      assert Called(Pass(o, env).called, o.generation, env)[0] == HookCalled(PreConversion, o.generation, true);
    }
  }

  /** Over every run, a conversion at a generation with a PreConversion hook and a caller comes after an
      approval of that hook at that generation. */
  lemma {:induction false} ConversionsComeApproved(w: World, acts: seq<Act>, i: nat, g: int)
    requires Initial(w) && AllAllowed(acts)
    requires i < |Run(w, acts).log| && Run(w, acts).log[i] == Converting(g, true)
    ensures exists j :: 0 <= j < i && Run(w, acts).log[j] == HookCalled(PreConversion, g, true)
  {
    var init, a := acts[..|acts| - 1], acts[|acts| - 1];
    var mid := Run(w, init);
    InitialInv(w);
    ReachableInv(w, init);
    if i < |mid.log| {
      ConversionsComeApproved(w, init, i, g);
      var j :| 0 <= j < i && mid.log[j] == HookCalled(PreConversion, g, true);
      assert Run(w, acts).log[j] == mid.log[j];
    } else {
      ApprovalsStayBacked(w, init);
      NewConversion(mid, a.env, i, g);
    }
  }

  lemma NewConversion(w: World, env: Env, i: nat, g: int)
    requires ObjectInv(w.obj) && ApprovalsBacked(w)
    requires |w.log| <= i < |Next(w, Reconcile(env)).log| && Next(w, Reconcile(env)).log[i] == Converting(g, true)
    ensures exists j :: 0 <= j < i && Next(w, Reconcile(env)).log[j] == HookCalled(PreConversion, g, true)
  {
    var events := EventsOf(w.obj, env, Pass(w.obj, env));
    EventsAreCurrent(w.obj, env, Pass(w.obj, env));
    assert events[i - |w.log|] in events;
    GatedConversion(w.obj, env, i - |w.log|);
    PrecedesIn(w.log, events, i - |w.log|, HookCalled(PreConversion, g, true));
  }

  /** Logged earlier, or first among the new events. */
  lemma PrecedesIn(log: seq<Event>, events: seq<Event>, i: nat, e: Event)
    requires i < |events| && (e in log || (i > 0 && events[0] == e))
    ensures exists j :: 0 <= j < |log| + i && (log + events)[j] == e
  {
    if e in log {
      var j :| 0 <= j < |log| && log[j] == e;
      assert (log + events)[j] == e;
    } else {
      assert (log + events)[|log|] == e;
    }
  }

  lemma RouteCalls(o: Object, env: Env, conds: seq<Condition>, s: Stage)
    requires UniqueTypes(conds) && ApprovedAt(conds, s, o.generation)
    ensures s !in Route(o, env, conds).called
  {
    HookKeeps(o, env, conds, PostConversion, false);
    HookKeeps(o, env, RunHook(o, env, conds, PostConversion, false).conds, PreRollout, true);
  }

  lemma VerdictCalls(o: Object, env: Env, t: Traffic, s: Stage)
    requires UniqueTypes(t.conds) && ApprovedAt(t.conds, s, o.generation)
    ensures s !in VerdictOf(o, env, t).called
  {
    SetKeeps(t.conds, Ready, true, MigrationComplete, env.now);
    HookKeeps(o, env, SetCondition(t.conds, Ready, true, MigrationComplete, env.now), PostRollout, false);
  }

  /** A pass never calls a hook that has approved at its generation. */
  lemma ApprovedHookNotCalled(o: Object, env: Env, s: Stage)
    requires UniqueTypes(o.status.conditions)
    requires ApprovedAt(o.status.conditions, s, o.generation)
    ensures forall e | e in EventsOf(o, env, Pass(o, env)) :: !(e.HookCalled? && e.stage == s)
  {
    var pre := RunHook(o, env, o.status.conditions, PreConversion, true);
    HookKeeps(o, env, o.status.conditions, PreConversion, true);
    RouteCalls(o, env, pre.conds, s);
    RouteKeeps(o, env, pre.conds);
    VerdictCalls(o, env, Route(o, env, pre.conds), s);
    CallsInEvents(o, env, s);
  }

  lemma CallsInEvents(o: Object, env: Env, s: Stage)
    requires Pass(o, env).Skipped? || s !in Pass(o, env).called
    ensures forall e | e in EventsOf(o, env, Pass(o, env)) :: !(e.HookCalled? && e.stage == s)
  {
    var r := Pass(o, env);
    if !r.Skipped? { StagesCalled(r.called, o.generation, env); }
  }

  lemma StagesCalled(stages: seq<Stage>, generation: int, env: Env)
    ensures forall e | e in Called(stages, generation, env) :: e.HookCalled? && e.stage in stages
  {
  }

  /** Once an approval for (stage, generation) is on record the stage is never called again at that
      generation, whatever happens. */
  lemma {:induction false} ApprovedOnceForAll(w: World, acts: seq<Act>, s: Stage)
    requires ObjectInv(w.obj) && LogInv(w) && AllAllowed(acts)
    requires ApprovedAt(w.obj.status.conditions, s, w.obj.generation)
    ensures var after := Run(w, acts);
            && w.log <= after.log
            && (forall i | |w.log| <= i < |after.log| :: !(after.log[i].HookCalled? && after.log[i].stage == s
                                                         && after.log[i].generation == w.obj.generation))
            && after.obj.generation >= w.obj.generation
            && (after.obj.generation == w.obj.generation ==>
                ApprovedAt(after.obj.status.conditions, s, w.obj.generation))
  {
    if acts != [] {
      var init, a := acts[..|acts| - 1], acts[|acts| - 1];
      ApprovedOnceForAll(w, init, s);
      ReachableInv(w, init);
      var mid := Run(w, init);
      assert Allowed(a);
      if a.Reconcile? {
        var r := Pass(mid.obj, a.env);
        var events := EventsOf(mid.obj, a.env, r);
        EventsAreCurrent(mid.obj, a.env, r);
        if mid.obj.generation == w.obj.generation {
          ApprovedHookNotCalled(mid.obj, a.env, s);
          if r.Full? { FullPassConsistent(mid.obj, a.env); }
          if r.Held? { HeldPassConsistent(mid.obj, a.env); }
        }
        forall i | |mid.log| <= i < |Run(w, acts).log|
          ensures Run(w, acts).log[i] in events
        {
        }
      }
    }
  }

  /** The stages a pass gets to: PreConversion unless it is skipped, the others in a full pass. */
  predicate Reached(o: Object, env: Env, s: Stage) {
    match s
    case PreConversion => !Pass(o, env).Skipped?
    case PostConversion => Pass(o, env).Full?
    case PreRollout => Pass(o, env).Full? && RolloutPercentage(o, env) > 0
    case PostRollout => Pass(o, env).Full? && Pass(o, env).status.percentage == 100
  }

  lemma RouteCalledExactlyWhen(o: Object, env: Env, conds: seq<Condition>, s: Stage)
    requires UniqueTypes(conds)
    ensures s in Route(o, env, conds).called
            <==> (s.PostConversion? || (s.PreRollout? && RolloutPercentage(o, env) > 0))
                 && s in o.spec.hooks && env.wiring.hookCaller && !ApprovedAt(conds, s, o.generation)
  {
    HookKeeps(o, env, conds, PostConversion, false);
  }

  lemma VerdictCalledExactlyWhen(o: Object, env: Env, t: Traffic, s: Stage)
    ensures s in VerdictOf(o, env, t).called
            <==> s.PostRollout? && Conclude(o, env, t).phase.Complete?
                 && s in o.spec.hooks && env.wiring.hookCaller && !ApprovedAt(t.conds, s, o.generation)
  {
    SetApprovals(t.conds, Ready, true, MigrationComplete, env.now, s, o.generation);
  }

  lemma RouteKeepsOthers(o: Object, env: Env, conds: seq<Condition>, typ: ConditionType)
    requires UniqueTypes(conds) && typ != HookCondition(PostConversion) && typ != HookCondition(PreRollout)
    ensures Find(Route(o, env, conds).conds, typ) == Find(conds, typ)
  {
    HookKeeps(o, env, conds, PostConversion, false);
    HookKeeps(o, env, RunHook(o, env, conds, PostConversion, false).conds, PreRollout, true);
  }

  /** A pass, however it ends, calls a hook exactly when it gets to the stage, the hook and a caller are
      configured, and no approval carries the current generation. Hooks are documented to be called once
      per generation, and PreRollout once before the first move away from 0; a refused hook is called
      again by every pass, and PreRollout whenever there is a share to move. */
  lemma HooksCalledExactlyWhen(o: Object, env: Env, s: Stage)
    requires ObjectInv(o) && env.Accounted()
    ensures HookCalledIn(o, env, s)
            <==> Reached(o, env, s) && s in o.spec.hooks && env.wiring.hookCaller
                 && !ApprovedAt(o.status.conditions, s, o.generation)
  {
    if Pass(o, env).Full? {
      FullPassCalls(o, env, s);
    }
  }

  predicate HookCalledIn(o: Object, env: Env, s: Stage) {
    !Pass(o, env).Skipped? && s in Pass(o, env).called
  }

  lemma FullPassCalls(o: Object, env: Env, s: Stage)
    requires ObjectInv(o) && env.Accounted() && Pass(o, env).Full?
    ensures s in Pass(o, env).called
            <==> Reached(o, env, s) && s in o.spec.hooks && env.wiring.hookCaller
                 && !ApprovedAt(o.status.conditions, s, o.generation)
  {
    var pre := RunHook(o, env, o.status.conditions, PreConversion, true);
    var t := Route(o, env, pre.conds);
    HookKeeps(o, env, o.status.conditions, PreConversion, true);
    FullPassConsistent(o, env);
    RouteCalledExactlyWhen(o, env, pre.conds, s);
    VerdictCalledExactlyWhen(o, env, t, s);
    if s.PostRollout? { RouteKeepsOthers(o, env, pre.conds, HookCondition(s)); }
  }

  /*** What share is written ***/

  /** PreRollout has something to decide, has not approved before and refuses now. */
  predicate Refuses(o: Object, env: Env) {
    RolloutPercentage(o, env) > 0 && PreRollout in o.spec.hooks && env.wiring.hookCaller
    && !ApprovedAt(o.status.conditions, PreRollout, o.generation) && !env.answers(PreRollout)
  }

  /** The share schedule, hook and approver grant together. */
  function Granted(o: Object, env: Env): int {
    var scheduled := RolloutPercentage(o, env);
    if Refuses(o, env) then 0
    else if o.spec.requireApproval && o.spec.approvedPercentage < scheduled then o.spec.approvedPercentage
    else scheduled
  }

  /** Traffic is split, a health check is due and answered, and some metric condemns the Gateway. */
  ghost predicate Condemned(o: Object, env: Env) {
    && 0 < Granted(o, env) < 100
    && o.spec.monitoring.Some? && o.spec.monitoring.value.enabled && o.spec.monitoring.value.thresholds.Some?
    && env.wiring.metricsSource && env.metrics.Some?
    && (o.status.nextHealthCheck.None? || o.status.nextHealthCheck.value <= env.now)
    && exists kind :: Condemns(kind, o.spec.monitoring.value.thresholds.value, env.metrics.value)
  }

  /** A full pass rolls back exactly when the Gateway stands condemned, and otherwise writes exactly the
      granted share. */
  lemma RollbackExactlyWhen(o: Object, env: Env)
    requires ObjectInv(o) && env.Accounted() && Pass(o, env).Full?
    ensures Pass(o, env).status.phase.RolledBack? <==> Condemned(o, env)
    ensures Pass(o, env).status.percentage == if Condemned(o, env) then 0 else Granted(o, env)
    ensures Pass(o, env).status.phase.Pending? <==> Refuses(o, env)
  {
    var pre := RunHook(o, env, o.status.conditions, PreConversion, true);
    HookKeeps(o, env, o.status.conditions, PreConversion, true);
    AwaitingExactlyWhen(o, env, pre.conds);
    TrafficInRange(o, env, pre.conds);
    FullPassConsistent(o, env);
    if o.spec.monitoring.Some? && o.spec.monitoring.value.thresholds.Some? && env.metrics.Some? {
      BreachExactlyWhen(o.spec.monitoring.value.thresholds.value, env.metrics.value);
    }
  }

  /** The phase and the reason of Ready after a full pass. */
  lemma PhaseExactly(o: Object, env: Env)
    requires ObjectInv(o) && env.Accounted() && Pass(o, env).Full?
    ensures var st := Pass(o, env).status;
            && (st.phase.Analyzing? <==> env.total == 0)
            && (st.phase.FailedPhase? <==> env.total > 0 && env.converted == 0 && env.failed > 0)
            && (st.phase.CanaryPhase? <==> env.total > 0 && !(env.converted == 0 && env.failed > 0)
                                           && !Condemned(o, env) && !Refuses(o, env) && st.percentage < 100)
            && Find(st.conditions, Ready).Some?
            && ReasonFor(st.phase, Find(st.conditions, Ready).value.reason)
  {
    var pre := RunHook(o, env, o.status.conditions, PreConversion, true);
    var t := Route(o, env, pre.conds);
    HookKeeps(o, env, o.status.conditions, PreConversion, true);
    FullPassConsistent(o, env);
    RollbackExactlyWhen(o, env);
    BaseInRange(o, env);
    TrafficInRange(o, env, pre.conds);
    RouteKeeps(o, env, pre.conds);
    VerdictPhase(o, env, t);
  }

  predicate ReasonFor(phase: Phase, reason: Reason) {
    match phase
    case RolledBack => reason == HealthRollback
    case Pending => reason == AwaitingPreRolloutHook
    case Analyzing => reason == NoMatchingIngresses
    case FailedPhase => reason == ConversionFailed
    case Complete => reason == MigrationComplete
    case CanaryPhase => reason == RolloutInProgress
    case NoPhase => false
  }

  lemma VerdictPhase(o: Object, env: Env, t: Traffic)
    requires UniqueTypes(t.conds)
    ensures var v := VerdictOf(o, env, t);
            && Find(v.conds, Ready).Some? && ReasonFor(v.phase, Find(v.conds, Ready).value.reason)
            && (!t.health.breach.Some? && !t.awaiting ==>
                  && (v.phase.Analyzing? <==> env.total == 0)
                  && (v.phase.FailedPhase? <==> env.total != 0 && env.failed > 0 && env.converted == 0))
            && (t.health.breach.Some? ==> v.phase.RolledBack?)
            && (!t.health.breach.Some? && t.awaiting ==> v.phase.Pending?)
  {
    var done := SetCondition(t.conds, Ready, true, MigrationComplete, env.now);
    SetKeeps(t.conds, Ready, true, MigrationComplete, env.now);
    HookKeeps(o, env, done, PostRollout, false);
    var v := Conclude(o, env, t);
    ReadyReasons(t.conds, env.now);
    FindAfterSet(SetCondition(t.conds, Ready, false, HealthRollback, env.now), RolledBackCondition, true,
                 ThresholdBreached, env.now, Ready);
    FindAfterSet(v.conds, RolledBackCondition, false, Resumed, env.now, Ready);
  }

  lemma ReadyReasons(conds: seq<Condition>, now: int)
    ensures forall b, r :: Find(SetCondition(conds, Ready, b, r, now), Ready).Some?
              && Find(SetCondition(conds, Ready, b, r, now), Ready).value.reason == r
  {
    forall b, r ensures Find(SetCondition(conds, Ready, b, r, now), Ready).Some?
      && Find(SetCondition(conds, Ready, b, r, now), Ready).value.reason == r
    {
      FindAfterSet(conds, Ready, b, r, now, Ready);
    }
  }

  /** The mark a rollback leaves says why, and the one a resumed migration carries says so. */
  lemma RollbackMark(o: Object, env: Env)
    requires ObjectInv(o) && env.Accounted() && Pass(o, env).Full?
    ensures var c := Find(Pass(o, env).status.conditions, RolledBackCondition);
            && (Pass(o, env).status.phase.RolledBack? ==>
                c.Some? && c.value.isTrue && c.value.reason == ThresholdBreached)
            && (!Pass(o, env).status.phase.RolledBack? && c.Some? ==> !c.value.isTrue && c.value.reason == Resumed)
  {
    var pre := RunHook(o, env, o.status.conditions, PreConversion, true);
    var t := Route(o, env, pre.conds);
    var v := Conclude(o, env, t);
    FullPassConsistent(o, env);
    FindAfterSet(SetCondition(t.conds, Ready, false, HealthRollback, env.now), RolledBackCondition, true,
                 ThresholdBreached, env.now, RolledBackCondition);
    FindAfterSet(v.conds, RolledBackCondition, false, Resumed, env.now, RolledBackCondition);
  }

  /*** What else a full pass writes ***/

  /** A health check runs: traffic is split, monitoring is on, a check is due, and the comparison arrives. */
  predicate Checks(o: Object, env: Env) {
    && 0 < Granted(o, env) < 100
    && o.spec.monitoring.Some? && o.spec.monitoring.value.enabled && o.spec.monitoring.value.thresholds.Some?
    && env.wiring.metricsSource && env.metrics.Some?
    && (o.status.nextHealthCheck.None? || o.status.nextHealthCheck.value <= env.now)
  }

  /** After a check the next one is due an interval later, five minutes if none is set; otherwise the
      times stay. */
  lemma CheckTimes(o: Object, env: Env)
    requires ObjectInv(o) && env.Accounted() && Pass(o, env).Full?
    ensures var st := Pass(o, env).status;
            if Checks(o, env) then
              && st.lastHealthCheck == Some(env.now) && st.nextHealthCheck.Some?
              && var wait := o.spec.monitoring.value.interval;
                 st.nextHealthCheck.value - env.now == if wait.Some?
                     && wait.value > 0 then wait.value else 300_000_000_000
            else st.lastHealthCheck == o.status.lastHealthCheck && st.nextHealthCheck == o.status.nextHealthCheck
  {
    var pre := RunHook(o, env, o.status.conditions, PreConversion, true);
    HookKeeps(o, env, o.status.conditions, PreConversion, true);
    AwaitingExactlyWhen(o, env, pre.conds);
    BaseInRange(o, env);
  }

  /** An alert goes out on a rollback, to the migration's own address if it configures alerting and has it
      enabled, to the cluster's default if it does not configure it, and to nobody without an address. */
  lemma AlertGoesExactlyTo(o: Object, env: Env, url: string)
    requires ObjectInv(o) && env.Accounted() && Pass(o, env).Full?
    ensures Pass(o, env).alert == Some(url)
            <==> && Condemned(o, env) && env.wiring.alerter && url != ""
                 && (if o.spec.monitoring.value.alerting.Some?
                     then o.spec.monitoring.value.alerting.value == Alerting(true, url)
                     else env.wiring.defaultWebhookURL == url)
  {
    RollbackExactlyWhen(o, env);
    FullPassConsistent(o, env);
  }

  /** Counters, readiness and transition time as told, and the plan under required approval. */
  lemma FullPassPublishes(o: Object, env: Env)
    requires Pass(o, env).Full?
    ensures var st := Pass(o, env).status;
            && st.processed == Some(Processed(env.total, env.converted, env.failed,
                                              env.total - env.converted - env.failed))
            && (st.rollbackReady <==> env.converted > 0) && st.lastTransition == Some(env.now)
            && (st.pendingPlan.Some? <==> o.spec.requireApproval)
            && (st.pendingPlan.Some? ==> st.pendingPlan.value.changes == env.changes)
  {
  }

  lemma AwaitingExactlyWhen(o: Object, env: Env, conds: seq<Condition>)
    requires UniqueTypes(conds)
    ensures Route(o, env, conds).awaiting
            <==> RolloutPercentage(o, env) > 0 && PreRollout in o.spec.hooks && env.wiring.hookCaller
                 && !ApprovedAt(conds, PreRollout, o.generation) && !env.answers(PreRollout)
  {
    HookKeeps(o, env, conds, PostConversion, false);
  }

  /*** When a hook is called again ***/

  lemma HookRecorded(o: Object, env: Env, conds: seq<Condition>, stage: Stage, blocking: bool)
    requires RunHook(o, env, conds, stage, blocking).called && env.answers(stage)
    ensures ApprovedAt(RunHook(o, env, conds, stage, blocking).conds, stage, o.generation)
  {
    var mid := SetCondition(conds, HookCondition(stage), true, Approved, env.now);
    FindAfterSet(conds, HookCondition(stage), true, Approved, env.now, HookCondition(stage));
    FindAfterStamp(mid, HookCondition(stage), o.generation, HookCondition(stage));
  }

  lemma RouteRecords(o: Object, env: Env, conds: seq<Condition>, s: Stage)
    requires UniqueTypes(conds) && s in Route(o, env, conds).called && env.answers(s)
    ensures ApprovedAt(Route(o, env, conds).conds, s, o.generation)
  {
    var post := RunHook(o, env, conds, PostConversion, false);
    HookKeeps(o, env, conds, PostConversion, false);
    HookKeeps(o, env, post.conds, PreRollout, true);
    if s.PostConversion? { HookRecorded(o, env, conds, PostConversion, false); }
    if s.PreRollout? { HookRecorded(o, env, post.conds, PreRollout, true); }
  }

  lemma VerdictRecords(o: Object, env: Env, t: Traffic, s: Stage)
    requires s in VerdictOf(o, env, t).called && env.answers(s)
    ensures ApprovedAt(VerdictOf(o, env, t).conds, s, o.generation)
  {
    var v := Conclude(o, env, t);
    HookRecorded(o, env, SetCondition(t.conds, Ready, true, MigrationComplete, env.now), PostRollout, false);
    SetApprovals(v.conds, RolledBackCondition, false, Resumed, env.now, s, o.generation);
  }

  /** The answer of a called hook is what the computed status says about the stage. */
  lemma AnswerIsRecorded(o: Object, env: Env, s: Stage)
    requires ObjectInv(o) && env.Accounted() && (Pass(o, env).Held? || Pass(o, env).Full?)
    requires s in Pass(o, env).called
    ensures ApprovedAt(Pass(o, env).status.conditions, s, o.generation) <==> env.answers(s)
  {
    HooksCalledExactlyWhen(o, env, s);
    if ApprovedAt(Pass(o, env).status.conditions, s, o.generation) {
      PassApprovals(o, env, s, o.generation);
      EventsCarryAnswers(o, env, Pass(o, env), s);
    }
    if Pass(o, env).Full? && env.answers(s) { FullPassRecords(o, env, s); }
  }

  lemma EventsCarryAnswers(o: Object, env: Env, r: PassResult, s: Stage)
    ensures forall e | e in EventsOf(o, env, r) && e.HookCalled? && e.stage == s :: e.approved == env.answers(s)
  {
  }

  lemma FullPassRecords(o: Object, env: Env, s: Stage)
    requires ObjectInv(o) && env.Accounted() && Pass(o, env).Full? && s in Pass(o, env).called && env.answers(s)
    ensures ApprovedAt(Pass(o, env).status.conditions, s, o.generation)
  {
    var pre := RunHook(o, env, o.status.conditions, PreConversion, true);
    var t := Route(o, env, pre.conds);
    HookKeeps(o, env, o.status.conditions, PreConversion, true);
    RouteKeeps(o, env, pre.conds);
    TrafficInRange(o, env, pre.conds);
    ConcludeKeeps(o, env, t);
    ResumeKeeps(Conclude(o, env, t), t.health.breach.Some?, env.now);
    if s in t.called { RouteRecords(o, env, pre.conds, s); }
    if s in VerdictOf(o, env, t).called { VerdictRecords(o, env, t, s); }
    if s.PreConversion? { HookRecorded(o, env, o.status.conditions, PreConversion, true); }
  }

  /** Under the same surroundings a pass over the outcome of a pass gets at least as far. */
  lemma ReachedAgain(o: Object, env: Env, s: Stage)
    requires ObjectInv(o) && env.Accounted() && HookCalledIn(o, env, s)
    requires var next := o.(status := StatusAfter(o, env, Pass(o, env))); !HeldAfterRollback(next)
    ensures Reached(o.(status := StatusAfter(o, env, Pass(o, env))), env, s)
  {
    var next := o.(status := StatusAfter(o, env, Pass(o, env)));
    PassKeepsObject(o, env);
    HooksCalledExactlyWhen(o, env, s);
    if Pass(o, env).Full? {
      FullPassConsistent(o, env);
      FullAgain(o, next, env);
      if s.PostRollout? { SameGrant(o, next, env); }
    }
  }

  lemma FullAgain(o: Object, next: Object, env: Env)
    requires Pass(o, env).Full? && next == o.(status := next.status) && !HeldAfterRollback(next)
    requires ApprovedAt(o.status.conditions, PreConversion, o.generation) ==>
               ApprovedAt(next.status.conditions, PreConversion, o.generation)
    ensures Pass(next, env).Full?
  {
  }

  lemma SameGrant(o: Object, next: Object, env: Env)
    requires ObjectInv(o) && ObjectInv(next) && env.Accounted() && Pass(o, env).Full? && Pass(next, env).Full?
    requires next == o.(status := next.status) && Pass(o, env).status.percentage == 100
    requires ApprovedAt(o.status.conditions, PreRollout, o.generation) ==>
               ApprovedAt(next.status.conditions, PreRollout, o.generation)
    ensures Pass(next, env).status.percentage == 100
  {
    RollbackExactlyWhen(o, env);
    RollbackExactlyWhen(next, env);
  }

  /** After a pass that calls a hook, a pass without an edit in between can call it again exactly when the
      migration is not held by a rollback, and the hook refused or its approval was not stored. */
  lemma HookCanRepeatExactlyWhen(o: Object, env: Env, s: Stage)
    requires ObjectInv(o) && env.Accounted() && HookCalledIn(o, env, s)
    ensures var next := o.(status := StatusAfter(o, env, Pass(o, env)));
            (exists e: Env :: e.Accounted() && HookCalledIn(next, e, s))
            <==> !HeldAfterRollback(next)
                 && !(env.answers(s) && env.writeOk && (Pass(o, env).Held? || Pass(o, env).Full?))
  {
    var next := o.(status := StatusAfter(o, env, Pass(o, env)));
    PassKeepsObject(o, env);
    HooksCalledExactlyWhen(o, env, s);
    if Pass(o, env).Held? || Pass(o, env).Full? { AnswerIsRecorded(o, env, s); }
    forall e: Env | e.Accounted()
      ensures HookCalledIn(next, e, s) ==>
                !HeldAfterRollback(next) && !ApprovedAt(next.status.conditions, s, o.generation)
    {
      HooksCalledExactlyWhen(next, e, s);
    }
    if !HeldAfterRollback(next) && !ApprovedAt(next.status.conditions, s, o.generation) {
      ReachedAgain(o, env, s);
      HooksCalledExactlyWhen(next, env, s);
      assert HookCalledIn(next, env, s);
    }
  }

  /** In a reachable state an edit, even one that only raises the approved percentage, withdraws
      every approval: each configured hook is asked anew. */
  lemma EditsWithdrawApprovals(w: World, acts: seq<Act>, spec: Spec, s: Stage)
    requires Initial(w) && AllAllowed(acts) && spec != Run(w, acts).obj.spec
    ensures var edited := Next(Run(w, acts), Edit(spec)).obj;
            !ApprovedAt(edited.status.conditions, s, edited.generation)
  {
    InitialInv(w);
    ReachableInv(w, acts);
    ApprovalsStayBacked(w, acts);
    var mid := Run(w, acts);
    assert HookCalled(s, mid.obj.generation + 1, true) !in mid.log;
  }

  /*** Monotone traffic within a generation ***/

  /** The share a pass gives the Gateway at time `now` when nothing stands in the way. */
  function Share(o: Object, now: int): int {
    var scheduled := match o.spec.mode
      case Immediate => 100
      case Gradual => CanaryPercentage(o.spec.canary, Since(o.created, now))
      case CanaryMode => CanaryPercentage(o.spec.canary, Since(o.created, now))
      case OtherMode => 100;
    if o.spec.requireApproval && scheduled > o.spec.approvedPercentage then o.spec.approvedPercentage else scheduled
  }

  /** What the schedule plans for time `t`, if the spec follows it at all, fits int32. */
  predicate ScheduleFits(o: Object, t: int) {
    (o.spec.mode.Gradual? || o.spec.mode.CanaryMode?) ==>
      Fits32(Planned(if o.spec.canary.Some? then o.spec.canary.value else DEFAULTS, Since(o.created, t)))
  }

  /** With steps of at least 430 seconds, as in every default, it always does. */
  lemma LongStepsAlwaysFit(o: Object, t: int)
    requires o.spec.Valid()
    requires (if o.spec.canary.Some? then o.spec.canary.value else DEFAULTS).Step() >= 430_000_000_000
    ensures ScheduleFits(o, t)
  {
    LongStepsFit(if o.spec.canary.Some? then o.spec.canary.value else DEFAULTS, Since(o.created, t));
  }

  lemma ShareMonotone(o: Object, earlier: int, later: int)
    requires o.spec.Valid() && earlier <= later && ScheduleFits(o, earlier) && ScheduleFits(o, later)
    ensures 0 <= Share(o, earlier) <= Share(o, later) <= 100
  {
    FollowsPlanExactlyWhen(o.spec.canary, Since(o.created, earlier));
    FollowsPlanExactlyWhen(o.spec.canary, Since(o.created, later));
    if o.spec.mode.Gradual? || o.spec.mode.CanaryMode? {
      ScheduleMonotone(o.spec.canary, Since(o.created, earlier), Since(o.created, later));
    }
  }

  /** Any traffic moved so far is within the share of time `t` and past the PreRollout gate. */
  predicate Settled(o: Object, t: int) {
    o.status.percentage > 0 ==>
      o.status.percentage <= Share(o, t)
      && (PreRollout in o.spec.hooks ==> ApprovedAt(o.status.conditions, PreRollout, o.generation))
  }

  /** A pass over a conversion without failures, with a hook caller if there is a gate to ask. */
  predicate NoFailures(o: Object, env: Env) {
    env.Accounted() && env.converted > 0 && env.failed == 0
    && (PreRollout in o.spec.hooks ==> env.wiring.hookCaller)
  }

  /** One pass of a settled migration: traffic only goes up, unless the migration is rolled back. */
  lemma PassMovesForward(o: Object, env: Env, t: int)
    requires ObjectInv(o) && Settled(o, t) && t <= env.now && NoFailures(o, env)
    requires ScheduleFits(o, t) && ScheduleFits(o, env.now)
    ensures var after := o.(status := StatusAfter(o, env, Pass(o, env)));
            HeldAfterRollback(after) || (Settled(after, env.now) && after.status.percentage >= o.status.percentage)
  {
    ShareMonotone(o, t, env.now);
    var r := Pass(o, env);
    if r.Held? { HeldPassConsistent(o, env); }
    if r.Full? {
      FullPassConsistent(o, env);
      var pre := RunHook(o, env, o.status.conditions, PreConversion, true);
      HookKeeps(o, env, o.status.conditions, PreConversion, true);
      var post := RunHook(o, env, pre.conds, PostConversion, false);
      HookKeeps(o, env, pre.conds, PostConversion, false);
      TrafficInRange(o, env, pre.conds);
      assert o.status.percentage > 0 ==> r.traffic.clamped == Share(o, env.now);
      assert r.traffic.clamped <= Share(o, env.now);
    }
  }

  /** Once settled, a pass lowers the share exactly when it rolls back, or a conversion failed or none
      succeeded, and there is a share to lower. */
  lemma PassLowersExactlyWhen(o: Object, env: Env, t: int)
    requires ObjectInv(o) && Settled(o, t) && t <= env.now && env.Accounted() && Pass(o, env).Full?
    requires ScheduleFits(o, t) && ScheduleFits(o, env.now)
    ensures Pass(o, env).status.percentage < o.status.percentage
            <==> o.status.percentage > 0 && (Condemned(o, env) || env.converted == 0 || env.failed > 0)
  {
    ShareMonotone(o, t, env.now);
    RollbackExactlyWhen(o, env);
    assert env.converted > 0 && env.failed == 0 && !Refuses(o, env) ==> Granted(o, env) == Share(o, env.now);
  }

  /** The planned value fits at `t` and at every reconcile time. */
  ghost predicate FitsThroughout(o: Object, acts: seq<Act>, t: int) {
    ScheduleFits(o, t) && forall a | a in acts && a.Reconcile? :: ScheduleFits(o, a.env.now)
  }

  lemma LongStepsFitThroughout(o: Object, acts: seq<Act>, t: int)
    requires o.spec.Valid()
    requires (if o.spec.canary.Some? then o.spec.canary.value else DEFAULTS).Step() >= 430_000_000_000
    ensures FitsThroughout(o, acts, t)
  {
    forall now ensures ScheduleFits(o, now) { LongStepsAlwaysFit(o, now); }
  }

  lemma {:induction false} FitsAtLastTime(o: Object, acts: seq<Act>, t: int)
    requires FitsThroughout(o, acts, t)
    ensures ScheduleFits(o, LastTime(acts, t))
  {
    if acts != [] && !acts[|acts| - 1].Reconcile? {
      assert acts == acts[..|acts| - 1] + [acts[|acts| - 1]];
      FitsAtLastTime(o, acts[..|acts| - 1], t);
    }
  }

  /** The reconcile times of a run never go back, and none is before `t`. */
  ghost predicate Clocked(acts: seq<Act>, t: int) {
    && (forall i | 0 <= i < |acts| && acts[i].Reconcile? :: t <= acts[i].env.now)
    && (forall i, j | 0 <= i < j < |acts| && acts[i].Reconcile? && acts[j].Reconcile? ::
        acts[i].env.now <= acts[j].env.now)
  }

  function LastTime(acts: seq<Act>, t: int): int {
    if acts == [] then t
    else if acts[|acts| - 1].Reconcile? then acts[|acts| - 1].env.now
    else LastTime(acts[..|acts| - 1], t)
  }

  lemma {:induction false} LastTimeBefore(acts: seq<Act>, t: int, bound: int)
    requires Clocked(acts, t) && t <= bound
    requires forall i | 0 <= i < |acts| && acts[i].Reconcile? :: acts[i].env.now <= bound
    ensures LastTime(acts, t) <= bound
  {
    if acts != [] { LastTimeBefore(acts[..|acts| - 1], t, bound); }
  }

  lemma SameShare(o: Object, p: Object, t: int, now: int)
    requires p.spec == o.spec && p.created == o.created && ScheduleFits(o, t) && ScheduleFits(o, now)
    ensures ScheduleFits(p, t) && ScheduleFits(p, now)
  {
  }

  /** Within one generation, over conversions without failures and a clock that does not run backwards, the
      Gateway's share never decreases, through any number of passes, except by a rollback. */
  lemma {:induction false} NeverBackwards(w: World, acts: seq<Act>, t: int)
    requires ObjectInv(w.obj) && LogInv(w) && Settled(w.obj, t)
    requires AllAllowed(acts) && Clocked(acts, t) && FitsThroughout(w.obj, acts, t)
    requires forall a | a in acts :: if a.Edit? then a.spec == w.obj.spec else NoFailures(w.obj, a.env)
    ensures var after := Run(w, acts).obj;
            && after.spec == w.obj.spec && after.generation == w.obj.generation && after.created == w.obj.created
            && (HeldAfterRollback(after)
                || (Settled(after, LastTime(acts, t)) && after.status.percentage >= w.obj.status.percentage))
  {
    if acts != [] {
      var init, a := acts[..|acts| - 1], acts[|acts| - 1];
      assert forall i | 0 <= i < |init| :: init[i] == acts[i];
      NeverBackwards(w, init, t);
      ReachableInv(w, init);
      var mid := Run(w, init);
      assert a in acts;
      if a.Reconcile? && !HeldAfterRollback(mid.obj) {
        LastTimeBefore(init, t, a.env.now);
        FitsAtLastTime(w.obj, init, t);
        SameShare(w.obj, mid.obj, LastTime(init, t), a.env.now);
        PassMovesForward(mid.obj, a.env, LastTime(init, t));
      }
    }
  }

  /** A stored full pass over a conversion without failures settles the migration. */
  lemma FullPassSettles(o: Object, env: Env)
    requires ObjectInv(o) && NoFailures(o, env) && Pass(o, env).Full?
    ensures Settled(o.(status := Pass(o, env).status), env.now)
  {
    FullPassConsistent(o, env);
    var pre := RunHook(o, env, o.status.conditions, PreConversion, true);
    TrafficInRange(o, env, pre.conds);
  }
}
