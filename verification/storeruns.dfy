/** Runs of the persisted object together with the routes: when the persisted share has its routes. */
module StoreRuns {
  import opened Text
  import opened Kube
  import opened RouteStore
  import opened Convergence
  import opened Accounting
  import opened Completion
  import opened Schedule
  import opened Rollout
  import Runs

  datatype State = State(obj: Object, routes: Store)

  /** A spec edit, or a pass with what it is told, the Ingresses it selects, the plan for them, and the
      routes it leaves behind. */
  datatype Move =
    | Edit(spec: Spec)
    | Reconcile(env: Env, p: Plan, ings: seq<Ingress>, after: Store, removed: seq<RouteId>, complete: bool)

  predicate IsFull(s: State, m: Move) { m.Reconcile? && Pass(s.obj, m.env).Full? }

  /** A full pass is one pass over the routes, counted truly; any other leaves them alone. */
  ghost predicate Possible(s: State, m: Move) {
    m.Reconcile? ==>
      && DistinctKeys(m.ings) && m.p.KeepsKeys()
      && (IsFull(s, m) ==>
            Counted(m.p, s.routes, m.ings, m.env) && IsPass(m.p, s.routes, m.ings, m.after, m.removed, m.complete))
      && (!IsFull(s, m) ==> m.after == s.routes)
  }

  function Next(s: State, m: Move): State {
    match m
    case Edit(spec) =>
      if spec == s.obj.spec then s
      else s.(obj := s.obj.(spec := spec, generation := s.obj.generation + 1))
    case Reconcile(env, _, _, after, _, _) =>
      State(s.obj.(status := Runs.StatusAfter(s.obj, env, Pass(s.obj, env))), after)
  }

  function Run(s: State, moves: seq<Move>): State {
    if moves == [] then s else Next(Run(s, moves[..|moves| - 1]), moves[|moves| - 1])
  }

  ghost predicate AllPossible(s: State, moves: seq<Move>) {
    forall i | 0 <= i < |moves| :: Possible(Run(s, moves[..i]), moves[i])
  }

  /** The object of such a run is that of a run of `Runs`. */
  function ActOf(m: Move): Runs.Act {
    match m
    case Edit(spec) => Runs.Edit(spec)
    case Reconcile(env, _, _, _, _, _) => Runs.Reconcile(env)
  }

  lemma {:induction false} SameObject(s: State, w: Runs.World, moves: seq<Move>)
    requires w.obj == s.obj
    ensures Run(s, moves).obj == Runs.Run(w, seq(|moves|, i requires 0 <= i < |moves| => ActOf(moves[i]))).obj
  {
    var acts := seq(|moves|, i requires 0 <= i < |moves| => ActOf(moves[i]));
    if moves != [] {
      var init := moves[..|moves| - 1];
      assert acts[..|acts| - 1] == seq(|init|, i requires 0 <= i < |init| => ActOf(init[i]));
      SameObject(s, w, init);
    }
  }

  /** Whatever follows a full pass, short of another one, keeps the routes and the persisted share. */
  lemma {:induction false} NothingMoves(s: State, moves: seq<Move>, k: nat)
    requires AllPossible(s, moves) && k <= |moves|
    requires forall i | k <= i < |moves| :: !IsFull(Run(s, moves[..i]), moves[i])
    ensures Run(s, moves).routes == Run(s, moves[..k]).routes
    ensures Run(s, moves).obj.status.percentage == Run(s, moves[..k]).obj.status.percentage
  {
    if k < |moves| {
      var init := moves[..|moves| - 1];
      assert forall i | 0 <= i <= |init| :: init[..i] == moves[..i];
      NothingMoves(s, init, k);
      assert moves[..|moves| - 1] == init;
      StaysPut(Run(s, init), moves[|moves| - 1]);
    } else {
      assert moves[..k] == moves;
    }
  }

  lemma StaysPut(s: State, m: Move)
    requires Possible(s, m) && !IsFull(s, m)
    ensures Next(s, m).routes == s.routes && Next(s, m).obj.status.percentage == s.obj.status.percentage
  {
  }

  /** Every Ingress the pass selected, paired canaries aside, has the route wanted for it. */
  ghost predicate RoutesInPlace(m: Move, before: Store, now: Store)
    requires m.Reconcile?
  {
    forall ing | ing in m.ings && ing.key !in m.p.paired :: Carries(m.p, before, now, ing)
  }

  lemma InPlaceExactlyWhen(s: State, m: Move)
    requires Possible(s, m) && IsFull(s, m)
    ensures RoutesInPlace(m, s.routes, m.after) <==> m.env.failed == 0
  {
    NoneFailedExactlyWhen(m.p, s.routes, m.ings);
    if m.env.failed == 0 {
      forall ing | ing in m.ings && ing.key !in m.p.paired
        ensures Carries(m.p, s.routes, m.after, ing)
      {
        AppliedStays(m.p, s.routes, m.ings, m.after, m.removed, m.complete, ing);
      }
    }
  }

  /** At any moment of any run, with a persisted share above 0 and at least one full pass behind it: the
      Ingresses of the last full pass have their routes exactly when that pass stored its status or failed
      on none of them. */
  lemma {:induction false} ShareHasItsRoutesExactlyWhen(s: State, moves: seq<Move>, k: nat)
    requires AllPossible(s, moves) && k < |moves| && IsFull(Run(s, moves[..k]), moves[k])
    requires forall i | k < i < |moves| :: !IsFull(Run(s, moves[..i]), moves[i])
    requires Run(s, moves).obj.status.percentage > 0
    ensures RoutesInPlace(moves[k], Run(s, moves[..k]).routes, Run(s, moves).routes)
            <==> moves[k].env.writeOk || moves[k].env.failed == 0
  {
    NothingMoves(s, moves, k + 1);
    OneMoveOn(s, moves, k);
    AfterFullPass(Run(s, moves[..k]), moves[k]);
  }

  lemma {:induction false} OneMoveOn(s: State, moves: seq<Move>, k: nat)
    requires k < |moves|
    ensures Run(s, moves[..k + 1]) == Next(Run(s, moves[..k]), moves[k])
  {
    assert moves[..k + 1][..k] == moves[..k];
  }

  lemma AfterFullPass(s: State, m: Move)
    requires Possible(s, m) && IsFull(s, m) && Next(s, m).obj.status.percentage > 0
    ensures RoutesInPlace(m, s.routes, Next(s, m).routes) <==> m.env.writeOk || m.env.failed == 0
  {
    InPlaceExactlyWhen(s, m);
    if m.env.writeOk { StoredShareMeansNoFailure(s, m); }
  }

  lemma StoredShareMeansNoFailure(s: State, m: Move)
    requires Possible(s, m) && IsFull(s, m) && m.env.writeOk && Next(s, m).obj.status.percentage > 0
    ensures m.env.failed == 0
  {
    BaseInRange(s.obj, m.env);
    NoneFailedExactlyWhen(m.p, s.routes, m.ings);
  }

  /*** A share without its routes ***/

  function PlainSpec(key: ObjectKey): RouteSpec {
    HTTPSpec(HTTPRoute(key, ParentRef(None, None, "", None), [], []))
  }

  /** A plan for one Ingress at a time, under which all calls succeed or all fail. */
  function PlainPlan(mig: Migration, fails: bool): Plan {
    Plan(mig, {}, (ing: Ingress) => Some(Want(PlainSpec(ing.key), false)), _ => fails, spec => spec)
  }

  function Told(converted: int, failed: int, writeOk: bool): Env {
    Env(Wiring(false, false, false, ""), 0, _ => true, None, true, true, writeOk, 1, converted, failed, [])
  }

  function Immediately(): Object {
    Object(Spec(false, Immediate, None, false, 0, {}, None, false), 1, 0, EMPTY)
  }

  lemma FirstPass(mig: Migration, ing: Ingress) returns (m: Move)
    ensures var s := State(Immediately(), map[]);
            && Possible(s, m) && IsFull(s, m) && m.env == Told(1, 0, true)
            && Next(s, m).obj.status.percentage == 100
            && Next(s, m).routes == map[PlainSpec(ing.key).Id() := Mutated(mig, None, PlainSpec(ing.key))]
  {
    var s, p, spec := State(Immediately(), map[]), PlainPlan(mig, false), PlainSpec(ing.key);
    var after := map[spec.Id() := Mutated(mig, None, spec)];
    m := Reconcile(Told(1, 0, true), p, [ing], after, [], true);
    assert [ing][..0] == [];
    assert ProcessAll(p, map[], []) == Acc(map[], 0, 0, map[], []);
    var acc := ProcessAll(p, map[], [ing]);
    assert acc == ApplyWant(p, Acc(map[], 0, 0, map[], []), Want(spec, false));
    assert acc.store == after && acc.applied == map[spec.Id() := spec];
    assert spec.Id().key in DesiredKeys(acc);
    assert after - Elements([]) == after;
    FullAt100(s.obj, m.env);
  }

  lemma FullAt100(o: Object, env: Env)
    requires o.spec == Immediately().spec && !HeldAfterRollback(o) && env == Told(1, 0, true)
    ensures Pass(o, env).Full? && Pass(o, env).status.percentage == 100 && Pass(o, env).status.phase.Complete?
  {
    var t := Route(o, env, o.status.conditions);
    assert t.clamped == 100 && t.health.breach.None? && !t.awaiting;
    assert Conclude(o, env, t).phase.Complete?;
  }

  lemma SecondPass(mig: Migration, ing: Ingress, s: State) returns (m: Move)
    requires s.obj.spec == Immediately().spec && !HeldAfterRollback(s.obj)
    requires s.routes == map[PlainSpec(ing.key).Id() := Mutated(mig, None, PlainSpec(ing.key))]
    ensures Possible(s, m) && IsFull(s, m) && m.env == Told(0, 1, false)
    ensures Next(s, m) == s.(routes := map[])
  {
    var p, id := PlainPlan(mig, true), PlainSpec(ing.key).Id();
    m := Reconcile(Told(0, 1, false), p, [ing], map[], [id], true);
    assert [ing][..0] == [];
    assert ProcessAll(p, s.routes, []) == Acc(s.routes, 0, 0, map[], []);
    var acc := ProcessAll(p, s.routes, [ing]);
    assert acc == Acc(s.routes, 0, 1, map[], []);
    assert DesiredKeys(acc) == {};
    assert s.routes - Elements([id]) == map[];
    assert Orphan(s.routes, mig, {}, id);
  }

  /** It happens: from a fresh object, a pass that moves all traffic, then one whose call and status write
      both fail. The persisted share is 100 and no route is left. */
  lemma ShareWithoutRoutes(mig: Migration, ing: Ingress) returns (moves: seq<Move>)
    ensures var s := State(Immediately(), map[]);
            && Runs.Initial(Runs.World(s.obj, [])) && AllPossible(s, moves)
            && Run(s, moves).obj.status.percentage == 100 && Run(s, moves).routes == map[]
  {
    var s := State(Immediately(), map[]);
    var first := FirstPass(mig, ing);
    var mid := Next(s, first);
    NotHeld(s, first);
    var second := SecondPass(mig, ing, mid);
    moves := [first, second];
    TwoMoves(s, first, second);
  }

  lemma NotHeld(s: State, m: Move)
    requires s.obj.spec == Immediately().spec && !HeldAfterRollback(s.obj) && m.Reconcile? && m.env == Told(1, 0, true)
    ensures !HeldAfterRollback(Next(s, m).obj) && Next(s, m).obj.spec == s.obj.spec
  {
    FullAt100(s.obj, m.env);
    assert Next(s, m).obj == s.obj.(status := Pass(s.obj, m.env).status);
  }

  lemma TwoMoves(s: State, first: Move, second: Move)
    ensures Run(s, [first, second]) == Next(Next(s, first), second)
    ensures Possible(s, first) && Possible(Next(s, first), second) ==> AllPossible(s, [first, second])
  {
    assert [first, second][..1] == [first] && [first][..0] == [] && [first, second][..0] == [];
    assert Run(s, []) == s && Run(s, [first]) == Next(s, first);
  }
}
