/** The route store and one conversion pass over it: `applyRoute`, `applyGRPCRoute`,
    `routeChangeFor`, `pruneOrphanedRoutes` and the conversion loop of `Reconcile`. */
module RouteStore {
  import opened Text
  import opened Kube
  import opened Annotations
  import opened Conversion
  import opened CanaryPairs
  import opened Grouping

  datatype Kind = HTTPKind | GRPCKind
  datatype RouteId = RouteId(kind: Kind, key: ObjectKey)

  datatype RouteSpec = HTTPSpec(http: HTTPRoute) | GRPCSpec(grpc: GRPCRoute) {
    function Id(): RouteId {
      match this
      case HTTPSpec(r) => RouteId(HTTPKind, r.key)
      case GRPCSpec(r) => RouteId(GRPCKind, r.key)
    }
  }

  /** A controller reference. Two references name the same object when group, kind and name agree,
      whatever the uid. */
  datatype Owner = Owner(kind: string, name: string, uid: string) {
    predicate SameObject(other: Owner) { kind == other.kind && name == other.name }
  }

  /** A stored route: the two labels the operator sets, all others, the controller reference. */
  datatype StoredRoute = StoredRoute(
    managedBy: Option<string>,
    sourceIngress: Option<string>,
    otherLabels: map<string, string>,
    controller: Option<Owner>,
    spec: RouteSpec)

  type Store = map<RouteId, StoredRoute>

  /** A TransferGW; `kind` is the group and kind they all share. */
  datatype Migration = Migration(kind: string, key: ObjectKey, uid: string) {
    function AsOwner(): Owner { Owner(kind, key.name, uid) }
  }

  datatype OpResult = Created | Updated | Unchanged | ApplyError
  datatype Action = Add | Modify | Remove
  datatype Change = Change(action: Action, key: ObjectKey)

  function RouteChangeFor(op: OpResult, key: ObjectKey): Option<Change> {
    match op
    case Created => Some(Change(Add, key))
    case Updated => Some(Change(Modify, key))
    case _ => None
  }

  /** The controller reference is refused when another controller holds it. */
  predicate OwnedByOther(mig: Migration, existing: Option<StoredRoute>, spec: RouteSpec) {
    && spec.Id().key.namespace == mig.key.namespace
    && existing.Some? && existing.value.controller.Some?
    && !existing.value.controller.value.SameObject(mig.AsOwner())
  }

  /** The mutation `CreateOrUpdate` applies to the fetched (or empty) object. */
  function Mutated(mig: Migration, existing: Option<StoredRoute>, spec: RouteSpec): StoredRoute {
    var base := if existing.Some? then existing.value else StoredRoute(None, None, map[], None, spec);
    base.(managedBy := Some(mig.key.name),
          sourceIngress := Some(spec.Id().key.name),
          spec := spec,
          controller := if spec.Id().key.namespace == mig.key.namespace then Some(mig.AsOwner()) else base.controller)
  }

  /** What the API server fills in when a route is written. */
  type Defaulting = RouteSpec -> RouteSpec

  /** What is stored after `CreateOrUpdate`: the object as it was if the mutation changes nothing, the
      mutated one with defaults filled in otherwise. */
  function Written(defaulted: Defaulting, mig: Migration, existing: Option<StoredRoute>, spec: RouteSpec): StoredRoute {
    var mutated := Mutated(mig, existing, spec);
    if existing == Some(mutated) then mutated else mutated.(spec := defaulted(spec))
  }

  function Existing(st: Store, id: RouteId): Option<StoredRoute> {
    if id in st then Some(st[id]) else None
  }

  function ApplyOp(st: Store, mig: Migration, spec: RouteSpec, fails: bool): OpResult {
    if fails || OwnedByOther(mig, Existing(st, spec.Id()), spec) then ApplyError
    else if spec.Id() !in st then Created
    else if st[spec.Id()] == Mutated(mig, Existing(st, spec.Id()), spec) then Unchanged
    else Updated
  }

  /** A route in the migration's own namespace whose controller is of another kind or name. */
  predicate Foreign(mig: Migration, st: Store, id: RouteId) {
    && id in st && id.key.namespace == mig.key.namespace && st[id].controller.Some?
    && (st[id].controller.value.kind != mig.kind || st[id].controller.value.name != mig.key.name)
  }

  /** An apply errs exactly when the call fails or the route is foreign. */
  lemma ErrsExactlyWhen(st: Store, mig: Migration, spec: RouteSpec, fails: bool)
    ensures ApplyOp(st, mig, spec, fails).ApplyError? <==> fails || Foreign(mig, st, spec.Id())
    ensures OwnedByOther(mig, Existing(st, spec.Id()), spec) <==> Foreign(mig, st, spec.Id())
  {
  }

  function ApplyStore(st: Store, mig: Migration, spec: RouteSpec, fails: bool, defaulted: Defaulting): Store {
    if ApplyOp(st, mig, spec, fails).ApplyError? then st
    else st[spec.Id() := Written(defaulted, mig, Existing(st, spec.Id()), spec)]
  }

  /** The API server's routes. The flags and functions passed in say which calls it fails. */
  class ApiServer {
    const defaulted: Defaulting
    var routes: Store

    constructor (routes: Store, defaulted: Defaulting)
      ensures this.routes == routes && this.defaulted == defaulted
    {
      this.routes, this.defaulted := routes, defaulted;
    }

    method CreateOrUpdate(mig: Migration, spec: RouteSpec, fails: bool) returns (op: OpResult)
      modifies this
      ensures op.ApplyError? <==> fails || Foreign(mig, old(routes), spec.Id())
      ensures op == ApplyOp(old(routes), mig, spec, fails)
      ensures routes == ApplyStore(old(routes), mig, spec, fails, defaulted)
    {
      ErrsExactlyWhen(routes, mig, spec, fails);
      var id := spec.Id();
      if fails {
        return ApplyError;
      }
      if id !in routes {
        routes := routes[id := Mutated(mig, None, spec).(spec := defaulted(spec))];
        return Created;
      }
      if OwnedByOther(mig, Some(routes[id]), spec) {
        return ApplyError;
      }
      var mutated := Mutated(mig, Some(routes[id]), spec);
      if mutated == routes[id] {
        return Unchanged;
      }
      routes := routes[id := mutated.(spec := defaulted(spec))];
      return Updated;
    }

    /** The routes of one kind labelled for the migration, in no particular order. */
    method List(kind: Kind, mig: Migration) returns (ids: seq<RouteId>)
      ensures NoDuplicates(ids)
      ensures forall id :: id in ids <==> id in routes && id.kind == kind && routes[id].managedBy == Some(mig.key.name)
    {
      ids := [];
      var rest := routes.Keys;
      while rest != {}
        invariant rest <= routes.Keys
        invariant NoDuplicates(ids)
        invariant forall id ::
          id in ids <==> id in routes - rest && id.kind == kind && routes[id].managedBy == Some(mig.key.name)
      {
        var id :| id in rest;
        rest := rest - {id};
        if id.kind == kind && routes[id].managedBy == Some(mig.key.name) {
          ids := ids + [id];
        }
      }
    }

    method Delete(id: RouteId)
      modifies this
      ensures routes == old(routes) - {id}
    {
      routes := routes - {id};
    }
  }

  /*** The conversion loop ***/

  datatype Context = Context(
    mig: Migration,
    engine: Engine,
    opts: Options,
    paired: set<ObjectKey>,
    pairings: map<ObjectKey, Pairing>,
    fails: RouteId -> bool,
    defaulted: Defaulting)

  /** The canary of this primary converts to an HTTPRoute and is folded into the primary's. */
  ghost predicate Folds(c: Context, ing: Ingress) {
    && Convert(c.engine, ing, c.opts).route.Some? && !HasError(Convert(c.engine, ing, c.opts).issues)
    && ing.key in c.pairings
    && var canary := Convert(c.engine, c.pairings[ing.key].ingress, c.opts);
       canary.route.Some? && !HasError(canary.issues)
  }

  /** The route a pass wants for an Ingress, if its conversion succeeds. */
  ghost function Produced(c: Context, ing: Ingress): (spec: Option<RouteSpec>)
    ensures spec.Some? ==> spec.value.Id().key == ing.key
  {
    var r := Convert(c.engine, ing, c.opts);
    if HasError(r.issues) then None
    else if r.grpcRoute.Some? then Some(GRPCSpec(r.grpcRoute.value))
    else if r.route.None? then None
    else if Folds(c, ing) then
      var canary := Convert(c.engine, c.pairings[ing.key].ingress, c.opts).route.value;
      Some(HTTPSpec(r.route.value.(rules := MergedRules(r.route.value.rules, canary.rules,
                                                        c.pairings[ing.key].weight))))
    else Some(HTTPSpec(r.route.value))
  }

  /** A route to apply, and whether a canary was folded into it. */
  datatype Want = Want(spec: RouteSpec, folded: bool)

  /** A pass as the store sees it: the routes wanted per Ingress, from whatever conversion. */
  datatype Plan = Plan(
    mig: Migration,
    paired: set<ObjectKey>,
    want: Ingress -> Option<Want>,
    fails: RouteId -> bool,
    defaulted: Defaulting)
  {
    function Outcome(existing: Option<StoredRoute>, spec: RouteSpec): StoredRoute {
      Written(defaulted, mig, existing, spec)
    }

    /** Every conversion names its route after the Ingress. */
    ghost predicate KeepsKeys() {
      forall ing :: want(ing).Some? ==> want(ing).value.spec.Id().key == ing.key
    }
  }

  ghost function WantOf(c: Context, ing: Ingress): Option<Want> {
    if Produced(c, ing).None? then None else Some(Want(Produced(c, ing).value, Folds(c, ing)))
  }

  ghost function PlanOf(c: Context): (p: Plan)
    ensures p.KeepsKeys()
  {
    Plan(c.mig, c.paired, ing => WantOf(c, ing), c.fails, c.defaulted)
  }

  /** The loop's variables; `applied` holds the specs behind the `desired` keys. */
  datatype Acc = Acc(store: Store, converted: int, failed: int, applied: map<RouteId, RouteSpec>, changes: seq<Change>)

  ghost function DesiredKeys(acc: Acc): set<ObjectKey> { set id | id in acc.applied :: id.key }

  function Optional(c: Option<Change>): seq<Change> { if c.Some? then [c.value] else [] }

  ghost function ApplyWant(p: Plan, acc: Acc, want: Want): Acc {
    var spec := want.spec;
    var folded := if want.folded then 1 else 0;
    var op := ApplyOp(acc.store, p.mig, spec, p.fails(spec.Id()));
    if op.ApplyError? then acc.(converted := acc.converted + folded, failed := acc.failed + 1)
    else
      Acc(ApplyStore(acc.store, p.mig, spec, p.fails(spec.Id()), p.defaulted),
          acc.converted + folded + 1, acc.failed,
          acc.applied[spec.Id() := spec],
          acc.changes + Optional(RouteChangeFor(op, spec.Id().key)))
  }

  ghost function ProcessOne(p: Plan, acc: Acc, ing: Ingress): Acc {
    if ing.key in p.paired then acc
    else if p.want(ing).None? then acc.(failed := acc.failed + 1)
    else ApplyWant(p, acc, p.want(ing).value)
  }

  ghost function ProcessAll(p: Plan, st: Store, ings: seq<Ingress>): Acc {
    if ings == [] then Acc(st, 0, 0, map[], [])
    else ProcessOne(p, ProcessAll(p, st, ings[..|ings| - 1]), ings[|ings| - 1])
  }

  method ConvertAndApply(api: ApiServer, c: Context, ings: seq<Ingress>)
    returns (converted: int, failed: int, desired: set<ObjectKey>, changes: seq<Change>)
    requires c.defaulted == api.defaulted
    modifies api
    ensures var acc := ProcessAll(PlanOf(c), old(api.routes), ings);
            && api.routes == acc.store && converted == acc.converted && failed == acc.failed
            && desired == DesiredKeys(acc) && changes == acc.changes
  {
    converted, failed, desired, changes := 0, 0, {}, [];
    ghost var plan := PlanOf(c);
    ghost var acc := Acc(api.routes, 0, 0, map[], []);
    assert DesiredKeys(acc) == {};
    for i := 0 to |ings|
      invariant acc == ProcessAll(plan, old(api.routes), ings[..i])
      invariant api.routes == acc.store && converted == acc.converted && failed == acc.failed
      invariant desired == DesiredKeys(acc) && changes == acc.changes
    {
      assert ings[..i + 1][..i] == ings[..i];
      ghost var before := acc;
      acc := ProcessOne(plan, acc, ings[i]);
      converted, failed, desired, changes :=
        ConvertAndApplyOne(api, c, ings[i], converted, failed, desired, changes, before);
    }
    assert ings[..|ings|] == ings;
  }

  lemma DesiredGrows(acc: Acc, spec: RouteSpec)
    ensures DesiredKeys(acc.(applied := acc.applied[spec.Id() := spec])) == DesiredKeys(acc) + {spec.Id().key}
  {
    var after := acc.applied[spec.Id() := spec];
    assert forall id :: id in after <==> id in acc.applied || id == spec.Id();
    assert spec.Id() in after;
  }

  /** Converts one Ingress and folds its canary in. */
  method Produce(c: Context, ing: Ingress) returns (want: Option<Want>)
    ensures want == WantOf(c, ing)
  {
    var result := ConvertIngress(c.engine, ing, c.opts);
    var failure := Failed(result);
    if failure || (result.route.None? && result.grpcRoute.None?) {
      return None;
    }
    if result.grpcRoute.Some? {
      OneRouteOnly(c.engine, ing, c.opts);
      return Some(Want(GRPCSpec(result.grpcRoute.value), false));
    }
    if ing.key in c.pairings {
      var pairing := c.pairings[ing.key];
      var canary := ConvertIngress(c.engine, pairing.ingress, c.opts);
      var canaryFailed := Failed(canary);
      if canary.route.Some? && !canaryFailed {
        var rules := MergedRules(result.route.value.rules, canary.route.value.rules, pairing.weight);
        return Some(Want(HTTPSpec(result.route.value.(rules := rules)), true));
      }
    }
    return Some(Want(HTTPSpec(result.route.value), false));
  }

  lemma OneRouteOnly(e: Engine, ing: Ingress, opts: Options)
    ensures !(Convert(e, ing, opts).route.Some? && Convert(e, ing, opts).grpcRoute.Some?)
  {
  }

  /** The loop body: convert, fold the canary in, apply, count. */
  method ConvertAndApplyOne(api: ApiServer, c: Context, ing: Ingress,
                            converted: int, failed: int, desired: set<ObjectKey>, changes: seq<Change>, ghost acc: Acc)
    returns (converted': int, failed': int, desired': set<ObjectKey>, changes': seq<Change>)
    requires api.routes == acc.store && converted == acc.converted && failed == acc.failed
    requires desired == DesiredKeys(acc) && changes == acc.changes
    requires c.defaulted == api.defaulted
    modifies api
    ensures var after := ProcessOne(PlanOf(c), acc, ing);
            && api.routes == after.store && converted' == after.converted && failed' == after.failed
            && desired' == DesiredKeys(after) && changes' == after.changes
  {
    converted', failed', desired', changes' := converted, failed, desired, changes;
    if ing.key in c.paired {
      return;
    }
    var want := Produce(c, ing);
    assert PlanOf(c).want(ing) == want;
    if want.None? {
      failed' := failed + 1;
      return;
    }
    converted', failed', desired', changes' :=
      ApplyAndCount(api, c, want.value, converted, failed, desired, changes, PlanOf(c), acc);
  }

  /** The second half of the loop body: apply and count. */
  method ApplyAndCount(api: ApiServer, c: Context, want: Want, converted: int, failed: int, desired: set<ObjectKey>,
                       changes: seq<Change>, ghost p: Plan, ghost acc: Acc)
    returns (converted': int, failed': int, desired': set<ObjectKey>, changes': seq<Change>)
    requires api.routes == acc.store && converted == acc.converted && failed == acc.failed
    requires desired == DesiredKeys(acc) && changes == acc.changes
    requires p.mig == c.mig && p.fails == c.fails && p.defaulted == api.defaulted
    modifies api
    ensures var after := ApplyWant(p, acc, want);
            && api.routes == after.store && converted' == after.converted && failed' == after.failed
            && desired' == DesiredKeys(after) && changes' == after.changes
  {
    converted', failed', desired', changes' := converted, failed, desired, changes;
    if want.folded {
      converted' := converted' + 1;
    }
    var spec := want.spec;
    var op := api.CreateOrUpdate(c.mig, spec, c.fails(spec.Id()));
    if op.ApplyError? {
      failed' := failed' + 1;
      return;
    }
    changes' := changes' + Optional(RouteChangeFor(op, spec.Id().key));
    DesiredGrows(acc, spec);
    desired' := desired' + {spec.Id().key};
    converted' := converted' + 1;
  }

  /*** Pruning ***/

  /** A route labelled for the migration whose key this pass did not apply. */
  predicate Orphan(st: Store, mig: Migration, desired: set<ObjectKey>, id: RouteId) {
    id in st && st[id].managedBy == Some(mig.key.name) && id.key !in desired
  }

  function Removals(removed: seq<RouteId>): seq<Change> {
    seq(|removed|, i requires 0 <= i < |removed| => Change(Remove, removed[i].key))
  }

  /** `after` is `before` with the orphans in `removed` deleted; `complete` when none is left. */
  ghost predicate Pruned(before: Store, after: Store, mig: Migration, desired: set<ObjectKey>,
                         removed: seq<RouteId>, complete: bool) {
    && after == before - Elements(removed)
    && NoDuplicates(removed)
    && (forall id | id in removed :: Orphan(before, mig, desired, id))
    && (complete ==> forall id | Orphan(before, mig, desired, id) :: id in removed)
  }

  /** Deletes the orphans of one kind until a call fails. */
  method PruneKind(api: ApiServer, kind: Kind, mig: Migration, desired: set<ObjectKey>,
                   listFails: bool, deleteFails: RouteId -> bool)
    returns (ok: bool, removed: seq<RouteId>)
    modifies api
    ensures Pruned(old(api.routes), api.routes, mig, desired, removed, false)
    ensures forall id | id in removed :: id.kind == kind
    ensures ok ==> forall id | Orphan(old(api.routes), mig, desired, id) && id.kind == kind :: id in removed
    ensures !listFails && (forall id | id in old(api.routes) :: !deleteFails(id)) ==> ok
  {
    removed := [];
    if listFails {
      assert api.routes == api.routes - Elements(removed);
      return false, removed;
    }
    var ids := api.List(kind, mig);
    assert api.routes == api.routes - Elements(removed);
    for i := 0 to |ids|
      invariant api.routes == old(api.routes) - Elements(removed)
      invariant forall id :: id in removed <==> id in ids[..i] && id.key !in desired
      invariant NoDuplicates(removed)
    {
      var id := ids[i];
      assert ids[..i + 1] == ids[..i] + [id];
      if id.key in desired {
        continue;
      }
      if deleteFails(id) {
        return false, removed;
      }
      api.Delete(id);
      assert id !in ids[..i];
      assert Elements(removed + [id]) == Elements(removed) + {id};
      removed := removed + [id];
    }
    assert ids[..|ids|] == ids;
    ok := true;
  }

  method PruneOrphanedRoutes(api: ApiServer, mig: Migration, desired: set<ObjectKey>,
                             listFails: Kind -> bool, deleteFails: RouteId -> bool)
    returns (ok: bool, changes: seq<Change>, removed: seq<RouteId>)
    modifies api
    ensures Pruned(old(api.routes), api.routes, mig, desired, removed, ok)
    ensures changes == Removals(removed)
    ensures (forall k :: !listFails(k)) && (forall id | id in old(api.routes) :: !deleteFails(id)) ==> ok
  {
    var http: seq<RouteId>, grpc: seq<RouteId>;
    ok, http := PruneKind(api, HTTPKind, mig, desired, listFails(HTTPKind), deleteFails);
    if !ok {
      return false, Removals(http), http;
    }
    ghost var between := api.routes;
    ok, grpc := PruneKind(api, GRPCKind, mig, desired, listFails(GRPCKind), deleteFails);
    removed := http + grpc;
    changes := Removals(removed);
    assert Elements(removed) == Elements(http) + Elements(grpc);
    assert forall id | id in http :: id !in between;
    assert forall id :: id in between ==> (id in old(api.routes) && between[id] == old(api.routes)[id]);
    assert forall id | id in old(api.routes) && id !in http :: id in between;
    forall id | Orphan(old(api.routes), mig, desired, id) && ok
      ensures id in removed
    {
      if id.kind == GRPCKind { assert id !in http; assert Orphan(between, mig, desired, id); }
    }
  }
}
