/** What one conversion pass does to the route store: convergence, frame, exact diff, idempotence,
    and the accounting of converted, failed and pending Ingresses. */
module Convergence {
  import opened Text
  import opened Kube
  import opened Annotations
  import opened Conversion
  import opened CanaryPairs
  import opened Grouping
  import opened RouteStore

  /** The API server, or a foreign controller reference, refuses this route. */
  predicate Refused(p: Plan, before: Store, spec: RouteSpec) {
    p.fails(spec.Id()) || OwnedByOther(p.mig, Existing(before, spec.Id()), spec)
  }

  ghost predicate Wants(p: Plan, ing: Ingress, spec: RouteSpec) {
    ing.key !in p.paired && p.want(ing).Some? && p.want(ing).value.spec == spec
  }

  /** The pass wants `spec` for one of the Ingresses. */
  ghost predicate Wanted(p: Plan, ings: seq<Ingress>, spec: RouteSpec) {
    exists ing :: ing in ings && Wants(p, ing, spec)
  }

  /** What the loop has done to the store, in terms of the store it started from. */
  ghost predicate StoreInv(p: Plan, before: Store, acc: Acc) {
    && (forall id | id in acc.applied ::
          && acc.applied[id].Id() == id && !Refused(p, before, acc.applied[id])
          && Existing(acc.store, id) == Some(p.Outcome(Existing(before, id), acc.applied[id])))
    && (forall id | id !in acc.applied :: Existing(acc.store, id) == Existing(before, id))
  }

  /** The change an applied route amounts to. */
  function ChangeOf(p: Plan, before: Store, spec: RouteSpec): Option<Change> {
    if spec.Id() !in before then Some(Change(Add, spec.Id().key))
    else if before[spec.Id()] != Mutated(p.mig, Some(before[spec.Id()]), spec) then Some(Change(Modify, spec.Id().key))
    else None
  }

  ghost predicate ChangesInv(p: Plan, before: Store, acc: Acc) {
    && (forall ch ::
          ch in acc.changes <==> exists id :: id in acc.applied && ChangeOf(p, before, acc.applied[id]) == Some(ch))
    && NoDuplicates(acc.changes)
  }

  /** One route per key: Ingress keys are distinct and a conversion yields one route. */
  ghost predicate KeysFrom(acc: Acc, ings: seq<Ingress>) {
    && (forall id | id in acc.applied :: exists ing :: ing in ings && ing.key == id.key)
    && (forall i, j | i in acc.applied && j in acc.applied && i.key == j.key :: i == j)
  }

  ghost predicate FreshKey(acc: Acc, key: ObjectKey) {
    forall id | id in acc.applied :: id.key != key
  }

  lemma ApplyFresh(p: Plan, before: Store, acc: Acc, want: Want)
    requires StoreInv(p, before, acc) && FreshKey(acc, want.spec.Id().key)
    ensures ApplyOp(acc.store, p.mig, want.spec, p.fails(want.spec.Id())).ApplyError? <==> Refused(p, before, want.spec)
    ensures !Refused(p, before, want.spec) ==>
              && ApplyWant(p, acc, want).applied == acc.applied[want.spec.Id() := want.spec]
              && ApplyWant(p, acc, want).changes == acc.changes + Optional(ChangeOf(p, before, want.spec))
    ensures StoreInv(p, before, ApplyWant(p, acc, want))
  {
    assert want.spec.Id() !in acc.applied;
    assert Existing(acc.store, want.spec.Id()) == Existing(before, want.spec.Id());
    StoreAfterApply(p, before, acc, want);
  }

  lemma StoreAfterApply(p: Plan, before: Store, acc: Acc, want: Want)
    requires StoreInv(p, before, acc) && want.spec.Id() !in acc.applied
    requires Existing(acc.store, want.spec.Id()) == Existing(before, want.spec.Id())
    ensures StoreInv(p, before, ApplyWant(p, acc, want))
  {
    var after := ApplyWant(p, acc, want);
    forall id | id != want.spec.Id()
      ensures Existing(after.store, id) == Existing(acc.store, id)
      ensures id in after.applied <==> id in acc.applied
      ensures id in acc.applied ==> after.applied[id] == acc.applied[id]
    {
    }
  }

  lemma ChangesGrow(p: Plan, before: Store, acc: Acc, spec: RouteSpec, after: Acc)
    requires ChangesInv(p, before, acc) && FreshKey(acc, spec.Id().key)
    requires after.applied == acc.applied[spec.Id() := spec]
    requires after.changes == acc.changes + Optional(ChangeOf(p, before, spec))
    requires forall id | id in acc.applied :: acc.applied[id].Id() == id
    ensures ChangesInv(p, before, after)
  {
    var ch := ChangeOf(p, before, spec);
    assert forall id | id in acc.applied :: id in after.applied && after.applied[id] == acc.applied[id];
    assert spec.Id() in after.applied && after.applied[spec.Id()] == spec;
    forall x
      ensures x in after.changes
              <==> exists id :: id in after.applied && ChangeOf(p, before, after.applied[id]) == Some(x)
    {
      if id :| id in after.applied && ChangeOf(p, before, after.applied[id]) == Some(x) {
        if id != spec.Id() { assert x in acc.changes; }
      }
    }
    forall i | 0 <= i < |acc.changes|
      ensures acc.changes[i].key != spec.Id().key
    {
      assert acc.changes[i] in acc.changes;
    }
  }

  /** Which routes are applied, by the prior store alone: exactly the wanted ones not refused. */
  ghost predicate AppliesExactly(p: Plan, before: Store, ings: seq<Ingress>, acc: Acc) {
    forall spec: RouteSpec ::
      (spec.Id() in acc.applied && acc.applied[spec.Id()] == spec)
          <==> (Wanted(p, ings, spec) && !Refused(p, before, spec))
  }

  lemma WantedSnoc(p: Plan, ings: seq<Ingress>, ing: Ingress, spec: RouteSpec)
    ensures Wanted(p, ings + [ing], spec) <==> Wanted(p, ings, spec) || Wants(p, ing, spec)
  {
    assert ing in ings + [ing];
    assert forall x | x in ings :: x in ings + [ing];
  }

  lemma {:induction false} PassInvariant(p: Plan, before: Store, ings: seq<Ingress>)
    requires DistinctKeys(ings) && p.KeepsKeys()
    ensures var acc := ProcessAll(p, before, ings);
            && StoreInv(p, before, acc) && KeysFrom(acc, ings)
            && ChangesInv(p, before, acc) && AppliesExactly(p, before, ings, acc)
  {
    if ings == [] {
      assert forall spec :: !Wanted(p, ings, spec);
    } else {
      var init, ing := ings[..|ings| - 1], ings[|ings| - 1];
      assert ings == init + [ing];
      PassInvariant(p, before, init);
      var acc := ProcessAll(p, before, init);
      forall id | id in acc.applied ensures id.key != ing.key {
        var x :| x in init && x.key == id.key;
      }
      forall spec ensures Wanted(p, ings, spec) <==> Wanted(p, init, spec) || Wants(p, ing, spec) {
        WantedSnoc(p, init, ing, spec);
      }
      KeysGrow(acc, init, ing);
      if ing.key !in p.paired && p.want(ing).Some? {
        StepInvariant(p, before, init, ing, acc);
      }
    }
  }

  lemma KeysGrow(acc: Acc, init: seq<Ingress>, ing: Ingress)
    requires KeysFrom(acc, init)
    ensures KeysFrom(acc, init + [ing])
  {
    assert forall x | x in init :: x in init + [ing];
  }

  lemma AppliedGrows(p: Plan, before: Store, init: seq<Ingress>, ing: Ingress, spec: RouteSpec, acc: Acc, after: Acc)
    requires AppliesExactly(p, before, init, acc) && KeysFrom(acc, init) && FreshKey(acc, ing.key)
    requires Wants(p, ing, spec) && spec.Id().key == ing.key
    requires after.applied == if Refused(p, before, spec) then acc.applied else acc.applied[spec.Id() := spec]
    ensures AppliesExactly(p, before, init + [ing], after) && KeysFrom(after, init + [ing])
  {
    assert ing in init + [ing];
    KeysGrow(acc, init, ing);
    forall s: RouteSpec
      ensures (s.Id() in after.applied && after.applied[s.Id()] == s)
              <==> (Wanted(p, init + [ing], s) && !Refused(p, before, s))
    {
      WantedSnoc(p, init, ing, s);
      if s != spec && s.Id() == spec.Id() { assert s.Id() !in acc.applied; }
    }
  }

  lemma StepInvariant(p: Plan, before: Store, init: seq<Ingress>, ing: Ingress, acc: Acc)
    requires StoreInv(p, before, acc) && KeysFrom(acc, init) && ChangesInv(p, before, acc)
    requires AppliesExactly(p, before, init, acc) && FreshKey(acc, ing.key) && p.KeepsKeys()
    requires ing.key !in p.paired && p.want(ing).Some?
    ensures var after := ApplyWant(p, acc, p.want(ing).value);
            && StoreInv(p, before, after) && KeysFrom(after, init + [ing])
            && ChangesInv(p, before, after) && AppliesExactly(p, before, init + [ing], after)
  {
    var want := p.want(ing).value;
    var after := ApplyWant(p, acc, want);
    ApplyFresh(p, before, acc, want);
    AppliedGrows(p, before, init, ing, want.spec, acc, after);
    if !Refused(p, before, want.spec) {
      ChangesGrow(p, before, acc, want.spec, after);
    }
  }

  /*** One whole pass ***/

  /** A pass: the loop, then pruning of what it did not apply. */
  ghost predicate IsPass(p: Plan, before: Store, ings: seq<Ingress>, after: Store, removed: seq<RouteId>,
                         complete: bool) {
    var acc := ProcessAll(p, before, ings);
    Pruned(acc.store, after, p.mig, DesiredKeys(acc), removed, complete)
  }

  predicate Labelled(st: Store, mig: Migration, id: RouteId) {
    id in st && st[id].managedBy == Some(mig.key.name)
  }

  lemma PassStore(p: Plan, before: Store, ings: seq<Ingress>, after: Store, removed: seq<RouteId>)
    requires DistinctKeys(ings) && p.KeepsKeys() && IsPass(p, before, ings, after, removed, true)
    ensures var acc := ProcessAll(p, before, ings);
            forall id ::
              && (id in acc.applied ==> Existing(after, id) == Some(p.Outcome(Existing(before, id), acc.applied[id])))
              && (id !in acc.applied ==>
                    Existing(after, id)
                    == if Labelled(before, p.mig, id) && id.key !in DesiredKeys(acc) then None
                       else Existing(before, id))
  {
    PassInvariant(p, before, ings);
    var acc := ProcessAll(p, before, ings);
    assert forall id :: id in removed <==> Orphan(acc.store, p.mig, DesiredKeys(acc), id);
    assert forall id :: id in Elements(removed) <==> id in removed;
    forall id
      ensures Existing(after, id)
              == if Orphan(acc.store, p.mig, DesiredKeys(acc), id) then None else Existing(acc.store, id)
    {
    }
  }

  /** A pass, complete or not, leaves every route defaulted. */
  lemma PassKeepsDefaults(p: Plan, before: Store, ings: seq<Ingress>, after: Store, removed: seq<RouteId>,
                          complete: bool)
    requires DistinctKeys(ings) && p.KeepsKeys() && IsPass(p, before, ings, after, removed, complete)
    requires Defaulted(p, before) && forall spec: RouteSpec :: p.defaulted(p.defaulted(spec)) == p.defaulted(spec)
    ensures Defaulted(p, after)
  {
    PassInvariant(p, before, ings);
    var acc := ProcessAll(p, before, ings);
    forall id | id in acc.store
      ensures p.defaulted(acc.store[id].spec) == acc.store[id].spec
    {
      assert Existing(acc.store, id) == Some(acc.store[id]);
      if id in acc.applied {
        OutcomeIsStable(p, Existing(before, id), acc.applied[id]);
      } else {
        assert Existing(before, id) == Some(acc.store[id]);
      }
    }
  }

  /** The route holds `spec` with its defaults, the migration's labels, and the migration as controller if the two share
      a namespace; its other labels and a foreign namespace's controller are as they were. */
  predicate Installed(p: Plan, before: Store, after: Store, id: RouteId, spec: RouteSpec) {
    && Labelled(after, p.mig, id) && after[id].spec == p.defaulted(spec) && after[id].sourceIngress == Some(id.key.name)
    && after[id].otherLabels == (if id in before then before[id].otherLabels else map[])
    && after[id].controller == (if id.key.namespace == p.mig.key.namespace
                                then Some(Owner(p.mig.kind, p.mig.key.name, p.mig.uid))
                                else if id in before then before[id].controller else None)
  }

  /** The API server never holds a route without its defaults. */
  ghost predicate Defaulted(p: Plan, st: Store) {
    forall id | id in st :: p.defaulted(st[id].spec) == st[id].spec
  }

  /** Whatever the store held, after a pass whose pruning completed: the keys labelled for the
      migration are exactly the applied ones; each applied route is there with exactly its spec,
      labels and owner; and every route neither labelled for the migration nor applied is untouched. */
  lemma PassConverges(p: Plan, before: Store, ings: seq<Ingress>, after: Store, removed: seq<RouteId>)
    requires DistinctKeys(ings) && p.KeepsKeys() && IsPass(p, before, ings, after, removed, true)
    requires Defaulted(p, before)
    ensures var acc := ProcessAll(p, before, ings);
            && (forall key :: key in DesiredKeys(acc) <==> exists id :: Labelled(after, p.mig, id) && id.key == key)
            && (forall id | id in acc.applied :: Installed(p, before, after, id, acc.applied[id]))
            && (forall id | id !in acc.applied && !Labelled(before, p.mig, id) ::
                Existing(after, id) == Existing(before, id))
  {
    PassStore(p, before, ings, after, removed);
    var acc := ProcessAll(p, before, ings);
    forall key | key in DesiredKeys(acc)
      ensures exists id :: Labelled(after, p.mig, id) && id.key == key
    {
      var id :| id in acc.applied && id.key == key;
      assert Existing(after, id) == Some(p.Outcome(Existing(before, id), acc.applied[id]));
      assert Labelled(after, p.mig, id);
    }
    forall id | Labelled(after, p.mig, id)
      ensures id.key in DesiredKeys(acc)
    {
      if id !in acc.applied { assert Existing(after, id) == Existing(before, id); }
    }
    PassInvariant(p, before, ings);
    forall id | id in acc.applied
      ensures Installed(p, before, after, id, acc.applied[id])
    {
      assert Existing(after, id) == Some(p.Outcome(Existing(before, id), acc.applied[id]));
      InstalledByWrite(p, before, after, id, acc.applied[id]);
    }
  }

  lemma InstalledByWrite(p: Plan, before: Store, after: Store, id: RouteId, spec: RouteSpec)
    requires Defaulted(p, before)
    requires spec.Id() == id && Existing(after, id) == Some(p.Outcome(Existing(before, id), spec))
    ensures Installed(p, before, after, id, spec)
  {
  }

  /** Applied means wanted by a selected Ingress and refused neither by the API server nor by a
      foreign controller reference in the store the pass started from. */
  lemma AppliedExactly(p: Plan, before: Store, ings: seq<Ingress>)
    requires DistinctKeys(ings) && p.KeepsKeys()
    ensures forall spec: RouteSpec ::
              spec in ProcessAll(p, before, ings).applied.Values <==> Wanted(p, ings, spec) && !Refused(p, before, spec)
  {
    PassInvariant(p, before, ings);
    var acc := ProcessAll(p, before, ings);
    forall spec: RouteSpec
      ensures spec in acc.applied.Values <==> Wanted(p, ings, spec) && !Refused(p, before, spec)
    {
      if spec in acc.applied.Values {
        var id :| id in acc.applied && acc.applied[id] == spec;
        assert spec.Id() == id;
      }
      if Wanted(p, ings, spec) && !Refused(p, before, spec) {
        assert acc.applied[spec.Id()] == spec;
      }
    }
  }

  /** Pruning is documented to delete the routes whose Ingress no longer matches. It deletes a
      labelled route exactly when no route of its key was applied in this pass, whether or not the
      Ingress still matches. */
  lemma DeletedExactlyWhen(p: Plan, before: Store, ings: seq<Ingress>, after: Store, removed: seq<RouteId>, id: RouteId)
    requires DistinctKeys(ings) && p.KeepsKeys() && IsPass(p, before, ings, after, removed, true)
    requires Labelled(before, p.mig, id)
    ensures id !in after
            <==> forall spec: RouteSpec | Wanted(p, ings, spec) && spec.Id().key == id.key :: Refused(p, before, spec)
  {
    PassStore(p, before, ings, after, removed);
    PassInvariant(p, before, ings);
    var acc := ProcessAll(p, before, ings);
    assert id !in after ==> Existing(after, id) == None;
    if id.key in DesiredKeys(acc) {
      var i :| i in acc.applied && i.key == id.key;
      var spec := acc.applied[i];
      assert Wanted(p, ings, spec) && !Refused(p, before, spec) && spec.Id().key == id.key;
      assert Existing(after, id).Some?;
    } else {
      forall spec: RouteSpec | Wanted(p, ings, spec) && spec.Id().key == id.key
        ensures Refused(p, before, spec)
      {
        assert Refused(p, before, spec) || spec.Id() in acc.applied;
      }
      assert id !in acc.applied && Existing(after, id) == None;
    }
  }

  /** So a selected Ingress whose conversion fails, or whose update is refused, loses the route an
      earlier pass gave it. */
  lemma FailureDeletesTheRoute(p: Plan, before: Store, ings: seq<Ingress>, after: Store, removed: seq<RouteId>,
                               ing: Ingress, id: RouteId)
    requires DistinctKeys(ings) && p.KeepsKeys() && IsPass(p, before, ings, after, removed, true)
    requires ing in ings && id.key == ing.key && Labelled(before, p.mig, id)
    requires p.want(ing).None? || Refused(p, before, p.want(ing).value.spec)
    ensures id !in after
  {
    forall spec: RouteSpec | Wanted(p, ings, spec) && spec.Id().key == id.key
      ensures Refused(p, before, spec)
    {
      var x :| x in ings && Wants(p, x, spec);
      var i :| 0 <= i < |ings| && ings[i] == x;
      var j :| 0 <= j < |ings| && ings[j] == ing;
      assert x.key == ing.key;
      assert i == j;
    }
    DeletedExactlyWhen(p, before, ings, after, removed, id);
  }

  /** The pass applies this route: some unpaired Ingress wants it and nobody refuses it. */
  ghost predicate Applies(p: Plan, before: Store, ings: seq<Ingress>, spec: RouteSpec) {
    Wanted(p, ings, spec) && !Refused(p, before, spec)
  }

  lemma AppliedIds(p: Plan, before: Store, ings: seq<Ingress>, id: RouteId)
    requires DistinctKeys(ings) && p.KeepsKeys()
    ensures id in ProcessAll(p, before, ings).applied
            <==> exists spec: RouteSpec :: Applies(p, before, ings, spec) && spec.Id() == id
  {
    PassInvariant(p, before, ings);
    var applied := ProcessAll(p, before, ings).applied;
    if id in applied { assert Applies(p, before, ings, applied[id]); }
  }

  /** A labelled route of the other kind under a key that gets a route. */
  ghost predicate Stale(p: Plan, before: Store, ings: seq<Ingress>, id: RouteId) {
    && Labelled(before, p.mig, id)
    && exists spec: RouteSpec :: Applies(p, before, ings, spec) && spec.Id().key == id.key && spec.Id().kind != id.kind
  }

  /** The labelled routes are exactly the applied ones, kind included, exactly when the store held no
      labelled route of another kind under an applied key: keys are compared without kinds, so an
      Ingress that turns from HTTP to gRPC keeps its stale HTTPRoute. */
  lemma NoStaleKindExactlyWhen(p: Plan, before: Store, ings: seq<Ingress>, after: Store, removed: seq<RouteId>)
    requires DistinctKeys(ings) && p.KeepsKeys() && IsPass(p, before, ings, after, removed, true)
    ensures (forall id :: Labelled(after, p.mig, id)
                          <==> exists spec: RouteSpec :: Applies(p, before, ings, spec) && spec.Id() == id)
            <==> forall id :: !Stale(p, before, ings, id)
  {
    forall id
      ensures Labelled(after, p.mig, id)
              <==> ((exists spec: RouteSpec :: Applies(p, before, ings, spec) && spec.Id() == id)
                    || Stale(p, before, ings, id))
      ensures Stale(p, before, ings, id) ==> id !in ProcessAll(p, before, ings).applied
    {
      StaleSurvives(p, before, ings, after, removed, id);
      AppliedIds(p, before, ings, id);
    }
    forall id | Stale(p, before, ings, id)
      ensures !(exists spec: RouteSpec :: Applies(p, before, ings, spec) && spec.Id() == id)
    {
      AppliedIds(p, before, ings, id);
    }
  }

  lemma StaleSurvives(p: Plan, before: Store, ings: seq<Ingress>, after: Store, removed: seq<RouteId>, id: RouteId)
    requires DistinctKeys(ings) && p.KeepsKeys() && IsPass(p, before, ings, after, removed, true)
    ensures Labelled(after, p.mig, id) <==> id in ProcessAll(p, before, ings).applied || Stale(p, before, ings, id)
    ensures Stale(p, before, ings, id) ==> id !in ProcessAll(p, before, ings).applied
  {
    PassStore(p, before, ings, after, removed);
    PassInvariant(p, before, ings);
    var acc := ProcessAll(p, before, ings);
    if id in acc.applied {
      assert Existing(after, id) == Some(p.Outcome(Existing(before, id), acc.applied[id]));
    } else if Labelled(before, p.mig, id) {
      DeletedExactlyWhen(p, before, ings, after, removed, id);
      if spec: RouteSpec :| Wanted(p, ings, spec) && spec.Id().key == id.key && !Refused(p, before, spec) {
        assert Applies(p, before, ings, spec) && acc.applied[spec.Id()] == spec;
        OnlyTwoKinds(id);
      }
    }
  }

  /*** Several migrations ***/

  lemma RefusedExactlyWhen(p: Plan, before: Store, spec: RouteSpec)
    ensures Refused(p, before, spec) <==> p.fails(spec.Id()) || Foreign(p.mig, before, spec.Id())
  {
    ErrsExactlyWhen(before, p.mig, spec, p.fails(spec.Id()));
  }

  /** A pass, complete or not, leaves a foreign route alone unless it carries the migration's label. */
  lemma ForeignRoutesStay(p: Plan, before: Store, ings: seq<Ingress>, after: Store, removed: seq<RouteId>,
                          complete: bool, id: RouteId)
    requires DistinctKeys(ings) && p.KeepsKeys() && IsPass(p, before, ings, after, removed, complete)
    requires Foreign(p.mig, before, id) && !Labelled(before, p.mig, id)
    ensures id in after && after[id] == before[id]
  {
    PassInvariant(p, before, ings);
    var acc := ProcessAll(p, before, ings);
    if id in acc.applied { RefusedExactlyWhen(p, before, acc.applied[id]); }
    assert Existing(acc.store, id) == Existing(before, id);
    assert id in removed ==> Orphan(acc.store, p.mig, DesiredKeys(acc), id);
  }

  /** Two migrations of one namespace do not take each other's routes there: what a pass of the one has
      applied, a pass of the other leaves as it is, whatever the two select. */
  lemma MigrationsKeepApart(p: Plan, before: Store, ings: seq<Ingress>, between: Store, removed: seq<RouteId>,
                            q: Plan, others: seq<Ingress>, after: Store, removedThen: seq<RouteId>, complete: bool,
                            spec: RouteSpec)
    requires DistinctKeys(ings) && p.KeepsKeys() && IsPass(p, before, ings, between, removed, true)
             && Defaulted(p, before)
    requires DistinctKeys(others) && q.KeepsKeys() && IsPass(q, between, others, after, removedThen, complete)
    requires p.mig.key.namespace == q.mig.key.namespace && p.mig.key.name != q.mig.key.name
    requires Applies(p, before, ings, spec) && spec.Id().key.namespace == p.mig.key.namespace
    ensures Existing(after, spec.Id()) == Existing(between, spec.Id()) && Installed(p, before, after, spec.Id(), spec)
  {
    PassInvariant(p, before, ings);
    PassConverges(p, before, ings, between, removed);
    assert ProcessAll(p, before, ings).applied[spec.Id()] == spec;
    ForeignRoutesStay(q, between, others, after, removedThen, complete, spec.Id());
  }

  /** A migration created anew under its old name, with a new uid, takes its routes over. */
  lemma RecreationKeepsRoutes(p: Plan, before: Store, ings: seq<Ingress>, between: Store, removed: seq<RouteId>,
                              q: Plan, after: Store, removedThen: seq<RouteId>, spec: RouteSpec)
    requires DistinctKeys(ings) && p.KeepsKeys() && IsPass(p, before, ings, between, removed, true)
             && Defaulted(p, before)
    requires forall s: RouteSpec :: p.defaulted(p.defaulted(s)) == p.defaulted(s)
    requires q == p.(mig := p.mig.(uid := q.mig.uid), fails := q.fails) && !q.fails(spec.Id())
    requires IsPass(q, between, ings, after, removedThen, true)
    requires Applies(p, before, ings, spec)
    ensures Installed(q, between, after, spec.Id(), spec)
  {
    PassInvariant(p, before, ings);
    PassConverges(p, before, ings, between, removed);
    PassKeepsDefaults(p, before, ings, between, removed, true);
    assert ProcessAll(p, before, ings).applied[spec.Id()] == spec;
    RefusedExactlyWhen(q, between, spec);
    var ing :| ing in ings && Wants(p, ing, spec);
    assert Wants(q, ing, spec) && Wanted(q, ings, spec);
    PassInvariant(q, between, ings);
    PassConverges(q, between, ings, after, removedThen);
    assert ProcessAll(q, between, ings).applied[spec.Id()] == spec;
  }

  /*** Exact diff and idempotence ***/

  /** The changes a pass reports: those of the loop, then the removals. */
  ghost function Reported(p: Plan, before: Store, ings: seq<Ingress>, removed: seq<RouteId>): seq<Change> {
    ProcessAll(p, before, ings).changes + Removals(removed)
  }

  /** What happened to one route between two stores. */
  function DiffOf(before: Store, after: Store, id: RouteId): Option<Action> {
    if id !in before && id in after then Some(Add)
    else if id in before && id !in after then Some(Remove)
    else if id in before && id in after && before[id] != after[id] then Some(Modify)
    else None
  }

  /** The change really happened to a route of that key. */
  ghost predicate Happened(before: Store, after: Store, ch: Change) {
    exists k :: DiffOf(before, after, RouteId(k, ch.key)) == Some(ch.action)
  }

  /** An update that the API server turns back into what it held: the route as converted leaves out a
      field that is filled in on every write, and nothing else differs. */
  predicate Pointless(p: Plan, before: Store, spec: RouteSpec) {
    && spec.Id() in before && p.defaulted(spec) != spec
    && before[spec.Id()] == p.Outcome(Some(before[spec.Id()]), spec)
  }

  /** The reported changes are the difference between the stores, key by key: an add for a route that
      appeared, a removal for one that vanished, a modification for one kept with other contents; and,
      besides, a modification for every pointless update. */
  lemma ChangesAreTheDiff(p: Plan, before: Store, ings: seq<Ingress>, after: Store, removed: seq<RouteId>, ch: Change)
    requires DistinctKeys(ings) && p.KeepsKeys() && IsPass(p, before, ings, after, removed, true)
    requires Defaulted(p, before)
    ensures ch in Reported(p, before, ings, removed)
            <==> Happened(before, after, ch)
                 || (ch.action == Modify
                     && exists spec: RouteSpec ::
                        Applies(p, before, ings, spec) && spec.Id().key == ch.key && Pointless(p, before, spec))
  {
    PassInvariant(p, before, ings);
    var acc := ProcessAll(p, before, ings);
    assert ch in Reported(p, before, ings, removed) <==> ch in acc.changes || ch in Removals(removed);
    RemovalsListed(removed, ch);
    LoopChanges(p, before, acc, ch);
    IdDiff(p, before, ings, after, removed, RouteId(HTTPKind, ch.key));
    IdDiff(p, before, ings, after, removed, RouteId(GRPCKind, ch.key));
    HappenedByKind(before, after, ch);
    PointlessByKind(p, before, ings, ch.key);
  }

  lemma HappenedByKind(before: Store, after: Store, ch: Change)
    ensures Happened(before, after, ch)
            <==> DiffOf(before, after, RouteId(HTTPKind, ch.key)) == Some(ch.action)
                 || DiffOf(before, after, RouteId(GRPCKind, ch.key)) == Some(ch.action)
  {
    if k :| DiffOf(before, after, RouteId(k, ch.key)) == Some(ch.action) {
      OnlyTwoKinds(RouteId(k, ch.key));
    }
  }

  lemma PointlessByKind(p: Plan, before: Store, ings: seq<Ingress>, key: ObjectKey)
    requires DistinctKeys(ings) && p.KeepsKeys()
    ensures (exists spec: RouteSpec ::
             Applies(p, before, ings, spec) && spec.Id().key == key && Pointless(p, before, spec))
            <==> PointlessAt(p, before, ProcessAll(p, before, ings), RouteId(HTTPKind, key))
                 || PointlessAt(p, before, ProcessAll(p, before, ings), RouteId(GRPCKind, key))
  {
    PassInvariant(p, before, ings);
    var acc := ProcessAll(p, before, ings);
    forall id | PointlessAt(p, before, acc, id)
      ensures Applies(p, before, ings, acc.applied[id]) && acc.applied[id].Id() == id
    {
    }
    if spec: RouteSpec :| Applies(p, before, ings, spec) && spec.Id().key == key && Pointless(p, before, spec) {
      assert acc.applied[spec.Id()] == spec;
      OnlyTwoKinds(spec.Id());
    }
  }

  predicate PointlessAt(p: Plan, before: Store, acc: Acc, id: RouteId) {
    id in acc.applied && Pointless(p, before, acc.applied[id])
  }

  /** So the report is the exact difference exactly when no applied route leaves a defaulted field out
      over a store that already holds its outcome. */
  lemma ReportIsExactlyTheDiffWhen(p: Plan, before: Store, ings: seq<Ingress>, after: Store, removed: seq<RouteId>)
    requires DistinctKeys(ings) && p.KeepsKeys() && IsPass(p, before, ings, after, removed, true)
    requires Defaulted(p, before)
    ensures (forall ch :: ch in Reported(p, before, ings, removed) <==> Happened(before, after, ch))
            <==> forall spec: RouteSpec | Applies(p, before, ings, spec) :: !Pointless(p, before, spec)
  {
    forall ch
      ensures ch in Reported(p, before, ings, removed)
              <==> Happened(before, after, ch)
                   || (ch.action == Modify
                       && exists spec: RouteSpec ::
                          Applies(p, before, ings, spec) && spec.Id().key == ch.key && Pointless(p, before, spec))
    {
      ChangesAreTheDiff(p, before, ings, after, removed, ch);
    }
    if spec: RouteSpec :| Applies(p, before, ings, spec) && Pointless(p, before, spec) {
      var ch := Change(Modify, spec.Id().key);
      PointlessChangesNothing(p, before, ings, after, removed, spec);
      assert ch in Reported(p, before, ings, removed);
    }
  }

  lemma PointlessChangesNothing(p: Plan, before: Store, ings: seq<Ingress>, after: Store, removed: seq<RouteId>,
                                spec: RouteSpec)
    requires DistinctKeys(ings) && p.KeepsKeys() && IsPass(p, before, ings, after, removed, true)
    requires Applies(p, before, ings, spec) && Pointless(p, before, spec)
    ensures !Happened(before, after, Change(Modify, spec.Id().key))
  {
    PassInvariant(p, before, ings);
    assert ProcessAll(p, before, ings).applied[spec.Id()] == spec;
    forall k
      ensures DiffOf(before, after, RouteId(k, spec.Id().key)) != Some(Modify)
    {
      NotModified(p, before, ings, after, removed, RouteId(k, spec.Id().key));
    }
  }

  /** A route is modified only by applying it to some effect. */
  lemma NotModified(p: Plan, before: Store, ings: seq<Ingress>, after: Store, removed: seq<RouteId>, id: RouteId)
    requires DistinctKeys(ings) && p.KeepsKeys() && IsPass(p, before, ings, after, removed, true)
    requires var acc := ProcessAll(p, before, ings); id !in acc.applied || PointlessAt(p, before, acc, id)
    ensures DiffOf(before, after, id) != Some(Modify)
  {
    PassInvariant(p, before, ings);
    PassStore(p, before, ings, after, removed);
    assert Existing(after, id) == if id in after then Some(after[id]) else None;
  }

  lemma OnlyTwoKinds(id: RouteId)
    ensures id == RouteId(HTTPKind, id.key) || id == RouteId(GRPCKind, id.key)
  {
    match id.kind
    case HTTPKind =>
    case GRPCKind =>
  }

  lemma RemovalsListed(removed: seq<RouteId>, ch: Change)
    ensures ch in Removals(removed)
            <==> ch.action == Remove && (RouteId(HTTPKind, ch.key) in removed || RouteId(GRPCKind, ch.key) in removed)
  {
    forall id | id in removed && id.key == ch.key && ch.action == Remove
      ensures ch in Removals(removed)
    {
      var i :| 0 <= i < |removed| && removed[i] == id;
      assert Removals(removed)[i] == ch;
    }
    if ch in Removals(removed) {
      var i :| 0 <= i < |removed| && Removals(removed)[i] == ch;
      assert removed[i].key == ch.key;
      OnlyTwoKinds(removed[i]);
    }
  }

  /** The loop applied this route, with this effect. */
  ghost predicate AppliedAs(p: Plan, before: Store, acc: Acc, id: RouteId, ch: Change) {
    id in acc.applied && ChangeOf(p, before, acc.applied[id]) == Some(ch)
  }

  lemma LoopChanges(p: Plan, before: Store, acc: Acc, ch: Change)
    requires StoreInv(p, before, acc) && ChangesInv(p, before, acc)
    ensures ch in acc.changes <==>
              AppliedAs(p, before, acc, RouteId(HTTPKind, ch.key), ch)
                  || AppliedAs(p, before, acc, RouteId(GRPCKind, ch.key), ch)
  {
    if ch in acc.changes {
      var id :| id in acc.applied && ChangeOf(p, before, acc.applied[id]) == Some(ch);
      assert ch.key == id.key;
      OnlyTwoKinds(id);
    }
  }

  lemma IdDiff(p: Plan, before: Store, ings: seq<Ingress>, after: Store, removed: seq<RouteId>, id: RouteId)
    requires DistinctKeys(ings) && p.KeepsKeys() && IsPass(p, before, ings, after, removed, true)
    requires Defaulted(p, before)
    ensures var acc := ProcessAll(p, before, ings);
            forall action :: DiffOf(before, after, id) == Some(action) <==>
              || (AppliedAs(p, before, acc, id, Change(action, id.key)) && !PointlessAt(p, before, acc, id))
              || (action == Remove && id in removed)
    ensures PointlessAt(p, before, ProcessAll(p, before, ings), id) ==>
              AppliedAs(p, before, ProcessAll(p, before, ings), id, Change(Modify, id.key))
  {
    PassInvariant(p, before, ings);
    PassStore(p, before, ings, after, removed);
    var acc := ProcessAll(p, before, ings);
    assert Existing(after, id) == if id in after then Some(after[id]) else None;
    assert Existing(acc.store, id) == if id in acc.store then Some(acc.store[id]) else None;
    assert id in removed <==> Orphan(acc.store, p.mig, DesiredKeys(acc), id);
    if id in acc.applied {
      assert id.key in DesiredKeys(acc);
      EffectOfWrite(p, before, acc.applied[id]);
    }
  }

  /** Reported as modified means really changed or pointless. */
  lemma EffectOfWrite(p: Plan, before: Store, spec: RouteSpec)
    requires spec.Id() in before ==> p.defaulted(before[spec.Id()].spec) == before[spec.Id()].spec
    ensures spec.Id() in before ==>
              var old_ := before[spec.Id()];
              && (ChangeOf(p, before, spec).Some?
                  <==> old_ != p.Outcome(Some(old_), spec) || Pointless(p, before, spec))
              && !(old_ != p.Outcome(Some(old_), spec) && Pointless(p, before, spec))
  {
  }

  /** A route the pass wants and could update, labelled for the migration but in another controller's
      hands. */
  ghost predicate Contested(p: Plan, before: Store, spec: RouteSpec) {
    && !p.fails(spec.Id()) && OwnedByOther(p.mig, Existing(before, spec.Id()), spec)
    && Labelled(before, p.mig, spec.Id())
  }

  ghost predicate NothingContested(p: Plan, before: Store, ings: seq<Ingress>) {
    forall spec: RouteSpec | Wanted(p, ings, spec) :: !Contested(p, before, spec)
  }

  /** Repeating a pass on its own outcome, under the same faults, changes nothing exactly when no route
      was contested: a contested route is refused, hence pruned, and then created by the next pass. And
      it reports nothing exactly when, besides, every applied route spells out what the API server would
      fill in. */
  lemma PassIsIdempotentExactlyWhen(p: Plan, before: Store, ings: seq<Ingress>, after: Store, removed: seq<RouteId>,
                                    again: Store, removedAgain: seq<RouteId>)
    requires DistinctKeys(ings) && p.KeepsKeys() && Defaulted(p, before)
    requires IsPass(p, before, ings, after, removed, true)
    requires IsPass(p, after, ings, again, removedAgain, true)
    ensures again == after <==> NothingContested(p, before, ings)
    ensures Reported(p, after, ings, removedAgain) == []
            <==> NothingContested(p, before, ings)
                 && forall spec: RouteSpec | Applies(p, before, ings, spec) :: p.defaulted(spec) == spec
  {
    if NothingContested(p, before, ings) {
      SecondPassKeepsTheStore(p, before, ings, after, removed, again, removedAgain);
      LoopReportsNothingExactlyWhen(p, before, ings, after, removed);
    } else {
      var spec: RouteSpec :| Wanted(p, ings, spec) && Contested(p, before, spec);
      ContestedRouteReturns(p, before, ings, after, removed, again, removedAgain, spec);
    }
  }

  lemma ContestedRouteReturns(p: Plan, before: Store, ings: seq<Ingress>, after: Store, removed: seq<RouteId>,
                              again: Store, removedAgain: seq<RouteId>, spec: RouteSpec)
    requires DistinctKeys(ings) && p.KeepsKeys()
    requires IsPass(p, before, ings, after, removed, true)
    requires IsPass(p, after, ings, again, removedAgain, true)
    requires Wanted(p, ings, spec) && Contested(p, before, spec)
    ensures spec.Id() !in after && spec.Id() in again
    ensures Reported(p, after, ings, removedAgain) != []
  {
    var ing :| ing in ings && Wants(p, ing, spec);
    FailureDeletesTheRoute(p, before, ings, after, removed, ing, spec.Id());
    assert !Refused(p, after, spec);
    PassInvariant(p, after, ings);
    PassStore(p, after, ings, again, removedAgain);
    assert Existing(again, spec.Id()).Some?;
    var second := ProcessAll(p, after, ings);
    assert second.applied[spec.Id()] == spec;
    assert Change(Add, spec.Id().key) in second.changes;
  }

  lemma SecondPassKeepsTheStore(p: Plan, before: Store, ings: seq<Ingress>, after: Store, removed: seq<RouteId>,
                                again: Store, removedAgain: seq<RouteId>)
    requires DistinctKeys(ings) && p.KeepsKeys() && NothingContested(p, before, ings) && Defaulted(p, before)
    requires IsPass(p, before, ings, after, removed, true)
    requires IsPass(p, after, ings, again, removedAgain, true)
    ensures again == after && Removals(removedAgain) == []
  {
    forall id ensures Existing(again, id) == Existing(after, id) {
      SameRoute(p, before, ings, after, removed, again, removedAgain, id);
    }
    SameStore(again, after);
    forall id ensures id !in removedAgain {
      RemovedIsGone(p, after, ings, again, removedAgain, id);
    }
    HasMember(removedAgain);
  }

  lemma RemovedIsGone(p: Plan, before: Store, ings: seq<Ingress>, after: Store, removed: seq<RouteId>, id: RouteId)
    requires DistinctKeys(ings) && p.KeepsKeys() && IsPass(p, before, ings, after, removed, true)
    ensures id in removed ==> id in before && id !in after
  {
    PassInvariant(p, before, ings);
    var acc := ProcessAll(p, before, ings);
    assert id in acc.applied ==> id.key in DesiredKeys(acc);
    assert id in removed ==> Orphan(acc.store, p.mig, DesiredKeys(acc), id) && id in Elements(removed);
    assert id !in acc.applied ==> Existing(acc.store, id) == Existing(before, id);
  }

  lemma SameStore(a: Store, b: Store)
    requires forall id :: Existing(a, id) == Existing(b, id)
    ensures a == b
  {
    forall id ensures (id in a <==> id in b) && (id in a ==> a[id] == b[id]) {
      assert Existing(a, id) == Existing(b, id);
    }
  }

  lemma SameRoute(p: Plan, before: Store, ings: seq<Ingress>, after: Store, removed: seq<RouteId>,
                  again: Store, removedAgain: seq<RouteId>, id: RouteId)
    requires DistinctKeys(ings) && p.KeepsKeys() && NothingContested(p, before, ings) && Defaulted(p, before)
    requires IsPass(p, before, ings, after, removed, true)
    requires IsPass(p, after, ings, again, removedAgain, true)
    ensures Existing(again, id) == Existing(after, id)
  {
    var applied := ProcessAll(p, before, ings).applied;
    SameApplied(p, before, ings, after, removed);
    PassStore(p, after, ings, again, removedAgain);
    if id in applied {
      PassStore(p, before, ings, after, removed);
      assert Existing(after, id) == Some(p.Outcome(Existing(before, id), applied[id]));
      OutcomeIsStable(p, Existing(before, id), applied[id]);
    } else {
      PassConverges(p, before, ings, after, removed);
    }
  }

  lemma HasMember<T>(s: seq<T>)
    ensures s == [] || exists x :: x in s
  {
    if s != [] { assert s[0] in s; }
  }

  /** Writing the same route again leaves it as it is, and goes unreported if it is stored verbatim. */
  lemma OutcomeIsStable(p: Plan, existing: Option<StoredRoute>, spec: RouteSpec)
    ensures var once := p.Outcome(existing, spec);
            && p.Outcome(Some(once), spec) == once
            && (once == Mutated(p.mig, Some(once), spec) <==> once.spec == spec)
            && (existing.Some? && p.defaulted(existing.value.spec) == existing.value.spec ==>
                once.spec == p.defaulted(spec))
            && (existing.None? ==> once.spec == p.defaulted(spec))
  {
  }

  lemma LoopReportsNothingExactlyWhen(p: Plan, before: Store, ings: seq<Ingress>, after: Store, removed: seq<RouteId>)
    requires DistinctKeys(ings) && p.KeepsKeys() && NothingContested(p, before, ings) && Defaulted(p, before)
    requires IsPass(p, before, ings, after, removed, true)
    ensures ProcessAll(p, after, ings).changes == []
            <==> forall spec: RouteSpec | Applies(p, before, ings, spec) :: p.defaulted(spec) == spec
  {
    var first, second := ProcessAll(p, before, ings), ProcessAll(p, after, ings);
    SameApplied(p, before, ings, after, removed);
    PassInvariant(p, after, ings);
    forall id | id in second.applied
      ensures Applies(p, before, ings, second.applied[id])
      ensures ChangeOf(p, after, second.applied[id]).None? <==> p.defaulted(second.applied[id]) == second.applied[id]
    {
      AppliedTwice(p, before, ings, after, removed, id);
    }
    forall spec: RouteSpec | Applies(p, before, ings, spec)
      ensures spec.Id() in second.applied && second.applied[spec.Id()] == spec
    {
      PassInvariant(p, before, ings);
    }
    HasMember(second.changes);
    forall id | id in second.applied && ChangeOf(p, after, second.applied[id]).Some?
      ensures second.changes != []
    {
      assert ChangeOf(p, after, second.applied[id]).value in second.changes;
    }
  }

  lemma AppliedTwice(p: Plan, before: Store, ings: seq<Ingress>, after: Store, removed: seq<RouteId>, id: RouteId)
    requires DistinctKeys(ings) && p.KeepsKeys() && Defaulted(p, before)
    requires IsPass(p, before, ings, after, removed, true)
    requires id in ProcessAll(p, before, ings).applied
    ensures var spec := ProcessAll(p, before, ings).applied[id];
            && Applies(p, before, ings, spec)
            && (ChangeOf(p, after, spec).None? <==> p.defaulted(spec) == spec)
  {
    PassInvariant(p, before, ings);
    PassStore(p, before, ings, after, removed);
    var spec := ProcessAll(p, before, ings).applied[id];
    assert spec.Id() == id && Existing(after, id) == Some(p.Outcome(Existing(before, id), spec));
    OutcomeIsStable(p, Existing(before, id), spec);
  }

  /** The pass leaves every wanted route as refusable as it found it. */
  lemma RefusedAsBefore(p: Plan, before: Store, ings: seq<Ingress>, after: Store, removed: seq<RouteId>)
    requires DistinctKeys(ings) && p.KeepsKeys() && NothingContested(p, before, ings)
    requires IsPass(p, before, ings, after, removed, true)
    ensures forall spec: RouteSpec | Wanted(p, ings, spec) :: Refused(p, after, spec) <==> Refused(p, before, spec)
  {
    PassInvariant(p, before, ings);
    PassStore(p, before, ings, after, removed);
    var applied := ProcessAll(p, before, ings).applied;
    forall spec: RouteSpec | Wanted(p, ings, spec)
      ensures Refused(p, after, spec) <==> Refused(p, before, spec)
    {
      if Refused(p, before, spec) {
        if spec.Id() in applied { assert !Refused(p, before, applied[spec.Id()]); }
        if !p.fails(spec.Id()) { assert Existing(after, spec.Id()) == Existing(before, spec.Id()); }
      } else {
        assert applied[spec.Id()] == spec;
        assert Existing(after, spec.Id()) == Some(p.Outcome(Existing(before, spec.Id()), spec));
      }
    }
  }

  lemma SameApplied(p: Plan, before: Store, ings: seq<Ingress>, after: Store, removed: seq<RouteId>)
    requires DistinctKeys(ings) && p.KeepsKeys() && NothingContested(p, before, ings)
    requires IsPass(p, before, ings, after, removed, true)
    ensures ProcessAll(p, after, ings).applied == ProcessAll(p, before, ings).applied
  {
    RefusedAsBefore(p, before, ings, after, removed);
    AppliedAnywhere(p, before, after, ings);
    AppliedAnywhere(p, after, before, ings);
  }

  /** Stores that refuse the same routes let the same routes through. */
  lemma AppliedAnywhere(p: Plan, one: Store, other: Store, ings: seq<Ingress>)
    requires DistinctKeys(ings) && p.KeepsKeys()
    requires forall spec: RouteSpec | Wanted(p, ings, spec) :: Refused(p, other, spec) <==> Refused(p, one, spec)
    ensures var acc, otherAcc := ProcessAll(p, one, ings), ProcessAll(p, other, ings);
            forall id | id in acc.applied :: id in otherAcc.applied && otherAcc.applied[id] == acc.applied[id]
  {
    PassInvariant(p, one, ings);
    PassInvariant(p, other, ings);
    var acc, otherAcc := ProcessAll(p, one, ings), ProcessAll(p, other, ings);
    forall id | id in acc.applied
      ensures id in otherAcc.applied && otherAcc.applied[id] == acc.applied[id]
    {
      assert acc.applied[id].Id() == id && Wanted(p, ings, acc.applied[id]);
    }
  }
}
