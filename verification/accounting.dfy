/** The counters of a conversion pass: converted, failed and pending Ingresses. */
module Accounting {
  import opened Text
  import opened Kube
  import opened CanaryPairs
  import opened Conversion
  import opened RouteStore
  import opened Convergence

  predicate FoldedInto(p: Plan, primary: Ingress) {
    p.want(primary).Some? && p.want(primary).value.folded
  }

  /** The plan skips the paired canaries and folds only into primaries, as the pairing found them. */
  ghost predicate FollowsPairing(p: Plan, all: set<Ingress>) {
    && p.paired == CanaryKeys(PairsOf(all))
    && forall ing | FoldedInto(p, ing) && ing in all && ing.key !in p.paired :: exists c :: Paired(all, ing, c)
  }

  ghost function FoldedPairs(p: Plan, all: set<Ingress>): set<(Ingress, Ingress)> {
    set x | x in PairsOf(all) && FoldedInto(p, x.0)
  }

  /** Paired canaries whose primary did not take them in. */
  ghost function WaitingPairs(p: Plan, all: set<Ingress>): set<(Ingress, Ingress)> {
    set x | x in PairsOf(all) && !FoldedInto(p, x.0)
  }

  ghost function Filter<T>(s: seq<T>, keep: T -> bool): set<T> { set x | x in s && keep(x) }

  ghost function Skipped(p: Plan, ings: seq<Ingress>): set<Ingress> { Filter(ings, (i: Ingress) => i.key in p.paired) }
  ghost function Visited(p: Plan, ings: seq<Ingress>): set<Ingress> { Filter(ings, (i: Ingress) => i.key !in p.paired) }
  ghost function Merging(p: Plan, ings: seq<Ingress>): set<Ingress> {
    Filter(ings, (i: Ingress) => i.key !in p.paired && FoldedInto(p, i))
  }

  lemma FilterGrows<T>(init: seq<T>, x: T, keep: T -> bool)
    requires x !in init
    ensures |Filter(init + [x], keep)| == |Filter(init, keep)| + if keep(x) then 1 else 0
  {
    assert Filter(init + [x], keep) == Filter(init, keep) + if keep(x) then {x} else {};
  }

  lemma SetsGrow(p: Plan, init: seq<Ingress>, ing: Ingress)
    requires ing !in init
    ensures |Visited(p, init + [ing])| == |Visited(p, init)| + if ing.key in p.paired then 0 else 1
    ensures |Merging(p, init + [ing])|
            == |Merging(p, init)| + if ing.key !in p.paired && FoldedInto(p, ing) then 1 else 0
  {
    FilterGrows(init, ing, (i: Ingress) => i.key !in p.paired);
    FilterGrows(init, ing, (i: Ingress) => i.key !in p.paired && FoldedInto(p, i));
  }

  lemma LastIsNew(init: seq<Ingress>, ing: Ingress)
    requires DistinctKeys(init + [ing])
    ensures forall x | x in init :: x.key != ing.key
  {
    forall x | x in init ensures x.key != ing.key {
      var i :| 0 <= i < |init| && init[i] == x;
      assert (init + [ing])[i].key != (init + [ing])[|init|].key;
    }
  }

  lemma ApplyCounts(p: Plan, acc: Acc, ing: Ingress)
    requires p.KeepsKeys() && FreshKey(acc, ing.key)
    ensures var after := ProcessOne(p, acc, ing);
            && after.converted + after.failed == acc.converted + acc.failed
                 + (if ing.key in p.paired then 0 else 1)
                 + (if ing.key !in p.paired && FoldedInto(p, ing) then 1 else 0)
            && after.converted - acc.converted == |after.applied| - |acc.applied|
                 + (if ing.key !in p.paired && FoldedInto(p, ing) then 1 else 0)
            && after.failed >= acc.failed
  {
    if ing.key !in p.paired && p.want(ing).Some? {
      var spec := p.want(ing).value.spec;
      assert spec.Id() !in acc.applied;
      assert |acc.applied[spec.Id() := spec]| == |acc.applied| + 1;
    }
  }

  /** Each visited Ingress counts once, as converted or failed, and a merged canary counts once more
      as converted; applied routes and merged canaries make up the converted. */
  lemma {:induction false} LoopCounts(p: Plan, before: Store, ings: seq<Ingress>)
    requires DistinctKeys(ings) && p.KeepsKeys()
    ensures var acc := ProcessAll(p, before, ings);
            && acc.converted + acc.failed == |Visited(p, ings)| + |Merging(p, ings)|
            && acc.converted == |acc.applied| + |Merging(p, ings)|
            && acc.failed >= 0
  {
    if ings == [] {
      assert Visited(p, ings) == {} && Merging(p, ings) == {};
    } else {
      var init, ing := ings[..|ings| - 1], ings[|ings| - 1];
      assert ings == init + [ing];
      LoopCounts(p, before, init);
      LastIsNew(init, ing);
      SetsGrow(p, init, ing);
      PassInvariant(p, before, init);
      ApplyCounts(p, ProcessAll(p, before, init), ing);
    }
  }

  lemma {:induction false} FirstsSize<A, B>(pairs: set<(A, B)>)
    requires forall x, y | x in pairs && y in pairs && x.0 == y.0 :: x == y
    ensures |set x | x in pairs :: x.0| == |pairs|
    decreases |pairs|
  {
    if pairs == {} {
      assert (set x | x in pairs :: x.0) == {};
    } else {
      var a :| a in pairs;
      FirstsSize(pairs - {a});
      assert (set x | x in pairs :: x.0) == (set x | x in pairs - {a} :: x.0) + {a.0};
    }
  }

  lemma {:induction false} SecondsSize<A, B>(pairs: set<(A, B)>)
    requires forall x, y | x in pairs && y in pairs && x.1 == y.1 :: x == y
    ensures |set x | x in pairs :: x.1| == |pairs|
    decreases |pairs|
  {
    if pairs == {} {
      assert (set x | x in pairs :: x.1) == {};
    } else {
      var a :| a in pairs;
      SecondsSize(pairs - {a});
      assert (set x | x in pairs :: x.1) == (set x | x in pairs - {a} :: x.1) + {a.1};
    }
  }

  lemma PairsAreMatched(all: set<Ingress>)
    ensures forall x, y | x in PairsOf(all) && y in PairsOf(all) && x.0 == y.0 :: x == y
    ensures forall x, y | x in PairsOf(all) && y in PairsOf(all) && x.1 == y.1 :: x == y
  {
    forall x, y | x in PairsOf(all) && y in PairsOf(all)
      ensures x.0 == y.0 <==> x.1 == y.1
    {
      RolesAreExclusive(all, x.0, x.1, y.0, y.1);
    }
  }

  /** The skipped Ingresses are the paired canaries, and the merging ones the primaries of the folded
      pairs. */
  lemma RolesCounted(p: Plan, ings: seq<Ingress>)
    requires DistinctKeys(ings) && FollowsPairing(p, Elements(ings))
    ensures Skipped(p, ings) == set x | x in PairsOf(Elements(ings)) :: x.1
    ensures Merging(p, ings) == set x | x in FoldedPairs(p, Elements(ings)) :: x.0
  {
    var all := Elements(ings);
    forall i | i in Skipped(p, ings)
      ensures exists x :: x in PairsOf(all) && x.1 == i
    {
      var x :| x in PairsOf(all) && x.1.key == i.key;
      KeyIdentifies(ings, i, x.1);
    }
    forall i | i in Merging(p, ings)
      ensures exists x :: x in FoldedPairs(p, all) && x.0 == i
    {
      var c :| Paired(all, i, c);
      assert (i, c) in FoldedPairs(p, all);
    }
    forall x, y | x in PairsOf(all) && y in PairsOf(all)
      ensures x.0.key != y.1.key
    {
      RolesAreExclusive(all, x.0, x.1, y.0, y.1);
      if x.0.key == y.1.key {
        KeyIdentifies(ings, x.0, y.1);
        assert false;
      }
    }
  }

  lemma {:induction false} ListingSize(ings: seq<Ingress>)
    requires DistinctKeys(ings)
    ensures |Elements(ings)| == |ings|
  {
    if ings == [] {
      assert Elements(ings) == {};
    } else {
      var init, ing := ings[..|ings| - 1], ings[|ings| - 1];
      ListingSize(init);
      assert ings == init + [ing];
      assert forall i | 0 <= i < |init| :: ings[i] != ing;
      assert Elements(ings) == Elements(init) + {ing} && ing !in init;
    }
  }

  lemma SkippedSize(p: Plan, ings: seq<Ingress>)
    requires DistinctKeys(ings) && FollowsPairing(p, Elements(ings))
    ensures |Skipped(p, ings)| == |PairsOf(Elements(ings))|
    ensures |ings| == |Visited(p, ings)| + |Skipped(p, ings)|
  {
    ListingSize(ings);
    RolesCounted(p, ings);
    PairsAreMatched(Elements(ings));
    SecondsSize(PairsOf(Elements(ings)));
    UnionSize(Elements(ings), Visited(p, ings), Skipped(p, ings));
  }

  lemma MergingSize(p: Plan, ings: seq<Ingress>)
    requires DistinctKeys(ings) && FollowsPairing(p, Elements(ings))
    ensures |Merging(p, ings)| == |FoldedPairs(p, Elements(ings))|
  {
    RolesCounted(p, ings);
    PairsAreMatched(Elements(ings));
    FirstsSize(FoldedPairs(p, Elements(ings)));
  }

  /** Pending, which the status computes as total - converted - failed, is exactly the number of
      paired canaries that no primary took in; so the counters never exceed the total. */
  lemma PendingIsUnfoldedCanaries(p: Plan, before: Store, ings: seq<Ingress>)
    requires DistinctKeys(ings) && p.KeepsKeys() && FollowsPairing(p, Elements(ings))
    ensures var acc := ProcessAll(p, before, ings);
            && |ings| - acc.converted - acc.failed == |WaitingPairs(p, Elements(ings))|
            && acc.converted >= 0 && acc.failed >= 0 && acc.converted + acc.failed <= |ings|
  {
    var all := Elements(ings);
    LoopCounts(p, before, ings);
    SkippedSize(p, ings);
    MergingSize(p, ings);
    UnionSize(PairsOf(all), FoldedPairs(p, all), WaitingPairs(p, all));
  }

  lemma UnionSize<T>(whole: set<T>, a: set<T>, b: set<T>)
    requires whole == a + b && a !! b
    ensures |whole| == |a| + |b|
  {
  }

  /** Ingresses whose backends an applied route carries: one per applied route, and one per canary
      folded into an applied one. */
  ghost function Carried(p: Plan, before: Store, ings: seq<Ingress>): int {
    |ProcessAll(p, before, ings).applied| + |set x | x in FoldedPairs(p, Elements(ings)) && Accepted(p, before, x.0)|
  }

  /** The pass wants a route for this Ingress and nobody refuses it. */
  predicate Accepted(p: Plan, before: Store, ing: Ingress) {
    p.want(ing).Some? && !Refused(p, before, p.want(ing).value.spec)
  }

  /** The converted counter is the number of Ingresses live in applied routes exactly when no primary
      that took a canary in was refused; otherwise it counts canaries that went nowhere. */
  lemma {:induction false} ConvertedIsLiveExactlyWhen(p: Plan, before: Store, ings: seq<Ingress>)
    requires DistinctKeys(ings) && p.KeepsKeys() && FollowsPairing(p, Elements(ings))
    ensures ProcessAll(p, before, ings).converted >= Carried(p, before, ings)
    ensures ProcessAll(p, before, ings).converted == Carried(p, before, ings)
            <==> forall x | x in FoldedPairs(p, Elements(ings)) :: Accepted(p, before, x.0)
  {
    var folded := FoldedPairs(p, Elements(ings));
    var live := set x | x in folded && Accepted(p, before, x.0);
    var lost := folded - live;
    LoopCounts(p, before, ings);
    MergingSize(p, ings);
    UnionSize(folded, live, lost);
    assert lost != {} ==> exists x :: x in lost;
  }

  /** The plan of an actual pass follows its pairing. */
  lemma ContextFollowsPairing(c: Context, ings: seq<Ingress>)
    requires IsPairing(Elements(ings), c.paired, c.pairings)
    requires DistinctKeys(ings)
    ensures FollowsPairing(PlanOf(c), Elements(ings))
  {
    var p, all := PlanOf(c), Elements(ings);
    forall ing | FoldedInto(p, ing) && ing in all && ing.key !in p.paired
      ensures exists d :: Paired(all, ing, d)
    {
      assert Folds(c, ing) && ing.key in c.pairings.Keys;
      var x :| x in PairsOf(all) && x.0.key == ing.key;
      KeyIdentifies(ings, ing, x.0);
      assert Paired(all, ing, x.1);
    }
  }
}
