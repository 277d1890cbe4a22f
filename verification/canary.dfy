/** Canary pairing and the weighted merge (canary.go). */
module CanaryPairs {
  import opened Text
  import opened Kube
  import opened Grouping
  import opened Annotations
  import opened Conversion

  const CANARY := "nginx.ingress.kubernetes.io/canary"
  const CANARY_WEIGHT := "nginx.ingress.kubernetes.io/canary-weight"

  datatype Pairing = Pairing(ingress: Ingress, weight: int)

  predicate IsCanary(ing: Ingress) {
    CANARY in ing.annotations && ing.annotations[CANARY] == "true"
  }

  function CanaryWeight(ing: Ingress): (w: Option<int>)
    ensures w.Some? ==> 0 <= w.value <= 100
  {
    if CANARY_WEIGHT !in ing.annotations then None
    else
      match Atoi(ing.annotations[CANARY_WEIGHT])
      case None => None
      case Some(n) => if n < 0 || n > 100 then None else Some(n)
  }

  /** The route of an Ingress that has exactly one rule with exactly one path. */
  datatype SoleRoute = SoleRoute(namespace: string, host: string, path: string)

  function SoleRouteOf(ing: Ingress): Option<SoleRoute> {
    if |ing.rules| != 1 then None
    else if ing.rules[0].http.None? || |ing.rules[0].http.value| != 1 then None
    else Some(SoleRoute(ing.key.namespace, ing.rules[0].host, ing.rules[0].http.value[0].path))
  }

  function SignatureText(r: SoleRoute): string { r.namespace + "|" + (r.host + "|" + r.path) }

  function RouteSignature(ing: Ingress): Option<string> {
    match SoleRouteOf(ing)
    case None => None
    case Some(r) => Some(SignatureText(r))
  }

  /** Namespaces and hosts are DNS names, so they contain no bar. */
  predicate NoBars(ing: Ingress) {
    '|' !in ing.key.namespace && forall r | r in ing.rules :: '|' !in r.host
  }

  /** The text that groups Ingresses identifies namespace, host and path. */
  lemma SignatureIdentifies(a: Ingress, b: Ingress)
    requires NoBars(a) && NoBars(b)
    requires RouteSignature(a).Some? && RouteSignature(b).Some?
    ensures RouteSignature(a) == RouteSignature(b) <==> SoleRouteOf(a) == SoleRouteOf(b)
  {
    var x, y := SoleRouteOf(a).value, SoleRouteOf(b).value;
    if SignatureText(x) == SignatureText(y) {
      SeparatorInjective('|', x.namespace, x.host + "|" + x.path, y.namespace, y.host + "|" + y.path);
      SeparatorInjective('|', x.host, x.path, y.host, y.path);
    }
  }

  /** What pairing means: the two are the only selected Ingresses for their one namespace, host and
      path, exactly one of them is marked as canary, and its weight is valid. */
  ghost predicate Paired(all: set<Ingress>, primary: Ingress, canary: Ingress) {
    && primary in all && canary in all && primary != canary
    && SoleRouteOf(primary).Some? && SoleRouteOf(canary) == SoleRouteOf(primary)
    && (forall other | other in all && SoleRouteOf(other) == SoleRouteOf(primary) ::
        other == primary || other == canary)
    && IsCanary(canary) && !IsCanary(primary)
    && CanaryWeight(canary).Some?
  }

  ghost function PairsOf(all: set<Ingress>): set<(Ingress, Ingress)> {
    set p, c | p in all && c in all && Paired(all, p, c) :: (p, c)
  }

  ghost function PrimaryKeys(pairs: set<(Ingress, Ingress)>): set<ObjectKey> { set x | x in pairs :: x.0.key }
  ghost function CanaryKeys(pairs: set<(Ingress, Ingress)>): set<ObjectKey> { set x | x in pairs :: x.1.key }

  function PairingOf(c: Ingress): Pairing {
    Pairing(c, if CanaryWeight(c).Some? then CanaryWeight(c).value else 0)
  }

  /** The two maps record exactly these (primary, canary) pairs. */
  ghost predicate Records(pairs: set<(Ingress, Ingress)>, names: set<ObjectKey>, forPrimary: map<ObjectKey, Pairing>) {
    && names == CanaryKeys(pairs)
    && forPrimary.Keys == PrimaryKeys(pairs)
    && forall x | x in pairs :: forPrimary[x.0.key] == PairingOf(x.1)
  }

  /** The pairing of a set of Ingresses. */
  ghost predicate IsPairing(all: set<Ingress>, names: set<ObjectKey>, forPrimary: map<ObjectKey, Pairing>) {
    Records(PairsOf(all), names, forPrimary)
  }

  /** The pairing depends on which Ingresses are selected, not on how they are listed or in what
      order a map is iterated. */
  lemma PairingUnique(all: set<Ingress>, names: set<ObjectKey>, forPrimary: map<ObjectKey, Pairing>,
                      names': set<ObjectKey>, forPrimary': map<ObjectKey, Pairing>)
    requires IsPairing(all, names, forPrimary) && IsPairing(all, names', forPrimary')
    ensures names == names' && forPrimary == forPrimary'
  {
    forall k | k in forPrimary ensures forPrimary[k] == forPrimary'[k] {
      assert k in PrimaryKeys(PairsOf(all));
    }
  }

  /** No Ingress plays two roles, and partners determine each other. */
  lemma RolesAreExclusive(all: set<Ingress>, p: Ingress, c: Ingress, p': Ingress, c': Ingress)
    requires Paired(all, p, c) && Paired(all, p', c')
    ensures p != c' && c != p'
    ensures p == p' <==> c == c'
  {
  }

  function Signed(ings: seq<Ingress>): seq<(string, Ingress)> {
    if ings == [] then []
    else
      var before, last := Signed(ings[..|ings| - 1]), ings[|ings| - 1];
      match RouteSignature(last)
      case None => before
      case Some(sig) => before + [(sig, last)]
  }

  lemma {:induction false} SignedMembers(ings: seq<Ingress>)
    requires DistinctKeys(ings)
    ensures forall sig, ing :: (sig, ing) in Signed(ings) <==> ing in ings && RouteSignature(ing) == Some(sig)
    ensures NoDuplicates(Signed(ings))
  {
    if ings != [] {
      var init, last := ings[..|ings| - 1], ings[|ings| - 1];
      assert ings == init + [last];
      SignedMembers(init);
      assert forall i | 0 <= i < |init| :: init[i] != last;
      assert forall i | 0 <= i < |Signed(init)| :: Signed(init)[i] in Signed(init);
    }
  }

  /** The inner loop of the source: the last canary and the last other Ingress of a group. */
  method RolesOf(group: seq<Ingress>) returns (primary: Option<Ingress>, canary: Option<Ingress>)
    requires |group| == 2
    ensures primary.Some? && canary.Some? <==> IsCanary(group[0]) != IsCanary(group[1])
    ensures primary.Some? && canary.Some? ==>
              && canary.value == (if IsCanary(group[0]) then group[0] else group[1])
              && primary.value == (if IsCanary(group[0]) then group[1] else group[0])
  {
    primary, canary := None, None;
    for i := 0 to |group|
      invariant canary == if i == 2 && IsCanary(group[1]) then Some(group[1])
                          else if i >= 1 && IsCanary(group[0]) then Some(group[0]) else None
      invariant primary == if i == 2 && !IsCanary(group[1]) then Some(group[1])
                           else if i >= 1 && !IsCanary(group[0]) then Some(group[0]) else None
    {
      if IsCanary(group[i]) {
        canary := Some(group[i]);
      } else {
        primary := Some(group[i]);
      }
    }
  }

  lemma GroupOfTwo(ings: seq<Ingress>, sig: string)
    requires DistinctKeys(ings) && forall i | i in ings :: NoBars(i)
    ensures forall ing :: ing in Select(Signed(ings), sig) <==> ing in ings && RouteSignature(ing) == Some(sig)
    ensures NoDuplicates(Select(Signed(ings), sig))
  {
    SignedMembers(ings);
    SelectNoDuplicates(Signed(ings), sig);
    forall ing
      ensures ing in Select(Signed(ings), sig) <==> ing in ings && RouteSignature(ing) == Some(sig)
    {
      SelectMembers(Signed(ings), sig, ing);
    }
  }

  /** The pair a signature stands for, if its group is of the exact shape nginx canaries have. */
  ghost predicate PairOfSignature(ings: seq<Ingress>, sig: string, p: Ingress, c: Ingress) {
    Paired(Elements(ings), p, c) && RouteSignature(c) == Some(sig)
  }

  /** A group yields a pair exactly when it has two members, one of them a canary with a weight. */
  lemma PairFromGroup(ings: seq<Ingress>, sig: string)
    requires DistinctKeys(ings) && forall i | i in ings :: NoBars(i)
    ensures var g := Select(Signed(ings), sig);
            forall p, c :: PairOfSignature(ings, sig, p, c) <==>
              && |g| == 2 && IsCanary(g[0]) != IsCanary(g[1])
              && c == (if IsCanary(g[0]) then g[0] else g[1])
              && p == (if IsCanary(g[0]) then g[1] else g[0])
              && CanaryWeight(c).Some?
  {
    var g := Select(Signed(ings), sig);
    GroupOfTwo(ings, sig);
    forall p, c
      ensures PairOfSignature(ings, sig, p, c) <==>
              && |g| == 2 && IsCanary(g[0]) != IsCanary(g[1])
              && c == (if IsCanary(g[0]) then g[0] else g[1])
              && p == (if IsCanary(g[0]) then g[1] else g[0])
              && CanaryWeight(c).Some?
    {
      if PairOfSignature(ings, sig, p, c) {
        SignatureIdentifies(p, c);
        assert p in g && c in g;
        if |g| > 2 { ThirdMember(ings, sig, p, c); }
      }
      if |g| == 2 && IsCanary(g[0]) != IsCanary(g[1]) && CanaryWeight(c).Some?
        && c == (if IsCanary(g[0]) then g[0] else g[1]) && p == (if IsCanary(g[0]) then g[1] else g[0]) {
        assert g[0] in g && g[1] in g;
        SignatureIdentifies(p, c);
        forall other | other in Elements(ings) && SoleRouteOf(other) == SoleRouteOf(p)
          ensures other == p || other == c
        {
          SignatureIdentifies(other, p);
          assert other in g;
        }
      }
    }
  }

  lemma ThirdMember(ings: seq<Ingress>, sig: string, p: Ingress, c: Ingress)
    requires DistinctKeys(ings) && forall i | i in ings :: NoBars(i)
    requires |Select(Signed(ings), sig)| > 2
    requires p in ings && c in ings && RouteSignature(p) == RouteSignature(c) == Some(sig)
    ensures !Paired(Elements(ings), p, c)
  {
    var g := Select(Signed(ings), sig);
    GroupOfTwo(ings, sig);
    var k := if g[0] != p && g[0] != c then 0 else if g[1] != p && g[1] != c then 1 else 2;
    assert g[0] != g[1] && g[0] != g[2] && g[1] != g[2];
    assert g[k] in g;
    SignatureIdentifies(g[k], p);
  }

  /** The pairs whose signature has been visited. */
  ghost function PairsIn(ings: seq<Ingress>, sigs: set<string>): set<(Ingress, Ingress)> {
    set p, c | p in ings && c in ings && Paired(Elements(ings), p, c)
               && RouteSignature(c).Some? && RouteSignature(c).value in sigs :: (p, c)
  }

  lemma RecordOne(pairs: set<(Ingress, Ingress)>, x: (Ingress, Ingress),
                  names: set<ObjectKey>, forPrimary: map<ObjectKey, Pairing>)
    requires Records(pairs, names, forPrimary)
    requires forall y | y in pairs && y.0.key == x.0.key :: y == x
    ensures Records(pairs + {x}, names + {x.1.key}, forPrimary[x.0.key := PairingOf(x.1)])
  {
    assert CanaryKeys(pairs + {x}) == CanaryKeys(pairs) + {x.1.key} by { KeysGrow(pairs, x); }
    assert PrimaryKeys(pairs + {x}) == PrimaryKeys(pairs) + {x.0.key} by { KeysGrow(pairs, x); }
    forall y | y in pairs + {x}
      ensures y.0.key in forPrimary[x.0.key := PairingOf(x.1)]
      ensures forPrimary[x.0.key := PairingOf(x.1)][y.0.key] == PairingOf(y.1)
    {
      if y != x { assert y.0.key in PrimaryKeys(pairs); }
    }
  }

  lemma KeysGrow(pairs: set<(Ingress, Ingress)>, x: (Ingress, Ingress))
    ensures CanaryKeys(pairs + {x}) == CanaryKeys(pairs) + {x.1.key}
    ensures PrimaryKeys(pairs + {x}) == PrimaryKeys(pairs) + {x.0.key}
  {
    assert forall y | y in pairs :: y in pairs + {x};
    assert x in pairs + {x};
  }

  lemma KeyIdentifies(ings: seq<Ingress>, a: Ingress, b: Ingress)
    requires DistinctKeys(ings) && a in ings && b in ings && a.key == b.key
    ensures a == b
  {
    var i :| 0 <= i < |ings| && ings[i] == a;
    var j :| 0 <= j < |ings| && ings[j] == b;
  }

  lemma OnePrimaryPerKey(ings: seq<Ingress>, sigs: set<string>, p: Ingress, c: Ingress)
    requires DistinctKeys(ings) && Paired(Elements(ings), p, c)
    ensures forall y | y in PairsIn(ings, sigs) && y.0.key == p.key :: y == (p, c)
  {
    forall y | y in PairsIn(ings, sigs) && y.0.key == p.key
      ensures y == (p, c)
    {
      KeyIdentifies(ings, y.0, p);
      RolesAreExclusive(Elements(ings), p, c, y.0, y.1);
    }
  }

  lemma NextSignature(ings: seq<Ingress>, sigs: set<string>, sig: string)
    ensures forall p, c | PairOfSignature(ings, sig, p, c)
            && (forall p', c' | PairOfSignature(ings, sig, p', c') :: p' == p && c' == c) ::
              PairsIn(ings, sigs + {sig}) == PairsIn(ings, sigs) + {(p, c)}
    ensures (forall p, c :: !PairOfSignature(ings, sig, p, c)) ==> PairsIn(ings, sigs + {sig}) == PairsIn(ings, sigs)
  {
    forall x | x in PairsIn(ings, sigs + {sig})
      ensures x in PairsIn(ings, sigs) || PairOfSignature(ings, sig, x.0, x.1)
    {
    }
  }

  lemma AllSignaturesVisited(ings: seq<Ingress>)
    requires DistinctKeys(ings)
    ensures PairsIn(ings, Group(Signed(ings)).Keys) == PairsOf(Elements(ings))
  {
    SignedMembers(ings);
    forall x | x in PairsOf(Elements(ings))
      ensures x in PairsIn(ings, Group(Signed(ings)).Keys)
    {
      var sig := RouteSignature(x.1).value;
      GroupSelects(Signed(ings), sig);
      SelectMembers(Signed(ings), sig, x.1);
    }
  }

  /** Finds the canary pairs among the selected Ingresses. The groups are visited in whatever order
      the map yields them. */
  method Pair(ings: seq<Ingress>) returns (names: set<ObjectKey>, forPrimary: map<ObjectKey, Pairing>)
    requires DistinctKeys(ings)
    requires forall i | i in ings :: NoBars(i)
    ensures IsPairing(Elements(ings), names, forPrimary)
  {
    var bySignature: map<string, seq<Ingress>> := map[];
    for i := 0 to |ings|
      invariant bySignature == Group(Signed(ings[..i]))
    {
      assert ings[..i + 1][..i] == ings[..i];
      match RouteSignature(ings[i])
      case None =>
      case Some(sig) =>
        GroupSnoc(Signed(ings[..i]), sig, ings[i]);
        bySignature := bySignature[sig := (if sig in bySignature then bySignature[sig] else []) + [ings[i]]];
    }
    assert ings[..|ings|] == ings;
    names, forPrimary := {}, map[];
    var rest := bySignature.Keys;
    while rest != {}
      invariant rest <= bySignature.Keys
      invariant Records(PairsIn(ings, bySignature.Keys - rest), names, forPrimary)
    {
      var sig :| sig in rest;
      ghost var visited := bySignature.Keys - rest;
      rest := rest - {sig};
      assert bySignature.Keys - rest == visited + {sig};
      names, forPrimary := VisitGroup(ings, visited, sig, bySignature[sig], names, forPrimary);
    }
    assert bySignature.Keys - rest == bySignature.Keys;
    AllSignaturesVisited(ings);
  }

  /** The body of the loop over the groups. */
  method VisitGroup(ings: seq<Ingress>, ghost visited: set<string>, sig: string, group: seq<Ingress>,
                    names: set<ObjectKey>, forPrimary: map<ObjectKey, Pairing>)
    returns (names': set<ObjectKey>, forPrimary': map<ObjectKey, Pairing>)
    requires DistinctKeys(ings) && forall i | i in ings :: NoBars(i)
    requires Records(PairsIn(ings, visited), names, forPrimary)
    requires sig in Group(Signed(ings)) && group == Group(Signed(ings))[sig]
    ensures Records(PairsIn(ings, visited + {sig}), names', forPrimary')
  {
    names', forPrimary' := names, forPrimary;
    GroupSelects(Signed(ings), sig);
    PairFromGroup(ings, sig);
    NextSignature(ings, visited, sig);
    if |group| != 2 {
      return;
    }
    var primary, canary := RolesOf(group);
    if primary.None? || canary.None? {
      return;
    }
    var weight := CanaryWeight(canary.value);
    if weight.None? {
      return;
    }
    assert PairOfSignature(ings, sig, primary.value, canary.value);
    OnePrimaryPerKey(ings, visited, primary.value, canary.value);
    RecordOne(PairsIn(ings, visited), (primary.value, canary.value), names, forPrimary);
    names' := names + {canary.value.key};
    forPrimary' := forPrimary[primary.value.key := Pairing(canary.value, weight.value)];
  }

  /*** MergeBackend ***/

  function WithWeight(b: BackendRef, w: int): BackendRef { b.(weight := Some(w)) }

  function Reweighted(refs: seq<BackendRef>, w: int): seq<BackendRef> {
    seq(|refs|, i requires 0 <= i < |refs| => WithWeight(refs[i], w))
  }

  function MergedRule(r: HTTPRule, canaryBackend: BackendRef, weight: int): HTTPRule {
    r.(backendRefs := Reweighted(r.backendRefs, 100 - weight) + [WithWeight(canaryBackend, weight)])
  }

  /** The rules of the primary's route after folding the canary's backend in. */
  function MergedRules(primary: seq<HTTPRule>, canary: seq<HTTPRule>, weight: int): seq<HTTPRule> {
    if canary == [] || canary[0].backendRefs == [] then primary
    else seq(|primary|, i requires 0 <= i < |primary| => MergedRule(primary[i], canary[0].backendRefs[0], weight))
  }

  /** What an `*int32` points to; several backendRefs may share one. */
  class Cell {
    var value: int

    constructor (value: int)
      ensures this.value == value
    {
      this.value := value;
    }
  }

  /** A backendRef and a rule as they sit in memory: the weight is behind a pointer. */
  datatype RefObject = RefObject(
    group: Option<string>, kind: Option<string>, name: string, port: int, weight: Cell?)
  datatype RuleObject = RuleObject(
    matches: seq<PathMatch>,
    backendRefs: seq<RefObject>,
    filters: seq<Filter>,
    sessionPersistence: Option<SessionPersistence>,
    timeouts: Option<Timeouts>)

  ghost predicate RefDenotes(b: RefObject, v: BackendRef)
    reads if b.weight == null then {} else {b.weight}
  {
    v == BackendRef(b.group, b.kind, b.name, b.port, if b.weight == null then None else Some(b.weight.value))
  }

  ghost predicate RuleDenotes(r: RuleObject, v: HTTPRule)
    reads set b | b in r.backendRefs && b.weight != null :: b.weight
  {
    && v == HTTPRule(r.matches, v.backendRefs, r.filters, r.sessionPersistence, r.timeouts)
    && |v.backendRefs| == |r.backendRefs|
    && forall j | 0 <= j < |r.backendRefs| :: RefDenotes(r.backendRefs[j], v.backendRefs[j])
  }

  /** The rules in memory stand for these values. */
  ghost predicate Denotes(rules: seq<RuleObject>, v: seq<HTTPRule>)
    reads set r, b | r in rules && b in r.backendRefs && b.weight != null :: b.weight
  {
    |v| == |rules| && forall i | 0 <= i < |rules| :: RuleDenotes(rules[i], v[i])
  }

  function MergedObject(r: RuleObject, primaryWeight: Cell, canaryBackend: RefObject): RuleObject {
    r.(backendRefs :=
      seq(|r.backendRefs|, j requires 0 <= j < |r.backendRefs| => r.backendRefs[j].(weight := primaryWeight))
        + [canaryBackend])
  }

  /** The inner loop: reweights the refs of one rule in place and appends the canary's. */
  method MergeRule(primary: array<RuleObject>, i: nat, primaryWeight: Cell, canaryBackend: RefObject)
    requires i < primary.Length
    modifies primary
    ensures primary[..] == old(primary[..])[i := MergedObject(old(primary[i]), primaryWeight, canaryBackend)]
  {
    var r := primary[i];
    for j := 0 to |r.backendRefs|
      invariant forall k | 0 <= k < primary.Length && k != i :: primary[k] == old(primary[k])
      invariant primary[i] == r.(backendRefs := primary[i].backendRefs)
      invariant |primary[i].backendRefs| == |r.backendRefs|
      invariant forall k | 0 <= k < |r.backendRefs| :: primary[i].backendRefs[k]
                  == if k < j then r.backendRefs[k].(weight := primaryWeight) else r.backendRefs[k]
    {
      var refs := primary[i].backendRefs;
      primary[i] := primary[i].(backendRefs := refs[j := refs[j].(weight := primaryWeight)]);
    }
    primary[i] := primary[i].(backendRefs := primary[i].backendRefs + [canaryBackend]);
    assert primary[i].backendRefs == MergedObject(r, primaryWeight, canaryBackend).backendRefs;
  }

  /** The outer loop. */
  method MergeAll(primary: array<RuleObject>, primaryWeight: Cell, canaryBackend: RefObject)
    modifies primary
    ensures primary[..] == MergedObjects(old(primary[..]), primaryWeight, canaryBackend)
  {
    ghost var before := primary[..];
    for i := 0 to primary.Length
      invariant forall k | 0 <= k < i :: primary[k] == MergedObject(before[k], primaryWeight, canaryBackend)
      invariant forall k | i <= k < primary.Length :: primary[k] == before[k]
    {
      MergeRule(primary, i, primaryWeight, canaryBackend);
    }
  }

  function MergedObjects(rules: seq<RuleObject>, primaryWeight: Cell, canaryBackend: RefObject): seq<RuleObject> {
    seq(|rules|, i requires 0 <= i < |rules| => MergedObject(rules[i], primaryWeight, canaryBackend))
  }

  /** Folds the canary's backend into every rule of the primary's route, in place. All reweighted
      refs share one cell, all copies of the canary's ref another; no existing cell is written, so
      the canary's route keeps its meaning. */
  method MergeBackend(primary: array<RuleObject>, canary: array<RuleObject>, weight: int,
                      ghost mine: seq<HTTPRule>, ghost theirs: seq<HTTPRule>)
    requires primary != canary
    requires Denotes(primary[..], mine) && Denotes(canary[..], theirs)
    modifies primary
    ensures Denotes(primary[..], MergedRules(mine, theirs, weight))
    ensures canary[..] == old(canary[..]) && Denotes(canary[..], theirs)
  {
    if canary.Length == 0 || |canary[0].backendRefs| == 0 {
      assert canary.Length > 0 ==> RuleDenotes(canary[..][0], theirs[0]);
      return;
    }
    assert RuleDenotes(canary[..][0], theirs[0]);
    assert RefDenotes(canary[0].backendRefs[0], theirs[0].backendRefs[0]);
    var canaryWeight := new Cell(weight);
    var canaryBackend := canary[0].backendRefs[0].(weight := canaryWeight);
    var primaryWeight := new Cell(100 - weight);
    ghost var before := primary[..];
    MergeAll(primary, primaryWeight, canaryBackend);
    MergedDenotes(before, mine, theirs[0].backendRefs[0], primaryWeight, canaryBackend, weight);
  }

  lemma MergedDenotes(before: seq<RuleObject>, mine: seq<HTTPRule>, theirs: BackendRef,
                      primaryWeight: Cell, canaryBackend: RefObject, weight: int)
    requires Denotes(before, mine)
    requires primaryWeight.value == 100 - weight && RefDenotes(canaryBackend, WithWeight(theirs, weight))
    ensures Denotes(MergedObjects(before, primaryWeight, canaryBackend),
                    seq(|mine|, i requires 0 <= i < |mine| => MergedRule(mine[i], theirs, weight)))
  {
    forall i | 0 <= i < |before|
      ensures RuleDenotes(MergedObject(before[i], primaryWeight, canaryBackend), MergedRule(mine[i], theirs, weight))
    {
      assert RuleDenotes(before[i], mine[i]);
      assert forall j | 0 <= j < |before[i].backendRefs| ::
          RefDenotes(before[i].backendRefs[j], mine[i].backendRefs[j]);
    }
  }

  function SolePathOf(ing: Ingress): IngressPath
    requires SoleRouteOf(ing).Some?
  {
    ing.rules[0].http.value[0]
  }

  function SoleBackend(ing: Ingress, opts: Options): Converted
    requires SoleRouteOf(ing).Some?
  {
    ConvertBackend(ing, SolePathOf(ing), opts.resolver)
  }

  /** nginx's canary split end to end: for any pair whose two conversions succeed as HTTPRoutes, the
      merged route has one rule with two backends, the primary's at 100 - w and the canary's at w,
      and everything else about it is the primary's. */
  lemma SplitEndToEnd(all: set<Ingress>, p: Ingress, c: Ingress, e: Engine, opts: Options,
                      mine: HTTPRoute, theirs: HTTPRoute)
    requires Paired(all, p, c)
    requires Convert(e, p, opts).route == Some(mine) && Convert(e, c, opts).route == Some(theirs)
    ensures var w := CanaryWeight(c).value;
            && SoleBackend(p, opts).Ok? && SoleBackend(c, opts).Ok? && 0 <= w <= 100
            && IsSplit(MergedRules(mine.rules, theirs.rules, w), mine, SoleBackend(p, opts).backend,
                       SoleBackend(c, opts).backend, w)
  {
    SingleRule(e, p, opts, mine);
    SingleRule(e, c, opts, theirs);
    SplitOfSingles(mine, theirs, SoleBackend(p, opts).backend, SoleBackend(c, opts).backend, CanaryWeight(c).value);
  }

  /** One rule, the route's only one, sending 100 - w to one backend and w to the other. */
  predicate IsSplit(rules: seq<HTTPRule>, route: HTTPRoute, stable: BackendRef, trial: BackendRef, w: int) {
    && |route.rules| == 1
    && rules == [route.rules[0].(backendRefs := [WithWeight(stable, 100 - w), WithWeight(trial, w)])]
  }

  lemma SplitOfSingles(mine: HTTPRoute, theirs: HTTPRoute, stable: BackendRef, trial: BackendRef, w: int)
    requires |mine.rules| == 1 && mine.rules[0].backendRefs == [stable]
    requires |theirs.rules| == 1 && theirs.rules[0].backendRefs == [trial]
    ensures IsSplit(MergedRules(mine.rules, theirs.rules, w), mine, stable, trial, w)
  {
    MergeSingles(mine.rules[0], theirs.rules[0], w);
  }

  lemma MergeSingles(mine: HTTPRule, theirs: HTTPRule, w: int)
    requires |mine.backendRefs| == |theirs.backendRefs| == 1
    ensures MergedRules([mine], [theirs], w)
            == [mine.(backendRefs := [WithWeight(mine.backendRefs[0], 100 - w), WithWeight(theirs.backendRefs[0], w)])]
  {
    assert Reweighted(mine.backendRefs, 100 - w) == [WithWeight(mine.backendRefs[0], 100 - w)];
    assert MergedRule(mine, theirs.backendRefs[0], w).backendRefs
        == [WithWeight(mine.backendRefs[0], 100 - w), WithWeight(theirs.backendRefs[0], w)];
    assert MergedRules([mine], [theirs], w) == [MergedRule(mine, theirs.backendRefs[0], w)];
  }

  /** The route of an Ingress with one path has one rule, with that path's backend. */
  lemma SingleRule(e: Engine, ing: Ingress, opts: Options, route: HTTPRoute)
    requires SoleRouteOf(ing).Some?
    requires Convert(e, ing, opts).route == Some(route)
    ensures SoleBackend(ing, opts).Ok?
    ensures |route.rules| == 1 && route.rules[0].backendRefs == [SoleBackend(ing, opts).backend]
  {
    ConvertedRules(e, ing, opts);
    SolePath(ing);
    OnePathRules(ing, SolePathOf(ing), opts.resolver, Annotated(e, ing, opts.drop));
  }

  lemma ConvertedRules(e: Engine, ing: Ingress, opts: Options)
    requires Convert(e, ing, opts).route.Some?
    ensures HTTPRules(ing, PathsOf(ing.rules), opts.resolver, Annotated(e, ing, opts.drop)) != []
    ensures Convert(e, ing, opts).route.value.rules
            == HTTPRules(ing, PathsOf(ing.rules), opts.resolver, Annotated(e, ing, opts.drop))
  {
  }

  lemma SolePath(ing: Ingress)
    requires SoleRouteOf(ing).Some?
    ensures PathsOf(ing.rules) == [SolePathOf(ing)]
  {
    OneRulePaths(ing.rules[0]);
    assert ing.rules == [ing.rules[0]];
  }

  /*** The same over annotations and rules alone ***/

  /** The two annotations nginx reads, and a weight between 0 and 100 in decimal text. */
  ghost predicate MarkedAt(ing: Ingress, w: int) {
    var mark, weight := "nginx.ingress.kubernetes.io/canary", "nginx.ingress.kubernetes.io/canary-weight";
    && mark in ing.annotations && ing.annotations[mark] == "true"
    && weight in ing.annotations && ReadsAs(ing.annotations[weight], w) && 0 <= w <= 100
  }

  predicate Unmarked(ing: Ingress) {
    var mark := "nginx.ingress.kubernetes.io/canary";
    mark in ing.annotations ==> ing.annotations[mark] != "true"
  }

  lemma MarksExactly(ing: Ingress, w: int)
    ensures IsCanary(ing) && CanaryWeight(ing) == Some(w) <==> MarkedAt(ing, w)
    ensures !IsCanary(ing) <==> Unmarked(ing)
  {
    if CANARY_WEIGHT in ing.annotations { AtoiExactlyWhen(ing.annotations[CANARY_WEIGHT], w); }
  }

  /** One rule with one path. */
  predicate OneRoute(ing: Ingress, host: string, path: string) {
    && |ing.rules| == 1 && ing.rules[0].host == host
    && ing.rules[0].http.Some? && |ing.rules[0].http.value| == 1 && ing.rules[0].http.value[0].path == path
  }

  lemma SoleRouteExactly(ing: Ingress, r: SoleRoute)
    ensures SoleRouteOf(ing) == Some(r) <==> r.namespace == ing.key.namespace && OneRoute(ing, r.host, r.path)
  {
  }

  /** Alone together on one namespace, host and path, one marked as canary at weight w, the other not. */
  ghost predicate PairAt(all: set<Ingress>, p: Ingress, k: Ingress, w: int) {
    && p in all && k in all && p != k && Unmarked(p) && MarkedAt(k, w) && p.key.namespace == k.key.namespace
    && exists host, path :: OneRoute(p, host, path) && OneRoute(k, host, path) && AloneOn(all, p, k, host, path)
  }

  ghost predicate AloneOn(all: set<Ingress>, p: Ingress, k: Ingress, host: string, path: string) {
    forall x | x in all && x.key.namespace == p.key.namespace && OneRoute(x, host, path) :: x == p || x == k
  }

  lemma PairAtExactly(all: set<Ingress>, p: Ingress, k: Ingress, w: int)
    ensures PairAt(all, p, k, w) <==> Paired(all, p, k) && CanaryWeight(k) == Some(w)
  {
    MarksExactly(p, w);
    MarksExactly(k, w);
    if SoleRouteOf(p).Some? {
      var r := SoleRouteOf(p).value;
      forall x ensures SoleRouteOf(x) == Some(r) <==> x.key.namespace == r.namespace && OneRoute(x, r.host, r.path) {
        SoleRouteExactly(x, r);
      }
      if Paired(all, p, k) { assert AloneOn(all, p, k, r.host, r.path); }
    }
    if p.key.namespace == k.key.namespace {
      if host, path :| OneRoute(p, host, path) && OneRoute(k, host, path) && AloneOn(all, p, k, host, path) {
        SoleRouteExactly(p, SoleRoute(p.key.namespace, host, path));
      }
    }
  }

  /** What the two maps of a pairing record: for each such pair the canary's key, and under the primary's
      key the canary with its weight; and nothing else. */
  lemma PairingExactly(all: set<Ingress>, names: set<ObjectKey>, forPrimary: map<ObjectKey, Pairing>)
    requires IsPairing(all, names, forPrimary)
    ensures forall p, k, w | PairAt(all, p, k, w) ::
              k.key in names && p.key in forPrimary && forPrimary[p.key] == Pairing(k, w)
    ensures forall key | key in names :: exists p, k, w :: PairAt(all, p, k, w) && k.key == key
    ensures forall key | key in forPrimary :: exists p, k, w :: PairAt(all, p, k, w) && p.key == key
  {
    forall p, k, w | PairAt(all, p, k, w)
      ensures k.key in names && p.key in forPrimary && forPrimary[p.key] == Pairing(k, w)
    {
      PairAtExactly(all, p, k, w);
      assert (p, k) in PairsOf(all);
    }
    forall x | x in PairsOf(all)
      ensures PairAt(all, x.0, x.1, CanaryWeight(x.1).value)
    {
      PairAtExactly(all, x.0, x.1, CanaryWeight(x.1).value);
    }
  }

  /** An Ingress marked with the decimal text of a weight is marked at that weight. */
  lemma DecimalMarks(ing: Ingress, w: nat)
    requires w <= 100
    requires "nginx.ingress.kubernetes.io/canary" in ing.annotations
    requires ing.annotations["nginx.ingress.kubernetes.io/canary"] == "true"
    requires "nginx.ingress.kubernetes.io/canary-weight" in ing.annotations
    requires ing.annotations["nginx.ingress.kubernetes.io/canary-weight"] == Decimal(w)
    ensures MarkedAt(ing, w)
  {
    DecimalReads(w);
  }

  /** What the merged rule sends where: w to the canary's backend, the rest to the primary's, and all else
      as in the primary's rule. */
  predicate SendsWeights(rules: seq<HTTPRule>, rule: HTTPRule, stable: BackendRef, trial: BackendRef, w: int) {
    && |rules| == 1 && |rules[0].backendRefs| == 2
    && rules[0] == rule.(backendRefs := rules[0].backendRefs)
    && rules[0].backendRefs[0] == BackendRef(stable.group, stable.kind, stable.name, stable.port, Some(100 - w))
    && rules[0].backendRefs[1] == BackendRef(trial.group, trial.kind, trial.name, trial.port, Some(w))
  }

  lemma SplitSends(rules: seq<HTTPRule>, route: HTTPRoute, stable: BackendRef, trial: BackendRef, w: int)
    requires IsSplit(rules, route, stable, trial, w)
    ensures SendsWeights(rules, route.rules[0], stable, trial, w)
  {
  }

  /** So a pair that converts is split by the number its annotation spells. */
  lemma SplitByTheText(all: set<Ingress>, p: Ingress, k: Ingress, w: int, e: Engine, opts: Options,
                       mine: HTTPRoute, theirs: HTTPRoute)
    returns (stable: BackendRef, trial: BackendRef)
    requires PairAt(all, p, k, w)
    requires Convert(e, p, opts).route == Some(mine) && Convert(e, k, opts).route == Some(theirs)
    ensures |mine.rules| == 1 && SendsWeights(MergedRules(mine.rules, theirs.rules, w), mine.rules[0], stable, trial, w)
    ensures |PathsOf(p.rules)| == 1 && BackendBecomes(p, PathsOf(p.rules)[0], opts.resolver, stable)
    ensures |PathsOf(k.rules)| == 1 && BackendBecomes(k, PathsOf(k.rules)[0], opts.resolver, trial)
  {
    PairAtExactly(all, p, k, w);
    SplitEndToEnd(all, p, k, e, opts, mine, theirs);
    stable, trial := SoleBackend(p, opts).backend, SoleBackend(k, opts).backend;
    SplitSends(MergedRules(mine.rules, theirs.rules, w), mine, stable, trial, w);
    SolePath(p);
    SolePath(k);
    BackendCompiles(p, SolePathOf(p), opts.resolver);
    BackendCompiles(k, SolePathOf(k), opts.resolver);
  }
}
