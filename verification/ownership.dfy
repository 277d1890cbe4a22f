/** Gateway ownership at admission time (webhook.go), over histories of creates, updates and
    deletes. */
module Ownership {
  import opened Text
  import opened Kube
  import opened Annotations
  import opened Conversion

  /** The fields of a TransferGW that decide which Gateway it owns. */
  datatype Claim = Claim(key: ObjectKey, generateGateway: bool, targetNamespace: string, gatewayName: string)

  /** The Gateway a migration attaches to, with the defaults the reconciler applies as well. */
  function DesiredGateway(c: Claim): ObjectKey {
    ObjectKey(if c.targetNamespace == "" then c.key.namespace else c.targetNamespace,
              if c.gatewayName == "" then c.key.name + "-gateway" else c.gatewayName)
  }

  /** A namespace or a name left empty is the migration's own namespace, or its name with "-gateway". */
  predicate Names(c: Claim, gateway: ObjectKey) {
    && (if c.targetNamespace != ""
        then gateway.namespace == c.targetNamespace else gateway.namespace == c.key.namespace)
    && (if c.gatewayName != "" then gateway.name == c.gatewayName else gateway.name == c.key.name + "-gateway")
  }

  lemma DesiredIsNamed(c: Claim, gateway: ObjectKey)
    ensures DesiredGateway(c) == gateway <==> Names(c, gateway)
  {
  }

  /** Routes compiled for a migration attach to the Gateway it names: an absent parent namespace is the
      route's own. */
  lemma RoutesAttachToIt(c: Claim, gateway: ObjectKey, e: Engine, ing: Ingress, opts: Options, parent: ParentRef)
    requires Names(c, gateway) && opts.gatewayName == gateway.name && opts.gatewayNamespace == gateway.namespace
    requires c.key.namespace != ""
    requires Convert(e, ing, opts).route.Some? ==> parent == Convert(e, ing, opts).route.value.parent
    requires Convert(e, ing, opts).grpcRoute.Some? ==> parent == Convert(e, ing, opts).grpcRoute.value.parent
    requires Convert(e, ing, opts).route.Some? || Convert(e, ing, opts).grpcRoute.Some?
    ensures ObjectKey(if parent.namespace.Some? then parent.namespace.value else ing.key.namespace,
                      parent.name) == gateway
  {
    RouteAttaches(e, ing, opts, parent);
  }

  type Cluster = map<ObjectKey, Claim>

  /** Every stored claim is filed under its own key. */
  ghost predicate Filed(cl: Cluster) { forall k | k in cl :: cl[k].key == k }

  predicate Clash(a: Claim, b: Claim) {
    a.key != b.key && a.generateGateway && b.generateGateway && DesiredGateway(a) == DesiredGateway(b)
  }

  /** `checkGatewayNotAlreadyOwned`: the scan over the listed claims. */
  method CheckNotOwned(listed: seq<Claim>, c: Claim) returns (ok: bool)
    ensures ok <==> forall other | other in listed :: !Clash(other, c)
  {
    if !c.generateGateway {
      return true;
    }
    for i := 0 to |listed|
      invariant forall j | 0 <= j < i :: !Clash(listed[j], c)
    {
      var other := listed[i];
      if other.key == c.key {
        continue;
      }
      if !other.generateGateway {
        continue;
      }
      if DesiredGateway(other) == DesiredGateway(c) {
        assert other in listed;
        return false;
      }
    }
    return true;
  }

  predicate NotOwned(cl: Cluster, c: Claim) {
    forall k | k in cl :: !Clash(cl[k], c)
  }

  /** `othersPass`: the GatewayClass exists and the selector evaluates; `listed`: the API server listed
      the existing migrations. */
  datatype Step =
    | Create(claim: Claim, othersPass: bool, listed: bool)
    | Update(claim: Claim, othersPass: bool, listed: bool)
    | Delete(key: ObjectKey)

  predicate Admitted(cl: Cluster, s: Step) {
    match s
    case Create(c, othersPass, listed) =>
      c.key !in cl && othersPass && (c.generateGateway ==> listed && NotOwned(cl, c))
    case Update(c, othersPass, listed) =>
      c.key in cl && othersPass && (c.generateGateway ==> listed && NotOwned(cl, c))
    case Delete(k) => k in cl
  }

  function Apply(cl: Cluster, s: Step): Cluster {
    if !Admitted(cl, s) then cl
    else
      match s
      case Create(c, _, _) => cl[c.key := c]
      case Update(c, _, _) => cl[c.key := c]
      case Delete(k) => cl - {k}
  }

  function History(steps: seq<Step>): Cluster {
    if steps == [] then map[] else Apply(History(steps[..|steps| - 1]), steps[|steps| - 1])
  }

  ghost predicate OwnersDistinct(cl: Cluster) {
    forall j, k | j in cl && k in cl :: !Clash(cl[j], cl[k])
  }

  /** Two different migrations that both generate a Gateway name the same one. */
  ghost predicate BothName(a: Claim, b: Claim, gateway: ObjectKey) {
    a.key != b.key && a.generateGateway && b.generateGateway && Names(a, gateway) && Names(b, gateway)
  }

  lemma ClashExactlyWhen(a: Claim, b: Claim)
    ensures Clash(a, b) <==> exists gateway :: BothName(a, b, gateway)
  {
    forall gateway
      ensures DesiredGateway(a) == gateway <==> Names(a, gateway)
      ensures DesiredGateway(b) == gateway <==> Names(b, gateway)
    {
      DesiredIsNamed(a, gateway);
      DesiredIsNamed(b, gateway);
    }
    if Clash(a, b) { assert BothName(a, b, DesiredGateway(a)); }
  }

  /** Over every history of creates, updates and deletes, no Gateway is named by two migrations that
      generate it. */
  lemma NoGatewayHasTwoOwners(steps: seq<Step>, j: ObjectKey, k: ObjectKey, gateway: ObjectKey)
    requires j in History(steps) && k in History(steps)
    ensures !BothName(History(steps)[j], History(steps)[k], gateway)
  {
    SerialAdmissionKeepsOwnersDistinct(steps);
    ClashExactlyWhen(History(steps)[j], History(steps)[k]);
  }

  /** A create or update is turned away exactly when its object must not or must exist, another check
      fails, or it generates a Gateway while the listing fails or another migration generates the same. */
  lemma AdmittedExactlyWhen(cl: Cluster, s: Step)
    requires !s.Delete?
    ensures Admitted(cl, s)
            <==> && (s.Create? <==> s.claim.key !in cl) && s.othersPass
                 && (s.claim.generateGateway ==>
                       s.listed && forall k, gateway | k in cl :: !BothName(cl[k], s.claim, gateway))
  {
    forall k | k in cl
      ensures Clash(cl[k], s.claim) <==> exists gateway :: BothName(cl[k], s.claim, gateway)
    {
      ClashExactlyWhen(cl[k], s.claim);
    }
  }

  /** Under serial admission no two migrations that generate a Gateway ever name the same one. */
  lemma {:induction false} SerialAdmissionKeepsOwnersDistinct(steps: seq<Step>)
    ensures Filed(History(steps)) && OwnersDistinct(History(steps))
  {
    if steps != [] {
      SerialAdmissionKeepsOwnersDistinct(steps[..|steps| - 1]);
    }
  }

  /** What an admitted create or update writes. */
  function Put(cl: Cluster, s: Step): Cluster
    requires !s.Delete?
  {
    cl[s.claim.key := s.claim]
  }

  /** Persisting two creates or updates of different objects that were validated against the same
      cluster keeps owners distinct exactly when the two do not clash with each other, which neither
      validation looked at. */
  lemma ConcurrentAdmission(cl: Cluster, a: Step, b: Step)
    requires Filed(cl) && OwnersDistinct(cl)
    requires !a.Delete? && !b.Delete? && a.claim.key != b.claim.key
    requires Admitted(cl, a) && Admitted(cl, b)
    ensures OwnersDistinct(Put(Put(cl, a), b)) <==> !Clash(a.claim, b.claim)
  {
    var both := Put(Put(cl, a), b);
    assert both[a.claim.key] == a.claim && both[b.claim.key] == b.claim;
    assert NotOwned(cl, a.claim) && NotOwned(cl, b.claim);
    forall j, k | j in both && k in both && !Clash(a.claim, b.claim)
      ensures !Clash(both[j], both[k])
    {
    }
  }
}
