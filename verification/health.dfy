/** Threshold evaluation (health.go), with metrics as real numbers. */
module Health {
  import opened Text

  datatype Metric = Metric(ingress: real, gateway: real)

  /** What could be measured; an absent metric had no data. */
  datatype Comparison = Comparison(
    errorRate: Option<Metric>,
    latencyMs: Option<Metric>,
    connectionResets: Option<Metric>,
    throughput: Option<Metric>)

  datatype Thresholds = Thresholds(
    errorRate: Option<real>,
    latencyMs: int,
    connectionResets: real,
    throughputDelta: Option<real>)

  datatype MetricKind = ErrorRate | Latency | ConnectionResets | Throughput
  datatype Breach = Breach(kind: MetricKind, ingress: real, gateway: real, threshold: real)

  function WorseThan(kind: MetricKind, m: Metric, threshold: real): Option<Breach> {
    if m.gateway <= threshold || m.gateway <= m.ingress then None
    else Some(Breach(kind, m.ingress, m.gateway, threshold))
  }

  function CheckErrorRate(t: Thresholds, c: Comparison): Option<Breach> {
    if t.errorRate.Some? && c.errorRate.Some? then WorseThan(ErrorRate, c.errorRate.value, t.errorRate.value) else None
  }

  function CheckLatency(t: Thresholds, c: Comparison): Option<Breach> {
    if t.latencyMs > 0 && c.latencyMs.Some? then WorseThan(Latency, c.latencyMs.value, t.latencyMs as real) else None
  }

  function CheckResets(t: Thresholds, c: Comparison): Option<Breach> {
    if t.connectionResets > 0.0 && c.connectionResets.Some?
    then WorseThan(ConnectionResets, c.connectionResets.value, t.connectionResets) else None
  }

  /** Throughput is relative: the Gateway has to clear a floor derived from the Ingress. */
  function CheckThroughput(t: Thresholds, c: Comparison): Option<Breach> {
    if t.throughputDelta.Some? && c.throughput.Some? && c.throughput.value.ingress > 0.0 then
      var floor := c.throughput.value.ingress * (1.0 - t.throughputDelta.value);
      if c.throughput.value.gateway < floor
      then Some(Breach(Throughput, c.throughput.value.ingress, c.throughput.value.gateway, floor))
      else None
    else None
  }

  /** The first breached threshold, in the order error rate, latency, resets, throughput. */
  function Evaluate(thresholds: Option<Thresholds>, comparison: Option<Comparison>): Option<Breach> {
    if thresholds.None? || comparison.None? then None
    else
      var t, c := thresholds.value, comparison.value;
      if CheckErrorRate(t, c).Some? then CheckErrorRate(t, c)
      else if CheckLatency(t, c).Some? then CheckLatency(t, c)
      else if CheckResets(t, c).Some? then CheckResets(t, c)
      else CheckThroughput(t, c)
  }

  /** The Gateway path does strictly worse than the Ingress path on this metric. */
  predicate StrictlyWorse(kind: MetricKind, ingress: real, gateway: real) {
    if kind.Throughput? then gateway < ingress else gateway > ingress
  }

  function MetricOf(kind: MetricKind, c: Comparison): Option<Metric> {
    match kind
    case ErrorRate => c.errorRate
    case Latency => c.latencyMs
    case ConnectionResets => c.connectionResets
    case Throughput => c.throughput
  }

  /** The configured limit; a latency or reset limit of zero or less is read as absent. */
  function LimitOf(kind: MetricKind, t: Thresholds): Option<real> {
    match kind
    case ErrorRate => t.errorRate
    case Latency => if t.latencyMs > 0 then Some(t.latencyMs as real) else None
    case ConnectionResets => if t.connectionResets > 0.0 then Some(t.connectionResets) else None
    case Throughput => t.throughputDelta
  }

  /** A metric condemns the Gateway: measured, limited, over the limit and worse than the Ingress; for
      throughput, short of the Ingress by more than the limit's share. */
  predicate Condemns(kind: MetricKind, t: Thresholds, c: Comparison) {
    var m, limit := MetricOf(kind, c), LimitOf(kind, t);
    && m.Some? && limit.Some?
    && if kind.Throughput? then m.value.ingress > 0.0 && m.value.gateway < m.value.ingress * (1.0 - limit.value)
       else m.value.gateway > limit.value && m.value.gateway > m.value.ingress
  }

  function Rank(kind: MetricKind): nat {
    match kind
    case ErrorRate => 0
    case Latency => 1
    case ConnectionResets => 2
    case Throughput => 3
  }

  /** A breach is found exactly when some metric condemns the Gateway, and names the first that does. */
  lemma BreachExactlyWhen(t: Thresholds, c: Comparison)
    ensures Evaluate(Some(t), Some(c)).Some? <==> exists kind :: Condemns(kind, t, c)
    ensures Evaluate(Some(t), Some(c)).Some? ==>
              var b := Evaluate(Some(t), Some(c)).value;
              && Condemns(b.kind, t, c) && Some(Metric(b.ingress, b.gateway)) == MetricOf(b.kind, c)
              && (forall kind | Condemns(kind, t, c) :: Rank(b.kind) <= Rank(kind))
              && b.threshold == if b.kind.Throughput? then b.ingress * (1.0 - LimitOf(b.kind, t).value)
                                else LimitOf(b.kind, t).value
  {
    assert CheckErrorRate(t, c).Some? <==> Condemns(ErrorRate, t, c);
    assert CheckLatency(t, c).Some? <==> Condemns(Latency, t, c);
    assert CheckResets(t, c).Some? <==> Condemns(ConnectionResets, t, c);
    assert CheckThroughput(t, c).Some? <==> Condemns(Throughput, t, c);
  }

  /** The thresholds never condemn a Gateway that does at least as well as the Ingress. */
  ghost predicate NeverCondemnsTheBetter(t: Thresholds) {
    forall c: Comparison :: Evaluate(Some(t), Some(c)).Some? ==>
      var b := Evaluate(Some(t), Some(c)).value; StrictlyWorse(b.kind, b.ingress, b.gateway)
  }

  /** "Over the threshold and worse than the Ingress", as every check is documented to require,
      holds for all measurements exactly when the throughput delta is not negative. */
  lemma ComparesFairlyExactlyWhen(t: Thresholds)
    ensures NeverCondemnsTheBetter(t) <==> !(t.throughputDelta.Some? && t.throughputDelta.value < 0.0)
  {
    if t.throughputDelta.Some? && t.throughputDelta.value < 0.0 {
      var c := Comparison(None, None, None, Some(Metric(1.0, 1.0)));
      assert Evaluate(Some(t), Some(c)) == Some(Breach(Throughput, 1.0, 1.0, 1.0 - t.throughputDelta.value));
    } else {
      forall c: Comparison | Evaluate(Some(t), Some(c)).Some?
        ensures var b := Evaluate(Some(t), Some(c)).value; StrictlyWorse(b.kind, b.ingress, b.gateway)
      {
        if t.throughputDelta.Some? && c.throughput.Some? && c.throughput.value.ingress > 0.0 {
          FloorBelowIngress(c.throughput.value.ingress, t.throughputDelta.value);
        }
      }
    }
  }

  lemma FloorBelowIngress(ingress: real, delta: real)
    requires delta >= 0.0 && ingress > 0.0
    ensures ingress * (1.0 - delta) <= ingress
  {
    assert ingress * delta >= 0.0;
  }
}
