/** The rollout schedule (`canaryPercentage`): int64 durations divided, narrowed to int32 and
    multiplied in int32. */
module Schedule {
  import opened Text

  const HOUR := 3_600_000_000_000

  /** A duration or a difference of times in int64 nanoseconds. */
  type Nanos = d: int | -0x8000_0000_0000_0000 <= d < 0x8000_0000_0000_0000

  /** Go's integer division truncates towards zero. */
  function Quotient(a: int, b: int): int
    requires b > 0
  {
    if a >= 0 then a / b else -(-a / b)
  }

  function Clamp(x: int): int { if x > 100 then 100 else if x < 0 then 0 else x }

  /** spec.rollout.canary; `stepDuration` is absent when empty or unparseable. The two percentages
      are within the bounds the CRD enforces, zero meaning unset. */
  datatype CanarySpec = CanarySpec(initial: int, increment: int, stepDuration: Option<Nanos>) {
    predicate Valid() { 0 <= initial <= 100 && 0 <= increment <= 100 }
    function Initial(): int { if initial > 0 then initial else 25 }
    function Increment(): int { if increment > 0 then increment else 25 }
    function Step(): (d: Nanos)
      ensures d > 0
    {
      if stepDuration.Some? && stepDuration.value > 0 then stepDuration.value else HOUR
    }
  }

  const DEFAULTS := CanarySpec(0, 0, None)

  /** The percentage the code computes. */
  function CanaryPercentage(spec: Option<CanarySpec>, elapsed: Nanos): int {
    var c := if spec.Some? then spec.value else DEFAULTS;
    var steps := Wrap32(Quotient(elapsed, c.Step()));
    Clamp(Wrap32(c.Initial() + Wrap32(steps * c.Increment())))
  }

  /** The unbounded value the schedule is meant to follow. */
  function Planned(c: CanarySpec, elapsed: int): int {
    c.Initial() + Quotient(elapsed, c.Step()) * c.Increment()
  }

  lemma WrapCongruent(x: int) returns (k: int)
    ensures Wrap32(x) == x - k * 0x1_0000_0000
  {
    k := (x + 0x8000_0000) / 0x1_0000_0000;
  }

  lemma WrapUnique(x: int, y: int, k: int)
    requires y == x - k * 0x1_0000_0000
    ensures Wrap32(x) == Wrap32(y)
  {
    var a := WrapCongruent(x);
    var b := WrapCongruent(y);
    assert Wrap32(x) - Wrap32(y) == (k + b - a) * 0x1_0000_0000;
    var m := k + b - a;
    assert -1 < m < 1;
  }

  /** Overflowing at every operation is the same as overflowing once at the end. */
  lemma OverflowOnce(spec: Option<CanarySpec>, elapsed: Nanos)
    ensures var c := if spec.Some? then spec.value else DEFAULTS;
            CanaryPercentage(spec, elapsed) == Clamp(Wrap32(Planned(c, elapsed)))
  {
    var c := if spec.Some? then spec.value else DEFAULTS;
    var q := Quotient(elapsed, c.Step());
    var inc := c.Increment();
    var a := WrapCongruent(q);
    var b := WrapCongruent(Wrap32(q) * inc);
    WrapTimes(q, a, inc);
    WrapUnique(Planned(c, elapsed), c.Initial() + Wrap32(Wrap32(q) * inc), a * inc + b);
  }

  lemma WrapTimes(q: int, a: int, inc: int)
    ensures (q - a * 0x1_0000_0000) * inc == q * inc - (a * inc) * 0x1_0000_0000
  {
  }

  lemma ClampOfWrap(x: int)
    ensures Clamp(Wrap32(x)) == Clamp(x) <==>
              || Fits32(x)
              || (x > MAX32 && 100 <= x % 0x1_0000_0000 <= MAX32)
              || (x < MIN32 && (x % 0x1_0000_0000 == 0 || x % 0x1_0000_0000 > MAX32))
  {
    var k := WrapCongruent(x);
    var m := x % 0x1_0000_0000;
    assert Wrap32(x) == if m <= MAX32 then m else m - 0x1_0000_0000 by {
      WrapUnique(x, m, x / 0x1_0000_0000);
      WrapUnique(x, m - 0x1_0000_0000, x / 0x1_0000_0000 + 1);
    }
  }

  /** The code follows the ideal schedule, cut off to 0..100, exactly when the planned value fits
      int32 or wraps onto a value on the same side of the cut-off. */
  lemma FollowsPlanExactlyWhen(spec: Option<CanarySpec>, elapsed: Nanos)
    ensures var c := if spec.Some? then spec.value else DEFAULTS;
            var x := Planned(c, elapsed);
            CanaryPercentage(spec, elapsed) == Clamp(x) <==>
              || Fits32(x)
              || (x > MAX32 && 100 <= x % 0x1_0000_0000 <= MAX32)
              || (x < MIN32 && (x % 0x1_0000_0000 == 0 || x % 0x1_0000_0000 > MAX32))
    ensures 0 <= CanaryPercentage(spec, elapsed) <= 100
  {
    OverflowOnce(spec, elapsed);
    ClampOfWrap(Planned(if spec.Some? then spec.value else DEFAULTS, elapsed));
  }

  /** The schedule as documented: the initial percentage, and an increment for each whole step since; 25,
      25 and one hour where the spec says nothing. */
  ghost predicate Documented(spec: Option<CanarySpec>, elapsed: int, percentage: int) {
    var initial := if spec.Some? && spec.value.initial > 0 then spec.value.initial else 25;
    var increment := if spec.Some? && spec.value.increment > 0 then spec.value.increment else 25;
    var step := if spec.Some? && spec.value.stepDuration.Some? && spec.value.stepDuration.value > 0
                then spec.value.stepDuration.value else 3_600_000_000_000;
    Grown(initial, increment, step, elapsed, percentage)
  }

  ghost predicate Grown(initial: int, increment: int, step: int, elapsed: int, percentage: int) {
    exists steps :: WholeSteps(steps, step, elapsed) && percentage == initial + steps * increment
  }

  /** The steps completed since, or, before the start, still to come. */
  predicate WholeSteps(steps: int, step: int, elapsed: int) {
    if elapsed >= 0 then steps >= 0 && steps * step <= elapsed < (steps + 1) * step
    else steps <= 0 && (steps - 1) * step < elapsed <= steps * step
  }

  lemma WholeStepsUnique(steps: int, step: int, elapsed: int)
    requires step > 0
    ensures WholeSteps(steps, step, elapsed) <==> steps == Quotient(elapsed, step)
  {
    if elapsed >= 0 {
      DivBounds(elapsed, step);
      if steps >= 0 { StepsBetween(elapsed, step, steps); }
    } else {
      DivBounds(-elapsed, step);
      if steps <= 0 { StepsBetween(-elapsed, step, -steps); }
      assert (steps - 1) * step == -((-steps + 1) * step) && steps * step == -(-steps * step);
    }
  }

  lemma StepsBetween(a: int, step: int, n: nat)
    requires step > 0 && a >= 0
    ensures n * step <= a < (n + 1) * step <==> n == a / step
  {
    DivReaches(a, step, n);
    DivReaches(a, step, n + 1);
  }

  lemma GrownExactly(initial: int, increment: int, step: int, elapsed: int, percentage: int)
    requires step > 0
    ensures Grown(initial, increment, step, elapsed, percentage)
            <==> percentage == initial + Quotient(elapsed, step) * increment
  {
    WholeStepsUnique(Quotient(elapsed, step), step, elapsed);
    if steps :| WholeSteps(steps, step, elapsed) && percentage == initial + steps * increment {
      WholeStepsUnique(steps, step, elapsed);
    }
  }

  lemma PlannedIsDocumented(spec: Option<CanarySpec>, elapsed: int, percentage: int)
    ensures Documented(spec, elapsed, percentage)
            <==> percentage == Planned(if spec.Some? then spec.value else DEFAULTS, elapsed)
  {
    var c := if spec.Some? then spec.value else DEFAULTS;
    GrownExactly(c.Initial(), c.Increment(), c.Step(), elapsed, percentage);
  }

  /** The percentage the code computes is the documented one cut off to 0..100, whenever that fits. */
  lemma FollowsTheDocuments(spec: Option<CanarySpec>, elapsed: Nanos, percentage: int)
    requires Documented(spec, elapsed, percentage) && -0x8000_0000 <= percentage < 0x8000_0000
    ensures CanaryPercentage(spec, elapsed) == if percentage > 100 then 100 else if percentage < 0
            then 0 else percentage
  {
    PlannedIsDocumented(spec, elapsed, percentage);
    FollowsPlanExactlyWhen(spec, elapsed);
  }

  lemma TimesMonotone(x: int, y: int, k: int)
    requires x <= y && k >= 0
    ensures x * k <= y * k
  {
  }

  lemma DivBounds(a: int, step: int)
    requires step > 0 && a >= 0
    ensures (a / step) * step <= a < (a / step + 1) * step
    ensures a / step >= 0
  {
  }

  /** `n` whole steps fit into `a` exactly when the quotient is at least `n`. */
  lemma DivReaches(a: int, step: int, n: int)
    requires step > 0 && a >= 0
    ensures a / step >= n <==> a >= n * step
  {
    DivBounds(a, step);
    if a / step >= n {
      TimesMonotone(n, a / step, step);
    } else {
      TimesMonotone(a / step + 1, n, step);
    }
  }

  lemma QuotientMonotone(a: int, b: int, step: int)
    requires step > 0 && a <= b
    ensures Quotient(a, step) <= Quotient(b, step)
  {
    if 0 <= a { DivMonotone(a, b, step); }
    else if b < 0 { DivMonotone(-b, -a, step); }
    else { DivMonotone(0, -a, step); DivMonotone(0, b, step); }
  }

  lemma DivMonotone(a: int, b: int, step: int)
    requires step > 0 && 0 <= a <= b
    ensures a / step <= b / step
  {
    DivReaches(a, step, a / step);
    DivReaches(b, step, a / step);
  }

  /** With steps of at least 430 seconds nothing overflows, whatever the clock says. */
  lemma LongStepsFit(c: CanarySpec, elapsed: Nanos)
    requires c.Valid() && c.Step() >= 430_000_000_000
    ensures Fits32(Quotient(elapsed, c.Step())) && Fits32(Planned(c, elapsed))
  {
    var magnitude: int := if elapsed >= 0 then elapsed else 0 - elapsed;
    DivReaches(magnitude, c.Step(), 21_449_703);
    TimesMonotone(430_000_000_000, c.Step(), 21_449_703);
    DivBounds(magnitude, c.Step());
    ProductFits(c.Initial(), Quotient(elapsed, c.Step()), c.Increment());
  }

  lemma ProductFits(initial: int, q: int, inc: int)
    requires -21_449_702 <= q <= 21_449_702 && 0 <= inc <= 100 && 0 <= initial <= 100
    ensures Fits32(initial + q * inc)
  {
    TimesMonotone(q, 21_449_702, inc);
    TimesMonotone(-21_449_702, q, inc);
  }

  lemma PlannedMonotone(c: CanarySpec, earlier: int, later: int)
    requires c.Valid() && earlier <= later
    ensures Planned(c, earlier) <= Planned(c, later)
  {
    QuotientMonotone(earlier, later, c.Step());
    TimesMonotone(Quotient(earlier, c.Step()), Quotient(later, c.Step()), c.Increment());
  }

  /** While the planned values fit, the percentage never decreases as time passes. */
  lemma ScheduleMonotone(spec: Option<CanarySpec>, earlier: Nanos, later: Nanos)
    requires spec.Some? ==> spec.value.Valid()
    requires earlier <= later
    requires var c := if spec.Some? then spec.value else DEFAULTS;
             Fits32(Planned(c, earlier)) && Fits32(Planned(c, later))
    ensures CanaryPercentage(spec, earlier) <= CanaryPercentage(spec, later)
  {
    FollowsPlanExactlyWhen(spec, earlier);
    FollowsPlanExactlyWhen(spec, later);
    PlannedMonotone(if spec.Some? then spec.value else DEFAULTS, earlier, later);
  }

  /** The share never falls between two moments up to `end`. */
  ghost predicate NeverFalls(spec: Option<CanarySpec>, end: Nanos) {
    forall a: Nanos, b: Nanos | 0 <= a <= b <= end :: CanaryPercentage(spec, a) <= CanaryPercentage(spec, b)
  }

  /** The first step past MAX32 overshoots it by at most one increment, so it wraps below zero, while
      the step before it is cut off at 100. */
  lemma FallsAtOverflow(spec: Option<CanarySpec>, end: Nanos) returns (a: Nanos, b: Nanos)
    requires spec.Some? ==> spec.value.Valid()
    requires end >= 0 && Planned(if spec.Some? then spec.value else DEFAULTS, end) > MAX32
    ensures 0 <= a < b <= end && CanaryPercentage(spec, a) == 100 && CanaryPercentage(spec, b) == 0
  {
    var c := if spec.Some? then spec.value else DEFAULTS;
    var q := (MAX32 - c.Initial()) / c.Increment() + 1;
    DivBounds(MAX32 - c.Initial(), c.Increment());
    if end / c.Step() < q {
      TimesMonotone(end / c.Step(), q - 1, c.Increment());
    }
    DivReaches(end, c.Step(), q);
    TimesMonotone(q - 1, q, c.Step());
    TimesMonotone(0, q - 1, c.Step());
    a, b := (q - 1) * c.Step(), q * c.Step();
    ExactQuotient(q - 1, c.Step());
    ExactQuotient(q, c.Step());
    assert Planned(c, b) == Planned(c, a) + c.Increment() by { TimesNext(q, c.Increment()); }
    FollowsPlanExactlyWhen(spec, a);
    OverflowOnce(spec, b);
    WrapUnique(Planned(c, b), Planned(c, b) - 0x1_0000_0000, 1);
  }

  lemma TimesNext(q: int, k: int)
    ensures q * k == (q - 1) * k + k
  {
  }

  lemma ExactQuotient(q: nat, step: int)
    requires step > 0
    ensures Quotient(q * step, step) == q
  {
    TimesMonotone(0, q, step);
    DivReaches(q * step, step, q);
    DivReaches(q * step, step, q + 1);
    TimesNext(q + 1, step);
  }

  /** The share never falls up to a moment exactly when the value planned for that moment fits. */
  lemma NeverFallsExactlyWhen(spec: Option<CanarySpec>, end: Nanos)
    requires spec.Some? ==> spec.value.Valid()
    requires end >= 0
    ensures NeverFalls(spec, end) <==> Fits32(Planned(if spec.Some? then spec.value else DEFAULTS, end))
  {
    var c := if spec.Some? then spec.value else DEFAULTS;
    PlannedAtLeastInitial(c, end);
    if Fits32(Planned(c, end)) {
      forall a: Nanos, b: Nanos | 0 <= a <= b <= end
        ensures CanaryPercentage(spec, a) <= CanaryPercentage(spec, b)
      {
        PlannedAtLeastInitial(c, a);
        PlannedMonotone(c, a, b);
        PlannedMonotone(c, b, end);
        ScheduleMonotone(spec, a, b);
      }
    } else {
      var a, b := FallsAtOverflow(spec, end);
    }
  }

  lemma PlannedAtLeastInitial(c: CanarySpec, elapsed: int)
    requires c.Valid() && elapsed >= 0
    ensures Planned(c, elapsed) >= c.Initial()
  {
    DivBounds(elapsed, c.Step());
    TimesMonotone(0, elapsed / c.Step(), c.Increment());
  }

  /** The schedule reaches 100 once ceil((100 - initial) / increment) steps have passed, not before,
      while the planned value fits. */
  lemma ReachesFullExactlyAfter(spec: Option<CanarySpec>, elapsed: Nanos, needed: nat)
    requires spec.Some? ==> spec.value.Valid()
    requires var c := if spec.Some? then spec.value else DEFAULTS;
             && Fits32(Planned(c, elapsed))
             && needed * c.Increment() >= 100 - c.Initial()
             && (needed == 0 || (needed - 1) * c.Increment() < 100 - c.Initial())
    ensures var c := if spec.Some? then spec.value else DEFAULTS;
            CanaryPercentage(spec, elapsed) == 100
            <==> if needed > 0 then elapsed >= needed * c.Step() else elapsed > -c.Step()
  {
    var c := if spec.Some? then spec.value else DEFAULTS;
    FollowsPlanExactlyWhen(spec, elapsed);
    var q := Quotient(elapsed, c.Step());
    if q >= needed {
      TimesMonotone(needed, q, c.Increment());
    } else {
      TimesMonotone(q, needed - 1, c.Increment());
    }
    QuotientReaches(elapsed, c.Step(), needed);
  }

  lemma QuotientReaches(elapsed: int, step: int, needed: nat)
    requires step > 0
    ensures Quotient(elapsed, step) >= needed <==> if needed > 0 then elapsed >= needed * step else elapsed > -step
  {
    if elapsed >= 0 {
      DivReaches(elapsed, step, needed);
    } else {
      DivReaches(-elapsed, step, 1);
      TimesMonotone(0, needed, step);
      DivBounds(-elapsed, step);
    }
  }

  /** Short steps do overflow: with the default percentages and one-second steps, the share that
      was 100 falls back to 0 once 85,899,345 seconds (two years and nine months) have passed. */
  lemma ShortStepsFallBack()
    ensures var spec := Some(CanarySpec(25, 25, Some(1_000_000_000)));
            && CanaryPercentage(spec, 85_899_344_000_000_000) == 100
            && CanaryPercentage(spec, 85_899_345_000_000_000) == 0
  {
    var c := CanarySpec(25, 25, Some(1_000_000_000));
    ExactQuotient(85_899_344, 1_000_000_000);
    ExactQuotient(85_899_345, 1_000_000_000);
    assert Planned(c, 85_899_344_000_000_000) == 2_147_483_625;
    assert Planned(c, 85_899_345_000_000_000) == 2_147_483_650;
    OverflowOnce(Some(c), 85_899_344_000_000_000);
    OverflowOnce(Some(c), 85_899_345_000_000_000);
  }
}
