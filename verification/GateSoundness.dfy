/** What the gate guarantees for samples the tables can hold. Scores and costs are stored with six decimal
    places, latencies as integers, and a pass sample is 0 or 1; so differences come in whole steps, and
    rounding the deltas costs nothing. */
module GateSoundness {
  import opened Options
  import opened Rounding
  import opened RunTables
  import opened Gates
  import opened Comparison

  /** The values a metric's column can hold: whole numbers, or whole millionths, between two such. */
  datatype Column = Column(millionths: bool, low: real, high: real) {
    predicate Valid() { Steps(low) && Steps(high) && low < high }

    predicate Holds(x: real) { Steps(x) && low <= x <= high }

    /** A whole number of the column's units. */
    predicate Steps(x: real) { if millionths then OnGrid(x) else Whole(x) }

    /** The largest difference of two values. */
    function Reach(): real { high - low }

    /** The greatest multiple of the unit that is at most x. */
    function Down(x: real): real {
      if millionths then (x * MILLION).Floor as real / MILLION else x.Floor as real
    }

    /** The least multiple of the unit that is at least x. */
    function Up(x: real): real { -Down(-x) }

    function Unit(): real { if millionths then 1.0 / MILLION else 1.0 }
  }

  predicate Whole(x: real) {
    x.Floor as real == x
  }

  function ColumnOf(metric: string): Column {
    if metric == "pass_rate" then Column(false, 0.0, 1.0)
    else if metric == "semantic_similarity" then Column(true, 0.0, 1.0)
    else if metric == "p95_latency_ms" then Column(false, -2147483648.0, 2147483647.0)
    else Column(true, -9999.999999, 9999.999999)
  }

  lemma ColumnsValid(metric: string)
    ensures ColumnOf(metric).Valid()
  {
    assert 9999.999999 * MILLION == 9999999999.0;
  }

  /** Samples by case that the metric's column can hold, or no samples at all. */
  predicate Storable(metric: string, samples: Samples) {
    match samples
    case ByCase(values) => forall c | c in values :: ColumnOf(metric).Holds(values[c])
    case Listed(items) => items == []
  }

  // ---- Steps ----

  /** The least difference the column allows that is at least `bound`, if any is. */
  function LeastStep(column: Column, bound: real): real {
    if column.Up(bound) < -column.Reach() then -column.Reach() else column.Up(bound)
  }

  /** The greatest difference the column allows that is at most `bound`, if any is. */
  function GreatestStep(column: Column, bound: real): real {
    if column.Down(bound) > column.Reach() then column.Reach() else column.Down(bound)
  }

  /** A difference of two values the column holds. */
  predicate Difference(column: Column, d: real) {
    column.Steps(d) && -column.Reach() <= d <= column.Reach()
  }

  lemma FloorIs(x: real, n: int)
    requires n as real <= x < (n + 1) as real
    ensures x.Floor == n
  {
  }

  lemma WholeMinus(x: real, y: real)
    requires Whole(x) && Whole(y)
    ensures Whole(x - y)
  {
    FloorIs(x - y, x.Floor - y.Floor);
  }

  lemma StepsMinus(column: Column, x: real, y: real)
    requires column.Steps(x) && column.Steps(y)
    ensures column.Steps(x - y)
  {
    if column.millionths {
      WholeMinus(x * MILLION, y * MILLION);
      assert (x - y) * MILLION == x * MILLION - y * MILLION;
    } else {
      WholeMinus(x, y);
    }
  }

  lemma StepsNegate(column: Column, x: real)
    requires column.Steps(x)
    ensures column.Steps(-x)
  {
    ZeroSteps(column);
    StepsMinus(column, 0.0, x);
    assert 0.0 - x == -x;
  }

  lemma ZeroSteps(column: Column)
    ensures column.Steps(0.0)
  {
    assert 0.0 * MILLION == 0.0;
    FloorIs(0.0, 0);
  }

  lemma StepsOnGrid(column: Column, d: real)
    requires column.Steps(d)
    ensures OnGrid(d)
  {
    if !column.millionths { FloorIs(d * MILLION, d.Floor * 1000000); }
  }

  lemma DownIsStep(column: Column, x: real)
    ensures column.Steps(column.Down(x)) && column.Down(x) <= x < column.Down(x) + column.Unit()
  {
    if column.millionths {
      var n := (x * MILLION).Floor;
      assert column.Down(x) * MILLION == n as real;
      FloorIs(column.Down(x) * MILLION, n);
    } else {
      FloorIs(column.Down(x), x.Floor);
    }
  }

  lemma DownIsGreatest(column: Column, x: real, d: real)
    requires column.Steps(d) && d <= x
    ensures d <= column.Down(x)
  {
    if column.millionths {
      assert (d * MILLION).Floor <= (x * MILLION).Floor;
    } else {
      assert d.Floor <= x.Floor;
    }
  }

  lemma UpIsStep(column: Column, x: real)
    ensures column.Steps(column.Up(x)) && column.Up(x) >= x
  {
    DownIsStep(column, -x);
    StepsNegate(column, column.Down(-x));
  }

  lemma UpIsLeast(column: Column, x: real, d: real)
    requires column.Steps(d) && d >= x
    ensures d >= column.Up(x)
  {
    StepsNegate(column, d);
    DownIsGreatest(column, -x, -d);
  }

  lemma HeldDifference(column: Column, x: real, y: real)
    requires column.Holds(x) && column.Holds(y)
    ensures Difference(column, x - y)
  {
    StepsMinus(column, x, y);
  }

  lemma ReachIsStep(column: Column)
    requires column.Valid()
    ensures column.Steps(column.Reach()) && column.Steps(-column.Reach())
  {
    StepsMinus(column, column.high, column.low);
    StepsNegate(column, column.Reach());
  }

  /** Every difference at least `bound` is at least the least step, which is at least `bound` itself. */
  lemma LeastStepIsLeast(column: Column, bound: real)
    requires column.Valid()
    ensures LeastStep(column, bound) >= bound && column.Steps(LeastStep(column, bound))
    ensures forall d | Difference(column, d) && d >= bound :: d >= LeastStep(column, bound)
  {
    UpIsStep(column, bound);
    ReachIsStep(column);
    forall d | Difference(column, d) && d >= bound ensures d >= column.Up(bound) { UpIsLeast(column, bound, d); }
  }

  lemma GreatestStepIsGreatest(column: Column, bound: real)
    requires column.Valid()
    ensures GreatestStep(column, bound) <= bound && column.Steps(GreatestStep(column, bound))
    ensures bound >= -column.Reach() ==> GreatestStep(column, bound) >= -column.Reach()
    ensures forall d | Difference(column, d) && d <= bound :: d <= GreatestStep(column, bound)
  {
    DownIsStep(column, bound);
    ReachIsStep(column);
    if bound >= -column.Reach() { DownIsGreatest(column, bound, -column.Reach()); }
    forall d | Difference(column, d) && d <= bound ensures d <= column.Down(bound) { DownIsGreatest(column, bound, d); }
  }

  lemma StepsPlus(column: Column, x: real, y: real)
    requires column.Steps(x) && column.Steps(y)
    ensures column.Steps(x + y)
  {
    StepsNegate(column, y);
    StepsMinus(column, x, -y);
    assert x - -y == x + y;
  }

  lemma UnitIsStep(column: Column)
    ensures column.Steps(column.Unit())
  {
    assert 1.0 / MILLION * MILLION == 1.0;
    FloorIs(1.0, 1);
  }

  /** The greatest step strictly below `bound`. */
  lemma StepBelow(column: Column, bound: real) returns (below: real)
    ensures below < bound && column.Steps(below)
    ensures forall d | Difference(column, d) && d < bound :: d <= below
  {
    UpIsStep(column, bound);
    UnitIsStep(column);
    below := column.Up(bound) - column.Unit();
    StepsMinus(column, column.Up(bound), column.Unit());
    DownIsStep(column, -bound);
    forall d | Difference(column, d) && d < bound ensures d <= below {
      if d > below {
        StepsPlus(column, d, column.Unit());
        NoStepBetween(column, below, d);
      }
    }
  }

  lemma NoStepBetween(column: Column, x: real, y: real)
    requires column.Steps(x) && column.Steps(y) && x < y
    ensures y >= x + column.Unit()
  {
    if column.millionths {
      assert (x * MILLION).Floor < (y * MILLION).Floor;
    } else {
      assert x.Floor < y.Floor;
    }
  }

  // ---- One metric ----

  predicate StorablePair(metric: string, baseline: Samples, candidate: Samples) {
    Storable(metric, baseline) && Storable(metric, candidate)
  }

  lemma ImprovementIsDifference(metric: string, baseline: Samples, candidate: Samples, direction: string, c: CaseId)
    requires StorablePair(metric, baseline, candidate) && c in Shared(baseline, candidate)
    ensures Difference(ColumnOf(metric), Improvement(direction, baseline.values[c], candidate.values[c]))
  {
    HeldDifference(ColumnOf(metric), baseline.values[c], candidate.values[c]);
    HeldDifference(ColumnOf(metric), candidate.values[c], baseline.values[c]);
  }

  lemma AtLeastStep(metric: string, baseline: Samples, candidate: Samples, direction: string, bound: real)
    requires StorablePair(metric, baseline, candidate) && EveryCaseAtLeast(baseline, candidate, direction, bound)
    requires ColumnOf(metric).Valid()
    ensures EveryCaseAtLeast(baseline, candidate, direction, LeastStep(ColumnOf(metric), bound))
  {
    hide LeastStep, Difference, Storable;
    LeastStepIsLeast(ColumnOf(metric), bound);
    forall c | c in Shared(baseline, candidate)
      ensures Improvement(direction, baseline.values[c], candidate.values[c]) >= LeastStep(ColumnOf(metric), bound)
    {
      ImprovementIsDifference(metric, baseline, candidate, direction, c);
    }
  }

  lemma AtMostStep(metric: string, baseline: Samples, candidate: Samples, direction: string, bound: real)
    requires StorablePair(metric, baseline, candidate) && EveryCaseAtMost(baseline, candidate, direction, bound)
    requires ColumnOf(metric).Valid()
    ensures EveryCaseAtMost(baseline, candidate, direction, GreatestStep(ColumnOf(metric), bound))
  {
    hide GreatestStep, Difference, Storable;
    GreatestStepIsGreatest(ColumnOf(metric), bound);
    forall c | c in Shared(baseline, candidate)
      ensures Improvement(direction, baseline.values[c], candidate.values[c]) <= GreatestStep(ColumnOf(metric), bound)
    {
      ImprovementIsDifference(metric, baseline, candidate, direction, c);
    }
  }

  lemma RoundFixesSteps(column: Column, d: real)
    requires column.Steps(d)
    ensures Round6(d) == d
  {
    hide Round6;
    StepsOnGrid(column, d);
    RoundFixesGrid(d);
  }

  lemma UnsharedIsUnpaired(metric: string, baseline: Samples, candidate: Samples)
    requires StorablePair(metric, baseline, candidate) && Shared(baseline, candidate) == {}
    ensures PairedValues(baseline, candidate).0 == []
  {
  }

  /** When no case is worse than `bound` and the least step is within tolerance: a pass on the same cases,
      and no fail on any. */
  lemma MildStoredChanges(metric: string, rule: Rule, baseline: Samples, candidate: Samples,
      generator: Generator, bound: real)
    requires Draws(generator) && StorablePair(metric, baseline, candidate) && rule.Valid()
    requires ColumnOf(metric).Valid() && LeastStep(ColumnOf(metric), bound) >= -rule.tolerance
    requires EveryCaseAtLeast(baseline, candidate, rule.direction, bound)
    ensures MetricVerdict(ReportOf(metric, baseline, candidate, generator).delta, rule) != Fail
    ensures SameCases(baseline, candidate) ==>
      MetricVerdict(ReportOf(metric, baseline, candidate, generator).delta, rule) == Pass
  {
    hide LeastStep, Round6, ReportOf, MetricVerdict, EveryCaseAtLeast, StorablePair, PairedValues;
    var step := LeastStep(ColumnOf(metric), bound);
    LeastStepIsLeast(ColumnOf(metric), bound);
    AtLeastStep(metric, baseline, candidate, rule.direction, bound);
    RoundFixesSteps(ColumnOf(metric), step);
    if Shared(baseline, candidate) == {} {
      UnsharedIsUnpaired(metric, baseline, candidate);
      UnpairedNeverFails(metric, rule, baseline, candidate, generator);
    } else {
      MildChangesNeverFail(metric, rule, baseline, candidate, generator, step);
    }
    if SameCases(baseline, candidate) { MildChangesPass(metric, rule, baseline, candidate, generator, step); }
  }

  lemma SevereStoredChanges(metric: string, rule: Rule, baseline: Samples, candidate: Samples,
      generator: Generator, bound: real)
    requires Draws(generator) && StorablePair(metric, baseline, candidate) && rule.Valid()
    requires ColumnOf(metric).Valid() && GreatestStep(ColumnOf(metric), bound) < -rule.tolerance
    requires Shared(baseline, candidate) != {} && EveryCaseAtMost(baseline, candidate, rule.direction, bound)
    ensures MetricVerdict(ReportOf(metric, baseline, candidate, generator).delta, rule) == Fail
  {
    hide GreatestStep, Round6, ReportOf, MetricVerdict, EveryCaseAtMost, StorablePair;
    var step := GreatestStep(ColumnOf(metric), bound);
    GreatestStepIsGreatest(ColumnOf(metric), bound);
    AtMostStep(metric, baseline, candidate, rule.direction, bound);
    RoundFixesSteps(ColumnOf(metric), step);
    SevereChangesFail(metric, rule, baseline, candidate, generator, step);
  }

  // ---- Exact conditions ----

  /** Two stored values whose difference is `d`. */
  lemma TwoValues(column: Column, d: real) returns (x: real, y: real)
    requires column.Valid() && Difference(column, d)
    ensures column.Holds(x) && column.Holds(y) && y - x == d
  {
    var low := column.low;
    if d >= 0.0 {
      x, y := low, low + d;
      StepsPlus(column, low, d);
    } else {
      x, y := low - d, low;
      StepsMinus(column, low, d);
    }
  }

  /** One case that improved by exactly `d`. */
  lemma SingleCase(metric: string, rule: Rule, d: real) returns (baseline: Samples, candidate: Samples)
    requires rule.Valid() && ColumnOf(metric).Valid()
    requires Difference(ColumnOf(metric), d) && ColumnOf(metric).Steps(d)
    ensures Draws(FirstOnly) && StorablePair(metric, baseline, candidate)
    ensures SameCases(baseline, candidate) && Shared(baseline, candidate) == {0}
    ensures EveryCaseAtLeast(baseline, candidate, rule.direction, d)
    ensures EveryCaseAtMost(baseline, candidate, rule.direction, d)
    ensures MetricVerdict(ReportOf(metric, baseline, candidate, FirstOnly).delta, rule)
      == if d < -rule.tolerance then Fail else Pass
  {
    FirstOnlyDraws();
    var x, y := TwoValues(ColumnOf(metric), d);
    if rule.direction != "higher_better" { x, y := y, x; }
    baseline, candidate := ByCase(map[0 := x]), ByCase(map[0 := y]);
    assert baseline.values.Keys == {0} == candidate.values.Keys;
    assert Shared(baseline, candidate) == {0} && 0 in {0};
    hide *;
    RoundFixesSteps(ColumnOf(metric), d);
    SingleVerdict(metric, rule, baseline, candidate, d);
  }

  lemma SingleVerdict(metric: string, rule: Rule, baseline: Samples, candidate: Samples, d: real)
    requires rule.Valid() && Draws(FirstOnly) && Round6(d) == d
    requires SameCases(baseline, candidate) && Shared(baseline, candidate) != {}
    requires EveryCaseAtLeast(baseline, candidate, rule.direction, d)
    requires EveryCaseAtMost(baseline, candidate, rule.direction, d)
    ensures MetricVerdict(ReportOf(metric, baseline, candidate, FirstOnly).delta, rule)
      == if d < -rule.tolerance then Fail else Pass
  {
    hide *;
    if d < -rule.tolerance {
      SevereChangesFail(metric, rule, baseline, candidate, FirstOnly, d);
    } else {
      MildChangesPass(metric, rule, baseline, candidate, FirstOnly, d);
    }
  }

  ghost predicate AlwaysPasses(metric: string, rule: Rule, bound: real) {
    forall baseline, candidate, generator |
      Draws(generator) && StorablePair(metric, baseline, candidate) && SameCases(baseline, candidate)
      && EveryCaseAtLeast(baseline, candidate, rule.direction, bound) ::
      MetricVerdict(ReportOf(metric, baseline, candidate, generator).delta, rule) == Pass
  }

  ghost predicate NeverFails(metric: string, rule: Rule, bound: real) {
    forall baseline, candidate, generator |
      Draws(generator) && StorablePair(metric, baseline, candidate)
      && EveryCaseAtLeast(baseline, candidate, rule.direction, bound) ::
      MetricVerdict(ReportOf(metric, baseline, candidate, generator).delta, rule) != Fail
  }

  ghost predicate AlwaysFails(metric: string, rule: Rule, bound: real) {
    forall baseline, candidate, generator |
      Draws(generator) && StorablePair(metric, baseline, candidate) && Shared(baseline, candidate) != {}
      && EveryCaseAtMost(baseline, candidate, rule.direction, bound) ::
      MetricVerdict(ReportOf(metric, baseline, candidate, generator).delta, rule) == Fail
  }

  /** "No case worse than `bound`" guarantees a pass on the same cases, and equally that partial runs do
      not fail, exactly when the least step not below the bound is within tolerance. */
  lemma PassIsForcedExactly(metric: string, rule: Rule, bound: real)
    requires rule.Valid()
    ensures ColumnOf(metric).Valid()
    ensures AlwaysPasses(metric, rule, bound) <==> LeastStep(ColumnOf(metric), bound) >= -rule.tolerance
    ensures NeverFails(metric, rule, bound) <==> LeastStep(ColumnOf(metric), bound) >= -rule.tolerance
  {
    hide ReportOf, MetricVerdict, StorablePair, LeastStep, SameCases, ColumnOf;
    ColumnsValid(metric);
    var step := LeastStep(ColumnOf(metric), bound);
    if step >= -rule.tolerance {
      forall baseline, candidate, generator |
        Draws(generator) && StorablePair(metric, baseline, candidate)
        && EveryCaseAtLeast(baseline, candidate, rule.direction, bound)
        ensures MetricVerdict(ReportOf(metric, baseline, candidate, generator).delta, rule) != Fail
        ensures SameCases(baseline, candidate) ==>
          MetricVerdict(ReportOf(metric, baseline, candidate, generator).delta, rule) == Pass
      {
        MildStoredChanges(metric, rule, baseline, candidate, generator, bound);
      }
    } else {
      LeastStepIsLeast(ColumnOf(metric), bound);
      LeastStepReachable(ColumnOf(metric), bound, rule.tolerance);
      var baseline, candidate := SingleCase(metric, rule, step);
      assert EveryCaseAtLeast(baseline, candidate, rule.direction, bound);
      assert MetricVerdict(ReportOf(metric, baseline, candidate, FirstOnly).delta, rule) == Fail;
    }
  }

  lemma LeastStepReachable(column: Column, bound: real, tolerance: real)
    requires column.Valid() && tolerance >= 0.0 && LeastStep(column, bound) < -tolerance
    ensures Difference(column, LeastStep(column, bound))
  {
    LeastStepIsLeast(column, bound);
  }

  /** "Every shared case at least this much worse" guarantees a fail exactly when the greatest step not
      above the bound is beyond tolerance, or no two stored values differ that much. */
  lemma FailIsForcedExactly(metric: string, rule: Rule, bound: real)
    requires rule.Valid()
    ensures ColumnOf(metric).Valid()
    ensures AlwaysFails(metric, rule, bound) <==>
      GreatestStep(ColumnOf(metric), bound) < -rule.tolerance || bound < -ColumnOf(metric).Reach()
  {
    hide ReportOf, MetricVerdict, StorablePair, GreatestStep, SameCases, ColumnOf;
    ColumnsValid(metric);
    var step := GreatestStep(ColumnOf(metric), bound);
    GreatestStepIsGreatest(ColumnOf(metric), bound);
    if step < -rule.tolerance || bound < -ColumnOf(metric).Reach() {
      forall baseline, candidate, generator |
        Draws(generator) && StorablePair(metric, baseline, candidate) && Shared(baseline, candidate) != {}
        && EveryCaseAtMost(baseline, candidate, rule.direction, bound)
        ensures MetricVerdict(ReportOf(metric, baseline, candidate, generator).delta, rule) == Fail
      {
        WithinReach(metric, baseline, candidate, rule.direction, bound);
        SevereStoredChanges(metric, rule, baseline, candidate, generator, bound);
      }
    } else {
      assert step <= ColumnOf(metric).Reach() by { GreatestStepReachable(ColumnOf(metric), bound); }
      var baseline, candidate := SingleCase(metric, rule, step);
      assert EveryCaseAtMost(baseline, candidate, rule.direction, bound);
      assert MetricVerdict(ReportOf(metric, baseline, candidate, FirstOnly).delta, rule) == Pass;
    }
  }

  lemma GreatestStepReachable(column: Column, bound: real)
    requires column.Valid()
    ensures GreatestStep(column, bound) <= column.Reach()
  {
  }

  lemma WithinReach(metric: string, baseline: Samples, candidate: Samples, direction: string, bound: real)
    requires StorablePair(metric, baseline, candidate) && Shared(baseline, candidate) != {}
    requires EveryCaseAtMost(baseline, candidate, direction, bound)
    ensures bound >= -ColumnOf(metric).Reach()
  {
    hide ColumnOf;
    var c :| c in Shared(baseline, candidate);
    ImprovementIsDifference(metric, baseline, candidate, direction, c);
  }

  /** Whatever the tolerance: when no case is worse than it, the metric passes on the same cases and does
      not fail on any; when every shared case is worse than it, the metric fails. */
  lemma ToleranceDecides(metric: string, rule: Rule, baseline: Samples, candidate: Samples, generator: Generator)
    requires Draws(generator) && StorablePair(metric, baseline, candidate) && rule.Valid()
    ensures
      var verdict := MetricVerdict(ReportOf(metric, baseline, candidate, generator).delta, rule);
      && (EveryCaseAtLeast(baseline, candidate, rule.direction, -rule.tolerance) ==>
            verdict != Fail && (SameCases(baseline, candidate) ==> verdict == Pass))
      && (EveryCaseWorse(baseline, candidate, rule) ==> verdict == Fail)
  {
    hide ReportOf, MetricVerdict, StorablePair, LeastStep, SameCases, EveryCaseAtLeast, EveryCaseAtMost, Round6;
    ColumnsValid(metric);
    LeastStepIsLeast(ColumnOf(metric), -rule.tolerance);
    if EveryCaseAtLeast(baseline, candidate, rule.direction, -rule.tolerance) {
      MildStoredChanges(metric, rule, baseline, candidate, generator, -rule.tolerance);
    }
    if EveryCaseWorse(baseline, candidate, rule) {
      var below := StepBelow(ColumnOf(metric), -rule.tolerance);
      RoundFixesSteps(ColumnOf(metric), below);
      WorseIsAtMost(metric, baseline, candidate, rule, below);
      SevereChangesFail(metric, rule, baseline, candidate, generator, below);
    }
  }

  /** There is a shared case, and every one is worse than tolerated. */
  predicate EveryCaseWorse(baseline: Samples, candidate: Samples, rule: Rule) {
    && Shared(baseline, candidate) != {}
    && forall c | c in Shared(baseline, candidate) ::
         Improvement(rule.direction, baseline.values[c], candidate.values[c]) < -rule.tolerance
  }

  lemma WorseIsAtMost(metric: string, baseline: Samples, candidate: Samples, rule: Rule, below: real)
    requires StorablePair(metric, baseline, candidate) && EveryCaseWorse(baseline, candidate, rule)
    requires forall d | Difference(ColumnOf(metric), d) && d < -rule.tolerance :: d <= below
    ensures EveryCaseAtMost(baseline, candidate, rule.direction, below)
  {
    hide Difference, ColumnOf, StorablePair;
    forall c | c in Shared(baseline, candidate)
      ensures Improvement(rule.direction, baseline.values[c], candidate.values[c]) <= below
    {
      ImprovementIsDifference(metric, baseline, candidate, rule.direction, c);
    }
  }

  // ---- The whole gate ----

  /** All samples of both runs could be read from the tables. */
  predicate StorableSamples(baseline: map<string, Samples>, candidate: map<string, Samples>) {
    forall metric | metric in METRICS :: StorablePair(metric, SamplesOf(baseline, metric), SamplesOf(candidate, metric))
  }

  /** No shared case of a judged metric is worse than its tolerance. */
  predicate NothingWorseThanTolerated(baseline: map<string, Samples>, candidate: map<string, Samples>,
      rules: seq<(string, Rule)>)
  {
    forall k | 0 <= k < |rules| ::
      EveryCaseAtLeast(SamplesOf(baseline, rules[k].0), SamplesOf(candidate, rules[k].0),
        rules[k].1.direction, -rules[k].1.tolerance)
  }

  /** Each judged metric has samples on neither side or on the same cases. */
  predicate ComparedFully(baseline: map<string, Samples>, candidate: map<string, Samples>, rules: seq<(string, Rule)>) {
    forall k | 0 <= k < |rules| ::
      Unmeasured(SamplesOf(baseline, rules[k].0), SamplesOf(candidate, rules[k].0))
      || SameCases(SamplesOf(baseline, rules[k].0), SamplesOf(candidate, rules[k].0))
  }

  /** When nothing is worse than tolerated the whole gate passes, for every generator and every tolerance. */
  lemma ToleratedRunsPass(baseline: map<string, Samples>, candidate: map<string, Samples>,
      rules: seq<(string, Rule)>, generator: Generator)
    requires Draws(generator) && Sound(rules) && StorableSamples(baseline, candidate)
    requires NothingWorseThanTolerated(baseline, candidate, rules) && ComparedFully(baseline, candidate, rules)
    ensures VerdictOf(DeltasOf(baseline, candidate, generator), rules) == Pass
    ensures ReasonsOf(DeltasOf(baseline, candidate, generator), rules) == []
  {
    hide ReportOf, MetricVerdict, VerdictOf, ReasonsOf, SameCases, Unmeasured, StorablePair, EveryCaseAtLeast,
         EveryCaseWorse;
    var deltas := DeltasOf(baseline, candidate, generator);
    forall k | 0 <= k < |rules| ensures MetricVerdict(deltas[rules[k].0], rules[k].1) == Pass {
      var b, c := SamplesOf(baseline, rules[k].0), SamplesOf(candidate, rules[k].0);
      if Unmeasured(b, c) { UnmeasuredPasses(rules[k].0, rules[k].1, b, c, generator); }
      ToleranceDecides(rules[k].0, rules[k].1, b, c, generator);
    }
    VerdictIsMaximum(deltas, rules, 0);
    NoReasonsWhenAllPass(deltas, rules);
  }

  /** Partial runs, whose metrics may be measured on different cases or share none, never fail when no
      shared case is worse than tolerated. */
  lemma ToleratedRunsNeverFail(baseline: map<string, Samples>, candidate: map<string, Samples>,
      rules: seq<(string, Rule)>, generator: Generator)
    requires Draws(generator) && Sound(rules) && StorableSamples(baseline, candidate)
    requires NothingWorseThanTolerated(baseline, candidate, rules)
    ensures VerdictOf(DeltasOf(baseline, candidate, generator), rules) != Fail
  {
    hide ReportOf, MetricVerdict, VerdictOf, SameCases, StorablePair, EveryCaseAtLeast, EveryCaseWorse;
    var deltas := DeltasOf(baseline, candidate, generator);
    forall k | 0 <= k < |rules| ensures MetricVerdict(deltas[rules[k].0], rules[k].1).Severity() <= 1 {
      ToleranceDecides(rules[k].0, rules[k].1, SamplesOf(baseline, rules[k].0), SamplesOf(candidate, rules[k].0),
        generator);
    }
    VerdictIsMaximum(deltas, rules, 1);
  }

  /** When every shared case of one judged metric is worse than tolerated the whole gate fails, whatever
      the other metrics did. */
  lemma OneBadMetricFails(baseline: map<string, Samples>, candidate: map<string, Samples>,
      rules: seq<(string, Rule)>, generator: Generator, k: nat)
    requires Draws(generator) && Sound(rules) && StorableSamples(baseline, candidate) && k < |rules|
    requires EveryCaseWorse(SamplesOf(baseline, rules[k].0), SamplesOf(candidate, rules[k].0), rules[k].1)
    ensures VerdictOf(DeltasOf(baseline, candidate, generator), rules) == Fail
  {
    hide ReportOf, MetricVerdict, VerdictOf, SameCases, StorablePair, EveryCaseAtLeast, EveryCaseWorse;
    var deltas := DeltasOf(baseline, candidate, generator);
    ToleranceDecides(rules[k].0, rules[k].1, SamplesOf(baseline, rules[k].0), SamplesOf(candidate, rules[k].0),
      generator);
    assert MetricVerdict(deltas[rules[k].0], rules[k].1) == Fail;
    VerdictIsMaximum(deltas, rules, 1);
  }
}
