/** The metric report of two runs, and what the regression gate concludes from it. */
module Comparison {
  import opened Options
  import opened Sequences
  import opened Statistics
  import opened Rounding
  import opened Gates
  import opened CaseOrder
  import opened RunTables

  /** Metric samples keyed by case, or a bare list. */
  datatype Samples = ByCase(values: map<CaseId, real>) | Listed(items: seq<real>)

  datatype MetricReport = MetricReport(
    baselinePoint: real, baselineLower: real, baselineUpper: real,
    candidatePoint: real, candidateLower: real, candidateUpper: real,
    delta: Deltas,
    baselineCount: nat, candidateCount: nat, pairedCount: nat)

  /** What the seeded generator draws for a sample of each size. */
  type Generator = nat -> seq<seq<nat>>

  ghost predicate Draws(generator: Generator) {
    forall count: nat :: DrawsFor(generator(count), count)
  }

  function StatisticOf(metric: string): seq<real> -> real {
    if metric == "p95_latency_ms" then PercentileAt(0.95) else Average
  }

  lemma StatisticIsLocation(metric: string)
    ensures Location(StatisticOf(metric))
  {
    AverageIsLocation();
    PercentileIsLocation(0.95);
  }

  function SampleValues(samples: Samples): seq<real> {
    match samples
    case ByCase(values) => Lookup(values, Ascending(values.Keys))
    case Listed(items) => items
  }

  function PairedValues(baseline: Samples, candidate: Samples): (r: (seq<real>, seq<real>))
    ensures |r.0| == |r.1|
  {
    if baseline.ByCase? && candidate.ByCase? then
      var shared := Ascending(baseline.values.Keys * candidate.values.Keys);
      assert forall k | 0 <= k < |shared| :: shared[k] in baseline.values.Keys * candidate.values.Keys;
      (Lookup(baseline.values, shared), Lookup(candidate.values, shared))
    else
      var b, c := SampleValues(baseline), SampleValues(candidate);
      (b[..Paired(b, c)], c[..Paired(b, c)])
  }

  function SamplesOf(samples: map<string, Samples>, metric: string): Samples {
    if metric in samples then samples[metric] else Listed([])
  }

  ghost function ReportOf(metric: string, baseline: Samples, candidate: Samples, generator: Generator): MetricReport
    requires Draws(generator)
  {
    var stat := StatisticOf(metric);
    var b, c := SampleValues(baseline), SampleValues(candidate);
    var (pb, pc) := PairedValues(baseline, candidate);
    var bi := ConfidenceInterval(b, stat, generator(|b|));
    var ci := ConfidenceInterval(c, stat, generator(|c|));
    var di := DeltaInterval(pb, pc, stat, generator(|pb|));
    MetricReport(
      Round6(stat(b)), Round6(bi.0), Round6(bi.1),
      Round6(stat(c)), Round6(ci.0), Round6(ci.1),
      Deltas(Round6(stat(c) - stat(b)), Round6(di.0), Round6(di.1)),
      |b|, |c|, |pb|)
  }

  /** `build_metric_report`: one entry per supported metric. */
  method BuildMetricReport(baseline: map<string, Samples>, candidate: map<string, Samples>, generator: Generator)
      returns (report: map<string, MetricReport>)
    requires Draws(generator)
    ensures report.Keys == set metric | metric in METRICS
    ensures forall metric | metric in METRICS ::
      report[metric] == ReportOf(metric, SamplesOf(baseline, metric), SamplesOf(candidate, metric), generator)
  {
    report := map[];
    for k := 0 to |METRICS|
      invariant report.Keys == set metric | metric in METRICS[..k]
      invariant forall metric | metric in report ::
        report[metric] == ReportOf(metric, SamplesOf(baseline, metric), SamplesOf(candidate, metric), generator)
    {
      var metric := METRICS[k];
      var entry := BuildEntry(metric, SamplesOf(baseline, metric), SamplesOf(candidate, metric), generator);
      report := report[metric := entry];
      assert METRICS[..k + 1] == METRICS[..k] + [metric];
    }
    assert METRICS[..|METRICS|] == METRICS;
  }

  /** The body of the loop in `build_metric_report`. */
  method BuildEntry(metric: string, baseline: Samples, candidate: Samples, generator: Generator)
      returns (entry: MetricReport)
    requires Draws(generator)
    ensures entry == ReportOf(metric, baseline, candidate, generator)
  {
    hide ConfidenceInterval, DeltaInterval, Round6, SampleValues, PairedValues;
    var stat := StatisticOf(metric);
    var b, c := SampleValues(baseline), SampleValues(candidate);
    var (pb, pc) := PairedValues(baseline, candidate);
    var baselineLower, baselineUpper := BootstrapCi(b, stat, generator(|b|));
    var candidateLower, candidateUpper := BootstrapCi(c, stat, generator(|c|));
    assert Paired(pb, pc) == |pb|;
    var deltaLower, deltaUpper := BootstrapDeltaCi(pb, pc, stat, generator(|pb|));
    entry := MetricReport(
      Round6(stat(b)), Round6(baselineLower), Round6(baselineUpper),
      Round6(stat(c)), Round6(candidateLower), Round6(candidateUpper),
      Deltas(Round6(stat(c) - stat(b)), Round6(deltaLower), Round6(deltaUpper)),
      |b|, |c|, |pb|);
  }

  // ---- Pairing ----

  /** Both runs measured the metric on the same, at least one, cases. */
  predicate SameCases(baseline: Samples, candidate: Samples) {
    && baseline.ByCase? && candidate.ByCase?
    && baseline.values.Keys == candidate.values.Keys != {}
  }

  lemma PairingKeepsAll(baseline: Samples, candidate: Samples)
    requires SameCases(baseline, candidate)
    ensures PairedValues(baseline, candidate) == (SampleValues(baseline), SampleValues(candidate))
    ensures SampleValues(baseline) != []
  {
    assert baseline.values.Keys * candidate.values.Keys == baseline.values.Keys;
  }

  /** The cases on which both runs measured the metric. */
  function Shared(baseline: Samples, candidate: Samples): set<CaseId> {
    if baseline.ByCase? && candidate.ByCase? then baseline.values.Keys * candidate.values.Keys else {}
  }

  /** On every shared case, candidate minus baseline lies between `low` and `high`. */
  predicate CaseDifferences(baseline: Samples, candidate: Samples, low: real, high: real) {
    forall c | c in Shared(baseline, candidate) :: low <= candidate.values[c] - baseline.values[c] <= high
  }

  lemma PairsDiffer(baseline: Samples, candidate: Samples, low: real, high: real)
    requires Shared(baseline, candidate) != {} && CaseDifferences(baseline, candidate, low, high)
    ensures
      var (b, c) := PairedValues(baseline, candidate);
      b != [] && DifferencesWithin(b, c, low, high)
  {
    var keys := Ascending(Shared(baseline, candidate));
    assert forall k | 0 <= k < |keys| :: keys[k] in Shared(baseline, candidate);
  }

  /** Pairs are exactly the shared cases, each once, with the two runs' own values. */
  lemma PairsExactly(baseline: map<CaseId, real>, candidate: map<CaseId, real>)
    ensures
      var (b, c) := PairedValues(ByCase(baseline), ByCase(candidate));
      exists cases: seq<CaseId> | |cases| == |b| == |c| ::
        && Distinct(cases) && (forall x :: x in cases <==> x in baseline && x in candidate)
        && forall k | 0 <= k < |cases| ::
             cases[k] in baseline && cases[k] in candidate && b[k] == baseline[cases[k]] && c[k] == candidate[cases[k]]
  {
    var cases := Ascending(baseline.Keys * candidate.Keys);
    assert forall k | 0 <= k < |cases| :: cases[k] in baseline.Keys * candidate.Keys;
    assert Distinct(cases);
  }

  // ---- From differences to report ----

  lemma RoundBetween(x: real, low: real, high: real)
    requires low <= x <= high
    ensures Round6(low) <= Round6(x) <= Round6(high)
  {
    RoundMonotone(low, x);
    RoundMonotone(x, high);
  }

  /** Whatever the generator, the reported interval lies between the rounded extremes of the differences
      on the shared cases; samples of other cases do not matter. */
  lemma ReportedIntervalWithin(metric: string, baseline: Samples, candidate: Samples, generator: Generator,
      low: real, high: real)
    requires Draws(generator) && Shared(baseline, candidate) != {}
    requires CaseDifferences(baseline, candidate, low, high)
    ensures
      var delta := ReportOf(metric, baseline, candidate, generator).delta;
      Round6(low) <= delta.lower <= delta.upper <= Round6(high)
  {
    hide Round6, DeltaInterval, ConfidenceInterval, SampleValues, PairedValues;
    var stat := StatisticOf(metric);
    StatisticIsLocation(metric);
    PairsDiffer(baseline, candidate, low, high);
    var (b, c) := PairedValues(baseline, candidate);
    assert Paired(b, c) == |b|;
    DeltaIntervalWithin(b, c, stat, generator(|b|), low, high);
    var interval := DeltaInterval(b, c, stat, generator(|b|));
    RoundBetween(interval.0, low, high);
    RoundBetween(interval.1, low, high);
    RoundMonotone(interval.0, interval.1);
  }

  ghost predicate DeltaBetween(delta: Deltas, low: real, high: real) {
    && low <= delta.point <= high
    && low <= delta.lower <= delta.upper <= high
  }

  /** On the same cases the reported point lies between the same extremes. */
  lemma ReportedDeltasWithin(metric: string, baseline: Samples, candidate: Samples, generator: Generator,
      low: real, high: real)
    requires Draws(generator) && SameCases(baseline, candidate)
    requires CaseDifferences(baseline, candidate, low, high)
    ensures DeltaBetween(ReportOf(metric, baseline, candidate, generator).delta, Round6(low), Round6(high))
  {
    SameCasesShared(baseline, candidate);
    hide *;
    ReportedIntervalWithin(metric, baseline, candidate, generator, low, high);
    PointWithin(metric, baseline, candidate, low, high);
    ReportedPoint(metric, baseline, candidate, generator);
    DeltaBetweenMeans(ReportOf(metric, baseline, candidate, generator).delta, Round6(low), Round6(high));
  }

  lemma DeltaBetweenMeans(delta: Deltas, low: real, high: real)
    ensures DeltaBetween(delta, low, high) <==>
      low <= delta.point <= high && low <= delta.lower <= delta.upper <= high
  {
  }

  lemma ReportedPoint(metric: string, baseline: Samples, candidate: Samples, generator: Generator)
    requires Draws(generator)
    ensures
      var stat, b, c := StatisticOf(metric), SampleValues(baseline), SampleValues(candidate);
      ReportOf(metric, baseline, candidate, generator).delta.point == Round6(stat(c) - stat(b))
  {
    hide Round6, DeltaInterval, ConfidenceInterval, SampleValues, PairedValues, StatisticOf;
  }

  lemma SameCasesShared(baseline: Samples, candidate: Samples)
    requires SameCases(baseline, candidate)
    ensures Shared(baseline, candidate) == baseline.values.Keys && Shared(baseline, candidate) != {}
  {
  }

  lemma PointWithin(metric: string, baseline: Samples, candidate: Samples, low: real, high: real)
    requires SameCases(baseline, candidate) && CaseDifferences(baseline, candidate, low, high)
    ensures
      var stat, b, c := StatisticOf(metric), SampleValues(baseline), SampleValues(candidate);
      Round6(low) <= Round6(stat(c) - stat(b)) <= Round6(high)
  {
    hide *;
    var stat := StatisticOf(metric);
    var b, c := SampleValues(baseline), SampleValues(candidate);
    StatisticIsLocation(metric);
    SameCasesShared(baseline, candidate);
    PairingKeepsAll(baseline, candidate);
    PairsDiffer(baseline, candidate, low, high);
    DeltaWithin(b, c, stat, low, high);
    RoundBetween(stat(c) - stat(b), low, high);
  }

  // ---- Gate soundness ----

  function Improvement(direction: string, baseline: real, candidate: real): real {
    if direction == "higher_better" then candidate - baseline else baseline - candidate
  }

  /** No shared case improved by less than `bound`, which is negative for a case that got worse. */
  predicate EveryCaseAtLeast(baseline: Samples, candidate: Samples, direction: string, bound: real) {
    forall c | c in Shared(baseline, candidate) ::
      Improvement(direction, baseline.values[c], candidate.values[c]) >= bound
  }

  predicate EveryCaseAtMost(baseline: Samples, candidate: Samples, direction: string, bound: real) {
    forall c | c in Shared(baseline, candidate) ::
      Improvement(direction, baseline.values[c], candidate.values[c]) <= bound
  }

  lemma {:induction false} Spread(baseline: Samples, candidate: Samples, cases: set<CaseId>)
    returns (low: real, high: real)
    requires cases <= Shared(baseline, candidate)
    ensures forall c | c in cases :: low <= candidate.values[c] - baseline.values[c] <= high
  {
    if cases == {} {
      low, high := 0.0, 0.0;
    } else {
      var c :| c in cases;
      low, high := Spread(baseline, candidate, cases - {c});
      var d := candidate.values[c] - baseline.values[c];
      if d < low { low := d; }
      if d > high { high := d; }
    }
  }

  /** Differences bounded on the improving side only are bounded on both. */
  lemma BoundedBelow(baseline: Samples, candidate: Samples, direction: string, bound: real)
    returns (low: real, high: real)
    requires EveryCaseAtLeast(baseline, candidate, direction, bound)
    ensures CaseDifferences(baseline, candidate, low, high)
    ensures if direction == "higher_better" then low == bound else high == -bound
  {
    low, high := Spread(baseline, candidate, Shared(baseline, candidate));
    if direction == "higher_better" { low := bound; } else { high := -bound; }
  }

  lemma BoundedAbove(baseline: Samples, candidate: Samples, direction: string, bound: real)
    returns (low: real, high: real)
    requires EveryCaseAtMost(baseline, candidate, direction, bound)
    ensures CaseDifferences(baseline, candidate, low, high)
    ensures if direction == "higher_better" then high == bound else low == -bound
  {
    low, high := Spread(baseline, candidate, Shared(baseline, candidate));
    if direction == "higher_better" { high := bound; } else { low := -bound; }
  }

  lemma MildChangesPass(metric: string, rule: Rule, baseline: Samples, candidate: Samples, generator: Generator,
      bound: real)
    requires Draws(generator) && SameCases(baseline, candidate) && rule.Valid()
    requires EveryCaseAtLeast(baseline, candidate, rule.direction, bound) && Round6(bound) >= -rule.tolerance
    ensures MetricVerdict(ReportOf(metric, baseline, candidate, generator).delta, rule) == Pass
  {
    hide Round6, ReportOf;
    var low, high := BoundedBelow(baseline, candidate, rule.direction, bound);
    ReportedDeltasWithin(metric, baseline, candidate, generator, low, high);
    RoundOdd(bound);
  }

  /** A fail depends on the shared cases alone. */
  lemma MildChangesNeverFail(metric: string, rule: Rule, baseline: Samples, candidate: Samples,
      generator: Generator, bound: real)
    requires Draws(generator) && Shared(baseline, candidate) != {} && rule.Valid()
    requires EveryCaseAtLeast(baseline, candidate, rule.direction, bound) && Round6(bound) >= -rule.tolerance
    ensures MetricVerdict(ReportOf(metric, baseline, candidate, generator).delta, rule) != Fail
  {
    hide Round6, ReportOf;
    var low, high := BoundedBelow(baseline, candidate, rule.direction, bound);
    ReportedIntervalWithin(metric, baseline, candidate, generator, low, high);
    RoundOdd(bound);
  }

  lemma SevereChangesFail(metric: string, rule: Rule, baseline: Samples, candidate: Samples, generator: Generator,
      bound: real)
    requires Draws(generator) && Shared(baseline, candidate) != {} && rule.Valid()
    requires EveryCaseAtMost(baseline, candidate, rule.direction, bound) && Round6(bound) < -rule.tolerance
    ensures MetricVerdict(ReportOf(metric, baseline, candidate, generator).delta, rule) == Fail
  {
    hide Round6, ReportOf;
    var low, high := BoundedAbove(baseline, candidate, rule.direction, bound);
    ReportedIntervalWithin(metric, baseline, candidate, generator, low, high);
    RoundOdd(bound);
  }

  /** Without a pair the interval is (0, 0), which no tolerance fails. */
  lemma UnpairedNeverFails(metric: string, rule: Rule, baseline: Samples, candidate: Samples, generator: Generator)
    requires Draws(generator) && rule.Valid() && PairedValues(baseline, candidate).0 == []
    ensures MetricVerdict(ReportOf(metric, baseline, candidate, generator).delta, rule) != Fail
  {
    hide ConfidenceInterval, SampleValues, PairedValues, Round6;
    RoundFixesGrid(0.0);
  }

  function FirstOnly(count: nat): seq<seq<nat>> {
    [seq(count, _ => 0)]
  }

  lemma FirstOnlyDraws()
    ensures Draws(FirstOnly)
  {
    forall count: nat ensures DrawsFor(FirstOnly(count), count) {
    }
  }

  lemma GridThreshold(x: real, tolerance: real)
    ensures x < -tolerance - 0.0000005 ==> Round6(x) < -tolerance
    ensures OnGrid(tolerance) && Round6(x) < -tolerance ==> x < -tolerance
  {
    hide OnGrid;
    RoundNear(x);
    RoundFixesGrid(tolerance);
    RoundOdd(tolerance);
    if x >= -tolerance { RoundMonotone(-tolerance, x); }
  }

  // ---- The gate and the significance test ----

  /** The paired deltas before rounding. */
  ghost function UnroundedDeltas(metric: string, baseline: Samples, candidate: Samples, generator: Generator): Deltas
    requires Draws(generator)
  {
    var stat := StatisticOf(metric);
    var b, c := SampleValues(baseline), SampleValues(candidate);
    var di := DeltaInterval(b, c, stat, generator(Paired(b, c)));
    Deltas(stat(c) - stat(b), di.0, di.1)
  }

  ghost function FindingOf(metric: string, baseline: Samples, candidate: Samples, generator: Generator, rule: Rule):
      Result<Finding, string>
    requires Draws(generator)
  {
    var b, c := SampleValues(baseline), SampleValues(candidate);
    Regression(b, c, StatisticOf(metric), generator(Paired(b, c)), rule.direction, rule.tolerance)
  }

  /** On the same unrounded deltas the gate fails exactly on a significant regression, warns on a
      possible one, and otherwise warns exactly when the unfavourable end is beyond tolerance. */
  lemma GateMatchesSignificance(metric: string, baseline: Samples, candidate: Samples, generator: Generator, rule: Rule)
    requires Draws(generator) && rule.Valid()
    ensures var finding := FindingOf(metric, baseline, candidate, generator, rule);
      var delta := UnroundedDeltas(metric, baseline, candidate, generator);
      var worstEnd := if rule.direction == "higher_better" then delta.lower else -delta.upper;
      var verdict := MetricVerdict(delta, rule);
      && (verdict == Fail <==> finding == Ok(Significant))
      && (finding == Ok(Possible) ==> verdict == Warn)
      && (finding == Ok(NotSignificant) ==> (verdict == Warn <==> worstEnd < -rule.tolerance))
  {
    hide DeltaInterval, SampleValues;
  }

  /** The report really holds those deltas rounded, when both runs measured the same cases. */
  lemma ReportRoundsDeltas(metric: string, baseline: Samples, candidate: Samples, generator: Generator)
    requires Draws(generator) && SameCases(baseline, candidate)
    ensures var delta := UnroundedDeltas(metric, baseline, candidate, generator);
      ReportOf(metric, baseline, candidate, generator).delta
      == Deltas(Round6(delta.point), Round6(delta.lower), Round6(delta.upper))
  {
    hide DeltaInterval, ConfidenceInterval, SampleValues, PairedValues, Round6;
    PairingKeepsAll(baseline, candidate);
    assert |SampleValues(baseline)| == |SampleValues(candidate)| by {
      var (b, c) := PairedValues(baseline, candidate);
      assert |b| == |c|;
    }
  }

  /** With a tolerance on the grid, the stored verdict fails only on a significant regression; it
      misses one only when the bound is within half a millionth of the tolerance. */
  lemma RoundingOnlyForgives(metric: string, baseline: Samples, candidate: Samples, generator: Generator, rule: Rule)
    requires Draws(generator) && rule.Valid() && SameCases(baseline, candidate) && OnGrid(rule.tolerance)
    ensures var finding := FindingOf(metric, baseline, candidate, generator, rule);
      var delta := UnroundedDeltas(metric, baseline, candidate, generator);
      var bestEnd := if rule.direction == "higher_better" then delta.upper else -delta.lower;
      var verdict := MetricVerdict(ReportOf(metric, baseline, candidate, generator).delta, rule);
      && (verdict == Fail ==> finding == Ok(Significant))
      && (finding == Ok(Significant) && verdict != Fail ==> bestEnd >= -rule.tolerance - 0.0000005)
  {
    hide DeltaInterval, ReportOf, UnroundedDeltas, FindingOf, Round6, OnGrid;
    var delta := UnroundedDeltas(metric, baseline, candidate, generator);
    ReportRoundsDeltas(metric, baseline, candidate, generator);
    GateMatchesSignificance(metric, baseline, candidate, generator, rule);
    GridThreshold(if rule.direction == "higher_better" then delta.upper else -delta.lower, rule.tolerance);
    RoundOdd(delta.lower);
  }

  // ---- The rest of the report ----

  /** The interval reported for estimates is their central interval, rounded. */
  ghost predicate ReportsCentral(estimates: seq<real>, lower: real, upper: real) {
    exists x, y :: Central(estimates, x, y) && lower == Round6(x) && upper == Round6(y)
  }

  lemma SideReports(values: seq<real>, stat: seq<real> -> real, draws: seq<seq<nat>>)
    requires DrawsFor(draws, |values|) && |values| >= 3
    ensures
      var ci := ConfidenceInterval(values, stat, draws);
      ReportsCentral(Estimates(values, stat, draws), Round6(ci.0), Round6(ci.1))
  {
    hide Central, Interval, Round6;
    IntervalIsCentral(Estimates(values, stat, draws));
  }

  lemma DeltaReports(baseline: seq<real>, candidate: seq<real>, stat: seq<real> -> real, draws: seq<seq<nat>>)
    requires DrawsFor(draws, Paired(baseline, candidate))
    ensures
      var ci := DeltaInterval(baseline, candidate, stat, draws);
      if baseline == [] || candidate == [] then Round6(ci.0) == Round6(ci.1) == 0.0
      else ReportsCentral(DeltaEstimates(baseline, candidate, stat, draws), Round6(ci.0), Round6(ci.1))
  {
    RoundFixesGrid(0.0);
    hide Central, Interval, Round6;
    if baseline != [] && candidate != [] { IntervalIsCentral(DeltaEstimates(baseline, candidate, stat, draws)); }
  }

  /** The points of an entry: the rounded 95th percentile for latency and the rounded mean otherwise, and
      their rounded difference; and its counts. */
  lemma PointsExactly(metric: string, baseline: Samples, candidate: Samples, generator: Generator)
    requires Draws(generator)
    ensures
      var r := ReportOf(metric, baseline, candidate, generator);
      var b, c := SampleValues(baseline), SampleValues(candidate);
      && r.baselineCount == |b| && r.candidateCount == |c| && r.pairedCount == |PairedValues(baseline, candidate).0|
      && (metric == "p95_latency_ms" ==>
            && r.baselinePoint == Round6(Percentile(b, 0.95)) && r.candidatePoint == Round6(Percentile(c, 0.95))
            && r.delta.point == Round6(Percentile(c, 0.95) - Percentile(b, 0.95)))
      && (metric != "p95_latency_ms" ==>
            && r.baselinePoint == Round6(Average(b)) && r.candidatePoint == Round6(Average(c))
            && r.delta.point == Round6(Average(c) - Average(b)))
  {
    hide ConfidenceInterval, DeltaInterval, SampleValues, PairedValues, Round6, Average, Percentile;
  }

  /** The intervals of an entry are the central intervals of its resampled estimates, rounded. */
  lemma IntervalsExactly(metric: string, baseline: Samples, candidate: Samples, generator: Generator)
    requires Draws(generator)
    ensures
      var r, stat := ReportOf(metric, baseline, candidate, generator), StatisticOf(metric);
      var b, c := SampleValues(baseline), SampleValues(candidate);
      var (pb, pc) := PairedValues(baseline, candidate);
      && (|b| >= 3 ==> ReportsCentral(Estimates(b, stat, generator(|b|)), r.baselineLower, r.baselineUpper))
      && (|c| >= 3 ==> ReportsCentral(Estimates(c, stat, generator(|c|)), r.candidateLower, r.candidateUpper))
      && Paired(pb, pc) == |pb|
      && (pb != [] ==> ReportsCentral(DeltaEstimates(pb, pc, stat, generator(|pb|)), r.delta.lower, r.delta.upper))
      && (pb == [] ==> r.delta.lower == r.delta.upper == 0.0)
  {
    hide ReportsCentral, ConfidenceInterval, DeltaInterval, SampleValues, PairedValues, Round6, StatisticOf;
    var b, c := SampleValues(baseline), SampleValues(candidate);
    var (pb, pc) := PairedValues(baseline, candidate);
    assert Paired(pb, pc) == |pb|;
    if |b| >= 3 { SideReports(b, StatisticOf(metric), generator(|b|)); }
    if |c| >= 3 { SideReports(c, StatisticOf(metric), generator(|c|)); }
    DeltaReports(pb, pc, StatisticOf(metric), generator(|pb|));
  }

  predicate PointAndIntervalWithin(point: real, lower: real, upper: real, low: real, high: real) {
    low <= point <= high && low <= lower <= upper <= high
  }

  /** Each side's point lies between the rounded bounds of its own samples, and so does its interval
      when there are at least three; the counts are those of the samples. */
  lemma ReportedSidesWithin(metric: string, baseline: Samples, candidate: Samples, generator: Generator,
      low: real, high: real)
    requires Draws(generator)
    ensures
      var r := ReportOf(metric, baseline, candidate, generator);
      var b, c := SampleValues(baseline), SampleValues(candidate);
      && r.baselineCount == |b| && r.candidateCount == |c| && r.pairedCount <= |b| && r.pairedCount <= |c|
      && (|b| >= 3 && Within(b, low, high) ==>
            PointAndIntervalWithin(r.baselinePoint, r.baselineLower, r.baselineUpper, Round6(low), Round6(high)))
      && (|c| >= 3 && Within(c, low, high) ==>
            PointAndIntervalWithin(r.candidatePoint, r.candidateLower, r.candidateUpper, Round6(low), Round6(high)))
  {
    hide Round6, DeltaInterval, ConfidenceInterval, SampleValues, PairedValues, StatisticOf;
    var b, c := SampleValues(baseline), SampleValues(candidate);
    PairedCount(baseline, candidate);
    StatisticIsLocation(metric);
    if |b| >= 3 && Within(b, low, high) { SideWithin(b, StatisticOf(metric), generator, low, high); }
    if |c| >= 3 && Within(c, low, high) { SideWithin(c, StatisticOf(metric), generator, low, high); }
  }

  lemma SideWithin(values: seq<real>, stat: seq<real> -> real, generator: Generator, low: real, high: real)
    requires Draws(generator) && Location(stat) && |values| >= 3 && Within(values, low, high)
    ensures
      var ci := ConfidenceInterval(values, stat, generator(|values|));
      PointAndIntervalWithin(Round6(stat(values)), Round6(ci.0), Round6(ci.1), Round6(low), Round6(high))
  {
    hide Round6, ConfidenceInterval;
    var ci := ConfidenceInterval(values, stat, generator(|values|));
    StatWithin(values, stat, low, high);
    ConfidenceWithinSample(values, stat, generator(|values|), low, high);
    RoundBetween(stat(values), low, high);
    RoundBetween(ci.0, low, high);
    RoundBetween(ci.1, low, high);
    RoundMonotone(ci.0, ci.1);
  }

  lemma PairedCount(baseline: Samples, candidate: Samples)
    ensures |PairedValues(baseline, candidate).0| <= |SampleValues(baseline)|
    ensures |PairedValues(baseline, candidate).0| <= |SampleValues(candidate)|
  {
    if baseline.ByCase? && candidate.ByCase? {
      var shared := baseline.values.Keys * candidate.values.Keys;
      SubsetCard(shared, baseline.values.Keys);
      SubsetCard(shared, candidate.values.Keys);
    }
  }

  // ---- The whole comparison ----

  const DEFAULT_GATE_RULES: seq<(string, Rule)> := [
    ("pass_rate", Rule("higher_better", 0.02)),
    ("semantic_similarity", Rule("higher_better", 0.02)),
    ("p95_latency_ms", Rule("lower_better", 50.0)),
    ("cost_mean_usd", Rule("lower_better", 0.001))]

  ghost function DeltasOf(baseline: map<string, Samples>, candidate: map<string, Samples>, generator: Generator):
      map<string, Deltas>
    requires Draws(generator)
  {
    map metric | metric in METRICS ::
      ReportOf(metric, SamplesOf(baseline, metric), SamplesOf(candidate, metric), generator).delta
  }

  /** The end of `compute_comparison`: stored rules are validated before anything is computed, and
      without stored rules the defaults judge. */
  method ComputeVerdict(baseline: map<string, Samples>, candidate: map<string, Samples>, stored: Option<RawRules>,
      generator: Generator) returns (r: Result<(map<string, MetricReport>, Verdict, seq<Reason>), GateError>)
    requires Draws(generator)
    requires stored.Some? && stored.value.Dict? ==> DistinctMetrics(stored.value.entries)
    ensures r.Ok? <==>
      stored.None? || (stored.value.Dict? && stored.value.entries != [] && Faultless(stored.value.entries))
    ensures r.Ok? ==>
      exists rules | Sound(rules)
        && (if stored.Some? then Raw(rules) == stored.value.entries else rules == DEFAULT_GATE_RULES) ::
        && r.value.1 == VerdictOf(DeltasOf(baseline, candidate, generator), rules)
        && r.value.2 == ReasonsOf(DeltasOf(baseline, candidate, generator), rules)
    ensures r.Ok? ==> forall metric | metric in METRICS ::
      && metric in r.value.0
      && r.value.0[metric] == ReportOf(metric, SamplesOf(baseline, metric), SamplesOf(candidate, metric), generator)
  {
    hide ReportOf, VerdictOf, ReasonsOf, Fault;
    DefaultRulesSound();
    var rules := DEFAULT_GATE_RULES;
    if stored.Some? {
      var validated := ValidateGateRules(stored.value);
      if validated.Err? {
        return Err(validated.error);
      }
      rules := validated.value;
    }
    var report := BuildMetricReport(baseline, candidate, generator);
    var deltas := map metric | metric in report :: report[metric].delta;
    assert deltas == DeltasOf(baseline, candidate, generator);
    RevalidationAccepts(rules);
    var judged := ApplyGates(deltas, Dict(Raw(rules)));
    return Ok((report, judged.value.0, judged.value.1));
  }

  lemma DefaultRulesSound()
    ensures Sound(DEFAULT_GATE_RULES)
    ensures forall k | 0 <= k < |DEFAULT_GATE_RULES| :: OnGrid(DEFAULT_GATE_RULES[k].1.tolerance)
  {
    var r := DEFAULT_GATE_RULES;
    assert r[0].0 in METRICS && r[1].0 in METRICS && r[2].0 in METRICS && r[3].0 in METRICS by {
      assert METRICS[0] == r[0].0 && METRICS[1] == r[1].0 && METRICS[2] == r[2].0 && METRICS[3] == r[3].0;
    }
    assert 0.02 * MILLION == 20000.0 && 50.0 * MILLION == 50000000.0 && 0.001 * MILLION == 1000.0;
  }

  /** Neither run has a sample of the metric, as similarity without a lexical evaluator. */
  predicate Unmeasured(baseline: Samples, candidate: Samples) {
    SampleValues(baseline) == [] && SampleValues(candidate) == []
  }

  lemma UnmeasuredPasses(metric: string, rule: Rule, baseline: Samples, candidate: Samples, generator: Generator)
    requires Draws(generator) && rule.Valid() && Unmeasured(baseline, candidate)
    ensures ReportOf(metric, baseline, candidate, generator).delta == Deltas(0.0, 0.0, 0.0)
    ensures MetricVerdict(ReportOf(metric, baseline, candidate, generator).delta, rule) == Pass
  {
    hide ConfidenceInterval, SampleValues, PairedValues, Round6;
    PairedCount(baseline, candidate);
    assert PairedValues(baseline, candidate).0 == [] && PairedValues(baseline, candidate).1 == [];
    assert StatisticOf(metric)([]) == 0.0;
    RoundFixesGrid(0.0);
  }

  lemma {:induction false} NoReasonsWhenAllPass(deltas: map<string, Deltas>, rules: seq<(string, Rule)>)
    requires Covers(deltas, rules)
    requires forall k | 0 <= k < |rules| :: MetricVerdict(deltas[rules[k].0], rules[k].1) == Pass
    ensures ReasonsOf(deltas, rules) == []
  {
    if rules == [] {
    } else {
      NoReasonsWhenAllPass(deltas, rules[..|rules| - 1]);
    }
  }
}
