/** Gate rules: validating them and turning metric deltas into one verdict with reasons. */
module Gates {
  import opened Options

  const METRICS: seq<string> := ["pass_rate", "semantic_similarity", "p95_latency_ms", "cost_mean_usd"]

  /** What `float(rule.get("tolerance"))` yields. */
  datatype RawTolerance = Unreadable | NotFinite | Number(value: real)

  datatype RawRule = NotAnObject | Object(direction: string, tolerance: RawTolerance)

  /** The stored JSON; a dict is its entries in insertion order, with distinct keys. */
  datatype RawRules = NotADict | Dict(entries: seq<(string, RawRule)>)

  datatype Rule = Rule(direction: string, tolerance: real) {
    predicate Valid() { direction in {"higher_better", "lower_better"} && tolerance >= 0.0 }
  }

  datatype GateError = NoMetrics | UnsupportedMetric(metric: string) | RuleNotAnObject(metric: string)
    | InvalidDirection(metric: string) | InvalidTolerance(metric: string) | ToleranceOutOfRange(metric: string)

  datatype Verdict = Pass | Warn | Fail {
    function Severity(): nat { match this case Pass => 0 case Warn => 1 case Fail => 2 }
  }

  datatype Deltas = Deltas(point: real, lower: real, upper: real)

  datatype Reason = Reason(metric: string, verdict: Verdict, tolerance: real, point: real)

  // ---- Validation ----

  /** The first complaint about one entry, if any. */
  function Fault(metric: string, rule: RawRule): Option<GateError> {
    if metric !in METRICS then Some(UnsupportedMetric(metric))
    else if rule.NotAnObject? then Some(RuleNotAnObject(metric))
    else if rule.direction !in {"higher_better", "lower_better"} then Some(InvalidDirection(metric))
    else match rule.tolerance
      case Unreadable => Some(InvalidTolerance(metric))
      case NotFinite => Some(ToleranceOutOfRange(metric))
      case Number(value) => if value < 0.0 then Some(ToleranceOutOfRange(metric)) else None
  }

  predicate DistinctMetrics<T>(entries: seq<(string, T)>) {
    forall j, k | 0 <= j < k < |entries| :: entries[j].0 != entries[k].0
  }

  function Raw(rules: seq<(string, Rule)>): (r: seq<(string, RawRule)>)
    ensures |r| == |rules|
    ensures forall k | 0 <= k < |rules| ::
      r[k] == (rules[k].0, Object(rules[k].1.direction, Number(rules[k].1.tolerance)))
  {
    seq(|rules|, k requires 0 <= k < |rules| =>
      (rules[k].0, Object(rules[k].1.direction, Number(rules[k].1.tolerance))))
  }

  predicate Sound(rules: seq<(string, Rule)>) {
    && DistinctMetrics(rules)
    && forall k | 0 <= k < |rules| :: rules[k].0 in METRICS && rules[k].1.Valid()
  }

  predicate Faultless(entries: seq<(string, RawRule)>) {
    forall k | 0 <= k < |entries| :: Fault(entries[k].0, entries[k].1).None?
  }

  /** `validate_gate_rules`: accepts exactly the faultless non-empty dicts and returns them unchanged,
      in order; otherwise reports the first fault. */
  method ValidateGateRules(rules: RawRules) returns (r: Result<seq<(string, Rule)>, GateError>)
    requires rules.Dict? ==> DistinctMetrics(rules.entries)
    ensures r.Ok? <==> rules.Dict? && rules.entries != [] && Faultless(rules.entries)
    ensures r.Ok? ==> Raw(r.value) == rules.entries && Sound(r.value)
    ensures r.Err? ==> if rules.NotADict? || rules.entries == [] then r.error == NoMetrics
      else exists k | 0 <= k < |rules.entries| ::
        Fault(rules.entries[k].0, rules.entries[k].1) == Some(r.error) && Faultless(rules.entries[..k])
  {
    if rules.NotADict? || rules.entries == [] {
      return Err(NoMetrics);
    }
    var validated: seq<(string, Rule)> := [];
    for k := 0 to |rules.entries|
      invariant Faultless(rules.entries[..k])
      invariant |validated| == k && Raw(validated) == rules.entries[..k]
      invariant forall j | 0 <= j < k ::
        validated[j].0 == rules.entries[j].0 && validated[j].0 in METRICS && validated[j].1.Valid()
    {
      var (metric, rule) := rules.entries[k];
      var fault := Fault(metric, rule);
      if fault.Some? {
        return Err(fault.value);
      }
      assert rules.entries[..k + 1] == rules.entries[..k] + [rules.entries[k]];
      validated := validated + [(metric, Rule(rule.direction, rule.tolerance.value))];
    }
    assert rules.entries[..|rules.entries|] == rules.entries;
    return Ok(validated);
  }

  /** Validating a validated rule set again accepts it unchanged, which is why gates may re-validate. */
  lemma RevalidationAccepts(rules: seq<(string, Rule)>)
    requires Sound(rules)
    ensures DistinctMetrics(Raw(rules)) && Faultless(Raw(rules))
    ensures forall other | Raw(other) == Raw(rules) :: other == rules
  {
    forall k | 0 <= k < |rules| ensures Fault(Raw(rules)[k].0, Raw(rules)[k].1).None? {
      assert rules[k].1.Valid();
    }
    forall other | Raw(other) == Raw(rules) ensures other == rules { RawInjective(other, rules); }
  }

  lemma RawInjective(a: seq<(string, Rule)>, b: seq<(string, Rule)>)
    requires Raw(a) == Raw(b)
    ensures a == b
  {
    forall k | 0 <= k < |a| ensures a[k] == b[k] {
      assert Raw(a)[k] == Raw(b)[k];
    }
  }

  // ---- Verdicts ----

  /** One metric's verdict: fail when even the favourable end of the interval is beyond tolerance,
      warn when the other end or the point is. */
  function MetricVerdict(delta: Deltas, rule: Rule): Verdict {
    var higher := rule.direction == "higher_better";
    var upper := if higher then delta.upper else -delta.lower;
    var lower := if higher then delta.lower else -delta.upper;
    var point := if higher then delta.point else -delta.point;
    if upper < -rule.tolerance then Fail
    else if lower < -rule.tolerance || point < -rule.tolerance then Warn
    else Pass
  }

  function Worst(a: Verdict, b: Verdict): Verdict {
    if a.Severity() <= b.Severity() then b else a
  }

  function VerdictOf(metrics: map<string, Deltas>, rules: seq<(string, Rule)>): Verdict
    requires forall k | 0 <= k < |rules| :: rules[k].0 in metrics
  {
    if rules == [] then Pass
    else
      Worst(VerdictOf(metrics, rules[..|rules| - 1]),
            MetricVerdict(metrics[rules[|rules| - 1].0], rules[|rules| - 1].1))
  }

  function ReasonsOf(metrics: map<string, Deltas>, rules: seq<(string, Rule)>): seq<Reason>
    requires forall k | 0 <= k < |rules| :: rules[k].0 in metrics
  {
    if rules == [] then []
    else
      var (metric, rule) := rules[|rules| - 1];
      var verdict := MetricVerdict(metrics[metric], rule);
      ReasonsOf(metrics, rules[..|rules| - 1])
      + (if verdict.Pass? then [] else [Reason(metric, verdict, rule.tolerance, metrics[metric].point)])
  }

  /** `apply_gates`. A report holds every supported metric. */
  method ApplyGates(metrics: map<string, Deltas>, rules: RawRules)
      returns (r: Result<(Verdict, seq<Reason>), GateError>)
    requires rules.Dict? ==> DistinctMetrics(rules.entries)
    requires forall metric | metric in METRICS :: metric in metrics
    ensures r.Ok? <==> rules.Dict? && rules.entries != [] && Faultless(rules.entries)
    ensures r.Ok? ==> exists valid | Sound(valid) && Raw(valid) == rules.entries ::
      r.value.0 == VerdictOf(metrics, valid) && r.value.1 == ReasonsOf(metrics, valid)
  {
    var validated := ValidateGateRules(rules);
    if validated.Err? {
      return Err(validated.error);
    }
    var gateRules := validated.value;
    var verdict := Pass;
    var reasons: seq<Reason> := [];
    for k := 0 to |gateRules|
      invariant verdict == VerdictOf(metrics, gateRules[..k])
      invariant reasons == ReasonsOf(metrics, gateRules[..k])
    {
      var (metric, rule) := gateRules[k];
      var metricVerdict := MetricVerdict(metrics[metric], rule);
      assert gateRules[..k + 1][..k] == gateRules[..k];
      if metricVerdict != Pass {
        reasons := reasons + [Reason(metric, metricVerdict, rule.tolerance, metrics[metric].point)];
      }
      if metricVerdict == Fail {
        verdict := Fail;
      } else if metricVerdict == Warn && verdict != Fail {
        verdict := Warn;
      }
    }
    assert gateRules[..|gateRules|] == gateRules;
    assert Sound(gateRules) && Raw(gateRules) == rules.entries;
    return Ok((verdict, reasons));
  }

  predicate Covers(metrics: map<string, Deltas>, rules: seq<(string, Rule)>) {
    forall k | 0 <= k < |rules| :: rules[k].0 in metrics
  }

  /** The gate is exactly as severe as its most severe metric. */
  lemma {:induction false} VerdictIsMaximum(metrics: map<string, Deltas>, rules: seq<(string, Rule)>, level: nat)
    requires Covers(metrics, rules)
    ensures VerdictOf(metrics, rules).Severity() <= level <==>
      (forall k | 0 <= k < |rules| :: MetricVerdict(metrics[rules[k].0], rules[k].1).Severity() <= level)
  {
    if rules == [] {
    } else {
      var n := |rules| - 1;
      VerdictIsMaximum(metrics, rules[..n], level);
      assert forall k | 0 <= k < n :: rules[..n][k] == rules[k];
    }
  }

  function ReasonFor(metrics: map<string, Deltas>, entry: (string, Rule)): Option<Reason>
    requires entry.0 in metrics
  {
    var verdict := MetricVerdict(metrics[entry.0], entry.1);
    if verdict.Pass? then None else Some(Reason(entry.0, verdict, entry.1.tolerance, metrics[entry.0].point))
  }

  /** The reasons name exactly the metrics that did not pass, each with its own verdict and delta. */
  lemma {:induction false} ReasonsAreExact(metrics: map<string, Deltas>, rules: seq<(string, Rule)>, reason: Reason)
    requires Covers(metrics, rules)
    ensures reason in ReasonsOf(metrics, rules) <==>
      (exists k | 0 <= k < |rules| :: ReasonFor(metrics, rules[k]) == Some(reason))
  {
    if rules == [] {
    } else {
      var n := |rules| - 1;
      ReasonsAreExact(metrics, rules[..n], reason);
      assert forall k | 0 <= k < n :: rules[..n][k] == rules[k];
      if ReasonFor(metrics, rules[n]) == Some(reason) {
        assert reason in ReasonsOf(metrics, rules);
      }
    }
  }

  lemma MemberIffCounted<T>(s: seq<T>, x: T)
    ensures x in s <==> x in multiset(s)
  {
  }

  lemma SameMembers(a: seq<(string, Rule)>, b: seq<(string, Rule)>, k: nat) returns (j: nat)
    requires multiset(a) == multiset(b) && k < |a|
    ensures j < |b| && b[j] == a[k]
  {
    MemberIffCounted(a, a[k]);
    MemberIffCounted(b, a[k]);
    j :| 0 <= j < |b| && b[j] == a[k];
  }

  lemma NoWorse(metrics: map<string, Deltas>, a: seq<(string, Rule)>, b: seq<(string, Rule)>)
    requires Covers(metrics, a) && Covers(metrics, b) && multiset(a) == multiset(b)
    ensures VerdictOf(metrics, a).Severity() <= VerdictOf(metrics, b).Severity()
  {
    var level := VerdictOf(metrics, b).Severity();
    VerdictIsMaximum(metrics, b, level);
    forall k | 0 <= k < |a| ensures MetricVerdict(metrics[a[k].0], a[k].1).Severity() <= level {
      var j := SameMembers(a, b, k);
    }
    VerdictIsMaximum(metrics, a, level);
  }

  /** The order in which rules are stored does not matter. */
  lemma OrderIndependent(metrics: map<string, Deltas>, a: seq<(string, Rule)>, b: seq<(string, Rule)>)
    requires Covers(metrics, a) && Covers(metrics, b) && multiset(a) == multiset(b)
    ensures VerdictOf(metrics, a) == VerdictOf(metrics, b)
    ensures forall reason :: reason in ReasonsOf(metrics, a) <==> reason in ReasonsOf(metrics, b)
  {
    NoWorse(metrics, a, b);
    NoWorse(metrics, b, a);
    forall reason ensures reason in ReasonsOf(metrics, a) <==> reason in ReasonsOf(metrics, b) {
      ReasonsAreExact(metrics, a, reason);
      ReasonsAreExact(metrics, b, reason);
      if k :| 0 <= k < |a| && ReasonFor(metrics, a[k]) == Some(reason) { var j := SameMembers(a, b, k); }
      if k :| 0 <= k < |b| && ReasonFor(metrics, b[k]) == Some(reason) { var j := SameMembers(b, a, k); }
    }
  }

  predicate Looser(strict: seq<(string, Rule)>, loose: seq<(string, Rule)>) {
    && |strict| == |loose|
    && forall k | 0 <= k < |strict| ::
      && strict[k].0 == loose[k].0
      && strict[k].1.direction == loose[k].1.direction
      && strict[k].1.tolerance <= loose[k].1.tolerance
  }

  /** Raising tolerances never worsens the verdict. */
  lemma TolerancesOnlyForgive(metrics: map<string, Deltas>, strict: seq<(string, Rule)>, loose: seq<(string, Rule)>)
    requires Looser(strict, loose) && Covers(metrics, strict) && Covers(metrics, loose)
    ensures VerdictOf(metrics, loose).Severity() <= VerdictOf(metrics, strict).Severity()
  {
    var level := VerdictOf(metrics, strict).Severity();
    VerdictIsMaximum(metrics, strict, level);
    forall k | 0 <= k < |loose| ensures MetricVerdict(metrics[loose[k].0], loose[k].1).Severity() <= level {
      assert MetricVerdict(metrics[strict[k].0], strict[k].1).Severity() <= level;
    }
    VerdictIsMaximum(metrics, loose, level);
  }
}
