/** Two readings of a run's tables: the samples the comparison judges and the numbers the dashboard
    shows, written independently of each other. */
module MetricSamples {
  import opened Options
  import opened Sequences
  import opened RunTables
  import opened WorkerEvidence
  import opened WorkerProtocol
  import opened WorkerSafety
  import opened WorkerTheorems
  import opened RunReadings
  import opened CaseOrder
  import opened Sorting
  import opened Statistics
  import opened Rounding
  import opened Gates
  import Comparison
  import opened GateSoundness

  const SIMILARITY_NAMES: seq<string> := ["token_f1_overlap", "semantic_similarity"]

  // ---- Per-item measurements ----

  predicate Applicable(row: EvalRow) {
    !row.skipped && !row.errored && row.passed.Some?
  }

  /** 1 when some evaluator applies, none errored and all that apply passed. */
  function PassValue(rows: seq<EvalRow>): real {
    if (exists row | row in rows :: Applicable(row))
      && !(exists row | row in rows :: row.errored)
      && (forall row | row in rows :: Applicable(row) ==> row.passed.value)
    then 1.0 else 0.0
  }

  function PassOf(reading: Reading): Option<real> {
    Some(PassValue(reading.rows))
  }

  function LatencyOf(reading: Reading): Option<real> {
    if reading.latencyMs.Some? then Some(reading.latencyMs.value as real) else None
  }

  function CostOf(reading: Reading): Option<real> {
    reading.costUsd
  }

  /** A row the comparison accepts as a similarity sample. */
  predicate Similarity(row: EvalRow) {
    row.evaluator in SIMILARITY_NAMES && row.score.Some? && !row.errored && !row.skipped
  }

  /** The comparison overwrites, so the last accepted row wins. */
  function LastSimilarity(rows: seq<EvalRow>): Option<real> {
    if rows == [] then None
    else
      var last := rows[|rows| - 1];
      if Similarity(last) then last.score else LastSimilarity(rows[..|rows| - 1])
  }

  function ComparisonSimilarity(reading: Reading): Option<real> {
    LastSimilarity(reading.rows)
  }

  function FindResult(rows: seq<EvalRow>, name: string): Option<EvalRow> {
    if rows == [] then None
    else if rows[0].evaluator == name then Some(rows[0])
    else FindResult(rows[1..], name)
  }

  /** The dashboard prefers the token overlap row, whatever its flags. */
  function ShownSimilarity(rows: seq<EvalRow>): Option<real> {
    var overlap := FindResult(rows, "token_f1_overlap");
    if overlap.Some? then overlap.value.score
    else
      var semantic := FindResult(rows, "semantic_similarity");
      if semantic.Some? then semantic.value.score else None
  }

  function DashboardSimilarity(reading: Reading): Option<real> {
    ShownSimilarity(reading.rows)
  }

  // ---- The comparison's collector ----

  /** Case by case, the last value written. */
  function SampleMap(view: seq<Reading>, f: Reading -> Option<real>): map<CaseId, real> {
    if view == [] then map[]
    else
      SampleStep(SampleMap(view[..|view| - 1], f), view[|view| - 1], f)
  }

  function SampleStep(samples: map<CaseId, real>, item: Reading, f: Reading -> Option<real>): map<CaseId, real> {
    if f(item).Some? then samples[item.caseId := f(item).value] else samples
  }

  function SampleOf(metric: string): Reading -> Option<real> {
    if metric == "pass_rate" then PassOf
    else if metric == "semantic_similarity" then ComparisonSimilarity
    else if metric == "p95_latency_ms" then LatencyOf
    else CostOf
  }

  lemma LastSimilarityStep(rows: seq<EvalRow>, k: nat)
    requires k < |rows|
    ensures LastSimilarity(rows[..k + 1]) == if Similarity(rows[k]) then rows[k].score else LastSimilarity(rows[..k])
  {
    assert rows[..k + 1][..k] == rows[..k];
  }

  function WithSimilarity(samples: map<CaseId, real>, c: CaseId, score: Option<real>): map<CaseId, real> {
    if score.Some? then samples[c := score.value] else samples
  }

  /** The metric maps of a run; a metric without samples has no entry. */
  ghost predicate Collected(view: seq<Reading>, samples: map<string, Comparison.Samples>) {
    forall metric | metric in METRICS ::
      && (metric in samples <==> SampleMap(view, SampleOf(metric)) != map[])
      && (metric in samples ==> samples[metric] == Comparison.ByCase(SampleMap(view, SampleOf(metric))))
  }

  /** `collect_run_metric_samples`. */
  method CollectRunMetricSamples(view: seq<Reading>) returns (samples: map<string, Comparison.Samples>)
    ensures Collected(view, samples)
  {
    var passRate: map<CaseId, real>, similarity: map<CaseId, real> := map[], map[];
    var latency: map<CaseId, real>, cost: map<CaseId, real> := map[], map[];
    for k := 0 to |view|
      invariant passRate == SampleMap(view[..k], PassOf)
      invariant similarity == SampleMap(view[..k], ComparisonSimilarity)
      invariant latency == SampleMap(view[..k], LatencyOf)
      invariant cost == SampleMap(view[..k], CostOf)
    {
      hide PassValue, LastSimilarity, Similarity;
      var item := view[k];
      assert view[..k + 1][..k] == view[..k];
      passRate := passRate[item.caseId := PassValue(item.rows)];
      if item.latencyMs.Some? {
        latency := latency[item.caseId := item.latencyMs.value as real];
      }
      if item.costUsd.Some? {
        cost := cost[item.caseId := item.costUsd.value];
      }
      similarity := AddSimilarity(item, similarity);
    }
    assert view[..|view|] == view;
    samples := Entry(Entry(Entry(Entry(map[], "pass_rate", passRate), "p95_latency_ms", latency),
      "cost_mean_usd", cost), "semantic_similarity", similarity);
    EntriesAreCollected(view);
  }

  function Entry(samples: map<string, Comparison.Samples>, metric: string, values: map<CaseId, real>):
      map<string, Comparison.Samples> {
    if values == map[] then samples else samples[metric := Comparison.ByCase(values)]
  }

  lemma EntriesAreCollected(view: seq<Reading>)
    ensures Collected(view, Entry(Entry(Entry(Entry(map[],
      "pass_rate", SampleMap(view, PassOf)), "p95_latency_ms", SampleMap(view, LatencyOf)),
      "cost_mean_usd", SampleMap(view, CostOf)), "semantic_similarity", SampleMap(view, ComparisonSimilarity)))
  {
    hide SampleMap;
  }

  /** The inner loop over an item's rows. */
  method AddSimilarity(item: Reading, samples: map<CaseId, real>) returns (similarity: map<CaseId, real>)
    ensures similarity == WithSimilarity(samples, item.caseId, LastSimilarity(item.rows))
  {
    similarity := samples;
    for j := 0 to |item.rows|
      invariant similarity == WithSimilarity(samples, item.caseId, LastSimilarity(item.rows[..j]))
    {
      LastSimilarityStep(item.rows, j);
      if Similarity(item.rows[j]) {
        similarity := similarity[item.caseId := item.rows[j].score.value];
      }
    }
    assert item.rows[..|item.rows|] == item.rows;
  }

  // ---- The dashboard's collector ----

  datatype DisplaySamples = DisplaySamples(
    casePasses: seq<real>, semanticScores: seq<real>, latencies: seq<real>, costs: seq<real>)

  /** `_collect_run_display_samples`. */
  method CollectRunDisplaySamples(view: seq<Reading>) returns (samples: DisplaySamples)
    ensures samples.casePasses == Gather(view, PassOf)
    ensures samples.semanticScores == Gather(view, DashboardSimilarity)
    ensures samples.latencies == Gather(view, LatencyOf)
    ensures samples.costs == Gather(view, CostOf)
  {
    samples := DisplaySamples([], [], [], []);
    for k := 0 to |view|
      invariant samples == DisplaySamples(
        Gather(view[..k], PassOf), Gather(view[..k], DashboardSimilarity),
        Gather(view[..k], LatencyOf), Gather(view[..k], CostOf))
    {
      hide PassValue, ShownSimilarity, Gather;
      var item := view[k];
      GatherStep(view, k, PassOf);
      GatherStep(view, k, DashboardSimilarity);
      GatherStep(view, k, LatencyOf);
      GatherStep(view, k, CostOf);
      samples := samples.(casePasses := samples.casePasses + [PassValue(item.rows)]);
      var semantic := ShownSimilarity(item.rows);
      if semantic.Some? {
        samples := samples.(semanticScores := samples.semanticScores + [semantic.value]);
      }
      if item.latencyMs.Some? {
        samples := samples.(latencies := samples.latencies + [item.latencyMs.value as real]);
      }
      if item.costUsd.Some? {
        samples := samples.(costs := samples.costs + [item.costUsd.value]);
      }
    }
    assert view[..|view|] == view;
  }

  // ---- Sample maps and lists ----

  function SampledCase(f: Reading -> Option<real>): Reading -> Option<CaseId> {
    (reading: Reading) => if f(reading).Some? then Some(reading.caseId) else None
  }

  lemma {:induction false} GatheredKeys(view: seq<Reading>, f: Reading -> Option<real>)
    requires Increasing(Cases(view))
    ensures var keys := Gather(view, SampledCase(f));
      && Increasing(keys)
      && (forall c :: c in keys <==> c in SampleMap(view, f))
      && (forall c | c in keys :: c in Cases(view))
  {
    if view == [] {
    } else {
      var n := |view| - 1;
      var rest, last := view[..n], view[n];
      assert view == rest + [last];
      assert Cases(rest) == Cases(view)[..n];
      GatheredKeys(rest, f);
      GatherAppend(rest, [last], SampledCase(f));
      GatherOne(last, SampledCase(f));
      forall c | c in Cases(rest) ensures c < last.caseId && c in Cases(view) {
        var j :| 0 <= j < n && Cases(rest)[j] == c;
        assert Cases(view)[j] == c;
        assert Cases(view)[n] == last.caseId;
      }
      assert Cases(view)[n] == last.caseId;
      KeysGrow(Gather(rest, SampledCase(f)), last.caseId);
    }
  }

  lemma KeysGrow(keys: seq<CaseId>, c: CaseId)
    requires Increasing(keys) && forall d | d in keys :: d < c
    ensures Increasing(keys + [c])
  {
    forall j, k | 0 <= j < k < |keys + [c]| ensures (keys + [c])[j] < (keys + [c])[k] {
      if k == |keys| { assert keys[j] in keys; }
    }
  }

  predicate KeyedIn(keys: seq<CaseId>, samples: map<CaseId, real>) {
    forall k | 0 <= k < |keys| :: keys[k] in samples
  }

  lemma KeyedByMembers(keys: seq<CaseId>, samples: map<CaseId, real>)
    requires forall c | c in keys :: c in samples
    ensures KeyedIn(keys, samples)
  {
  }

  lemma LookupUnaffected(samples: map<CaseId, real>, keys: seq<CaseId>, c: CaseId, v: real)
    requires KeyedIn(keys, samples) && forall d | d in keys :: d != c
    ensures KeyedIn(keys, samples[c := v])
    ensures Lookup(samples[c := v], keys) == Lookup(samples, keys)
    ensures KeyedIn(keys + [c], samples[c := v])
    ensures Lookup(samples[c := v], keys + [c]) == Lookup(samples, keys) + [v]
  {
    forall k | 0 <= k < |keys| ensures keys[k] in samples[c := v] && samples[c := v][keys[k]] == samples[keys[k]] {
      assert keys[k] in keys;
    }
  }

  lemma {:induction false} GatheredValues(view: seq<Reading>, f: Reading -> Option<real>)
    requires Increasing(Cases(view))
    ensures var keys := Gather(view, SampledCase(f));
      KeyedIn(keys, SampleMap(view, f)) && Lookup(SampleMap(view, f), keys) == Gather(view, f)
  {
    GatheredKeys(view, f);
    KeyedByMembers(Gather(view, SampledCase(f)), SampleMap(view, f));
    if view == [] {
    } else {
      var n := |view| - 1;
      var rest, last := view[..n], view[n];
      assert view == rest + [last];
      assert Cases(rest) == Cases(view)[..n];
      GatheredValues(rest, f);
      GatherAppend(rest, [last], f);
      GatherOne(last, f);
      GatherAppend(rest, [last], SampledCase(f));
      GatherOne(last, SampledCase(f));
      var keys := Gather(rest, SampledCase(f));
      if f(last).Some? {
        GatheredKeys(rest, f);
        forall d | d in keys ensures d != last.caseId { BeforeLast(view, d); }
        LookupUnaffected(SampleMap(rest, f), keys, last.caseId, f(last).value);
      }
    }
  }

  lemma BeforeLast(view: seq<Reading>, c: CaseId)
    requires view != [] && Increasing(Cases(view)) && c in Cases(view[..|view| - 1])
    ensures c < view[|view| - 1].caseId
  {
    var n := |view| - 1;
    var j :| 0 <= j < n && Cases(view[..n])[j] == c;
    assert Cases(view)[j] == c && Cases(view)[n] == view[n].caseId;
  }

  /** Read in case order, the sorted values of the sample map are the values gathered one by one. */
  lemma SampleMapGathers(view: seq<Reading>, f: Reading -> Option<real>)
    requires Increasing(Cases(view))
    ensures Comparison.SampleValues(Comparison.ByCase(SampleMap(view, f))) == Gather(view, f)
  {
    hide SampleMap;
    GatheredKeys(view, f);
    GatheredValues(view, f);
    IncreasingUnique(Ascending(SampleMap(view, f).Keys), Gather(view, SampledCase(f)));
  }

  predicate CaseOrdered(view: seq<Reading>) {
    forall j, k | 0 <= j < k < |view| :: view[j].caseId <= view[k].caseId
  }

  /** `order_by(case_id)` is strict because a run holds a case once. */
  lemma OrderedByCase(view: seq<Reading>, db: Db, r: RunId)
    requires Reads(view, db, r) && CaseOrdered(view) && CasesUnique(db.items)
    ensures Increasing(Cases(view))
  {
    forall j, k | 0 <= j < k < |view| ensures Cases(view)[j] < Cases(view)[k] {
      assert Ids(view)[j] != Ids(view)[k];
      assert view[j].id in ItemsOf(db, r) && view[k].id in ItemsOf(db, r);
      assert Reordered(view[j], Stored(db, view[j].id)) && Reordered(view[k], Stored(db, view[k].id));
    }
  }

  // ---- Statistics of rearranged samples ----

  lemma {:induction false} SumInsert(x: real, s: seq<real>)
    ensures Sum(Insert(x, s, RealLe)) == x + Sum(s)
  {
    if s == [] || RealLe(x, s[0]) {
      assert Insert(x, s, RealLe)[1..] == s;
    } else {
      SumInsert(x, s[1..]);
      assert Insert(x, s, RealLe)[1..] == Insert(x, s[1..], RealLe);
    }
  }

  lemma {:induction false} SumSort(s: seq<real>)
    ensures Sum(Sort(s, RealLe)) == Sum(s)
  {
    if s == [] {
    } else {
      SumSort(s[1..]);
      SumInsert(s[0], Sort(s[1..], RealLe));
    }
  }

  lemma AveragePermutation(a: seq<real>, b: seq<real>)
    requires multiset(a) == multiset(b)
    ensures Average(a) == Average(b)
  {
    RealLeOrders();
    SortPermutation(a, b, RealLe);
    SumSort(a);
    SumSort(b);
    SameSize(a, b);
  }

  // ---- Similarity: when the two rules agree ----

  lemma {:induction false} FoundIs(rows: seq<EvalRow>, name: string)
    ensures FindResult(rows, name).Some? ==>
      FindResult(rows, name).value in rows && FindResult(rows, name).value.evaluator == name
    ensures FindResult(rows, name).None? ==> forall row | row in rows :: row.evaluator != name
  {
    if rows != [] && rows[0].evaluator != name { FoundIs(rows[1..], name); }
  }

  lemma OneNamed(rows: seq<EvalRow>, x: EvalRow, y: EvalRow)
    requires DistinctNames(rows) && x in rows && y in rows && x.evaluator == y.evaluator
    ensures x == y
  {
  }

  lemma SameRows(a: seq<EvalRow>, b: seq<EvalRow>)
    requires multiset(a) == multiset(b)
    ensures forall row :: row in a <==> row in b
  {
    forall row ensures row in a <==> row in b {
      assert row in a <==> row in multiset(a);
      assert row in b <==> row in multiset(b);
    }
  }

  /** With distinct names the dashboard's pick does not depend on the order of the rows. */
  lemma FindUnordered(a: seq<EvalRow>, b: seq<EvalRow>, name: string)
    requires multiset(a) == multiset(b) && DistinctNames(b)
    ensures FindResult(a, name) == FindResult(b, name)
  {
    SameRows(a, b);
    FoundIs(a, name);
    FoundIs(b, name);
    if FindResult(a, name).Some? && FindResult(b, name).Some? {
      OneNamed(b, FindResult(a, name).value, FindResult(b, name).value);
    }
  }

  lemma {:induction false} LastIs(rows: seq<EvalRow>)
    ensures LastSimilarity(rows).None? ==> forall row | row in rows :: !Similarity(row)
    ensures LastSimilarity(rows).Some? ==>
      exists row | row in rows :: Similarity(row) && row.score == LastSimilarity(rows)
  {
    if rows == [] {
    } else {
      var n := |rows| - 1;
      assert rows == rows[..n] + [rows[n]];
      if Similarity(rows[n]) { assert rows[n] in rows; } else { LastIs(rows[..n]); }
    }
  }

  /** A row the comparison samples, by its fields. */
  predicate Accepts(row: EvalRow) {
    && row.evaluator in {"semantic_similarity", "token_f1_overlap"}
    && row.score.Some? && !row.errored && !row.skipped
  }

  /** The comparison samples the last acceptable row, whatever stands before it; none without such a row. */
  lemma {:induction false} LastAcceptedWins(rows: seq<EvalRow>, k: nat)
    requires k <= |rows| && forall j | k <= j < |rows| :: !Accepts(rows[j])
    ensures k > 0 && Accepts(rows[k - 1]) ==> LastSimilarity(rows) == rows[k - 1].score
    ensures k == 0 ==> LastSimilarity(rows) == None
  {
    if rows == [] {
    } else {
      var n := |rows| - 1;
      assert Accepts(rows[n]) <==> Similarity(rows[n]) by {
        assert SIMILARITY_NAMES[0] == "token_f1_overlap" && SIMILARITY_NAMES[1] == "semantic_similarity";
      }
      if k <= n { LastAcceptedWins(rows[..n], k); }
    }
  }

  /** The dashboard shows the first overlap row's score, and the first semantic row's only without one. */
  lemma {:induction false} FirstOverlapShown(rows: seq<EvalRow>, k: nat)
    requires k < |rows|
    ensures rows[k].evaluator == "token_f1_overlap"
      && (forall j | 0 <= j < k :: rows[j].evaluator != "token_f1_overlap")
      ==> ShownSimilarity(rows) == rows[k].score
    ensures rows[k].evaluator == "semantic_similarity"
      && (forall j | 0 <= j < k :: rows[j].evaluator != "semantic_similarity")
      && (forall j | 0 <= j < |rows| :: rows[j].evaluator != "token_f1_overlap")
      ==> ShownSimilarity(rows) == rows[k].score
  {
    FirstFound(rows, "token_f1_overlap", k);
    FirstFound(rows, "semantic_similarity", k);
    FoundIs(rows, "token_f1_overlap");
  }

  lemma {:induction false} FirstFound(rows: seq<EvalRow>, name: string, k: nat)
    requires k < |rows|
    ensures rows[k].evaluator == name && (forall j | 0 <= j < k :: rows[j].evaluator != name)
      ==> FindResult(rows, name) == Some(rows[k])
  {
    if k > 0 { FirstFound(rows[1..], name, k - 1); }
  }

  function Sampled(row: Option<EvalRow>): Option<real> {
    if row.Some? && Similarity(row.value) then row.value.score else None
  }

  /** The score shown is one the comparison accepts, and no other score is accepted. */
  predicate SimilarityClear(rows: seq<EvalRow>) {
    var overlap := FindResult(rows, "token_f1_overlap");
    var semantic := FindResult(rows, "semantic_similarity");
    && (overlap.Some? ==>
      && (Sampled(overlap) == overlap.value.score || Sampled(semantic) == overlap.value.score)
      && (Sampled(semantic).None? || Sampled(semantic) == overlap.value.score))
    && (overlap.None? && semantic.Some? ==> Sampled(semantic) == semantic.value.score)
  }

  lemma ClearAgrees(rows: seq<EvalRow>, read: seq<EvalRow>)
    requires DistinctNames(rows) && multiset(read) == multiset(rows) && SimilarityClear(rows)
    ensures LastSimilarity(read) == ShownSimilarity(rows)
  {
    SameRows(read, rows);
    FoundIs(rows, "token_f1_overlap");
    FoundIs(rows, "semantic_similarity");
    LastIs(read);
    if LastSimilarity(read).Some? {
      var row :| row in read && Similarity(row) && row.score == LastSimilarity(read);
      var found := FindResult(rows, row.evaluator);
      assert row.evaluator == "token_f1_overlap" || row.evaluator == "semantic_similarity";
      OneNamed(rows, row, found.value);
    }
  }

  lemma MoveLast(rows: seq<EvalRow>, row: EvalRow) returns (read: seq<EvalRow>)
    requires row in rows
    ensures multiset(read) == multiset(rows) && read != [] && read[|read| - 1] == row
  {
    var j :| 0 <= j < |rows| && rows[j] == row;
    PullFront(rows, j);
    read := rows[..j] + rows[j + 1..] + [row];
  }

  lemma NoneSampled(rows: seq<EvalRow>)
    requires Sampled(FindResult(rows, "token_f1_overlap")).None?
    requires Sampled(FindResult(rows, "semantic_similarity")).None? && DistinctNames(rows)
    ensures LastSimilarity(rows).None?
  {
    FoundIs(rows, "token_f1_overlap");
    FoundIs(rows, "semantic_similarity");
    forall row | row in rows ensures !Similarity(row) {
      if row.evaluator in SIMILARITY_NAMES {
        assert row.evaluator == "token_f1_overlap" || row.evaluator == "semantic_similarity";
        OneNamed(rows, row, FindResult(rows, row.evaluator).value);
      }
    }
    LastIs(rows);
  }

  lemma UnclearDisagrees(rows: seq<EvalRow>) returns (read: seq<EvalRow>)
    requires DistinctNames(rows) && !SimilarityClear(rows)
    ensures multiset(read) == multiset(rows) && LastSimilarity(read) != ShownSimilarity(rows)
  {
    var overlap := FindResult(rows, "token_f1_overlap");
    var semantic := FindResult(rows, "semantic_similarity");
    FoundIs(rows, "token_f1_overlap");
    FoundIs(rows, "semantic_similarity");
    if Sampled(semantic).Some? && Sampled(semantic) != ShownSimilarity(rows) {
      read := MoveLast(rows, semantic.value);
    } else {
      read := rows;
      NoneSampled(rows);
    }
  }

  /** The dashboard and the comparison agree on an item's similarity, whatever order its rows are read
      in, exactly when its lexical rows are clear. */
  lemma SimilarityAgreesExactly(rows: seq<EvalRow>)
    requires DistinctNames(rows)
    ensures (forall read | multiset(read) == multiset(rows) :: LastSimilarity(read) == ShownSimilarity(rows))
      <==> SimilarityClear(rows)
  {
    hide LastSimilarity, ShownSimilarity, SimilarityClear, FindResult;
    if SimilarityClear(rows) {
      forall read | multiset(read) == multiset(rows) ensures LastSimilarity(read) == ShownSimilarity(rows) {
        ClearAgrees(rows, read);
      }
    } else {
      var read := UnclearDisagrees(rows);
    }
  }

  /** One lexical evaluator whose errored and skipped results carry no score is always clear. */
  lemma OneLexicalEvaluatorIsClear(rows: seq<EvalRow>)
    requires FindResult(rows, "token_f1_overlap").None? || FindResult(rows, "semantic_similarity").None?
    requires forall row | row in rows :: row.errored || row.skipped ==> row.score.None?
    ensures SimilarityClear(rows)
  {
    FoundIs(rows, "token_f1_overlap");
    FoundIs(rows, "semantic_similarity");
  }

  // ---- The two implementations agree ----

  lemma PassOrderFree(db: Db, r: RunId)
    ensures OrderFree(PassOf, db, r)
  {
    forall reading: Reading | reading.id in ItemsOf(db, r) && Reordered(reading, Stored(db, reading.id))
      ensures PassOf(reading) == PassOf(Stored(db, reading.id))
    {
      SameRows(reading.rows, Stored(db, reading.id).rows);
    }
  }

  predicate EvaluatorsDistinct(db: Db, r: RunId) {
    forall i | i in ItemsOf(db, r) :: DistinctNames(Stored(db, i).rows)
  }

  predicate AllClear(db: Db, r: RunId) {
    forall i | i in ItemsOf(db, r) :: SimilarityClear(Stored(db, i).rows)
  }

  lemma SimilarityOrderFree(db: Db, r: RunId)
    requires EvaluatorsDistinct(db, r)
    ensures OrderFree(DashboardSimilarity, db, r)
    ensures AllClear(db, r) ==> OrderFree(ComparisonSimilarity, db, r)
    ensures AllClear(db, r) ==>
      forall i | i in ItemsOf(db, r) :: ComparisonSimilarity(Stored(db, i)) == DashboardSimilarity(Stored(db, i))
  {
    hide Stored, LastSimilarity, SimilarityClear, FindResult, DistinctNames;
    forall reading: Reading | reading.id in ItemsOf(db, r) && Reordered(reading, Stored(db, reading.id))
      ensures DashboardSimilarity(reading) == DashboardSimilarity(Stored(db, reading.id))
      ensures AllClear(db, r) ==> ComparisonSimilarity(reading) == ComparisonSimilarity(Stored(db, reading.id))
    {
      var stored := Stored(db, reading.id).rows;
      FindUnordered(reading.rows, stored, "token_f1_overlap");
      FindUnordered(reading.rows, stored, "semantic_similarity");
      if AllClear(db, r) {
        ClearAgrees(stored, reading.rows);
        ClearAgrees(stored, stored);
      }
    }
    if AllClear(db, r) {
      forall i | i in ItemsOf(db, r) ensures ComparisonSimilarity(Stored(db, i)) == DashboardSimilarity(Stored(db, i)) {
        ClearAgrees(Stored(db, i).rows, Stored(db, i).rows);
      }
    }
  }

  /** What the comparison's sample values are, as a list. */
  function Judged(view: seq<Reading>, metric: string): seq<real> {
    Comparison.SampleValues(Comparison.ByCase(SampleMap(view, SampleOf(metric))))
  }

  /** Read by the comparison in case order and by the dashboard in any order, the same tables give the
      same pass rate, p95 latency and mean cost before rounding; and the same similarity when every
      item's lexical rows are clear. */
  lemma DashboardAgreesWithComparison(db: Db, r: RunId, judged: seq<Reading>, shown: seq<Reading>)
    requires Reads(judged, db, r) && CaseOrdered(judged) && Reads(shown, db, r)
    requires CasesUnique(db.items) && EvaluatorsDistinct(db, r)
    ensures Average(Gather(shown, PassOf)) == Average(Judged(judged, "pass_rate"))
    ensures Percentile(Gather(shown, LatencyOf), 0.95) == Percentile(Judged(judged, "p95_latency_ms"), 0.95)
    ensures Average(Gather(shown, CostOf)) == Average(Judged(judged, "cost_mean_usd"))
    ensures AllClear(db, r) ==>
      Average(Gather(shown, DashboardSimilarity)) == Average(Judged(judged, "semantic_similarity"))
  {
    hide SampleMap, Gather, Comparison.SampleValues, Stored, Average, Percentile, AllClear, Increasing, PassValue,
         ShownSimilarity, LastSimilarity, ItemsOf, Reads, OrderFree;
    OrderedByCase(judged, db, r);
    SampleMapGathers(judged, PassOf);
    SampleMapGathers(judged, LatencyOf);
    SampleMapGathers(judged, CostOf);
    SampleMapGathers(judged, ComparisonSimilarity);
    PassOrderFree(db, r);
    PlainOrderFree(db, r);
    SimilarityOrderFree(db, r);
    ReadingsAgree(db, r, shown, judged, PassOf, PassOf);
    ReadingsAgree(db, r, shown, judged, LatencyOf, LatencyOf);
    ReadingsAgree(db, r, shown, judged, CostOf, CostOf);
    AveragePermutation(Gather(shown, PassOf), Gather(judged, PassOf));
    PercentilePermutation(Gather(shown, LatencyOf), Gather(judged, LatencyOf), 0.95);
    AveragePermutation(Gather(shown, CostOf), Gather(judged, CostOf));
    if AllClear(db, r) {
      ReadingsAgree(db, r, shown, judged, DashboardSimilarity, ComparisonSimilarity);
      AveragePermutation(Gather(shown, DashboardSimilarity), Gather(judged, ComparisonSimilarity));
    }
  }

  lemma PlainOrderFree(db: Db, r: RunId)
    ensures OrderFree(LatencyOf, db, r) && OrderFree(CostOf, db, r)
  {
    hide Stored;
  }

  // ---- What the columns hold ----

  /** The values of a reading fit their columns. */
  predicate Fits(reading: Reading) {
    && (reading.latencyMs.Some? ==> ColumnOf("p95_latency_ms").Holds(reading.latencyMs.value as real))
    && (reading.costUsd.Some? ==> ColumnOf("cost_mean_usd").Holds(reading.costUsd.value))
    && forall row | row in reading.rows :: Similarity(row) ==> ColumnOf("semantic_similarity").Holds(row.score.value)
  }

  lemma SampleFits(reading: Reading, metric: string)
    requires Fits(reading) && metric in METRICS && SampleOf(metric)(reading).Some?
    ensures ColumnOf(metric).Holds(SampleOf(metric)(reading).value)
  {
    LastIs(reading.rows);
    assert Whole(0.0) && Whole(1.0);
  }

  lemma {:induction false} SampleMapFits(view: seq<Reading>, metric: string)
    requires metric in METRICS && forall k | 0 <= k < |view| :: Fits(view[k])
    ensures Storable(metric, Comparison.ByCase(SampleMap(view, SampleOf(metric))))
  {
    if view == [] {
    } else {
      hide SampleOf, Fits, ColumnOf;
      var last := view[|view| - 1];
      SampleMapFits(view[..|view| - 1], metric);
      if SampleOf(metric)(last).Some? { SampleFits(last, metric); }
    }
  }

  /** What both collectors' runs hand to the gate are samples the columns hold, so its guarantees apply. */
  lemma CollectedSamplesAreStorable(baseline: seq<Reading>, candidate: seq<Reading>,
      baselineSamples: map<string, Comparison.Samples>, candidateSamples: map<string, Comparison.Samples>)
    requires Collected(baseline, baselineSamples) && Collected(candidate, candidateSamples)
    requires forall k | 0 <= k < |baseline| :: Fits(baseline[k])
    requires forall k | 0 <= k < |candidate| :: Fits(candidate[k])
    ensures StorableSamples(baselineSamples, candidateSamples)
  {
    hide SampleMap, SampleOf, Fits;
    forall metric | metric in METRICS
      ensures StorablePair(metric, Comparison.SamplesOf(baselineSamples, metric),
                         Comparison.SamplesOf(candidateSamples, metric))
    {
      SampleMapFits(baseline, metric);
      SampleMapFits(candidate, metric);
    }
  }

  // ---- From tables to verdict ----

  /** Read in case order, the map holds exactly each item's own value. */
  lemma {:induction false} SampleMapHolds(view: seq<Reading>, f: Reading -> Option<real>)
    requires Increasing(Cases(view))
    ensures forall k | 0 <= k < |view| && f(view[k]).Some? ::
      view[k].caseId in SampleMap(view, f) && SampleMap(view, f)[view[k].caseId] == f(view[k]).value
    ensures forall c | c in SampleMap(view, f) :: exists k | 0 <= k < |view| :: view[k].caseId == c && f(view[k]).Some?
  {
    if view == [] {
    } else {
      var n := |view| - 1;
      var rest := view[..n];
      assert Cases(rest) == Cases(view)[..n];
      SampleMapHolds(rest, f);
      forall k | 0 <= k < n ensures view[k].caseId != view[n].caseId && rest[k] == view[k] {
        assert Cases(view)[k] < Cases(view)[n];
      }
      assert SampleMap(view, f) == SampleStep(SampleMap(rest, f), view[n], f);
      hide SampleMap, Cases, Increasing;
      forall c | c in SampleMap(view, f) ensures exists k | 0 <= k < |view| :: view[k].caseId == c && f(view[k]).Some? {
        if c in SampleMap(rest, f) {
          var k :| 0 <= k < |rest| && rest[k].caseId == c && f(rest[k]).Some?;
          assert view[k].caseId == c;
        } else {
          assert view[n].caseId == c;
        }
      }
    }
  }

  /** The sample of a metric for a case: None when there is none. */
  function SampleAt(samples: map<string, Comparison.Samples>, metric: string, c: CaseId): Option<real> {
    if metric in samples && samples[metric].ByCase? && c in samples[metric].values
    then Some(samples[metric].values[c]) else None
  }

  lemma SampleAtIs(view: seq<Reading>, samples: map<string, Comparison.Samples>, metric: string, k: nat)
    requires Increasing(Cases(view)) && Collected(view, samples) && metric in METRICS && k < |view|
    ensures SampleAt(samples, metric, view[k].caseId) == SampleOf(metric)(view[k])
  {
    var f, c := SampleOf(metric), view[k].caseId;
    hide SampleOf, SampleMap;
    SampleMapHolds(view, f);
    if c in SampleMap(view, f) {
      var j :| 0 <= j < |view| && view[j].caseId == c && f(view[j]).Some?;
      assert Cases(view)[j] == c == Cases(view)[k];
    }
  }

  /** What the comparison holds for each item of a run: its pass value, and its recorded latency and cost
      and last accepted similarity, if any. */
  lemma SamplesAreRecorded(view: seq<Reading>, samples: map<string, Comparison.Samples>, k: nat)
    requires Increasing(Cases(view)) && Collected(view, samples) && k < |view|
    ensures
      var item := view[k];
      && SampleAt(samples, "pass_rate", item.caseId) == Some(PassValue(item.rows))
      && (item.latencyMs.Some? ==>
            SampleAt(samples, "p95_latency_ms", item.caseId) == Some(item.latencyMs.value as real))
      && (item.latencyMs.None? ==> SampleAt(samples, "p95_latency_ms", item.caseId) == None)
      && SampleAt(samples, "cost_mean_usd", item.caseId) == item.costUsd
      && SampleAt(samples, "semantic_similarity", item.caseId) == LastSimilarity(item.rows)
  {
    hide SampleAt, PassValue, Collected;
    assert METRICS[0] == "pass_rate" && METRICS[1] == "semantic_similarity" && METRICS[2] == "p95_latency_ms"
      && METRICS[3] == "cost_mean_usd";
    forall metric | metric in METRICS { SampleAtIs(view, samples, metric, k); }
  }

  /** Both runs hold the same, at least one, cases, which is checked before they are compared. */
  predicate EqualCases(baseline: seq<Reading>, candidate: seq<Reading>) {
    && baseline != [] && candidate != []
    && (forall j | 0 <= j < |baseline| :: baseline[j].caseId in Cases(candidate))
    && (forall k | 0 <= k < |candidate| :: candidate[k].caseId in Cases(baseline))
  }

  function PassSamples(view: seq<Reading>): Comparison.Samples {
    Comparison.ByCase(SampleMap(view, PassOf))
  }

  lemma PassKeys(view: seq<Reading>)
    requires Increasing(Cases(view))
    ensures forall c :: c in SampleMap(view, PassOf) <==> c in Cases(view)
  {
    SampleMapHolds(view, PassOf);
    forall c ensures c in SampleMap(view, PassOf) <==> c in Cases(view) {
      if c in SampleMap(view, PassOf) {
        var k :| 0 <= k < |view| && view[k].caseId == c && PassOf(view[k]).Some?;
        assert Cases(view)[k] == c;
      }
      if c in Cases(view) {
        var k :| 0 <= k < |view| && Cases(view)[k] == c;
        assert PassOf(view[k]).Some? && view[k].caseId == c;
      }
    }
  }

  /** Every item has a pass sample, so equal cases are paired completely. */
  lemma PassSamplesPaired(baseline: seq<Reading>, candidate: seq<Reading>)
    requires Increasing(Cases(baseline)) && Increasing(Cases(candidate)) && EqualCases(baseline, candidate)
    ensures Comparison.SameCases(PassSamples(baseline), PassSamples(candidate))
  {
    hide SampleMap;
    PassKeys(baseline);
    PassKeys(candidate);
    forall c ensures c in Cases(baseline) <==> c in Cases(candidate) { SameCaseMembers(baseline, candidate, c); }
    assert baseline[0].caseId == Cases(baseline)[0];
    assert baseline[0].caseId in PassSamples(baseline).values;
  }

  lemma SameCaseMembers(baseline: seq<Reading>, candidate: seq<Reading>, c: CaseId)
    requires EqualCases(baseline, candidate)
    ensures c in Cases(baseline) <==> c in Cases(candidate)
  {
    if c in Cases(baseline) { var j :| 0 <= j < |baseline| && Cases(baseline)[j] == c; }
    if c in Cases(candidate) { var k :| 0 <= k < |candidate| && Cases(candidate)[k] == c; }
  }

  predicate PassValuesRelated(baseline: seq<Reading>, candidate: seq<Reading>, related: (real, real) -> bool) {
    forall j, k | 0 <= j < |baseline| && 0 <= k < |candidate| && baseline[j].caseId == candidate[k].caseId ::
      related(PassValue(baseline[j].rows), PassValue(candidate[k].rows))
  }

  lemma RelatedPerCase(baseline: seq<Reading>, candidate: seq<Reading>, related: (real, real) -> bool)
    requires Increasing(Cases(baseline)) && Increasing(Cases(candidate)) && EqualCases(baseline, candidate)
    requires PassValuesRelated(baseline, candidate, related)
    ensures Comparison.SameCases(PassSamples(baseline), PassSamples(candidate))
    ensures forall c | c in PassSamples(baseline).values ::
      related(PassSamples(baseline).values[c], PassSamples(candidate).values[c])
  {
    hide SampleMap, PassValue;
    PassSamplesPaired(baseline, candidate);
    SampleMapHolds(baseline, PassOf);
    SampleMapHolds(candidate, PassOf);
    forall c | c in PassSamples(baseline).values
      ensures related(PassSamples(baseline).values[c], PassSamples(candidate).values[c])
    {
      var j :| 0 <= j < |baseline| && baseline[j].caseId == c && PassOf(baseline[j]).Some?;
      var k :| 0 <= k < |candidate| && candidate[k].caseId == c && PassOf(candidate[k]).Some?;
      assert PassOf(baseline[j]).Some? && PassOf(candidate[k]).Some?;
    }
  }

  /** From tables to verdict: if no case that passed fails now, the pass rate passes the gate, for any
      tolerance and any generator. */
  lemma NoCaseRegressedPasses(db: Db, b: RunId, c: RunId, baseline: seq<Reading>, candidate: seq<Reading>,
      tolerance: real, generator: Comparison.Generator)
    requires Reads(baseline, db, b) && CaseOrdered(baseline) && Reads(candidate, db, c) && CaseOrdered(candidate)
    requires CasesUnique(db.items) && EqualCases(baseline, candidate)
    requires tolerance >= 0.0 && Comparison.Draws(generator)
    requires PassValuesRelated(baseline, candidate, (x, y) => y >= x)
    ensures MetricVerdict(
      Comparison.ReportOf("pass_rate", PassSamples(baseline), PassSamples(candidate), generator).delta,
      Rule("higher_better", tolerance)) == Pass
  {
    hide SampleMap, PassValue, Reads, EqualCases, CaseOrdered, Comparison.ReportOf, MetricVerdict, Increasing;
    OrderedByCase(baseline, db, b);
    OrderedByCase(candidate, db, c);
    RelatedPerCase(baseline, candidate, (x, y) => y >= x);
    RoundFixesGrid(0.0);
    Comparison.MildChangesPass("pass_rate", Rule("higher_better", tolerance), PassSamples(baseline),
      PassSamples(candidate), generator, 0.0);
  }

  /** If every case passed and now fails, the gate fails for any tolerance below 1. */
  lemma EveryCaseRegressedFails(db: Db, b: RunId, c: RunId, baseline: seq<Reading>, candidate: seq<Reading>,
      tolerance: real, generator: Comparison.Generator)
    requires Reads(baseline, db, b) && CaseOrdered(baseline) && Reads(candidate, db, c) && CaseOrdered(candidate)
    requires CasesUnique(db.items) && EqualCases(baseline, candidate)
    requires 0.0 <= tolerance < 1.0 && Comparison.Draws(generator)
    requires PassValuesRelated(baseline, candidate, (x, y) => x == 1.0 && y == 0.0)
    ensures MetricVerdict(
      Comparison.ReportOf("pass_rate", PassSamples(baseline), PassSamples(candidate), generator).delta,
      Rule("higher_better", tolerance)) == Fail
  {
    hide SampleMap, PassValue, Reads, EqualCases, CaseOrdered, Comparison.ReportOf, MetricVerdict, Increasing;
    OrderedByCase(baseline, db, b);
    OrderedByCase(candidate, db, c);
    RelatedPerCase(baseline, candidate, (x, y) => x == 1.0 && y == 0.0);
    RoundFixesGrid(-1.0);
    Comparison.SevereChangesFail("pass_rate", Rule("higher_better", tolerance), PassSamples(baseline),
      PassSamples(candidate), generator, -1.0);
  }

  /** Every state the worker protocol reaches meets what the agreement asks of the tables. */
  lemma ReachableTablesQualify(world: World, ss: seq<Sys>, acts: seq<Action>, n: nat, r: RunId)
    requires SafeRun(world, ss, acts) && n < |ss|
    ensures CasesUnique(ss[n].db.items) && EvaluatorsDistinct(ss[n].db, r)
  {
    hide Behaviour, AllAssumed, ProgressAgrees, ExecInv, ChordInv, Exclusive, CasesUnique;
    Reachable(world, ss, acts, n);
    forall i | i in ItemsOf(ss[n].db, r) ensures DistinctNames(Stored(ss[n].db, i).rows) {
      EvidenceIffCompleted(world, ss, acts, n, i);
    }
  }
}
