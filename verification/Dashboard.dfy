/** The dashboard's failure list and tag breakdown, which count the same failures in separate passes. */
module Dashboard {
  import opened Options
  import opened Strings
  import opened Sequences
  import opened RunTables
  import opened RunReadings
  import opened Sorting
  import opened Rounding

  /** A case as the dashboard shows it: its external id, or its id when it has none, and its tags. */
  datatype CaseRecord = CaseRecord(shownId: string, tags: seq<string>)

  type CaseTable = map<CaseId, CaseRecord>

  datatype TraceCase = TraceCase(id: string, tag: string, evaluator: string)

  datatype TagRow = TagRow(tag: string, baselineCount: nat, candidateCount: nat, failureCount: nat, passRate: real)

  function FirstTag(tags: seq<string>): string {
    if tags == [] then "untagged" else tags[0]
  }

  predicate FailedRow(row: EvalRow) {
    (row.passed == Some(false) || row.errored) && !row.skipped
  }

  function FailedRows(rows: seq<EvalRow>): seq<EvalRow> {
    if rows == [] then []
    else (if FailedRow(rows[0]) then [rows[0]] else []) + FailedRows(rows[1..])
  }

  predicate ItemFailed(item: Reading) {
    (exists row | row in item.rows :: FailedRow(row)) || item.status.Failed()
  }

  lemma {:induction false} SomeFailedRow(rows: seq<EvalRow>)
    ensures FailedRows(rows) != [] <==> exists row | row in rows :: FailedRow(row)
  {
    if rows == [] {
    } else {
      SomeFailedRow(rows[1..]);
      assert rows == [rows[0]] + rows[1..];
      if FailedRow(rows[0]) { assert rows[0] in rows; }
    }
  }

  // ---- Per-item views ----

  /** The tag an item is counted under; items whose case is gone are not counted. */
  function TagOf(cases: CaseTable): Reading -> Option<string> {
    (item: Reading) => if item.caseId in cases then Some(FirstTag(cases[item.caseId].tags)) else None
  }

  function FailedTagOf(cases: CaseTable): Reading -> Option<string> {
    (item: Reading) =>
      if item.caseId in cases && ItemFailed(item) then Some(FirstTag(cases[item.caseId].tags)) else None
  }

  function TraceRow(record: CaseRecord, failed: Option<EvalRow>): TraceCase {
    TraceCase(record.shownId, FirstTag(record.tags), if failed.Some? then failed.value.evaluator else "execution")
  }

  function FirstFailure(item: Reading): Option<EvalRow> {
    var failed := FailedRows(item.rows);
    if failed != [] then Some(failed[0]) else None
  }

  function TraceOf(cases: CaseTable): Reading -> Option<TraceCase> {
    (item: Reading) =>
      if item.caseId in cases && ItemFailed(item) then Some(TraceRow(cases[item.caseId], FirstFailure(item))) else None
  }

  predicate FailsAt(rows: seq<EvalRow>, k: nat) {
    k < |rows| && !rows[k].skipped && (rows[k].errored || rows[k].passed == Some(false))
  }

  lemma {:induction false} FirstFailedRow(rows: seq<EvalRow>, k: nat)
    requires FailsAt(rows, k) && forall j | 0 <= j < k :: !FailsAt(rows, j)
    ensures FailedRows(rows) != [] && FailedRows(rows)[0] == rows[k]
  {
    if k > 0 {
      assert !FailsAt(rows, 0);
      forall j | 0 <= j < k - 1 ensures !FailsAt(rows[1..], j) { assert !FailsAt(rows, j + 1); }
      FirstFailedRow(rows[1..], k - 1);
    }
  }

  lemma {:induction false} NoFailedRow(rows: seq<EvalRow>)
    requires forall j | 0 <= j < |rows| :: !FailsAt(rows, j)
    ensures FailedRows(rows) == []
  {
    if rows == [] {
    } else {
      assert !FailsAt(rows, 0);
      forall j | 0 <= j < |rows| - 1 ensures !FailsAt(rows[1..], j) { assert !FailsAt(rows, j + 1); }
      NoFailedRow(rows[1..]);
    }
  }

  /** Which items are listed, and as what: those with a case whose first failing row, at `k`, names the
      evaluator, and those that failed without a failing row, as "execution". */
  lemma TraceExactly(item: Reading, cases: CaseTable, k: nat)
    requires FailsAt(item.rows, k) || k == |item.rows|
    requires forall j | 0 <= j < k :: !FailsAt(item.rows, j)
    ensures
      var listed := TraceOf(cases)(item);
      && (listed.Some? <==> item.caseId in cases && (k < |item.rows| || item.status.Failed()))
      && (listed.Some? ==>
            && listed.value.id == cases[item.caseId].shownId
            && listed.value.evaluator == (if k < |item.rows| then item.rows[k].evaluator else "execution")
            && TagOf(cases)(item) == Some(listed.value.tag))
      && TagOf(cases)(item) ==
           (if item.caseId !in cases then None
            else if cases[item.caseId].tags == [] then Some("untagged")
            else Some(cases[item.caseId].tags[0]))
  {
    SomeFailedRow(item.rows);
    if k < |item.rows| { FirstFailedRow(item.rows, k); } else { NoFailedRow(item.rows); }
  }

  // ---- Trace cases ----

  predicate TraceLe(a: TraceCase, b: TraceCase) {
    StringLe(a.id, b.id)
  }

  lemma TraceLeOrders()
    ensures TotalPreorder(TraceLe)
  {
    forall x, y ensures TraceLe(x, y) || TraceLe(y, x) { StringLeTotal(x.id, y.id); }
    forall x, y, z | TraceLe(x, y) && TraceLe(y, z) ensures TraceLe(x, z) { StringLeTransitive(x.id, y.id, z.id); }
  }

  /** `_build_trace_cases`: one row per failed item whose case exists, ordered by shown id. */
  method BuildTraceCases(items: seq<Reading>, cases: CaseTable) returns (traceCases: seq<TraceCase>)
    requires Distinct(Ids(items))
    ensures multiset(traceCases) == multiset(Gather(items, TraceOf(cases)))
    ensures SortedBy(traceCases, TraceLe)
  {
    var failedByItem: map<ItemId, Option<EvalRow>> := map[];
    for k := 0 to |items|
      invariant forall j | 0 <= j < k :: items[j].id in failedByItem <==> ItemFailed(items[j])
      invariant forall j | 0 <= j < k && ItemFailed(items[j]) :: failedByItem[items[j].id] == FirstFailure(items[j])
      invariant forall i | i in failedByItem :: exists j | 0 <= j < k :: items[j].id == i
    {
      var item := items[k];
      NewId(items, k);
      var failed := FailedRows(item.rows);
      SomeFailedRow(item.rows);
      if failed != [] {
        failedByItem := failedByItem[item.id := Some(failed[0])];
      } else if item.status.Failed() {
        failedByItem := failedByItem[item.id := None];
      }
    }
    var rows: seq<TraceCase> := [];
    for k := 0 to |items|
      invariant rows == Gather(items[..k], TraceOf(cases))
    {
      var item := items[k];
      GatherStep(items, k, TraceOf(cases));
      if item.id in failedByItem && item.caseId in cases {
        rows := rows + [TraceRow(cases[item.caseId], failedByItem[item.id])];
      }
    }
    assert items[..|items|] == items;
    TraceLeOrders();
    SortSorts(rows, TraceLe);
    traceCases := Sort(rows, TraceLe);
  }

  lemma NewId(items: seq<Reading>, k: nat)
    requires Distinct(Ids(items)) && k < |items|
    ensures forall j | 0 <= j < k :: items[j].id != items[k].id
  {
    forall j | 0 <= j < k ensures items[j].id != items[k].id { assert Ids(items)[j] != Ids(items)[k]; }
  }

  // ---- Tag statistics ----

  function Tally(tags: seq<string>): map<string, nat> {
    if tags == [] then map[]
    else
      var last := tags[|tags| - 1];
      var rest := Tally(tags[..|tags| - 1]);
      rest[last := Count(rest, last) + 1]
  }

  function Count(counts: map<string, nat>, tag: string): nat {
    if tag in counts then counts[tag] else 0
  }

  function Counted(counts: map<string, nat>, tag: Option<string>): map<string, nat> {
    if tag.Some? then counts[tag.value := Count(counts, tag.value) + 1] else counts
  }

  lemma TallyStep(items: seq<Reading>, k: nat, f: Reading -> Option<string>)
    requires k < |items|
    ensures Tally(Gather(items[..k + 1], f)) == Counted(Tally(Gather(items[..k], f)), f(items[k]))
  {
    GatherStep(items, k, f);
    var before := Gather(items[..k], f);
    if f(items[k]).Some? { assert (before + [f(items[k]).value])[..|before|] == before; }
  }

  lemma NothingTallied(items: seq<Reading>, f: Reading -> Option<string>)
    ensures Tally(Gather(items[..0], f)) == map[]
  {
  }

  /** `_run_tag_stats`. */
  method RunTagStats(items: seq<Reading>, cases: CaseTable)
    returns (counts: map<string, nat>, failures: map<string, nat>)
    ensures counts == Tally(Gather(items, TagOf(cases)))
    ensures failures == Tally(Gather(items, FailedTagOf(cases)))
  {
    hide Tally, Gather, ItemFailed, Count, FirstTag;
    counts, failures := map[], map[];
    NothingTallied(items, TagOf(cases));
    NothingTallied(items, FailedTagOf(cases));
    for k := 0 to |items|
      invariant counts == Tally(Gather(items[..k], TagOf(cases)))
      invariant failures == Tally(Gather(items[..k], FailedTagOf(cases)))
    {
      var item := items[k];
      TallyStep(items, k, TagOf(cases));
      TallyStep(items, k, FailedTagOf(cases));
      if item.caseId in cases {
        var tag := FirstTag(cases[item.caseId].tags);
        counts := counts[tag := Count(counts, tag) + 1];
        if ItemFailed(item) {
          failures := failures[tag := Count(failures, tag) + 1];
        }
      }
    }
    assert items[..|items|] == items;
  }

  /** A tally counts occurrences. */
  lemma {:induction false} TallyCounts(tags: seq<string>)
    ensures Tally(tags).Keys == set tag | tag in tags
    ensures forall tag :: Count(Tally(tags), tag) == multiset(tags)[tag]
  {
    if tags == [] {
    } else {
      var n := |tags| - 1;
      assert tags == tags[..n] + [tags[n]];
      TallyCounts(tags[..n]);
    }
  }

  /** Per tag, failures never exceed the items counted. */
  lemma {:induction false} FailuresWithin(items: seq<Reading>, cases: CaseTable)
    ensures multiset(Gather(items, FailedTagOf(cases))) <= multiset(Gather(items, TagOf(cases)))
  {
    if items == [] {
    } else {
      FailuresWithin(items[1..], cases);
    }
  }

  // ---- Tag breakdown ----

  function SumOf<T>(s: seq<T>, f: T -> nat): nat {
    if s == [] then 0 else f(s[0]) + SumOf(s[1..], f)
  }

  lemma {:induction false} SumPointwise<T, U>(a: seq<T>, f: T -> nat, b: seq<U>, g: U -> nat)
    requires |a| == |b| && forall k | 0 <= k < |a| :: f(a[k]) == g(b[k])
    ensures SumOf(a, f) == SumOf(b, g)
  {
    if a == [] {
    } else {
      SumPointwise(a[1..], f, b[1..], g);
    }
  }

  lemma {:induction false} SumPlus<T>(s: seq<T>, f: T -> nat, g: T -> nat, h: T -> nat)
    requires forall x | x in s :: f(x) == g(x) + h(x)
    ensures SumOf(s, f) == SumOf(s, g) + SumOf(s, h)
  {
    if s == [] {
    } else {
      SumPlus(s[1..], f, g, h);
    }
  }

  lemma {:induction false} SumZero<T>(s: seq<T>, f: T -> nat)
    requires forall x | x in s :: f(x) == 0
    ensures SumOf(s, f) == 0
  {
    if s == [] {
    } else {
      SumZero(s[1..], f);
    }
  }

  lemma {:induction false} SumIndicator(s: seq<string>, x: string, f: string -> nat)
    requires Distinct(s) && x in s && forall y :: f(y) == if y == x then 1 else 0
    ensures SumOf(s, f) == 1
  {
    assert s == [s[0]] + s[1..];
    if s[0] == x {
      forall y | y in s[1..] ensures f(y) == 0 { var k :| 0 <= k < |s[1..]| && s[1..][k] == y; assert s[k + 1] == y; }
      SumZero(s[1..], f);
    } else {
      SumIndicator(s[1..], x, f);
    }
  }

  function Occurrences(tags: seq<string>): string -> nat {
    tag => multiset(tags)[tag]
  }

  /** Occurrences summed over any list of distinct tags that covers them all give the length. */
  lemma {:induction false} OccurrencesSum(all: seq<string>, tags: seq<string>)
    requires Distinct(all) && forall tag | tag in tags :: tag in all
    ensures SumOf(all, Occurrences(tags)) == |tags|
  {
    if tags == [] {
      SumZero(all, Occurrences(tags));
    } else {
      var rest := tags[1..];
      OccurrencesSum(all, rest);
      assert tags == [tags[0]] + rest;
      var one := (tag: string) => if tag == tags[0] then 1 else 0;
      SumPlus(all, Occurrences(tags), Occurrences(rest), one);
      SumIndicator(all, tags[0], one);
    }
  }

  function CandidatePassRate(count: nat, failures: nat): real {
    if count == 0 then 0.0 else Round6(1.0 - failures as real / count as real)
  }

  /** The pass rate of a tag is the proportion of its items that did not fail, up to six-digit rounding. */
  lemma PassRateExactly(count: nat, failures: nat, proportion: real)
    requires count > 0 ==> proportion * count as real == (count - failures) as real
    ensures
      var rate := CandidatePassRate(count, failures);
      if count == 0 then rate == 0.0 else proportion - 0.0000005 <= rate <= proportion + 0.0000005
  {
    if count > 0 {
      hide Round6;
      var share := failures as real / count as real;
      assert share * count as real == failures as real;
      SameProportion(1.0 - share, proportion, count as real);
      RoundNear(proportion);
    }
  }

  lemma SameProportion(x: real, y: real, n: real)
    requires n > 0.0 && x * n == y * n
    ensures x == y
  {
    assert (x - y) * n == 0.0;
  }

  lemma PassRateInRange(count: nat, failures: nat)
    requires failures <= count
    ensures 0.0 <= CandidatePassRate(count, failures) <= 1.0
  {
    if count > 0 {
      assert 0.0 <= failures as real / count as real <= 1.0;
      RoundMonotone(0.0, 1.0 - failures as real / count as real);
      RoundMonotone(1.0 - failures as real / count as real, 1.0);
      RoundFixesGrid(0.0);
      RoundFixesGrid(1.0);
    }
  }

  lemma StringLeOrders()
    ensures TotalPreorder(StringLe)
  {
    forall x, y ensures StringLe(x, y) || StringLe(y, x) { StringLeTotal(x, y); }
    forall x, y, z | StringLe(x, y) && StringLe(y, z) ensures StringLe(x, z) { StringLeTransitive(x, y, z); }
  }

  /** `sorted` of a set. */
  method SortedSet(members: set<string>) returns (r: seq<string>)
    ensures Distinct(r) && SortedBy(r, StringLe)
    ensures forall x :: x in r <==> x in members
  {
    var rest, listed: seq<string> := members, [];
    while rest != {}
      invariant rest <= members && Distinct(listed)
      invariant forall x :: x in listed <==> x in members - rest
      decreases |rest|
    {
      var x :| x in rest;
      assert x !in listed;
      assert forall j | 0 <= j < |listed| :: listed[j] in listed;
      listed := listed + [x];
      rest := rest - {x};
    }
    StringLeOrders();
    SortSorts(listed, StringLe);
    r := Sort(listed, StringLe);
    forall x ensures x in r <==> x in listed {
      assert x in r <==> x in multiset(r);
      assert x in listed <==> x in multiset(listed);
    }
    StillDistinct(listed, r);
  }

  lemma TwiceCounted(s: seq<string>, j: nat, k: nat)
    requires j < k < |s| && s[j] == s[k]
    ensures multiset(s)[s[j]] >= 2
  {
    assert s == s[..k] + [s[k]] + s[k + 1..];
    assert s[..k][j] in multiset(s[..k]);
  }

  lemma StillDistinct(a: seq<string>, b: seq<string>)
    requires Distinct(a) && multiset(a) == multiset(b)
    ensures Distinct(b)
  {
    forall j, k | 0 <= j < k < |b| ensures b[j] != b[k] {
      AtMostOnce(a, b[j]);
      if b[j] == b[k] { TwiceCounted(b, j, k); }
    }
  }

  function RowBaselines(): TagRow -> nat { (row: TagRow) => row.baselineCount }
  function RowCandidates(): TagRow -> nat { (row: TagRow) => row.candidateCount }
  function RowFailures(): TagRow -> nat { (row: TagRow) => row.failureCount }

  /** `_build_tag_breakdown`: the rows' counts add up to the items that have a case, and their failures
      to the failed ones. */
  method BuildTagBreakdown(baseline: seq<Reading>, candidate: seq<Reading>, cases: CaseTable)
    returns (rows: seq<TagRow>)
    ensures forall j, k | 0 <= j < k < |rows| :: rows[j].tag != rows[k].tag && StringLe(rows[j].tag, rows[k].tag)
    ensures forall row | row in rows ::
      RowIs(row, Gather(baseline, TagOf(cases)), Gather(candidate, TagOf(cases)), Gather(candidate, FailedTagOf(cases)))
    ensures SumOf(rows, RowBaselines()) == |Gather(baseline, TagOf(cases))|
    ensures SumOf(rows, RowCandidates()) == |Gather(candidate, TagOf(cases))|
    ensures SumOf(rows, RowFailures()) == |Gather(candidate, FailedTagOf(cases))|
  {
    hide Gather, Tally, Count, CandidatePassRate, StringLe, TagOf, FailedTagOf, SumOf, RowIs;
    var baselineCounts, baselineFailures := RunTagStats(baseline, cases);
    var candidateCounts, candidateFailures := RunTagStats(candidate, cases);
    ghost var inBaseline := Gather(baseline, TagOf(cases));
    ghost var counted := Gather(candidate, TagOf(cases));
    ghost var failed := Gather(candidate, FailedTagOf(cases));
    CoveringTags(inBaseline, counted, failed);
    var tags := SortedSet(baselineCounts.Keys + candidateCounts.Keys + candidateFailures.Keys);
    FailuresWithin(candidate, cases);
    rows := [];
    for k := 0 to |tags|
      invariant |rows| == k
      invariant forall j | 0 <= j < k :: rows[j].tag == tags[j] && RowIs(rows[j], inBaseline, counted, failed)
    {
      var count, failures := Count(candidateCounts, tags[k]), Count(candidateFailures, tags[k]);
      var row := TagRow(tags[k], Count(baselineCounts, tags[k]), count, failures, CandidatePassRate(count, failures));
      TalliedRow(row, inBaseline, counted, failed);
      rows := rows + [row];
    }
    RowsAddUp(rows, tags, inBaseline, counted, failed);
  }

  lemma CoveringTags(inBaseline: seq<string>, counted: seq<string>, failed: seq<string>)
    ensures var keys := Tally(inBaseline).Keys + Tally(counted).Keys + Tally(failed).Keys;
      (forall tag | tag in inBaseline || tag in counted || tag in failed :: tag in keys)
  {
    TallyCounts(inBaseline);
    TallyCounts(counted);
    TallyCounts(failed);
  }

  lemma TalliedRow(row: TagRow, inBaseline: seq<string>, counted: seq<string>, failed: seq<string>)
    requires multiset(failed) <= multiset(counted)
    requires row.baselineCount == Count(Tally(inBaseline), row.tag)
    requires row.candidateCount == Count(Tally(counted), row.tag)
    requires row.failureCount == Count(Tally(failed), row.tag)
    requires row.passRate == CandidatePassRate(row.candidateCount, row.failureCount)
    ensures RowIs(row, inBaseline, counted, failed)
  {
    hide Tally, Count, CandidatePassRate;
    TallyCounts(inBaseline);
    TallyCounts(counted);
    TallyCounts(failed);
    PassRateInRange(row.candidateCount, row.failureCount);
  }

  lemma RowsAddUp(rows: seq<TagRow>, tags: seq<string>, inBaseline: seq<string>, counted: seq<string>,
      failed: seq<string>)
    requires |rows| == |tags| && Distinct(tags) && SortedBy(tags, StringLe)
    requires forall j | 0 <= j < |rows| :: rows[j].tag == tags[j] && RowIs(rows[j], inBaseline, counted, failed)
    requires forall tag | tag in inBaseline || tag in counted || tag in failed :: tag in tags
    ensures forall j, k | 0 <= j < k < |rows| :: rows[j].tag != rows[k].tag && StringLe(rows[j].tag, rows[k].tag)
    ensures forall row | row in rows :: RowIs(row, inBaseline, counted, failed)
    ensures SumOf(rows, RowBaselines()) == |inBaseline|
    ensures SumOf(rows, RowCandidates()) == |counted| && SumOf(rows, RowFailures()) == |failed|
  {
    hide SumOf, CandidatePassRate, StringLe;
    OccurrencesSum(tags, inBaseline);
    OccurrencesSum(tags, counted);
    OccurrencesSum(tags, failed);
    SumPointwise(rows, RowBaselines(), tags, Occurrences(inBaseline));
    SumPointwise(rows, RowCandidates(), tags, Occurrences(counted));
    SumPointwise(rows, RowFailures(), tags, Occurrences(failed));
  }

  /** A row counts its tag's items and failures, and its pass rate is a proportion. */
  predicate RowIs(row: TagRow, inBaseline: seq<string>, counted: seq<string>, failed: seq<string>) {
    && row.baselineCount == multiset(inBaseline)[row.tag]
    && row.candidateCount == multiset(counted)[row.tag]
    && row.failureCount == multiset(failed)[row.tag]
    && row.passRate == CandidatePassRate(row.candidateCount, row.failureCount)
    && row.failureCount <= row.candidateCount && 0.0 <= row.passRate <= 1.0
  }

  // ---- The passes agree ----

  lemma FailedTagOrderFree(db: Db, r: RunId, cases: CaseTable)
    ensures OrderFree(FailedTagOf(cases), db, r)
  {
    forall item: Reading | item.id in ItemsOf(db, r) && Reordered(item, Stored(db, item.id))
      ensures FailedTagOf(cases)(item) == FailedTagOf(cases)(Stored(db, item.id))
    {
      var rows := Stored(db, item.id).rows;
      forall row ensures row in item.rows <==> row in rows {
        assert row in item.rows <==> row in multiset(item.rows);
        assert row in rows <==> row in multiset(rows);
      }
    }
  }

  /** The tags of the trace cases, in order. */
  function TraceTags(traces: seq<TraceCase>): (tags: seq<string>)
    ensures |tags| == |traces| && forall k | 0 <= k < |tags| :: tags[k] == traces[k].tag
  {
    seq(|traces|, k requires 0 <= k < |traces| => traces[k].tag)
  }

  lemma {:induction false} TracesCarryTags(items: seq<Reading>, cases: CaseTable)
    ensures TraceTags(Gather(items, TraceOf(cases))) == Gather(items, FailedTagOf(cases))
  {
    if items == [] {
    } else {
      TracesCarryTags(items[1..], cases);
      hide ItemFailed, FirstFailure;
      assert TraceTags(Gather(items, TraceOf(cases)))
        == TraceTags(Gather([items[0]], TraceOf(cases))) + TraceTags(Gather(items[1..], TraceOf(cases)));
    }
  }

  /** Under every tag the breakdown counts as many failures as there are trace cases with that tag, although
      the two passes list items and rows in orders of their own. */
  lemma FailuresAreTraceCases(db: Db, r: RunId, traced: seq<Reading>, tagged: seq<Reading>, cases: CaseTable)
    requires Reads(traced, db, r) && Reads(tagged, db, r)
    ensures |Gather(traced, TraceOf(cases))| == |Gather(tagged, FailedTagOf(cases))|
    ensures forall tag ::
      Count(Tally(Gather(tagged, FailedTagOf(cases))), tag)
        == multiset(TraceTags(Gather(traced, TraceOf(cases))))[tag]
  {
    hide Gather, ItemFailed, Tally, Count;
    FailedTagOrderFree(db, r, cases);
    TracesCarryTags(traced, cases);
    ReadingsAgree(db, r, traced, tagged, FailedTagOf(cases), FailedTagOf(cases));
    SameSize(Gather(traced, FailedTagOf(cases)), Gather(tagged, FailedTagOf(cases)));
    TallyCounts(Gather(tagged, FailedTagOf(cases)));
  }
}
