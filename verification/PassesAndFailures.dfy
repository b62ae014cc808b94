/** The pass rate and the failure list are computed by separate passes with conditions of their own.
    Nothing counts as passed in one and as failed in the other. */
module PassesAndFailures {
  import opened Options
  import opened Sequences
  import opened Sorting
  import opened Statistics
  import opened RunTables
  import opened WorkerProtocol
  import opened WorkerSafety
  import opened WorkerTheorems
  import opened RunReadings
  import opened MetricSamples
  import Dashboard

  /** Some evaluator ran and passed. */
  predicate SomePassed(rows: seq<EvalRow>) {
    exists row | row in rows :: !row.skipped && !row.errored && row.passed == Some(true)
  }

  /** Some evaluator that was not skipped errored or did not pass. */
  predicate SomeFailed(rows: seq<EvalRow>) {
    exists row | row in rows :: !row.skipped && (row.errored || row.passed == Some(false))
  }

  predicate SkippedWithError(rows: seq<EvalRow>) {
    exists row | row in rows :: row.skipped && row.errored
  }

  /** A case passes exactly when some evaluator passed, none failed and none is marked both skipped and
      errored; and that failure is the one the failure list knows. */
  lemma PassesExactly(rows: seq<EvalRow>)
    ensures PassValue(rows) == 1.0 <==> SomePassed(rows) && !SomeFailed(rows) && !SkippedWithError(rows)
    ensures PassValue(rows) == 0.0 || PassValue(rows) == 1.0
    ensures SomeFailed(rows) <==> exists row | row in rows :: Dashboard.FailedRow(row)
  {
    if row :| row in rows && row.errored { assert SomeFailed(rows) || SkippedWithError(rows); }
    if row :| row in rows && Applicable(row) && !row.passed.value { assert SomeFailed(rows); }
    if row :| row in rows && Applicable(row) && row.passed.value { assert SomePassed(rows); }
  }

  predicate Passed(reading: Reading) {
    PassValue(reading.rows) == 1.0
  }

  lemma {:induction false} PassSum(view: seq<Reading>)
    ensures |Gather(view, PassOf)| == |view|
    ensures Sum(Gather(view, PassOf)) == CountBy(view, Passed) as real
  {
    if view == [] {
    } else {
      hide PassValue;
      PassSum(view[1..]);
      PassesExactly(view[0].rows);
      assert Gather(view, PassOf)[1..] == Gather(view[1..], PassOf);
    }
  }

  /** The pass rate times the number of items is the number of items that pass. */
  lemma PassRateCounts(view: seq<Reading>)
    ensures Average(Gather(view, PassOf)) * |view| as real == CountBy(view, Passed) as real
  {
    hide *;
    PassSum(view);
    AverageTimesCount(Gather(view, PassOf));
    assert |Gather(view, PassOf)| as real == |view| as real;
  }

  /** In a reachable state no item is both failed for the failure list and passed for the pass rate. */
  lemma FailedNeverPasses(world: World, ss: seq<Sys>, acts: seq<Action>, n: nat, r: RunId, item: Reading)
    requires SafeRun(world, ss, acts) && n < |ss|
    requires item.id in ItemsOf(ss[n].db, r) && Reordered(item, Stored(ss[n].db, item.id))
    ensures Dashboard.ItemFailed(item) ==> PassValue(item.rows) == 0.0
  {
    var db := ss[n].db;
    EvidenceIffCompleted(world, ss, acts, n, item.id);
    hide SafeRun, PassValue;
    PassesExactly(item.rows);
    if item.status.Failed() {
      assert RowsOf(db, item.id) == [];
      assert |multiset(item.rows)| == 0;
      assert !SomePassed(item.rows);
    }
  }

  lemma {:induction false} DisjointCounts<T>(s: seq<T>, p: T -> bool, q: T -> bool)
    requires forall x | x in s :: !(p(x) && q(x))
    ensures CountBy(s, p) + CountBy(s, q) <= |s|
  {
    if s == [] {
    } else {
      assert s == [s[0]] + s[1..];
      DisjointCounts(s[1..], p, q);
    }
  }

  lemma {:induction false} TracesWithinFailures(view: seq<Reading>, cases: Dashboard.CaseTable)
    ensures |Gather(view, Dashboard.TraceOf(cases))| <= CountBy(view, Dashboard.ItemFailed)
  {
    if view == [] {
    } else {
      TracesWithinFailures(view[1..], cases);
    }
  }

  /** Over one reading of a run: passed items and listed failures never add up to more than the items. */
  lemma PassRateLeavesFailures(world: World, ss: seq<Sys>, acts: seq<Action>, n: nat, r: RunId, view: seq<Reading>,
      cases: Dashboard.CaseTable)
    requires SafeRun(world, ss, acts) && n < |ss| && Reads(view, ss[n].db, r)
    ensures Average(Gather(view, PassOf)) * |view| as real + CountBy(view, Dashboard.ItemFailed) as real
      <= |view| as real
    ensures |Gather(view, Dashboard.TraceOf(cases))| <= CountBy(view, Dashboard.ItemFailed)
  {
    hide SafeRun, Gather, Average, Dashboard.ItemFailed, PassValue, Stored;
    TracesWithinFailures(view, cases);
    PassRateCounts(view);
    forall item | item in view ensures !(Passed(item) && Dashboard.ItemFailed(item)) {
      var k :| 0 <= k < |view| && view[k] == item;
      FailedNeverPasses(world, ss, acts, n, r, view[k]);
    }
    DisjointCounts(view, Passed, Dashboard.ItemFailed);
  }
}
