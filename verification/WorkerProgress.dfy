/** How far a run's counters may trail its items: a recount makes them exact, and between recounts they
    lag by exactly the commits that have not been counted yet. */
module WorkerProgress {
  import opened Sequences
  import opened RunTables
  import opened WorkerProtocol
  import opened WorkerEvidence
  import opened WorkerSafety
  import opened WorkerTheorems

  /** Every recount leaves the true numbers of completed and of failed items in the run's row. */
  lemma RecountIsExact(world: World, ss: seq<Sys>, acts: seq<Action>, n: nat)
    requires SafeRun(world, ss, acts) && n < |acts| && acts[n].Refresh?
    ensures
      var r, db := ss[n].db.items[ss[n].live[acts[n].exec].item].runId, ss[n + 1].db;
      && r in db.runs
      && db.runs[r].caseCompleted == |CompletedOf(db, r)| && db.runs[r].caseErrored == |FailedOf(db, r)|
  {
    hide Inv, TablesAgree;
    Reachable(world, ss, acts, n);
    RefreshCounts(world, ss[n], acts[n].exec);
  }

  lemma RefreshCounts(world: World, s: Sys, e: ExecId)
    requires Inv(s) && Enabled(s, Refresh(e))
    ensures
      var r, db := s.db.items[s.live[e].item].runId, Apply(world, s, Refresh(e)).db;
      && r in db.runs && r in s.db.runs
      && db.runs[r].caseCompleted == |CompletedOf(db, r)| && db.runs[r].caseErrored == |FailedOf(db, r)|
  {
    hide Inv, TablesAgree, CompletedOf, FailedOf, Apply, RefreshProgress, InsertsCommit;
    var r, db := s.db.items[s.live[e].item].runId, Apply(world, s, Refresh(e)).db;
    RefreshStep(world, s, e);
    RefreshStores(s.db, r);
    SameItemsSameCounts(s.db, db, r);
  }

  lemma RefreshStep(world: World, s: Sys, e: ExecId)
    requires Inv(s) && Enabled(s, Refresh(e))
    ensures
      var r := s.db.items[s.live[e].item].runId;
      r in s.db.runs && Apply(world, s, Refresh(e)).db == RefreshProgress(s.db, r)
  {
    hide EvidenceExact, ProgressAgrees, CasesUnique, CasesCounted, ExecInv, ChordInv, Exclusive, RefreshProgress;
  }

  lemma RefreshStores(db: Db, r: RunId)
    requires r in db.runs
    ensures
      var after := RefreshProgress(db, r);
      && after.items == db.items && r in after.runs
      && after.runs[r].caseCompleted == |CompletedOf(db, r)| && after.runs[r].caseErrored == |FailedOf(db, r)|
  {
    hide CompletedOf, FailedOf;
  }

  // ---- Between recounts ----

  predicate RecountsRun(s: Sys, a: Action, r: RunId)
    requires Enabled(s, a)
  {
    a.Refresh? && s.db.items[s.live[a.exec].item].runId == r
  }

  /** The step commits an item of run `r` as completed. */
  predicate CompletesIn(s: Sys, a: Action, r: RunId)
    requires Enabled(s, a)
  {
    a.Complete? && s.db.items[s.live[a.exec].item].runId == r
  }

  /** The step commits an item of run `r` as finally failed. */
  predicate FailsIn(s: Sys, a: Action, r: RunId)
    requires Enabled(s, a)
  {
    a.Raise? && WritesFailure(s, s.live[a.exec], a.message) && s.db.items[s.live[a.exec].item].runId == r
  }

  ghost predicate AllEnabled(ss: seq<Sys>, acts: seq<Action>) {
    |ss| == |acts| + 1 && forall k | 0 <= k < |acts| :: Enabled(ss[k], acts[k])
  }

  /** Completing commits of run `r` before state `n` that no recount has seen. */
  ghost function UncountedCompletions(ss: seq<Sys>, acts: seq<Action>, n: nat, r: RunId): nat
    requires AllEnabled(ss, acts) && n < |ss|
  {
    if n == 0 || RecountsRun(ss[n - 1], acts[n - 1], r) then 0
    else UncountedCompletions(ss, acts, n - 1, r) + (if CompletesIn(ss[n - 1], acts[n - 1], r) then 1 else 0)
  }

  ghost function UncountedFailures(ss: seq<Sys>, acts: seq<Action>, n: nat, r: RunId): nat
    requires AllEnabled(ss, acts) && n < |ss|
  {
    if n == 0 || RecountsRun(ss[n - 1], acts[n - 1], r) then 0
    else UncountedFailures(ss, acts, n - 1, r) + (if FailsIn(ss[n - 1], acts[n - 1], r) then 1 else 0)
  }

  /** Adding a run leaves every known item alone. */
  lemma AddedRunLeaves(world: World, s: Sys, a: Action, i: ItemId)
    requires Inv(s) && Enabled(s, a)
    ensures i in s.db.items && (a.Dispatch? || a.Sequential?) ==>
      i in Apply(world, s, a).db.items && Apply(world, s, a).db.items[i] == s.db.items[i]
  {
    RunAgreesTables(s);
    DrawnIds(s.db);
    hide *;
    if i in s.db.items && a.Dispatch? {
      DispatchLeaves(s.db, a.version, a.config, a.cases, i);
      DispatchStep(world, s, a);
    }
    if i in s.db.items && a.Sequential? {
      SequentialLeaves(world, s.db, a.version, a.config, a.cases, i);
      DispatchStep(world, s, a);
    }
  }

  lemma DispatchStep(world: World, s: Sys, a: Action)
    requires Enabled(s, a)
    ensures a.Dispatch? ==> Apply(world, s, a).db == DispatchRun(s.db, a.version, a.config, a.cases)
    ensures a.Sequential? ==> Apply(world, s, a).db == ExecuteRun(world, s.db, a.version, a.config, a.cases)
  {
    hide Enabled, DispatchRun, ExecuteRun;
  }

  lemma DispatchLeaves(db: Db, version: VersionId, config: ConfigId, cases: seq<CaseId>, i: ItemId)
    requires i in db.items && i < db.nextId
    ensures var after := DispatchRun(db, version, config, cases); i in after.items && after.items[i] == db.items[i]
  {
    hide ItemIds;
    assert i !in QueuedItems(db.nextId, cases, |cases|);
  }

  lemma KnownItem(a: Db, b: Db, i: ItemId)
    requires Evolves(a, b) && i in b.items && b.items[i].runId in a.runs
    ensures i in a.items
  {
    hide SameRecord;
  }

  /** Which steps make an item completed or failed. */
  lemma StatusWrites(world: World, s: Sys, a: Action, i: ItemId)
    requires Enabled(s, a) && i in s.db.items && i in Apply(world, s, a).db.items
    requires a.Dispatch? || a.Sequential? ==> Apply(world, s, a).db.items[i] == s.db.items[i]
    ensures
      var before, after := s.db.items[i], Apply(world, s, a).db.items[i];
      && (after.status.Completed? && !before.status.Completed? ==> a.Complete? && s.live[a.exec].item == i)
      && (after.status.Failed() && !before.status.Failed() ==>
            || (a.Raise? && WritesFailure(s, s.live[a.exec], a.message) && s.live[a.exec].item == i)
            || (a.Reject? && before.runId == a.run))
  {
    hide ItemIds, DispatchRun, ExecuteRun, CompletedOf, FailedOf, ItemsOf, InsertsCommit, IsTransient, RowsOf, Stamp,
         NewTrace, Messages;
  }

  /** An item of a known run becomes completed only by a completing commit on it. */
  lemma NewlyCompleted(world: World, s: Sys, a: Action, i: ItemId)
    requires Inv(s) && Enabled(s, a) && Assumed(s, a) && Evolves(s.db, Apply(world, s, a).db)
    requires
      var t := Apply(world, s, a);
      i in t.db.items && t.db.items[i].status.Completed? && t.db.items[i].runId in s.db.runs
    requires !(i in s.db.items && s.db.items[i].status.Completed?)
    ensures a.Complete? && s.live[a.exec].item == i && i in s.db.items
  {
    AddedRunLeaves(world, s, a, i);
    KnownItem(s.db, Apply(world, s, a).db, i);
    hide Inv, Evolves, Assumed;
    StatusWrites(world, s, a, i);
  }

  /** And failed only by a final failure on it or by the rejection of its run. */
  lemma NewlyFailed(world: World, s: Sys, a: Action, i: ItemId)
    requires Inv(s) && Enabled(s, a) && Assumed(s, a) && Evolves(s.db, Apply(world, s, a).db)
    requires
      var t := Apply(world, s, a);
      i in t.db.items && t.db.items[i].status.Failed() && t.db.items[i].runId in s.db.runs
    requires !(i in s.db.items && s.db.items[i].status.Failed())
    ensures i in s.db.items
    ensures (a.Raise? && WritesFailure(s, s.live[a.exec], a.message) && s.live[a.exec].item == i)
      || (a.Reject? && s.db.items[i].runId == a.run)
  {
    AddedRunLeaves(world, s, a, i);
    KnownItem(s.db, Apply(world, s, a).db, i);
    hide Inv, Evolves, Assumed;
    StatusWrites(world, s, a, i);
  }

  lemma AtMostOneMore<T>(a: set<T>, b: set<T>, x: T)
    requires b <= a + {x}
    ensures |b| <= |a| + 1
  {
    SubsetCard(b, a + {x});
  }

  lemma CompletionsGrow(world: World, s: Sys, a: Action, r: RunId)
    requires Inv(s) && Enabled(s, a) && Assumed(s, a) && Evolves(s.db, Apply(world, s, a).db) && r in s.db.runs
    ensures |CompletedOf(Apply(world, s, a).db, r)|
      <= |CompletedOf(s.db, r)| + (if CompletesIn(s, a, r) then 1 else 0)
  {
    var t := Apply(world, s, a);
    hide Inv, Apply, Enabled, Assumed;
    var before, after := CompletedOf(s.db, r), CompletedOf(t.db, r);
    forall i | i in after && i !in before ensures CompletesIn(s, a, r) && i == s.live[a.exec].item {
      NewlyCompleted(world, s, a, i);
    }
    if CompletesIn(s, a, r) { AtMostOneMore(before, after, s.live[a.exec].item); } else { SubsetCard(after, before); }
  }

  lemma FailuresGrow(world: World, s: Sys, a: Action, r: RunId)
    requires Inv(s) && Enabled(s, a) && Assumed(s, a) && Evolves(s.db, Apply(world, s, a).db) && r in s.db.runs
    requires a != Reject(r)
    ensures |FailedOf(Apply(world, s, a).db, r)| <= |FailedOf(s.db, r)| + (if FailsIn(s, a, r) then 1 else 0)
  {
    var t := Apply(world, s, a);
    hide Inv, Apply, Enabled, Assumed, WritesFailure;
    var before, after := FailedOf(s.db, r), FailedOf(t.db, r);
    forall i | i in after && i !in before ensures FailsIn(s, a, r) && i == s.live[a.exec].item {
      NewlyFailed(world, s, a, i);
    }
    if FailsIn(s, a, r) { AtMostOneMore(before, after, s.live[a.exec].item); } else { SubsetCard(after, before); }
  }

  /** The counters of `r` are the true counts. */
  predicate CountedExactly(db: Db, r: RunId) {
    r in db.runs && |CompletedOf(db, r)| == db.runs[r].caseCompleted && |FailedOf(db, r)| == db.runs[r].caseErrored
  }

  lemma UntouchedOrFinal(db: Db, r: RunId)
    requires r in db.runs && ProgressAgrees(db, r)
    requires !db.runs[r].status.InProgress?
      || forall i | i in db.items && db.items[i].runId == r :: db.items[i].status.Queued?
    ensures CountedExactly(db, r)
  {
    if db.runs[r].status.InProgress? { assert CompletedOf(db, r) == {} && FailedOf(db, r) == {}; }
  }

  /** A run that appears has exact counters. */
  lemma NewRunIsExact(world: World, s: Sys, a: Action, r: RunId)
    requires Inv(s) && Enabled(s, a) && Inv(Apply(world, s, a))
    requires r in Apply(world, s, a).db.runs && r !in s.db.runs
    ensures CountedExactly(Apply(world, s, a).db, r)
  {
    hide *;
    NewRunIs(world, s, a, r);
    RunAgrees(Apply(world, s, a), r);
    if a.Dispatch? {
      RunAgreesTables(s);
      DispatchedQueued(s.db, a.version, a.config, a.cases);
    }
    UntouchedOrFinal(Apply(world, s, a).db, r);
  }

  lemma RunAgrees(t: Sys, r: RunId)
    requires Inv(t) && r in t.db.runs
    ensures ProgressAgrees(t.db, r)
  {
    hide ProgressAgrees, ExecInv, ChordInv;
  }

  lemma RunAgreesTables(s: Sys)
    requires Inv(s)
    ensures TablesAgree(s.db)
  {
    hide TablesAgree, ExecInv, ChordInv;
  }

  lemma NewRunIs(world: World, s: Sys, a: Action, r: RunId)
    requires Enabled(s, a) && r in Apply(world, s, a).db.runs && r !in s.db.runs
    ensures r == s.db.nextId
    ensures
      || (a.Dispatch? && Distinct(a.cases)
          && Apply(world, s, a).db == DispatchRun(s.db, a.version, a.config, a.cases))
      || (a.Sequential? && !Apply(world, s, a).db.runs[r].status.InProgress?)
  {
    hide ItemIds, SequentialItems, SequentialTraces, SequentialRows, AnsweredIds, QueuedItems, CompletedOf, FailedOf,
         ItemsOf, InsertsCommit, IsTransient, RowsOf, Stamp, NewTrace, Messages;
  }

  lemma DispatchedQueued(db: Db, version: VersionId, config: ConfigId, cases: seq<CaseId>)
    requires TablesAgree(db) && Distinct(cases)
    ensures
      var after := DispatchRun(db, version, config, cases);
      forall i | i in after.items && after.items[i].runId == db.nextId :: after.items[i].status.Queued?
  {
    DrawnIds(db);
    hide TablesAgree, ItemIds, QueuedItems;
    QueuedItemsAreFresh(db.nextId, cases);
  }

  /** After any step the counters lag by no more than before and the step's own commit. */
  lemma LagGrows(world: World, s: Sys, a: Action, r: RunId, completions: nat, failures: nat)
    requires Inv(s) && Enabled(s, a) && Assumed(s, a) && ValidatedConfigs(world) && r in Apply(world, s, a).db.runs
    requires r in s.db.runs ==>
      && |CompletedOf(s.db, r)| <= s.db.runs[r].caseCompleted + completions
      && |FailedOf(s.db, r)| <= s.db.runs[r].caseErrored + failures
    ensures
      var db, again := Apply(world, s, a).db, RecountsRun(s, a, r);
      && |CompletedOf(db, r)| <= db.runs[r].caseCompleted
           + (if again then 0 else completions + (if CompletesIn(s, a, r) then 1 else 0))
      && |FailedOf(db, r)| <= db.runs[r].caseErrored
           + (if again then 0 else failures + (if FailsIn(s, a, r) then 1 else 0))
  {
    hide Inv, Enabled, Assumed, Evolves, WritesFailure, CompletedOf, FailedOf;
    Step(world, s, a);
    if r !in s.db.runs {
      NewRunIsExact(world, s, a, r);
    } else if RecountsRun(s, a, r) {
      RefreshCounts(world, s, a.exec);
    } else {
      StepCountsUp(world, s, a, r);
      CompletionsGrow(world, s, a, r);
      if a == Reject(r) { RejectedIsExact(world, s, r); } else { FailuresGrow(world, s, a, r); }
    }
  }

  lemma RejectedIsExact(world: World, s: Sys, r: RunId)
    requires Enabled(s, Reject(r)) && Inv(Apply(world, s, Reject(r)))
    ensures
      var db := Apply(world, s, Reject(r)).db;
      r in db.runs && |FailedOf(db, r)| == db.runs[r].caseErrored
  {
    hide Structured, EvidenceExact, ExecInv, ChordInv, Exclusive, FailedOf, CompletedOf, AllTerminal, RejectedItem;
    assert ProgressAgrees(Apply(world, s, Reject(r)).db, r);
  }

  /** In every reachable state the counters are within the true counts, and short of them by at most the
      commits since the run's last recount. */
  lemma {:induction false} CountersLagOnlyUncounted(world: World, ss: seq<Sys>, acts: seq<Action>, n: nat, r: RunId)
    requires SafeRun(world, ss, acts) && n < |ss| && r in ss[n].db.runs
    ensures AllEnabled(ss, acts)
    ensures
      var db := ss[n].db;
      && db.runs[r].caseCompleted <= |CompletedOf(db, r)|
           <= db.runs[r].caseCompleted + UncountedCompletions(ss, acts, n, r)
      && db.runs[r].caseErrored <= |FailedOf(db, r)|
           <= db.runs[r].caseErrored + UncountedFailures(ss, acts, n, r)
  {
    hide Inv, Apply, Enabled, Assumed, CompletedOf, FailedOf, RecountsRun, CompletesIn, FailsIn, AllEnabled, SafeRun;
    RunIsEnabled(world, ss, acts);
    HonestCounters(world, ss, acts, n, r);
    if n == 0 {
    } else {
      StepOfRun(world, ss, acts, n - 1);
      if r in ss[n - 1].db.runs { CountersLagOnlyUncounted(world, ss, acts, n - 1, r); }
      LagGrows(world, ss[n - 1], acts[n - 1], r,
        UncountedCompletions(ss, acts, n - 1, r), UncountedFailures(ss, acts, n - 1, r));
    }
  }

  lemma HonestCounters(world: World, ss: seq<Sys>, acts: seq<Action>, n: nat, r: RunId)
    requires SafeRun(world, ss, acts) && n < |ss| && r in ss[n].db.runs
    ensures
      var db := ss[n].db;
      db.runs[r].caseCompleted <= |CompletedOf(db, r)| && db.runs[r].caseErrored <= |FailedOf(db, r)|
  {
    hide SafeRun, CompletedOf, FailedOf;
    ProgressIsHonest(world, ss, acts, n, n, r);
  }

  lemma RunIsEnabled(world: World, ss: seq<Sys>, acts: seq<Action>)
    requires SafeRun(world, ss, acts)
    ensures AllEnabled(ss, acts) && |ss| == |acts| + 1 && ss[0].db.runs == map[]
  {
    hide Apply, Enabled, Assumed;
  }

  lemma StepOfRun(world: World, ss: seq<Sys>, acts: seq<Action>, n: nat)
    requires SafeRun(world, ss, acts) && n < |acts|
    ensures |ss| == |acts| + 1 && Inv(ss[n]) && Enabled(ss[n], acts[n]) && Assumed(ss[n], acts[n])
    ensures ss[n + 1] == Apply(world, ss[n], acts[n]) && ValidatedConfigs(world)
  {
    hide Inv, Apply, Enabled, Assumed, ValidatedConfigs;
    Reachable(world, ss, acts, n);
  }
}
