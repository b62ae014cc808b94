/** What the uniqueness constraints and atomic commits give on their own: evidence is
    all-or-nothing whatever the timing, and exactly which steps can overwrite a terminal item. */
module WorkerEvidence {
  import opened RunTables
  import opened WorkerProtocol

  /** Per item: no trace and no result rows, or one trace plus rows with distinct evaluator names,
      all written by the execution that wrote the trace. */
  predicate EvidenceAtomic(db: Db) {
    && db.traces.Keys == db.results.Keys
    && db.traces.Keys <= db.items.Keys
    && forall i | i in db.traces ::
         && DistinctEvaluators(db.results[i])
         && forall k | 0 <= k < |db.results[i]| :: db.results[i][k].writer == db.traces[i].writer
  }

  predicate IdsFresh(db: Db) {
    forall i | i in db.items :: i < db.nextId
  }

  predicate DistinctNames(rows: seq<EvalRow>) {
    forall j, k | 0 <= j < k < |rows| :: rows[j].evaluator != rows[k].evaluator
  }

  /** Every evaluator configuration in use was accepted: it names its results distinctly. */
  ghost predicate ValidatedConfigs(world: World) {
    forall config, caseId, output :: DistinctNames(world.evaluate(config, caseId, output))
  }

  lemma SequentialRowsDistinct(world: World, version: VersionId, config: ConfigId, r: RunId, cases: seq<CaseId>,
      i: ItemId)
    requires ValidatedConfigs(world) && i in AnsweredIds(world, version, r, cases, |cases|)
    ensures
      var rows := SequentialRows(world, version, config, r, cases, |cases|)[i];
      DistinctEvaluators(rows) && forall k | 0 <= k < |rows| :: rows[k].writer == r
  {
    var rows := world.evaluate(config, cases[i - r - 1], Ask(world, version, cases[i - r - 1]).output);
    assert DistinctNames(rows);
  }

  lemma SequentialEvidence(world: World, db: Db, version: VersionId, config: ConfigId, cases: seq<CaseId>)
    requires EvidenceAtomic(db) && IdsFresh(db) && ValidatedConfigs(world)
    ensures EvidenceAtomic(ExecuteRun(world, db, version, config, cases))
  {
    var r, n := db.nextId, |cases|;
    var traces := SequentialTraces(world, version, r, cases, n);
    var rows := SequentialRows(world, version, config, r, cases, n);
    assert traces.Keys == rows.Keys <= ItemIds(r, n);
    assert forall i | i in traces :: traces[i].writer == r;
    forall i | i in rows
      ensures DistinctEvaluators(rows[i]) && forall k | 0 <= k < |rows[i]| :: rows[i][k].writer == r
    {
      SequentialRowsDistinct(world, version, config, r, cases, i);
    }
    InsertedEvidence(db, ExecuteRun(world, db, version, config, cases), traces, rows, r);
  }

  lemma InsertedEvidence(a: Db, b: Db, traces: map<ItemId, Trace>, rows: map<ItemId, seq<StoredRow>>, writer: ExecId)
    requires EvidenceAtomic(a) && b.traces == a.traces + traces && b.results == a.results + rows
    requires traces.Keys == rows.Keys && a.traces.Keys + traces.Keys <= b.items.Keys
    requires forall i | i in traces :: traces[i].writer == writer
    requires forall i | i in rows ::
               DistinctEvaluators(rows[i]) && forall k | 0 <= k < |rows[i]| :: rows[i][k].writer == writer
    ensures EvidenceAtomic(b)
  {
  }

  lemma CompleteEvidence(db: Db, i: ItemId, e: ExecId, trace: Trace, rows: seq<EvalRow>)
    requires EvidenceAtomic(db) && i in db.items && InsertsCommit(db, i, rows) && trace.writer == e
    ensures EvidenceAtomic(CompleteItem(db, i, e, trace, rows))
    ensures CompleteItem(db, i, e, trace, rows).results[i] == Stamp(e, rows) && DistinctNames(rows)
  {
    hide DistinctEvaluators, DistinctNames, Stamp;
    assert RowsOf(db, i) == [];
    InsertedDistinct(rows, e);
  }

  lemma InsertedDistinct(rows: seq<EvalRow>, writer: ExecId)
    requires DistinctEvaluators([] + Stamp(0, rows))
    ensures [] + Stamp(writer, rows) == Stamp(writer, rows) && DistinctNames(rows)
    ensures DistinctEvaluators(Stamp(writer, rows))
  {
    assert [] + Stamp(0, rows) == Stamp(0, rows) && [] + Stamp(writer, rows) == Stamp(writer, rows);
    StampKeepsNames(0, rows);
    StampKeepsNames(writer, rows);
  }

  lemma StampKeepsNames(writer: ExecId, rows: seq<EvalRow>)
    ensures DistinctEvaluators(Stamp(writer, rows)) <==> DistinctNames(rows)
  {
    var stored := Stamp(writer, rows);
    assert forall k | 0 <= k < |rows| :: stored[k].row == rows[k];
    if DistinctEvaluators(stored) {
      forall j, k | 0 <= j < k < |rows| ensures rows[j].evaluator != rows[k].evaluator {
        assert stored[j].row.evaluator != stored[k].row.evaluator;
      }
    }
  }

  /** No assumption on timing, broker or hard limits: every step of the system keeps evidence
      all-or-nothing. */
  lemma EvidenceStaysAtomic(world: World, s: Sys, a: Action)
    requires Enabled(s, a) && EvidenceAtomic(s.db) && IdsFresh(s.db) && ValidatedConfigs(world)
    ensures EvidenceAtomic(Apply(world, s, a).db) && IdsFresh(Apply(world, s, a).db)
  {
    match a
    case Sequential(version, config, cases) =>
      SequentialEvidence(world, s.db, version, config, cases);
    case Complete(e, output, rows) =>
      var i := s.live[e].item;
      CompleteEvidence(s.db, i, e, Apply(world, s, a).db.traces[i], rows);
    case _ =>
  }

  lemma {:induction false} EvidenceAtomicThroughout(world: World, ss: seq<Sys>, acts: seq<Action>, n: nat)
    requires Behaviour(world, ss, acts) && ss[0] == INITIAL && ValidatedConfigs(world) && n < |ss|
    ensures EvidenceAtomic(ss[n].db) && IdsFresh(ss[n].db)
  {
    if n == 0 {
    } else {
      EvidenceAtomicThroughout(world, ss, acts, n - 1);
      EvidenceStaysAtomic(world, ss[n - 1], acts[n - 1]);
    }
  }

  /** The item row, its trace and its result rows are all unchanged. */
  predicate SameRecord(a: Db, b: Db, i: ItemId) {
    && i in a.items && i in b.items && b.items[i] == a.items[i]
    && (i in b.traces <==> i in a.traces)
    && (i in a.traces ==> b.traces[i] == a.traces[i])
    && RowsOf(b, i) == RowsOf(a, i)
  }

  /** Exactly when a step changes a terminal item's record, with nothing assumed: a completing write by
      primary key (which also adds a trace), a retry's clearing while there is evidence, or a rejection
      written over the item. Of these, a completing write changes the status of a failed item only, and
      a rejection that of an item that is not errored. */
  lemma TerminalChangesExactly(world: World, s: Sys, a: Action, i: ItemId)
    requires Enabled(s, a) && IdsFresh(s.db) && i in s.db.items && s.db.items[i].status.Terminal()
    ensures
      var item, after := s.db.items[i], Apply(world, s, a).db;
      && i in after.items
      && (!SameRecord(s.db, after, i) <==>
            || (a.Complete? && s.live[a.exec].item == i)
            || (a.Clear? && s.live[a.exec].item == i && s.live[a.exec].retries > 0 && HasEvidence(s.db, i))
            || (a.Reject? && item.runId == a.run && RejectedItem(item, s.db.now) != item))
      && (after.items[i].status != item.status <==>
            || (a.Complete? && s.live[a.exec].item == i && item.status.Failed())
            || (a.Reject? && item.runId == a.run && !item.status.Errored?))
  {
    hide SameRecord, HasEvidence, RejectedItem, ApplyComplete, ApplyClear, RejectRun, ExecuteRun, ApplyClaim,
         ApplyRaise, ApplyDispatch, RefreshProgress, FinaliseRun, End, InsertsCommit;
    match a
    case Complete(e, output, rows) => CompletingChanges(world, s, e, output, rows, i);
    case Clear(e) => ClearingChanges(s, e, i);
    case Reject(r) => RejectingChanges(s.db, r, i);
    case Sequential(version, config, cases) => SequentialLeaves(world, s.db, version, config, cases, i);
    case _ => OthersLeave(world, s, a, i);
  }

  predicate HasEvidence(db: Db, i: ItemId) {
    i in db.traces || RowsOf(db, i) != []
  }

  lemma CompletingChanges(world: World, s: Sys, e: ExecId, output: AdapterOutput, rows: seq<EvalRow>, i: ItemId)
    requires Enabled(s, Complete(e, output, rows)) && i in s.db.items && s.db.items[i].status.Terminal()
    ensures
      var after := ApplyComplete(world, s, e, output, rows).db;
      && i in after.items
      && (!SameRecord(s.db, after, i) <==> s.live[e].item == i)
      && (after.items[i].status != s.db.items[i].status <==> s.live[e].item == i && s.db.items[i].status.Failed())
  {
    hide DistinctEvaluators, Stamp, NewTrace;
  }

  lemma ClearingChanges(s: Sys, e: ExecId, i: ItemId)
    requires Enabled(s, Clear(e)) && i in s.db.items
    ensures
      var after := ApplyClear(s, e).db;
      && after.items == s.db.items
      && (!SameRecord(s.db, after, i) <==> s.live[e].item == i && s.live[e].retries > 0 && HasEvidence(s.db, i))
  {
  }

  lemma RejectingChanges(db: Db, r: RunId, i: ItemId)
    requires r in db.runs && i in db.items && db.items[i].status.Terminal()
    ensures
      var item, after := db.items[i], RejectRun(db, r);
      && i in after.items
      && (!SameRecord(db, after, i) <==> item.runId == r && RejectedItem(item, db.now) != item)
      && (after.items[i].status != item.status <==> item.runId == r && !item.status.Errored?)
  {
  }

  lemma OthersLeave(world: World, s: Sys, a: Action, i: ItemId)
    requires Enabled(s, a) && IdsFresh(s.db) && i in s.db.items && s.db.items[i].status.Terminal()
    requires !a.Complete? && !a.Clear? && !a.Reject? && !a.Sequential?
    ensures SameRecord(s.db, Apply(world, s, a).db, i)
    ensures i in Apply(world, s, a).db.items && Apply(world, s, a).db.items[i] == s.db.items[i]
  {
    hide CompletedOf, FailedOf, ItemsOf, IsTransient, InsertsCommit, ItemIds;
    if a.Dispatch? { assert i !in ItemIds(s.db.nextId, |a.cases|); }
  }

  lemma SequentialLeaves(world: World, db: Db, version: VersionId, config: ConfigId, cases: seq<CaseId>, i: ItemId)
    requires i in db.items && i < db.nextId
    ensures
      var after := ExecuteRun(world, db, version, config, cases);
      SameRecord(db, after, i) && i in after.items && after.items[i] == db.items[i]
  {
    hide SequentialRun, SequentialItem, NewTrace, Stamp, Ask, ItemIds;
    var r, n := db.nextId, |cases|;
    assert i !in ItemIds(r, n);
    assert i !in SequentialItems(world, version, r, cases, n, db.now);
    assert i !in SequentialTraces(world, version, r, cases, n);
    assert i !in SequentialRows(world, version, config, r, cases, n);
    hide SequentialItems, SequentialTraces, SequentialRows, AnsweredIds;
  }
}
