/** The concurrent protocol refines `execute_run`: however deliveries interleave, repeat and retry,
    a finished run leaves what the sequential executor leaves for the same cases. */
module SequentialRefinement {
  import opened Options
  import opened Strings
  import opened Redaction
  import opened RunTables
  import opened WorkerProtocol
  import opened WorkerEvidence
  import opened WorkerSafety
  import opened WorkerTheorems

  datatype Evidence = Evidence(input: CaseInput, versionConfig: Json, output: AdapterOutput)

  /** What a run leaves for one case, apart from attempt counts, timestamps, task ids and the
      truncation of error texts. */
  datatype Outcome = Outcome(
    status: ItemStatus,
    latencyMs: Option<int>,
    costUsd: Option<real>,
    error: Option<string>,
    evidence: Option<Evidence>,
    rows: seq<EvalRow>)

  function Shorten(error: Option<string>): Option<string> {
    if error.None? then None else Some(Truncate(error.value, ERROR_LIMIT))
  }

  function OutcomeOf(db: Db, i: ItemId): Outcome
    requires i in db.items
  {
    var item := db.items[i];
    Outcome(item.status, item.latencyMs, item.costUsd, Shorten(item.error),
            if i in db.traces
            then Some(Evidence(db.traces[i].input, db.traces[i].versionConfig, db.traces[i].output))
            else None,
            PlainRows(RowsOf(db, i)))
  }

  /** The adapter's answer to a case's question: its text, or its question field when it has one. */
  function Answer(world: World, version: VersionId, caseId: CaseId): AdapterResult {
    var input := world.input(caseId);
    world.adapter(version,
      if input.TextInput? then input.text else if input.question.Some? then input.question.value else "")
  }

  /** The outcome the adapter and the evaluators determine for a case. */
  function Expected(world: World, version: VersionId, config: ConfigId, caseId: CaseId): Outcome {
    match Answer(world, version, caseId)
    case Returned(output) =>
      Outcome(Completed, Some(output.latencyMs), Some(output.costUsd), None,
              Some(Evidence(world.input(caseId), Redact(world.versionConfig(version)), output)),
              world.evaluate(config, caseId, output))
    case Threw(message) =>
      Outcome(Errored, None, None, Some(Truncate(message, ERROR_LIMIT)), None, [])
  }

  /** What the sequential executor writes, field by field: a closed run over the cases given, and for the k-th
      case an item tried once that shows the adapter's answer or its whole error text. Known items stay. */
  lemma ExecutedAsSelected(world: World, db: Db, version: VersionId, config: ConfigId, cases: seq<CaseId>, i: ItemId)
    requires db.nextId < i <= db.nextId + |cases|
    ensures
      var r, after := db.nextId, ExecuteRun(world, db, version, config, cases);
      && after.nextId == r + 1 + |cases| && r in after.runs && i in after.items
      && var run, item := after.runs[r], after.items[i];
         && run.version == version && run.config == config && run.caseCount == |cases|
         && run.completedAt == Some(db.now)
         && item.runId == r && item.caseId == cases[i - r - 1] && item.attemptCount == 1
         && item.workerTask == None && item.leaseExpires == None
         && item.startedAt == Some(db.now) && item.completedAt == Some(db.now)
         && match Answer(world, version, item.caseId)
            case Returned(output) =>
              && item.status.Completed? && item.error == None
              && item.latencyMs == Some(output.latencyMs) && item.costUsd == Some(output.costUsd)
            case Threw(message) =>
              item.status.Errored? && item.error == Some(message) && item.latencyMs == None && item.costUsd == None
    ensures
      var after := ExecuteRun(world, db, version, config, cases);
      forall k | k in db.items && k < db.nextId :: k in after.items && after.items[k] == db.items[k]
  {
    hide SequentialTraces, SequentialRows, AnsweredIds, ItemIds, SequentialItem, SequentialItems, Answer;
    SequentialItemIs(world, version, db.nextId, cases[i - db.nextId - 1], db.now);
    SequentialItemsAre(world, version, db.nextId, cases, db.now);
  }

  lemma SequentialItemsAre(world: World, version: VersionId, r: RunId, cases: seq<CaseId>, now: nat)
    ensures
      var items := SequentialItems(world, version, r, cases, |cases|, now);
      && (forall i :: i in items <==> r < i <= r + |cases|)
      && (forall i | r < i <= r + |cases| :: items[i] == SequentialItem(world, version, r, cases[i - r - 1], now))
  {
    hide ItemIds, SequentialItem;
  }

  lemma SequentialItemIs(world: World, version: VersionId, r: RunId, caseId: CaseId, now: nat)
    ensures
      var item := SequentialItem(world, version, r, caseId, now);
      && item.runId == r && item.caseId == caseId && item.attemptCount == 1
      && item.workerTask == None && item.leaseExpires == None
      && item.startedAt == Some(now) && item.completedAt == Some(now)
      && match Answer(world, version, caseId)
         case Returned(output) =>
           && item.status.Completed? && item.error == None
           && item.latencyMs == Some(output.latencyMs) && item.costUsd == Some(output.costUsd)
         case Threw(message) =>
           item.status.Errored? && item.error == Some(message) && item.latencyMs == None && item.costUsd == None
  {
  }

  /** Each case has one outcome: executions report what the adapter and evaluators determine, and
      only a failure of the adapter itself is ever final. Retried failures may be anything. */
  predicate Deterministic(world: World, s: Sys, a: Action)
    requires Enabled(s, a)
  {
    match a
    case Complete(e, output, rows) =>
      var item := s.db.items[s.live[e].item];
      var run := s.db.runs[item.runId];
      Answer(world, run.version, item.caseId) == Returned(output)
      && rows == world.evaluate(run.config, item.caseId, output)
    case Raise(e, message) =>
      WritesFailure(s, s.live[e], message) ==>
        var item := s.db.items[s.live[e].item];
        item.runId in s.db.runs && Answer(world, s.db.runs[item.runId].version, item.caseId) == Threw(message)
    case _ => true
  }

  predicate Blank(item: Item) {
    item.latencyMs.None? && item.costUsd.None? && item.error.None?
  }

  /** Terminal items show the expected outcome and unfinished ones nothing, except in a rejected run. */
  predicate FaithfulItem(world: World, db: Db, i: ItemId)
    requires i in db.items && db.items[i].runId in db.runs
  {
    var item, run := db.items[i], db.runs[db.items[i].runId];
    || run.status.RunFailed?
    || (item.status.Terminal() && OutcomeOf(db, i) == Expected(world, run.version, run.config, item.caseId))
    || (!item.status.Terminal() && Blank(item))
  }

  ghost predicate Faithful(world: World, db: Db) {
    forall i | i in db.items :: db.items[i].runId in db.runs && FaithfulItem(world, db, i)
  }

  // ---- Steps ----

  lemma FaithfulFrame(world: World, a: Db, b: Db, i: ItemId)
    requires i in a.items && a.items[i].runId in a.runs && FaithfulItem(world, a, i) && Evolves(a, b)
    requires a.runs[a.items[i].runId].status.RunFailed? ==> b.runs[a.items[i].runId].status.RunFailed?
    requires a.items[i].status.Terminal() || b.items[i] == a.items[i]
    ensures FaithfulItem(world, b, i)
  {
    if a.items[i].status.Terminal() { assert SameRecord(a, b, i); }
  }

  lemma CompletedIsExpected(world: World, s: Sys, e: ExecId, output: AdapterOutput, rows: seq<EvalRow>)
    requires Enabled(s, Complete(e, output, rows)) && Deterministic(world, s, Complete(e, output, rows))
    requires EvidenceAtomic(s.db)
    requires !s.db.items[s.live[e].item].status.Terminal() && Blank(s.db.items[s.live[e].item])
    ensures FaithfulItem(world, Apply(world, s, Complete(e, output, rows)).db, s.live[e].item)
  {
    var i := s.live[e].item;
    var t := ApplyComplete(world, s, e, output, rows);
    CompleteEvidence(s.db, i, e, t.db.traces[i], rows);
    assert RowsOf(t.db, i) == Stamp(e, rows);
    assert PlainRows(Stamp(e, rows)) == rows;
  }

  lemma FailedIsExpected(world: World, s: Sys, e: ExecId, message: string)
    requires Enabled(s, Raise(e, message)) && Deterministic(world, s, Raise(e, message))
    requires WritesFailure(s, s.live[e], message) && EvidenceExact(s.db)
    requires Blank(s.db.items[s.live[e].item])
    ensures FaithfulItem(world, Apply(world, s, Raise(e, message)).db, s.live[e].item)
  {
    var i := s.live[e].item;
    var t := ApplyRaise(s, e, message);
    assert i !in s.db.traces && RowsOf(t.db, i) == [];
    var short := Truncate(message, ERROR_LIMIT);
    assert Truncate(short, ERROR_LIMIT) == short;
    assert PlainRows([]) == [];
  }

  lemma SequentialIsExpected(world: World, db: Db, version: VersionId, config: ConfigId, cases: seq<CaseId>, i: ItemId)
    requires i in ItemIds(db.nextId, |cases|) && EvidenceAtomic(db) && i !in db.items
    ensures
      var after := ExecuteRun(world, db, version, config, cases);
      && i in after.items && after.items[i].caseId == cases[i - db.nextId - 1]
      && after.items[i].status.Terminal()
      && OutcomeOf(after, i) == Expected(world, version, config, after.items[i].caseId)
  {
    hide ItemIds, SequentialRun, SequentialItems, SequentialTraces, SequentialRows, OutcomeOf, Expected,
         SequentialItem, Ask;
    SequentialRowsAt(world, version, config, db.nextId, cases, i, db.now);
    assert i !in db.traces && i !in db.results;
    SequentialOutcome(world, ExecuteRun(world, db, version, config, cases), version, config, db.nextId,
      cases[i - db.nextId - 1], i, db.now);
  }

  /** What the sequential executor writes for one drawn item id. */
  lemma SequentialRowsAt(world: World, version: VersionId, config: ConfigId, r: RunId, cases: seq<CaseId>, i: ItemId,
      now: nat)
    requires i in ItemIds(r, |cases|)
    ensures
      var caseId, n := cases[i - r - 1], |cases|;
      var items, traces := SequentialItems(world, version, r, cases, n, now),
        SequentialTraces(world, version, r, cases, n);
      var rows := SequentialRows(world, version, config, r, cases, n);
      && i in items && items[i] == SequentialItem(world, version, r, caseId, now)
      && (i in traces <==> Ask(world, version, caseId).Returned?) && (i in rows <==> i in traces)
      && (i in traces ==>
            && traces[i] == NewTrace(world, r, version, caseId, Ask(world, version, caseId).output)
            && rows[i] == Stamp(r, world.evaluate(config, caseId, Ask(world, version, caseId).output)))
  {
    hide ItemIds, SequentialItem, Ask, NewTrace, Stamp;
  }

  lemma SequentialOutcome(world: World, after: Db, version: VersionId, config: ConfigId, r: RunId, caseId: CaseId,
      i: ItemId, now: nat)
    requires i in after.items && after.items[i] == SequentialItem(world, version, r, caseId, now)
    requires Ask(world, version, caseId).Returned? ==>
      var output := Ask(world, version, caseId).output;
      && i in after.traces && after.traces[i] == NewTrace(world, r, version, caseId, output)
      && RowsOf(after, i) == Stamp(r, world.evaluate(config, caseId, output))
    requires Ask(world, version, caseId).Threw? ==> i !in after.traces && RowsOf(after, i) == []
    ensures after.items[i].caseId == caseId && after.items[i].status.Terminal()
    ensures OutcomeOf(after, i) == Expected(world, version, config, caseId)
  {
    match Ask(world, version, caseId)
    case Returned(output) =>
      assert PlainRows(Stamp(r, world.evaluate(config, caseId, output))) == world.evaluate(config, caseId, output);
    case Threw(message) =>
      assert PlainRows([]) == [];
  }

  lemma FaithfulStep(world: World, s: Sys, a: Action)
    requires Inv(s) && Enabled(s, a) && Assumed(s, a) && Deterministic(world, s, a) && ValidatedConfigs(world)
    requires Faithful(world, s.db)
    ensures Faithful(world, Apply(world, s, a).db)
  {
    hide TablesAgree, ChordInv, ExecInv, Exclusive, SameRecord;
    var t := Apply(world, s, a);
    Step(world, s, a);
    RowsHaveRuns(t.db);
    forall i | i in t.db.items ensures FaithfulItem(world, t.db, i) {
      FaithfulStepAt(world, s, a, i);
    }
  }

  lemma RowsHaveRuns(db: Db)
    requires TablesAgree(db)
    ensures forall i | i in db.items :: db.items[i].runId in db.runs
  {
    hide EvidenceExact, ProgressAgrees, CasesUnique, CasesCounted;
  }

  lemma FaithfulStepAt(world: World, s: Sys, a: Action, i: ItemId)
    requires Inv(s) && Enabled(s, a) && Assumed(s, a) && Deterministic(world, s, a) && ValidatedConfigs(world)
    requires Faithful(world, s.db) && i in Apply(world, s, a).db.items
      && Apply(world, s, a).db.items[i].runId in Apply(world, s, a).db.runs
    ensures FaithfulItem(world, Apply(world, s, a).db, i)
  {
    hide TablesAgree, ChordInv, Exclusive, SameRecord, FaithfulItem, Expected, OutcomeOf, Evolves;
    var t := Apply(world, s, a);
    Step(world, s, a);
    if i in s.db.items {
      StepCountsUp(world, s, a, s.db.items[i].runId);
      if s.db.items[i].status.Terminal() || t.db.items[i] == s.db.items[i] {
        FaithfulFrame(world, s.db, t.db, i);
      } else {
        ChangedItemIsFaithful(world, s, a, i);
      }
    } else {
      NewItemIsFaithful(world, s, a, i);
    }
  }

  lemma ChangedItemIsFaithful(world: World, s: Sys, a: Action, i: ItemId)
    requires Inv(s) && Enabled(s, a) && Assumed(s, a) && Deterministic(world, s, a) && ValidatedConfigs(world)
    requires i in s.db.items && s.db.items[i].runId in s.db.runs && FaithfulItem(world, s.db, i)
      && !s.db.items[i].status.Terminal()
    requires i in Apply(world, s, a).db.items && Apply(world, s, a).db.items[i] != s.db.items[i]
    requires Apply(world, s, a).db.items[i].runId in Apply(world, s, a).db.runs
    ensures FaithfulItem(world, Apply(world, s, a).db, i)
  {
    hide CasesUnique, CasesCounted, ProgressAgrees, ExecInv, Exclusive, ChordInv, ItemIds, SequentialItems,
         SequentialTraces, SequentialRows, AnsweredIds, SequentialRun, Expected, OutcomeOf, InsertsCommit,
         FaithfulItem;
    if s.db.runs[s.db.items[i].runId].status.RunFailed? {
      RejectedStaysFaithful(world, s, a, i);
      return;
    }
    NotRejectedIsBlank(world, s.db, i);
    assert KeysDrawn(s.db);
    ItemChanges(world, s, a, i);
    match a
    case Reject(r) => RejectedItemsAreFaithful(world, s, r, i);
    case Claim(e) => ClaimedIsFaithful(world, s, e);
    case Complete(e, output, rows) => CompletedIsExpected(world, s, e, output, rows);
    case Raise(e, message) => FailedIsExpected(world, s, e, message);
    case _ => assert false;
  }

  /** Only these steps change an item that exists, and each only its own. */
  lemma ItemChanges(world: World, s: Sys, a: Action, i: ItemId)
    requires KeysDrawn(s.db) && Enabled(s, a) && i in s.db.items
    requires i in Apply(world, s, a).db.items && Apply(world, s, a).db.items[i] != s.db.items[i]
    ensures
      match a
      case Claim(e) => e in s.live && s.live[e].item == i
      case Complete(e, _, _) => e in s.live && s.live[e].item == i
      case Raise(e, message) => e in s.live && s.live[e].item == i && WritesFailure(s, s.live[e], message)
      case Reject(r) => true
      case _ => false
  {
    hide ItemIds, SequentialItems, SequentialTraces, SequentialRows, AnsweredIds, SequentialRun, InsertsCommit,
         CompletedOf, FailedOf, ItemsOf;
    match a
    case Sequential(version, config, cases) => SequentialDomain(world, s.db, version, cases);
    case _ =>
  }

  lemma NotRejectedIsBlank(world: World, db: Db, i: ItemId)
    requires i in db.items && db.items[i].runId in db.runs && FaithfulItem(world, db, i)
    requires !db.items[i].status.Terminal() && !db.runs[db.items[i].runId].status.RunFailed?
    ensures Blank(db.items[i])
  {
    hide Expected, OutcomeOf;
  }

  lemma RejectedStaysFaithful(world: World, s: Sys, a: Action, i: ItemId)
    requires Inv(s) && Enabled(s, a) && Assumed(s, a) && ValidatedConfigs(world)
    requires i in s.db.items && s.db.items[i].runId in s.db.runs && s.db.runs[s.db.items[i].runId].status.RunFailed?
    requires i in Apply(world, s, a).db.items && Apply(world, s, a).db.items[i].runId in Apply(world, s, a).db.runs
    ensures FaithfulItem(world, Apply(world, s, a).db, i)
  {
    hide Inv, Apply, Enabled, Assumed, Expected, OutcomeOf, SameRecord;
    StepCountsUp(world, s, a, s.db.items[i].runId);
    Step(world, s, a);
  }

  lemma RejectedItemsAreFaithful(world: World, s: Sys, r: RunId, i: ItemId)
    requires Enabled(s, Reject(r)) && i in s.db.items && s.db.items[i].runId in s.db.runs
    requires r in s.db.runs && RejectRun(s.db, r).items[i] != s.db.items[i]
    ensures FaithfulItem(world, RejectRun(s.db, r), i)
  {
    hide Expected, OutcomeOf;
  }

  lemma ClaimedIsFaithful(world: World, s: Sys, e: ExecId)
    requires Enabled(s, Claim(e)) && s.live[e].item in s.db.items && s.db.items[s.live[e].item].runId in s.db.runs
    requires Blank(s.db.items[s.live[e].item])
    requires ApplyClaim(s, e).db.items[s.live[e].item] != s.db.items[s.live[e].item]
    ensures FaithfulItem(world, ApplyClaim(s, e).db, s.live[e].item)
  {
    hide Expected, OutcomeOf;
  }

  lemma NewItemIsFaithful(world: World, s: Sys, a: Action, i: ItemId)
    requires Inv(s) && Enabled(s, a) && i !in s.db.items
    requires i in Apply(world, s, a).db.items && Apply(world, s, a).db.items[i].runId in Apply(world, s, a).db.runs
    ensures FaithfulItem(world, Apply(world, s, a).db, i)
  {
    hide Structured, ProgressAgrees, ExecInv, ChordInv, Exclusive, ItemIds, SequentialItems, SequentialTraces,
         SequentialRows, AnsweredIds, Expected, OutcomeOf, EvidenceAtomic;
    match a
    case Dispatch(version, config, cases) =>
      assert i in QueuedItems(s.db.nextId, cases, |cases|);
    case Sequential(version, config, cases) =>
      SequentialDomain(world, s.db, version, cases);
      assert EvidenceExact(s.db);
      SequentialIsExpected(world, s.db, version, config, cases, i);
    case _ => assert false;
  }

  lemma SequentialDomain(world: World, db: Db, version: VersionId, cases: seq<CaseId>)
    ensures
      var items := SequentialItems(world, version, db.nextId, cases, |cases|, db.now);
      items.Keys == ItemIds(db.nextId, |cases|) && forall i | i in items :: items[i].runId == db.nextId
  {
    hide ItemIds;
  }

  lemma {:induction false} FaithfulThroughout(world: World, ss: seq<Sys>, acts: seq<Action>, n: nat)
    requires SafeRun(world, ss, acts) && AllDeterministic(world, ss, acts) && n < |ss|
    ensures Faithful(world, ss[n].db)
  {
    hide Inv, Apply, Enabled, Assumed, Faithful, Deterministic;
    if n == 0 {
      InitiallyFaithful(world);
    } else {
      FaithfulThroughout(world, ss, acts, n - 1);
      Reachable(world, ss, acts, n - 1);
      FaithfulStep(world, ss[n - 1], acts[n - 1]);
    }
  }

  lemma InitiallyFaithful(world: World)
    ensures Faithful(world, INITIAL.db)
  {
  }

  ghost predicate AllDeterministic(world: World, ss: seq<Sys>, acts: seq<Action>)
    requires Behaviour(world, ss, acts)
  {
    forall k | 0 <= k < |acts| :: Deterministic(world, ss[k], acts[k])
  }

  // ---- Two finished runs over the same cases agree ----

  function CasesOf(db: Db, ids: set<ItemId>): set<CaseId>
    requires ids <= db.items.Keys
  {
    set i | i in ids :: db.items[i].caseId
  }

  lemma {:induction false} CasesOfCard(db: Db, ids: set<ItemId>)
    requires ids <= db.items.Keys
    requires forall i, j | i in ids && j in ids && i != j :: db.items[i].caseId != db.items[j].caseId
    ensures |CasesOf(db, ids)| == |ids|
  {
    if ids == {} {
    } else {
      var i :| i in ids;
      CasesOfCard(db, ids - {i});
      assert CasesOf(db, ids) == CasesOf(db, ids - {i}) + {db.items[i].caseId};
    }
  }

  /** Run `r` of this version and configuration is finished, on tables that agree and are faithful. */
  ghost predicate FinishedAs(world: World, db: Db, r: RunId, version: VersionId, config: ConfigId) {
    && TablesAgree(db) && Faithful(world, db) && r in db.runs
    && (db.runs[r].status.RunCompleted? || db.runs[r].status.RunPartial?)
    && db.runs[r].version == version && db.runs[r].config == config
  }

  /** The same outcome for every case, and the same run row up to its timestamp. */
  ghost predicate SameRun(a: Db, r: RunId, b: Db, q: RunId) {
    && r in a.runs && q in b.runs
    && CasesOf(a, ItemsOf(a, r)) == CasesOf(b, ItemsOf(b, q))
    && (forall i, j | i in ItemsOf(a, r) && j in ItemsOf(b, q) && a.items[i].caseId == b.items[j].caseId ::
          OutcomeOf(a, i) == OutcomeOf(b, j))
    && b.runs[q] == a.runs[r].(completedAt := b.runs[q].completedAt)
  }

  lemma FinishedItem(world: World, db: Db, r: RunId, version: VersionId, config: ConfigId, i: ItemId)
    requires FinishedAs(world, db, r, version, config) && i in ItemsOf(db, r)
    ensures db.items[i].status.Terminal() && OutcomeOf(db, i) == Expected(world, version, config, db.items[i].caseId)
    ensures db.items[i].status.Completed? <==> Ask(world, version, db.items[i].caseId).Returned?
  {
    hide Structured, EvidenceExact;
    assert ProgressAgrees(db, r);
    assert FaithfulItem(world, db, i);
  }

  lemma FinishedCounts(world: World, db: Db, r: RunId, version: VersionId, config: ConfigId)
    requires FinishedAs(world, db, r, version, config)
    ensures
      var cases := CasesOf(db, ItemsOf(db, r));
      var answered := set c | c in cases && Ask(world, version, c).Returned?;
      && db.runs[r].caseCount == |cases|
      && db.runs[r].caseCompleted == |answered|
      && db.runs[r].caseErrored == |cases| - |answered|
  {
    hide EvidenceExact, FaithfulItem;
    var cases := CasesOf(db, ItemsOf(db, r));
    var answered := set c | c in cases && Ask(world, version, c).Returned?;
    CasesOfCard(db, ItemsOf(db, r));
    CasesOfCard(db, CompletedOf(db, r));
    forall i | i in ItemsOf(db, r)
      ensures i in CompletedOf(db, r) <==> Ask(world, version, db.items[i].caseId).Returned?
    {
      FinishedItem(world, db, r, version, config, i);
    }
    assert CasesOf(db, CompletedOf(db, r)) == answered;
    assert ProgressAgrees(db, r);
    CountsPartition(db, r);
  }

  /** Two finished runs of one version and configuration over the same cases are the same run,
      whatever executed them. */
  lemma FinishedRunsAgree(world: World, a: Db, r: RunId, b: Db, q: RunId, version: VersionId, config: ConfigId)
    requires FinishedAs(world, a, r, version, config) && FinishedAs(world, b, q, version, config)
    requires CasesOf(a, ItemsOf(a, r)) == CasesOf(b, ItemsOf(b, q))
    ensures SameRun(a, r, b, q)
  {
    hide Structured, EvidenceExact, FaithfulItem, Faithful, OutcomeOf, Expected;
    FinishedCounts(world, a, r, version, config);
    FinishedCounts(world, b, q, version, config);
    assert ProgressAgrees(a, r) && ProgressAgrees(b, q);
    forall i, j | i in ItemsOf(a, r) && j in ItemsOf(b, q) && a.items[i].caseId == b.items[j].caseId
      ensures OutcomeOf(a, i) == OutcomeOf(b, j)
    {
      FinishedItem(world, a, r, version, config, i);
      FinishedItem(world, b, q, version, config, j);
    }
  }

  /** The refinement theorem. Take any run of the system, with deliveries repeated, retried, killed
      and interleaved at will, in which cases have determined outcomes. Once a run is finished, what
      it left is what `execute_run` leaves when it is given the same cases in any order. */
  lemma RefinesExecuteRun(world: World, ss: seq<Sys>, acts: seq<Action>, n: nat, r: RunId, cases: seq<CaseId>)
    requires SafeRun(world, ss, acts) && AllDeterministic(world, ss, acts) && n < |ss|
    requires
      var db := ss[n].db;
      && r in db.runs && (db.runs[r].status.RunCompleted? || db.runs[r].status.RunPartial?)
      && Distinct(cases) && (set c | c in cases) == CasesOf(db, ItemsOf(db, r))
    ensures
      var db := ss[n].db;
      SameRun(db, r, ExecuteRun(world, db, db.runs[r].version, db.runs[r].config, cases), db.nextId)
  {
    hide Behaviour, AllAssumed, AllDeterministic, Deterministic, Faithful, TablesAgree, SameRun, CasesOf;
    var db, version, config := ss[n].db, ss[n].db.runs[r].version, ss[n].db.runs[r].config;
    Reachable(world, ss, acts, n);
    FaithfulThroughout(world, ss, acts, n);
    SequentialFinishes(world, db, version, config, cases);
    FinishedRunsAgree(world, db, r, ExecuteRun(world, db, version, config, cases), db.nextId, version, config);
  }

  lemma SequentialFinishes(world: World, db: Db, version: VersionId, config: ConfigId, cases: seq<CaseId>)
    requires TablesAgree(db) && Faithful(world, db) && Distinct(cases) && ValidatedConfigs(world)
    ensures
      var after := ExecuteRun(world, db, version, config, cases);
      && FinishedAs(world, after, db.nextId, version, config)
      && CasesOf(after, ItemsOf(after, db.nextId)) == (set c | c in cases)
  {
    hide TablesAgree, Faithful, ExecInv, ChordInv, ItemIds, CasesOf, SequentialItems, SequentialTraces,
         SequentialRows, AnsweredIds, ValidatedConfigs;
    var quiet, a := Sys(db, map[], map[], map[]), Action.Sequential(version, config, cases);
    FaithfulStep(world, quiet, a);
    Step(world, quiet, a);
    SequentialCases(world, db, version, config, cases);
  }

  lemma SequentialCases(world: World, db: Db, version: VersionId, config: ConfigId, cases: seq<CaseId>)
    requires TablesAgree(db) && Distinct(cases) && ValidatedConfigs(world)
    ensures
      var after := ExecuteRun(world, db, version, config, cases);
      CasesOf(after, ItemsOf(after, db.nextId)) == (set c | c in cases)
  {
    hide TablesAgree, ItemIds, SequentialItems, SequentialTraces, SequentialRows, AnsweredIds, FinishedRows,
         ValidatedConfigs, SequentialRun, CasesOf, ItemsOf, InsertRun, ExecuteRun;
    var r, n := db.nextId, |cases|;
    SequentialInserts(world, db, version, config, cases);
    SequentialFinished(world, db, version, config, cases);
    SequentialItemCases(world, version, r, cases, db.now);
    InsertedCases(db, r + 1 + n, SequentialRun(world, version, config, r, cases, db.now),
                  SequentialItems(world, version, r, cases, n, db.now),
                  SequentialTraces(world, version, r, cases, n), SequentialRows(world, version, config, r, cases, n),
                  cases);
  }

  lemma InsertedCases(db: Db, next: nat, run: Run, items: map<ItemId, Item>, traces: map<ItemId, Trace>,
      rows: map<ItemId, seq<StoredRow>>, cases: seq<CaseId>)
    requires TablesAgree(db) && FinishedRows(db.nextId, next, run, items, traces, rows)
    requires items.Keys == ItemIds(db.nextId, |cases|)
    requires forall i | i in items :: items[i].caseId == cases[i - db.nextId - 1]
    ensures
      var after := InsertRun(db, next, run, items, traces, rows);
      CasesOf(after, ItemsOf(after, db.nextId)) == (set c | c in cases)
  {
    hide EvidenceExact, ProgressAgrees, CasesUnique, CasesCounted, ItemIds, FinishedRows, CasesOf, ItemsOf,
         CompletedOf, FailedOf, AllTerminal, AddsRows, InsertRun;
    var after := InsertRun(db, next, run, items, traces, rows);
    assert KeysDrawn(db);
    InsertedItems(db, next, run, items, traces, rows);
    InsertedAsGiven(db, next, run, items, traces, rows);
    ItemCases(after, db.nextId, items, cases);
  }

  lemma InsertedAsGiven(db: Db, next: nat, run: Run, items: map<ItemId, Item>, traces: map<ItemId, Trace>,
      rows: map<ItemId, seq<StoredRow>>)
    ensures forall i | i in items :: i in InsertRun(db, next, run, items, traces, rows).items
                                     && InsertRun(db, next, run, items, traces, rows).items[i] == items[i]
  {
  }

  lemma SequentialItemCases(world: World, version: VersionId, r: RunId, cases: seq<CaseId>, now: nat)
    ensures
      var items := SequentialItems(world, version, r, cases, |cases|, now);
      items.Keys == ItemIds(r, |cases|) && forall i | i in items :: items[i].caseId == cases[i - r - 1]
  {
    hide ItemIds;
  }

  lemma ItemCases(db: Db, r: RunId, items: map<ItemId, Item>, cases: seq<CaseId>)
    requires items.Keys == ItemIds(r, |cases|) && ItemsOf(db, r) == items.Keys
    requires forall i | i in items :: i in db.items && db.items[i] == items[i] && items[i].caseId == cases[i - r - 1]
    ensures CasesOf(db, ItemsOf(db, r)) == (set c | c in cases)
  {
    hide ItemIds;
    var mine := CasesOf(db, ItemsOf(db, r));
    forall c | c in mine ensures c in cases {
      var i :| i in items && items[i].caseId == c;
    }
    forall c | c in cases ensures c in mine {
      var k :| 0 <= k < |cases| && cases[k] == c;
      assert r + 1 + k in items && db.items[r + 1 + k].caseId == c;
    }
  }
}
