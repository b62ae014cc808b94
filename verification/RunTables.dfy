/** The tables a run lives in, and every transaction that writes them, as functions on the tables.
    Ids are UUIDs in the program; they are only compared, so they are naturals here. */
module RunTables {
  import opened Options
  import opened Strings
  import opened Redaction

  type RunId = nat
  type ItemId = nat
  type CaseId = nat
  type VersionId = nat
  type ConfigId = nat
  type TaskId = nat
  type ExecId = nat

  const TASK_LEASE_SECONDS := 240
  const TASK_TIME_LIMIT := 180
  const MAX_RETRIES := 2
  const ERROR_LIMIT := 1000
  const SUBMIT_ERROR := "Failed to submit task to worker queue"

  datatype ItemStatus = Queued | Running | Completed | Errored | TimedOut | Cancelled {
    predicate Terminal() { Completed? || Failed() }
    predicate Failed() { Errored? || TimedOut? || Cancelled? }
  }

  datatype RunStatus = InProgress | RunCompleted | RunPartial | RunFailed

  datatype Item = Item(
    runId: RunId,
    caseId: CaseId,
    status: ItemStatus,
    attemptCount: nat,
    workerTask: Option<TaskId>,
    leaseExpires: Option<nat>,
    latencyMs: Option<int>,
    costUsd: Option<real>,
    error: Option<string>,
    startedAt: Option<nat>,
    completedAt: Option<nat>)

  datatype AdapterOutput = AdapterOutput(answer: string, details: string, latencyMs: int, costUsd: real)

  datatype AdapterResult = Returned(output: AdapterOutput) | Threw(message: string)

  datatype EvalRow = EvalRow(
    evaluator: string,
    score: Option<real>,
    passed: Option<bool>,
    errored: bool,
    skipped: bool)

  /** `writer` is a provenance column of the model: the execution that inserted the row. */
  datatype Trace = Trace(writer: ExecId, input: CaseInput, versionConfig: Json, output: AdapterOutput)

  datatype StoredRow = StoredRow(writer: ExecId, row: EvalRow)

  datatype Run = Run(
    version: VersionId,
    config: ConfigId,
    status: RunStatus,
    caseCount: nat,
    caseCompleted: nat,
    caseErrored: nat,
    completedAt: Option<nat>)

  datatype Db = Db(
    now: nat,
    nextId: nat,
    runs: map<RunId, Run>,
    items: map<ItemId, Item>,
    traces: map<ItemId, Trace>,
    results: map<ItemId, seq<StoredRow>>)

  /** The immutable inputs of a run: adapters, evaluators, cases and versions. The adapter and the
      evaluators are foreign code, so they are arbitrary functions. */
  datatype World = World(
    adapter: (VersionId, string) -> AdapterResult,
    evaluate: (ConfigId, CaseId, AdapterOutput) -> seq<EvalRow>,
    input: CaseId -> CaseInput,
    versionConfig: VersionId -> Json)

  datatype CaseInput = TextInput(text: string) | ObjectInput(question: Option<string>)

  function ExtractQuestion(input: CaseInput): string {
    match input
    case TextInput(text) => text
    case ObjectInput(question) => if question.Some? then question.value else ""
  }

  function Ask(world: World, version: VersionId, caseId: CaseId): AdapterResult {
    world.adapter(version, ExtractQuestion(world.input(caseId)))
  }

  const TRANSIENT_KEYWORDS: seq<string> :=
    ["connection", "timeout", "temporarily unavailable", "too many connections",
     "connection refused", "operationalerror"]

  predicate IsTransient(message: string) {
    exists word | word in TRANSIENT_KEYWORDS :: Contains(Lower(message), word)
  }

  // ---- Reading ----

  function RowsOf(db: Db, i: ItemId): seq<StoredRow> {
    if i in db.results then db.results[i] else []
  }

  function ItemsOf(db: Db, r: RunId): set<ItemId> {
    set i | i in db.items && db.items[i].runId == r
  }

  function CompletedOf(db: Db, r: RunId): set<ItemId> {
    set i | i in db.items && db.items[i].runId == r && db.items[i].status.Completed?
  }

  function FailedOf(db: Db, r: RunId): set<ItemId> {
    set i | i in db.items && db.items[i].runId == r && db.items[i].status.Failed()
  }

  predicate AllTerminal(db: Db, r: RunId) {
    forall i | i in db.items && db.items[i].runId == r :: db.items[i].status.Terminal()
  }

  predicate DistinctEvaluators(rows: seq<StoredRow>) {
    forall j, k | 0 <= j < k < |rows| :: rows[j].row.evaluator != rows[k].row.evaluator
  }

  function Stamp(writer: ExecId, rows: seq<EvalRow>): (r: seq<StoredRow>)
    ensures |r| == |rows|
    ensures forall k | 0 <= k < |rows| :: r[k] == StoredRow(writer, rows[k])
  {
    seq(|rows|, k requires 0 <= k < |rows| => StoredRow(writer, rows[k]))
  }

  /** Stored rows without their provenance. */
  function PlainRows(stored: seq<StoredRow>): (r: seq<EvalRow>)
    ensures |r| == |stored| && forall k | 0 <= k < |r| :: r[k] == stored[k].row
  {
    seq(|stored|, k requires 0 <= k < |stored| => stored[k].row)
  }

  // ---- Worker transactions ----

  /** The WHERE clause of the claiming UPDATE. */
  predicate Claimable(item: Item, task: TaskId, now: nat) {
    || item.status.Queued?
    || (item.status.Running?
        && (item.workerTask == Some(task) || item.leaseExpires.None? || item.leaseExpires.value < now))
  }

  function ClaimedItem(item: Item, task: TaskId, attempt: nat, now: nat): Item {
    item.(status := Running,
          workerTask := Some(task),
          leaseExpires := Some(now + TASK_LEASE_SECONDS),
          attemptCount := attempt,
          startedAt := Some(now),
          completedAt := None,
          error := None)
  }

  function ClaimItem(db: Db, i: ItemId, task: TaskId, attempt: nat): Db {
    if i in db.items && Claimable(db.items[i], task, db.now)
    then db.(items := db.items[i := ClaimedItem(db.items[i], task, attempt, db.now)])
    else db
  }

  function ClearStale(db: Db, i: ItemId): Db {
    db.(results := db.results - {i}, traces := db.traces - {i})
  }

  /** The uniqueness constraints on traces and on (item, evaluator) let the inserts commit. */
  predicate InsertsCommit(db: Db, i: ItemId, rows: seq<EvalRow>) {
    i !in db.traces && DistinctEvaluators(RowsOf(db, i) + Stamp(0, rows))
  }

  function CompletedItem(item: Item, output: AdapterOutput, now: nat): Item {
    item.(latencyMs := Some(output.latencyMs),
          costUsd := Some(output.costUsd),
          status := Completed,
          completedAt := Some(now),
          leaseExpires := None)
  }

  function NewTrace(world: World, writer: ExecId, version: VersionId, caseId: CaseId, output: AdapterOutput): Trace {
    Trace(writer, world.input(caseId), Redact(world.versionConfig(version)), output)
  }

  /** One commit: the item row by primary key, its trace, and its results. */
  function CompleteItem(db: Db, i: ItemId, writer: ExecId, trace: Trace, rows: seq<EvalRow>): Db
    requires i in db.items
  {
    db.(items := db.items[i := CompletedItem(db.items[i], trace.output, db.now)],
        traces := db.traces[i := trace],
        results := db.results[i := RowsOf(db, i) + Stamp(writer, rows)])
  }

  function FailedItem(item: Item, message: string, attempt: nat, now: nat): Item {
    item.(status := Errored,
          error := Some(Truncate(message, ERROR_LIMIT)),
          completedAt := Some(now),
          leaseExpires := None,
          attemptCount := attempt)
  }

  function FailItem(db: Db, i: ItemId, message: string, attempt: nat): Db
    requires i in db.items
  {
    db.(items := db.items[i := FailedItem(db.items[i], message, attempt, db.now)])
  }

  function RefreshProgress(db: Db, r: RunId): Db {
    if r in db.runs
    then db.(runs := db.runs[r := db.runs[r].(caseCompleted := |CompletedOf(db, r)|,
                                              caseErrored := |FailedOf(db, r)|)])
    else db
  }

  /** The completion callback's transaction. */
  function FinaliseRun(db: Db, r: RunId): Db {
    var total, completed, failed := |ItemsOf(db, r)|, |CompletedOf(db, r)|, |FailedOf(db, r)|;
    if total > 0 && completed + failed >= total && r in db.runs
    then db.(runs := db.runs[r := db.runs[r].(status := if failed == 0 then RunCompleted else RunPartial,
                                              caseCompleted := completed,
                                              caseErrored := failed,
                                              completedAt := Some(db.now))])
    else db
  }

  // ---- Dispatch ----

  function NewItem(r: RunId, caseId: CaseId, status: ItemStatus, startedAt: Option<nat>): Item {
    Item(r, caseId, status, 1, None, None, None, None, None, startedAt, None)
  }

  /** The ids drawn for the first `count` items of run `r`: those right after the run's own id. */
  function ItemIds(r: RunId, count: nat): (ids: set<ItemId>)
    ensures forall i :: i in ids <==> r < i <= r + count
    ensures |ids| == count
  {
    if count == 0 then {} else ItemIds(r, count - 1) + {r + count}
  }

  function QueuedItems(r: RunId, cases: seq<CaseId>, count: nat): map<ItemId, Item>
    requires count <= |cases|
  {
    map i | i in ItemIds(r, count) :: NewItem(r, cases[i - r - 1], Queued, None)
  }

  function NewRun(version: VersionId, config: ConfigId, count: nat): Run {
    Run(version, config, InProgress, count, 0, 0, None)
  }

  function DispatchRun(db: Db, version: VersionId, config: ConfigId, cases: seq<CaseId>): Db {
    var r := db.nextId;
    db.(nextId := r + 1 + |cases|,
        runs := db.runs[r := NewRun(version, config, |cases|)],
        items := db.items + QueuedItems(r, cases, |cases|))
  }

  function RejectedItem(item: Item, now: nat): Item {
    item.(status := Errored, error := Some(SUBMIT_ERROR), completedAt := Some(now))
  }

  /** The dispatcher's transaction when publishing the chord raises. */
  function RejectRun(db: Db, r: RunId): Db
    requires r in db.runs
  {
    db.(runs := db.runs[r := db.runs[r].(status := RunFailed,
                                         caseErrored := db.runs[r].caseCount,
                                         completedAt := Some(db.now))],
        items := map i | i in db.items ::
                   if db.items[i].runId == r then RejectedItem(db.items[i], db.now) else db.items[i])
  }

  // ---- Sequential execution ----

  function SequentialItem(world: World, version: VersionId, r: RunId, caseId: CaseId, now: nat): Item {
    var item := NewItem(r, caseId, Running, Some(now));
    match Ask(world, version, caseId)
    case Returned(output) =>
      item.(latencyMs := Some(output.latencyMs), costUsd := Some(output.costUsd),
            status := Completed, completedAt := Some(now))
    case Threw(message) =>
      item.(status := Errored, error := Some(message), completedAt := Some(now))
  }

  /** The items among the first `count` whose case the adapter answers. */
  function AnsweredIds(world: World, version: VersionId, r: RunId, cases: seq<CaseId>, count: nat): set<ItemId>
    requires count <= |cases|
  {
    set i | i in ItemIds(r, count) && Ask(world, version, cases[i - r - 1]).Returned?
  }

  function SequentialItems(world: World, version: VersionId, r: RunId, cases: seq<CaseId>, count: nat, now: nat)
    : map<ItemId, Item>
    requires count <= |cases|
  {
    map i | i in ItemIds(r, count) :: SequentialItem(world, version, r, cases[i - r - 1], now)
  }

  /** Rows written by the sequential executor carry the run id as their writer. */
  function SequentialTraces(world: World, version: VersionId, r: RunId, cases: seq<CaseId>, count: nat)
    : map<ItemId, Trace>
    requires count <= |cases|
  {
    map i | i in AnsweredIds(world, version, r, cases, count) ::
      NewTrace(world, r, version, cases[i - r - 1], Ask(world, version, cases[i - r - 1]).output)
  }

  function SequentialRows(world: World, version: VersionId, config: ConfigId, r: RunId, cases: seq<CaseId>, count: nat)
    : map<ItemId, seq<StoredRow>>
    requires count <= |cases|
  {
    map i | i in AnsweredIds(world, version, r, cases, count) ::
      Stamp(r, world.evaluate(config, cases[i - r - 1], Ask(world, version, cases[i - r - 1]).output))
  }

  function SequentialRun(world: World, version: VersionId, config: ConfigId, r: RunId, cases: seq<CaseId>,
      now: nat): Run
  {
    var answered := AnsweredIds(world, version, r, cases, |cases|);
    var errored := |ItemIds(r, |cases|) - answered|;
    Run(version, config, if errored == 0 then RunCompleted else RunPartial, |cases|, |answered|, errored, Some(now))
  }

  function ExecuteRun(world: World, db: Db, version: VersionId, config: ConfigId, cases: seq<CaseId>): Db {
    var r, n := db.nextId, |cases|;
    db.(nextId := r + 1 + n,
        runs := db.runs[r := SequentialRun(world, version, config, r, cases, db.now)],
        items := db.items + SequentialItems(world, version, r, cases, n, db.now),
        traces := db.traces + SequentialTraces(world, version, r, cases, n),
        results := db.results + SequentialRows(world, version, config, r, cases, n))
  }

  // ---- Case selection ----

  datatype SelectionError = EmptySuite | DuplicateIds | MissingIds

  predicate Distinct<T(==)>(s: seq<T>) {
    forall j, k | 0 <= j < k < |s| :: s[j] != s[k]
  }

  function LoadSuiteCases(suite: seq<CaseId>, ids: Option<seq<CaseId>>): seq<CaseId> {
    if suite == [] then []
    else
      var rest := LoadSuiteCases(suite[1..], ids);
      if ids.None? || suite[0] in ids.value then [suite[0]] + rest else rest
  }

  /** The selection made by `load_suite_cases` followed by `validate_selected_cases`. */
  function SelectCases(suite: seq<CaseId>, ids: Option<seq<CaseId>>): Result<seq<CaseId>, SelectionError> {
    var cases := LoadSuiteCases(suite, ids);
    match ids
    case None => if cases == [] then Err(EmptySuite) else Ok(cases)
    case Some(wanted) =>
      if |wanted| != |set x | x in wanted| then Err(DuplicateIds)
      else if !((set x | x in wanted) <= (set x | x in cases)) then Err(MissingIds)
      else Ok(cases)
  }
}
