/** The database the workers, the dispatcher and the sequential executor write to, as an object
    whose methods do what their transactions do, statement by statement. */
module RunStore {
  import opened Options
  import opened Strings
  import opened RunTables
  import opened WorkerProtocol
  import opened WorkerSafety

  datatype RunError = InvalidSelection(reason: SelectionError) | DispatchFailed(run: RunId)

  datatype TaskResult = AlreadyTerminal | AlreadyInProgress | TaskCompleted | TaskErrored | RetryScheduled

  const INTEGRITY_ERROR := "duplicate key value violates unique constraint"

  /** What became of an attempt after its item was claimed: the error that ends it, if any. */
  function AttemptError(db: Db, i: ItemId, attempt: AdapterResult, rows: seq<EvalRow>): Option<string> {
    match attempt
    case Threw(message) => Some(message)
    case Returned(_) => if InsertsCommit(db, i, rows) then None else Some(INTEGRITY_ERROR)
  }

  /** The tables after a claimed item was prepared for an attempt. */
  function Prepared(db: Db, i: ItemId, task: TaskId, retries: nat): Db {
    var claimed := ClaimItem(db, i, task, retries + 1);
    if retries > 0 then ClearStale(claimed, i) else claimed
  }

  predicate ClaimSucceeds(db: Db, i: ItemId, task: TaskId) {
    i in db.items && !db.items[i].status.Terminal() && Claimable(db.items[i], task, db.now)
  }

  /** From the adapter call to the end of the task, on tables where the item is claimed. */
  function Attempted(db: Db, e: ExecId, i: ItemId, retries: nat, attempt: AdapterResult, trace: Trace,
      rows: seq<EvalRow>): Db
    requires i in db.items
  {
    var run := db.items[i].runId;
    match AttemptError(db, i, attempt, rows)
    case None => RefreshProgress(CompleteItem(db, i, e, trace, rows), run)
    case Some(message) =>
      if IsTransient(message) && retries < MAX_RETRIES then db
      else RefreshProgress(FailItem(db, i, message, retries + 1), run)
  }

  /** A whole delivery of `run_eval_case` that nothing interrupts. */
  function RunAlone(db: Db, e: ExecId, i: ItemId, task: TaskId, retries: nat, attempt: AdapterResult, trace: Trace,
      rows: seq<EvalRow>): Db
  {
    if ClaimSucceeds(db, i, task)
    then Attempted(Prepared(db, i, task, retries), e, i, retries, attempt, trace, rows)
    else db
  }

  class Store {
    var now: nat
    var nextId: nat
    var runs: map<RunId, Run>
    var items: map<ItemId, Item>
    var traces: map<ItemId, Trace>
    var results: map<ItemId, seq<StoredRow>>

    function Model(): Db
      reads this
    {
      Db(now, nextId, runs, items, traces, results)
    }

    constructor ()
      ensures Model() == EMPTY_DB
    {
      now, nextId := 0, 0;
      runs, items, traces, results := map[], map[], map[], map[];
    }

    /** The row of run `r`, if it exists, holds the true numbers of completed and of failed items. */
    predicate CountsStored(r: RunId)
      reads this
    {
      r in runs ==>
        runs[r].caseCompleted == |CompletedOf(Model(), r)| && runs[r].caseErrored == |FailedOf(Model(), r)|
    }

    method ClaimRunItem(i: ItemId, task: TaskId, attempt: nat) returns (won: bool)
      modifies this`items
      ensures Model() == ClaimItem(old(Model()), i, task, attempt)
      ensures won ==> i in old(items)
      ensures i in old(items) ==>
        var item := old(items)[i];
        won == (item.status.Queued? || (item.status.Running?
          && (item.workerTask == Some(task) || item.leaseExpires.None? || item.leaseExpires.value < now)))
      ensures items == if won
        then old(items)[i := old(items)[i].(status := Running, workerTask := Some(task),
               leaseExpires := Some(now + 240), attemptCount := attempt, startedAt := Some(now), completedAt := None,
               error := None)]
        else old(items)
    {
      won := i in items && Claimable(items[i], task, now);
      if won {
        items := items[i := items[i].(
          status := Running,
          workerTask := Some(task),
          leaseExpires := Some(now + TASK_LEASE_SECONDS),
          attemptCount := attempt,
          startedAt := Some(now),
          completedAt := None,
          error := None)];
      }
    }

    method ClearStaleData(i: ItemId)
      modifies this`results, this`traces
      ensures Model() == ClearStale(old(Model()), i)
      ensures i !in traces && i !in results
      ensures forall k | k != i :: (k in traces <==> k in old(traces)) && (k in results <==> k in old(results))
    {
      results := results - {i};
      traces := traces - {i};
    }

    /** The completing commit; `ok` is false when a uniqueness constraint rolls it back. */
    method Complete(i: ItemId, e: ExecId, trace: Trace, rows: seq<EvalRow>) returns (ok: bool)
      requires i in items
      modifies this`items, this`traces, this`results
      ensures ok == InsertsCommit(old(Model()), i, rows)
      ensures Model() == if ok then CompleteItem(old(Model()), i, e, trace, rows) else old(Model())
      ensures ok ==>
        && items == old(items)[i := old(items)[i].(latencyMs := Some(trace.output.latencyMs),
             costUsd := Some(trace.output.costUsd), status := Completed, completedAt := Some(now),
             leaseExpires := None)]
        && i in traces && traces[i] == trace && i in results && |results[i]| >= |rows|
        && forall k | 0 <= k < |rows| :: results[i][|results[i]| - |rows| + k].row == rows[k]
    {
      var before := items;
      items := items[i := items[i].(
        latencyMs := Some(trace.output.latencyMs),
        costUsd := Some(trace.output.costUsd),
        status := Completed,
        completedAt := Some(now),
        leaseExpires := None)];
      var stored := if i in results then results[i] else [];
      var pending := stored;
      var k := 0;
      while k < |rows|
        invariant 0 <= k <= |rows|
        invariant pending == stored + Stamp(e, rows)[..k]
      {
        pending := pending + [StoredRow(e, rows[k])];
        k := k + 1;
      }
      assert pending == stored + Stamp(e, rows);
      SameNames(stored, rows, e);
      ok := i !in traces && DistinctEvaluators(pending);
      if ok {
        traces := traces[i := trace];
        results := results[i := pending];
      } else {
        items := before;
      }
    }

    method Fail(i: ItemId, message: string, attempt: nat)
      requires i in items
      modifies this`items
      ensures Model() == FailItem(old(Model()), i, message, attempt)
      ensures i in items && items[i].error.Some? && items[i].error.value <= message
      ensures |items[i].error.value| == if |message| <= 1000 then |message| else 1000
      ensures items[i] == old(items)[i].(status := Errored, error := items[i].error, completedAt := Some(now),
        leaseExpires := None, attemptCount := attempt)
    {
      items := items[i := items[i].(
        status := Errored,
        error := Some(Truncate(message, ERROR_LIMIT)),
        completedAt := Some(now),
        leaseExpires := None,
        attemptCount := attempt)];
    }

    method RefreshRunProgress(r: RunId)
      modifies this`runs
      ensures Model() == RefreshProgress(old(Model()), r)
      ensures CountsStored(r)
    {
      if r in runs {
        runs := runs[r := runs[r].(caseCompleted := |CompletedOf(Model(), r)|, caseErrored := |FailedOf(Model(), r)|)];
      }
      SameItemsSameCounts(old(Model()), Model(), r);
    }

    method CheckRunCompletion(r: RunId) returns (finished: bool)
      requires r in runs
      modifies this`runs
      ensures Model() == FinaliseRun(old(Model()), r)
      ensures finished == (ItemsOf(old(Model()), r) != {} && AllTerminal(old(Model()), r))
    {
      var total, completed, errored := |ItemsOf(Model(), r)|, |CompletedOf(Model(), r)|, |FailedOf(Model(), r)|;
      CountsPartition(Model(), r);
      finished := false;
      if total == 0 {
        return;
      }
      if completed + errored >= total {
        var status := if errored == 0 then RunCompleted else RunPartial;
        runs := runs[r := runs[r].(status := status, caseCompleted := completed, caseErrored := errored,
          completedAt := Some(now))];
        finished := true;
      }
    }

    method FinishAttempt(e: ExecId, i: ItemId, retries: nat, attempt: AdapterResult, trace: Trace, rows: seq<EvalRow>)
      returns (result: TaskResult)
      requires i in items
      modifies this`items, this`traces, this`results, this`runs
      ensures Model() == Attempted(old(Model()), e, i, retries, attempt, trace, rows)
      ensures i in items
      ensures result.TaskCompleted? || result.RetryScheduled? || result.TaskErrored?
      ensures result.TaskCompleted? <==> attempt.Returned? && InsertsCommit(old(Model()), i, rows)
      ensures result.TaskCompleted? ==> items[i].status.Completed? && CountsStored(items[i].runId)
      ensures result.RetryScheduled? ==> retries < 2 && Model() == old(Model())
      ensures attempt.Threw? && IsTransient(attempt.message) && retries < 2 ==> result.RetryScheduled?
      ensures attempt.Threw? && !IsTransient(attempt.message) ==> result.TaskErrored?
      ensures result.TaskErrored? ==> items[i].status.Errored? && CountsStored(items[i].runId)
      ensures items[i].attemptCount == if result.TaskErrored? then retries + 1 else old(items)[i].attemptCount
    {
      hide CompletedOf, FailedOf, IsTransient, InsertsCommit, Stamp, RowsOf;
      var error: Option<string> := None;
      match attempt {
        case Threw(message) =>
          error := Some(message);
        case Returned(_) =>
          var ok := Complete(i, e, trace, rows);
          if !ok { error := Some(INTEGRITY_ERROR); }
      }
      if error.None? {
        RefreshRunProgress(items[i].runId);
        return TaskCompleted;
      }
      if IsTransient(error.value) && retries < MAX_RETRIES {
        return RetryScheduled;
      }
      Fail(i, error.value, retries + 1);
      RefreshRunProgress(items[i].runId);
      return TaskErrored;
    }

    /** One delivery of the task from start to end, with nobody else at work. The adapter's answer,
        the trace built from it and the evaluator rows are given. */
    method RunEvalCase(e: ExecId, i: ItemId, task: TaskId, retries: nat, attempt: AdapterResult, trace: Trace,
        rows: seq<EvalRow>)
      returns (result: TaskResult)
      modifies this`items, this`traces, this`results, this`runs
      ensures Model() == RunAlone(old(Model()), e, i, task, retries, attempt, trace, rows)
      ensures result.TaskCompleted? ==>
        attempt.Returned? && i in items && items[i].status.Completed? && CountsStored(items[i].runId)
      ensures result.RetryScheduled? ==> retries < 2 && i in items && items[i].status.Running?
      ensures result.RetryScheduled? || result.TaskCompleted? || (result.TaskErrored? && i in old(items)) ==>
        i in items && items[i].attemptCount == retries + 1
      ensures result.AlreadyTerminal? ==> i in items && items[i].status.Terminal()
      ensures result.AlreadyInProgress? ==> i in items && items[i].status.Running? && items[i].workerTask != Some(task)
      ensures result.TaskErrored? && i in old(items) ==>
        i in items && items[i].status.Errored? && CountsStored(items[i].runId)
    {
      hide Attempted;
      if i !in items {
        return TaskErrored;
      }
      if items[i].status.Terminal() {
        return AlreadyTerminal;
      }
      var won := ClaimRunItem(i, task, retries + 1);
      if !won {
        return AlreadyInProgress;
      }
      if retries > 0 {
        ClearStaleData(i);
      }
      result := FinishAttempt(e, i, retries, attempt, trace, rows);
    }

    /** One queued item per case, under fresh ids. */
    method QueueItems(r: RunId, cases: seq<CaseId>) returns (runItems: seq<ItemId>)
      requires nextId == r + 1
      modifies this`items, this`nextId
      ensures items == old(items) + QueuedItems(r, cases, |cases|) && nextId == r + 1 + |cases|
      ensures |runItems| == |cases| && forall k | 0 <= k < |cases| :: runItems[k] == r + 1 + k
    {
      hide ItemIds, QueuedItems;
      runItems := [];
      NoItemsYet(r, cases);
      assert items + QueuedItems(r, cases, 0) == old(items);
      while |runItems| < |cases|
        invariant |runItems| <= |cases| && nextId == r + 1 + |runItems|
        invariant items == old(items) + QueuedItems(r, cases, |runItems|)
        invariant forall k | 0 <= k < |runItems| :: runItems[k] == r + 1 + k
      {
        NextItem(r, cases, |runItems|);
        items := items[nextId := NewItem(r, cases[|runItems|], Queued, None)];
        runItems := runItems + [nextId];
        nextId := nextId + 1;
      }
    }

    method RejectItems(r: RunId, runItems: seq<ItemId>)
      requires forall k | 0 <= k < |runItems| :: runItems[k] == r + 1 + k && runItems[k] in items
      modifies this`items
      ensures items == RejectFirst(old(items), r, |runItems|, now)
    {
      var k := 0;
      assert items == RejectFirst(items, r, 0, now);
      while k < |runItems|
        invariant 0 <= k <= |runItems| && items == RejectFirst(old(items), r, k, now)
      {
        assert runItems[k] == r + k + 1 && runItems[k] in old(items);
        RejectNext(old(items), r, k, now);
        items := items[runItems[k] := RejectedItem(items[runItems[k]], now)];
        k := k + 1;
      }
    }

    /** `dispatch_run` up to the outcome of publishing the chord. */
    method DispatchRun(version: VersionId, config: ConfigId, suite: seq<CaseId>, ids: Option<seq<CaseId>>,
        publishes: bool)
      returns (result: Result<RunId, RunError>)
      requires KeysDrawn(Model())
      modifies this`items, this`runs, this`nextId
      ensures SelectCases(suite, ids).Err? ==>
                result == Err(InvalidSelection(SelectCases(suite, ids).error)) && Model() == old(Model())
      ensures SelectCases(suite, ids).Ok? ==>
                var cases := SelectCases(suite, ids).value;
                var db := RunTables.DispatchRun(old(Model()), version, config, cases);
                if cases == [] || publishes
                then result == Ok(old(nextId)) && Model() == db
                else result == Err(DispatchFailed(old(nextId))) && Model() == RejectRun(db, old(nextId))
    {
      hide ItemIds, SelectCases, QueuedItems, RejectFirst;
      var selected := SelectCases(suite, ids);
      if selected.Err? {
        return Err(InvalidSelection(selected.error));
      }
      var cases := selected.value;
      var r := nextId;
      runs := runs[r := NewRun(version, config, |cases|)];
      nextId := nextId + 1;
      var runItems := QueueItems(r, cases);
      if runItems == [] || publishes {
        return Ok(r);
      }
      QueuedKeys(r, cases);
      runs := runs[r := runs[r].(status := RunFailed, caseErrored := |cases|, completedAt := Some(now))];
      RejectItems(r, runItems);
      RejectedAll(old(items), old(nextId), r, cases, now);
      return Err(DispatchFailed(r));
    }

    /** One case of the sequential executor's loop: item `i` of run `r` for case `caseId`. */
    method ExecuteCase(world: World, version: VersionId, config: ConfigId, r: RunId, i: ItemId, caseId: CaseId)
      returns (answered: bool)
      modifies this`items, this`traces, this`results
      ensures answered == Ask(world, version, caseId).Returned? && nextId == old(nextId)
      ensures CaseDone(world, old(Model()), Model(), version, config, r, i, caseId)
    {
      items := items[i := NewItem(r, caseId, Running, Some(now))];
      match Ask(world, version, caseId) {
        case Returned(output) =>
          items := items[i := items[i].(latencyMs := Some(output.latencyMs), costUsd := Some(output.costUsd))];
          items := items[i := items[i].(status := Completed, completedAt := Some(now))];
          traces := traces[i := NewTrace(world, r, version, caseId, output)];
          results := results[i := Stamp(r, world.evaluate(config, caseId, output))];
          answered := true;
        case Threw(message) =>
          items := items[i := items[i].(status := Errored, error := Some(message), completedAt := Some(now))];
          answered := false;
      }
    }

    method ExecuteRun(world: World, version: VersionId, config: ConfigId, suite: seq<CaseId>, ids: Option<seq<CaseId>>)
      returns (result: Result<RunId, RunError>)
      modifies this`items, this`runs, this`nextId, this`traces, this`results
      ensures SelectCases(suite, ids).Err? ==>
                result == Err(InvalidSelection(SelectCases(suite, ids).error)) && Model() == old(Model())
      ensures SelectCases(suite, ids).Ok? ==>
                && result == Ok(old(nextId))
                && Model() == RunTables.ExecuteRun(world, old(Model()), version, config, SelectCases(suite, ids).value)
    {
      hide ItemIds, SelectCases, SequentialItems, SequentialTraces, SequentialRows, AnsweredIds;
      var selected := SelectCases(suite, ids);
      if selected.Err? {
        return Err(InvalidSelection(selected.error));
      }
      var cases := selected.value;
      var r := nextId;
      nextId := nextId + 1;
      var completed, errored := ExecuteCases(world, version, config, r, cases);
      runs := runs[r := Run(version, config, if errored == 0 then RunCompleted else RunPartial, |cases|, completed,
        errored, Some(now))];
      return Ok(r);
    }

    /** The executor's loop over the cases, in order. */
    method ExecuteCases(world: World, version: VersionId, config: ConfigId, r: RunId, cases: seq<CaseId>)
      returns (completed: nat, errored: nat)
      requires nextId == r + 1
      modifies this`items, this`nextId, this`traces, this`results
      ensures nextId == r + 1 + |cases| && Gone(world, old(Model()), Model(), version, config, r, cases, |cases|)
      ensures completed == |AnsweredIds(world, version, r, cases, |cases|)|
      ensures errored == |ItemIds(r, |cases|) - AnsweredIds(world, version, r, cases, |cases|)|
    {
      hide Gone, ItemIds, AnsweredIds, Ask;
      completed, errored := 0, 0;
      NoneGone(world, Model(), version, config, r, cases);
      while completed + errored < |cases|
        invariant completed + errored <= |cases| && nextId == r + 1 + completed + errored
        invariant Gone(world, old(Model()), Model(), version, config, r, cases, completed + errored)
        invariant completed == |AnsweredIds(world, version, r, cases, completed + errored)|
        invariant errored ==
          |ItemIds(r, completed + errored) - AnsweredIds(world, version, r, cases, completed + errored)|
      {
        NextCounts(world, version, r, cases, completed + errored);
        ghost var before := Model();
        var answered := ExecuteCase(world, version, config, r, nextId, cases[completed + errored]);
        nextId := nextId + 1;
        NextGone(world, old(Model()), before, Model(), version, config, r, cases, completed + errored);
        if answered {
          completed := completed + 1;
        } else {
          errored := errored + 1;
        }
      }
    }
  }

  /** From tables `a` the executor has gone through the first `count` cases of run `r`. */
  ghost predicate Gone(world: World, a: Db, b: Db, version: VersionId, config: ConfigId, r: RunId,
      cases: seq<CaseId>, count: nat)
    requires count <= |cases|
  {
    && b.now == a.now && b.runs == a.runs
    && b.items == a.items + SequentialItems(world, version, r, cases, count, a.now)
    && b.traces == a.traces + SequentialTraces(world, version, r, cases, count)
    && b.results == a.results + SequentialRows(world, version, config, r, cases, count)
  }

  /** `b` becomes `c` by executing case `caseId` as item `i` of run `r`. */
  ghost predicate CaseDone(world: World, b: Db, c: Db, version: VersionId, config: ConfigId, r: RunId, i: ItemId,
      caseId: CaseId)
  {
    var ask := Ask(world, version, caseId);
    && c.now == b.now && c.runs == b.runs
    && c.items == b.items[i := SequentialItem(world, version, r, caseId, b.now)]
    && c.traces == (if ask.Returned? then b.traces[i := NewTrace(world, r, version, caseId, ask.output)] else b.traces)
    && c.results ==
         (if ask.Returned? then b.results[i := Stamp(r, world.evaluate(config, caseId, ask.output))] else b.results)
  }

  lemma NoneGone(world: World, a: Db, version: VersionId, config: ConfigId, r: RunId, cases: seq<CaseId>)
    ensures Gone(world, a, a, version, config, r, cases, 0)
    ensures AnsweredIds(world, version, r, cases, 0) == {} && ItemIds(r, 0) == {}
  {
    assert SequentialItems(world, version, r, cases, 0, a.now) == map[];
    assert SequentialTraces(world, version, r, cases, 0) == map[];
    assert SequentialRows(world, version, config, r, cases, 0) == map[];
  }

  lemma NextGone(world: World, a: Db, b: Db, c: Db, version: VersionId, config: ConfigId, r: RunId,
      cases: seq<CaseId>, count: nat)
    requires count < |cases| && Gone(world, a, b, version, config, r, cases, count)
    requires CaseDone(world, b, c, version, config, r, r + 1 + count, cases[count])
    ensures Gone(world, a, c, version, config, r, cases, count + 1)
  {
    hide SequentialItems, SequentialTraces, SequentialRows, Ask, SequentialItem, Stamp, NewTrace;
    NextGoneItems(world, a.items, version, r, cases, count, a.now);
    NextGoneEvidence(world, a.traces, a.results, version, config, r, cases, count);
  }

  lemma NextGoneItems(world: World, items: map<ItemId, Item>, version: VersionId, r: RunId, cases: seq<CaseId>,
      count: nat, now: nat)
    requires count < |cases|
    ensures (items + SequentialItems(world, version, r, cases, count, now))
              [r + 1 + count := SequentialItem(world, version, r, cases[count], now)]
         == items + SequentialItems(world, version, r, cases, count + 1, now)
  {
    hide SequentialItems, SequentialItem;
    NextItems(world, version, r, cases, count, now);
    UpdateSum(items, SequentialItems(world, version, r, cases, count, now), r + 1 + count,
      SequentialItem(world, version, r, cases[count], now));
  }

  lemma NextGoneEvidence(world: World, traces: map<ItemId, Trace>, results: map<ItemId, seq<StoredRow>>,
                         version: VersionId, config: ConfigId, r: RunId, cases: seq<CaseId>, count: nat)
    requires count < |cases|
    ensures
      var i, ask := r + 1 + count, Ask(world, version, cases[count]);
      var t, u := traces + SequentialTraces(world, version, r, cases, count),
        results + SequentialRows(world, version, config, r, cases, count);
      && traces + SequentialTraces(world, version, r, cases, count + 1)
         == (if ask.Returned? then t[i := NewTrace(world, r, version, cases[count], ask.output)] else t)
      && results + SequentialRows(world, version, config, r, cases, count + 1)
         == (if ask.Returned? then u[i := Stamp(r, world.evaluate(config, cases[count], ask.output))] else u)
  {
    hide SequentialTraces, SequentialRows, Ask, Stamp, NewTrace;
    NextEvidence(world, version, config, r, cases, count);
    var i, ask := r + 1 + count, Ask(world, version, cases[count]);
    if ask.Returned? {
      UpdateSum(traces, SequentialTraces(world, version, r, cases, count), i,
        NewTrace(world, r, version, cases[count], ask.output));
      UpdateSum(results, SequentialRows(world, version, config, r, cases, count), i,
        Stamp(r, world.evaluate(config, cases[count], ask.output)));
    }
  }

  lemma UpdateSum<K, V>(m: map<K, V>, n: map<K, V>, k: K, v: V)
    ensures (m + n)[k := v] == m + n[k := v]
  {
  }

  lemma NextItems(world: World, version: VersionId, r: RunId, cases: seq<CaseId>, count: nat, now: nat)
    requires count < |cases|
    ensures SequentialItems(world, version, r, cases, count + 1, now)
         == SequentialItems(world, version, r, cases, count, now)
              [r + 1 + count := SequentialItem(world, version, r, cases[count], now)]
  {
    hide ItemIds, SequentialItem;
  }

  /** One more case adds one trace and its rows exactly when the adapter answers. */
  lemma NextEvidence(world: World, version: VersionId, config: ConfigId, r: RunId, cases: seq<CaseId>, count: nat)
    requires count < |cases|
    ensures
      var i, ask := r + 1 + count, Ask(world, version, cases[count]);
      var traces, rows := SequentialTraces(world, version, r, cases, count),
        SequentialRows(world, version, config, r, cases, count);
      && SequentialTraces(world, version, r, cases, count + 1)
         == (if ask.Returned? then traces[i := NewTrace(world, r, version, cases[count], ask.output)] else traces)
      && SequentialRows(world, version, config, r, cases, count + 1)
         == (if ask.Returned? then rows[i := Stamp(r, world.evaluate(config, cases[count], ask.output))] else rows)
  {
    hide ItemIds, Ask, Stamp, NewTrace;
  }

  lemma NextCounts(world: World, version: VersionId, r: RunId, cases: seq<CaseId>, count: nat)
    requires count < |cases|
    ensures
      var answers := Ask(world, version, cases[count]).Returned?;
      var a, b := AnsweredIds(world, version, r, cases, count), AnsweredIds(world, version, r, cases, count + 1);
      && |b| == |a| + (if answers then 1 else 0)
      && |ItemIds(r, count + 1) - b| == |ItemIds(r, count) - a| + (if answers then 0 else 1)
  {
    hide ItemIds, AnsweredIds, Ask;
    var i := r + 1 + count;
    assert ItemIds(r, count + 1) == ItemIds(r, count) + {i};
    NextAnswered(world, version, r, cases, count);
    var a, b := AnsweredIds(world, version, r, cases, count), AnsweredIds(world, version, r, cases, count + 1);
    if Ask(world, version, cases[count]).Returned? {
      assert ItemIds(r, count + 1) - b == ItemIds(r, count) - a;
    } else {
      assert ItemIds(r, count + 1) - b == (ItemIds(r, count) - a) + {i};
    }
  }

  lemma NextAnswered(world: World, version: VersionId, r: RunId, cases: seq<CaseId>, count: nat)
    requires count < |cases|
    ensures AnsweredIds(world, version, r, cases, count) <= ItemIds(r, count)
    ensures AnsweredIds(world, version, r, cases, count + 1)
         == AnsweredIds(world, version, r, cases, count)
            + (if Ask(world, version, cases[count]).Returned? then {r + 1 + count} else {})
  {
    hide ItemIds, Ask;
  }

  /** The items with those of ids r+1 .. r+count rejected. */
  function RejectFirst(items: map<ItemId, Item>, r: RunId, count: nat, now: nat): map<ItemId, Item> {
    map i | i in items :: if r < i <= r + count then RejectedItem(items[i], now) else items[i]
  }

  lemma RejectNext(items: map<ItemId, Item>, r: RunId, count: nat, now: nat)
    requires r + count + 1 in items
    ensures RejectFirst(items, r, count + 1, now)
         == RejectFirst(items, r, count, now)[r + count + 1 := RejectedItem(items[r + count + 1], now)]
    ensures RejectFirst(items, r, count, now)[r + count + 1] == items[r + count + 1]
  {
  }

  lemma RejectedAll(items: map<ItemId, Item>, next: nat, r: RunId, cases: seq<CaseId>, now: nat)
    requires r == next && forall i | i in items :: i < next && items[i].runId != r
    ensures
      var all := items + QueuedItems(r, cases, |cases|);
      RejectFirst(all, r, |cases|, now)
        == map i | i in all :: if all[i].runId == r then RejectedItem(all[i], now) else all[i]
  {
    hide ItemIds;
  }

  /** Dispatching adds one run in progress with nothing counted, and for the k-th case an untried queued
      item; when publishing raises, the run failed and all its items errored. Nothing else changes. */
  lemma DispatchedAsSelected(db: Db, version: VersionId, config: ConfigId, cases: seq<CaseId>)
    requires KeysDrawn(db)
    ensures
      var r, after := db.nextId, RunTables.DispatchRun(db, version, config, cases);
      && r in after.runs && after.runs[r] == Run(version, config, InProgress, |cases|, 0, 0, None)
      && (forall i | r < i <= r + |cases| :: i in after.items
            && after.items[i] == Item(r, cases[i - r - 1], Queued, 1, None, None, None, None, None, None, None))
      && (forall i | i in db.items :: i in after.items && after.items[i] == db.items[i])
      && |ItemsOf(after, r)| == |cases|
      && var rejected := RejectRun(after, r);
         && rejected.runs[r] == Run(version, config, RunFailed, |cases|, 0, |cases|, Some(db.now))
         && (forall i | i in ItemsOf(after, r) :: rejected.items[i].status.Errored?
               && rejected.items[i].error == Some("Failed to submit task to worker queue"))
         && (forall i | i in db.items :: i in rejected.items && rejected.items[i] == db.items[i])
  {
    hide ItemIds, RejectRun, ItemsOf;
    var r, after := db.nextId, RunTables.DispatchRun(db, version, config, cases);
    DispatchedItems(db, version, config, cases);
    RejectedItems(db, after, r);
  }

  lemma DispatchedItems(db: Db, version: VersionId, config: ConfigId, cases: seq<CaseId>)
    requires KeysDrawn(db)
    ensures ItemsOf(RunTables.DispatchRun(db, version, config, cases), db.nextId) == ItemIds(db.nextId, |cases|)
  {
    hide ItemIds;
  }

  lemma RejectedItems(db: Db, after: Db, r: RunId)
    requires KeysDrawn(db) && r == db.nextId && r in after.runs && after.now == db.now
    requires forall i | i in db.items :: i in after.items && after.items[i] == db.items[i]
    ensures
      var rejected := RejectRun(after, r);
      && rejected.runs[r] == after.runs[r].(status := RunFailed, caseErrored := after.runs[r].caseCount,
           completedAt := Some(db.now))
      && (forall i | i in ItemsOf(after, r) :: i in rejected.items && rejected.items[i].status.Errored?
            && rejected.items[i].error == Some(SUBMIT_ERROR))
      && (forall i | i in db.items :: i in rejected.items && rejected.items[i] == db.items[i])
  {
  }

  lemma NoItemsYet(r: RunId, cases: seq<CaseId>)
    ensures QueuedItems(r, cases, 0) == map[]
  {
  }

  lemma NextItem(r: RunId, cases: seq<CaseId>, count: nat)
    requires count < |cases|
    ensures QueuedItems(r, cases, count + 1)
         == QueuedItems(r, cases, count)[r + 1 + count := NewItem(r, cases[count], Queued, None)]
  {
    hide ItemIds;
  }

  lemma QueuedKeys(r: RunId, cases: seq<CaseId>)
    ensures QueuedItems(r, cases, |cases|).Keys == ItemIds(r, |cases|)
  {
    hide ItemIds;
  }

  /** Whether the constraint holds does not depend on who writes. */
  lemma SameNames(stored: seq<StoredRow>, rows: seq<EvalRow>, e: ExecId)
    ensures DistinctEvaluators(stored + Stamp(e, rows)) == DistinctEvaluators(stored + Stamp(0, rows))
  {
    var a, b := stored + Stamp(e, rows), stored + Stamp(0, rows);
    assert |a| == |b| && forall k | 0 <= k < |a| :: a[k].row == b[k].row;
  }
}
