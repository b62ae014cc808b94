/** The safety theorems of the worker protocol, stated over whole runs of the system. */
module WorkerTheorems {
  import opened Options
  import opened Strings
  import opened RunTables
  import opened WorkerProtocol
  import opened WorkerEvidence
  import opened WorkerSafety

  /** A run of the system from the empty database, every step allowed and assumed. */
  ghost predicate SafeRun(world: World, ss: seq<Sys>, acts: seq<Action>) {
    && Behaviour(world, ss, acts) && ss[0] == INITIAL && AllAssumed(ss, acts)
    && ValidatedConfigs(world)
  }

  /** An execution that has claimed its item and not yet committed or failed. */
  predicate Working(s: Sys, e: ExecId) {
    e in s.live && (s.live[e].phase.Claimed? || s.live[e].phase.Ready?)
  }

  /** Mutual exclusion: in every reachable state each working execution holds an unexpired lease
      on its item, and no two working executions share an item. */
  lemma LeaseExcludes(world: World, ss: seq<Sys>, acts: seq<Action>, n: nat)
    requires SafeRun(world, ss, acts) && n < |ss|
    ensures forall e | Working(ss[n], e) :: Owns(ss[n], e)
    ensures forall e, f | Working(ss[n], e) && Working(ss[n], f) && ss[n].live[e].item == ss[n].live[f].item :: e == f
  {
    hide TablesAgree, ChordInv, Behaviour, AllAssumed;
    Reachable(world, ss, acts, n);
    var s := ss[n];
    forall e | Working(s, e) ensures Owns(s, e) {
      assert ExecInv(s, e);
    }
    forall e, f | Working(s, e) && Working(s, f) && s.live[e].item == s.live[f].item ensures e == f {
      OneOwner(s, e, f);
    }
  }

  /** Every completing or failing commit is made by the execution that owns the item, before its
      lease ends; and clearing stale evidence never changes the tables. */
  lemma CommitsAreOwned(world: World, ss: seq<Sys>, acts: seq<Action>, n: nat)
    requires SafeRun(world, ss, acts) && n < |acts|
    ensures acts[n].Complete? ==> Owns(ss[n], acts[n].exec)
    ensures acts[n].Raise? && WritesFailure(ss[n], ss[n].live[acts[n].exec], acts[n].message)
      ==> Owns(ss[n], acts[n].exec)
    ensures acts[n].Clear? ==> ss[n + 1].db == ss[n].db
  {
    hide Inv, Owns;
    Reachable(world, ss, acts, n);
    match acts[n]
    case Complete(e, output, rows) => StepComplete(world, ss[n], e, output, rows);
    case Raise(e, message) => StepRaise(world, ss[n], e, message);
    case Clear(e) => StepClear(world, ss[n], e);
    case _ =>
  }

  /** Terminal is absorbing: once an item is terminal its row, its trace and its result rows are
      the same in every later state. */
  lemma TerminalIsAbsorbing(world: World, ss: seq<Sys>, acts: seq<Action>, m: nat, n: nat, i: ItemId)
    requires SafeRun(world, ss, acts) && m <= n < |ss|
    requires i in ss[m].db.items && ss[m].db.items[i].status.Terminal()
    ensures SameRecord(ss[m].db, ss[n].db, i)
  {
    hide Behaviour, AllAssumed, SameRecord;
    EvolvesThroughout(world, ss, acts, m, n);
  }

  /** In every reachable state an item has its trace and one result per evaluator exactly when it
      is completed, all from one execution, and nothing otherwise. */
  lemma EvidenceIffCompleted(world: World, ss: seq<Sys>, acts: seq<Action>, n: nat, i: ItemId)
    requires SafeRun(world, ss, acts) && n < |ss| && i in ss[n].db.items
    ensures
      var db := ss[n].db;
      && (i in db.traces <==> db.items[i].status.Completed?)
      && (i in db.results <==> db.items[i].status.Completed?)
      && DistinctEvaluators(RowsOf(db, i))
      && forall k | 0 <= k < |RowsOf(db, i)| :: RowsOf(db, i)[k].writer == db.traces[i].writer
  {
    hide Behaviour, AllAssumed, Structured, ProgressAgrees, ChordInv, ExecInv, Exclusive;
    Reachable(world, ss, acts, n);
    assert EvidenceExact(ss[n].db);
  }

  // ---- Claims ----

  /** What a claim leaves, with nothing assumed: a queued item, or a running one of the same task or without
      an unexpired lease, becomes this task's for 240 seconds as its next attempt; any other ends the
      execution and writes nothing. */
  lemma ClaimIsExact(world: World, s: Sys, e: ExecId)
    requires Enabled(s, Claim(e))
    ensures
      var x, t := s.live[e], Apply(world, s, Claim(e));
      var item := s.db.items[x.item];
      if item.status.Queued? || (item.status.Running?
        && (item.workerTask == Some(x.task) || item.leaseExpires.None? || item.leaseExpires.value < s.db.now))
      then
        && t.live == s.live[e := x.(phase := Claimed)] && t.queue == s.queue
        && t.db == s.db.(items := s.db.items[x.item := item.(status := Running, workerTask := Some(x.task),
             leaseExpires := Some(s.db.now + 240), attemptCount := x.retries + 1, startedAt := Some(s.db.now),
             completedAt := None, error := None)])
      else t.db == s.db && t.live == s.live - {e} && t.queue == s.queue
  {
  }

  // ---- Failures ----

  /** Some phrase of a passing fault stands in the message, letter case aside. */
  ghost predicate NamesPassingFault(message: string) {
    exists word | word in ["connection", "timeout", "temporarily unavailable", "too many connections",
      "connection refused", "operationalerror"] :: Occurs(Lower(message), word)
  }

  lemma TransientExactly(message: string)
    ensures IsTransient(message) <==> NamesPassingFault(message)
  {
    hide Contains, Occurs, Lower;
    forall word ensures Contains(Lower(message), word) <==> Occurs(Lower(message), word) {
      ContainsExactly(Lower(message), word);
    }
  }

  /** What a raise leaves, with nothing assumed. A passing fault below the second retry requeues the task
      for its next attempt and writes nothing; any other fails the item unless it is missing or terminal,
      keeping the message's first 1000 characters; a raise after the final failure changes nothing more. */
  lemma RaiseIsExact(world: World, s: Sys, e: ExecId, message: string)
    requires Enabled(s, Raise(e, message))
    ensures
      var x, t := s.live[e], Apply(world, s, Raise(e, message));
      if !x.phase.Closing? && NamesPassingFault(message) && x.retries < 2 then
        t.db == s.db && t.live == s.live - {e} && t.queue == s.queue[x.task := Message(x.item, x.retries + 1)]
      else if !x.phase.Closing? && x.item in s.db.items && !s.db.items[x.item].status.Terminal() then
        && t.queue == s.queue && t.live == s.live[e := x.(phase := Closing)]
        && t.db.items == s.db.items[x.item := s.db.items[x.item].(status := Errored,
             error := Some(message[..if |message| <= 1000 then |message| else 1000]), completedAt := Some(s.db.now),
             leaseExpires := None, attemptCount := x.retries + 1)]
      else
        t.db == s.db && t.live == s.live - {e} && t.queue == s.queue
  {
    TransientExactly(message);
    assert message[..|message|] == message;
    hide IsTransient, NamesPassingFault;
  }

  // ---- Progress and finalisation ----

  lemma StepCountsUp(world: World, s: Sys, a: Action, r: RunId)
    requires Inv(s) && Enabled(s, a) && Assumed(s, a) && r in s.db.runs
    ensures
      var db := Apply(world, s, a).db;
      && r in db.runs
      && s.db.runs[r].caseCompleted <= db.runs[r].caseCompleted
      && s.db.runs[r].caseErrored <= db.runs[r].caseErrored
      && (!s.db.runs[r].status.InProgress? ==>
            && db.runs[r].status == s.db.runs[r].status
            && db.runs[r].caseCompleted == s.db.runs[r].caseCompleted
            && db.runs[r].caseErrored == s.db.runs[r].caseErrored)
  {
    hide Structured, EvidenceExact, ExecInv, Exclusive, ProgressAgrees, ItemIds, AnsweredIds, SequentialItems,
         SequentialTraces, SequentialRows, SequentialRun, QueuedItems, RefreshProgress, FinaliseRun, RejectRun;
    DrawnIds(s.db);
    assert ProgressAgrees(s.db, r);
    match a
    case Reject(q) =>
      assert ChordInv(s, q);
      RejectCountsUp(s, q, r);
    case Finalise(q) => FinaliseCountsUp(s.db, q, r);
    case Refresh(e) => RefreshCountsUp(s.db, s.db.items[s.live[e].item].runId, r);
    case _ =>
  }

  predicate CountsUp(a: Run, b: Run) {
    && a.caseCompleted <= b.caseCompleted && a.caseErrored <= b.caseErrored
    && (!a.status.InProgress? ==>
          b.status == a.status && b.caseCompleted == a.caseCompleted && b.caseErrored == a.caseErrored)
  }

  lemma RefreshCountsUp(db: Db, q: RunId, r: RunId)
    requires r in db.runs && ProgressAgrees(db, r)
    ensures r in RefreshProgress(db, q).runs && CountsUp(db.runs[r], RefreshProgress(db, q).runs[r])
  {
    hide CompletedOf, FailedOf, AllTerminal;
  }

  lemma FinaliseCountsUp(db: Db, q: RunId, r: RunId)
    requires r in db.runs && ProgressAgrees(db, r) && (q in db.runs ==> !db.runs[q].status.RunFailed?)
    ensures r in FinaliseRun(db, q).runs && CountsUp(db.runs[r], FinaliseRun(db, q).runs[r])
  {
    hide CompletedOf, FailedOf, AllTerminal, ItemsOf;
  }

  lemma RejectCountsUp(s: Sys, q: RunId, r: RunId)
    requires q in s.db.runs && r in s.db.runs && ProgressAgrees(s.db, r)
    requires q == r ==> s.db.runs[r].status.InProgress? && s.db.runs[r].caseErrored <= s.db.runs[r].caseCount
    ensures r in RejectRun(s.db, q).runs && CountsUp(s.db.runs[r], RejectRun(s.db, q).runs[r])
  {
    hide CompletedOf, FailedOf, AllTerminal;
  }

  lemma {:induction false} CountsUpThroughout(world: World, ss: seq<Sys>, acts: seq<Action>, m: nat, n: nat, r: RunId)
    requires SafeRun(world, ss, acts) && m <= n < |ss| && r in ss[m].db.runs
    ensures r in ss[n].db.runs
    ensures
      var before, after := ss[m].db.runs[r], ss[n].db.runs[r];
      && before.caseCompleted <= after.caseCompleted && before.caseErrored <= after.caseErrored
      && (!before.status.InProgress? ==>
            && after.status == before.status
            && after.caseCompleted == before.caseCompleted && after.caseErrored == before.caseErrored)
    decreases n
  {
    hide Inv, Apply, Enabled, Assumed;
    if m < n {
      CountsUpThroughout(world, ss, acts, m, n - 1, r);
      Reachable(world, ss, acts, n - 1);
      StepCountsUp(world, ss[n - 1], acts[n - 1], r);
    }
  }

  /** Over whole runs: the counters never exceed the true item counts, never decrease and sum to at
      most the case count; a final run has every item terminal and counters equal to the item
      counts, is `completed` exactly when nothing failed, and stays so for ever. */
  lemma ProgressIsHonest(world: World, ss: seq<Sys>, acts: seq<Action>, m: nat, n: nat, r: RunId)
    requires SafeRun(world, ss, acts) && m <= n < |ss| && r in ss[m].db.runs
    ensures r in ss[n].db.runs
    ensures
      var db, before, run := ss[n].db, ss[m].db.runs[r], ss[n].db.runs[r];
      && run.caseCount == |ItemsOf(db, r)|
      && run.caseCompleted <= |CompletedOf(db, r)| && run.caseErrored <= |FailedOf(db, r)|
      && run.caseCompleted + run.caseErrored <= run.caseCount
      && before.caseCompleted <= run.caseCompleted && before.caseErrored <= run.caseErrored
      && (!before.status.InProgress? ==>
            && run.status == before.status && AllTerminal(db, r)
            && run.caseCompleted == |CompletedOf(db, r)| && run.caseErrored == |FailedOf(db, r)|
            && run.caseCompleted + run.caseErrored == run.caseCount
            && (run.status.RunCompleted? ==> run.caseErrored == 0)
            && (run.status.RunPartial? ==> run.caseErrored > 0))
  {
    hide Behaviour, AllAssumed, EvidenceExact, ExecInv, ChordInv, Exclusive, KeysDrawn, CasesUnique;
    CountsUpThroughout(world, ss, acts, m, n, r);
    Reachable(world, ss, acts, n);
    assert ProgressAgrees(ss[n].db, r);
    CountsPartition(ss[n].db, r);
  }

  /** Once a callback has finalised a run, a callback at any later moment of the run of the system
      leaves the status and the counters it left, whatever happened in between. */
  lemma CallbackIsIdempotent(world: World, ss: seq<Sys>, acts: seq<Action>, m: nat, n: nat, r: RunId)
    requires SafeRun(world, ss, acts) && m <= n < |acts| && acts[m] == Finalise(r) && acts[n] == Finalise(r)
    requires r in ss[m].db.runs && ItemsOf(ss[m].db, r) != {} && AllTerminal(ss[m].db, r)
    ensures r in ss[m + 1].db.runs && r in ss[n + 1].db.runs
    ensures
      var first, later := ss[m + 1].db.runs[r], ss[n + 1].db.runs[r];
      && first.status == (if FailedOf(ss[m].db, r) == {} then RunCompleted else RunPartial)
      && later.status == first.status
      && later.caseCompleted == first.caseCompleted && later.caseErrored == first.caseErrored
      && first.caseCompleted == |CompletedOf(ss[m].db, r)| && first.caseErrored == |FailedOf(ss[m].db, r)|
  {
    hide SafeRun, AllTerminal, CompletedOf, FailedOf, ItemsOf;
    assert ss[m + 1].db == FinaliseRun(ss[m].db, r) by { FinaliseStep(world, ss, acts, m, r); }
    CallbackIsExact(ss[m].db, r, ss[m].db.now);
    assert |ss| == |acts| + 1 by { FinaliseStep(world, ss, acts, m, r); }
    hide FinaliseRun;
    CountsUpThroughout(world, ss, acts, m + 1, n + 1, r);
  }

  lemma FinaliseStep(world: World, ss: seq<Sys>, acts: seq<Action>, m: nat, r: RunId)
    requires SafeRun(world, ss, acts) && m < |acts| && acts[m] == Finalise(r)
    ensures |ss| == |acts| + 1 && ss[m + 1].db == FinaliseRun(ss[m].db, r)
  {
    assert ss[m + 1] == Apply(world, ss[m], acts[m]);
  }

  /** The callback finalises a run with items exactly when all of them are terminal, as `completed`
      exactly when none failed; running it again, at any later time, changes neither status nor
      counters. */
  lemma CallbackIsExact(db: Db, r: RunId, later: nat)
    requires r in db.runs && ItemsOf(db, r) != {}
    ensures
      var after := FinaliseRun(db, r);
      && (AllTerminal(db, r) ==>
            && after.runs[r].status == (if FailedOf(db, r) == {} then RunCompleted else RunPartial)
            && after.runs[r].caseCompleted == |CompletedOf(db, r)|
            && after.runs[r].caseErrored == |FailedOf(db, r)|
            && after.runs[r].completedAt == Some(db.now))
      && (!AllTerminal(db, r) ==> after == db)
      && var again := FinaliseRun(after.(now := later), r);
         && again.runs[r].status == after.runs[r].status
         && again.runs[r].caseCompleted == after.runs[r].caseCompleted
         && again.runs[r].caseErrored == after.runs[r].caseErrored
  {
    var after := FinaliseRun(db, r);
    CountsPartition(db, r);
    SameItemsSameCounts(db, after, r);
    SameItemsSameCounts(db, after.(now := later), r);
  }
}
