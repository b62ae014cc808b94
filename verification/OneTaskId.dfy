/** The protocol when every item has one task id, as the dispatcher arranges: it publishes one message
    per item, and retries and redeliveries keep its id. Then the tables are safe without any time
    limit, lease or promise about failures before the claim; all that is left to assume is that the
    broker never runs a task id twice at once, and that a chord is published whole or not at all: a run
    is rejected only while its chord is awaited, and only published items are delivered. */
module OneTaskId {
  import opened RunTables
  import opened WorkerProtocol
  import opened WorkerEvidence
  import opened WorkerSafety
  import opened WorkerTheorems
  import opened WorkerTermination

  /** A delivery runs the item's own published task, which no live execution runs. Clock, kills and
      raises are unrestricted. */
  predicate OwnTask(s: Sys, a: Action) {
    match a
    case Deliver(_, task, i, _) =>
      && task == i && i < s.db.nextId
      && (forall e | e in s.live :: s.live[e].task != task)
      && (i in s.db.items ==> IsPublished(s, s.db.items[i].runId))
    case Reject(r) => r in s.chords && s.chords[r].Awaiting?
    case _ => true
  }

  predicate OwnExec(s: Sys, e: ExecId)
    requires e in s.live
  {
    var x := s.live[e];
    && x.task == x.item && x.item < s.db.nextId
    && (x.item in s.db.items ==> IsPublished(s, s.db.items[x.item].runId))
    && (x.phase.Claimed? || x.phase.Ready? ==> x.item in s.db.items && s.db.items[x.item].status.Running?)
  }

  predicate Untouched(s: Sys, r: RunId)
    requires r in s.chords
  {
    && r in s.db.runs
    && (s.chords[r].Awaiting? ==>
          && s.db.runs[r].caseCompleted == 0
          && forall i | i in s.db.items && s.db.items[i].runId == r :: s.db.items[i].status.Queued?)
  }

  predicate OwnInv(s: Sys) {
    && TablesAgree(s.db)
    && Exclusive(s)
    && (forall e | e in s.live :: OwnExec(s, e))
    && (forall r | r in s.chords :: Untouched(s, r))
  }

  // ---- Frames ----

  lemma OwnFrame(s: Sys, t: Sys, e: ExecId)
    requires e in s.live && e in t.live && OwnExec(s, e) && s.db.nextId <= t.db.nextId
    requires t.live[e].task == s.live[e].task && t.live[e].item == s.live[e].item
    requires t.live[e].phase == s.live[e].phase || t.live[e].phase.Committed? || t.live[e].phase.Closing?
    requires s.live[e].item in t.db.items <==> s.live[e].item in s.db.items
    requires s.live[e].item in s.db.items ==>
               var a, b := s.db.items[s.live[e].item], t.db.items[s.live[e].item];
               && b.runId == a.runId && IsPublished(t, a.runId)
               && (t.live[e].phase.Claimed? || t.live[e].phase.Ready? ==> b.status == a.status)
    ensures OwnExec(t, e)
  {
  }

  lemma UntouchedFrame(s: Sys, t: Sys, r: RunId)
    requires r in s.chords && r in t.chords && Untouched(s, r) && (t.chords[r].Awaiting? ==> s.chords[r].Awaiting?)
    requires r in t.db.runs && t.db.runs[r].caseCompleted == s.db.runs[r].caseCompleted
    requires s.chords[r].Awaiting? ==>
               forall i | i in t.db.items && t.db.items[i].runId == r ::
                 i in s.db.items && t.db.items[i] == s.db.items[i]
    ensures Untouched(t, r)
  {
  }

  /** Execution `e` alone touches its item, and the item's run is published. */
  ghost predicate OwnWrite(s: Sys, t: Sys, e: ExecId, item: Item) {
    && e in s.live && s.live[e].item in s.db.items
    && var i := s.live[e].item;
    && t.db.items == s.db.items[i := item] && item.runId == s.db.items[i].runId
    && t.db.nextId == s.db.nextId && t.db.runs == s.db.runs && t.chords == s.chords
    && t.live.Keys <= s.live.Keys && (forall f | f in t.live && f != e :: t.live[f] == s.live[f])
    && (e in t.live ==> OwnExec(t, e) && t.live[e].task == s.live[e].task)
  }

  lemma OwnWriteKeepsInv(s: Sys, t: Sys, e: ExecId, item: Item)
    requires OwnInv(s) && OwnWrite(s, t, e, item) && TablesAgree(t.db)
    ensures OwnInv(t)
  {
    hide TablesAgree;
    var i := s.live[e].item;
    assert OwnExec(s, e);
    forall f | f in t.live ensures OwnExec(t, f) {
      if f != e {
        assert OwnExec(s, f) && s.live[f].item != i;
        OwnFrame(s, t, f);
      }
    }
    forall r | r in t.chords ensures Untouched(t, r) { UntouchedFrame(s, t, r); }
  }

  /** Steps that leave every item alone. */
  lemma OwnIdle(s: Sys, t: Sys)
    requires OwnInv(s) && TablesAgree(t.db) && t.db.items == s.db.items && t.db.nextId == s.db.nextId
    requires t.live.Keys <= s.live.Keys && forall f | f in t.live :: t.live[f] == s.live[f]
    requires t.chords.Keys == s.chords.Keys && s.db.runs.Keys <= t.db.runs.Keys
    requires forall r | r in s.chords ::
               (t.chords[r] == s.chords[r] || t.chords[r].Published?)
               && (s.chords[r].Awaiting? && t.chords[r].Awaiting? ==>
                     t.db.runs[r].caseCompleted == s.db.runs[r].caseCompleted)
    ensures OwnInv(t)
  {
    hide TablesAgree;
    forall f | f in t.live ensures OwnExec(t, f) {
      assert OwnExec(s, f);
      OwnFrame(s, t, f);
    }
    forall r | r in t.chords ensures Untouched(t, r) { assert Untouched(s, r); }
  }

  // ---- Steps ----

  lemma OwnClaim(world: World, s: Sys, e: ExecId)
    requires OwnInv(s) && Enabled(s, Claim(e))
    ensures OwnInv(Apply(world, s, Claim(e))) && Evolves(s.db, Apply(world, s, Claim(e)).db)
  {
    hide TablesAgree, Evolves, Untouched;
    var t, x := ApplyClaim(s, e), s.live[e];
    assert OwnExec(s, e);
    if e in t.live {
      ClaimKeepsTables(s.db, x.item, x.task, x.retries + 1);
      assert OwnExec(t, e);
      OwnWriteKeepsInv(s, t, e, ClaimedItem(s.db.items[x.item], x.task, x.retries + 1, s.db.now));
    } else {
      OwnIdle(s, t);
      EvolvesReflexive(s.db);
    }
  }

  lemma OwnClear(world: World, s: Sys, e: ExecId)
    requires OwnInv(s) && Enabled(s, Clear(e))
    ensures OwnInv(Apply(world, s, Clear(e))) && Apply(world, s, Clear(e)).db == s.db
  {
    hide TablesAgree, Untouched;
    var t, x := ApplyClear(s, e), s.live[e];
    assert OwnExec(s, e);
    NothingStale(s.db, x.item);
    assert OwnExec(t, e) && t.db.items == s.db.items[x.item := s.db.items[x.item]];
    OwnWriteKeepsInv(s, t, e, s.db.items[x.item]);
  }

  lemma OwnComplete(world: World, s: Sys, e: ExecId, output: AdapterOutput, rows: seq<EvalRow>)
    requires OwnInv(s) && Enabled(s, Complete(e, output, rows))
    ensures s.db.items[s.live[e].item].status.Running?
    ensures
      var t := Apply(world, s, Complete(e, output, rows));
      OwnInv(t) && Evolves(s.db, t.db)
  {
    hide TablesAgree, Evolves, Untouched;
    var t, x := ApplyComplete(world, s, e, output, rows), s.live[e];
    assert OwnExec(s, e);
    CompleteKeepsTables(s.db, x.item, e, t.db.traces[x.item], rows);
    assert OwnExec(t, e);
    OwnWriteKeepsInv(s, t, e, CompletedItem(s.db.items[x.item], output, s.db.now));
  }

  lemma OwnRaise(world: World, s: Sys, e: ExecId, message: string)
    requires OwnInv(s) && Enabled(s, Raise(e, message))
    ensures OwnInv(Apply(world, s, Raise(e, message))) && Evolves(s.db, Apply(world, s, Raise(e, message)).db)
  {
    hide TablesAgree, Evolves, Untouched, IsTransient;
    var t, x := ApplyRaise(s, e, message), s.live[e];
    assert OwnExec(s, e);
    if WritesFailure(s, x, message) {
      FailKeepsTables(s.db, x.item, message, x.retries + 1);
      assert OwnExec(t, e);
      OwnWriteKeepsInv(s, t, e, FailedItem(s.db.items[x.item], message, x.retries + 1, s.db.now));
    } else {
      OwnIdle(s, t);
      EvolvesReflexive(s.db);
    }
  }

  lemma OwnRefresh(world: World, s: Sys, e: ExecId)
    requires OwnInv(s) && Enabled(s, Refresh(e))
    ensures OwnInv(Apply(world, s, Refresh(e))) && Evolves(s.db, Apply(world, s, Refresh(e)).db)
  {
    hide TablesAgree, Evolves;
    var r := s.db.items[s.live[e].item].runId;
    assert OwnExec(s, e) && Untouched(s, r);
    RefreshKeepsTables(s.db, r);
    OwnIdle(s, End(s, e).(db := RefreshProgress(s.db, r)));
  }

  lemma OwnFinalise(s: Sys, r: RunId)
    requires OwnInv(s)
    ensures OwnInv(s.(db := FinaliseRun(s.db, r))) && Evolves(s.db, FinaliseRun(s.db, r))
  {
    hide TablesAgree, Evolves;
    if r in s.db.runs { FinaliseKeepsTables(s.db, r); } else { EvolvesReflexive(s.db); }
    if r in s.chords && s.chords[r].Awaiting? {
      assert Untouched(s, r);
      QueuedIsNotFinalised(s.db, r);
    }
    OwnIdle(s, s.(db := FinaliseRun(s.db, r)));
  }

  lemma QueuedIsNotFinalised(db: Db, r: RunId)
    requires forall i | i in db.items && db.items[i].runId == r :: db.items[i].status.Queued?
    ensures FinaliseRun(db, r) == db
  {
    assert CompletedOf(db, r) == {} && FailedOf(db, r) == {};
  }

  lemma OwnReject(world: World, s: Sys, r: RunId)
    requires OwnInv(s) && Enabled(s, Reject(r)) && OwnTask(s, Reject(r))
    ensures OwnInv(Apply(world, s, Reject(r))) && Evolves(s.db, Apply(world, s, Reject(r)).db)
  {
    hide TablesAgree, Evolves;
    var t := Apply(world, s, Reject(r));
    assert Untouched(s, r);
    RejectKeepsTables(s.db, r);
    forall f | f in t.live ensures OwnExec(t, f) {
      assert OwnExec(s, f);
      OwnFrame(s, t, f);
    }
    forall q | q in t.chords ensures Untouched(t, q) {
      if q != r { UntouchedFrame(s, t, q); }
    }
  }

  lemma OwnDeliver(world: World, s: Sys, a: Action)
    requires a.Deliver? && OwnInv(s) && Enabled(s, a) && OwnTask(s, a)
    ensures OwnInv(Apply(world, s, a))
  {
    hide TablesAgree;
    var t := Apply(world, s, a);
    forall f | f in t.live ensures OwnExec(t, f) {
      if f != a.exec {
        assert OwnExec(s, f);
        OwnFrame(s, t, f);
      }
    }
    forall r | r in t.chords ensures Untouched(t, r) { UntouchedFrame(s, t, r); }
  }

  /** Rows added for a new run, under ids drawn after all others. */
  lemma OwnNewRun(s: Sys, t: Sys)
    requires OwnInv(s) && TablesAgree(t.db) && s.db.nextId <= t.db.nextId && t.live == s.live
    requires forall i | i in s.db.items :: i in t.db.items && t.db.items[i] == s.db.items[i]
    requires forall r | r in s.db.runs :: r in t.db.runs && t.db.runs[r] == s.db.runs[r]
    requires forall i | i in t.db.items && i !in s.db.items :: s.db.nextId <= i && t.db.items[i].runId !in s.db.runs
    requires forall r | r in s.chords :: r in t.chords && t.chords[r] == s.chords[r]
    requires forall r | r in t.chords && r !in s.chords :: Untouched(t, r)
    ensures OwnInv(t)
  {
    hide TablesAgree;
    forall f | f in t.live ensures OwnExec(t, f) {
      assert OwnExec(s, f);
      OwnFrame(s, t, f);
    }
    forall r | r in t.chords ensures Untouched(t, r) {
      if r in s.chords { UntouchedFrame(s, t, r); }
    }
  }

  lemma OwnDispatch(world: World, s: Sys, a: Action)
    requires a.Dispatch? && OwnInv(s) && Enabled(s, a)
    ensures OwnInv(Apply(world, s, a)) && Evolves(s.db, Apply(world, s, a).db)
  {
    hide TablesAgree, DispatchRun, OwnExec, Exclusive, Evolves, InsertsCommit, CasesUnique;
    var t, r := ApplyDispatch(s, a.version, a.config, a.cases), s.db.nextId;
    DispatchKeepsTables(s.db, a.version, a.config, a.cases);
    DispatchedFrame(s.db, a.version, a.config, a.cases);
    DrawnIds(s.db);
    forall q | q in s.chords ensures q < r { assert Untouched(s, q); }
    if a.cases != [] { NewChordUntouched(s, a.version, a.config, a.cases); }
    OwnNewRun(s, t);
  }

  lemma DispatchedFrame(db: Db, version: VersionId, config: ConfigId, cases: seq<CaseId>)
    requires TablesAgree(db) && Distinct(cases)
    ensures
      var after := DispatchRun(db, version, config, cases);
      && db.nextId <= after.nextId
      && (forall i | i in db.items :: i in after.items && after.items[i] == db.items[i])
      && (forall q | q in db.runs :: q in after.runs && after.runs[q] == db.runs[q])
      && (forall i | i in after.items && i !in db.items ::
            db.nextId <= i && after.items[i].runId !in db.runs)
  {
    hide TablesAgree, ItemIds, QueuedItems, CasesUnique;
    QueuedItemsAreFresh(db.nextId, cases);
    DrawnIds(db);
  }

  lemma NewChordUntouched(s: Sys, version: VersionId, config: ConfigId, cases: seq<CaseId>)
    requires TablesAgree(s.db) && Distinct(cases) && cases != []
    ensures Untouched(ApplyDispatch(s, version, config, cases), s.db.nextId)
  {
    hide TablesAgree, QueuedItems, ItemIds;
    QueuedItemsAreFresh(s.db.nextId, cases);
    DrawnIds(s.db);
  }

  lemma OwnSequential(world: World, s: Sys, a: Action)
    requires a.Sequential? && OwnInv(s) && Enabled(s, a) && ValidatedConfigs(world)
    ensures OwnInv(Apply(world, s, a)) && Evolves(s.db, Apply(world, s, a).db)
  {
    hide TablesAgree, ItemIds, SequentialItems, SequentialTraces, SequentialRows, AnsweredIds, SequentialRun,
         ValidatedConfigs, OwnExec, Exclusive, SameRecord, Untouched;
    SequentialKeepsTables(world, s.db, a.version, a.config, a.cases);
    SequentialItemsAreFresh(world, a.version, s.db.nextId, a.cases, s.db.now);
    DrawnIds(s.db);
    OwnNewRun(s, s.(db := ExecuteRun(world, s.db, a.version, a.config, a.cases)));
  }

  lemma OwnStep(world: World, s: Sys, a: Action)
    requires OwnInv(s) && Enabled(s, a) && OwnTask(s, a) && ValidatedConfigs(world)
    ensures OwnInv(Apply(world, s, a)) && Evolves(s.db, Apply(world, s, a).db)
  {
    hide TablesAgree, Evolves, OwnExec, Untouched, Exclusive, ValidatedConfigs;
    match a
    case Tick(to) => TickKeepsTables(s.db, to); OwnIdle(s, s.(db := s.db.(now := to)));
    case Dispatch(_, _, _) => OwnDispatch(world, s, a);
    case Publish(r) => OwnIdle(s, Apply(world, s, a)); EvolvesReflexive(s.db);
    case Reject(r) => OwnReject(world, s, r);
    case Sequential(_, _, _) => OwnSequential(world, s, a);
    case Deliver(_, _, _, _) => OwnDeliver(world, s, a); EvolvesReflexive(s.db);
    case Claim(e) => OwnClaim(world, s, e);
    case Clear(e) => OwnClear(world, s, e); EvolvesReflexive(s.db);
    case Complete(e, output, rows) => OwnComplete(world, s, e, output, rows);
    case Raise(e, message) => OwnRaise(world, s, e, message);
    case Refresh(e) => OwnRefresh(world, s, e);
    case Finalise(r) => OwnFinalise(s, r);
    case Kill(e) => OwnIdle(s, End(s, e)); EvolvesReflexive(s.db);
  }

  // ---- Whole runs ----

  /** A run from the empty database in which every delivery runs its item's own task. */
  ghost predicate OwnTaskRun(world: World, ss: seq<Sys>, acts: seq<Action>) {
    && Behaviour(world, ss, acts) && ss[0] == INITIAL && ValidatedConfigs(world)
    && forall k | 0 <= k < |acts| :: OwnTask(ss[k], acts[k])
  }

  lemma {:induction false} OwnThroughout(world: World, ss: seq<Sys>, acts: seq<Action>, m: nat, n: nat)
    requires OwnTaskRun(world, ss, acts) && m <= n < |ss|
    ensures OwnInv(ss[n]) && Evolves(ss[m].db, ss[n].db)
    decreases n
  {
    hide OwnInv, Evolves, Apply, Enabled, OwnTask;
    if n == 0 {
      InitiallyOwn();
      EvolvesReflexive(ss[0].db);
    } else {
      OwnThroughout(world, ss, acts, if m < n then m else n - 1, n - 1);
      OwnStep(world, ss[n - 1], acts[n - 1]);
      if m == n {
        EvolvesReflexive(ss[n].db);
      } else {
        EvolvesTransitive(ss[m].db, ss[n - 1].db, ss[n].db);
      }
    }
  }

  lemma InitiallyOwn()
    ensures OwnInv(INITIAL)
  {
  }

  /** With one task id per item, terminal is absorbing whatever the clock does, evidence exists exactly
      for completed items, and no two executions work on one item. */
  lemma OneTaskIdSuffices(world: World, ss: seq<Sys>, acts: seq<Action>, m: nat, n: nat)
    requires OwnTaskRun(world, ss, acts) && m <= n < |ss|
    ensures forall i | i in ss[m].db.items && ss[m].db.items[i].status.Terminal() :: SameRecord(ss[m].db, ss[n].db, i)
    ensures EvidenceExact(ss[n].db)
    ensures forall e, f | Working(ss[n], e) && Working(ss[n], f) && ss[n].live[e].item == ss[n].live[f].item :: e == f
  {
    hide OwnTaskRun, SameRecord, EvidenceExact, Structured, ProgressAgrees;
    OwnThroughout(world, ss, acts, m, n);
    forall e, f | Working(ss[n], e) && Working(ss[n], f) && ss[n].live[e].item == ss[n].live[f].item ensures e == f {
      assert OwnExec(ss[n], e) && OwnExec(ss[n], f);
    }
  }

  /** A broker that hands every message out once gives such runs. */
  lemma OrderlyRunsOwnTheirTasks(world: World, ss: seq<Sys>, acts: seq<Action>)
    requires OrderlyRun(world, ss, acts) && ValidatedConfigs(world)
    ensures OwnTaskRun(world, ss, acts)
  {
    hide Behaviour, OneTaskEach, SettledBehind, Orderly, OwnTask, Enabled, Apply;
    RunLength(world, ss, acts);
    forall k | 0 <= k < |acts| ensures OwnTask(ss[k], acts[k]) {
      WorkIsBounded(world, ss, acts, 0, k);
      OrderlyOwns(ss[k], acts[k]);
    }
  }

  lemma RunLength(world: World, ss: seq<Sys>, acts: seq<Action>)
    requires Behaviour(world, ss, acts)
    ensures |ss| == |acts| + 1
  {
  }

  lemma OrderlyOwns(s: Sys, a: Action)
    requires OneTaskEach(s) && Orderly(s, a)
    ensures OwnTask(s, a)
  {
    hide ItemHasTask;
  }
}
