/** Safety of the worker protocol in every reachable state, under the assumptions of `Assumed`. */
module WorkerSafety {
  import opened Options
  import opened Sequences
  import opened RunTables
  import opened WorkerProtocol
  import opened WorkerEvidence

  // ---- The invariant ----

  predicate KeysDrawn(db: Db) {
    && (forall i | i in db.items :: i < db.nextId && db.items[i].runId in db.runs)
    && (forall r | r in db.runs :: r < db.nextId)
  }

  /** The uniqueness constraint on (run, case). */
  predicate CasesUnique(items: map<ItemId, Item>) {
    forall i, j | i in items && j in items && i != j && items[i].runId == items[j].runId ::
      items[i].caseId != items[j].caseId
  }

  predicate CasesCounted(db: Db) {
    forall r | r in db.runs :: db.runs[r].caseCount == |ItemsOf(db, r)|
  }

  predicate Structured(db: Db) {
    KeysDrawn(db) && CasesUnique(db.items) && CasesCounted(db)
  }

  /** An item has evidence exactly when it is completed. */
  predicate EvidenceExact(db: Db) {
    && EvidenceAtomic(db)
    && forall i | i in db.items :: i in db.traces <==> db.items[i].status.Completed?
  }

  /** A run's counters trail its items while it is in progress and equal them once it is final. */
  predicate ProgressAgrees(db: Db, r: RunId)
    requires r in db.runs
  {
    var run := db.runs[r];
    && run.caseCompleted <= |CompletedOf(db, r)|
    && run.caseErrored <= |FailedOf(db, r)|
    && (!run.status.InProgress? ==>
          && AllTerminal(db, r)
          && run.caseCompleted == |CompletedOf(db, r)|
          && run.caseErrored == |FailedOf(db, r)|)
    && (run.status.RunCompleted? ==> run.caseErrored == 0)
    && (run.status.RunPartial? ==> run.caseErrored > 0)
    && (run.status.RunFailed? ==> run.caseErrored == run.caseCount)
  }

  predicate TablesAgree(db: Db) {
    && Structured(db) && EvidenceExact(db)
    && forall r | r in db.runs :: ProgressAgrees(db, r)
  }

  /** Execution `e` holds an unexpired lease on its item. */
  predicate Owns(s: Sys, e: ExecId) {
    && e in s.live
    && var x := s.live[e];
    && (x.phase.Claimed? || x.phase.Ready?)
    && x.item in s.db.items
    && var item := s.db.items[x.item];
    && item.status.Running? && item.workerTask == Some(x.task)
    && item.leaseExpires.Some? && s.db.now < item.leaseExpires.value
    && x.startedAt + TASK_LEASE_SECONDS <= item.leaseExpires.value
  }

  predicate ExecInv(s: Sys, e: ExecId)
    requires e in s.live
  {
    var x := s.live[e];
    && x.item < s.db.nextId
    && x.startedAt <= s.db.now <= x.startedAt + TASK_TIME_LIMIT
    && (x.item in s.db.items ==> IsPublished(s, s.db.items[x.item].runId))
    && (x.phase.Claimed? || x.phase.Ready? ==> Owns(s, e))
    && (x.phase.Committed? || x.phase.Closing? ==> x.item in s.db.items && s.db.items[x.item].status.Terminal())
  }

  predicate Exclusive(s: Sys) {
    forall e, f | e in s.live && f in s.live && e != f :: s.live[e].task != s.live[f].task
  }

  predicate ChordInv(s: Sys, r: RunId)
    requires r in s.chords
  {
    && r in s.db.runs
    && (s.chords[r].Awaiting? ==>
          && s.db.runs[r].status.InProgress?
          && s.db.runs[r].caseCompleted == 0 && s.db.runs[r].caseErrored == 0
          && forall i | i in s.db.items && s.db.items[i].runId == r :: s.db.items[i].status.Queued?)
    && (s.chords[r].Published? ==> !s.db.runs[r].status.RunFailed?)
  }

  predicate Inv(s: Sys) {
    && TablesAgree(s.db)
    && Exclusive(s)
    && (forall e | e in s.live :: ExecInv(s, e))
    && (forall r | r in s.chords :: ChordInv(s, r))
  }

  /** What a step may do to the tables: terminal items and their evidence are frozen, items keep
      their run and case, and new items belong to new runs. */
  predicate Evolves(a: Db, b: Db) {
    && a.nextId <= b.nextId && a.runs.Keys <= b.runs.Keys
    && (forall i | i in a.items ::
          && i in b.items && b.items[i].runId == a.items[i].runId && b.items[i].caseId == a.items[i].caseId
          && (a.items[i].status.Terminal() ==> SameRecord(a, b, i)))
    && (forall i | i in b.items && i !in a.items :: b.items[i].runId !in a.runs)
    && (forall r | r in a.runs ::
          && b.runs[r].version == a.runs[r].version && b.runs[r].config == a.runs[r].config
          && b.runs[r].caseCount == a.runs[r].caseCount)
  }

  // ---- Counting ----

  lemma CountsEvolve(a: Db, b: Db, r: RunId)
    requires Evolves(a, b) && r in a.runs
    ensures ItemsOf(a, r) == ItemsOf(b, r)
    ensures CompletedOf(a, r) <= CompletedOf(b, r) && FailedOf(a, r) <= FailedOf(b, r)
    ensures |CompletedOf(a, r)| <= |CompletedOf(b, r)| && |FailedOf(a, r)| <= |FailedOf(b, r)|
    ensures AllTerminal(a, r) ==>
              && AllTerminal(b, r)
              && CompletedOf(a, r) == CompletedOf(b, r) && FailedOf(a, r) == FailedOf(b, r)
  {
    SubsetCard(CompletedOf(a, r), CompletedOf(b, r));
    SubsetCard(FailedOf(a, r), FailedOf(b, r));
    if AllTerminal(a, r) {
      assert forall i | i in ItemsOf(b, r) :: i in a.items && b.items[i] == a.items[i];
    }
  }

  /** Completed and failed items are disjoint parts of the run's items, and make it up exactly
      when every item is terminal. */
  lemma CountsPartition(db: Db, r: RunId)
    ensures |CompletedOf(db, r)| + |FailedOf(db, r)| <= |ItemsOf(db, r)|
    ensures |CompletedOf(db, r)| + |FailedOf(db, r)| == |ItemsOf(db, r)| <==> AllTerminal(db, r)
  {
    var c, f, all := CompletedOf(db, r), FailedOf(db, r), ItemsOf(db, r);
    assert c !! f && c + f <= all;
    assert |c + f| == |c| + |f|;
    SubsetCard(c + f, all);
    if |c + f| == |all| {
      assert |all - (c + f)| == 0;
      assert all == (c + f) + (all - (c + f));
      forall i | i in all ensures db.items[i].status.Terminal() {
        assert i in c + f;
      }
    }
    if AllTerminal(db, r) {
      assert all <= c + f;
      assert all == c + f;
    }
  }

  // ---- Tables: one lemma per kind of write ----

  /** A run whose row a step leaves alone stays in agreement with its evolving items. */
  lemma ProgressEvolves(a: Db, b: Db, r: RunId)
    requires Evolves(a, b) && r in a.runs && b.runs[r] == a.runs[r] && ProgressAgrees(a, r)
    ensures ProgressAgrees(b, r) && ItemsOf(a, r) == ItemsOf(b, r)
  {
    CountsEvolve(a, b, r);
  }

  lemma ItemWriteEvolves(a: Db, b: Db, i: ItemId, item: Item)
    requires i in a.items && !a.items[i].status.Terminal()
    requires b.runs == a.runs && b.nextId == a.nextId && b.items == a.items[i := item]
    requires item.runId == a.items[i].runId && item.caseId == a.items[i].caseId
    requires b.traces - {i} == a.traces - {i} && b.results - {i} == a.results - {i}
    ensures Evolves(a, b)
  {
    forall k | k in a.items && k != i ensures SameRecord(a, b, k) {
      assert k in a.traces ==> k in a.traces - {i} && k in b.traces - {i};
      assert k in b.traces ==> k in b.traces - {i} && k in a.traces - {i};
      assert k in a.results ==> k in a.results - {i} && k in b.results - {i};
      assert k in b.results ==> k in b.results - {i} && k in a.results - {i};
    }
  }

  lemma EvolvesKeepsStructure(a: Db, b: Db)
    requires Structured(a) && Evolves(a, b) && b.items.Keys == a.items.Keys && b.runs.Keys == a.runs.Keys
    ensures Structured(b)
  {
    forall r | r in b.runs ensures b.runs[r].caseCount == |ItemsOf(b, r)| {
      CountsEvolve(a, b, r);
    }
  }

  lemma ItemWriteKeepsEvidence(a: Db, b: Db, i: ItemId, item: Item)
    requires EvidenceExact(a) && i in a.items && b.items == a.items[i := item]
    requires b.traces - {i} == a.traces - {i}
    requires EvidenceAtomic(b) && (i in b.traces <==> item.status.Completed?)
    ensures EvidenceExact(b)
  {
    forall k | k in b.items && k != i ensures k in b.traces <==> b.items[k].status.Completed? {
      assert k in b.traces <==> k in b.traces - {i};
      assert k in a.traces <==> k in a.traces - {i};
    }
  }

  /** Writing one non-terminal item, with evidence exactly if it becomes completed, keeps the
      tables agreeing. */
  lemma ItemWriteKeepsTables(a: Db, b: Db, i: ItemId, item: Item)
    requires TablesAgree(a) && i in a.items && !a.items[i].status.Terminal()
    requires b.runs == a.runs && b.nextId == a.nextId && b.items == a.items[i := item]
    requires item.runId == a.items[i].runId && item.caseId == a.items[i].caseId
    requires b.traces - {i} == a.traces - {i} && b.results - {i} == a.results - {i}
    requires EvidenceAtomic(b) && (i in b.traces <==> item.status.Completed?)
    ensures TablesAgree(b) && Evolves(a, b)
  {
    ItemWriteEvolves(a, b, i, item);
    EvolvesKeepsStructure(a, b);
    ItemWriteKeepsEvidence(a, b, i, item);
    forall r | r in b.runs ensures ProgressAgrees(b, r) {
      ProgressEvolves(a, b, r);
    }
  }

  lemma SameItemsSameCounts(a: Db, b: Db, r: RunId)
    requires b.items == a.items
    ensures ItemsOf(b, r) == ItemsOf(a, r) && CompletedOf(b, r) == CompletedOf(a, r) && FailedOf(b, r) == FailedOf(a, r)
    ensures AllTerminal(b, r) == AllTerminal(a, r)
  {
  }

  lemma RunWriteEvolves(a: Db, r: RunId, run: Run)
    requires r in a.runs
    requires run.version == a.runs[r].version && run.config == a.runs[r].config && run.caseCount == a.runs[r].caseCount
    ensures Evolves(a, a.(runs := a.runs[r := run]))
  {
  }

  /** Overwriting one run row keeps the tables agreeing when the new row agrees with the items. */
  lemma RunWriteKeepsTables(a: Db, r: RunId, run: Run)
    requires TablesAgree(a) && r in a.runs
    requires run.version == a.runs[r].version && run.config == a.runs[r].config && run.caseCount == a.runs[r].caseCount
    requires ProgressAgrees(a.(runs := a.runs[r := run]), r)
    ensures TablesAgree(a.(runs := a.runs[r := run])) && Evolves(a, a.(runs := a.runs[r := run]))
  {
    var b := a.(runs := a.runs[r := run]);
    RunWriteEvolves(a, r, run);
    EvolvesKeepsStructure(a, b);
    assert EvidenceExact(b);
    forall q | q in b.runs ensures ProgressAgrees(b, q) {
      if q != r { ProgressEvolves(a, b, q); }
    }
  }

  lemma RefreshKeepsTables(db: Db, r: RunId)
    requires TablesAgree(db) && r in db.runs
    ensures TablesAgree(RefreshProgress(db, r)) && Evolves(db, RefreshProgress(db, r))
  {
    var after := RefreshProgress(db, r);
    SameItemsSameCounts(db, after, r);
    assert ProgressAgrees(db, r);
    RunWriteKeepsTables(db, r, after.runs[r]);
  }

  lemma FinaliseKeepsTables(db: Db, r: RunId)
    requires TablesAgree(db) && r in db.runs
    ensures TablesAgree(FinaliseRun(db, r)) && Evolves(db, FinaliseRun(db, r))
  {
    hide TablesAgree, ProgressAgrees, Evolves;
    var after := FinaliseRun(db, r);
    if after != db {
      FinalisedProgress(db, r);
      RunWriteKeepsTables(db, r, after.runs[r]);
    } else {
      EvolvesReflexive(db);
    }
  }

  lemma FinalisedProgress(db: Db, r: RunId)
    requires r in db.runs && FinaliseRun(db, r) != db
    ensures ProgressAgrees(FinaliseRun(db, r), r)
  {
    hide AllTerminal, CompletedOf, FailedOf, ItemsOf;
    SameItemsSameCounts(db, FinaliseRun(db, r), r);
    CountsPartition(db, r);
  }

  // ---- Steps ----

  /** An execution a step does not touch keeps its invariant while the row it owns stands still. */
  lemma ExecFrame(s: Sys, t: Sys, e: ExecId)
    requires e in s.live && e in t.live && t.live[e] == s.live[e] && ExecInv(s, e)
    requires s.db.nextId <= t.db.nextId
    requires t.db.now == s.db.now || s.db.now <= t.db.now <= s.live[e].startedAt + TASK_TIME_LIMIT
    requires Owns(s, e) ==> t.db.now < s.db.items[s.live[e].item].leaseExpires.value
    requires s.live[e].item in t.db.items <==> s.live[e].item in s.db.items
    requires s.live[e].item in s.db.items ==>
               var a, b := s.db.items[s.live[e].item], t.db.items[s.live[e].item];
               && b.runId == a.runId && IsPublished(t, a.runId)
               && (a.status.Terminal() ==> b.status.Terminal())
               && (Owns(s, e) ==> b == a)
    ensures ExecInv(t, e)
  {
  }

  lemma ChordFrame(s: Sys, t: Sys, r: RunId)
    requires r in s.chords && r in t.chords && t.chords[r] == s.chords[r] && ChordInv(s, r)
    requires r in t.db.runs && t.db.runs[r] == s.db.runs[r]
    requires s.chords[r].Awaiting? ==>
               forall i | i in t.db.items && t.db.items[i].runId == r ::
                 i in s.db.items && t.db.items[i] == s.db.items[i]
    ensures ChordInv(t, r)
  {
  }

  /** At most one live execution owns an item. */
  lemma OneOwner(s: Sys, e: ExecId, f: ExecId)
    requires Exclusive(s) && Owns(s, e) && Owns(s, f) && s.live[e].item == s.live[f].item
    ensures e == f
  {
  }

  /** An execution writes its item `item` over the old row, in a state where nobody else owns it. */
  ghost predicate WritesItem(s: Sys, t: Sys, e: ExecId, item: Item) {
    && e in s.live && s.live[e].item in s.db.items
    && var i := s.live[e].item;
    && t.db.items == s.db.items[i := item]
    && item.runId == s.db.items[i].runId && (s.db.items[i].status.Terminal() ==> item.status.Terminal())
    && t.db.now == s.db.now && t.db.nextId == s.db.nextId && t.db.runs == s.db.runs && t.chords == s.chords
    && (forall f | f in s.live && f != e && s.live[f].item == i :: !Owns(s, f))
  }

  lemma WritesItemOthers(s: Sys, t: Sys, e: ExecId, item: Item, f: ExecId)
    requires WritesItem(s, t, e, item) && f in s.live && f != e && f in t.live && t.live[f] == s.live[f]
    requires ExecInv(s, f)
    ensures ExecInv(t, f)
  {
    ExecFrame(s, t, f);
  }

  lemma WritesItemChords(s: Sys, t: Sys, e: ExecId, item: Item, r: RunId)
    requires WritesItem(s, t, e, item) && ExecInv(s, e) && r in s.chords && ChordInv(s, r)
    ensures ChordInv(t, r)
  {
    ChordFrame(s, t, r);
  }

  /** Such a write keeps the invariant when the tables still agree and the writer's own part holds. */
  lemma WritesItemKeepsInv(s: Sys, t: Sys, e: ExecId, item: Item)
    requires Inv(s) && WritesItem(s, t, e, item) && TablesAgree(t.db)
    requires e in t.live && t.live == s.live[e := t.live[e]] && t.live[e].task == s.live[e].task && ExecInv(t, e)
    ensures Inv(t)
  {
    hide TablesAgree, ExecInv, ChordInv;
    forall f | f in t.live && f != e ensures ExecInv(t, f) { WritesItemOthers(s, t, e, item, f); }
    forall r | r in t.chords ensures ChordInv(t, r) { WritesItemChords(s, t, e, item, r); }
  }

  // ---- One lemma per step ----

  lemma EvolvesReflexive(db: Db)
    ensures Evolves(db, db)
  {
  }

  /** A claim succeeds only for an item no live execution owns. */
  lemma ClaimExcludes(s: Sys, e: ExecId, f: ExecId)
    requires Inv(s) && e in s.live && f in s.live && f != e && s.live[f].item == s.live[e].item
    requires s.live[e].item in s.db.items && Claimable(s.db.items[s.live[e].item], s.live[e].task, s.db.now)
    ensures !Owns(s, f)
  {
    hide TablesAgree, ChordInv, ExecInv;
  }

  lemma StepClaim(world: World, s: Sys, e: ExecId)
    requires Inv(s) && Enabled(s, Claim(e))
    ensures
      var t := Apply(world, s, Claim(e));
      && Inv(t) && Evolves(s.db, t.db)
      && (e in t.live ==> Owns(t, e))
  {
    hide TablesAgree, Evolves, ChordInv;
    var t := ApplyClaim(s, e);
    var x := s.live[e];
    assert ExecInv(s, e);
    if e in t.live {
      var item := ClaimedItem(s.db.items[x.item], x.task, x.retries + 1, s.db.now);
      ClaimKeepsTables(s.db, x.item, x.task, x.retries + 1);
      assert Owns(t, e) && ExecInv(t, e);
      forall f | f in s.live && f != e && s.live[f].item == x.item ensures !Owns(s, f) {
        ClaimExcludes(s, e, f);
      }
      WritesItemKeepsInv(s, t, e, item);
    } else {
      EndKeepsInv(s, e);
      EvolvesReflexive(s.db);
    }
  }

  lemma ClaimKeepsTables(db: Db, i: ItemId, task: TaskId, attempt: nat)
    requires TablesAgree(db) && i in db.items && Claimable(db.items[i], task, db.now)
    ensures TablesAgree(ClaimItem(db, i, task, attempt)) && Evolves(db, ClaimItem(db, i, task, attempt))
  {
    ItemWriteKeepsTables(db, ClaimItem(db, i, task, attempt), i, ClaimedItem(db.items[i], task, attempt, db.now));
  }

  lemma EndKeepsInv(s: Sys, e: ExecId)
    requires Inv(s)
    ensures Inv(End(s, e))
  {
    hide TablesAgree;
    var t := End(s, e);
    forall f | f in t.live ensures ExecInv(t, f) { ExecFrame(s, t, f); }
    forall r | r in t.chords ensures ChordInv(t, r) { ChordFrame(s, t, r); }
  }

  /** Clearing never removes a committed row: the item it clears has no evidence. */
  lemma StepClear(world: World, s: Sys, e: ExecId)
    requires Inv(s) && Enabled(s, Clear(e))
    ensures
      var t := Apply(world, s, Clear(e));
      && Inv(t) && t.db == s.db && Owns(t, e)
  {
    hide TablesAgree, ChordInv;
    var t := ApplyClear(s, e);
    var x := s.live[e];
    assert ExecInv(s, e) && Owns(s, e);
    NothingStale(s.db, x.item);
    assert t.db == s.db && Owns(t, e) && ExecInv(t, e);
    forall f | f in s.live && f != e && s.live[f].item == x.item ensures !Owns(s, f) {
      if Owns(s, f) { OneOwner(s, e, f); }
    }
    assert t.db.items == s.db.items[x.item := s.db.items[x.item]];
    WritesItemKeepsInv(s, t, e, s.db.items[x.item]);
  }

  lemma NothingStale(db: Db, i: ItemId)
    requires TablesAgree(db) && i in db.items && !db.items[i].status.Completed?
    ensures ClearStale(db, i) == db
  {
    hide Structured, ProgressAgrees;
    assert EvidenceExact(db);
    assert i !in db.traces && i !in db.results;
    assert db.traces - {i} == db.traces && db.results - {i} == db.results;
  }

  /** The completing commit is made by the owner, before its lease ends. */
  lemma StepComplete(world: World, s: Sys, e: ExecId, output: AdapterOutput, rows: seq<EvalRow>)
    requires Inv(s) && Enabled(s, Complete(e, output, rows))
    ensures
      var t := Apply(world, s, Complete(e, output, rows));
      && Owns(s, e) && Inv(t) && Evolves(s.db, t.db)
  {
    hide TablesAgree, Evolves, ChordInv;
    var t := ApplyComplete(world, s, e, output, rows);
    var x := s.live[e];
    assert ExecInv(s, e) && Owns(s, e);
    var item := CompletedItem(s.db.items[x.item], output, s.db.now);
    CompleteKeepsTables(s.db, x.item, e, t.db.traces[x.item], rows);
    assert ExecInv(t, e);
    forall f | f in s.live && f != e && s.live[f].item == x.item ensures !Owns(s, f) {
      if Owns(s, f) { OneOwner(s, e, f); }
    }
    WritesItemKeepsInv(s, t, e, item);
  }

  lemma CompleteKeepsTables(db: Db, i: ItemId, e: ExecId, trace: Trace, rows: seq<EvalRow>)
    requires TablesAgree(db) && i in db.items && db.items[i].status.Running? && trace.writer == e
    requires InsertsCommit(db, i, rows)
    ensures
      var after := CompleteItem(db, i, e, trace, rows);
      TablesAgree(after) && Evolves(db, after)
  {
    hide Structured, ProgressAgrees, Evolves;
    var after := CompleteItem(db, i, e, trace, rows);
    CompleteEvidence(db, i, e, trace, rows);
    assert after.traces - {i} == db.traces - {i} && after.results - {i} == db.results - {i};
    ItemWriteKeepsTables(db, after, i, CompletedItem(db.items[i], trace.output, db.now));
  }

  /** The failing commit is made by the owner, before its lease ends. */
  lemma StepRaise(world: World, s: Sys, e: ExecId, message: string)
    requires Inv(s) && Enabled(s, Raise(e, message)) && Assumed(s, Raise(e, message))
    ensures
      var t := Apply(world, s, Raise(e, message));
      && Inv(t) && Evolves(s.db, t.db)
      && (WritesFailure(s, s.live[e], message) ==> Owns(s, e))
  {
    hide TablesAgree, Evolves, ChordInv;
    var t := ApplyRaise(s, e, message);
    var x := s.live[e];
    assert ExecInv(s, e);
    if WritesFailure(s, x, message) {
      assert Owns(s, e);
      var item := FailedItem(s.db.items[x.item], message, x.retries + 1, s.db.now);
      FailKeepsTables(s.db, x.item, message, x.retries + 1);
      assert ExecInv(t, e);
      forall f | f in s.live && f != e && s.live[f].item == x.item ensures !Owns(s, f) {
        if Owns(s, f) { OneOwner(s, e, f); }
      }
      WritesItemKeepsInv(s, t, e, item);
    } else {
      EvolvesReflexive(s.db);
      EndKeepsInv(s, e);
      QueueIsNotConstrained(End(s, e), t);
    }
  }

  lemma FailKeepsTables(db: Db, i: ItemId, message: string, attempt: nat)
    requires TablesAgree(db) && i in db.items && !db.items[i].status.Terminal()
    ensures TablesAgree(FailItem(db, i, message, attempt)) && Evolves(db, FailItem(db, i, message, attempt))
  {
    ItemWriteKeepsTables(db, FailItem(db, i, message, attempt), i, FailedItem(db.items[i], message, attempt, db.now));
  }

  /** Safety never depends on what the broker has queued. */
  lemma QueueIsNotConstrained(s: Sys, t: Sys)
    requires Inv(s) && t == s.(queue := t.queue)
    ensures Inv(t)
  {
    hide TablesAgree;
    forall f | f in t.live ensures ExecInv(t, f) { ExecFrame(s, t, f); }
    forall r | r in t.chords ensures ChordInv(t, r) { ChordFrame(s, t, r); }
  }

  lemma StepTick(s: Sys, to: nat)
    requires Inv(s) && Enabled(s, Tick(to)) && Assumed(s, Tick(to))
    ensures Inv(s.(db := s.db.(now := to))) && Evolves(s.db, s.db.(now := to))
  {
    hide TablesAgree;
    var t := s.(db := s.db.(now := to));
    TickKeepsTables(s.db, to);
    forall f | f in t.live ensures ExecInv(t, f) {
      assert ExecInv(s, f);
      ExecFrame(s, t, f);
    }
    forall r | r in t.chords ensures ChordInv(t, r) { ChordFrame(s, t, r); }
  }

  lemma TickKeepsTables(db: Db, to: nat)
    requires TablesAgree(db)
    ensures TablesAgree(db.(now := to)) && Evolves(db, db.(now := to))
  {
    var after := db.(now := to);
    assert Evolves(db, after);
    EvolvesKeepsStructure(db, after);
    forall r | r in after.runs ensures ProgressAgrees(after, r) { ProgressEvolves(db, after, r); }
  }

  lemma StepDeliver(world: World, s: Sys, a: Action)
    requires a.Deliver? && Inv(s) && Enabled(s, a) && Assumed(s, a)
    ensures Inv(Apply(world, s, a))
  {
    hide TablesAgree;
    var t := Apply(world, s, a);
    forall f | f in t.live ensures ExecInv(t, f) {
      if f != a.exec { ExecFrame(s, t, f); }
    }
    forall r | r in t.chords ensures ChordInv(t, r) { ChordFrame(s, t, r); }
  }

  lemma StepRefresh(world: World, s: Sys, e: ExecId)
    requires Inv(s) && Enabled(s, Refresh(e))
    ensures
      var t := Apply(world, s, Refresh(e));
      Inv(t) && Evolves(s.db, t.db)
  {
    hide TablesAgree, Evolves;
    var r := s.db.items[s.live[e].item].runId;
    var t := End(s, e).(db := RefreshProgress(s.db, r));
    assert ExecInv(s, e) && r in s.chords;
    assert r in s.db.runs by { assert ChordInv(s, r); }
    RefreshKeepsTables(s.db, r);
    forall f | f in t.live ensures ExecInv(t, f) { ExecFrame(s, t, f); }
    forall q | q in t.chords ensures ChordInv(t, q) {
      if q != r { ChordFrame(s, t, q); } else { assert ChordInv(s, q); }
    }
  }

  lemma StepFinalise(s: Sys, r: RunId)
    requires Inv(s) && IsPublished(s, r)
    ensures
      var t := s.(db := FinaliseRun(s.db, r));
      Inv(t) && Evolves(s.db, t.db)
  {
    hide TablesAgree, Evolves;
    var t := s.(db := FinaliseRun(s.db, r));
    assert ChordInv(s, r);
    FinaliseKeepsTables(s.db, r);
    forall f | f in t.live ensures ExecInv(t, f) { ExecFrame(s, t, f); }
    forall q | q in t.chords ensures ChordInv(t, q) {
      if q != r { ChordFrame(s, t, q); } else { assert ChordInv(s, q); }
    }
  }

  lemma StepPublish(world: World, s: Sys, r: RunId)
    requires Inv(s) && Enabled(s, Publish(r))
    ensures Inv(Apply(world, s, Publish(r)))
  {
    hide TablesAgree;
    var t := Apply(world, s, Publish(r));
    forall f | f in t.live ensures ExecInv(t, f) { ExecFrame(s, t, f); }
    forall q | q in t.chords ensures ChordInv(t, q) {
      if q != r { ChordFrame(s, t, q); } else { assert ChordInv(s, q); }
    }
  }

  // ---- Steps that add a run or reject one ----

  /** Rows for a new run `r`, with ids drawn after every existing one. */
  ghost predicate AddsRows(a: Db, b: Db, r: RunId, run: Run, items: map<ItemId, Item>) {
    && a.nextId <= r < b.nextId
    && b.runs == a.runs[r := run] && b.items == a.items + items
    && run.caseCount == |items|
    && (forall i | i in items :: a.nextId <= i < b.nextId && items[i].runId == r)
    && CasesUnique(items)
  }

  ghost predicate AddsEvidenceOnlyFor(a: Db, b: Db, items: set<ItemId>) {
    forall i | i !in items ::
      && (i in b.traces <==> i in a.traces) && (i in a.traces ==> b.traces[i] == a.traces[i])
      && RowsOf(b, i) == RowsOf(a, i)
  }

  lemma AddsRowsItems(a: Db, b: Db, r: RunId, run: Run, items: map<ItemId, Item>)
    requires KeysDrawn(a) && AddsRows(a, b, r, run, items)
    ensures ItemsOf(b, r) == items.Keys
  {
    hide CasesUnique;
    forall i ensures i in ItemsOf(b, r) <==> i in items {
      assert i in a.items ==> a.items[i].runId in a.runs;
    }
  }

  lemma AddsRowsEvolves(a: Db, b: Db, r: RunId, run: Run, items: map<ItemId, Item>)
    requires KeysDrawn(a) && AddsRows(a, b, r, run, items) && AddsEvidenceOnlyFor(a, b, items.Keys)
    ensures Evolves(a, b)
  {
    hide CasesUnique, RowsOf;
    forall i | i in a.items ensures SameRecord(a, b, i) {
      assert i !in items.Keys;
    }
    assert r !in a.runs;
    assert forall i | i in b.items && i !in a.items :: b.items[i].runId == r;
  }

  lemma AddsRowsKeepsStructure(a: Db, b: Db, r: RunId, run: Run, items: map<ItemId, Item>)
    requires Structured(a) && AddsRows(a, b, r, run, items) && Evolves(a, b) && ItemsOf(b, r) == items.Keys
    ensures Structured(b)
  {
    assert KeysDrawn(b) by { hide Evolves, CasesUnique, CasesCounted; }
    assert CasesUnique(b.items) by {
      hide Evolves, CasesCounted;
      forall i, j | i in b.items && j in b.items && i != j && b.items[i].runId == b.items[j].runId
        ensures b.items[i].caseId != b.items[j].caseId
      {
        assert i in items <==> b.items[i].runId == r;
        assert j in items <==> b.items[j].runId == r;
      }
    }
    forall q | q in b.runs ensures b.runs[q].caseCount == |ItemsOf(b, q)| {
      hide CasesUnique;
      assert |items| == |items.Keys|;
      if q != r { CountsEvolve(a, b, q); }
    }
  }

  lemma AddsRowsKeepsTables(a: Db, b: Db, r: RunId, run: Run, items: map<ItemId, Item>)
    requires TablesAgree(a) && AddsRows(a, b, r, run, items) && AddsEvidenceOnlyFor(a, b, items.Keys)
    requires EvidenceExact(b) && ProgressAgrees(b, r)
    ensures TablesAgree(b) && Evolves(a, b)
  {
    hide EvidenceExact, CasesUnique, CasesCounted, AddsEvidenceOnlyFor;
    AddsRowsItems(a, b, r, run, items);
    AddsRowsEvolves(a, b, r, run, items);
    AddsRowsKeepsStructure(a, b, r, run, items);
    forall q | q in b.runs ensures ProgressAgrees(b, q) {
      if q != r { ProgressEvolves(a, b, q); }
    }
  }

  lemma QueuedItemsAreFresh(r: RunId, cases: seq<CaseId>)
    requires Distinct(cases)
    ensures
      var items := QueuedItems(r, cases, |cases|);
      && items.Keys == ItemIds(r, |cases|) && |items| == |cases| && CasesUnique(items)
      && forall i | i in items :: r < i <= r + |cases| && items[i].runId == r && items[i].status.Queued?
  {
    hide ItemIds;
    var items := QueuedItems(r, cases, |cases|);
    assert items.Keys == ItemIds(r, |cases|);
    assert |items| == |items.Keys|;
    forall i, j | i in items && j in items && i != j ensures items[i].caseId != items[j].caseId {
      assert items[i].caseId == cases[i - r - 1] && items[j].caseId == cases[j - r - 1];
    }
  }

  lemma DispatchKeepsTables(db: Db, version: VersionId, config: ConfigId, cases: seq<CaseId>)
    requires TablesAgree(db) && Distinct(cases)
    ensures
      var after := DispatchRun(db, version, config, cases);
      TablesAgree(after) && Evolves(db, after)
  {
    hide CasesCounted, CasesUnique, QueuedItems, TablesAgree, EvidenceExact, ProgressAgrees, ItemIds;
    var after := DispatchRun(db, version, config, cases);
    var r, items := db.nextId, QueuedItems(db.nextId, cases, |cases|);
    QueuedItemsAreFresh(r, cases);
    DispatchAddsRows(db, version, config, cases);
    DispatchKeepsEvidence(db, version, config, cases);
    DispatchProgress(db, version, config, cases);
    hide DispatchRun, AddsRows;
    AddsRowsKeepsTables(db, after, r, NewRun(version, config, |cases|), items);
  }

  lemma DispatchAddsRows(db: Db, version: VersionId, config: ConfigId, cases: seq<CaseId>)
    requires Distinct(cases)
    ensures AddsRows(db, DispatchRun(db, version, config, cases), db.nextId, NewRun(version, config, |cases|),
                     QueuedItems(db.nextId, cases, |cases|))
  {
    hide CasesCounted, CasesUnique, QueuedItems, ItemIds, Distinct;
    QueuedItemsAreFresh(db.nextId, cases);
  }

  lemma DispatchKeepsEvidence(db: Db, version: VersionId, config: ConfigId, cases: seq<CaseId>)
    requires TablesAgree(db) && Distinct(cases)
    ensures EvidenceExact(DispatchRun(db, version, config, cases))
  {
    hide Structured, ProgressAgrees, QueuedItems, ItemIds;
    QueuedItemsAreFresh(db.nextId, cases);
    NothingDrawnAhead(db);
    UnfinishedItemsKeepEvidence(db, DispatchRun(db, version, config, cases), QueuedItems(db.nextId, cases, |cases|));
  }

  lemma UnfinishedItemsKeepEvidence(a: Db, b: Db, items: map<ItemId, Item>)
    requires EvidenceExact(a) && b.items == a.items + items && a.items.Keys !! items.Keys
    requires b.traces == a.traces && b.results == a.results
    requires forall i | i in items :: !items[i].status.Completed?
    ensures EvidenceExact(b)
  {
  }

  lemma NothingDrawnAhead(db: Db)
    requires Structured(db)
    ensures forall i | i in db.items :: i < db.nextId && db.items[i].runId < db.nextId
  {
    hide CasesCounted, CasesUnique;
  }

  lemma DispatchProgress(db: Db, version: VersionId, config: ConfigId, cases: seq<CaseId>)
    requires TablesAgree(db) && Distinct(cases)
    ensures ProgressAgrees(DispatchRun(db, version, config, cases), db.nextId)
  {
    hide TablesAgree, QueuedItems;
    QueuedItemsAreFresh(db.nextId, cases);
    var after := DispatchRun(db, version, config, cases);
    assert after.runs[db.nextId] == NewRun(version, config, |cases|);
  }

  /** A step that adds rows for a new run leaves every execution and chord as it was. */
  lemma NewRunKeepsInv(s: Sys, t: Sys)
    requires Inv(s) && TablesAgree(t.db) && Evolves(s.db, t.db) && t.live == s.live && t.db.now == s.db.now
    requires forall i | i in s.db.items :: t.db.items[i] == s.db.items[i]
    requires forall r | r in s.db.runs :: t.db.runs[r] == s.db.runs[r]
    requires forall i | i in t.db.items && i !in s.db.items :: s.db.nextId <= i
    requires forall r | r in s.chords :: r in t.chords && t.chords[r] == s.chords[r]
    requires forall r | r in t.chords && r !in s.chords :: ChordInv(t, r)
    ensures Inv(t)
  {
    hide TablesAgree, SameRecord;
    forall e | e in t.live ensures ExecInv(t, e) {
      assert ExecInv(s, e);
      ExecFrame(s, t, e);
    }
    forall r | r in t.chords ensures ChordInv(t, r) {
      if r in s.chords { ChordFrame(s, t, r); }
    }
  }

  lemma StepDispatch(world: World, s: Sys, a: Action)
    requires a.Dispatch? && Inv(s) && Enabled(s, a)
    ensures Inv(Apply(world, s, a)) && Evolves(s.db, Apply(world, s, a).db)
  {
    hide TablesAgree, Evolves, ItemIds, QueuedItems, ExecInv, ChordInv, Exclusive;
    var t := ApplyDispatch(s, a.version, a.config, a.cases);
    DispatchKeepsTables(s.db, a.version, a.config, a.cases);
    QueuedItemsAreFresh(s.db.nextId, a.cases);
    DrawnIds(s.db);
    DispatchChord(s, a.version, a.config, a.cases);
    forall r | r in s.chords ensures r < s.db.nextId { KnownChord(s, r); }
    NewRunKeepsInv(s, t);
  }

  lemma KnownChord(s: Sys, r: RunId)
    requires r in s.chords && ChordInv(s, r) && TablesAgree(s.db)
    ensures r < s.db.nextId
  {
    DrawnIds(s.db);
  }

  lemma DispatchChord(s: Sys, version: VersionId, config: ConfigId, cases: seq<CaseId>)
    requires TablesAgree(s.db) && Distinct(cases)
    ensures
      var t, r := ApplyDispatch(s, version, config, cases), s.db.nextId;
      r in t.chords && r !in s.chords ==> ChordInv(t, r)
  {
    hide TablesAgree, QueuedItems, ItemIds;
    QueuedItemsAreFresh(s.db.nextId, cases);
    DrawnIds(s.db);
  }

  lemma DrawnIds(db: Db)
    requires TablesAgree(db)
    ensures forall i | i in db.items :: i < db.nextId && db.items[i].runId < db.nextId
    ensures forall r | r in db.runs :: r < db.nextId
  {
    hide EvidenceExact, ProgressAgrees, CasesUnique, CasesCounted;
  }

  lemma StepReject(world: World, s: Sys, r: RunId)
    requires Inv(s) && Enabled(s, Reject(r)) && Assumed(s, Reject(r))
    ensures Inv(Apply(world, s, Reject(r))) && Evolves(s.db, Apply(world, s, Reject(r)).db)
  {
    hide TablesAgree, Evolves;
    var t := Apply(world, s, Reject(r));
    assert ChordInv(s, r);
    RejectKeepsTables(s.db, r);
    forall e | e in t.live ensures ExecInv(t, e) {
      assert ExecInv(s, e);
      ExecFrame(s, t, e);
    }
    forall q | q in t.chords ensures ChordInv(t, q) {
      if q != r { ChordFrame(s, t, q); }
    }
  }

  lemma RejectKeepsTables(db: Db, r: RunId)
    requires TablesAgree(db) && r in db.runs && db.runs[r].caseCompleted == 0
    requires forall i | i in db.items && db.items[i].runId == r :: db.items[i].status.Queued?
    ensures TablesAgree(RejectRun(db, r)) && Evolves(db, RejectRun(db, r))
  {
    hide Structured, EvidenceExact, ProgressAgrees, Evolves;
    var after := RejectRun(db, r);
    RejectEvolves(db, r);
    EvolvesKeepsStructure(db, after);
    RejectKeepsEvidence(db, r);
    forall q | q in after.runs ensures ProgressAgrees(after, q) {
      if q != r {
        ProgressEvolves(db, after, q);
      } else {
        RejectProgress(db, r);
      }
    }
  }

  lemma RejectProgress(db: Db, r: RunId)
    requires Structured(db) && r in db.runs && db.runs[r].caseCompleted == 0
    requires forall i | i in db.items && db.items[i].runId == r :: db.items[i].status.Queued?
    ensures ProgressAgrees(RejectRun(db, r), r)
  {
    hide KeysDrawn, CasesUnique;
    var after := RejectRun(db, r);
    assert ItemsOf(db, r) == FailedOf(after, r) && CompletedOf(after, r) == {};
  }

  lemma RejectEvolves(db: Db, r: RunId)
    requires r in db.runs
    requires forall i | i in db.items && db.items[i].runId == r :: db.items[i].status.Queued?
    ensures Evolves(db, RejectRun(db, r))
  {
  }

  lemma RejectKeepsEvidence(db: Db, r: RunId)
    requires EvidenceExact(db) && r in db.runs
    requires forall i | i in db.items && db.items[i].runId == r :: db.items[i].status.Queued?
    ensures EvidenceExact(RejectRun(db, r))
  {
  }

  // ---- Sequential execution as one step ----

  lemma SequentialItemsAreFresh(world: World, version: VersionId, r: RunId, cases: seq<CaseId>, now: nat)
    requires Distinct(cases)
    ensures
      var items := SequentialItems(world, version, r, cases, |cases|, now);
      && items.Keys == ItemIds(r, |cases|) && |items| == |cases| && CasesUnique(items)
      && (forall i | i in items :: r < i <= r + |cases| && items[i].runId == r && items[i].status.Terminal())
      && (forall i | i in items :: items[i].status.Completed? <==> i in AnsweredIds(world, version, r, cases, |cases|))
  {
    hide ItemIds;
    var items := SequentialItems(world, version, r, cases, |cases|, now);
    assert items.Keys == ItemIds(r, |cases|);
    assert |items| == |items.Keys|;
    forall i, j | i in items && j in items && i != j ensures items[i].caseId != items[j].caseId {
      assert items[i].caseId == cases[i - r - 1] && items[j].caseId == cases[j - r - 1];
    }
  }

  /** The tables after inserting a finished run: `items` all terminal, evidence for `traces.Keys`. */
  function InsertRun(db: Db, next: nat, run: Run, items: map<ItemId, Item>, traces: map<ItemId, Trace>,
      rows: map<ItemId, seq<StoredRow>>): Db
  {
    db.(nextId := next, runs := db.runs[db.nextId := run], items := db.items + items,
        traces := db.traces + traces, results := db.results + rows)
  }

  ghost predicate FinishedItems(r: RunId, next: nat, run: Run, items: map<ItemId, Item>, done: set<ItemId>) {
    && r < next
    && (forall i | i in items :: r < i < next && items[i].runId == r && items[i].status.Terminal())
    && CasesUnique(items)
    && done <= items.Keys
    && (forall i | i in items :: items[i].status.Completed? <==> i in done)
    && run.caseCount == |items| && run.caseCompleted == |done| && run.caseErrored == |items.Keys - done|
    && run.status == (if run.caseErrored == 0 then RunCompleted else RunPartial)
  }

  ghost predicate FinishedEvidence(r: RunId, traces: map<ItemId, Trace>, rows: map<ItemId, seq<StoredRow>>) {
    && traces.Keys == rows.Keys
    && (forall i | i in traces :: traces[i].writer == r)
    && (forall i | i in rows :: DistinctEvaluators(rows[i]) && forall k | 0 <= k < |rows[i]| :: rows[i][k].writer == r)
  }

  ghost predicate FinishedRows(r: RunId, next: nat, run: Run, items: map<ItemId, Item>, traces: map<ItemId, Trace>,
      rows: map<ItemId, seq<StoredRow>>)
  {
    FinishedItems(r, next, run, items, traces.Keys) && FinishedEvidence(r, traces, rows)
  }

  lemma InsertedItems(db: Db, next: nat, run: Run, items: map<ItemId, Item>, traces: map<ItemId, Trace>,
      rows: map<ItemId, seq<StoredRow>>)
    requires KeysDrawn(db) && FinishedRows(db.nextId, next, run, items, traces, rows)
    ensures
      var after, r := InsertRun(db, next, run, items, traces, rows), db.nextId;
      && AddsRows(db, after, r, run, items)
      && ItemsOf(after, r) == items.Keys && CompletedOf(after, r) == traces.Keys
      && FailedOf(after, r) == items.Keys - traces.Keys && AllTerminal(after, r)
  {
    hide CasesUnique, DistinctEvaluators;
    var after, r := InsertRun(db, next, run, items, traces, rows), db.nextId;
    AddsRowsItems(db, after, r, run, items);
    NewItemsSplit(after, r, items, traces.Keys);
  }

  lemma InsertedEvidenceExact(db: Db, next: nat, run: Run, items: map<ItemId, Item>, traces: map<ItemId, Trace>,
      rows: map<ItemId, seq<StoredRow>>)
    requires KeysDrawn(db) && EvidenceExact(db) && FinishedRows(db.nextId, next, run, items, traces, rows)
    ensures EvidenceExact(InsertRun(db, next, run, items, traces, rows))
  {
    hide FinishedItems, FinishedEvidence, EvidenceAtomic, KeysDrawn;
    var after := InsertRun(db, next, run, items, traces, rows);
    EvidenceKeys(db);
    FinishedItemsAreFresh(db, next, run, items, traces.Keys);
    InsertedEvidenceAtomic(db, after, items, traces, rows);
    InsertedMatches(db, items, traces);
  }

  lemma FinishedItemsAreFresh(db: Db, next: nat, run: Run, items: map<ItemId, Item>, done: set<ItemId>)
    requires KeysDrawn(db) && FinishedItems(db.nextId, next, run, items, done)
    ensures db.items.Keys !! items.Keys && done <= items.Keys
    ensures forall i | i in items :: items[i].status.Completed? <==> i in done
  {
    hide CasesUnique;
  }

  lemma InsertedEvidenceAtomic(a: Db, b: Db, items: map<ItemId, Item>, traces: map<ItemId, Trace>,
      rows: map<ItemId, seq<StoredRow>>)
    requires EvidenceAtomic(a) && b.traces == a.traces + traces && b.results == a.results + rows
    requires b.items == a.items + items
    requires FinishedEvidence(a.nextId, traces, rows) && traces.Keys <= items.Keys
    ensures EvidenceAtomic(b)
  {
    hide DistinctEvaluators;
    InsertedEvidence(a, b, traces, rows, a.nextId);
  }

  lemma InsertedMatches(db: Db, items: map<ItemId, Item>, traces: map<ItemId, Trace>)
    requires forall i | i in db.items :: i in db.traces <==> db.items[i].status.Completed?
    requires db.traces.Keys <= db.items.Keys && db.items.Keys !! items.Keys && traces.Keys <= items.Keys
    requires forall i | i in items :: items[i].status.Completed? <==> i in traces
    ensures forall i | i in db.items + items :: i in db.traces + traces <==> (db.items + items)[i].status.Completed?
  {
  }

  lemma InsertedEvidenceOnlyFor(a: Db, b: Db, traces: map<ItemId, Trace>, rows: map<ItemId, seq<StoredRow>>,
      ids: set<ItemId>)
    requires b.traces == a.traces + traces && b.results == a.results + rows
    requires traces.Keys <= ids && rows.Keys <= ids
    ensures AddsEvidenceOnlyFor(a, b, ids)
  {
  }

  lemma EvidenceKeys(db: Db)
    requires EvidenceAtomic(db)
    ensures db.traces.Keys <= db.items.Keys && db.traces.Keys == db.results.Keys
  {
  }

  lemma EvidenceWithinItems(r: RunId, next: nat, run: Run, items: map<ItemId, Item>, traces: map<ItemId, Trace>,
      rows: map<ItemId, seq<StoredRow>>)
    requires FinishedRows(r, next, run, items, traces, rows)
    ensures traces.Keys <= items.Keys && rows.Keys <= items.Keys
  {
  }

  lemma InsertKeepsTables(db: Db, next: nat, run: Run, items: map<ItemId, Item>, traces: map<ItemId, Trace>,
      rows: map<ItemId, seq<StoredRow>>)
    requires TablesAgree(db) && FinishedRows(db.nextId, next, run, items, traces, rows)
    ensures
      var after := InsertRun(db, next, run, items, traces, rows);
      TablesAgree(after) && Evolves(db, after)
  {
    hide CasesUnique, CasesCounted, DistinctEvaluators, EvidenceExact, AddsRows, AddsEvidenceOnlyFor, FinishedRows,
         Evolves;
    var after := InsertRun(db, next, run, items, traces, rows);
    InsertedItems(db, next, run, items, traces, rows);
    InsertedEvidenceExact(db, next, run, items, traces, rows);
    EvidenceWithinItems(db.nextId, next, run, items, traces, rows);
    InsertedEvidenceOnlyFor(db, after, traces, rows, items.Keys);
    InsertedProgress(db, next, run, items, traces, rows);
    AddsRowsKeepsTables(db, after, db.nextId, run, items);
  }

  lemma InsertedProgress(db: Db, next: nat, run: Run, items: map<ItemId, Item>, traces: map<ItemId, Trace>,
      rows: map<ItemId, seq<StoredRow>>)
    requires KeysDrawn(db) && FinishedRows(db.nextId, next, run, items, traces, rows)
    ensures ProgressAgrees(InsertRun(db, next, run, items, traces, rows), db.nextId)
  {
    hide CasesUnique, DistinctEvaluators;
    InsertedItems(db, next, run, items, traces, rows);
  }

  lemma NewItemsSplit(db: Db, r: RunId, items: map<ItemId, Item>, done: set<ItemId>)
    requires ItemsOf(db, r) == items.Keys && done <= items.Keys
    requires forall i | i in items :: i in db.items && db.items[i] == items[i] && items[i].status.Terminal()
    requires forall i | i in items :: items[i].status.Completed? <==> i in done
    ensures AllTerminal(db, r) && CompletedOf(db, r) == done && FailedOf(db, r) == items.Keys - done
  {
    forall i ensures i in CompletedOf(db, r) <==> i in done {
      assert i in CompletedOf(db, r) ==> i in ItemsOf(db, r);
      assert i in done ==> i in ItemsOf(db, r);
    }
    forall i ensures i in FailedOf(db, r) <==> i in items.Keys - done {
      assert i in FailedOf(db, r) ==> i in ItemsOf(db, r);
      assert i in items.Keys - done ==> i in ItemsOf(db, r);
    }
  }

  /** `execute_run` inserts exactly such a finished run. */
  lemma SequentialInserts(world: World, db: Db, version: VersionId, config: ConfigId, cases: seq<CaseId>)
    ensures
      var r, n := db.nextId, |cases|;
      ExecuteRun(world, db, version, config, cases)
      == InsertRun(db, r + 1 + n, SequentialRun(world, version, config, r, cases, db.now),
                   SequentialItems(world, version, r, cases, n, db.now),
                         SequentialTraces(world, version, r, cases, n),
                         SequentialRows(world, version, config, r, cases, n))
  {
    hide ItemIds, SequentialItems, SequentialTraces, SequentialRows, AnsweredIds;
  }

  lemma SequentialFinished(world: World, db: Db, version: VersionId, config: ConfigId, cases: seq<CaseId>)
    requires Distinct(cases) && ValidatedConfigs(world)
    ensures
      var r, n := db.nextId, |cases|;
      FinishedRows(r, r + 1 + n, SequentialRun(world, version, config, r, cases, db.now),
                   SequentialItems(world, version, r, cases, n, db.now),
                   SequentialTraces(world, version, r, cases, n), SequentialRows(world, version, config, r, cases, n))
  {
    hide ItemIds, SequentialItems, SequentialTraces, SequentialRows, AnsweredIds, FinishedItems, FinishedEvidence,
         ValidatedConfigs, Distinct;
    var r := db.nextId;
    SequentialItemsFinished(world, version, config, r, cases, db.now);
    SequentialKeys(world, version, config, r, cases);
    SequentialEvidenceFinished(world, version, config, r, cases);
  }

  lemma SequentialItemsFinished(world: World, version: VersionId, config: ConfigId, r: RunId, cases: seq<CaseId>,
      now: nat)
    requires Distinct(cases)
    ensures
      var n, answered := |cases|, AnsweredIds(world, version, r, cases, |cases|);
      FinishedItems(r, r + 1 + n, SequentialRun(world, version, config, r, cases, now),
                    SequentialItems(world, version, r, cases, n, now), answered)
  {
    hide ItemIds, SequentialItems, AnsweredIds, CasesUnique, Distinct;
    SequentialItemsAreFresh(world, version, r, cases, now);
    AnsweredAreItems(world, version, r, cases);
  }

  lemma AnsweredAreItems(world: World, version: VersionId, r: RunId, cases: seq<CaseId>)
    ensures AnsweredIds(world, version, r, cases, |cases|) <= ItemIds(r, |cases|)
  {
    hide ItemIds;
  }

  lemma SequentialEvidenceFinished(world: World, version: VersionId, config: ConfigId, r: RunId, cases: seq<CaseId>)
    requires ValidatedConfigs(world)
    ensures FinishedEvidence(r, SequentialTraces(world, version, r, cases, |cases|),
                             SequentialRows(world, version, config, r, cases, |cases|))
  {
    hide ItemIds, SequentialTraces, SequentialRows, AnsweredIds, DistinctEvaluators, ValidatedConfigs;
    var rows := SequentialRows(world, version, config, r, cases, |cases|);
    SequentialKeys(world, version, config, r, cases);
    forall i | i in rows
      ensures DistinctEvaluators(rows[i]) && forall k | 0 <= k < |rows[i]| :: rows[i][k].writer == r
    {
      SequentialRowsDistinct(world, version, config, r, cases, i);
    }
  }

  lemma SequentialKeys(world: World, version: VersionId, config: ConfigId, r: RunId, cases: seq<CaseId>)
    ensures
      var answered := AnsweredIds(world, version, r, cases, |cases|);
      && answered <= ItemIds(r, |cases|)
      && SequentialTraces(world, version, r, cases, |cases|).Keys == answered
      && SequentialRows(world, version, config, r, cases, |cases|).Keys == answered
      && forall i | i in answered :: SequentialTraces(world, version, r, cases, |cases|)[i].writer == r
  {
    hide ItemIds;
  }

  lemma SequentialKeepsTables(world: World, db: Db, version: VersionId, config: ConfigId, cases: seq<CaseId>)
    requires TablesAgree(db) && Distinct(cases) && ValidatedConfigs(world)
    ensures
      var after := ExecuteRun(world, db, version, config, cases);
      TablesAgree(after) && Evolves(db, after)
  {
    hide TablesAgree, Evolves, FinishedRows, ItemIds, SequentialItems, SequentialTraces, SequentialRows,
         ValidatedConfigs, AnsweredIds;
    var r, n := db.nextId, |cases|;
    SequentialInserts(world, db, version, config, cases);
    SequentialFinished(world, db, version, config, cases);
    InsertKeepsTables(db, r + 1 + n, SequentialRun(world, version, config, r, cases, db.now),
      SequentialItems(world, version, r, cases, n, db.now),
      SequentialTraces(world, version, r, cases, n),
      SequentialRows(world, version, config, r, cases, n));
  }

  lemma StepSequential(world: World, s: Sys, a: Action)
    requires a.Sequential? && Inv(s) && Enabled(s, a) && ValidatedConfigs(world)
    ensures Inv(Apply(world, s, a)) && Evolves(s.db, Apply(world, s, a).db)
  {
    hide TablesAgree, Evolves, ItemIds, SequentialItems, SequentialTraces, SequentialRows, AnsweredIds,
         ValidatedConfigs, ExecInv, ChordInv;
    var t := s.(db := ExecuteRun(world, s.db, a.version, a.config, a.cases));
    SequentialKeepsTables(world, s.db, a.version, a.config, a.cases);
    SequentialItemsAreFresh(world, a.version, s.db.nextId, a.cases, s.db.now);
    DrawnIds(s.db);
    assert forall i | i in s.db.items :: t.db.items[i] == s.db.items[i];
    NewRunKeepsInv(s, t);
  }

  // ---- Whole runs ----

  /** The invariant survives every assumed step, and no step changes a terminal record. */
  lemma Step(world: World, s: Sys, a: Action)
    requires Inv(s) && Enabled(s, a) && Assumed(s, a) && ValidatedConfigs(world)
    ensures Inv(Apply(world, s, a)) && Evolves(s.db, Apply(world, s, a).db)
  {
    hide Inv, Evolves;
    match a
    case Tick(to) => StepTick(s, to);
    case Dispatch(_, _, _) => StepDispatch(world, s, a);
    case Publish(r) => StepPublish(world, s, r); EvolvesReflexive(s.db);
    case Reject(r) => StepReject(world, s, r);
    case Sequential(_, _, _) => StepSequential(world, s, a);
    case Deliver(_, _, _, _) => StepDeliver(world, s, a); EvolvesReflexive(s.db);
    case Claim(e) => StepClaim(world, s, e);
    case Clear(e) => StepClear(world, s, e); EvolvesReflexive(s.db);
    case Complete(e, output, rows) => StepComplete(world, s, e, output, rows);
    case Raise(e, message) => StepRaise(world, s, e, message);
    case Refresh(e) => StepRefresh(world, s, e);
    case Finalise(r) => StepFinalise(s, r);
    case Kill(e) => EndKeepsInv(s, e); EvolvesReflexive(s.db);
  }

  lemma InitialInv()
    ensures Inv(INITIAL)
  {
  }

  lemma {:induction false} Reachable(world: World, ss: seq<Sys>, acts: seq<Action>, n: nat)
    requires Behaviour(world, ss, acts) && AllAssumed(ss, acts) && ss[0] == INITIAL && ValidatedConfigs(world)
    requires n < |ss|
    ensures Inv(ss[n])
  {
    hide Inv, Apply, Assumed, Enabled;
    if n == 0 {
      InitialInv();
    } else {
      Reachable(world, ss, acts, n - 1);
      Step(world, ss[n - 1], acts[n - 1]);
    }
  }

  lemma EvolvesTransitive(a: Db, b: Db, c: Db)
    requires Evolves(a, b) && Evolves(b, c)
    ensures Evolves(a, c)
  {
    forall i | i in a.items && a.items[i].status.Terminal() ensures SameRecord(a, c, i) {
      assert SameRecord(a, b, i) && SameRecord(b, c, i);
    }
  }

  lemma {:induction false} EvolvesThroughout(world: World, ss: seq<Sys>, acts: seq<Action>, m: nat, n: nat)
    requires Behaviour(world, ss, acts) && AllAssumed(ss, acts) && ss[0] == INITIAL && ValidatedConfigs(world)
    requires m <= n < |ss|
    ensures Evolves(ss[m].db, ss[n].db)
    decreases n
  {
    hide Inv, Evolves, Apply, Assumed, Enabled;
    if m == n {
      EvolvesReflexive(ss[m].db);
    } else {
      EvolvesThroughout(world, ss, acts, m, n - 1);
      Reachable(world, ss, acts, n - 1);
      Step(world, ss[n - 1], acts[n - 1]);
      EvolvesTransitive(ss[m].db, ss[n - 1].db, ss[n].db);
    }
  }
}
