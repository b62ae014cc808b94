/** Termination of the worker protocol: with one task id per item, messages handed out once and no
    hard kill, every published item becomes terminal within three deliveries. Nothing is assumed
    about time, and any step may raise, including the recount after the completing commit. */
module WorkerTermination {
  import opened Options
  import opened RunTables
  import opened WorkerProtocol
  import opened WorkerSafety
  import opened WorkerTheorems

  /** The broker hands out exactly what is queued, and no execution is killed. */
  predicate Orderly(s: Sys, a: Action) {
    match a
    case Deliver(_, task, item, retries) => task in s.queue && s.queue[task] == Message(item, retries)
    case Reject(r) => r in s.chords && s.chords[r].Awaiting?
    case Kill(_) => false
    case _ => true
  }

  predicate InScope(s: Sys, i: ItemId) {
    i in s.db.items && IsPublished(s, s.db.items[i].runId)
  }

  /** Execution `e` runs the task of item `i` and has not settled it yet. */
  predicate Pursues(s: Sys, e: ExecId, i: ItemId) {
    e in s.live && s.live[e].task == i && !s.live[e].phase.Committed? && !s.live[e].phase.Closing?
  }

  predicate TaskOf(s: Sys, task: TaskId, item: ItemId, retries: nat) {
    task == item && InScope(s, item) && retries <= MAX_RETRIES
  }

  ghost predicate Pending(s: Sys, i: ItemId) {
    i in s.queue || exists e :: Pursues(s, e, i)
  }

  /** Each published item is terminal or has exactly one task, queued or live. */
  ghost predicate OneTaskEach(s: Sys) {
    && KeysDrawn(s.db) && s.chords.Keys <= s.db.runs.Keys
    && (forall t | t in s.queue :: TaskOf(s, t, s.queue[t].item, s.queue[t].retries))
    && (forall e | e in s.live ::
          TaskOf(s, s.live[e].task, s.live[e].item, s.live[e].retries) && s.live[e].task !in s.queue)
    && Exclusive(s)
    && (forall i | i in s.db.items :: ItemHasTask(s, i))
  }

  ghost predicate ItemHasTask(s: Sys, i: ItemId)
    requires i in s.db.items
  {
    var item := s.db.items[i];
    && (InScope(s, i) && !item.status.Terminal() ==> Pending(s, i))
    && (InScope(s, i) && item.status.Running? ==> item.workerTask == Some(i))
    && (item.runId in s.chords && s.chords[item.runId].Awaiting? ==> item.status.Queued?)
  }

  // ---- The measure ----

  function Rank(phase: Phase): nat {
    match phase
    case Started => 5
    case Claimed => 4
    case Ready => 3
    case Committed => 2
    case Closing => 2
  }

  function MessageEffort(m: Message): int { 6 * (3 - m.retries) }

  function ExecEffort(x: Exec): int { 6 * (2 - x.retries) + Rank(x.phase) }

  ghost predicate HasLive(s: Sys, i: ItemId) {
    exists e :: e in s.live && s.live[e].task == i
  }

  ghost function LiveOf(s: Sys, i: ItemId): (e: ExecId)
    requires HasLive(s, i)
    ensures e in s.live && s.live[e].task == i
  {
    var e :| e in s.live && s.live[e].task == i;
    e
  }

  /** An upper bound on the steps still to come for item `i`. */
  ghost function Effort(s: Sys, i: ItemId): int {
    if !InScope(s, i) then 18
    else if i in s.queue then MessageEffort(s.queue[i])
    else if HasLive(s, i) then ExecEffort(s.live[LiveOf(s, i)])
    else 0
  }

  /** Deliveries item `i` may still receive. */
  ghost function DeliveriesLeft(s: Sys, i: ItemId): int {
    if !InScope(s, i) then 3
    else if i in s.queue then 3 - s.queue[i].retries
    else if HasLive(s, i) then 2 - s.live[LiveOf(s, i)].retries
    else 0
  }

  /** The item whose task an action advances. */
  function Advances(s: Sys, a: Action): Option<ItemId>
    requires Enabled(s, a)
  {
    match a
    case Deliver(_, task, _, _) => Some(task)
    case Claim(e) => Some(s.live[e].task)
    case Clear(e) => Some(s.live[e].task)
    case Complete(e, _, _) => Some(s.live[e].task)
    case Raise(e, _) => Some(s.live[e].task)
    case Refresh(e) => Some(s.live[e].task)
    case _ => None
  }

  /** Nothing about the task of `i` differs between the two states. */
  ghost predicate TaskUntouched(s: Sys, t: Sys, i: ItemId) {
    && (i in s.queue <==> i in t.queue) && (i in s.queue ==> t.queue[i] == s.queue[i])
    && (forall e | e in s.live && s.live[e].task == i :: e in t.live && t.live[e] == s.live[e])
    && (forall e | e in t.live && t.live[e].task == i :: e in s.live && s.live[e] == t.live[e])
  }

  lemma UntouchedEffort(s: Sys, t: Sys, i: ItemId)
    requires Exclusive(s) && TaskUntouched(s, t, i) && (InScope(s, i) <==> InScope(t, i))
    ensures Effort(t, i) == Effort(s, i) && DeliveriesLeft(t, i) == DeliveriesLeft(s, i)
    ensures Pending(t, i) <==> Pending(s, i)
  {
    if HasLive(s, i) {
      assert LiveOf(s, i) in t.live;
    }
    if HasLive(t, i) {
      assert LiveOf(t, i) in s.live;
    }
    forall e ensures Pursues(s, e, i) <==> Pursues(t, e, i) {
    }
  }

  lemma LiveIsUnique(s: Sys, e: ExecId)
    requires Exclusive(s) && e in s.live
    ensures HasLive(s, s.live[e].task) && LiveOf(s, s.live[e].task) == e
  {
  }

  // ---- Steps of an execution ----

  /** The tables change at most in the row of item `i`, which keeps its run. */
  ghost predicate TouchesOnly(a: Db, b: Db, i: ItemId) {
    && b.items.Keys == a.items.Keys && b.nextId == a.nextId && b.runs.Keys == a.runs.Keys
    && (forall k | k in a.items && k != i :: b.items[k] == a.items[k])
    && (i in a.items ==> b.items[i].runId == a.items[i].runId)
  }

  ghost predicate Moved(s: Sys, t: Sys, e: ExecId) {
    && e in s.live && e in t.live && t.queue == s.queue
    && t.live == s.live[e := s.live[e].(phase := t.live[e].phase)]
    && Rank(t.live[e].phase) < Rank(s.live[e].phase)
  }

  ghost predicate Ended(s: Sys, t: Sys, e: ExecId) {
    e in s.live && t.live == s.live - {e} && t.queue == s.queue
  }

  ghost predicate Requeued(s: Sys, t: Sys, e: ExecId) {
    && e in s.live && t.live == s.live - {e} && s.live[e].retries < MAX_RETRIES
    && t.queue == s.queue[s.live[e].task := Message(s.live[e].item, s.live[e].retries + 1)]
  }

  ghost predicate ExecStep(s: Sys, t: Sys, e: ExecId) {
    && (Moved(s, t, e) || Ended(s, t, e) || Requeued(s, t, e))
    && t.chords == s.chords && TouchesOnly(s.db, t.db, s.live[e].item)
  }

  /** Nobody gains work, and the tasks named in `less` lose some. */
  ghost predicate Winds(s: Sys, t: Sys, i: ItemId) {
    && (forall k :: Effort(t, k) <= Effort(s, k) && DeliveriesLeft(t, k) <= DeliveriesLeft(s, k))
    && Effort(t, i) < Effort(s, i)
  }

  lemma ExecStepScope(s: Sys, t: Sys, e: ExecId, k: ItemId)
    requires ExecStep(s, t, e)
    ensures InScope(t, k) <==> InScope(s, k)
  {
  }

  lemma ExecStepOthers(s: Sys, t: Sys, e: ExecId, k: ItemId)
    requires OneTaskEach(s) && ExecStep(s, t, e) && k != s.live[e].task
    ensures Effort(t, k) == Effort(s, k) && DeliveriesLeft(t, k) == DeliveriesLeft(s, k)
    ensures Pending(t, k) <==> Pending(s, k)
  {
    ExecStepScope(s, t, e, k);
    assert TaskUntouched(s, t, k);
    UntouchedEffort(s, t, k);
  }

  lemma ExecStepOwn(s: Sys, t: Sys, e: ExecId)
    requires OneTaskEach(s) && ExecStep(s, t, e) && Exclusive(t)
    ensures Effort(t, s.live[e].task) < Effort(s, s.live[e].task)
    ensures DeliveriesLeft(t, s.live[e].task) <= DeliveriesLeft(s, s.live[e].task)
  {
    hide ItemHasTask, KeysDrawn;
    var i := s.live[e].task;
    ExecStepScope(s, t, e, i);
    LiveIsUnique(s, e);
    if e in t.live { LiveIsUnique(t, e); }
  }

  lemma ExecStepExclusive(s: Sys, t: Sys, e: ExecId)
    requires Exclusive(s) && ExecStep(s, t, e)
    ensures Exclusive(t)
  {
  }

  lemma ExecStepKeepsTasks(s: Sys, t: Sys, e: ExecId)
    requires OneTaskEach(s) && ExecStep(s, t, e) && KeysDrawn(t.db)
    requires s.live[e].item in t.db.items && ItemHasTask(t, s.live[e].item)
    ensures OneTaskEach(t) && Winds(s, t, s.live[e].task)
  {
    hide ItemHasTask, KeysDrawn, Exclusive, Effort, DeliveriesLeft, TouchesOnly;
    ExecStepExclusive(s, t, e);
    ExecStepOwn(s, t, e);
    forall k ensures Effort(t, k) <= Effort(s, k) && DeliveriesLeft(t, k) <= DeliveriesLeft(s, k) {
      if k != s.live[e].task { ExecStepOthers(s, t, e, k); }
    }
    forall m | m in t.queue ensures TaskOf(t, m, t.queue[m].item, t.queue[m].retries) {
      ExecStepScope(s, t, e, t.queue[m].item);
    }
    forall f | f in t.live
      ensures TaskOf(t, t.live[f].task, t.live[f].item, t.live[f].retries) && t.live[f].task !in t.queue
    {
      ExecStepScope(s, t, e, t.live[f].item);
      ExecStepApart(s, t, e, f);
    }
    forall k | k in t.db.items ensures ItemHasTask(t, k) {
      if k != s.live[e].item { ExecStepItem(s, t, e, k); }
    }
    assert t.chords.Keys <= t.db.runs.Keys by { TouchedRuns(s.db, t.db, s.live[e].item); }
  }

  lemma TouchedRuns(a: Db, b: Db, i: ItemId)
    requires TouchesOnly(a, b, i)
    ensures b.runs.Keys == a.runs.Keys
  {
  }

  lemma ExecStepApart(s: Sys, t: Sys, e: ExecId, f: ExecId)
    requires OneTaskEach(s) && ExecStep(s, t, e) && f in t.live
    ensures f in s.live && t.live[f].task == s.live[f].task && t.live[f].item == s.live[f].item
         && t.live[f].retries == s.live[f].retries
    ensures t.live[f].task !in t.queue
  {
    hide ItemHasTask, KeysDrawn, TouchesOnly;
  }

  lemma ExecStepItem(s: Sys, t: Sys, e: ExecId, k: ItemId)
    requires OneTaskEach(s) && ExecStep(s, t, e) && k in t.db.items && k != s.live[e].item
    ensures ItemHasTask(t, k)
  {
    hide KeysDrawn, Pending, Effort, DeliveriesLeft;
    ExecStepOthers(s, t, e, k);
    ExecStepScope(s, t, e, k);
    assert ItemHasTask(s, k);
  }

  lemma ExecTask(s: Sys, e: ExecId)
    requires OneTaskEach(s) && e in s.live
    ensures s.live[e].task == s.live[e].item && s.live[e].item in s.db.items && ItemHasTask(s, s.live[e].item)
    ensures InScope(s, s.live[e].item) && s.live[e].retries <= MAX_RETRIES
    ensures KeysDrawn(s.db) && s.db.items[s.live[e].item].runId in s.db.runs
  {
    hide ItemHasTask;
  }

  /** A committed or closing execution has a terminal item behind it. */
  ghost predicate SettledBehind(s: Sys) {
    forall e | e in s.live && (s.live[e].phase.Committed? || s.live[e].phase.Closing?) ::
      s.live[e].item in s.db.items && s.db.items[s.live[e].item].status.Terminal()
  }

  /** What an execution's own step leaves: its item is terminal, or still pursued by the task that
      holds its claim. */
  ghost predicate Wrote(s: Sys, t: Sys, e: ExecId)
    requires e in s.live
  {
    var i := s.live[e].item;
    && ExecStep(s, t, e) && KeysDrawn(t.db) && SettledBehind(t) && i in t.db.items
    && (t.db.items[i].status.Terminal() || Pursues(t, e, i) || i in t.queue)
    && (t.db.items[i].status.Running? ==> t.db.items[i].workerTask == Some(i))
  }

  ghost predicate Before(s: Sys, e: ExecId) {
    && e in s.live && SettledBehind(s) && KeysDrawn(s.db)
    && var i := s.live[e].item;
       && s.live[e].task == i && i in s.db.items && s.db.items[i].runId in s.db.runs
       && (s.db.items[i].status.Running? ==> s.db.items[i].workerTask == Some(i))
  }

  lemma ClaimWrites(s: Sys, e: ExecId)
    requires Before(s, e) && Enabled(s, Claim(e))
    ensures Wrote(s, ApplyClaim(s, e), e)
  {
  }

  lemma ClearWrites(s: Sys, e: ExecId)
    requires Before(s, e) && Enabled(s, Clear(e))
    ensures Wrote(s, ApplyClear(s, e), e)
  {
  }

  lemma CompleteWrites(world: World, s: Sys, e: ExecId, output: AdapterOutput, rows: seq<EvalRow>)
    requires Before(s, e) && Enabled(s, Complete(e, output, rows))
    ensures Wrote(s, ApplyComplete(world, s, e, output, rows), e)
  {
  }

  lemma RaiseWrites(s: Sys, e: ExecId, message: string)
    requires Before(s, e) && Enabled(s, Raise(e, message))
    ensures Wrote(s, ApplyRaise(s, e, message), e)
  {
    hide IsTransient, InsertsCommit;
  }

  lemma RefreshWrites(world: World, s: Sys, e: ExecId)
    requires Before(s, e) && Enabled(s, Refresh(e))
    ensures Wrote(s, Apply(world, s, Refresh(e)), e)
  {
  }

  lemma WroteItem(s: Sys, t: Sys, e: ExecId)
    requires e in s.live && Wrote(s, t, e)
    ensures s.live[e].item in t.db.items && ItemHasTask(t, s.live[e].item)
    requires s.live[e].item in s.db.items && ItemHasTask(s, s.live[e].item) && InScope(s, s.live[e].item)
  {
  }

  lemma StepOfExec(world: World, s: Sys, a: Action, e: ExecId)
    requires OneTaskEach(s) && SettledBehind(s) && Enabled(s, a)
    requires (a.Claim? || a.Clear? || a.Complete? || a.Raise? || a.Refresh?) && e == a.exec
    ensures
      var t := Apply(world, s, a);
      OneTaskEach(t) && SettledBehind(t) && Winds(s, t, s.live[e].task)
  {
    hide OneTaskEach, Winds, Effort, DeliveriesLeft, Wrote, SettledBehind;
    var t := Apply(world, s, a);
    ExecTask(s, e);
    match a {
      case Claim(_) => ClaimWrites(s, e);
      case Clear(_) => ClearWrites(s, e);
      case Complete(_, output, rows) => CompleteWrites(world, s, e, output, rows);
      case Raise(_, message) => RaiseWrites(s, e, message);
      case Refresh(_) => RefreshWrites(world, s, e);
    }
    WroteItem(s, t, e);
    WroteKeys(s, t, e);
    ExecStepKeepsTasks(s, t, e);
  }

  lemma WroteKeys(s: Sys, t: Sys, e: ExecId)
    requires e in s.live && Wrote(s, t, e)
    ensures ExecStep(s, t, e) && KeysDrawn(t.db) && SettledBehind(t)
  {
  }

  // ---- Delivery and publication ----

  lemma StepDeliverTask(world: World, s: Sys, a: Action)
    requires OneTaskEach(s) && SettledBehind(s) && a.Deliver? && Enabled(s, a) && Orderly(s, a)
    ensures
      var t := Apply(world, s, a);
      && OneTaskEach(t) && SettledBehind(t) && Winds(s, t, a.task)
      && DeliveriesLeft(t, a.task) < DeliveriesLeft(s, a.task)
  {
    hide ItemHasTask, KeysDrawn, Effort, DeliveriesLeft;
    var t := Apply(world, s, a);
    assert TaskOf(s, a.task, a.item, a.retries);
    assert Exclusive(t);
    DeliverOwn(s, t, a);
    forall k ensures Effort(t, k) <= Effort(s, k) && DeliveriesLeft(t, k) <= DeliveriesLeft(s, k) {
      if k != a.task {
        assert TaskUntouched(s, t, k);
        UntouchedEffort(s, t, k);
      }
    }
    forall k | k in t.db.items ensures ItemHasTask(t, k) {
      DeliverItem(s, t, a, k);
    }
  }

  ghost predicate Delivered(s: Sys, t: Sys, a: Action) {
    && a.Deliver? && a.exec !in s.live && a.task == a.item
    && a.task in s.queue && s.queue[a.task] == Message(a.item, a.retries)
    && t == s.(live := s.live[a.exec := Exec(a.task, a.item, a.retries, s.db.now, Started)],
      queue := s.queue - {a.task})
  }

  lemma DeliverOwn(s: Sys, t: Sys, a: Action)
    requires Delivered(s, t, a) && Exclusive(t) && InScope(s, a.task)
    ensures Effort(t, a.task) < Effort(s, a.task) && DeliveriesLeft(t, a.task) < DeliveriesLeft(s, a.task)
  {
    LiveIsUnique(t, a.exec);
  }

  lemma DeliverItem(s: Sys, t: Sys, a: Action, k: ItemId)
    requires Delivered(s, t, a) && Exclusive(s) && k in s.db.items && ItemHasTask(s, k)
    ensures ItemHasTask(t, k)
  {
    if k == a.task {
      assert Pursues(t, a.exec, k);
    } else {
      assert TaskUntouched(s, t, k);
      UntouchedEffort(s, t, k);
    }
  }

  lemma StepPublishTasks(world: World, s: Sys, r: RunId)
    requires OneTaskEach(s) && SettledBehind(s) && Enabled(s, Publish(r))
    ensures
      var t := Apply(world, s, Publish(r));
      && OneTaskEach(t) && SettledBehind(t)
      && forall k :: Effort(t, k) <= Effort(s, k) && DeliveriesLeft(t, k) <= DeliveriesLeft(s, k)
  {
    hide ItemHasTask, KeysDrawn, Effort, DeliveriesLeft;
    var t := Apply(world, s, Publish(r));
    forall k ensures Effort(t, k) <= Effort(s, k) && DeliveriesLeft(t, k) <= DeliveriesLeft(s, k) {
      PublishEffort(s, t, r, k);
    }
    forall k | k in t.db.items ensures ItemHasTask(t, k) { PublishItem(s, t, r, k); }
  }

  lemma PublishEffort(s: Sys, t: Sys, r: RunId, k: ItemId)
    requires OneTaskEach(s) && r in s.chords && s.chords[r].Awaiting?
    requires t == s.(chords := s.chords[r := Published], queue := s.queue + Messages(s.db, r))
    ensures Effort(t, k) <= Effort(s, k) && DeliveriesLeft(t, k) <= DeliveriesLeft(s, k)
    ensures InScope(s, k) ==> InScope(t, k) && (Pending(s, k) ==> Pending(t, k))
  {
    hide ItemHasTask, KeysDrawn;
    if InScope(s, k) {
      assert k !in Messages(s.db, r);
      assert TaskUntouched(s, t, k);
      UntouchedEffort(s, t, k);
    } else if InScope(t, k) {
      assert k in Messages(s.db, r);
    }
  }

  lemma PublishItem(s: Sys, t: Sys, r: RunId, k: ItemId)
    requires OneTaskEach(s) && r in s.chords && s.chords[r].Awaiting? && k in s.db.items
    requires t == s.(chords := s.chords[r := Published], queue := s.queue + Messages(s.db, r))
    ensures ItemHasTask(t, k)
  {
    PublishEffort(s, t, r, k);
    assert ItemHasTask(s, k);
    if InScope(t, k) && !InScope(s, k) { assert k in Messages(s.db, r); }
  }

  // ---- Steps that leave every task alone ----

  ghost predicate LeavesTasks(s: Sys, t: Sys) {
    && t.live == s.live && t.queue == s.queue && KeysDrawn(t.db)
    && (forall i | i in s.db.items :: i in t.db.items && t.db.items[i].runId == s.db.items[i].runId)
    && (forall r | IsPublished(t, r) :: IsPublished(s, r)) && (forall r | IsPublished(s, r) :: IsPublished(t, r))
    && (forall i | i in t.db.items && i !in s.db.items :: !IsPublished(t, t.db.items[i].runId))
  }

  lemma LeavesTasksKeeps(s: Sys, t: Sys)
    requires OneTaskEach(s) && SettledBehind(s) && LeavesTasks(s, t) && t.chords.Keys <= t.db.runs.Keys
    requires forall i | InScope(s, i) :: t.db.items[i] == s.db.items[i]
    requires forall i, r | i in t.db.items && r == t.db.items[i].runId && r in t.chords && t.chords[r].Awaiting? ::
               t.db.items[i].status.Queued?
    ensures OneTaskEach(t) && SettledBehind(t)
    ensures forall k :: Effort(t, k) <= Effort(s, k) && DeliveriesLeft(t, k) <= DeliveriesLeft(s, k)
  {
    hide ItemHasTask, KeysDrawn, Effort, DeliveriesLeft;
    forall k ensures Effort(t, k) <= Effort(s, k) && DeliveriesLeft(t, k) <= DeliveriesLeft(s, k) {
      UntouchedEffort(s, t, k);
    }
    forall k | k in t.db.items ensures ItemHasTask(t, k) { LeavesItem(s, t, k); }
  }

  lemma LeavesItem(s: Sys, t: Sys, k: ItemId)
    requires OneTaskEach(s) && LeavesTasks(s, t) && k in t.db.items
    requires InScope(s, k) ==> t.db.items[k] == s.db.items[k]
    requires t.db.items[k].runId in t.chords && t.chords[t.db.items[k].runId].Awaiting? ==> t.db.items[k].status.Queued?
    ensures ItemHasTask(t, k)
  {
    hide KeysDrawn, Effort, DeliveriesLeft;
    UntouchedEffort(s, t, k);
    if InScope(t, k) { assert InScope(s, k) && ItemHasTask(s, k); }
  }

  /** A step elsewhere: no task changes, no item in scope changes, and waiting runs stay queued. */
  ghost predicate Elsewhere(s: Sys, t: Sys) {
    && LeavesTasks(s, t) && t.chords.Keys <= t.db.runs.Keys
    && (forall i | InScope(s, i) :: t.db.items[i] == s.db.items[i])
    && (forall i, r | i in t.db.items && r == t.db.items[i].runId && r in t.chords && t.chords[r].Awaiting? ::
          t.db.items[i].status.Queued?)
  }

  lemma StepElsewhere(world: World, s: Sys, a: Action)
    requires OneTaskEach(s) && SettledBehind(s) && Enabled(s, a) && Orderly(s, a)
    requires a.Tick? || a.Dispatch? || a.Reject? || a.Sequential? || a.Finalise?
    ensures
      var t := Apply(world, s, a);
      && OneTaskEach(t) && SettledBehind(t)
      && forall k :: Effort(t, k) <= Effort(s, k) && DeliveriesLeft(t, k) <= DeliveriesLeft(s, k)
  {
    hide Effort, DeliveriesLeft, ItemHasTask, LeavesTasks, OneTaskEach;
    assert Elsewhere(s, Apply(world, s, a)) by {
      match a
      case Dispatch(version, config, cases) => DispatchElsewhere(s, version, config, cases);
      case Sequential(version, config, cases) => SequentialElsewhere(world, s, version, config, cases);
      case Reject(r) => RejectElsewhere(s, r);
      case Finalise(r) => FinaliseElsewhere(s, r);
      case Tick(to) => TickElsewhere(s, to);
    }
    hide Apply;
    LeavesTasksKeeps(s, Apply(world, s, a));
  }

  lemma TickElsewhere(s: Sys, to: nat)
    requires OneTaskEach(s)
    ensures Elsewhere(s, s.(db := s.db.(now := to)))
  {
    hide Pending;
  }

  lemma FinaliseElsewhere(s: Sys, r: RunId)
    requires OneTaskEach(s)
    ensures Elsewhere(s, s.(db := FinaliseRun(s.db, r)))
  {
    hide Pending, ItemsOf, CompletedOf, FailedOf;
  }

  lemma RejectElsewhere(s: Sys, r: RunId)
    requires OneTaskEach(s) && r in s.chords && s.chords[r].Awaiting? && r in s.db.runs
    ensures Elsewhere(s, s.(chords := s.chords[r := Rejected], db := RejectRun(s.db, r)))
  {
    hide Pending;
  }

  ghost predicate NewRows(s: Sys, t: Sys, r: RunId, items: map<ItemId, Item>) {
    && r == s.db.nextId && t.live == s.live && t.queue == s.queue
    && t.db.items == s.db.items + items && t.db.runs.Keys == s.db.runs.Keys + {r}
    && (t.chords == s.chords
        || (t.chords == s.chords[r := Awaiting] && forall i | i in items :: items[i].status.Queued?))
    && r < t.db.nextId && forall i | i in items :: r < i < t.db.nextId && items[i].runId == r
  }

  lemma NewRowsElsewhere(s: Sys, t: Sys, r: RunId, items: map<ItemId, Item>)
    requires OneTaskEach(s) && NewRows(s, t, r, items)
    ensures Elsewhere(s, t)
  {
    hide Pending, TaskOf;
    assert r !in s.chords && forall i | i in s.db.items :: i !in items && s.db.items[i].runId != r;
    NewRowsKeys(s, t, r, items);
    NewRowsTasks(s, t, r, items);
    forall i, q | i in t.db.items && q == t.db.items[i].runId && q in t.chords && t.chords[q].Awaiting?
      ensures t.db.items[i].status.Queued?
    {
      if i !in items { assert ItemHasTask(s, i); }
    }
  }

  lemma NewRowsKeys(s: Sys, t: Sys, r: RunId, items: map<ItemId, Item>)
    requires KeysDrawn(s.db) && NewRows(s, t, r, items)
    ensures KeysDrawn(t.db)
  {
  }

  lemma NewRowsTasks(s: Sys, t: Sys, r: RunId, items: map<ItemId, Item>)
    requires NewRows(s, t, r, items) && KeysDrawn(t.db) && r !in s.chords
    requires forall i | i in s.db.items :: i !in items && s.db.items[i].runId != r
    ensures LeavesTasks(s, t)
  {
    hide KeysDrawn;
  }

  lemma DispatchElsewhere(s: Sys, version: VersionId, config: ConfigId, cases: seq<CaseId>)
    requires OneTaskEach(s) && Distinct(cases)
    ensures Elsewhere(s, ApplyDispatch(s, version, config, cases))
  {
    hide OneTaskEach, ItemIds, QueuedItems, Elsewhere, CasesUnique, Distinct;
    var items := QueuedItems(s.db.nextId, cases, |cases|);
    QueuedItemsAreFresh(s.db.nextId, cases);
    assert NewRows(s, ApplyDispatch(s, version, config, cases), s.db.nextId, items);
    hide NewRows, ApplyDispatch;
    NewRowsElsewhere(s, ApplyDispatch(s, version, config, cases), s.db.nextId, items);
  }

  lemma SequentialElsewhere(world: World, s: Sys, version: VersionId, config: ConfigId, cases: seq<CaseId>)
    requires OneTaskEach(s) && Distinct(cases)
    ensures Elsewhere(s, s.(db := ExecuteRun(world, s.db, version, config, cases)))
  {
    hide OneTaskEach, ItemIds, SequentialItems, SequentialTraces, SequentialRows, SequentialRun, AnsweredIds,
         Elsewhere, CasesUnique, Distinct, KeysDrawn;
    hide NewRows, ExecuteRun;
    SequentialNewRows(world, s, version, config, cases);
    NewRowsElsewhere(s, s.(db := ExecuteRun(world, s.db, version, config, cases)), s.db.nextId,
      SequentialItems(world, version, s.db.nextId, cases, |cases|, s.db.now));
  }

  lemma SequentialNewRows(world: World, s: Sys, version: VersionId, config: ConfigId, cases: seq<CaseId>)
    requires Distinct(cases)
    ensures NewRows(s, s.(db := ExecuteRun(world, s.db, version, config, cases)), s.db.nextId,
      SequentialItems(world, version, s.db.nextId, cases, |cases|, s.db.now))
  {
    hide ItemIds, SequentialItems, SequentialTraces, SequentialRows, SequentialRun, AnsweredIds, CasesUnique, Distinct;
    SequentialItemsAreFresh(world, version, s.db.nextId, cases, s.db.now);
  }

  // ---- The theorems ----

  /** The measure: no orderly step gives any item more to do, a step of an item's task gives it
      strictly less, and a delivery uses up one of at most three. */
  lemma OrderlyStep(world: World, s: Sys, a: Action)
    requires OneTaskEach(s) && SettledBehind(s) && Enabled(s, a) && Orderly(s, a)
    ensures
      var t := Apply(world, s, a);
      && OneTaskEach(t) && SettledBehind(t)
      && (forall k :: Effort(t, k) <= Effort(s, k) && DeliveriesLeft(t, k) <= DeliveriesLeft(s, k))
      && (Advances(s, a).Some? ==> Effort(t, Advances(s, a).value) < Effort(s, Advances(s, a).value))
      && (a.Deliver? ==> DeliveriesLeft(t, a.task) < DeliveriesLeft(s, a.task))
  {
    hide OneTaskEach, SettledBehind, Effort, DeliveriesLeft, Apply;
    match a
    case Tick(_) => StepElsewhere(world, s, a);
    case Dispatch(_, _, _) => StepElsewhere(world, s, a);
    case Reject(_) => StepElsewhere(world, s, a);
    case Sequential(_, _, _) => StepElsewhere(world, s, a);
    case Finalise(_) => StepElsewhere(world, s, a);
    case Publish(r) => StepPublishTasks(world, s, r);
    case Deliver(_, _, _, _) => StepDeliverTask(world, s, a);
    case Claim(e) => StepOfExec(world, s, a, e);
    case Clear(e) => StepOfExec(world, s, a, e);
    case Complete(e, _, _) => StepOfExec(world, s, a, e);
    case Raise(e, _) => StepOfExec(world, s, a, e);
    case Refresh(e) => StepOfExec(world, s, a, e);
    case Kill(_) => assert false;
  }

  lemma EffortBounded(s: Sys, i: ItemId)
    requires OneTaskEach(s)
    ensures 0 <= Effort(s, i) <= 18 && 0 <= DeliveriesLeft(s, i) <= 3
  {
    hide ItemHasTask, KeysDrawn;
  }

  /** A run of the system in which the broker is orderly and nothing is killed. */
  ghost predicate OrderlyRun(world: World, ss: seq<Sys>, acts: seq<Action>) {
    && Behaviour(world, ss, acts) && ss[0] == INITIAL
    && forall k | 0 <= k < |acts| :: Orderly(ss[k], acts[k])
  }

  /** How many of the first `n` actions are steps of the task of `i`. */
  function TaskSteps(ss: seq<Sys>, acts: seq<Action>, i: ItemId, n: nat): nat
    requires n <= |acts| <= |ss| && forall k | 0 <= k < |acts| :: Enabled(ss[k], acts[k])
  {
    if n == 0 then 0
    else TaskSteps(ss, acts, i, n - 1) + (if Advances(ss[n - 1], acts[n - 1]) == Some(i) then 1 else 0)
  }

  /** How many of the first `n` actions deliver the task of `i`. */
  function Deliveries(acts: seq<Action>, i: ItemId, n: nat): nat
    requires n <= |acts|
  {
    if n == 0 then 0
    else Deliveries(acts, i, n - 1) + (if acts[n - 1].Deliver? && acts[n - 1].task == i then 1 else 0)
  }

  /** Every item, at every moment of an orderly run: at most three deliveries and eighteen steps of
      its task in all, counting those the current state still allows. */
  lemma {:induction false} WorkIsBounded(world: World, ss: seq<Sys>, acts: seq<Action>, i: ItemId, n: nat)
    requires OrderlyRun(world, ss, acts) && n < |ss|
    ensures OneTaskEach(ss[n]) && SettledBehind(ss[n])
    ensures Deliveries(acts, i, n) + DeliveriesLeft(ss[n], i) <= 3
    ensures TaskSteps(ss, acts, i, n) + Effort(ss[n], i) <= 18
  {
    hide OneTaskEach, SettledBehind, Apply, Enabled, Orderly, Effort, DeliveriesLeft;
    if n == 0 {
      InitiallyOrderly();
      EffortBounded(INITIAL, i);
    } else {
      WorkIsBounded(world, ss, acts, i, n - 1);
      OrderlyStep(world, ss[n - 1], acts[n - 1]);
      AdvancesDelivery(ss[n - 1], acts[n - 1]);
    }
  }

  lemma AdvancesDelivery(s: Sys, a: Action)
    requires Enabled(s, a)
    ensures a.Deliver? ==> Advances(s, a) == Some(a.task)
  {
  }

  lemma InitiallyOrderly()
    ensures OneTaskEach(INITIAL) && SettledBehind(INITIAL)
  {
  }

  /** A published item is never stuck: while it is not terminal, an orderly step of its task is
      possible, and that step brings it closer to the end. */
  lemma NeverStuck(world: World, s: Sys, i: ItemId) returns (a: Action)
    requires OneTaskEach(s) && SettledBehind(s) && InScope(s, i) && !s.db.items[i].status.Terminal()
    ensures Enabled(s, a) && Orderly(s, a) && Advances(s, a) == Some(i)
    ensures Effort(Apply(world, s, a), i) < Effort(s, i)
  {
    assert ItemHasTask(s, i);
    if i in s.queue {
      var e := FreshExec(s.live.Keys);
      assert TaskOf(s, i, s.queue[i].item, s.queue[i].retries);
      a := Deliver(e, i, i, s.queue[i].retries);
    } else {
      var e :| Pursues(s, e, i);
      a := if s.live[e].phase.Started? then Claim(e) else if s.live[e].phase.Claimed? then Clear(e)
        else Raise(e, "stopped");
      ExecTask(s, e);
    }
    OrderlyStep(world, s, a);
  }

  lemma FreshExec(used: set<ExecId>) returns (e: ExecId)
    ensures e !in used
  {
    e := 0;
    var rest := used;
    while exists x :: x in rest && e <= x
      invariant rest <= used && forall x | x in used && x !in rest :: x < e
      decreases rest
    {
      var x :| x in rest && e <= x;
      rest := rest - {x};
      e := x + 1;
    }
  }

  /** When nothing is queued and nothing runs, every published item is terminal. */
  lemma QuietIsTerminal(world: World, ss: seq<Sys>, acts: seq<Action>, n: nat, i: ItemId)
    requires OrderlyRun(world, ss, acts) && n < |ss| && InScope(ss[n], i)
    requires i !in ss[n].queue && (forall e | e in ss[n].live :: ss[n].live[e].task != i)
    ensures ss[n].db.items[i].status.Terminal()
  {
    hide Apply, Enabled, Orderly, Effort, DeliveriesLeft, KeysDrawn;
    WorkIsBounded(world, ss, acts, i, n);
    assert ItemHasTask(ss[n], i);
  }

  /** Hence a published item whose task has used up its deliveries and has no live execution, or
      whose task has taken eighteen steps, is terminal. */
  lemma EndsTerminal(world: World, ss: seq<Sys>, acts: seq<Action>, n: nat, i: ItemId)
    requires OrderlyRun(world, ss, acts) && n < |ss| && InScope(ss[n], i)
    requires TaskSteps(ss, acts, i, n) == 18
             || (Deliveries(acts, i, n) == 3 && forall e | e in ss[n].live :: ss[n].live[e].task != i)
    ensures ss[n].db.items[i].status.Terminal()
  {
    hide Apply, Enabled, Orderly, KeysDrawn, ItemHasTask;
    WorkIsBounded(world, ss, acts, i, n);
    QuietIsTerminal(world, ss, acts, n, i);
  }

  /** Hence, once no task of a published run with items is queued or live, its callback finalises it. */
  lemma CallbackFinalises(world: World, ss: seq<Sys>, acts: seq<Action>, n: nat, r: RunId)
    requires OrderlyRun(world, ss, acts) && n < |ss| && IsPublished(ss[n], r) && ItemsOf(ss[n].db, r) != {}
    requires forall i | i in ItemsOf(ss[n].db, r) ::
               i !in ss[n].queue && forall e | e in ss[n].live :: ss[n].live[e].task != i
    ensures r in ss[n].db.runs
    ensures
      var run := FinaliseRun(ss[n].db, r).runs[r];
      && run.status == (if FailedOf(ss[n].db, r) == {} then RunCompleted else RunPartial)
      && run.caseCompleted + run.caseErrored == |ItemsOf(ss[n].db, r)|
  {
    hide Apply, Enabled, Orderly, Effort, DeliveriesLeft, KeysDrawn, ItemHasTask;
    var any :| any in ItemsOf(ss[n].db, r);
    WorkIsBounded(world, ss, acts, any, n);
    forall i | i in ss[n].db.items && ss[n].db.items[i].runId == r ensures ss[n].db.items[i].status.Terminal() {
      assert i in ItemsOf(ss[n].db, r);
      QuietIsTerminal(world, ss, acts, n, i);
    }
    CountsPartition(ss[n].db, r);
    CallbackIsExact(ss[n].db, r, ss[n].db.now);
  }
}
