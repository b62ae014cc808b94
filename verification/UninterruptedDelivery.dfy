/** The task body is what the protocol's steps say: a delivery nobody interrupts is a run of the
    step system that ends in the tables the task method leaves. */
module UninterruptedDelivery {
  import opened Options
  import opened RunTables
  import opened WorkerProtocol
  import opened RunStore

  lemma Extend(world: World, ss: seq<Sys>, acts: seq<Action>, a: Action)
    requires Behaviour(world, ss, acts) && Enabled(ss[|acts|], a)
    ensures Behaviour(world, ss + [Apply(world, ss[|acts|], a)], acts + [a])
    ensures (ss + [Apply(world, ss[|acts|], a)])[|acts + [a]|] == Apply(world, ss[|acts|], a)
  {
    hide Apply, Enabled;
  }

  /** Delivering and claiming: the execution is either gone with nothing changed, or ready. */
  lemma Prepares(world: World, s: Sys, e: ExecId, i: ItemId, task: TaskId, retries: nat)
    returns (ss: seq<Sys>, acts: seq<Action>)
    requires e !in s.live && i in s.db.items
    ensures Behaviour(world, ss, acts) && ss[0] == s
    ensures
      var t := ss[|acts|];
      if ClaimSucceeds(s.db, i, task)
      then && t.db == Prepared(s.db, i, task, retries)
           && t.live == s.live[e := Exec(task, i, retries, s.db.now, Ready)]
      else t.db == s.db && t.live == s.live
  {
    ss, acts := [s], [];
    Extend(world, ss, acts, Deliver(e, task, i, retries));
    var s1 := Apply(world, s, Deliver(e, task, i, retries));
    ss, acts := ss + [s1], acts + [Deliver(e, task, i, retries)];
    Extend(world, ss, acts, Claim(e));
    var s2 := Apply(world, s1, Claim(e));
    ss, acts := ss + [s2], acts + [Claim(e)];
    ClaimEffect(world, s1, e);
    if ClaimSucceeds(s.db, i, task) {
      Extend(world, ss, acts, Clear(e));
      var s3 := Apply(world, s2, Clear(e));
      ss, acts := ss + [s3], acts + [Clear(e)];
      assert s3.live == s.live[e := Exec(task, i, retries, s.db.now, Ready)];
    } else {
      assert s2.live == s.live;
    }
  }

  lemma ClaimEffect(world: World, s: Sys, e: ExecId)
    requires Enabled(s, Claim(e))
    ensures
      var x, t := s.live[e], Apply(world, s, Claim(e));
      if ClaimSucceeds(s.db, x.item, x.task)
      then t.db == ClaimItem(s.db, x.item, x.task, x.retries + 1) && t.live == s.live[e := x.(phase := Claimed)]
      else t.db == s.db && t.live == s.live - {e}
  {
  }

  /** Every uninterrupted delivery of an existing item is a behaviour of the protocol. */
  lemma DeliveryFollowsProtocol(world: World, s: Sys, e: ExecId, i: ItemId, task: TaskId, retries: nat,
                                attempt: AdapterResult, trace: Trace, rows: seq<EvalRow>)
    returns (ss: seq<Sys>, acts: seq<Action>)
    requires e !in s.live && i in s.db.items && s.db.items[i].runId in s.db.runs
    requires attempt.Returned? ==>
               trace == NewTrace(world, e, s.db.runs[s.db.items[i].runId].version, s.db.items[i].caseId, attempt.output)
    ensures Behaviour(world, ss, acts) && ss[0] == s
    ensures ss[|acts|].db == RunAlone(s.db, e, i, task, retries, attempt, trace, rows)
    ensures ss[|acts|].live == s.live
  {
    hide Behaviour, InsertsCommit, IsTransient, Apply, Enabled;
    ss, acts := Prepares(world, s, e, i, task, retries);
    LengthOf(world, ss, acts);
    if ClaimSucceeds(s.db, i, task) {
      var ready := ss[|acts|];
      PreparedItem(s.db, i, task, retries);
      match AttemptError(ready.db, i, attempt, rows)
      case None =>
        CompletesAlone(world, ready, e, i, attempt.output, trace, rows);
        Extend(world, ss, acts, Complete(e, attempt.output, rows));
        var done := Apply(world, ready, Complete(e, attempt.output, rows));
        ss, acts := ss + [done], acts + [Complete(e, attempt.output, rows)];
        Extend(world, ss, acts, Refresh(e));
        ss, acts := ss + [Apply(world, done, Refresh(e))], acts + [Refresh(e)];
      case Some(message) =>
        FailsAlone(world, ready, e, i, message);
        Extend(world, ss, acts, Raise(e, message));
        var failed := Apply(world, ready, Raise(e, message));
        ss, acts := ss + [failed], acts + [Raise(e, message)];
        if !(IsTransient(message) && retries < MAX_RETRIES) {
          Extend(world, ss, acts, Refresh(e));
          ss, acts := ss + [Apply(world, failed, Refresh(e))], acts + [Refresh(e)];
        }
    }
  }

  lemma LengthOf(world: World, ss: seq<Sys>, acts: seq<Action>)
    requires Behaviour(world, ss, acts)
    ensures |ss| == |acts| + 1
  {
    hide Apply, Enabled;
  }

  lemma PreparedItem(db: Db, i: ItemId, task: TaskId, retries: nat)
    requires ClaimSucceeds(db, i, task)
    ensures
      var ready := Prepared(db, i, task, retries);
      && i in ready.items && ready.items[i].status.Running? && ready.items[i].runId == db.items[i].runId
      && ready.items[i].caseId == db.items[i].caseId && ready.runs == db.runs
  {
  }

  lemma CompletesAlone(world: World, s: Sys, e: ExecId, i: ItemId, output: AdapterOutput, trace: Trace,
      rows: seq<EvalRow>)
    requires e in s.live && s.live[e].phase.Ready? && s.live[e].item == i && i in s.db.items
    requires s.db.items[i].runId in s.db.runs && InsertsCommit(s.db, i, rows)
    requires trace == NewTrace(world, e, s.db.runs[s.db.items[i].runId].version, s.db.items[i].caseId, output)
    ensures Enabled(s, Complete(e, output, rows))
    ensures
      var done := Apply(world, s, Complete(e, output, rows));
      && Enabled(done, Refresh(e))
      && Apply(world, done, Refresh(e)).db == RefreshProgress(CompleteItem(s.db, i, e, trace, rows),
        s.db.items[i].runId)
      && Apply(world, done, Refresh(e)).live == s.live - {e}
  {
    hide InsertsCommit, CompletedOf, FailedOf;
  }

  lemma FailsAlone(world: World, s: Sys, e: ExecId, i: ItemId, message: string)
    requires e in s.live && s.live[e].phase.Ready? && s.live[e].item == i && i in s.db.items
      && s.db.items[i].status.Running?
    ensures Enabled(s, Raise(e, message))
    ensures
      var failed := Apply(world, s, Raise(e, message));
      if IsTransient(message) && s.live[e].retries < MAX_RETRIES
      then failed.db == s.db && failed.live == s.live - {e}
      else && Enabled(failed, Refresh(e))
           && Apply(world, failed, Refresh(e)).db
              == RefreshProgress(FailItem(s.db, i, message, s.live[e].retries + 1), s.db.items[i].runId)
           && Apply(world, failed, Refresh(e)).live == s.live - {e}
  {
    hide IsTransient, CompletedOf, FailedOf;
  }
}
