/** The concurrent protocol: task deliveries executing side by side against one database.
    Every committed transaction is one step; the environment may deliver, repeat, kill and delay. */
module WorkerProtocol {
  import opened RunTables

  /** How far an execution of `run_eval_case` has come. */
  datatype Phase =
    | Started      // delivered, nothing written
    | Claimed      // the claiming UPDATE matched
    | Ready        // stale evidence cleared, about to call the adapter
    | Committed    // evidence and status committed, progress not yet recounted
    | Closing      // final failure committed, progress not yet recounted

  datatype Exec = Exec(task: TaskId, item: ItemId, retries: nat, startedAt: nat, phase: Phase)

  datatype Message = Message(item: ItemId, retries: nat)

  /** Where the dispatcher stands with the chord of a run. */
  datatype Publication = Awaiting | Published | Rejected

  datatype Sys = Sys(
    db: Db,
    live: map<ExecId, Exec>,
    queue: map<TaskId, Message>,
    chords: map<RunId, Publication>)

  datatype Action =
    | Tick(to: nat)
    | Dispatch(version: VersionId, config: ConfigId, cases: seq<CaseId>)
    | Publish(run: RunId)
    | Reject(run: RunId)
    | Sequential(version: VersionId, config: ConfigId, cases: seq<CaseId>)
    | Deliver(exec: ExecId, task: TaskId, item: ItemId, retries: nat)
    | Claim(exec: ExecId)
    | Clear(exec: ExecId)
    | Complete(exec: ExecId, output: AdapterOutput, rows: seq<EvalRow>)
    | Raise(exec: ExecId, message: string)
    | Refresh(exec: ExecId)
    | Finalise(run: RunId)
    | Kill(exec: ExecId)

  /** What the program text alone allows; nothing is assumed here about timing or the broker. */
  predicate Enabled(s: Sys, a: Action) {
    match a
    case Tick(to) => s.db.now <= to
    case Dispatch(_, _, cases) => Distinct(cases)
    case Publish(r) => r in s.chords && s.chords[r].Awaiting?
    case Reject(r) => r in s.chords && !s.chords[r].Rejected? && r in s.db.runs
    case Sequential(_, _, cases) => Distinct(cases)
    case Deliver(e, _, _, _) => e !in s.live
    case Claim(e) => e in s.live && s.live[e].phase.Started? && s.live[e].item in s.db.items
    case Clear(e) => e in s.live && s.live[e].phase.Claimed?
    case Complete(e, _, rows) =>
      && e in s.live && s.live[e].phase.Ready? && s.live[e].item in s.db.items
      && s.db.items[s.live[e].item].runId in s.db.runs
      && InsertsCommit(s.db, s.live[e].item, rows)
    case Raise(e, _) => e in s.live
    case Refresh(e) =>
      && e in s.live && (s.live[e].phase.Committed? || s.live[e].phase.Closing?)
      && s.live[e].item in s.db.items
    case Finalise(_) => true
    case Kill(e) => e in s.live
  }

  predicate Retries(x: Exec, message: string) {
    !x.phase.Closing? && IsTransient(message) && x.retries < MAX_RETRIES
  }

  /** The final failure handler writes only when it finds the item not yet terminal. */
  predicate WritesFailure(s: Sys, x: Exec, message: string) {
    && !x.phase.Closing? && !Retries(x, message)
    && x.item in s.db.items && !s.db.items[x.item].status.Terminal()
  }

  /** One message per item, under a task id of its own. */
  function Messages(db: Db, r: RunId): map<TaskId, Message> {
    map i | i in ItemsOf(db, r) :: Message(i, 0)
  }

  function End(s: Sys, e: ExecId): Sys { s.(live := s.live - {e}) }

  function Move(s: Sys, e: ExecId, phase: Phase): Sys
    requires e in s.live
  {
    s.(live := s.live[e := s.live[e].(phase := phase)])
  }

  function ApplyClaim(s: Sys, e: ExecId): Sys
    requires Enabled(s, Claim(e))
  {
    var x := s.live[e];
    if Claimable(s.db.items[x.item], x.task, s.db.now)
    then Move(s, e, Claimed).(db := ClaimItem(s.db, x.item, x.task, x.retries + 1))
    else End(s, e)
  }

  function ApplyClear(s: Sys, e: ExecId): Sys
    requires Enabled(s, Clear(e))
  {
    var x := s.live[e];
    Move(s, e, Ready).(db := if x.retries > 0 then ClearStale(s.db, x.item) else s.db)
  }

  function ApplyComplete(world: World, s: Sys, e: ExecId, output: AdapterOutput, rows: seq<EvalRow>): Sys
    requires Enabled(s, Complete(e, output, rows))
  {
    var i := s.live[e].item;
    var item := s.db.items[i];
    var trace := NewTrace(world, e, s.db.runs[item.runId].version, item.caseId, output);
    Move(s, e, Committed).(db := CompleteItem(s.db, i, e, trace, rows))
  }

  function ApplyRaise(s: Sys, e: ExecId, message: string): Sys
    requires Enabled(s, Raise(e, message))
  {
    var x := s.live[e];
    if Retries(x, message) then
      End(s, e).(queue := s.queue[x.task := Message(x.item, x.retries + 1)])
    else if WritesFailure(s, x, message) then
      Move(s, e, Closing).(db := FailItem(s.db, x.item, message, x.retries + 1))
    else End(s, e)
  }

  /** Without cases there is no chord: nothing is published and no callback will ever run. */
  function ApplyDispatch(s: Sys, version: VersionId, config: ConfigId, cases: seq<CaseId>): Sys {
    s.(db := DispatchRun(s.db, version, config, cases),
       chords := if cases == [] then s.chords else s.chords[s.db.nextId := Awaiting])
  }

  function Apply(world: World, s: Sys, a: Action): Sys
    requires Enabled(s, a)
  {
    match a
    case Tick(to) => s.(db := s.db.(now := to))
    case Dispatch(version, config, cases) => ApplyDispatch(s, version, config, cases)
    case Publish(r) => s.(chords := s.chords[r := Published], queue := s.queue + Messages(s.db, r))
    case Reject(r) => s.(chords := s.chords[r := Rejected], db := RejectRun(s.db, r))
    case Sequential(version, config, cases) => s.(db := ExecuteRun(world, s.db, version, config, cases))
    case Deliver(e, task, item, retries) =>
      s.(live := s.live[e := Exec(task, item, retries, s.db.now, Started)], queue := s.queue - {task})
    case Claim(e) => ApplyClaim(s, e)
    case Clear(e) => ApplyClear(s, e)
    case Complete(e, output, rows) => ApplyComplete(world, s, e, output, rows)
    case Raise(e, message) => ApplyRaise(s, e, message)
    case Refresh(e) => End(s, e).(db := RefreshProgress(s.db, s.db.items[s.live[e].item].runId))
    case Finalise(r) => s.(db := FinaliseRun(s.db, r))
    case Kill(e) => End(s, e)
  }

  /** The facts the protocol rests on beyond its own text:
      - an execution is stopped by the hard time limit;
      - the broker runs a task id again only after its previous execution has ended;
      - the failure handler does not write for an execution that never claimed its item;
      - a drawn id is never drawn again, so no delivery names an item that does not exist yet;
      - a chord is published whole or not at all, so rejected runs have no deliveries and no callback. */
  predicate Assumed(s: Sys, a: Action) {
    match a
    case Tick(to) => forall e | e in s.live :: to <= s.live[e].startedAt + TASK_TIME_LIMIT
    case Deliver(_, task, i, _) =>
      && (forall e | e in s.live :: s.live[e].task != task)
      && i < s.db.nextId
      && (i in s.db.items ==> IsPublished(s, s.db.items[i].runId))
    case Raise(e, message) =>
      e in s.live && s.live[e].phase.Started? ==> !WritesFailure(s, s.live[e], message)
    case Reject(r) => r in s.chords && s.chords[r].Awaiting?
    case Finalise(r) => IsPublished(s, r)
    case _ => true
  }

  predicate IsPublished(s: Sys, r: RunId) {
    r in s.chords && s.chords[r].Published?
  }

  /** A finite run of the system: states ss[0..n], actions as[0..n-1]. */
  predicate Behaviour(world: World, ss: seq<Sys>, acts: seq<Action>) {
    && |ss| == |acts| + 1
    && forall k | 0 <= k < |acts| :: Enabled(ss[k], acts[k]) && ss[k + 1] == Apply(world, ss[k], acts[k])
  }

  predicate AllAssumed(ss: seq<Sys>, acts: seq<Action>)
    requires |ss| == |acts| + 1
  {
    forall k | 0 <= k < |acts| :: Assumed(ss[k], acts[k])
  }

  const EMPTY_DB := Db(0, 0, map[], map[], map[], map[])

  const INITIAL := Sys(EMPTY_DB, map[], map[], map[])
}
