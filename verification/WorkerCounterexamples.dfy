/** Runs that the program text allows once one assumption is dropped.

    The program has one producer, which publishes each item under one task id, so what it really needs
    is that the broker never runs a task id twice at once: redelivering a task while its first
    execution lives breaks the protocol, because the claim lets the same task back in. The hard time
    limit, which is shorter than the lease, guards against a second producer publishing an item under
    a further task id; the program has none. */
module WorkerCounterexamples {
  import opened Options
  import opened Strings
  import opened RunTables
  import opened WorkerProtocol
  import opened WorkerTheorems
  import OneTaskId

  const OUTPUT := AdapterOutput("answer", "details", 10, 0.5)

  /** The system after one case was dispatched (run 0, item 1) and published, without evidence. */
  function OneItem(now: nat, item: Item, live: map<ExecId, Exec>, queue: map<TaskId, Message>): Sys {
    Sys(Db(now, 2, map[0 := NewRun(0, 0, 1)], map[1 := item], map[], map[]), live, queue, map[0 := Published])
  }

  const FRESH := NewItem(0, 5, Queued, None)

  predicate Goes(world: World, s: Sys, a: Action, t: Sys, assumed: bool) {
    Enabled(s, a) && Assumed(s, a) == assumed && t == Apply(world, s, a)
  }

  /** A run from the empty database whose steps are all assumed, except step `at` if it is reached. */
  ghost predicate BreaksAt(world: World, ss: seq<Sys>, acts: seq<Action>, at: nat) {
    && Behaviour(world, ss, acts) && ss[0] == INITIAL
    && forall k | 0 <= k < |acts| :: Assumed(ss[k], acts[k]) <==> k != at
  }

  lemma Extend(world: World, ss: seq<Sys>, acts: seq<Action>, at: nat, a: Action, t: Sys)
    returns (longer: seq<Sys>, more: seq<Action>)
    requires BreaksAt(world, ss, acts, at) && |ss| == |acts| + 1 && Goes(world, ss[|acts|], a, t, |acts| != at)
    ensures longer == ss + [t] && more == acts + [a] && |longer| == |more| + 1
    ensures BreaksAt(world, longer, more, at) && longer[|more|] == t
  {
    hide Apply, Enabled, Assumed;
    longer, more := ss + [t], acts + [a];
  }

  /** Every delivery hands out a message that was queued at some earlier moment: the broker invents
      nothing, but it may hand a message out again. */
  predicate Handed(ss: seq<Sys>, acts: seq<Action>)
    requires |ss| == |acts| + 1
  {
    forall k | 0 <= k < |acts| && acts[k].Deliver? ::
      exists j | 0 <= j <= k :: WasQueued(ss[j], acts[k].task, Message(acts[k].item, acts[k].retries))
  }

  predicate WasQueued(s: Sys, task: TaskId, message: Message) {
    task in s.queue && s.queue[task] == message
  }

  // ---- Single steps on the one item ----

  lemma DispatchOne(world: World) returns (s: Sys)
    ensures Goes(world, INITIAL, Dispatch(0, 0, [5]), s, true)
    ensures Goes(world, s, Publish(0), OneItem(0, FRESH, map[], map[1 := Message(1, 0)]), true)
  {
    s := Apply(world, INITIAL, Dispatch(0, 0, [5]));
    assert ItemIds(0, 1) == {1};
    assert s.db.items == map[1 := FRESH];
    assert ItemsOf(s.db, 0) == {1};
    assert Messages(s.db, 0) == map[1 := Message(1, 0)];
  }

  lemma DeliverOne(world: World, now: nat, item: Item, live: map<ExecId, Exec>, queue: map<TaskId, Message>,
      e: ExecId, task: TaskId, retries: nat)
    requires e !in live && item.runId == 0
    ensures Goes(world, OneItem(now, item, live, queue), Deliver(e, task, 1, retries),
                 OneItem(now, item, live[e := Exec(task, 1, retries, now, Started)], queue - {task}),
                 forall f | f in live :: live[f].task != task)
  {
  }

  lemma ClaimOne(world: World, now: nat, item: Item, live: map<ExecId, Exec>, queue: map<TaskId, Message>, e: ExecId)
    requires e in live && live[e].phase.Started? && live[e].item == 1 && Claimable(item, live[e].task, now)
    ensures Goes(world, OneItem(now, item, live, queue), Claim(e),
                 OneItem(now, ClaimedItem(item, live[e].task, live[e].retries + 1, now),
                         live[e := live[e].(phase := Claimed)], queue), true)
  {
  }

  lemma ClearOne(world: World, now: nat, item: Item, live: map<ExecId, Exec>, queue: map<TaskId, Message>, e: ExecId)
    requires e in live && live[e].phase.Claimed? && live[e].item == 1
    ensures Goes(world, OneItem(now, item, live, queue), Clear(e),
                 OneItem(now, item, live[e := live[e].(phase := Ready)], queue), true)
  {
    var db := OneItem(now, item, live, queue).db;
    assert db.traces - {1} == map[] && db.results - {1} == map[];
  }

  /** A failure that is not transient ends the item, whatever the execution's attempt. */
  lemma FailOne(world: World, now: nat, item: Item, live: map<ExecId, Exec>, queue: map<TaskId, Message>, e: ExecId)
    requires e in live && live[e].phase.Ready? && live[e].item == 1 && item.status.Running?
    ensures Goes(world, OneItem(now, item, live, queue), Raise(e, "boom"),
                 OneItem(now, FailedItem(item, "boom", live[e].retries + 1, now),
                         live[e := live[e].(phase := Closing)], queue), true)
  {
    assert WritesFailure(OneItem(now, item, live, queue), live[e], "boom");
  }

  lemma RetryOne(world: World, now: nat, item: Item, x: Exec, e: ExecId)
    requires x.phase.Ready? && x.retries < MAX_RETRIES
    ensures Goes(world, OneItem(now, item, map[e := x], map[]), Raise(e, "timeout"),
                 OneItem(now, item, map[], map[x.task := Message(x.item, x.retries + 1)]), true)
  {
    TimeoutIsTransient();
    hide IsTransient;
    assert map[e := x] - {e} == map[];
  }

  lemma TimeoutIsTransient()
    ensures IsTransient("timeout")
  {
    assert Lower("timeout") == "timeout";
    assert "timeout" == TRANSIENT_KEYWORDS[1];
    assert Contains("timeout", "timeout");
  }

  lemma CompleteOne(world: World, now: nat, item: Item, live: map<ExecId, Exec>, queue: map<TaskId, Message>, e: ExecId)
    returns (t: Sys)
    requires item.runId == 0 && e in live && live[e].phase.Ready? && live[e].item == 1
    ensures Goes(world, OneItem(now, item, live, queue), Complete(e, OUTPUT, []), t, true)
    ensures 1 in t.db.items && t.db.items[1] == CompletedItem(item, OUTPUT, now) && 1 in t.db.traces
    ensures t.live == live[e := live[e].(phase := Committed)]
  {
    var s := OneItem(now, item, live, queue);
    assert RowsOf(s.db, 1) == [];
    t := ApplyComplete(world, s, e, OUTPUT, []);
  }

  // ---- Common prefix: the item's task is delivered, claims the item and is about to call the adapter ----

  const CLAIMED_ONCE := ClaimedItem(FRESH, 1, 1, 0)

  const FIRST := Exec(1, 1, 0, 0, Ready)

  lemma FirstDelivery(world: World, at: nat) returns (ss: seq<Sys>, acts: seq<Action>)
    requires at >= 5
    ensures BreaksAt(world, ss, acts, at) && |ss| == 6
    ensures acts == [Dispatch(0, 0, [5]), Publish(0), Deliver(0, 1, 1, 0), Claim(0), Clear(0)]
    ensures WasQueued(ss[2], 1, Message(1, 0)) && ss[5] == OneItem(0, CLAIMED_ONCE, map[0 := FIRST], map[])
  {
    var s1 := DispatchOne(world);
    var started, claimed := Exec(1, 1, 0, 0, Started), Exec(1, 1, 0, 0, Claimed);
    DeliverOne(world, 0, FRESH, map[], map[1 := Message(1, 0)], 0, 1, 0);
    assert map[][0 := started] == map[0 := started] && map[1 := Message(1, 0)] - {1} == map[];
    ClaimOne(world, 0, FRESH, map[0 := started], map[], 0);
    assert map[0 := started][0 := claimed] == map[0 := claimed];
    ClearOne(world, 0, CLAIMED_ONCE, map[0 := claimed], map[], 0);
    assert map[0 := claimed][0 := FIRST] == map[0 := FIRST];
    assert WasQueued(OneItem(0, FRESH, map[], map[1 := Message(1, 0)]), 1, Message(1, 0));
    hide OneItem, Goes, ClaimedItem, WasQueued;
    ss, acts := [INITIAL], [];
    ss, acts := Extend(world, ss, acts, at, Dispatch(0, 0, [5]), s1);
    ss, acts := Extend(world, ss, acts, at, Publish(0), OneItem(0, FRESH, map[], map[1 := Message(1, 0)]));
    ss, acts := Extend(world, ss, acts, at, Deliver(0, 1, 1, 0), OneItem(0, FRESH, map[0 := started], map[]));
    ss, acts := Extend(world, ss, acts, at, Claim(0), OneItem(0, CLAIMED_ONCE, map[0 := claimed], map[]));
    ss, acts := Extend(world, ss, acts, at, Clear(0), OneItem(0, CLAIMED_ONCE, map[0 := FIRST], map[]));
  }

  /** A second execution, under `task`, beside the first. */
  function Beside(now: nat, item: Item, task: TaskId, phase: Phase): Sys {
    OneItem(now, item, map[0 := FIRST, 1 := Exec(task, 1, 0, now, phase)], map[])
  }

  function ClaimedAgain(task: TaskId, now: nat): Item {
    ClaimedItem(CLAIMED_ONCE, task, 1, now)
  }

  lemma SecondIsDelivered(world: World, now: nat, task: TaskId)
    ensures Goes(world, OneItem(now, CLAIMED_ONCE, map[0 := FIRST], map[]), Deliver(1, task, 1, 0),
                 Beside(now, CLAIMED_ONCE, task, Started), task != 1)
  {
    var live := map[0 := FIRST];
    DeliverOne(world, now, CLAIMED_ONCE, live, map[], 1, task, 0);
    var none: map<TaskId, Message> := map[];
    assert none - {task} == none && 0 in live;
    assert live[1 := Exec(task, 1, 0, now, Started)] == map[0 := FIRST, 1 := Exec(task, 1, 0, now, Started)];
  }

  lemma SecondClaims(world: World, now: nat, task: TaskId)
    requires Claimable(CLAIMED_ONCE, task, now)
    ensures Goes(world, Beside(now, CLAIMED_ONCE, task, Started), Claim(1),
      Beside(now, ClaimedAgain(task, now), task, Claimed), true)
    ensures Goes(world, Beside(now, ClaimedAgain(task, now), task, Claimed), Clear(1),
                 Beside(now, ClaimedAgain(task, now), task, Ready), true)
  {
    var live := map[0 := FIRST, 1 := Exec(task, 1, 0, now, Started)];
    var live2 := map[0 := FIRST, 1 := Exec(task, 1, 0, now, Claimed)];
    ClaimOne(world, now, CLAIMED_ONCE, live, map[], 1);
    assert live[1 := Exec(task, 1, 0, now, Claimed)] == live2;
    ClearOne(world, now, ClaimedAgain(task, now), live2, map[], 1);
    assert live2[1 := Exec(task, 1, 0, now, Ready)] == map[0 := FIRST, 1 := Exec(task, 1, 0, now, Ready)];
  }

  lemma SecondFails(world: World, now: nat, task: TaskId)
    ensures var failed := FailedItem(ClaimedAgain(task, now), "boom", 1, now);
      Goes(world, Beside(now, ClaimedAgain(task, now), task, Ready), Raise(1, "boom"),
        Beside(now, failed, task, Closing), true)
  {
    var live := map[0 := FIRST, 1 := Exec(task, 1, 0, now, Ready)];
    FailOne(world, now, ClaimedAgain(task, now), live, map[], 1);
    assert live[1 := Exec(task, 1, 0, now, Closing)] == map[0 := FIRST, 1 := Exec(task, 1, 0, now, Closing)];
  }

  predicate HasStatus(s: Sys, status: ItemStatus) {
    1 in s.db.items && s.db.items[1].status == status
  }

  predicate BothWork(s: Sys) {
    Working(s, 0) && Working(s, 1) && s.live[0].item == s.live[1].item == 1
  }

  /** From there, a second execution under `task` claims the item as well, fails it for good, and then
      the first one completes it by primary key. */
  lemma Overwrites(world: World, ss: seq<Sys>, acts: seq<Action>, at: nat, now: nat, task: TaskId)
    returns (all: seq<Sys>, steps: seq<Action>)
    requires BreaksAt(world, ss, acts, at) && |ss| == |acts| + 1 && at <= |acts|
    requires ss[|acts|] == OneItem(now, CLAIMED_ONCE, map[0 := FIRST], map[])
    requires Claimable(CLAIMED_ONCE, task, now) && (|acts| != at <==> task != 1)
    ensures BreaksAt(world, all, steps, at) && |all| == |ss| + 5 && ss <= all
    ensures steps == acts + [Deliver(1, task, 1, 0), Claim(1), Clear(1), Raise(1, "boom"), Complete(0, OUTPUT, [])]
    ensures BothWork(all[|ss| + 2]) && HasStatus(all[|ss| + 3], Errored) && HasStatus(all[|ss| + 4], Completed)
  {
    hide *;
    var again := ClaimedAgain(task, now);
    var both, gone := Beside(now, again, task, Ready), Beside(now, FailedItem(again, "boom", 1, now), task, Closing);
    SecondIsDelivered(world, now, task);
    SecondClaims(world, now, task);
    SecondFails(world, now, task);
    var last := FirstCompletes(world, now, task);
    all, steps := Extend(world, ss, acts, at, Deliver(1, task, 1, 0), Beside(now, CLAIMED_ONCE, task, Started));
    all, steps := Extend(world, all, steps, at, Claim(1), Beside(now, again, task, Claimed));
    all, steps := Extend(world, all, steps, at, Clear(1), both);
    all, steps := Extend(world, all, steps, at, Raise(1, "boom"), gone);
    all, steps := Extend(world, all, steps, at, Complete(0, OUTPUT, []), last);
    assert all == ss + [Beside(now, CLAIMED_ONCE, task, Started), Beside(now, again, task, Claimed), both, gone, last];
  }

  lemma FirstCompletes(world: World, now: nat, task: TaskId) returns (last: Sys)
    ensures var again := ClaimedAgain(task, now);
      var both, gone := Beside(now, again, task, Ready), Beside(now, FailedItem(again, "boom", 1, now), task, Closing);
      && BothWork(both) && HasStatus(gone, Errored)
      && Goes(world, gone, Complete(0, OUTPUT, []), last, true) && HasStatus(last, Completed)
  {
    last := CompleteOne(world, now, FailedItem(ClaimedAgain(task, now), "boom", 1, now),
      map[0 := FIRST, 1 := Exec(task, 1, 0, now, Closing)], map[], 0);
  }

  // ---- The broker runs a task id twice at once ----

  /** Only the broker's promise is broken: task 1 is handed out again while its first execution lives,
      at time 0. Two executions then work on the item, and an errored item becomes completed. */
  lemma TerminalIsNotAbsorbing(world: World) returns (ss: seq<Sys>, acts: seq<Action>)
    ensures |ss| == 11 && |acts| == 10 && BreaksAt(world, ss, acts, 5) && Handed(ss, acts)
    ensures acts[2] == Deliver(0, 1, 1, 0) && acts[5] == Deliver(1, 1, 1, 0)
    ensures BothWork(ss[8]) && HasStatus(ss[9], Errored) && HasStatus(ss[10], Completed)
    ensures !OneTaskId.OwnTask(ss[5], acts[5])
  {
    var prefix, first := FirstDelivery(world, 5);
    ss, acts := Overwrites(world, prefix, first, 5, 0, 1);
    assert prefix[5] == ss[5] && 0 in ss[5].live;
    assert ss[2] == prefix[2];
    hide WasQueued;
    HandedTwice(ss, acts, 2, 5);
  }

  /** In the same way a retry that was handed out twice clears the trace of a completed item. */
  lemma ClearingCanDeleteEvidence(world: World) returns (ss: seq<Sys>, acts: seq<Action>)
    ensures |ss| == 14 && |acts| == 13 && BreaksAt(world, ss, acts, 8) && Handed(ss, acts)
    ensures acts[6] == Deliver(1, 1, 1, 1) && acts[8] == Deliver(2, 1, 1, 1) && acts[12] == Clear(1)
    ensures HasStatus(ss[12], Completed) && 1 in ss[12].db.traces
    ensures HasStatus(ss[13], Completed) && 1 !in ss[13].db.traces
  {
    hide *;
    ss, acts := FirstDelivery(world, 8);
    ss, acts := TwiceRetried(world, ss, acts);
    var done, cleared := RetryCompletes(world);
    ss, acts := Extend(world, ss, acts, 8, Complete(2, OUTPUT, []), done);
    ss, acts := Extend(world, ss, acts, 8, Clear(1), cleared);
    HandedTwice(ss, acts, 6, 8);
  }

  lemma RetryCompletes(world: World) returns (done: Sys, cleared: Sys)
    ensures Goes(world, Retries(CLAIMED_TWICE, Claimed, Ready), Complete(2, OUTPUT, []), done, true)
    ensures Goes(world, done, Clear(1), cleared, true)
    ensures HasStatus(done, Completed) && 1 in done.db.traces && HasStatus(cleared, Completed)
      && 1 !in cleared.db.traces
  {
    done := CompleteOne(world, 0, CLAIMED_TWICE, Retries(CLAIMED_TWICE, Claimed, Ready).live, map[], 2);
    hide Goes;
    cleared := StaleClear(world, done, 1);
  }

  /** The deliveries of a run are the first one and two of the message queued at step `j`. */
  lemma HandedTwice(ss: seq<Sys>, acts: seq<Action>, j: nat, again: nat)
    requires |ss| == |acts| + 1 && 2 <= j <= again < |acts|
    requires acts[2].Deliver? && WasQueued(ss[2], acts[2].task, Message(acts[2].item, acts[2].retries))
    requires forall k | 0 <= k < |acts| && acts[k].Deliver? && k != 2 ::
      k >= j && WasQueued(ss[j], acts[k].task, Message(acts[k].item, acts[k].retries))
    ensures Handed(ss, acts)
  {
    hide WasQueued;
  }

  const CLAIMED_TWICE := ClaimedItem(CLAIMED_ONCE, 1, 2, 0)

  /** Two executions of the first retry. */
  function Retries(item: Item, one: Phase, two: Phase): Sys {
    OneItem(0, item, map[1 := Exec(1, 1, 1, 0, one), 2 := Exec(1, 1, 1, 0, two)], map[])
  }

  lemma RetryIsDelivered(world: World)
    ensures var retried := OneItem(0, CLAIMED_ONCE, map[], map[1 := Message(1, 1)]);
      && WasQueued(retried, 1, Message(1, 1))
      && Goes(world, OneItem(0, CLAIMED_ONCE, map[0 := FIRST], map[]), Raise(0, "timeout"), retried, true)
      && Goes(world, retried, Deliver(1, 1, 1, 1), OneItem(0, CLAIMED_ONCE, map[1 := Exec(1, 1, 1, 0, Started)],
        map[]), true)
  {
    RetryOne(world, 0, CLAIMED_ONCE, FIRST, 0);
    hide Goes, IsTransient, ClaimedItem;
    DeliverOne(world, 0, CLAIMED_ONCE, map[], map[1 := Message(1, 1)], 1, 1, 1);
    var none: map<ExecId, Exec> := map[];
    assert none[1 := Exec(1, 1, 1, 0, Started)] == map[1 := Exec(1, 1, 1, 0, Started)];
    assert map[1 := Message(1, 1)] - {1} == map[];
  }

  lemma RetryIsRedelivered(world: World)
    ensures var alone := map[1 := Exec(1, 1, 1, 0, Started)];
      var claimed := map[1 := Exec(1, 1, 1, 0, Claimed)];
      && Goes(world, OneItem(0, CLAIMED_ONCE, alone, map[]), Claim(1), OneItem(0, CLAIMED_TWICE, claimed, map[]), true)
      && Goes(world, OneItem(0, CLAIMED_TWICE, claimed, map[]), Deliver(2, 1, 1, 1),
        Retries(CLAIMED_TWICE, Claimed, Started), false)
  {
    var alone, claimed := map[1 := Exec(1, 1, 1, 0, Started)], map[1 := Exec(1, 1, 1, 0, Claimed)];
    ClaimOne(world, 0, CLAIMED_ONCE, alone, map[], 1);
    assert alone[1 := Exec(1, 1, 1, 0, Claimed)] == claimed;
    DeliverOne(world, 0, CLAIMED_TWICE, claimed, map[], 2, 1, 1);
    var none: map<TaskId, Message> := map[];
    assert none - {1} == none && 1 in claimed;
    assert claimed[2 := Exec(1, 1, 1, 0, Started)] == Retries(CLAIMED_TWICE, Claimed, Started).live;
  }

  lemma RedeliveryClaims(world: World)
    ensures Goes(world, Retries(CLAIMED_TWICE, Claimed, Started), Claim(2), Retries(CLAIMED_TWICE, Claimed, Claimed),
      true)
    ensures Goes(world, Retries(CLAIMED_TWICE, Claimed, Claimed), Clear(2), Retries(CLAIMED_TWICE, Claimed, Ready),
      true)
  {
    var live, live2 := Retries(CLAIMED_TWICE, Claimed, Started).live, Retries(CLAIMED_TWICE, Claimed, Claimed).live;
    ClaimOne(world, 0, CLAIMED_TWICE, live, map[], 2);
    assert ClaimedItem(CLAIMED_TWICE, 1, 2, 0) == CLAIMED_TWICE;
    assert live[2 := Exec(1, 1, 1, 0, Claimed)] == live2;
    ClearOne(world, 0, CLAIMED_TWICE, live2, map[], 2);
    assert live2[2 := Exec(1, 1, 1, 0, Ready)] == Retries(CLAIMED_TWICE, Claimed, Ready).live;
  }

  /** The first execution fails transiently; its retry is delivered twice, and both claim the item. */
  lemma TwiceRetried(world: World, ss: seq<Sys>, acts: seq<Action>) returns (all: seq<Sys>, steps: seq<Action>)
    requires BreaksAt(world, ss, acts, 8) && |ss| == 6 && |acts| == 5
    requires ss[5] == OneItem(0, CLAIMED_ONCE, map[0 := FIRST], map[])
    ensures BreaksAt(world, all, steps, 8) && |all| == 12 && ss <= all
    ensures steps == acts + [Raise(0, "timeout"), Deliver(1, 1, 1, 1), Claim(1), Deliver(2, 1, 1, 1), Claim(2),
      Clear(2)]
    ensures WasQueued(all[6], 1, Message(1, 1)) && all[11] == Retries(CLAIMED_TWICE, Claimed, Ready)
  {
    RetryIsDelivered(world);
    RetryIsRedelivered(world);
    RedeliveryClaims(world);
    hide *;
    all, steps := Extend(world, ss, acts, 8, Raise(0, "timeout"),
      OneItem(0, CLAIMED_ONCE, map[], map[1 := Message(1, 1)]));
    all, steps := Extend(world, all, steps, 8, Deliver(1, 1, 1, 1),
      OneItem(0, CLAIMED_ONCE, map[1 := Exec(1, 1, 1, 0, Started)], map[]));
    all, steps := Extend(world, all, steps, 8, Claim(1), OneItem(0, CLAIMED_TWICE,
      map[1 := Exec(1, 1, 1, 0, Claimed)], map[]));
    all, steps := Extend(world, all, steps, 8, Deliver(2, 1, 1, 1), Retries(CLAIMED_TWICE, Claimed, Started));
    all, steps := Extend(world, all, steps, 8, Claim(2), Retries(CLAIMED_TWICE, Claimed, Claimed));
    all, steps := Extend(world, all, steps, 8, Clear(2), Retries(CLAIMED_TWICE, Claimed, Ready));
  }

  lemma StaleClear(world: World, s: Sys, e: ExecId) returns (t: Sys)
    requires e in s.live && s.live[e].phase.Claimed? && s.live[e].retries > 0 && s.live[e].item == 1
    ensures Goes(world, s, Clear(e), t, true) && t.db.items == s.db.items && 1 !in t.db.traces
  {
    t := ApplyClear(s, e);
  }

  // ---- A second producer, which the program does not have ----

  /** Were item 1 also published under task 8, dropping only the time limit would do the same: the first
      execution outlives its lease, and task 8 claims the item. */
  lemma SecondProducerOverwrites(world: World) returns (ss: seq<Sys>, acts: seq<Action>)
    ensures |ss| == 12 && |acts| == 11 && BreaksAt(world, ss, acts, 5)
    ensures acts[5] == Tick(300) && acts[6] == Deliver(1, 8, 1, 0)
    ensures BothWork(ss[9]) && HasStatus(ss[10], Errored) && HasStatus(ss[11], Completed)
  {
    ss, acts := FirstDelivery(world, 5);
    Overstay(world, CLAIMED_ONCE, FIRST);
    ss, acts := Extend(world, ss, acts, 5, Tick(300), OneItem(300, CLAIMED_ONCE, map[0 := FIRST], map[]));
    ss, acts := Overwrites(world, ss, acts, 5, 300, 8);
  }

  lemma Overstay(world: World, item: Item, x: Exec)
    requires x.startedAt == 0
    ensures Goes(world, OneItem(0, item, map[0 := x], map[]), Tick(300), OneItem(300, item, map[0 := x], map[]), false)
  {
    assert 0 in map[0 := x];
  }
}
