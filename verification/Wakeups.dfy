/**
  What becomes of tasks that wait for an event (FreeRTOS/Source/tasks.c): time alone never
  wakes one that waits without a limit, and an event is never lost, whether or not the
  scheduler is suspended when it comes.
 */
module Wakeups {
  import opened Shared
  import opened DelayedTasks
  import opened TickRuns
  import R = ReadyLists

  // ----- waiting without a time limit -----

  /** The task waits without a limit, and no event has come for it. */
  ghost predicate WaitsForever(k: Kernel, t: TaskId) {
    t in k.forever && t !in k.pendingReady
  }

  lemma {:induction false} ReadyPendingKeepsForever(k: Kernel, t: TaskId)
    requires WaitsForever(k, t)
    ensures WaitsForever(ReadyPending(k), t)
    decreases |k.pendingReady|
  {
    if k.pendingReady != [] {
      var u := k.pendingReady[0];
      var r := Unblock(k, u).(
        pendingReady := k.pendingReady[1..],
        yieldPending := k.yieldPending || PriorityOf(k.sched, u) >= PriorityOf(k.sched, k.sched.current));
      assert t !in r.pendingReady;
      ReadyPendingKeepsForever(r, t);
    }
  }

  lemma {:induction false} ProcessPendedKeepsForever(k: Kernel, n: nat)
    ensures ProcessPended(k, n).forever == k.forever && ProcessPended(k, n).pendingReady == k.pendingReady
    decreases n
  {
    if n > 0 {
      TickKeepsSuspension(k);
      var r := Tick(k);
      ProcessPendedKeepsForever(r.kernel.(yieldPending := r.kernel.yieldPending || r.switchRequired), n - 1);
    }
  }

  lemma ResumeKeepsForever(k: Kernel, t: TaskId)
    requires WaitsForever(k, t)
    ensures WaitsForever(ResumeAll(k).kernel, t)
  {
    if k.suspended == 1 {
      ReadyPendingKeepsForever(k.(suspended := 0), t);
      ProcessPendedKeepsForever(Resettled(k), Resettled(k).pendedTicks);
    }
  }

  lemma StepKeepsForever(k: Kernel, e: Event, t: TaskId)
    requires FullInv(k) && Enabled(k, e) && !MeantFor(e, t) && WaitsForever(k, t)
    ensures WaitsForever(Apply(k, e), t)
  {
    match e
    case TickInterrupt => TickKeepsSuspension(k);
    case Resume => ResumeKeepsForever(k, t);
    case _ =>
  }

  /**
    In every run, a task that blocks without a time limit is not made ready, and has no time at
    which it would be, until an event meant for it comes.
   */
  lemma {:induction false} TimeNeverWakes(run: seq<Kernel>, events: seq<Event>, i: nat, j: nat, t: TaskId)
    requires IsRun(run, events) && i < j < |run| && events[i] == BlockCurrent(MAX_DELAY, true) && t == run[i].sched.current
    requires forall m :: i < m < j ==> !MeantFor(events[m], t)
    ensures WaitsForever(run[j], t) && !R.IsReady(run[j].sched, t)
    ensures forall at :: !SleepsUntil(run[j], t, at)
    decreases j
  {
    RunKeeps(run, events, j - 1);
    RunKeeps(run, events, j);
    assert StepAt(run, events, j - 1);
    if j - 1 == i {
      CurrentWaits(run[i], t);
    } else {
      TimeNeverWakes(run, events, i, j - 1, t);
      StepKeepsForever(run[j - 1], events[j - 1], t);
    }
    NoWakeTime(run[j], t);
  }

  lemma CurrentWaits(k: Kernel, t: TaskId)
    requires FullInv(k) && t == k.sched.current && R.IsReady(k.sched, t)
    ensures WaitsForever(Block(k, MAX_DELAY, true), t)
  {
    assert PendingAt(k, t);
    if t in k.pendingReady {
      WaitsIsBlocked(k, t);
    }
  }

  lemma NoWakeTime(k: Kernel, t: TaskId)
    requires FullInv(k) && t in k.forever
    ensures !R.IsReady(k.sched, t) && forall at :: !SleepsUntil(k, t, at)
  {
    assert ForeverAt(k, t);
    forall at | SleepsUntil(k, t, at)
      ensures false
    {
      SleeperIsBlocked(k, t, at);
    }
  }

  // ----- events are not lost -----

  /** The task is ready, or will be when the scheduler is resumed. */
  ghost predicate Awake(k: Kernel, t: TaskId) {
    R.IsReady(k.sched, t) || t in k.pendingReady
  }

  /** An event readies its task at once, or pends it while the scheduler is suspended, and pends a yield if it is above. */
  lemma EventReadies(run: seq<Kernel>, events: seq<Event>, i: nat, t: TaskId)
    requires IsRun(run, events) && i < |events| && MeantFor(events[i], t)
    ensures if run[i].suspended == 0 || events[i].BitsFor? then R.IsReady(run[i + 1].sched, t)
            else run[i + 1].pendingReady == run[i].pendingReady + [t]
    ensures run[i + 1].yieldPending <==>
              run[i].yieldPending || PriorityOf(run[i].sched, t) > PriorityOf(run[i].sched, run[i].sched.current)
  {
    RunKeeps(run, events, i);
    assert StepAt(run, events, i);
    if run[i].suspended == 0 || events[i].BitsFor? {
      UnblockKeeps(run[i], t);
    }
  }

  lemma {:induction false} ReadyPendingReadies(k: Kernel, t: TaskId)
    requires Inv(k) && ForeverLoose(k) && PendingWait(k) && Awake(k, t)
    ensures R.IsReady(ReadyPending(k).sched, t)
    decreases |k.pendingReady|
  {
    if k.pendingReady != [] {
      var u := k.pendingReady[0];
      assert PendingAt(k, u);
      var r := Unblock(k, u).(
        pendingReady := k.pendingReady[1..],
        yieldPending := k.yieldPending || PriorityOf(k.sched, u) >= PriorityOf(k.sched, k.sched.current));
      PendingTail(k, r, u);
      UnblockKeeps(k, u);
      assert t in k.pendingReady ==> t == u || t in r.pendingReady;
      ReadyPendingReadies(r, t);
    }
  }

  /** Resuming the scheduler readies every task whose event came meanwhile, and unreadies nobody. */
  lemma ResumeReadies(k: Kernel, t: TaskId)
    requires FullInv(k) && k.suspended == 1 && Awake(k, t)
    ensures R.IsReady(ResumeAll(k).kernel.sched, t)
  {
    var k0, m := k.(suspended := 0), Resettled(k);
    var calm := m.(yieldPending := false);
    SamePlacesKeep(k, k0);
    ReadyPendingReadies(k0, t);
    ResettledKeeps(k);
    ResumeIs(k);
    MarkedKeeps(m, m.pendedTicks, false);
    TickManyIsExact(calm, m.pendedTicks, t, 0);
  }

  lemma BlockKeepsAwake(k: Kernel, ticks: nat, canBlockForever: bool, t: TaskId)
    requires FullInv(k) && Enabled(k, BlockCurrent(ticks, canBlockForever)) && Awake(k, t) && t != k.sched.current
    ensures Awake(Block(k, ticks, canBlockForever), t)
  {
    R.RemoveReadyKeeps(k.sched, k.sched.current);
  }

  lemma StepKeepsAwake(k: Kernel, e: Event, t: TaskId)
    requires FullInv(k) && Enabled(k, e) && Awake(k, t) && !(e.BlockCurrent? && k.sched.current == t)
    ensures Awake(Apply(k, e), t)
  {
    match e
    case TickInterrupt =>
      TickKeepsSuspension(k);
      if k.suspended == 0 {
        TickReadies(k, t);
      }
    case BlockCurrent(ticks, canBlockForever) => BlockKeepsAwake(k, ticks, canBlockForever, t);
    case EventFor(u) =>
      if k.suspended == 0 {
        UnblockKeeps(k, u);
      }
    case BitsFor(u) => UnblockKeeps(k, u);
    case SwitchContext => SwitchKeeps(k);
    case Suspend =>
    case Resume =>
      if k.suspended == 1 {
        ResumeReadies(k, t);
      }
  }

  /**
    No event is lost: in every run, from an event meant for a task until it blocks again itself,
    the task is ready, or waits for the scheduler to be resumed; and with the scheduler not
    suspended it is ready.
   */
  lemma {:induction false} NoEventIsLost(run: seq<Kernel>, events: seq<Event>, i: nat, j: nat, t: TaskId)
    requires IsRun(run, events) && i < j < |run| && MeantFor(events[i], t)
    requires forall m :: i < m < j && events[m].BlockCurrent? ==> run[m].sched.current != t
    ensures Awake(run[j], t)
    ensures run[j].suspended == 0 ==> R.IsReady(run[j].sched, t)
    decreases j
  {
    RunKeeps(run, events, j - 1);
    RunKeeps(run, events, j);
    assert StepAt(run, events, j - 1);
    if j - 1 == i {
      EventReadies(run, events, i, t);
    } else {
      NoEventIsLost(run, events, i, j - 1, t);
      StepKeepsAwake(run[j - 1], events[j - 1], t);
    }
  }
}
