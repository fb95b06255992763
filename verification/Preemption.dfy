/**
  When the kernel asks for a context switch: the answers of xTaskIncrementTick and
  xTaskResumeAll and the flag xYieldPending (FreeRTOS/Source/tasks.c), and that together they
  never leave a task waiting behind a running one of lower priority.
 */
module Preemption {
  import opened Shared
  import opened DelayedTasks
  import opened TickRuns
  import R = ReadyLists

  // ----- what a tick answers -----

  predicate AtOrAbove(s: R.Sched, t: TaskId) {
    PriorityOf(s, t) >= PriorityOf(s, s.current)
  }

  /** The same tasks at the same priorities, and the same one running. */
  predicate SameRanks(s: R.Sched, r: R.Sched) {
    r.priority == s.priority && r.current == s.current
  }

  lemma {:induction false} AddAllKeepsRanks(s: R.Sched, list: seq<Entry>)
    ensures SameRanks(s, AddAll(s, list))
    decreases |list|
  {
    if list != [] {
      AddAllKeepsRanks(R.AddReady(s, list[0].task), list[1..]);
    }
  }

  /** One of the first `d` entries of the list is at or above the running task. */
  ghost predicate SomeAbove(s: R.Sched, list: seq<Entry>, d: nat) {
    exists i :: 0 <= i < d && i < |list| && AtOrAbove(s, list[i].task)
  }

  lemma SomeAboveHead(s: R.Sched, list: seq<Entry>, d: nat)
    requires list != [] && d > 0
    ensures SomeAbove(s, list, d) <==> AtOrAbove(s, list[0].task) || SomeAbove(s, list[1..], d - 1)
  {
    var rest := list[1..];
    if SomeAbove(s, list, d) && !AtOrAbove(s, list[0].task) {
      var i :| 0 <= i < d && i < |list| && AtOrAbove(s, list[i].task);
      assert rest[i - 1] == list[i];
    }
    if SomeAbove(s, rest, d - 1) {
      var i :| 0 <= i < d - 1 && i < |rest| && AtOrAbove(s, rest[i].task);
      assert list[i + 1] == rest[i];
    }
  }

  lemma SameRanksSomeAbove(s: R.Sched, r: R.Sched, list: seq<Entry>, d: nat)
    requires SameRanks(s, r)
    ensures SomeAbove(s, list, d) <==> SomeAbove(r, list, d)
  {
    assert forall i :: 0 <= i < |list| ==> (AtOrAbove(s, list[i].task) <==> AtOrAbove(r, list[i].task));
  }

  /** The loop asks for a switch exactly when one of the tasks it readies is at or above the running one. */
  lemma {:induction false} DrainAsks(k: Kernel, sw: bool)
    ensures Drain(k, sw).switchRequired <==> sw || SomeAbove(k.sched, k.delayed, Due(k.delayed, k.tick))
    decreases |k.delayed|
  {
    var d := Due(k.delayed, k.tick);
    if d > 0 {
      var t := k.delayed[0].task;
      var k1 := k.(delayed := k.delayed[1..], sched := R.AddReady(k.sched, t));
      DrainAsks(k1, sw || AtOrAbove(k.sched, t));
      SameRanksSomeAbove(k.sched, k1.sched, k.delayed[1..], d - 1);
      SomeAboveHead(k.sched, k.delayed, d);
    }
  }

  predicate WakerAt(k: Kernel, at: nat, t: TaskId) {
    SleepsUntil(k, t, at) && AtOrAbove(k.sched, t)
  }

  /** Some task whose time is `at` is at or above the running one. */
  ghost predicate WakesAboveAt(k: Kernel, at: nat) {
    exists t :: WakerAt(k, at, t)
  }

  /** Two ready tasks have the priority of the running one, so that they take turns. */
  ghost predicate TakeTurns(s: R.Sched) {
    exists t, u :: t != u && ReadyBeside(s, t) && ReadyBeside(s, u)
  }

  predicate ReadyBeside(s: R.Sched, t: TaskId) {
    R.IsReady(s, t) && PriorityOf(s, t) == PriorityOf(s, s.current)
  }

  lemma SharingIsTakingTurns(s: R.Sched)
    requires R.Inv(s)
    ensures SharesPriority(s) <==> TakeTurns(s)
  {
    var p := PriorityOf(s, s.current);
    if SharesPriority(s) {
      var items := s.lists[p].items;
      assert items[0] in items && items[1] in items;
      assert ReadyBeside(s, items[0]) && ReadyBeside(s, items[1]);
    }
    if TakeTurns(s) {
      var t, u :| t != u && ReadyBeside(s, t) && ReadyBeside(s, u);
      var items := s.lists[p].items;
      var i :| 0 <= i < |items| && items[i] == t;
      var j :| 0 <= j < |items| && items[j] == u;
      assert i != j;
    }
  }

  lemma DueMeansSleepsUntilNow(k: Kernel)
    requires k.tick < WORD && InOrder(k.delayed, k.tick)
    ensures SomeAbove(k.sched, k.delayed, Due(k.delayed, k.tick))
            <==> WakesAboveAt(k, Now(k))
  {
    var d := Due(k.delayed, k.tick);
    DueSplits(k.delayed, k.tick);
    if SomeAbove(k.sched, k.delayed, d) {
      var i :| 0 <= i < d && i < |k.delayed| && AtOrAbove(k.sched, k.delayed[i].task);
      assert k.delayed[i] == Entry(k.delayed[i].task, k.tick);
      SleepsUntilNow(k, k.delayed[i].task);
      assert WakerAt(k, Now(k), k.delayed[i].task);
    }
    if WakesAboveAt(k, Now(k)) {
      var t :| WakerAt(k, Now(k), t);
      SleepsUntilNow(k, t);
      var i :| 0 <= i < |k.delayed| && k.delayed[i] == Entry(t, k.tick);
      assert i < d;
    }
  }

  lemma AdvanceKeepsWaker(k: Kernel, at: nat, t: TaskId)
    requires OnTime(k.tick, k.delayed, k.overflowed, k.nextUnblock)
    ensures WakerAt(Advance(k), at, t) <==> WakerAt(k, at, t)
  {
    AdvanceKeepsSleeper(k, t, at);
  }

  lemma AdvanceWakesAbove(k: Kernel, at: nat)
    requires OnTime(k.tick, k.delayed, k.overflowed, k.nextUnblock)
    ensures WakesAboveAt(Advance(k), at) <==> WakesAboveAt(k, at)
  {
    var a := Advance(k);
    if t :| WakerAt(k, at, t) {
      AdvanceKeepsWaker(k, at, t);
    }
    if t :| WakerAt(a, at, t) {
      AdvanceKeepsWaker(k, at, t);
    }
  }

  lemma DueAsks(k: Kernel)
    requires JustAdvanced(k)
    ensures DrainIfDue(k).switchRequired <==> SomeAbove(k.sched, k.delayed, Due(k.delayed, k.tick))
  {
    if k.tick >= k.nextUnblock {
      DrainAsks(k, false);
    }
  }

  /**
    A tick that is processed asks for a context switch exactly when a yield is pending, or a
    task whose time it is is at or above the running one, or afterwards two ready tasks share
    the priority of the running one.
   */
  lemma TickAsksExactlyWhen(k: Kernel)
    requires Inv(k) && k.suspended == 0
    ensures Tick(k).switchRequired <==> k.yieldPending || WakesAboveAt(k, Now(k) + 1) || TakeTurns(Tick(k).kernel.sched)
  {
    var a := Advance(k);
    AdvanceKeepsTime(k);
    DueAsks(a);
    DueMeansSleepsUntilNow(a);
    AdvanceWakesAbove(k, Now(k) + 1);
    TickKeepsInv(k);
    TickKeepsSuspension(k);
    SharingIsTakingTurns(Tick(k).kernel.sched);
  }

  // ----- what resuming the scheduler answers -----

  ghost predicate PendingAbove(s: R.Sched, pending: seq<TaskId>) {
    exists t :: t in pending && AtOrAbove(s, t)
  }

  lemma {:induction false} ReadyPendingAsks(k: Kernel)
    ensures ReadyPending(k).yieldPending <==> k.yieldPending || PendingAbove(k.sched, k.pendingReady)
    decreases |k.pendingReady|
  {
    if k.pendingReady != [] {
      var u, rest := k.pendingReady[0], k.pendingReady[1..];
      var r := Unblock(k, u).(pendingReady := rest, yieldPending := k.yieldPending || AtOrAbove(k.sched, u));
      ReadyPendingAsks(r);
      assert forall t :: t in k.pendingReady <==> t == u || t in rest;
      assert forall t :: AtOrAbove(r.sched, t) <==> AtOrAbove(k.sched, t);
    }
  }

  /**
    On resuming, xTaskResumeAll reports a yield exactly when one was pending, or a task whose
    event came meanwhile is at or above the running one, or one of the pended ticks asks for it.
   */
  lemma ResumeAsksExactlyWhen(k: Kernel)
    requires FullInv(k) && k.suspended == 1
    ensures var m := Resettled(k);
            ResumeAll(k).alreadyYielded <==>
              || k.yieldPending
              || PendingAbove(k.sched, k.pendingReady)
              || TickMany(m.(yieldPending := false), m.pendedTicks).switchRequired
  {
    var m := Resettled(k);
    var calm := m.(yieldPending := false);
    ReadyPendingAsks(k.(suspended := 0));
    ResettledKeeps(k);
    assert Marked(calm, m.pendedTicks, m.yieldPending) == m;
    ProcessPendedIs(calm, m.pendedTicks, m.pendedTicks, m.yieldPending);
  }

  // ----- nobody is kept waiting by a lower task without a switch being asked for -----

  ghost predicate NotAbove(s: R.Sched, t: TaskId) {
    R.IsReady(s, t) ==> PriorityOf(s, t) <= PriorityOf(s, s.current)
  }

  /** No ready task is above the running one. */
  ghost predicate RunsHighest(s: R.Sched) {
    forall t :: NotAbove(s, t)
  }

  /** No ready task is above the running one, or a yield is pending. */
  ghost predicate Settled(k: Kernel) {
    RunsHighest(k.sched) || k.yieldPending
  }

  lemma TickKeepsRanks(k: Kernel)
    requires Inv(k) && k.suspended == 0
    ensures SameRanks(k.sched, Tick(k).kernel.sched)
  {
    TickLists(k);
    var all := k.delayed + k.overflowed;
    AddAllKeepsRanks(k.sched, all[..Due(Advance(k).delayed, Advance(k).tick)]);
  }

  lemma TickStaysHighest(k: Kernel)
    requires Inv(k) && k.suspended == 0 && RunsHighest(k.sched)
    ensures RunsHighest(Tick(k).kernel.sched) || Tick(k).switchRequired
  {
    var r := Tick(k).kernel;
    if !Tick(k).switchRequired {
      TickAsksExactlyWhen(k);
      TickKeepsRanks(k);
      forall t
        ensures NotAbove(r.sched, t)
      {
        assert NotAbove(k.sched, t);
        TickReadies(k, t);
        assert !WakerAt(k, Now(k) + 1, t);
      }
    }
  }

  lemma TickSettles(k: Kernel)
    requires Inv(k) && Settled(k)
    ensures Settled(Tick(k).kernel) || Tick(k).switchRequired
  {
    TickKeepsSuspension(k);
    if k.suspended == 0 && RunsHighest(k.sched) {
      TickStaysHighest(k);
    }
  }

  /** Readying `u` directly, with a yield if it is above the running task or only on a par. */
  lemma UnblockSettles(k: Kernel, u: TaskId, pending: bool, waiting: seq<TaskId>)
    requires Inv(k) && R.Known(k.sched, u) && !R.IsReady(k.sched, u) && Settled(k)
    requires k.yieldPending || PriorityOf(k.sched, u) > PriorityOf(k.sched, k.sched.current) ==> pending
    ensures Settled(Unblock(k, u).(yieldPending := pending, pendingReady := waiting))
  {
    if !pending {
      UnblockKeepsInv(k, u);
      var r := Unblock(k, u).(yieldPending := pending, pendingReady := waiting);
      forall t
        ensures NotAbove(r.sched, t)
      {
        assert NotAbove(k.sched, t);
        assert R.IsReady(r.sched, t) <==> R.IsReady(k.sched, t) || t == u;
      }
    }
  }

  lemma {:induction false} ReadyPendingSettles(k: Kernel)
    requires Inv(k) && ForeverLoose(k) && PendingWait(k) && Settled(k)
    ensures Settled(ReadyPending(k))
    decreases |k.pendingReady|
  {
    if k.pendingReady != [] {
      var u := k.pendingReady[0];
      assert PendingAt(k, u);
      WaitsIsBlocked(k, u);
      var pending := k.yieldPending || AtOrAbove(k.sched, u);
      var r := Unblock(k, u).(pendingReady := k.pendingReady[1..], yieldPending := pending);
      PendingTail(k, r, u);
      UnblockSettles(k, u, pending, k.pendingReady[1..]);
      ReadyPendingSettles(r);
    }
  }

  lemma {:induction false} ProcessPendedSettles(k: Kernel, n: nat)
    requires Inv(k) && k.suspended == 0 && Settled(k)
    ensures Settled(ProcessPended(k, n)) && ProcessPended(k, n).suspended == 0
    decreases n
  {
    if n > 0 {
      TickKeepsInv(k);
      TickKeepsSuspension(k);
      TickSettles(k);
      var r := Tick(k);
      ProcessPendedSettles(r.kernel.(yieldPending := r.kernel.yieldPending || r.switchRequired), n - 1);
    }
  }

  /** Resuming the scheduler leaves nobody waiting behind a lower task, or reports that it has yielded. */
  lemma ResumeSettles(k: Kernel)
    requires FullInv(k) && k.suspended == 1 && Settled(k)
    ensures RunsHighest(ResumeAll(k).kernel.sched) || ResumeAll(k).alreadyYielded
    ensures Settled(ResumeAll(k).kernel)
  {
    var k0 := k.(suspended := 0);
    SamePlacesKeep(k, k0);
    ReadyPendingSettles(k0);
    ResettledKeeps(k);
    ProcessPendedSettles(Resettled(k), Resettled(k).pendedTicks);
  }

  lemma SwitchSettles(k: Kernel)
    requires FullInv(k) && Enabled(k, SwitchContext)
    ensures Settled(Apply(k, SwitchContext))
  {
    if k.suspended == 0 {
      R.SwitchPicksHighest(k.sched);
      var r := Apply(k, SwitchContext);
      forall t
        ensures NotAbove(r.sched, t)
      {
      }
    }
  }

  lemma WakeSettles(k: Kernel, e: Event)
    requires FullInv(k) && Enabled(k, e) && (e.EventFor? || e.BitsFor?) && Settled(k)
    ensures Settled(Apply(k, e))
  {
    WaitsIsBlocked(k, e.t);
    if e.BitsFor? || k.suspended == 0 {
      UnblockSettles(k, e.t, YieldFor(k, e.t), k.pendingReady);
    }
  }

  lemma StepSettles(k: Kernel, e: Event)
    requires FullInv(k) && Enabled(k, e) && Settled(k) && !e.BlockCurrent?
    ensures Settled(Apply(k, e)) || (e.TickInterrupt? && Tick(k).switchRequired)
  {
    match e
    case TickInterrupt => TickSettles(k);
    case BlockCurrent(_, _) =>
    case EventFor(_) => WakeSettles(k, e);
    case BitsFor(_) => WakeSettles(k, e);
    case SwitchContext => SwitchSettles(k);
    case Suspend =>
    case Resume =>
      if k.suspended == 1 {
        ResumeSettles(k);
      }
  }

  /**
    In every run: as long as no ready task is above the running one, or a yield is pending, no
    event but the running task's own blocking changes that without asking for a switch; and
    xTaskResumeAll, on resuming, says so if it does.
   */
  lemma PreemptionIsAskedFor(run: seq<Kernel>, events: seq<Event>, i: nat)
    requires IsRun(run, events) && i < |events| && !events[i].BlockCurrent? && Settled(run[i])
    ensures Settled(run[i + 1]) || (events[i].TickInterrupt? && Tick(run[i]).switchRequired)
    ensures events[i].Resume? && run[i].suspended == 1 ==>
              RunsHighest(run[i + 1].sched) || ResumeAll(run[i]).alreadyYielded
  {
    RunKeeps(run, events, i);
    assert StepAt(run, events, i);
    StepSettles(run[i], events[i]);
    if events[i].Resume? && run[i].suspended == 1 {
      ResumeSettles(run[i]);
    }
  }
}
