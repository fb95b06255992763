/**
  Whole runs of the kernel of DelayedTasks: ticks, blocking calls, events, context switches,
  and scheduler suspension in any order.
 */
module TickRuns {
  import opened Shared
  import CursorList
  import opened DelayedTasks
  import R = ReadyLists

  datatype Event =
    | TickInterrupt
    | BlockCurrent(ticks: nat, canBlockForever: bool)  // vTaskDelay, vTaskPlaceOnEventList, ...
    | EventFor(t: TaskId)                              // xTaskRemoveFromEventList picks t
    | BitsFor(t: TaskId)                               // vTaskRemoveFromUnorderedEventList is given t
    | SwitchContext
    | Suspend
    | Resume

  /** A task that waits without a time-out is on neither delayed list. */
  ghost predicate ForeverAt(k: Kernel, t: TaskId) {
    t in k.forever ==> Loose(k, t)
  }

  ghost predicate ForeverLoose(k: Kernel) {
    forall t :: ForeverAt(k, t)
  }

  ghost predicate Waits(k: Kernel, t: TaskId) {
    t in k.forever || OnList(k.delayed + k.overflowed, t)
  }

  ghost predicate PendingAt(k: Kernel, t: TaskId) {
    t in k.pendingReady ==> Waits(k, t)
  }

  ghost predicate PendingWait(k: Kernel) {
    && (forall t :: PendingAt(k, t))
    && CursorList.Distinct(k.pendingReady)
  }

  ghost predicate FullInv(k: Kernel) {
    && Inv(k)
    && ForeverLoose(k)
    && PendingWait(k)
    && (k.suspended == 0 ==> k.pendingReady == [])
  }

  ghost predicate Enabled(k: Kernel, e: Event) {
    match e
    case TickInterrupt => true
    case BlockCurrent(ticks, _) => 0 < ticks < WORD && R.IsReady(k.sched, k.sched.current)
    case EventFor(t) => Waits(k, t) && t !in k.pendingReady
    case BitsFor(t) => Waits(k, t) && t !in k.pendingReady && k.suspended > 0
    case SwitchContext => k.suspended == 0 ==> R.SomeReady(k.sched)
    case Suspend => true
    case Resume => k.suspended > 0
  }

  /** The woken task becomes ready, or waits for the scheduler to be resumed. */
  function Woken(k: Kernel, t: TaskId): Kernel {
    if k.suspended == 0 then Unblock(k, t) else k.(pendingReady := k.pendingReady + [t])
  }

  /** A yield is pending if the woken task is above the running one. */
  function YieldFor(k: Kernel, t: TaskId): bool {
    k.yieldPending || PriorityOf(k.sched, t) > PriorityOf(k.sched, k.sched.current)
  }

  function Apply(k: Kernel, e: Event): Kernel
    requires R.Inv(k.sched) && Enabled(k, e)
  {
    match e
    case TickInterrupt => Tick(k).kernel
    case BlockCurrent(ticks, canBlockForever) => Block(k, ticks, canBlockForever)
    case EventFor(t) => Woken(k, t).(yieldPending := YieldFor(k, t))
    case BitsFor(t) => Unblock(k, t).(yieldPending := YieldFor(k, t))
    case SwitchContext =>
      if k.suspended == 0 then k.(sched := R.SwitchContext(k.sched), yieldPending := false)
      else k.(yieldPending := true)
    case Suspend => SuspendAll(k)
    case Resume => ResumeAll(k).kernel
  }

  // ----- what each event keeps -----

  lemma WaitsIsBlocked(k: Kernel, t: TaskId)
    requires Inv(k) && ForeverLoose(k) && Waits(k, t)
    ensures R.Known(k.sched, t) && !R.IsReady(k.sched, t)
  {
    assert ForeverAt(k, t);
  }

  /** Where the tasks are is all that the invariant says of the indefinite and the pending ones. */
  predicate SamePlaces(k: Kernel, r: Kernel) {
    && r.sched == k.sched && r.delayed == k.delayed && r.overflowed == k.overflowed
    && r.forever == k.forever && r.pendingReady == k.pendingReady
  }

  lemma SamePlacesKeep(k: Kernel, r: Kernel)
    requires SamePlaces(k, r) && ForeverLoose(k) && PendingWait(k)
    ensures ForeverLoose(r) && PendingWait(r)
  {
    forall t
      ensures ForeverAt(r, t) && PendingAt(r, t)
    {
      assert ForeverAt(k, t) && PendingAt(k, t);
    }
  }

  lemma TickKeeps(k: Kernel)
    requires FullInv(k)
    ensures FullInv(Tick(k).kernel)
  {
    if k.suspended == 0 {
      TickKeepsInv(k);
      TickLists(k);
      TickKeepsSuspension(k);
      var all := k.delayed + k.overflowed;
      var d := Due(Advance(k).delayed, Advance(k).tick);
      var r := Tick(k).kernel;
      forall t
        ensures ForeverAt(r, t)
      {
        assert ForeverAt(k, t);
        if t in k.forever {
          SubListed(all, d, t);
          AddAllKnows(k.sched, all[..d], t);
        }
      }
    } else {
      SamePlacesKeep(k, Tick(k).kernel);
    }
  }

  lemma SubListed(all: seq<Entry>, d: nat, t: TaskId)
    requires d <= |all| && !OnList(all, t)
    ensures !OnList(all[..d], t) && !OnList(all[d..], t)
  {
    assert forall i :: 0 <= i < |all| - d ==> all[d..][i] == all[i + d];
  }

  lemma {:induction false} AddAllKnows(s: R.Sched, list: seq<Entry>, t: TaskId)
    ensures R.Known(AddAll(s, list), t) <==> R.Known(s, t)
    decreases |list|
  {
    if list != [] {
      AddAllKnows(R.AddReady(s, list[0].task), list[1..], t);
    }
  }

  lemma BlockKeeps(k: Kernel, ticks: nat, canBlockForever: bool)
    requires FullInv(k) && Enabled(k, BlockCurrent(ticks, canBlockForever))
    ensures FullInv(Block(k, ticks, canBlockForever))
  {
    UnreadyKeeps(k);
    ParkKeeps(Unready(k), k.sched.current, ticks, canBlockForever);
  }

  lemma WakeSlot(tick: nat, ticks: nat)
    requires tick < WORD && 0 < ticks < WORD
    ensures (tick + ticks) % WORD < WORD && (tick + ticks) % WORD != tick
  {
    WakeTime(tick, ticks);
  }

  lemma ParkKeeps(k: Kernel, t: TaskId, ticks: nat, canBlockForever: bool)
    requires FullInv(k) && Loose(k, t) && t !in k.forever && 0 < ticks < WORD
    ensures FullInv(Park(k, t, ticks, canBlockForever))
  {
    if ticks == MAX_DELAY && canBlockForever {
      ForeverKeeps(k, t);
    } else {
      var e := Entry(t, (k.tick + ticks) % WORD);
      assert Park(k, t, ticks, canBlockForever) == Delay(k, e);
      assert e.wake < WORD && e.wake != k.tick by { WakeSlot(k.tick, ticks); }
      DelayKeeps(k, e);
    }
  }

  lemma ForeverKeeps(k: Kernel, t: TaskId)
    requires FullInv(k) && Loose(k, t)
    ensures FullInv(k.(forever := k.forever + {t}))
  {
    var r := k.(forever := k.forever + {t});
    forall u
      ensures ForeverAt(r, u) && PendingAt(r, u)
    {
      assert ForeverAt(k, u) && PendingAt(k, u);
    }
  }

  lemma UnreadyKeeps(k: Kernel)
    requires FullInv(k) && R.IsReady(k.sched, k.sched.current)
    ensures FullInv(Unready(k)) && Loose(Unready(k), k.sched.current) && k.sched.current !in Unready(k).forever
  {
    UnreadyKeepsInv(k);
    var u := Unready(k);
    R.RemoveReadyKeeps(k.sched, k.sched.current);
    assert ForeverAt(k, k.sched.current);
    forall t
      ensures ForeverAt(u, t) && PendingAt(u, t)
    {
      assert ForeverAt(k, t) && PendingAt(k, t);
    }
  }

  lemma DelayKeeps(k: Kernel, e: Entry)
    requires FullInv(k) && Loose(k, e.task) && e.task !in k.forever && e.wake < WORD && e.wake != k.tick
    ensures FullInv(Delay(k, e))
  {
    DelayKeepsInv(k, e);
    var r := Delay(k, e);
    forall t
      ensures ForeverAt(r, t) && PendingAt(r, t)
    {
      assert ForeverAt(k, t) && PendingAt(k, t);
    }
  }

  /** Unblocking `u` keeps everything else where it was. */
  lemma UnblockKeeps(k: Kernel, u: TaskId)
    requires Inv(k) && ForeverLoose(k) && Waits(k, u)
    ensures Inv(Unblock(k, u)) && ForeverLoose(Unblock(k, u))
    ensures forall t :: Waits(Unblock(k, u), t) <==> Waits(k, t) && t != u
    ensures forall t :: R.IsReady(Unblock(k, u).sched, t) <==> R.IsReady(k.sched, t) || t == u
  {
    WaitsIsBlocked(k, u);
    UnblockKeepsInv(k, u);
    var r := Unblock(k, u);
    forall t
      ensures ForeverAt(r, t) && (Waits(r, t) <==> Waits(k, t) && t != u)
    {
      assert ForeverAt(k, t);
      assert OnList(r.delayed + r.overflowed, t) <==> OnList(k.delayed + k.overflowed, t) && t != u;
      assert R.Known(r.sched, t) <==> R.Known(k.sched, t);
    }
  }

  /** Waking `t` directly, while others may wait for the scheduler to be resumed. */
  lemma WakeNowKeeps(k: Kernel, t: TaskId)
    requires FullInv(k) && Waits(k, t) && t !in k.pendingReady
    ensures FullInv(Unblock(k, t))
  {
    UnblockKeeps(k, t);
    var r := Unblock(k, t);
    forall u
      ensures PendingAt(r, u)
    {
      assert PendingAt(k, u);
    }
  }

  lemma WakeLaterKeeps(k: Kernel, t: TaskId)
    requires FullInv(k) && Waits(k, t) && t !in k.pendingReady && k.suspended > 0
    ensures FullInv(Woken(k, t))
  {
    var r := Woken(k, t);
    forall u
      ensures ForeverAt(r, u) && PendingAt(r, u)
    {
      assert ForeverAt(k, u) && PendingAt(k, u);
    }
  }

  lemma WakeKeeps(k: Kernel, e: Event)
    requires FullInv(k) && Enabled(k, e) && (e.EventFor? || e.BitsFor?)
    ensures FullInv(Apply(k, e))
  {
    if e.BitsFor? || k.suspended == 0 {
      WakeNowKeeps(k, e.t);
      MarkedKeeps(Unblock(k, e.t), Unblock(k, e.t).pendedTicks, YieldFor(k, e.t));
    } else {
      WakeLaterKeeps(k, e.t);
      MarkedKeeps(Woken(k, e.t), Woken(k, e.t).pendedTicks, YieldFor(k, e.t));
    }
  }

  lemma SwitchKeeps(k: Kernel)
    requires FullInv(k) && Enabled(k, SwitchContext)
    ensures FullInv(Apply(k, SwitchContext))
    ensures forall t :: R.IsReady(Apply(k, SwitchContext).sched, t) <==> R.IsReady(k.sched, t)
  {
    var r := Apply(k, SwitchContext);
    if k.suspended == 0 {
      R.SwitchPicksHighest(k.sched);
      assert forall t :: R.Known(r.sched, t) <==> R.Known(k.sched, t);
    }
    forall t
      ensures ForeverAt(r, t) && PendingAt(r, t)
    {
      assert ForeverAt(k, t) && PendingAt(k, t);
    }
  }

  /** With the first pending task ready, the others are still pending. */
  lemma PendingTail(k: Kernel, r: Kernel, u: TaskId)
    requires Inv(k) && ForeverLoose(k) && PendingWait(k) && k.pendingReady != [] && u == k.pendingReady[0]
    requires Waits(k, u) && r == Unblock(k, u).(pendingReady := k.pendingReady[1..], yieldPending := r.yieldPending)
    ensures Inv(r) && ForeverLoose(r) && PendingWait(r)
  {
    UnblockKeeps(k, u);
    CursorList.DeleteFacts(k.pendingReady, 0);
    assert k.pendingReady[1..] == CursorList.Delete(k.pendingReady, 0);
    forall t
      ensures ForeverAt(r, t) && PendingAt(r, t)
    {
      assert ForeverAt(Unblock(k, u), t) && PendingAt(k, t);
      assert Waits(r, t) == Waits(Unblock(k, u), t) && Loose(r, t) == Loose(Unblock(k, u), t);
    }
  }

  lemma {:induction false} ReadyPendingKeeps(k: Kernel)
    requires Inv(k) && ForeverLoose(k) && PendingWait(k)
    ensures var r := ReadyPending(k);
            && Inv(r) && ForeverLoose(r) && r.pendingReady == []
            && Now(r) == Now(k) && r.suspended == k.suspended
    decreases |k.pendingReady|
  {
    if k.pendingReady != [] {
      var u := k.pendingReady[0];
      assert PendingAt(k, u);
      var r := Unblock(k, u).(
        pendingReady := k.pendingReady[1..],
        yieldPending := k.yieldPending || PriorityOf(k.sched, u) >= PriorityOf(k.sched, k.sched.current));
      PendingTail(k, r, u);
      ReadyPendingKeeps(r);
    }
  }

  lemma {:induction false} ReadyPendingSleeper(k: Kernel, t: TaskId, at: nat)
    requires t !in k.pendingReady
    ensures SleepsUntil(ReadyPending(k), t, at) <==> SleepsUntil(k, t, at)
    decreases |k.pendingReady|
  {
    if k.pendingReady != [] {
      var u := k.pendingReady[0];
      UnblockSleeper(k, u, t, at);
      var r := Unblock(k, u).(
        pendingReady := k.pendingReady[1..],
        yieldPending := k.yieldPending || PriorityOf(k.sched, u) >= PriorityOf(k.sched, k.sched.current));
      assert SleepsUntil(r, t, at) <==> SleepsUntil(Unblock(k, u), t, at);
      ReadyPendingSleeper(r, t, at);
    }
  }

  /** The kernel between the two loops of xTaskResumeAll. */
  function Resettled(k: Kernel): Kernel {
    var k1 := ReadyPending(k.(suspended := 0));
    if k.pendingReady != [] then k1.(nextUnblock := ResetNextUnblock(k1.delayed)) else k1
  }

  lemma ResettledKeeps(k: Kernel)
    requires FullInv(k)
    ensures FullInv(Resettled(k)) && Resettled(k).suspended == 0 && Now(Resettled(k)) == Now(k)
  {
    var k0 := k.(suspended := 0);
    SamePlacesKeep(k, k0);
    ReadyPendingKeeps(k0);
    var k1 := ReadyPending(k0);
    assert PendingWait(k1) by {
      assert forall t :: PendingAt(k1, t);
    }
    SamePlacesKeep(k1, Resettled(k));
  }

  /** Resuming is `Resettled` followed by the pended ticks, up to the two bookkeeping fields. */
  lemma ResumeIs(k: Kernel)
    requires k.suspended == 1 && Resettled(k).suspended == 0
    ensures var m := Resettled(k);
            var r := ResumeAll(k).kernel;
            r == Marked(TickMany(m.(yieldPending := false), m.pendedTicks).kernel, 0, r.yieldPending)
  {
    var m := Resettled(k);
    var calm := m.(yieldPending := false);
    assert Marked(calm, m.pendedTicks, m.yieldPending) == m;
    ProcessPendedIs(calm, m.pendedTicks, m.pendedTicks, m.yieldPending);
  }

  lemma MarkedKeeps(k: Kernel, pended: nat, pending: bool)
    requires FullInv(k)
    ensures FullInv(Marked(k, pended, pending))
  {
    SamePlacesKeep(k, Marked(k, pended, pending));
  }

  lemma {:induction false} TickManyKeeps(k: Kernel, n: nat)
    requires FullInv(k)
    ensures FullInv(TickMany(k, n).kernel)
    decreases n
  {
    if n > 0 {
      TickKeeps(k);
      TickManyKeeps(Tick(k).kernel, n - 1);
    }
  }

  lemma SuspensionKeeps(k: Kernel, depth: nat)
    requires FullInv(k) && depth > 0
    ensures FullInv(k.(suspended := depth))
  {
    SamePlacesKeep(k, k.(suspended := depth));
  }

  lemma ResumeKeeps(k: Kernel)
    requires FullInv(k) && k.suspended > 0
    ensures FullInv(ResumeAll(k).kernel)
  {
    if k.suspended == 1 {
      ResettledKeeps(k);
      ResumeIs(k);
      var m := Resettled(k);
      MarkedKeeps(m, m.pendedTicks, false);
      TickManyKeeps(m.(yieldPending := false), m.pendedTicks);
      MarkedKeeps(TickMany(m.(yieldPending := false), m.pendedTicks).kernel, 0, ResumeAll(k).kernel.yieldPending);
    } else {
      SuspensionKeeps(k, k.suspended - 1);
    }
  }

  lemma StepKeeps(k: Kernel, e: Event)
    requires FullInv(k) && Enabled(k, e)
    ensures FullInv(Apply(k, e))
  {
    match e
    case TickInterrupt => TickKeeps(k);
    case BlockCurrent(ticks, canBlockForever) => BlockKeeps(k, ticks, canBlockForever);
    case EventFor(_) => WakeKeeps(k, e);
    case BitsFor(_) => WakeKeeps(k, e);
    case SwitchContext => SwitchKeeps(k);
    case Suspend => SuspensionKeeps(k, k.suspended + 1);
    case Resume => ResumeKeeps(k);
  }

  // ----- one sleeper through one event -----

  /** After the event, `t` either still sleeps until `at`, or the time has come and it is ready. */
  ghost predicate SleptOn(r: Kernel, t: TaskId, at: nat) {
    && t !in r.pendingReady
    && (if Now(r) < at then SleepsUntil(r, t, at) else R.IsReady(r.sched, t))
  }

  lemma ResumeSleeper(k: Kernel, t: TaskId, at: nat)
    requires FullInv(k) && k.suspended == 1 && SleepsUntil(k, t, at) && t !in k.pendingReady
    ensures SleptOn(ResumeAll(k).kernel, t, at)
  {
    var m := Resettled(k);
    var calm := m.(yieldPending := false);
    ResettledKeeps(k);
    MarkedKeeps(m, m.pendedTicks, false);
    assert SleepsUntil(calm, t, at) by {
      ReadyPendingSleeper(k.(suspended := 0), t, at);
    }
    TickManySleeper(calm, m.pendedTicks, t, at);
    ResumeIs(k);
  }

  lemma TickManySleeper(k: Kernel, n: nat, t: TaskId, at: nat)
    requires FullInv(k) && k.suspended == 0 && SleepsUntil(k, t, at)
    ensures SleptOn(TickMany(k, n).kernel, t, at)
  {
    TickManyIsExact(k, n, t, at);
    TickManyKeepsPending(k, n);
  }

  lemma {:induction false} TickManyKeepsPending(k: Kernel, n: nat)
    ensures TickMany(k, n).kernel.pendingReady == k.pendingReady
    decreases n
  {
    if n > 0 {
      TickKeepsSuspension(k);
      TickManyKeepsPending(Tick(k).kernel, n - 1);
    }
  }

  lemma WakeOtherSleeper(k: Kernel, u: TaskId, t: TaskId, at: nat)
    requires u != t && Now(k) < at && SleepsUntil(k, t, at) && t !in k.pendingReady
    ensures SleptOn(Unblock(k, u).(yieldPending := YieldFor(k, u)), t, at)
    ensures SleptOn(Woken(k, u).(yieldPending := YieldFor(k, u)), t, at)
  {
    UnblockSleeper(k, u, t, at);
  }

  lemma BlockOtherSleeper(k: Kernel, ticks: nat, canBlockForever: bool, t: TaskId, at: nat)
    requires k.tick < WORD && 0 < ticks < WORD && Now(k) < at
    requires SleepsUntil(k, t, at) && t !in k.pendingReady
    ensures SleptOn(Block(k, ticks, canBlockForever), t, at)
  {
    if !(ticks == MAX_DELAY && canBlockForever) {
      BlockSleeper(k, ticks, t, at);
    }
  }

  /** The event wakes `t`, whatever the time. */
  predicate MeantFor(e: Event, t: TaskId) {
    e == EventFor(t) || e == BitsFor(t)
  }

  /** No event but its own tick, or an event meant for it, ends a task's sleep. */
  lemma StepSleeper(k: Kernel, e: Event, t: TaskId, at: nat)
    requires FullInv(k) && Enabled(k, e) && !MeantFor(e, t)
    requires SleepsUntil(k, t, at) && t !in k.pendingReady
    ensures SleptOn(Apply(k, e), t, at)
  {
    SleeperIsBlocked(k, t, at);
    match e
    case TickInterrupt =>
      TickKeepsSuspension(k);
      if k.suspended == 0 {
        TickIsExact(k, t, at);
      }
    case BlockCurrent(ticks, canBlockForever) => BlockOtherSleeper(k, ticks, canBlockForever, t, at);
    case EventFor(u) => WakeOtherSleeper(k, u, t, at);
    case BitsFor(u) => WakeOtherSleeper(k, u, t, at);
    case SwitchContext =>
    case Suspend =>
    case Resume =>
      if k.suspended == 1 {
        ResumeSleeper(k, t, at);
      }
  }

  // ----- whole runs -----

  ghost predicate Step(k: Kernel, e: Event, r: Kernel) {
    R.Inv(k.sched) ==> Enabled(k, e) && r == Apply(k, e)
  }

  ghost predicate StepAt(run: seq<Kernel>, events: seq<Event>, i: nat) {
    i < |events| && i + 1 < |run| ==> Step(run[i], events[i], run[i + 1])
  }

  /** `run` is a sequence of kernels joined by enabled events; nothing sleeps at the start. */
  ghost predicate IsRun(run: seq<Kernel>, events: seq<Event>) {
    && |run| == |events| + 1
    && run[0].delayed == [] && run[0].overflowed == [] && run[0].forever == {} && run[0].pendingReady == []
    && run[0].tick < WORD && run[0].nextUnblock == MAX_DELAY
    && R.Inv(run[0].sched)
    && forall i: nat :: StepAt(run, events, i)
  }

  lemma {:induction false} RunKeeps(run: seq<Kernel>, events: seq<Event>, i: nat)
    requires IsRun(run, events) && i < |run|
    ensures FullInv(run[i])
  {
    if i > 0 {
      RunKeeps(run, events, i - 1);
      assert StepAt(run, events, i - 1);
      StepKeeps(run[i - 1], events[i - 1]);
    }
  }

  /** The running task blocks, and sleeps from then on. */
  lemma CurrentFallsAsleep(k: Kernel, n: nat, canBlockForever: bool)
    requires FullInv(k) && Enabled(k, BlockCurrent(n, canBlockForever)) && !(n == MAX_DELAY && canBlockForever)
    ensures SleptOn(Block(k, n, canBlockForever), k.sched.current, Now(k) + n)
  {
    var t := k.sched.current;
    if t in k.pendingReady {
      assert PendingAt(k, t);
      WaitsIsBlocked(k, t);
    }
    BlockSleeper(k, n, t, Now(k) + n);
  }

  lemma TickAddsAtMostOne(k: Kernel)
    requires FullInv(k)
    ensures Now(Tick(k).kernel) <= Now(k) + 1
  {
    if k.suspended == 0 {
      TickSleeper(k, k.sched.current, 0);
    }
  }

  lemma SleepGoesOn(k: Kernel, e: Event, r: Kernel, t: TaskId, at: nat)
    requires FullInv(k) && Step(k, e, r) && !MeantFor(e, t) && SleptOn(k, t, at) && Now(k) < at
    ensures SleptOn(r, t, at) && (e.TickInterrupt? ==> Now(r) <= at)
  {
    StepSleeper(k, e, t, at);
    TickAddsAtMostOne(k);
  }

  lemma FallsAsleepAt(run: seq<Kernel>, events: seq<Event>, i: nat)
    requires IsRun(run, events) && i < |events|
    requires events[i].BlockCurrent? && !(events[i].ticks == MAX_DELAY && events[i].canBlockForever)
    ensures SleptOn(run[i + 1], run[i].sched.current, Now(run[i]) + events[i].ticks)
  {
    RunKeeps(run, events, i);
    assert StepAt(run, events, i);
    CurrentFallsAsleep(run[i], events[i].ticks, events[i].canBlockForever);
  }

  lemma SleepGoesOnAt(run: seq<Kernel>, events: seq<Event>, i: nat, t: TaskId, at: nat)
    requires IsRun(run, events) && i < |events| && !MeantFor(events[i], t) && SleptOn(run[i], t, at) && Now(run[i]) < at
    ensures SleptOn(run[i + 1], t, at) && (events[i].TickInterrupt? ==> Now(run[i + 1]) <= at)
  {
    RunKeeps(run, events, i);
    assert StepAt(run, events, i);
    SleepGoesOn(run[i], events[i], run[i + 1], t, at);
  }

  /** State `m`, after event `i` and before state `j`, has not reached the wake time, and its event is not meant for `t`. */
  ghost predicate StillBefore(run: seq<Kernel>, events: seq<Event>, i: nat, m: int, j: nat, t: TaskId, n: nat) {
    i < m < j && m < |events| && m < |run| ==> !MeantFor(events[m], t) && Now(run[m]) < Now(run[i]) + n
  }

  /**
    Exact wake-up. In every run, let the running task block at unbounded tick T for n ticks,
    0 < n < 2^32, not indefinitely. As long as no event meant for the task happens, and no
    earlier state has already reached T + n, the task sleeps exactly while the tick count is
    below T + n and is ready as soon as it is not.
   */
  lemma {:induction false} WakesExactlyOnTime(run: seq<Kernel>, events: seq<Event>, i: nat, j: nat, t: TaskId, n: nat)
    requires IsRun(run, events) && i < j < |run|
    requires events[i].BlockCurrent? && events[i].ticks == n && !(n == MAX_DELAY && events[i].canBlockForever)
    requires t == run[i].sched.current
    requires forall m :: StillBefore(run, events, i, m, j, t, n)
    ensures SleptOn(run[j], t, Now(run[i]) + n)
    ensures events[j - 1].TickInterrupt? ==> Now(run[j]) <= Now(run[i]) + n
    decreases j
  {
    var at, last := Now(run[i]) + n, j - 1;
    if last == i {
      FallsAsleepAt(run, events, i);
    } else {
      forall m
        ensures StillBefore(run, events, i, m, last, t, n)
      {
        assert StillBefore(run, events, i, m, j, t, n);
      }
      WakesExactlyOnTime(run, events, i, last, t, n);
      assert StillBefore(run, events, i, last, j, t, n);
      SleepGoesOnAt(run, events, last, t, at);
    }
  }

  /** In every reachable state the cached unblock time is not after the first wake time. */
  lemma NextUnblockIsNotLate(run: seq<Kernel>, events: seq<Event>, i: nat)
    requires IsRun(run, events) && i < |run| && run[i].delayed != []
    ensures run[i].tick < run[i].delayed[0].wake && run[i].nextUnblock <= run[i].delayed[0].wake
  {
    RunKeeps(run, events, i);
  }

  /** Whenever a tick interrupt wraps the count, the delayed list that is swapped out is empty, ... */
  lemma SwapsAnEmptyList(run: seq<Kernel>, events: seq<Event>, i: nat)
    requires IsRun(run, events) && i < |events| && events[i].TickInterrupt?
    requires run[i].suspended == 0 && run[i].tick == MAX_DELAY
    ensures run[i].delayed == []
  {
    RunKeeps(run, events, i);
    DelayedListEmptyAtSwitch(run[i]);
  }

  /** ... and so it is when a pended tick wraps it while the scheduler is resumed. */
  lemma ResumeSwapsAnEmptyList(run: seq<Kernel>, events: seq<Event>, i: nat, j: nat)
    requires IsRun(run, events) && i < |events| && events[i].Resume? && run[i].suspended == 1
    requires j < Resettled(run[i]).pendedTicks
    ensures var k := BeforePended(run[i], j); k.tick == MAX_DELAY ==> k.delayed == []
  {
    RunKeeps(run, events, i);
    var m := Resettled(run[i]);
    ResettledKeeps(run[i]);
    MarkedKeeps(m, m.pendedTicks, false);
    TickManyKeeps(m.(yieldPending := false), j);
    if BeforePended(run[i], j).tick == MAX_DELAY {
      DelayedListEmptyAtSwitch(BeforePended(run[i], j));
    }
  }

  /** What the pended tick number `j` finds when xTaskResumeAll works them off, up to the mark for a pending yield. */
  function BeforePended(k: Kernel, j: nat): Kernel {
    TickMany(Resettled(k).(yieldPending := false), j).kernel
  }
}
