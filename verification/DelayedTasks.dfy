/**
  Time in FreeRTOS/Source/tasks.c: the 32-bit tick count, the two delayed task lists that
  change places when it wraps, the cached next unblock time, and the ticks that are pended
  while the scheduler is suspended.

  `Now` and `Sleepers` give the same state in unbounded time. The theorems say that the
  wrapping implementation never differs from that unbounded one.
 */
module DelayedTasks {
  import opened Shared
  import opened CursorList
  import R = ReadyLists
  import Modular

  /** A state list item on a delayed list: its owner and its xItemValue. */
  datatype Entry = Entry(task: TaskId, wake: nat)

  datatype Kernel = Kernel(
    tick: nat,                  // xTickCount
    overflows: nat,             // xNumOfOverflows
    delayed: seq<Entry>,        // *pxDelayedTaskList
    overflowed: seq<Entry>,     // *pxOverflowDelayedTaskList
    nextUnblock: nat,           // xNextTaskUnblockTime
    forever: set<TaskId>,       // xSuspendedTaskList
    sched: R.Sched,
    suspended: nat,             // uxSchedulerSuspended
    pendedTicks: nat,           // xPendedTicks
    pendingReady: seq<TaskId>,  // xPendingReadyList
    yieldPending: bool)         // xYieldPending

  function Wakes(list: seq<Entry>): (w: seq<nat>)
    ensures |w| == |list| && forall i :: 0 <= i < |list| ==> w[i] == list[i].wake
  {
    seq(|list|, i requires 0 <= i < |list| => list[i].wake)
  }

  function InsertByWake(list: seq<Entry>, e: Entry): seq<Entry> {
    Insert(list, InsertPosition(Wakes(list), e.wake), e)
  }

  // ----- xTaskIncrementTick -----

  function ResetNextUnblock(delayed: seq<Entry>): nat {
    if delayed == [] then MAX_DELAY else delayed[0].wake
  }

  /** taskSWITCH_DELAYED_LISTS. Its configASSERT is a theorem below. */
  function SwitchLists(k: Kernel): Kernel {
    k.(delayed := k.overflowed, overflowed := k.delayed, overflows := k.overflows + 1,
       nextUnblock := ResetNextUnblock(k.overflowed))
  }

  function Advance(k: Kernel): Kernel {
    var k1 := k.(tick := (k.tick + 1) % WORD);
    if k1.tick == 0 then SwitchLists(k1) else k1
  }

  datatype Ticked = Ticked(kernel: Kernel, switchRequired: bool)

  function PriorityOf(s: R.Sched, t: TaskId): nat {
    if t in s.priority then s.priority[t] else 0
  }

  /** The loop that moves expired tasks to their ready lists. */
  function Drain(k: Kernel, switchRequired: bool): Ticked
    decreases |k.delayed|
  {
    if k.delayed == [] then Ticked(k.(nextUnblock := MAX_DELAY), switchRequired)
    else if k.tick < k.delayed[0].wake then Ticked(k.(nextUnblock := k.delayed[0].wake), switchRequired)
    else
      var t := k.delayed[0].task;
      Drain(k.(delayed := k.delayed[1..], sched := R.AddReady(k.sched, t)),
            switchRequired || PriorityOf(k.sched, t) >= PriorityOf(k.sched, k.sched.current))
  }

  function DrainIfDue(k: Kernel): Ticked {
    if k.tick >= k.nextUnblock then Drain(k, false) else Ticked(k, false)
  }

  /** Another ready task has the priority of the running one, so they take turns. */
  predicate SharesPriority(s: R.Sched) {
    var p := PriorityOf(s, s.current);
    p < |s.lists| && |s.lists[p].items| > 1
  }

  function Tick(k: Kernel): Ticked {
    if k.suspended == 0 then
      var r := DrainIfDue(Advance(k));
      r.(switchRequired := r.switchRequired || SharesPriority(r.kernel.sched) || r.kernel.yieldPending)
    else
      Ticked(k.(pendedTicks := (k.pendedTicks + 1) % WORD), false)
  }

  // ----- unbounded time -----

  function Now(k: Kernel): nat {
    k.overflows * WORD + k.tick
  }

  predicate Asleep(list: seq<Entry>, base: nat, t: TaskId, at: nat) {
    base <= at && Entry(t, at - base) in list
  }

  /** Task `t` sleeps and is to wake when the unbounded tick count becomes `at`. */
  predicate SleepsUntil(k: Kernel, t: TaskId, at: nat) {
    || Asleep(k.delayed, k.overflows * WORD, t, at)
    || Asleep(k.overflowed, (k.overflows + 1) * WORD, t, at)
  }

  // ----- the invariant -----

  /** A list in wake order, all wake times from `low` up to the wrap. */
  ghost predicate InOrder(list: seq<Entry>, low: nat) {
    && (forall i, j :: 0 <= i < j < |list| ==> list[i].wake <= list[j].wake)
    && (forall i :: 0 <= i < |list| ==> low <= list[i].wake < WORD)
  }

  /** Nothing is due, and the cached unblock time is not after the first wake time. */
  ghost predicate OnTime(tick: nat, delayed: seq<Entry>, overflowed: seq<Entry>, nextUnblock: nat) {
    && tick < WORD
    && InOrder(delayed, tick + 1)
    && InOrder(overflowed, 0)
    && nextUnblock < WORD
    && (delayed != [] ==> nextUnblock <= delayed[0].wake)
  }

  /** Each task is on the list once. */
  ghost predicate Once(list: seq<Entry>) {
    forall i, j :: 0 <= i < j < |list| ==> list[i].task != list[j].task
  }

  /** Tasks on the list are known and not ready. */
  ghost predicate Blocked(s: R.Sched, list: seq<Entry>) {
    forall i :: 0 <= i < |list| ==> R.Known(s, list[i].task) && !R.IsReady(s, list[i].task)
  }

  ghost predicate Inv(k: Kernel) {
    && OnTime(k.tick, k.delayed, k.overflowed, k.nextUnblock)
    && R.Inv(k.sched)
    && Once(k.delayed + k.overflowed)
    && Blocked(k.sched, k.delayed + k.overflowed)
  }

  // ----- one tick -----

  /** How many tasks at the head of the list are due. */
  function Due(list: seq<Entry>, tick: nat): (d: nat)
    ensures d <= |list|
  {
    if list == [] || tick < list[0].wake then 0 else Due(list[1..], tick) + 1
  }

  function AddAll(s: R.Sched, list: seq<Entry>): R.Sched
    decreases |list|
  {
    if list == [] then s else AddAll(R.AddReady(s, list[0].task), list[1..])
  }

  lemma {:induction false} DrainIs(k: Kernel, sw: bool)
    ensures var d := Due(k.delayed, k.tick);
            Drain(k, sw).kernel == k.(delayed := k.delayed[d..], sched := AddAll(k.sched, k.delayed[..d]),
                                      nextUnblock := ResetNextUnblock(k.delayed[d..]))
    decreases |k.delayed|
  {
    var d := Due(k.delayed, k.tick);
    if d == 0 {
      assert k.delayed[0..] == k.delayed && k.delayed[..0] == [];
    } else {
      var s1 := R.AddReady(k.sched, k.delayed[0].task);
      var k1 := k.(delayed := k.delayed[1..], sched := s1);
      DrainIs(k1, sw || PriorityOf(k.sched, k.delayed[0].task) >= PriorityOf(k.sched, k.sched.current));
      assert k.delayed[1..][d - 1..] == k.delayed[d..];
      assert k.delayed[..d][1..] == k.delayed[1..][..d - 1];
      assert k.delayed[..d][0] == k.delayed[0];
    }
  }

  lemma {:induction false} DueSplits(list: seq<Entry>, tick: nat)
    requires InOrder(list, tick)
    ensures var d := Due(list, tick);
            && (forall i :: 0 <= i < d ==> list[i].wake == tick)
            && (forall i :: d <= i < |list| ==> list[i].wake > tick)
  {
    if list != [] && list[0].wake <= tick {
      SuffixInOrder(list, 1, tick);
      DueSplits(list[1..], tick);
      assert forall i :: 1 <= i < |list| ==> list[i] == list[1..][i - 1];
    }
  }

  lemma SuffixInOrder(list: seq<Entry>, d: nat, low: nat)
    requires InOrder(list, low) && d <= |list|
    ensures InOrder(list[d..], low)
  {
    assert forall i :: 0 <= i < |list| - d ==> list[d..][i] == list[i + d];
  }

  /** A kernel whose tick has just advanced: entries may be due at exactly this tick. */
  ghost predicate JustAdvanced(k: Kernel) {
    && k.tick < WORD
    && InOrder(k.delayed, k.tick)
    && InOrder(k.overflowed, 0)
    && k.nextUnblock < WORD
    && (k.delayed != [] ==> k.nextUnblock <= k.delayed[0].wake)
  }

  /** When the count wraps, the list about to be swapped out is empty. */
  lemma DelayedListEmptyAtSwitch(k: Kernel)
    requires OnTime(k.tick, k.delayed, k.overflowed, k.nextUnblock) && (k.tick + 1) % WORD == 0
    ensures |k.delayed| == 0
  {
  }

  lemma AdvanceKeepsTime(k: Kernel)
    requires OnTime(k.tick, k.delayed, k.overflowed, k.nextUnblock)
    ensures JustAdvanced(Advance(k))
    ensures Now(Advance(k)) == Now(k) + 1
  {
    AdvanceCounts(k);
    if k.tick + 1 == WORD {
      DelayedListEmptyAtSwitch(k);
    }
  }

  lemma AdvanceCounts(k: Kernel)
    requires k.tick < WORD
    ensures Advance(k).tick == (if k.tick + 1 == WORD then 0 else k.tick + 1)
    ensures Now(Advance(k)) == Now(k) + 1
  {
  }

  lemma AdvanceKeepsSleeper(k: Kernel, t: TaskId, at: nat)
    requires OnTime(k.tick, k.delayed, k.overflowed, k.nextUnblock)
    ensures SleepsUntil(Advance(k), t, at) <==> SleepsUntil(k, t, at)
  {
    if k.tick + 1 == WORD {
      DelayedListEmptyAtSwitch(k);
    }
  }

  /** Whether or not the loop is entered, exactly the tasks due at this tick leave the list. */
  lemma DrainIfDueIs(k: Kernel)
    requires JustAdvanced(k)
    ensures var d := Due(k.delayed, k.tick);
            var r := DrainIfDue(k).kernel;
            && r == k.(delayed := k.delayed[d..], sched := AddAll(k.sched, k.delayed[..d]), nextUnblock := r.nextUnblock)
            && OnTime(r.tick, r.delayed, r.overflowed, r.nextUnblock)
  {
    var d := Due(k.delayed, k.tick);
    DueSplits(k.delayed, k.tick);
    SuffixInOrder(k.delayed, d, k.tick);
    if k.tick >= k.nextUnblock {
      DrainIs(k, false);
    } else {
      assert k.delayed[0..] == k.delayed && k.delayed[..0] == [];
    }
  }

  /** What one processed tick does to the state, as an equation. */
  lemma TickIs(k: Kernel)
    requires OnTime(k.tick, k.delayed, k.overflowed, k.nextUnblock) && k.suspended == 0
    ensures var a := Advance(k);
            var d := Due(a.delayed, a.tick);
            var r := Tick(k).kernel;
            && r == a.(delayed := a.delayed[d..], sched := AddAll(a.sched, a.delayed[..d]), nextUnblock := r.nextUnblock)
            && OnTime(r.tick, r.delayed, r.overflowed, r.nextUnblock)
  {
    AdvanceKeepsTime(k);
    DrainIfDueIs(Advance(k));
  }

  /** The sleepers after a tick: everybody but those whose time it is. */
  lemma TickSleeper(k: Kernel, t: TaskId, at: nat)
    requires OnTime(k.tick, k.delayed, k.overflowed, k.nextUnblock) && k.suspended == 0
    ensures Now(Tick(k).kernel) == Now(k) + 1
    ensures SleepsUntil(Tick(k).kernel, t, at) <==> SleepsUntil(k, t, at) && at != Now(k) + 1
  {
    var a := Advance(k);
    AdvanceKeepsTime(k);
    AdvanceKeepsSleeper(k, t, at);
    TickIs(k);
    DroppingDueIsExact(a, t, at);
  }

  /** Dropping the due entries drops exactly the sleepers of this moment. */
  lemma DroppingDueIsExact(a: Kernel, t: TaskId, at: nat)
    requires a.tick < WORD && InOrder(a.delayed, a.tick)
    ensures SleepsUntil(a.(delayed := a.delayed[Due(a.delayed, a.tick)..]), t, at) <==> SleepsUntil(a, t, at) && at != Now(a)
  {
    DueDropped(a.delayed, a.tick, a.overflows * WORD, t, at);
  }

  lemma StillListed(list: seq<Entry>, tick: nat, e: Entry)
    requires InOrder(list, tick)
    ensures e in list[Due(list, tick)..] <==> e in list && e.wake != tick
  {
    var d := Due(list, tick);
    DueSplits(list, tick);
    if e in list && e.wake != tick {
      var i :| 0 <= i < |list| && list[i] == e;
      assert list[d..][i - d] == e;
    }
  }

  lemma DueDropped(list: seq<Entry>, tick: nat, base: nat, t: TaskId, at: nat)
    requires InOrder(list, tick)
    ensures Asleep(list[Due(list, tick)..], base, t, at) <==> Asleep(list, base, t, at) && at != base + tick
  {
    if base <= at {
      StillListed(list, tick, Entry(t, at - base));
    }
  }

  ghost predicate OnList(list: seq<Entry>, t: TaskId) {
    exists i :: 0 <= i < |list| && list[i].task == t
  }

  lemma {:induction false} AddAllReadies(s: R.Sched, list: seq<Entry>)
    requires R.Inv(s) && Blocked(s, list) && Once(list)
    ensures R.Inv(AddAll(s, list))
    ensures forall t :: R.Known(AddAll(s, list), t) <==> R.Known(s, t)
    ensures forall t :: R.IsReady(AddAll(s, list), t) <==> R.IsReady(s, t) || OnList(list, t)
    decreases |list|
  {
    if list != [] {
      var t := list[0].task;
      var rest := list[1..];
      R.AddReadyKeeps(s, t);
      assert forall i :: 0 <= i < |rest| ==> rest[i] == list[i + 1];
      AddAllReadies(R.AddReady(s, t), rest);
      forall u
        ensures OnList(list, u) <==> u == t || OnList(rest, u)
      {
        if i :| 0 <= i < |rest| && rest[i].task == u {
          assert list[i + 1].task == u;
        }
      }
    }
  }

  /** Readying the first `d` blocked tasks leaves the others blocked. */
  lemma ReadyingKeeps(s: R.Sched, all: seq<Entry>, d: nat)
    requires R.Inv(s) && Blocked(s, all) && Once(all) && d <= |all|
    ensures R.Inv(AddAll(s, all[..d]))
    ensures Blocked(AddAll(s, all[..d]), all[d..]) && Once(all[d..])
    ensures forall t :: R.IsReady(AddAll(s, all[..d]), t) <==> R.IsReady(s, t) || OnList(all[..d], t)
  {
    AddAllReadies(s, all[..d]);
    forall i | 0 <= i < |all| - d
      ensures all[d..][i] == all[i + d] && !OnList(all[..d], all[i + d].task)
    {
    }
  }

  lemma DueOnList(delayed: seq<Entry>, tick: nat, t: TaskId)
    requires InOrder(delayed, tick)
    ensures OnList(delayed[..Due(delayed, tick)], t) <==> Entry(t, tick) in delayed
  {
    var d := Due(delayed, tick);
    DueSplits(delayed, tick);
    if Entry(t, tick) in delayed {
      var i :| 0 <= i < |delayed| && delayed[i] == Entry(t, tick);
      assert delayed[..d][i].task == t;
    }
    if OnList(delayed[..d], t) {
      var i :| 0 <= i < d && delayed[..d][i].task == t;
      assert delayed[i] == Entry(t, tick);
    }
  }

  lemma AdvanceKeepsLists(k: Kernel)
    requires OnTime(k.tick, k.delayed, k.overflowed, k.nextUnblock)
    ensures Advance(k).delayed + Advance(k).overflowed == k.delayed + k.overflowed
    ensures Advance(k).sched == k.sched
  {
    if k.tick + 1 == WORD {
      DelayedListEmptyAtSwitch(k);
    }
  }

  lemma AppendSplits(x: seq<Entry>, y: seq<Entry>, d: nat)
    requires d <= |x|
    ensures (x + y)[..d] == x[..d]
    ensures (x + y)[d..] == x[d..] + y
  {
  }

  /** Both lists together lose the due tasks at the front, even when they change places. */
  lemma TickLists(k: Kernel)
    requires OnTime(k.tick, k.delayed, k.overflowed, k.nextUnblock) && k.suspended == 0
    ensures var all := k.delayed + k.overflowed;
            var a := Advance(k);
            var d := Due(a.delayed, a.tick);
            var r := Tick(k).kernel;
            && d <= |all| && all[..d] == a.delayed[..d]
            && r.delayed + r.overflowed == all[d..]
            && r.sched == AddAll(k.sched, all[..d])
            && OnTime(r.tick, r.delayed, r.overflowed, r.nextUnblock)
  {
    var a := Advance(k);
    TickIs(k);
    AdvanceKeepsLists(k);
    AppendSplits(a.delayed, a.overflowed, Due(a.delayed, a.tick));
  }

  lemma TickKeepsInv(k: Kernel)
    requires Inv(k) && k.suspended == 0
    ensures Inv(Tick(k).kernel)
    ensures forall t :: R.IsReady(Tick(k).kernel.sched, t) <==>
              R.IsReady(k.sched, t) || OnList(Advance(k).delayed[..Due(Advance(k).delayed, Advance(k).tick)], t)
  {
    TickLists(k);
    ReadyingKeeps(k.sched, k.delayed + k.overflowed, Due(Advance(k).delayed, Advance(k).tick));
  }

  lemma SleepsUntilNow(k: Kernel, t: TaskId)
    requires k.tick < WORD
    ensures SleepsUntil(k, t, Now(k)) <==> Entry(t, k.tick) in k.delayed
  {
    assert Now(k) - k.overflows * WORD == k.tick;
    assert Now(k) < (k.overflows + 1) * WORD;
  }

  lemma TickReadies(k: Kernel, t: TaskId)
    requires Inv(k) && k.suspended == 0
    ensures Inv(Tick(k).kernel)
    ensures R.IsReady(Tick(k).kernel.sched, t) <==> R.IsReady(k.sched, t) || SleepsUntil(k, t, Now(k) + 1)
  {
    TickKeepsInv(k);
    var a := Advance(k);
    assert SleepsUntil(k, t, Now(k) + 1) <==> OnList(a.delayed[..Due(a.delayed, a.tick)], t) by {
      AdvanceKeepsTime(k);
      AdvanceKeepsSleeper(k, t, Now(k) + 1);
      SleepsUntilNow(a, t);
      DueOnList(a.delayed, a.tick, t);
    }
  }

  /**
    One processed tick in unbounded time: the count goes up by one, exactly the sleepers whose
    time has come leave, and they and nobody else become ready.
   */
  lemma TickIsExact(k: Kernel, t: TaskId, at: nat)
    requires Inv(k) && k.suspended == 0
    ensures var r := Tick(k).kernel;
            && Inv(r)
            && Now(r) == Now(k) + 1
            && (SleepsUntil(r, t, at) <==> SleepsUntil(k, t, at) && at != Now(k) + 1)
            && (R.IsReady(r.sched, t) <==> R.IsReady(k.sched, t) || SleepsUntil(k, t, Now(k) + 1))
  {
    TickSleeper(k, t, at);
    TickReadies(k, t);
  }

  // ----- many ticks -----

  /** `n` ticks taken one by one, and whether any of them asked for a context switch. */
  function TickMany(k: Kernel, n: nat): Ticked
    decreases n
  {
    if n == 0 then Ticked(k, false)
    else
      var first := Tick(k);
      var rest := TickMany(first.kernel, n - 1);
      Ticked(rest.kernel, first.switchRequired || rest.switchRequired)
  }

  lemma TickKeepsSuspension(k: Kernel)
    ensures var r := Tick(k).kernel;
            && r.suspended == k.suspended && r.pendingReady == k.pendingReady && r.yieldPending == k.yieldPending
            && r.forever == k.forever
            && (k.suspended == 0 ==> r.pendedTicks == k.pendedTicks)
  {
    if k.suspended == 0 && Advance(k).tick >= Advance(k).nextUnblock {
      DrainIs(Advance(k), false);
    }
  }

  lemma SleeperIsBlocked(k: Kernel, t: TaskId, at: nat)
    requires Inv(k) && SleepsUntil(k, t, at)
    ensures Now(k) < at && !R.IsReady(k.sched, t) && OnList(k.delayed + k.overflowed, t)
  {
    var all := k.delayed + k.overflowed;
    if Asleep(k.delayed, k.overflows * WORD, t, at) {
      var i :| 0 <= i < |k.delayed| && k.delayed[i] == Entry(t, at - k.overflows * WORD);
      assert all[i].task == t;
    } else {
      var i :| 0 <= i < |k.overflowed| && k.overflowed[i] == Entry(t, at - (k.overflows + 1) * WORD);
      assert all[i + |k.delayed|].task == t;
    }
  }

  lemma NotYetAwake(k: Kernel, t: TaskId, at: nat)
    requires Inv(k)
    ensures SleepsUntil(k, t, at) ==> Now(k) < at
  {
    if SleepsUntil(k, t, at) {
      SleeperIsBlocked(k, t, at);
    }
  }

  /** `n` ticks have passed from `k` to `r`; if `t` slept until `at` it still does, or its time has come and it is ready. */
  predicate Elapsed(k: Kernel, r: Kernel, n: nat, t: TaskId, at: nat) {
    && Now(r) == Now(k) + n
    && (SleepsUntil(r, t, at) <==> SleepsUntil(k, t, at) && Now(r) < at)
    && (SleepsUntil(k, t, at) && at <= Now(r) ==> R.IsReady(r.sched, t))
    && (R.IsReady(k.sched, t) ==> R.IsReady(r.sched, t))
  }

  lemma TickElapses(k: Kernel, t: TaskId, at: nat)
    requires Inv(k) && k.suspended == 0
    ensures var r := Tick(k).kernel; Inv(r) && r.suspended == 0 && Elapsed(k, r, 1, t, at)
  {
    NotYetAwake(k, t, at);
    TickIsExact(k, t, at);
    TickKeepsSuspension(k);
  }

  lemma ElapsedChain(k: Kernel, m: Kernel, r: Kernel, i: nat, j: nat, t: TaskId, at: nat)
    requires Elapsed(k, m, i, t, at) && Elapsed(m, r, j, t, at)
    ensures Elapsed(k, r, i + j, t, at)
  {
  }

  /** Over any number of ticks a sleeper wakes at its time, neither before nor after. */
  lemma {:induction false} TickManyIsExact(k: Kernel, n: nat, t: TaskId, at: nat)
    requires Inv(k) && k.suspended == 0
    ensures var r := TickMany(k, n).kernel;
            && Inv(r) && r.suspended == 0
            && Elapsed(k, r, n, t, at)
    decreases n
  {
    if n == 0 {
      NotYetAwake(k, t, at);
    } else {
      var m := Tick(k).kernel;
      TickElapses(k, t, at);
      TickManyIsExact(m, n - 1, t, at);
      ElapsedChain(k, m, TickMany(m, n - 1).kernel, 1, n - 1, t, at);
    }
  }

  // ----- suspending and resuming the scheduler -----

  /** vTaskSuspendAll. */
  function SuspendAll(k: Kernel): Kernel {
    k.(suspended := k.suspended + 1)
  }

  function Dropping(list: seq<Entry>, t: TaskId): seq<Entry> {
    if list == [] then []
    else if list[0].task == t then Dropping(list[1..], t)
    else [list[0]] + Dropping(list[1..], t)
  }

  /** Take a task off whichever state list it is on and make it ready. */
  function Unblock(k: Kernel, t: TaskId): Kernel {
    k.(delayed := Dropping(k.delayed, t), overflowed := Dropping(k.overflowed, t), forever := k.forever - {t},
       sched := R.AddReady(k.sched, t))
  }

  /** The first loop of xTaskResumeAll. */
  function ReadyPending(k: Kernel): Kernel
    decreases |k.pendingReady|
  {
    if k.pendingReady == [] then k
    else
      var t := k.pendingReady[0];
      ReadyPending(Unblock(k, t).(
        pendingReady := k.pendingReady[1..],
        yieldPending := k.yieldPending || PriorityOf(k.sched, t) >= PriorityOf(k.sched, k.sched.current)))
  }

  /** The second loop of xTaskResumeAll. */
  function ProcessPended(k: Kernel, n: nat): Kernel
    decreases n
  {
    if n == 0 then k
    else
      var r := Tick(k);
      ProcessPended(r.kernel.(yieldPending := r.kernel.yieldPending || r.switchRequired), n - 1)
  }

  datatype Resumed = Resumed(kernel: Kernel, alreadyYielded: bool)

  /** xTaskResumeAll; with nothing to resume its configASSERT stops the system. */
  function ResumeAll(k: Kernel): Resumed {
    if k.suspended != 1 then
      Resumed(k.(suspended := if k.suspended == 0 then 0 else k.suspended - 1), false)
    else
      var k1 := ReadyPending(k.(suspended := 0));
      var k2 := if k.pendingReady != [] then k1.(nextUnblock := ResetNextUnblock(k1.delayed)) else k1;
      var k3 := ProcessPended(k2, k2.pendedTicks).(pendedTicks := 0);
      Resumed(k3, k3.yieldPending)
  }

  // ----- deferred ticks are ticks -----

  /** The same kernel with other values in the two fields the tick code does not act on. */
  function Marked(k: Kernel, pended: nat, pending: bool): Kernel {
    k.(pendedTicks := pended, yieldPending := pending)
  }

  lemma {:induction false} DrainIgnoresMarks(k: Kernel, sw: bool, pended: nat, pending: bool)
    ensures Drain(Marked(k, pended, pending), sw)
            == Ticked(Marked(Drain(k, sw).kernel, pended, pending), Drain(k, sw).switchRequired)
    decreases |k.delayed|
  {
    if k.delayed != [] && k.tick >= k.delayed[0].wake {
      var t := k.delayed[0].task;
      DrainIgnoresMarks(
        k.(delayed := k.delayed[1..], sched := R.AddReady(k.sched, t)),
        sw || PriorityOf(k.sched, t) >= PriorityOf(k.sched, k.sched.current), pended, pending);
    }
  }

  /** A pending yield changes what a tick reports, and nothing that it does. */
  lemma TickIgnoresMarks(k: Kernel, pended: nat, pending: bool)
    requires k.suspended == 0 && !k.yieldPending
    ensures Tick(Marked(k, pended, pending))
            == Ticked(Marked(Tick(k).kernel, pended, pending), Tick(k).switchRequired || pending)
  {
    DrainIgnoresMarks(Advance(k), false, pended, pending);
    TickKeepsSuspension(k);
  }

  lemma {:induction false} ProcessPendedIs(k: Kernel, n: nat, pended: nat, pending: bool)
    requires k.suspended == 0 && !k.yieldPending
    ensures ProcessPended(Marked(k, pended, pending), n)
            == Marked(TickMany(k, n).kernel, pended, pending || TickMany(k, n).switchRequired)
    decreases n
  {
    if n > 0 {
      TickIgnoresMarks(k, pended, pending);
      TickKeepsSuspension(k);
      var first := Tick(k);
      ProcessPendedIs(first.kernel, n - 1, pended, pending || first.switchRequired);
    }
  }

  lemma {:induction false} TicksArePended(k: Kernel, n: nat)
    requires k.suspended > 0 && k.pendedTicks + n < WORD
    ensures TickMany(k, n).kernel == k.(pendedTicks := k.pendedTicks + n)
    decreases n
  {
    if n > 0 {
      Modular.ModUnique(k.pendedTicks + 1, 0, k.pendedTicks + 1, WORD);
      TicksArePended(Tick(k).kernel, n - 1);
    }
  }

  /**
    Suspending the scheduler, taking `n` ticks and resuming leaves the kernel that `n`
    immediate ticks leave; a context switch is made if one was pending or any of the
    immediate ticks would have asked for one; no pended tick is left over.
   */
  lemma DeferredTicksAreTicks(k: Kernel, n: nat)
    requires k.suspended == 0 && k.pendedTicks == 0 && k.pendingReady == [] && n < WORD
    ensures var now := TickMany(k.(yieldPending := false), n);
            var later := ResumeAll(TickMany(SuspendAll(k), n).kernel);
            && later.kernel == now.kernel.(yieldPending := later.alreadyYielded)
            && later.alreadyYielded == (k.yieldPending || now.switchRequired)
            && later.kernel.pendedTicks == 0
  {
    var calm := k.(yieldPending := false);
    TicksArePended(SuspendAll(k), n);
    ProcessPendedIs(calm, n, n, k.yieldPending);
    assert Marked(calm, n, k.yieldPending) == k.(pendedTicks := n);
    TickManyKeepsMarks(calm, n);
  }

  lemma {:induction false} TickManyKeepsMarks(k: Kernel, n: nat)
    requires k.suspended == 0
    ensures TickMany(k, n).kernel.pendedTicks == k.pendedTicks
    decreases n
  {
    if n > 0 {
      TickKeepsSuspension(k);
      TickManyKeepsMarks(Tick(k).kernel, n - 1);
    }
  }

  // ----- blocking the running task -----

  /** Put an item on the list its wake time belongs to: a wake time that wrapped is for the next turn. */
  function Delay(k: Kernel, e: Entry): Kernel {
    if e.wake < k.tick then k.(overflowed := InsertByWake(k.overflowed, e))
    else k.(delayed := InsertByWake(k.delayed, e), nextUnblock := if e.wake < k.nextUnblock then e.wake else k.nextUnblock)
  }

  function Unready(k: Kernel): Kernel {
    k.(sched := R.RemoveReady(k.sched, k.sched.current))
  }

  /** Put a task that is on no list where it is to wait. */
  function Park(k: Kernel, t: TaskId, ticks: nat, canBlockForever: bool): Kernel {
    if ticks == MAX_DELAY && canBlockForever then k.(forever := k.forever + {t})
    else Delay(k, Entry(t, (k.tick + ticks) % WORD))
  }

  /** prvAddCurrentTaskToDelayedList. */
  function Block(k: Kernel, ticks: nat, canBlockForever: bool): Kernel {
    Park(Unready(k), k.sched.current, ticks, canBlockForever)
  }

  lemma InsertedInOrder(list: seq<Entry>, at: nat, e: Entry, low: nat)
    requires InOrder(list, low) && low <= e.wake < WORD && at <= |list|
    requires forall i :: 0 <= i < at ==> list[i].wake <= e.wake
    requires forall i :: at <= i < |list| ==> list[i].wake > e.wake
    ensures InOrder(Insert(list, at, e), low)
  {
    InsertKeepsOrder(list, at, e, (x: Entry) => x.wake);
    InsertFacts(list, at, e);
  }

  lemma InsertByWakeKeepsOrder(list: seq<Entry>, e: Entry, low: nat)
    requires InOrder(list, low) && low <= e.wake < WORD
    ensures InOrder(InsertByWake(list, e), low)
    ensures InsertByWake(list, e)[0].wake == if list == [] || e.wake < list[0].wake then e.wake else list[0].wake
  {
    var at := InsertPosition(Wakes(list), e.wake);
    assert (forall i :: 0 <= i < at ==> list[i].wake <= e.wake) && (forall i :: at <= i < |list| ==> list[i].wake > e.wake) by {
      InsertPositionSplits(Wakes(list), e.wake);
      assert forall i :: 0 <= i < |list| ==> list[i].wake == Wakes(list)[i];
    }
    InsertedInOrder(list, at, e, low);
  }

  lemma InsertOnce(list: seq<Entry>, at: nat, e: Entry)
    requires Once(list) && !OnList(list, e.task) && at <= |list|
    ensures Once(Insert(list, at, e))
    ensures forall t :: OnList(Insert(list, at, e), t) <==> OnList(list, t) || t == e.task
  {
    var r := Insert(list, at, e);
    assert forall i :: 0 <= i < |r| ==> r[i] == if i < at then list[i] else if i == at then e else list[i - 1];
    assert r[at] == e;
    forall t
      ensures OnList(r, t) <==> OnList(list, t) || t == e.task
    {
      if i :| 0 <= i < |list| && list[i].task == t {
        assert r[if i < at then i else i + 1].task == t;
      }
    }
  }

  lemma InsertBlocked(s: R.Sched, list: seq<Entry>, at: nat, e: Entry)
    requires Blocked(s, list) && R.Known(s, e.task) && !R.IsReady(s, e.task) && at <= |list|
    ensures Blocked(s, Insert(list, at, e))
  {
    var r := Insert(list, at, e);
    assert forall i :: 0 <= i < |r| ==> r[i] == if i < at then list[i] else if i == at then e else list[i - 1];
  }

  lemma BlockedNotListed(k: Kernel, t: TaskId)
    requires Inv(k) && R.IsReady(k.sched, t)
    ensures !OnList(k.delayed + k.overflowed, t)
  {
  }

  lemma WakeTime(tick: nat, ticks: nat)
    requires tick < WORD && 0 < ticks < WORD
    ensures (tick + ticks) % WORD == if tick + ticks < WORD then tick + ticks else tick + ticks - WORD
  {
  }

  /** `r` holds the entries of `x` and one more. */
  ghost predicate OneMore(r: seq<Entry>, x: seq<Entry>, e: Entry) {
    exists at :: 0 <= at <= |x| && r == Insert(x, at, e)
  }

  lemma InsertByWakeBefore(x: seq<Entry>, y: seq<Entry>, e: Entry)
    ensures OneMore(InsertByWake(x, e) + y, x + y, e)
  {
    var at := InsertPosition(Wakes(x), e.wake);
    assert InsertByWake(x, e) + y == Insert(x + y, at, e);
  }

  lemma InsertByWakeAfter(x: seq<Entry>, y: seq<Entry>, e: Entry)
    ensures OneMore(x + InsertByWake(y, e), x + y, e)
  {
    var at := InsertPosition(Wakes(y), e.wake);
    assert x + InsertByWake(y, e) == Insert(x + y, |x| + at, e);
  }

  /** Where a delayed task ends up among all timed tasks. */
  lemma DelayLists(k: Kernel, e: Entry)
    requires OnTime(k.tick, k.delayed, k.overflowed, k.nextUnblock) && e.wake < WORD && e.wake != k.tick
    ensures var r := Delay(k, e);
            && OnTime(r.tick, r.delayed, r.overflowed, r.nextUnblock)
            && OneMore(r.delayed + r.overflowed, k.delayed + k.overflowed, e)
  {
    if e.wake < k.tick {
      InsertByWakeKeepsOrder(k.overflowed, e, 0);
      InsertByWakeAfter(k.delayed, k.overflowed, e);
    } else {
      InsertByWakeKeepsOrder(k.delayed, e, k.tick + 1);
      InsertByWakeBefore(k.delayed, k.overflowed, e);
    }
  }

  lemma InsertByWakeHas(list: seq<Entry>, e: Entry, x: Entry)
    ensures x in InsertByWake(list, e) <==> x in list || x == e
  {
    InsertFacts(list, InsertPosition(Wakes(list), e.wake), e);
  }

  lemma InsertedAsleep(list: seq<Entry>, e: Entry, base: nat, t: TaskId, at: nat)
    ensures Asleep(InsertByWake(list, e), base, t, at) <==> Asleep(list, base, t, at) || (t == e.task && at == base + e.wake)
  {
    if base <= at {
      InsertByWakeHas(list, e, Entry(t, at - base));
    }
  }

  lemma DelaySleeper(k: Kernel, e: Entry, t: TaskId, at: nat)
    ensures SleepsUntil(Delay(k, e), t, at) <==>
              || SleepsUntil(k, t, at)
              || (t == e.task && at == (if e.wake < k.tick then k.overflows + 1 else k.overflows) * WORD + e.wake)
  {
    InsertedAsleep(k.overflowed, e, (k.overflows + 1) * WORD, t, at);
    InsertedAsleep(k.delayed, e, k.overflows * WORD, t, at);
  }

  /** A wake time that is not after the tick count belongs to the next turn. */
  lemma WakeMoment(overflows: nat, tick: nat, ticks: nat)
    requires tick < WORD && 0 < ticks < WORD
    ensures var wake := (tick + ticks) % WORD;
            (if wake < tick then overflows + 1 else overflows) * WORD + wake == overflows * WORD + tick + ticks
  {
    WakeTime(tick, ticks);
  }

  /** Blocking for `ticks` ticks adds one sleeper, due exactly `ticks` ticks from now. */
  lemma BlockSleeper(k: Kernel, ticks: nat, t: TaskId, at: nat)
    requires k.tick < WORD && 0 < ticks < WORD
    ensures SleepsUntil(Block(k, ticks, false), t, at)
            <==> SleepsUntil(k, t, at) || (t == k.sched.current && at == Now(k) + ticks)
  {
    var u := Unready(k);
    assert Block(k, ticks, false) == Delay(u, Entry(k.sched.current, (u.tick + ticks) % WORD));
    UnreadySleeper(k, t, at);
    DelayFor(u, k.sched.current, ticks, t, at);
  }

  lemma UnreadySleeper(k: Kernel, t: TaskId, at: nat)
    ensures Now(Unready(k)) == Now(k) && (SleepsUntil(Unready(k), t, at) <==> SleepsUntil(k, t, at))
  {
  }

  lemma DelayFor(k: Kernel, u: TaskId, ticks: nat, t: TaskId, at: nat)
    requires k.tick < WORD && 0 < ticks < WORD
    ensures SleepsUntil(Delay(k, Entry(u, (k.tick + ticks) % WORD)), t, at)
            <==> SleepsUntil(k, t, at) || (t == u && at == Now(k) + ticks)
  {
    WakeMoment(k.overflows, k.tick, ticks);
    DelaySleeper(k, Entry(u, (k.tick + ticks) % WORD), t, at);
  }

  /** A task that is nowhere: known, not ready, on neither delayed list. */
  ghost predicate Loose(k: Kernel, t: TaskId) {
    R.Known(k.sched, t) && !R.IsReady(k.sched, t) && !OnList(k.delayed + k.overflowed, t)
  }

  lemma DelayKeepsInv(k: Kernel, e: Entry)
    requires Inv(k) && Loose(k, e.task) && e.wake < WORD && e.wake != k.tick
    ensures Inv(Delay(k, e))
    ensures forall t :: OnList(Delay(k, e).delayed + Delay(k, e).overflowed, t) <==>
                          OnList(k.delayed + k.overflowed, t) || t == e.task
  {
    var r := Delay(k, e);
    var all := k.delayed + k.overflowed;
    DelayLists(k, e);
    var at :| 0 <= at <= |all| && r.delayed + r.overflowed == Insert(all, at, e);
    InsertOnce(all, at, e);
    InsertBlocked(k.sched, all, at, e);
  }

  lemma UnreadyKeepsInv(k: Kernel)
    requires Inv(k) && R.IsReady(k.sched, k.sched.current)
    ensures Inv(Unready(k))
    ensures Loose(Unready(k), k.sched.current)
  {
    R.RemoveReadyKeeps(k.sched, k.sched.current);
    BlockedNotListed(k, k.sched.current);
  }

  // ----- unblocking for any other reason -----

  lemma {:induction false} DroppingHas(list: seq<Entry>, u: TaskId, e: Entry)
    ensures e in Dropping(list, u) <==> e in list && e.task != u
  {
    if list != [] {
      DroppingHas(list[1..], u, e);
      assert list == [list[0]] + list[1..];
    }
  }

  lemma {:induction false} DroppingConcat(x: seq<Entry>, y: seq<Entry>, u: TaskId)
    ensures Dropping(x + y, u) == Dropping(x, u) + Dropping(y, u)
  {
    if x == [] {
      assert x + y == y;
    } else {
      var h, rest := x[0], x[1..];
      DroppingConcat(rest, y, u);
      DroppingHead(h, rest + y, u);
      DroppingHead(h, rest, u);
      assert x + y == [h] + (rest + y) && x == [h] + rest;
    }
  }

  lemma DroppingHead(h: Entry, rest: seq<Entry>, u: TaskId)
    ensures Dropping([h] + rest, u) == (if h.task == u then [] else [h]) + Dropping(rest, u)
  {
    assert ([h] + rest)[1..] == rest;
  }

  lemma {:induction false} DroppingKeepsOrder(list: seq<Entry>, u: TaskId, low: nat)
    requires InOrder(list, low)
    ensures InOrder(Dropping(list, u), low)
    ensures Dropping(list, u) != [] ==> Dropping(list, u)[0].wake >= list[0].wake
  {
    if list != [] {
      SuffixInOrder(list, 1, low);
      DroppingKeepsOrder(list[1..], u, low);
      var rest := Dropping(list[1..], u);
      if rest != [] {
        assert rest[0].wake >= list[1].wake >= list[0].wake;
        assert forall i :: 0 <= i < |rest| ==> rest[0].wake <= rest[i].wake;
      }
      if list[0].task != u {
        var r := [list[0]] + rest;
        assert forall i :: 1 <= i < |r| ==> r[i] == rest[i - 1];
      }
    }
  }

  lemma {:induction false} DroppingOnce(s: R.Sched, list: seq<Entry>, u: TaskId)
    requires Once(list) && Blocked(s, list)
    ensures Once(Dropping(list, u)) && Blocked(s, Dropping(list, u))
    ensures forall t :: OnList(Dropping(list, u), t) <==> OnList(list, t) && t != u
  {
    if list != [] {
      var rest := list[1..];
      assert forall i :: 0 <= i < |rest| ==> rest[i] == list[i + 1];
      DroppingOnce(s, rest, u);
      assert !OnList(rest, list[0].task);
      ConsOnList(list[0], rest);
      assert list == [list[0]] + rest;
      if list[0].task != u {
        ConsOnList(list[0], Dropping(rest, u));
        var r := [list[0]] + Dropping(rest, u);
        assert Once(r) by {
          assert forall j :: 1 <= j < |r| ==> r[j] == Dropping(rest, u)[j - 1];
          assert forall j :: 0 <= j < |Dropping(rest, u)| ==> OnList(Dropping(rest, u), Dropping(rest, u)[j].task);
        }
      }
    }
  }

  lemma ConsOnList(e: Entry, rest: seq<Entry>)
    ensures forall t :: OnList([e] + rest, t) <==> t == e.task || OnList(rest, t)
  {
    var list := [e] + rest;
    assert list[0] == e;
    forall t
      ensures OnList(list, t) <==> t == e.task || OnList(rest, t)
    {
      if i :| 0 <= i < |rest| && rest[i].task == t {
        assert list[i + 1].task == t;
      }
      if OnList(list, t) {
        var i :| 0 <= i < |list| && list[i].task == t;
        assert i > 0 ==> rest[i - 1].task == t;
      }
    }
  }

  lemma UnblockSleeper(k: Kernel, u: TaskId, t: TaskId, at: nat)
    ensures SleepsUntil(Unblock(k, u), t, at) <==> SleepsUntil(k, t, at) && t != u
  {
    if k.overflows * WORD <= at {
      DroppingHas(k.delayed, u, Entry(t, at - k.overflows * WORD));
    }
    if (k.overflows + 1) * WORD <= at {
      DroppingHas(k.overflowed, u, Entry(t, at - (k.overflows + 1) * WORD));
    }
  }

  lemma UnblockKeepsTime(k: Kernel, u: TaskId)
    requires OnTime(k.tick, k.delayed, k.overflowed, k.nextUnblock)
    ensures var r := Unblock(k, u); OnTime(r.tick, r.delayed, r.overflowed, r.nextUnblock)
  {
    DroppingKeepsOrder(k.delayed, u, k.tick + 1);
    DroppingKeepsOrder(k.overflowed, u, 0);
    if k.delayed == [] {
      assert Dropping(k.delayed, u) == [];
    }
  }

  lemma UnblockKeepsInv(k: Kernel, u: TaskId)
    requires Inv(k) && R.Known(k.sched, u) && !R.IsReady(k.sched, u)
    ensures Inv(Unblock(k, u))
    ensures forall t :: OnList(Unblock(k, u).delayed + Unblock(k, u).overflowed, t) <==>
                          OnList(k.delayed + k.overflowed, t) && t != u
    ensures forall t :: R.IsReady(Unblock(k, u).sched, t) <==> R.IsReady(k.sched, t) || t == u
  {
    UnblockKeepsTime(k, u);
    DroppingConcat(k.delayed, k.overflowed, u);
    DroppingOnce(k.sched, k.delayed + k.overflowed, u);
    R.AddReadyKeeps(k.sched, u);
    var r := Unblock(k, u);
    var all := r.delayed + r.overflowed;
    assert forall i :: 0 <= i < |all| ==> OnList(all, all[i].task);
  }
}
