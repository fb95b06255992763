/**
  The blocking protocol of FreeRTOS/Source/queue.c: tasks and interrupts that share one
  queue (or semaphore), the wait lists, and the two lock counts that stand in for the wait
  lists while a task is about to block.

  A state step is one critical section or one interrupt handler, so every interleaving the
  hardware can produce is some sequence of `Event`s.
 */
module QueueWaiting {
  import opened Shared
  import opened CursorList

  /** The task-level call in progress. Receive also stands for xQueueSemaphoreTake. */
  datatype Op = Send | Overwrite | Receive | Peek
  {
    predicate Reads() {
      Receive? || Peek?
    }

    predicate Blocks() {
      !Overwrite?
    }
  }

  /** What a task that locked the queue does once it has unlocked it again. */
  datatype Outcome = Placed | Retry | Expired

  /** Where a task is inside xQueueGenericSend, xQueueReceive or xQueuePeek. */
  datatype Phase =
    | Outside
    | Checking(op: Op)                       // about to run the critical section at the loop top
    | Locking(op: Op)                        // check failed, about to suspend and lock
    | Testing(op: Op)                        // locked, about to test the timeout and the count
    | Placing(op: Op)                        // found full/empty, about to join the wait list
    | UnlockingTx(op: Op, outcome: Outcome)  // first critical section of prvUnlockQueue
    | UnlockingRx(op: Op, outcome: Outcome)  // second critical section of prvUnlockQueue
    | Resuming(op: Op, outcome: Outcome)     // about to call xTaskResumeAll
    | Waiting(op: Op)                        // blocked while listed, runnable once unlisted
    | LastLook(op: Op)                       // timed out, tests the count once more
  {
    /** The scheduler is suspended by the task in this phase. */
    predicate Suspends() {
      Testing? || Placing? || UnlockingTx? || UnlockingRx? || Resuming?
    }

    /** The task has called vTaskPlaceOnEventList and not yet re-run its check. */
    predicate Parked(reading: bool) {
      match this
      case Waiting(op) => op.Blocks() && op.Reads() == reading
      case UnlockingTx(op, out) => out.Placed? && op.Blocks() && op.Reads() == reading
      case UnlockingRx(op, out) => out.Placed? && op.Blocks() && op.Reads() == reading
      case Resuming(op, out) => out.Placed? && op.Blocks() && op.Reads() == reading
      case _ => false
    }
  }

  type Phases = map<TaskId, Phase>

  function PhaseIn(phases: Phases, t: TaskId): Phase {
    if t in phases then phases[t] else Outside
  }

  const UNLOCKED: int := -1
  const INT8_MAX: int := 127

  /**
    `wokenReceivers` and `wokenSenders` record the tasks that an event took off a wait list
    and that have not re-run their check; the source has no such variable.
   */
  datatype State = State(
    length: nat,
    count: nat,
    cRxLock: int,
    cTxLock: int,
    toReceive: seq<TaskId>,
    toSend: seq<TaskId>,
    wokenReceivers: set<TaskId>,
    wokenSenders: set<TaskId>,
    suspender: Option<TaskId>,
    phases: Phases,
    halted: bool)
  {
    function PhaseOf(t: TaskId): Phase {
      PhaseIn(phases, t)
    }

    function Move(t: TaskId, p: Phase): State {
      this.(phases := phases[t := p])
    }

    /** No task of another identity runs while the scheduler is suspended. */
    predicate MayRun(t: TaskId) {
      suspender == None || suspender == Some(t)
    }
  }

  function Created(length: nat): State {
    State(length, 0, UNLOCKED, UNLOCKED, [], [], {}, {}, None, map[], false)
  }

  datatype Event =
    | Call(t: TaskId, op: Op)
    | Check(t: TaskId, mayBlock: bool)
    | Lock(t: TaskId)
    | Test(t: TaskId, expired: bool)
    | Place(t: TaskId, at: nat)        // `at` is wherever vListInsert puts the task
    | UnlockTx(t: TaskId)
    | UnlockRx(t: TaskId)
    | Resume(t: TaskId)
    | Look(t: TaskId)
    | Timeout(t: TaskId)               // the tick interrupt takes the task off its wait list
    | IsrSend(overwrite: bool)
    | IsrReceive

  predicate Enabled(s: State, e: Event) {
    && !s.halted
    && match e
       case Call(t, op) => s.MayRun(t) && s.PhaseOf(t) == Outside && (op.Overwrite? ==> s.length == 1)
       case Check(t, _) =>
         && s.MayRun(t)
         && (s.PhaseOf(t).Checking? || (s.PhaseOf(t).Waiting? && t !in s.toReceive && t !in s.toSend))
       case Lock(t) => s.suspender == None && s.PhaseOf(t).Locking?
       case Test(t, _) => s.PhaseOf(t).Testing?
       case Place(t, at) =>
         && s.PhaseOf(t).Placing?
         && at <= (if s.PhaseOf(t).op.Reads() then |s.toReceive| else |s.toSend|)
       case UnlockTx(t) => s.PhaseOf(t).UnlockingTx?
       case UnlockRx(t) => s.PhaseOf(t).UnlockingRx?
       case Resume(t) => s.PhaseOf(t).Resuming?
       case Look(t) => s.MayRun(t) && s.PhaseOf(t).LastLook?
       case Timeout(t) => s.suspender == None && (t in s.toReceive || t in s.toSend)
       case IsrSend(overwrite) => overwrite ==> s.length == 1
       case IsrReceive => true
  }

  /** xTaskRemoveFromEventList on xTasksWaitingToReceive, guarded by listLIST_IS_EMPTY. */
  function WakeReceiver(s: State): State {
    if s.toReceive == [] then s
    else s.(toReceive := s.toReceive[1..], wokenReceivers := s.wokenReceivers + {s.toReceive[0]})
  }

  function WakeSender(s: State): State {
    if s.toSend == [] then s
    else s.(toSend := s.toSend[1..], wokenSenders := s.wokenSenders + {s.toSend[0]})
  }

  /** The loops of prvUnlockQueue: replay `n` counted events, stopping when nobody waits. */
  function WakeReceivers(s: State, n: nat): State
    decreases n
  {
    if n == 0 || s.toReceive == [] then s else WakeReceivers(WakeReceiver(s), n - 1)
  }

  function WakeSenders(s: State, n: nat): State
    decreases n
  {
    if n == 0 || s.toSend == [] then s else WakeSenders(WakeSender(s), n - 1)
  }

  function CountAfterSend(s: State, overwrite: bool): nat {
    if overwrite && s.count > 0 then s.count else s.count + 1
  }

  /** The task is about to re-run its check: its wake-up, if it had one, is used up. */
  function Forget(s: State, t: TaskId): State {
    s.(wokenReceivers := s.wokenReceivers - {t}, wokenSenders := s.wokenSenders - {t})
  }

  /** The check succeeded and left `n` messages; whom to wake is still to be done. */
  function Served(s: State, t: TaskId, n: nat): State {
    Forget(s, t).Move(t, Outside).(count := n)
  }

  /** The critical section at the top of the retry loops. */
  function ApplyCheck(s: State, t: TaskId, op: Op, mayBlock: bool): State {
    var failed := Forget(s, t).Move(t, if mayBlock then Locking(op) else Outside);
    match op
    case Send => if s.count < s.length then WakeReceiver(Served(s, t, s.count + 1)) else failed
    case Overwrite => WakeReceiver(Served(s, t, CountAfterSend(s, true)))
    case Receive => if s.count > 0 then WakeSender(Served(s, t, s.count - 1)) else failed
    case Peek => if s.count > 0 then WakeReceiver(Served(s, t, s.count)) else failed
  }

  function ApplyIsrSend(s: State, overwrite: bool): State {
    if !(s.count < s.length || overwrite) then s
    else
      var s1 := s.(count := CountAfterSend(s, overwrite));
      if s.cTxLock == UNLOCKED then WakeReceiver(s1)
      else if s.cTxLock == INT8_MAX then s1.(halted := true)
      else s1.(cTxLock := s.cTxLock + 1)
  }

  function ApplyIsrReceive(s: State): State {
    if s.count == 0 then s
    else
      var s1 := s.(count := s.count - 1);
      if s.cRxLock == UNLOCKED then WakeSender(s1)
      else if s.cRxLock == INT8_MAX then s1.(halted := true)
      else s1.(cRxLock := s.cRxLock + 1)
  }

  function LockFrom(lock: int): int {
    if lock == UNLOCKED then 0 else lock
  }

  function Max0(n: int): nat {
    if n > 0 then n else 0
  }

  function ApplyTest(s: State, t: TaskId, op: Op, expired: bool): State {
    var stuck := if op.Reads() then s.count == 0 else s.count == s.length;
    s.Move(t, if expired then UnlockingTx(op, Expired)
              else if stuck then Placing(op)
              else UnlockingTx(op, Retry))
  }

  function ApplyPlace(s: State, t: TaskId, op: Op, at: nat): State
    requires at <= (if op.Reads() then |s.toReceive| else |s.toSend|)
  {
    var s1 := s.Move(t, UnlockingTx(op, Placed));
    if op.Reads() then s1.(toReceive := Insert(s.toReceive, at, t))
    else s1.(toSend := Insert(s.toSend, at, t))
  }

  function ApplyResume(s: State, t: TaskId, op: Op, outcome: Outcome): State {
    s.(suspender := None).Move(t,
      match outcome
      case Placed => Waiting(op)
      case Retry => Checking(op)
      case Expired => if op.Reads() then LastLook(op) else Outside)
  }

  function Apply(s: State, e: Event): State
    requires Enabled(s, e)
  {
    match e
    case Call(t, op) => s.Move(t, Checking(op))
    case Check(t, mayBlock) => ApplyCheck(s, t, s.PhaseOf(t).op, mayBlock)
    case Lock(t) =>
      s.(suspender := Some(t), cRxLock := LockFrom(s.cRxLock), cTxLock := LockFrom(s.cTxLock))
       .Move(t, Testing(s.PhaseOf(t).op))
    case Test(t, expired) => ApplyTest(s, t, s.PhaseOf(t).op, expired)
    case Place(t, at) => ApplyPlace(s, t, s.PhaseOf(t).op, at)
    case UnlockTx(t) =>
      WakeReceivers(s, Max0(s.cTxLock)).(cTxLock := UNLOCKED)
        .Move(t, UnlockingRx(s.PhaseOf(t).op, s.PhaseOf(t).outcome))
    case UnlockRx(t) =>
      WakeSenders(s, Max0(s.cRxLock)).(cRxLock := UNLOCKED)
        .Move(t, Resuming(s.PhaseOf(t).op, s.PhaseOf(t).outcome))
    case Resume(t) => ApplyResume(s, t, s.PhaseOf(t).op, s.PhaseOf(t).outcome)
    case Look(t) => s.Move(t, if s.count == 0 then Outside else Checking(s.PhaseOf(t).op))
    case Timeout(t) => s.(toReceive := Without(s.toReceive, t), toSend := Without(s.toSend, t))
    case IsrSend(overwrite) => ApplyIsrSend(s, overwrite)
    case IsrReceive => ApplyIsrReceive(s)
  }

  // ----- the invariant -----

  /** Wait list and woken set are disjoint and hold only parked tasks of one direction. */
  ghost predicate Bookkept(phases: Phases, list: seq<TaskId>, woken: set<TaskId>, reading: bool) {
    && Distinct(list)
    && (forall t :: t in list ==> PhaseIn(phases, t).Parked(reading) && t !in woken)
    && (forall t :: t in woken ==> PhaseIn(phases, t).Parked(reading))
  }

  /** Only the suspending task is in a locked phase, and its phase fixes which locks are set. */
  ghost predicate LocksMatchPhase(phases: Phases, suspender: Option<TaskId>, cTxLock: int, cRxLock: int) {
    && (forall t :: PhaseIn(phases, t).Suspends() ==> suspender == Some(t))
    && (suspender == None ==> cTxLock == UNLOCKED && cRxLock == UNLOCKED)
    && (suspender.Some? ==> LockedAs(PhaseIn(phases, suspender.value), cTxLock, cRxLock))
  }

  ghost predicate LockedAs(p: Phase, cTxLock: int, cRxLock: int) {
    && p.Suspends()
    && (if p.Testing? || p.Placing? || p.UnlockingTx? then 0 <= cTxLock <= INT8_MAX else cTxLock == UNLOCKED)
    && (if p.Resuming? then cRxLock == UNLOCKED else 0 <= cRxLock <= INT8_MAX)
  }

  /** An overwriting send never gets past its check, and is only made on a queue of length 1. */
  ghost predicate OpsMatchPhase(phases: Phases, length: nat) {
    forall t :: PhaseIn(phases, t) != Outside ==>
      if PhaseIn(phases, t).Checking? then PhaseIn(phases, t).op.Overwrite? ==> length == 1
      else PhaseIn(phases, t).op.Blocks()
  }

  /** Some task is on, or is committed to joining, the list for this direction. */
  ghost predicate Awaited(s: State, reading: bool) {
    || (if reading then s.toReceive != [] else s.toSend != [])
    || (s.suspender.Some? && s.PhaseOf(s.suspender.value).Placing? && s.PhaseOf(s.suspender.value).op.Reads() == reading)
  }

  ghost predicate Covered(s: State) {
    && (Awaited(s, true) ==> s.count <= |s.wokenReceivers| + Max0(s.cTxLock))
    && (Awaited(s, false) ==> s.length - s.count <= |s.wokenSenders| + Max0(s.cRxLock))
  }

  ghost predicate Shape(s: State) {
    && 1 <= s.length
    && s.count <= s.length
    && OpsMatchPhase(s.phases, s.length)
    && Bookkept(s.phases, s.toReceive, s.wokenReceivers, true)
    && Bookkept(s.phases, s.toSend, s.wokenSenders, false)
    && LocksMatchPhase(s.phases, s.suspender, s.cTxLock, s.cRxLock)
  }

  ghost predicate Inv(s: State) {
    s.halted || (Shape(s) && Covered(s))
  }

  /**
    The promise: a listed receiver leaves no message unaccounted for, and a listed sender
    leaves no free slot unaccounted for.
   */
  ghost predicate NoLostWakeUp(s: State) {
    && (s.toReceive != [] ==> s.count <= |s.wokenReceivers| + Max0(s.cTxLock))
    && (s.toSend != [] ==> s.length - s.count <= |s.wokenSenders| + Max0(s.cRxLock))
  }

  // ----- preservation, one event kind at a time -----

  lemma WakeReceiverKeeps(s: State)
    requires Shape(s)
    ensures Shape(WakeReceiver(s))
    ensures WakeReceiver(s).toReceive != [] ==> |WakeReceiver(s).wokenReceivers| == |s.wokenReceivers| + 1
  {
    if s.toReceive != [] {
      var r := WakeReceiver(s);
      var t := s.toReceive[0];
      assert t in s.toReceive && PhaseIn(s.phases, t) == PhaseIn(r.phases, t);
      DeleteFacts(s.toReceive, 0);
      assert r.toReceive == Delete(s.toReceive, 0);
    }
  }

  lemma WakeSenderKeeps(s: State)
    requires Shape(s)
    ensures Shape(WakeSender(s))
    ensures WakeSender(s).toSend != [] ==> |WakeSender(s).wokenSenders| == |s.wokenSenders| + 1
  {
    if s.toSend != [] {
      var r := WakeSender(s);
      var t := s.toSend[0];
      assert t in s.toSend && PhaseIn(s.phases, t) == PhaseIn(r.phases, t);
      DeleteFacts(s.toSend, 0);
      assert r.toSend == Delete(s.toSend, 0);
    }
  }

  lemma {:induction false} WakeReceiversKeeps(s: State, n: nat)
    requires Shape(s)
    ensures var r := WakeReceivers(s, n);
            && Shape(r)
            && r == s.(toReceive := r.toReceive, wokenReceivers := r.wokenReceivers)
            && (r.toReceive != [] ==> |r.wokenReceivers| == |s.wokenReceivers| + n)
    decreases n
  {
    if n != 0 && s.toReceive != [] {
      WakeReceiverKeeps(s);
      WakeReceiversKeeps(WakeReceiver(s), n - 1);
      if WakeReceiver(s).toReceive == [] {
        assert WakeReceivers(WakeReceiver(s), n - 1) == WakeReceiver(s);
      }
    }
  }

  lemma {:induction false} WakeSendersKeeps(s: State, n: nat)
    requires Shape(s)
    ensures var r := WakeSenders(s, n);
            && Shape(r)
            && r == s.(toSend := r.toSend, wokenSenders := r.wokenSenders)
            && (r.toSend != [] ==> |r.wokenSenders| == |s.wokenSenders| + n)
    decreases n
  {
    if n != 0 && s.toSend != [] {
      WakeSenderKeeps(s);
      WakeSendersKeeps(WakeSender(s), n - 1);
      if WakeSender(s).toSend == [] {
        assert WakeSenders(WakeSender(s), n - 1) == WakeSender(s);
      }
    }
  }

  /** Moving a task that is on no list into a phase that is not locked keeps the shape. */
  lemma MoveKeepsShape(s: State, t: TaskId, p: Phase)
    requires Shape(s) && s.suspender == None && t !in s.toReceive && t !in s.toSend
    requires p == Outside || (p.Locking? && p.op.Blocks())
    ensures Shape(Forget(s, t).Move(t, p))
  {
    var r := Forget(s, t).Move(t, p);
    assert r.PhaseOf(t) == p;
    assert forall u :: u != t ==> PhaseIn(r.phases, u) == PhaseIn(s.phases, u);
  }

  lemma CheckForgets(s: State, t: TaskId)
    requires Shape(s) && (s.PhaseOf(t).Checking? || s.PhaseOf(t).Waiting?)
    ensures |Forget(s, t).wokenReceivers| >= |s.wokenReceivers| - (if s.PhaseOf(t).op.Reads() then 1 else 0)
    ensures |Forget(s, t).wokenSenders| >= |s.wokenSenders| - (if s.PhaseOf(t).op.Reads() then 0 else 1)
    ensures s.PhaseOf(t).op.Overwrite? ==> Forget(s, t) == s
  {
    if t !in s.wokenReceivers {
      assert Forget(s, t).wokenReceivers == s.wokenReceivers;
    }
    if t !in s.wokenSenders {
      assert Forget(s, t).wokenSenders == s.wokenSenders;
    }
  }

  lemma CountKeepsShape(s: State, n: nat)
    requires Shape(s) && n <= s.length
    ensures Shape(s.(count := n))
  {
  }

  /** What Enabled(s, Check(t, _)) amounts to in a state of the right shape. */
  ghost predicate AtCheck(s: State, t: TaskId) {
    && s.suspender == None
    && t !in s.toReceive
    && t !in s.toSend
    && (s.PhaseOf(t).Checking? || s.PhaseOf(t).Waiting?)
  }

  lemma CheckFailed(s: State, t: TaskId, mayBlock: bool)
    requires Shape(s) && Covered(s) && AtCheck(s, t) && s.PhaseOf(t).op.Blocks()
    requires if s.PhaseOf(t).op.Reads() then s.count == 0 else s.count == s.length
    ensures Inv(ApplyCheck(s, t, s.PhaseOf(t).op, mayBlock))
  {
    var op := s.PhaseOf(t).op;
    var p := if mayBlock then Locking(op) else Outside;
    var r := Forget(s, t).Move(t, p);
    assert Shape(r) by { MoveKeepsShape(s, t, p); }
    assert Covered(r) by {
      CheckForgets(s, t);
      FailCovers(s, r, op.Reads());
    }
  }

  /** Nothing was moved: there was nothing to receive, or no room to send to. */
  lemma FailCovers(s: State, r: State, reading: bool)
    requires Covered(s) && s.suspender == None && r.suspender == None
    requires r.length == s.length && r.count == s.count == if reading then 0 else s.length
    requires r.cTxLock == s.cTxLock && r.cRxLock == s.cRxLock && r.toReceive == s.toReceive && r.toSend == s.toSend
    requires if reading then |r.wokenSenders| >= |s.wokenSenders| else |r.wokenReceivers| >= |s.wokenReceivers|
    ensures Covered(r)
  {
  }

  /** A message went in: one more receiver is woken, or none waits any more. */
  lemma PutCovers(s: State, r: State)
    requires Covered(s) && s.suspender == None && r.suspender == None
    requires r.length == s.length && s.count <= r.count <= s.count + 1
    requires r.cTxLock == s.cTxLock && r.cRxLock == s.cRxLock
    requires r.toReceive != [] ==> s.toReceive != [] && |r.wokenReceivers| >= |s.wokenReceivers| + 1
    requires r.toSend == s.toSend && |r.wokenSenders| >= |s.wokenSenders| - (r.count - s.count)
    ensures Covered(r)
  {
  }

  /** A message came out: one more sender is woken, or none waits any more. */
  lemma TakeCovers(s: State, r: State)
    requires Covered(s) && s.suspender == None && r.suspender == None
    requires r.length == s.length && r.count == s.count - 1
    requires r.cTxLock == s.cTxLock && r.cRxLock == s.cRxLock
    requires r.toSend != [] ==> s.toSend != [] && |r.wokenSenders| >= |s.wokenSenders| + 1
    requires r.toReceive == s.toReceive && |r.wokenReceivers| >= |s.wokenReceivers| - 1
    ensures Covered(r)
  {
  }

  lemma ServedKeepsShape(s: State, t: TaskId, n: nat)
    requires Shape(s) && s.suspender == None && t !in s.toReceive && t !in s.toSend && n <= s.length
    ensures Shape(Served(s, t, n))
  {
    MoveKeepsShape(s, t, Outside);
    CountKeepsShape(Forget(s, t).Move(t, Outside), n);
  }

  /** A message is written by the check, in place of another one only when overwriting. */
  lemma CheckPuts(s: State, t: TaskId, n: nat)
    requires Shape(s) && Covered(s) && AtCheck(s, t) && s.count <= n <= s.length
    requires if s.PhaseOf(t).op.Overwrite? then n <= s.count + 1 else s.PhaseOf(t).op.Send? && n == s.count + 1
    ensures Inv(WakeReceiver(Served(s, t, n)))
  {
    var q := Served(s, t, n);
    var r := WakeReceiver(q);
    assert Shape(r) && (r.toReceive != [] ==> |r.wokenReceivers| == |q.wokenReceivers| + 1) by {
      ServedKeepsShape(s, t, n);
      WakeReceiverKeeps(q);
    }
    assert Covered(r) by {
      CheckForgets(s, t);
      PutCovers(s, r);
    }
  }

  lemma CheckTakes(s: State, t: TaskId, mayBlock: bool)
    requires Shape(s) && Covered(s) && AtCheck(s, t) && s.PhaseOf(t).op.Receive? && s.count > 0
    ensures Inv(ApplyCheck(s, t, s.PhaseOf(t).op, mayBlock))
  {
    var q := Served(s, t, s.count - 1);
    var r := WakeSender(q);
    assert Shape(r) && (r.toSend != [] ==> |r.wokenSenders| == |q.wokenSenders| + 1) by {
      ServedKeepsShape(s, t, s.count - 1);
      WakeSenderKeeps(q);
    }
    assert Covered(r) by {
      CheckForgets(s, t);
      TakeCovers(s, r);
    }
  }

  /** A peek hands the wake-up on, because the message stays in the queue. */
  lemma CheckPeeks(s: State, t: TaskId, mayBlock: bool)
    requires Shape(s) && Covered(s) && AtCheck(s, t) && s.PhaseOf(t).op.Peek? && s.count > 0
    ensures Inv(ApplyCheck(s, t, s.PhaseOf(t).op, mayBlock))
  {
    var q := Served(s, t, s.count);
    assert Shape(q) by { ServedKeepsShape(s, t, s.count); }
    CheckForgets(s, t);
    WakeReceiverKeeps(q);
  }

  lemma CheckWrites(s: State, t: TaskId, mayBlock: bool)
    requires Shape(s) && Covered(s) && AtCheck(s, t) && !s.PhaseOf(t).op.Reads()
    ensures Inv(ApplyCheck(s, t, s.PhaseOf(t).op, mayBlock))
  {
    if s.PhaseOf(t).op.Overwrite? {
      CheckPuts(s, t, CountAfterSend(s, true));
    } else if s.count < s.length {
      CheckPuts(s, t, s.count + 1);
    } else {
      CheckFailed(s, t, mayBlock);
    }
  }

  lemma CheckReads(s: State, t: TaskId, mayBlock: bool)
    requires Shape(s) && Covered(s) && AtCheck(s, t) && s.PhaseOf(t).op.Reads()
    ensures Inv(ApplyCheck(s, t, s.PhaseOf(t).op, mayBlock))
  {
    if s.count == 0 {
      CheckFailed(s, t, mayBlock);
    } else if s.PhaseOf(t).op.Receive? {
      CheckTakes(s, t, mayBlock);
    } else {
      CheckPeeks(s, t, mayBlock);
    }
  }

  /** A task re-running its check gives up its own wake-up and nobody else's. */
  lemma CheckKeeps(s: State, t: TaskId, mayBlock: bool)
    requires Shape(s) && Covered(s) && Enabled(s, Check(t, mayBlock))
    ensures Inv(Apply(s, Check(t, mayBlock)))
  {
    if s.PhaseOf(t).op.Reads() {
      CheckReads(s, t, mayBlock);
    } else {
      CheckWrites(s, t, mayBlock);
    }
  }

  // ----- the locked part of the retry loops -----

  /** The suspending task moves between two phases that both hold the scheduler. */
  lemma LockedMoveKeepsShape(s: State, r: State, t: TaskId)
    requires Shape(s) && s.suspender == Some(t)
    requires r == s.(cRxLock := r.cRxLock, cTxLock := r.cTxLock, phases := s.phases[t := r.PhaseOf(t)])
    requires r.PhaseOf(t).Suspends() && r.PhaseOf(t).op.Blocks()
    requires s.PhaseOf(t).Parked(true) ==> r.PhaseOf(t).Parked(true)
    requires s.PhaseOf(t).Parked(false) ==> r.PhaseOf(t).Parked(false)
    requires LockedAs(r.PhaseOf(t), r.cTxLock, r.cRxLock)
    ensures Shape(r)
  {
    assert forall u :: u != t ==> PhaseIn(r.phases, u) == PhaseIn(s.phases, u);
  }

  lemma LockKeeps(s: State, t: TaskId)
    requires Shape(s) && Covered(s) && Enabled(s, Lock(t))
    ensures Inv(Apply(s, Lock(t)))
  {
    var r := Apply(s, Lock(t));
    assert forall u :: u != t ==> PhaseIn(r.phases, u) == PhaseIn(s.phases, u);
  }

  lemma TestKeeps(s: State, t: TaskId, expired: bool)
    requires Shape(s) && Covered(s) && Enabled(s, Test(t, expired))
    ensures Inv(Apply(s, Test(t, expired)))
  {
    var r := Apply(s, Test(t, expired));
    LockedMoveKeepsShape(s, r, t);
  }

  lemma UnlockTxKeeps(s: State, t: TaskId)
    requires Shape(s) && Covered(s) && Enabled(s, UnlockTx(t))
    ensures Inv(Apply(s, UnlockTx(t)))
  {
    var n := Max0(s.cTxLock);
    var w := WakeReceivers(s, n);
    WakeReceiversKeeps(s, n);
    LockedMoveKeepsShape(w, Apply(s, UnlockTx(t)), t);
  }

  lemma UnlockRxKeeps(s: State, t: TaskId)
    requires Shape(s) && Covered(s) && Enabled(s, UnlockRx(t))
    ensures Inv(Apply(s, UnlockRx(t)))
  {
    var n := Max0(s.cRxLock);
    var w := WakeSenders(s, n);
    WakeSendersKeeps(s, n);
    LockedMoveKeepsShape(w, Apply(s, UnlockRx(t)), t);
  }

  lemma PlaceKeeps(s: State, t: TaskId, at: nat)
    requires Shape(s) && Covered(s) && Enabled(s, Place(t, at))
    ensures Inv(Apply(s, Place(t, at)))
  {
    if s.PhaseOf(t).op.Reads() {
      PlaceReceiverKeeps(s, t, at);
    } else {
      PlaceSenderKeeps(s, t, at);
    }
  }

  /** A task that was not parked joins the wait list of its direction, ... */
  lemma JoinKeepsBooks(phases: Phases, list: seq<TaskId>, woken: set<TaskId>, reading: bool, t: TaskId, at: nat, p: Phase)
    requires Bookkept(phases, list, woken, reading) && at <= |list| && !PhaseIn(phases, t).Parked(reading) && p.Parked(reading)
    ensures Bookkept(phases[t := p], Insert(list, at, t), woken, reading)
  {
    InsertFacts(list, at, t);
    assert forall u :: u != t ==> PhaseIn(phases[t := p], u) == PhaseIn(phases, u);
  }

  /** ... which leaves the other direction alone. */
  lemma MoveKeepsBooks(phases: Phases, list: seq<TaskId>, woken: set<TaskId>, reading: bool, t: TaskId, p: Phase)
    requires Bookkept(phases, list, woken, reading) && !PhaseIn(phases, t).Parked(reading)
    ensures Bookkept(phases[t := p], list, woken, reading)
  {
    assert forall u :: u != t ==> PhaseIn(phases[t := p], u) == PhaseIn(phases, u);
  }

  lemma PlaceReceiverKeeps(s: State, t: TaskId, at: nat)
    requires Shape(s) && Covered(s) && s.PhaseOf(t).Placing? && s.PhaseOf(t).op.Reads() && at <= |s.toReceive|
    ensures Inv(ApplyPlace(s, t, s.PhaseOf(t).op, at))
  {
    var p := UnlockingTx(s.PhaseOf(t).op, Placed);
    JoinKeepsBooks(s.phases, s.toReceive, s.wokenReceivers, true, t, at, p);
    MoveKeepsBooks(s.phases, s.toSend, s.wokenSenders, false, t, p);
    var phases' := s.phases[t := p];
    assert PhaseIn(phases', t) == p && forall u :: u != t ==> PhaseIn(phases', u) == PhaseIn(s.phases, u);
  }

  lemma PlaceSenderKeeps(s: State, t: TaskId, at: nat)
    requires Shape(s) && Covered(s) && s.PhaseOf(t).Placing? && !s.PhaseOf(t).op.Reads() && at <= |s.toSend|
    ensures Inv(ApplyPlace(s, t, s.PhaseOf(t).op, at))
  {
    var p := UnlockingTx(s.PhaseOf(t).op, Placed);
    JoinKeepsBooks(s.phases, s.toSend, s.wokenSenders, false, t, at, p);
    MoveKeepsBooks(s.phases, s.toReceive, s.wokenReceivers, true, t, p);
    var phases' := s.phases[t := p];
    assert PhaseIn(phases', t) == p && forall u :: u != t ==> PhaseIn(phases', u) == PhaseIn(s.phases, u);
  }

  lemma ResumeKeeps(s: State, t: TaskId)
    requires Shape(s) && Covered(s) && Enabled(s, Resume(t))
    ensures Inv(Apply(s, Resume(t)))
  {
    var r := Apply(s, Resume(t));
    assert forall u :: u != t ==> PhaseIn(r.phases, u) == PhaseIn(s.phases, u);
  }

  lemma TimeoutKeeps(s: State, t: TaskId)
    requires Shape(s) && Covered(s) && Enabled(s, Timeout(t))
    ensures Inv(Apply(s, Timeout(t)))
  {
    var r := Apply(s, Timeout(t));
    WithoutFacts(s.toReceive, t);
    WithoutFacts(s.toSend, t);
    assert r.toReceive != [] ==> r.toReceive[0] in r.toReceive;
    assert r.toSend != [] ==> r.toSend[0] in r.toSend;
  }

  lemma CallOrLookKeeps(s: State, e: Event)
    requires Shape(s) && Covered(s) && Enabled(s, e) && (e.Call? || e.Look?)
    ensures Inv(Apply(s, e))
  {
    var r := Apply(s, e);
    assert forall u :: u != e.t ==> PhaseIn(r.phases, u) == PhaseIn(s.phases, u);
  }

  /** With the lock open the interrupt wakes a task itself ... */
  lemma IsrPutWakes(s: State, n: nat)
    requires Shape(s) && Covered(s) && s.cTxLock == UNLOCKED && s.count <= n <= s.count + 1 && n <= s.length
    ensures Inv(WakeReceiver(s.(count := n)))
  {
    CountKeepsShape(s, n);
    WakeReceiverKeeps(s.(count := n));
  }

  /** ... and with the lock shut it leaves a count for prvUnlockQueue. */
  lemma IsrPutCounts(s: State, n: nat)
    requires Shape(s) && Covered(s) && s.cTxLock != UNLOCKED && s.cTxLock != INT8_MAX
    requires s.count <= n <= s.count + 1 && n <= s.length
    ensures Inv(s.(count := n, cTxLock := s.cTxLock + 1))
  {
  }

  lemma IsrTakeWakes(s: State)
    requires Shape(s) && Covered(s) && s.cRxLock == UNLOCKED && s.count > 0
    ensures Inv(WakeSender(s.(count := s.count - 1)))
  {
    CountKeepsShape(s, s.count - 1);
    WakeSenderKeeps(s.(count := s.count - 1));
  }

  lemma IsrTakeCounts(s: State)
    requires Shape(s) && Covered(s) && s.cRxLock != UNLOCKED && s.cRxLock != INT8_MAX && s.count > 0
    ensures Inv(s.(count := s.count - 1, cRxLock := s.cRxLock + 1))
  {
  }

  lemma IsrSendKeeps(s: State, overwrite: bool)
    requires Shape(s) && Covered(s) && Enabled(s, IsrSend(overwrite))
    ensures Inv(Apply(s, IsrSend(overwrite)))
  {
    if s.count < s.length || overwrite {
      var n := CountAfterSend(s, overwrite);
      if s.cTxLock == UNLOCKED {
        IsrPutWakes(s, n);
      } else if s.cTxLock != INT8_MAX {
        IsrPutCounts(s, n);
      }
    }
  }

  lemma IsrReceiveKeeps(s: State)
    requires Shape(s) && Covered(s) && Enabled(s, IsrReceive)
    ensures Inv(Apply(s, IsrReceive))
  {
    if s.count > 0 {
      if s.cRxLock == UNLOCKED {
        IsrTakeWakes(s);
      } else if s.cRxLock != INT8_MAX {
        IsrTakeCounts(s);
      }
    }
  }

  lemma StepKeeps(s: State, e: Event)
    requires Inv(s) && Enabled(s, e)
    ensures Inv(Apply(s, e))
  {
    match e
    case Call(_, _) => CallOrLookKeeps(s, e);
    case Check(t, mayBlock) => CheckKeeps(s, t, mayBlock);
    case Lock(t) => LockKeeps(s, t);
    case Test(t, expired) => TestKeeps(s, t, expired);
    case Place(t, at) => PlaceKeeps(s, t, at);
    case UnlockTx(t) => UnlockTxKeeps(s, t);
    case UnlockRx(t) => UnlockRxKeeps(s, t);
    case Resume(t) => ResumeKeeps(s, t);
    case Look(_) => CallOrLookKeeps(s, e);
    case Timeout(t) => TimeoutKeeps(s, t);
    case IsrSend(overwrite) => IsrSendKeeps(s, overwrite);
    case IsrReceive => IsrReceiveKeeps(s);
  }

  // ----- whole runs -----

  /** `run` is a sequence of states joined by enabled events, from a newly created queue. */
  ghost predicate IsRun(run: seq<State>, events: seq<Event>) {
    && |run| == |events| + 1
    && 1 <= run[0].length
    && run[0] == Created(run[0].length)
    && forall i :: 0 <= i < |events| ==> Enabled(run[i], events[i]) && run[i + 1] == Apply(run[i], events[i])
  }

  lemma {:induction false} RunKeeps(run: seq<State>, events: seq<Event>, k: nat)
    requires IsRun(run, events) && k < |run|
    ensures Inv(run[k])
  {
    if k == 0 {
      assert forall t :: PhaseIn(run[0].phases, t) == Outside;
    } else {
      RunKeeps(run, events, k - 1);
      StepKeeps(run[k - 1], events[k - 1]);
    }
  }

  /** No interleaving loses a wake-up. */
  lemma NoWakeUpIsLost(run: seq<State>, events: seq<Event>, k: nat)
    requires IsRun(run, events) && k < |run| && !run[k].halted
    ensures NoLostWakeUp(run[k])
  {
    RunKeeps(run, events, k);
  }

  /**
    Once every woken task has run and nobody holds the lock, a blocked receiver means an
    empty queue and a blocked sender a full one; so both sides are never blocked together.
   */
  lemma BlockedOnlyWithReason(run: seq<State>, events: seq<Event>, k: nat)
    requires IsRun(run, events) && k < |run| && !run[k].halted
    requires run[k].suspender == None && run[k].wokenReceivers == {} && run[k].wokenSenders == {}
    ensures run[k].toReceive != [] ==> run[k].count == 0
    ensures run[k].toSend != [] ==> run[k].count == run[k].length
    ensures run[k].toReceive == [] || run[k].toSend == []
  {
    RunKeeps(run, events, k);
  }

  // ----- resetting a queue that tasks are blocked on -----

  /** xQueueGenericReset(xQueue, pdFALSE): empties the queue but wakes one sender only. */
  function Reset(s: State): State {
    WakeSender(s.(count := 0, cRxLock := UNLOCKED, cTxLock := UNLOCKED))
  }

  /** A reset keeps the promise exactly when one wake-up is enough for the senders. */
  lemma ResetKeepsExactlyWhen(s: State)
    requires !s.halted && Inv(s) && s.suspender == None
    ensures Shape(Reset(s))
    ensures NoLostWakeUp(Reset(s)) <==> |s.toSend| <= 1 || s.length <= |s.wokenSenders| + 1
  {
    var q := s.(count := 0, cRxLock := UNLOCKED, cTxLock := UNLOCKED);
    assert Shape(q);
    WakeSenderKeeps(q);
  }

  // A run that strands senders: interrupts fill the queue, then tasks 1, 2, ... block on it.

  lemma Extend(run: seq<State>, events: seq<Event>, e: Event)
    requires IsRun(run, events) && Enabled(run[|events|], e)
    ensures IsRun(run + [Apply(run[|events|], e)], events + [e])
  {
    var run', events' := run + [Apply(run[|events|], e)], events + [e];
    forall i | 0 <= i < |events'|
      ensures Enabled(run'[i], events'[i]) && run'[i + 1] == Apply(run'[i], events'[i])
    {
      if i < |events| {
        assert Enabled(run[i], events[i]) && run[i + 1] == Apply(run[i], events[i]);
      }
    }
  }

  lemma {:induction false} FillQueue(length: nat, n: nat) returns (run: seq<State>, events: seq<Event>)
    requires 1 <= length && n <= length
    ensures IsRun(run, events) && run[|events|] == Created(length).(count := n)
  {
    if n == 0 {
      run, events := [Created(length)], [];
    } else {
      run, events := FillQueue(length, n - 1);
      Extend(run, events, IsrSend(false));
      run, events := run + [Apply(run[|events|], IsrSend(false))], events + [IsrSend(false)];
    }
  }

  /** What a task does that finds the queue full and goes to sleep. */
  function GoesToSleep(t: TaskId, at: nat): seq<Event> {
    [Call(t, Send), Check(t, true), Lock(t), Test(t, false), Place(t, at), UnlockTx(t), UnlockRx(t), Resume(t)]
  }

  /** The states it passes through. */
  function Asleep(s: State, t: TaskId, k: nat): State {
    var locked := s.(suspender := Some(t), cRxLock := 0, cTxLock := 0);
    var listed := locked.(toSend := s.toSend + [t]);
    match k
    case 0 => s
    case 1 => s.Move(t, Checking(Send))
    case 2 => s.Move(t, Locking(Send))
    case 3 => locked.Move(t, Testing(Send))
    case 4 => locked.Move(t, Placing(Send))
    case 5 => listed.Move(t, UnlockingTx(Send, Placed))
    case 6 => listed.(cTxLock := UNLOCKED).Move(t, UnlockingRx(Send, Placed))
    case 7 => listed.(cTxLock := UNLOCKED, cRxLock := UNLOCKED).Move(t, Resuming(Send, Placed))
    case _ => s.(toSend := s.toSend + [t]).Move(t, Waiting(Send))
  }

  /** A full queue with nobody woken or holding the lock, and `t` outside. */
  ghost predicate FullFor(s: State, t: TaskId) {
    && s.count == s.length && s.suspender == None && !s.halted
    && s.cTxLock == UNLOCKED && s.cRxLock == UNLOCKED
    && s.wokenReceivers == {} && s.wokenSenders == {} && t !in s.phases
  }

  lemma SleepStep(s: State, t: TaskId, k: nat)
    requires FullFor(s, t) && k < 8
    ensures Enabled(Asleep(s, t, k), GoesToSleep(t, |s.toSend|)[k])
    ensures Apply(Asleep(s, t, k), GoesToSleep(t, |s.toSend|)[k]) == Asleep(s, t, k + 1)
  {
    assert s.toSend[..|s.toSend|] + [t] + s.toSend[|s.toSend|..] == s.toSend + [t];
  }

  lemma {:induction false} GoToSleep(run: seq<State>, events: seq<Event>, t: TaskId, k: nat)
    returns (run': seq<State>, events': seq<Event>)
    requires IsRun(run, events) && FullFor(run[|events|], t) && k <= 8
    ensures IsRun(run', events') && run'[|events'|] == Asleep(run[|events|], t, k)
    decreases k
  {
    run', events' := run, events;
    if k > 0 {
      var s := run[|events|];
      run', events' := GoToSleep(run, events, t, k - 1);
      SleepStep(s, t, k - 1);
      var e := GoesToSleep(t, |s.toSend|)[k - 1];
      Extend(run', events', e);
      run', events' := run' + [Apply(run'[|events'|], e)], events' + [e];
    }
  }

  /** A full queue and senders 1 to m asleep on it. */
  ghost predicate SendersAsleep(s: State, length: nat, m: nat) {
    && s.count == s.length == length && s.suspender == None && !s.halted
    && s.cTxLock == UNLOCKED && s.cRxLock == UNLOCKED
    && s.wokenReceivers == {} && s.wokenSenders == {}
    && |s.toSend| == m && forall t :: t in s.phases ==> 1 <= t <= m
  }

  lemma {:induction false} SendersGoToSleep(length: nat, m: nat) returns (run: seq<State>, events: seq<Event>)
    requires 1 <= length
    ensures IsRun(run, events) && SendersAsleep(run[|events|], length, m)
  {
    if m == 0 {
      run, events := FillQueue(length, length);
    } else {
      run, events := SendersGoToSleep(length, m - 1);
      run, events := GoToSleep(run, events, m, 8);
    }
  }

  /**
    For every queue of length 2 or more and every number of senders from 2 on, a run that ends
    with all of them asleep on the full queue, where a reset breaks the promise: it leaves the
    queue empty, one sender woken and all others asleep.
   */
  lemma ResetStrandsSenders(length: nat, m: nat) returns (run: seq<State>, events: seq<Event>)
    requires length >= 2 && m >= 2
    ensures IsRun(run, events) && SendersAsleep(run[|events|], length, m)
    ensures var r := Reset(run[|events|]);
            !NoLostWakeUp(r) && r.count == 0 && |r.toSend| == m - 1 && |r.wokenSenders| == 1
  {
    run, events := SendersGoToSleep(length, m);
    RunKeeps(run, events, |events|);
    ResetKeepsExactlyWhen(run[|events|]);
    assert |{run[|events|].toSend[0]}| == 1;
  }

  // ----- the loops of prvUnlockQueue -----

  class QueueLock {
    var queue: State

    constructor (initial: State)
      ensures queue == initial
    {
      queue := initial;
    }

    /** Replays the events that interrupts counted while the queue was locked. */
    method Unlock()
      modifies this
      ensures queue ==
              var tx := WakeReceivers(old(queue), Max0(old(queue).cTxLock)).(cTxLock := UNLOCKED);
              WakeSenders(tx, Max0(tx.cRxLock)).(cRxLock := UNLOCKED)
    {
      var cTxLock := queue.cTxLock;
      while cTxLock > 0
        invariant WakeReceivers(queue, Max0(cTxLock)) == WakeReceivers(old(queue), Max0(old(queue).cTxLock))
      {
        if queue.toReceive == [] {
          break;
        }
        queue := WakeReceiver(queue);
        cTxLock := cTxLock - 1;
      }
      queue := queue.(cTxLock := UNLOCKED);

      ghost var tx := queue;
      var cRxLock := queue.cRxLock;
      while cRxLock > 0
        invariant WakeSenders(queue, Max0(cRxLock)) == WakeSenders(tx, Max0(tx.cRxLock))
      {
        if queue.toSend == [] {
          break;
        }
        queue := WakeSender(queue);
        cRxLock := cRxLock - 1;
      }
      queue := queue.(cRxLock := UNLOCKED);
    }
  }
}
