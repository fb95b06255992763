/**
  What becomes of the calls on a queue (FreeRTOS/Source/queue.c), in every run of QueueWaiting:
  when they succeed, fail or block, what that does to the number of messages, and whom it wakes.
 */
module QueueCalls {
  import opened Shared
  import opened QueueWaiting

  /** The operation can go ahead: there is a message to read, or room for one, or one to replace. */
  predicate Possible(s: State, op: Op) {
    if op.Reads() then s.count > 0 else s.count < s.length || op.Overwrite?
  }

  /** The event adds a message: a successful send that does not replace one. */
  predicate Adds(s: State, e: Event)
    requires Enabled(s, e)
  {
    match e
    case Check(t, _) => !s.PhaseOf(t).op.Reads() && s.count < s.length
    case IsrSend(_) => s.count < s.length
    case _ => false
  }

  /** The event removes a message: a successful receive, which a peek is not. */
  predicate Removes(s: State, e: Event)
    requires Enabled(s, e)
  {
    match e
    case Check(t, _) => s.PhaseOf(t).op.Receive? && s.count > 0
    case IsrReceive => s.count > 0
    case _ => false
  }

  function Added(run: seq<State>, events: seq<Event>, k: nat): nat
    requires k <= |events| < |run| && forall i :: 0 <= i < |events| ==> Enabled(run[i], events[i])
  {
    if k == 0 then 0 else Added(run, events, k - 1) + if Adds(run[k - 1], events[k - 1]) then 1 else 0
  }

  function Removed(run: seq<State>, events: seq<Event>, k: nat): nat
    requires k <= |events| < |run| && forall i :: 0 <= i < |events| ==> Enabled(run[i], events[i])
  {
    if k == 0 then 0 else Removed(run, events, k - 1) + if Removes(run[k - 1], events[k - 1]) then 1 else 0
  }

  lemma StepCounts(s: State, e: Event)
    requires Shape(s) && Enabled(s, e)
    ensures Apply(s, e).length == s.length
    ensures Apply(s, e).count == s.count + (if Adds(s, e) then 1 else 0) - if Removes(s, e) then 1 else 0
  {
    match e
    case UnlockTx(_) => WakeReceiversKeeps(s, Max0(s.cTxLock));
    case UnlockRx(_) => WakeSendersKeeps(s, Max0(s.cRxLock));
    case _ =>
  }

  /** In every run, the messages in the queue are those added less those removed. */
  lemma {:induction false} CountIsConserved(run: seq<State>, events: seq<Event>, k: nat)
    requires IsRun(run, events) && k < |run|
    ensures run[k].count == Added(run, events, k) - Removed(run, events, k)
    ensures run[k].length == run[0].length
  {
    if k > 0 {
      RunKeeps(run, events, k - 1);
      CountIsConserved(run, events, k - 1);
      StepCounts(run[k - 1], events[k - 1]);
    }
  }

  /** The event puts a message in, or leaves one that was peeked at, with nobody holding the lock. */
  predicate WakesReceiver(s: State, e: Event)
    requires Enabled(s, e)
  {
    match e
    case Check(t, _) => Possible(s, s.PhaseOf(t).op) && !s.PhaseOf(t).op.Receive?
    case IsrSend(overwrite) => (s.count < s.length || overwrite) && s.cTxLock == UNLOCKED
    case _ => false
  }

  /** The event takes a message out, with nobody holding the lock. */
  predicate WakesSender(s: State, e: Event)
    requires Enabled(s, e)
  {
    match e
    case Check(t, _) => Possible(s, s.PhaseOf(t).op) && s.PhaseOf(t).op.Receive?
    case IsrReceive => s.count > 0 && s.cRxLock == UNLOCKED
    case _ => false
  }

  /** The task, if any, that uses up its wake-up. */
  function Checker(e: Event): set<TaskId> {
    if e.Check? then {e.t} else {}
  }

  /** The first task of the list, if any, has been woken if it should be, and nobody else. */
  predicate OneWoken(wakes: bool, list: seq<TaskId>, woken: set<TaskId>, list': seq<TaskId>, woken': set<TaskId>) {
    if wakes && list != [] then list == [list[0]] + list' && woken' == woken + {list[0]}
    else list' == list && woken' == woken
  }

  lemma HeadIsWoken(s: State)
    ensures OneWoken(true, s.toReceive, s.wokenReceivers, WakeReceiver(s).toReceive, WakeReceiver(s).wokenReceivers)
    ensures OneWoken(true, s.toSend, s.wokenSenders, WakeSender(s).toSend, WakeSender(s).wokenSenders)
  {
  }

  /** From `s`, with the wake-up of the checking task used up, to `r` those who should have been woken. */
  predicate WokenAsDue(s: State, e: Event, r: State)
    requires Enabled(s, e)
  {
    && OneWoken(WakesReceiver(s, e), s.toReceive, s.wokenReceivers - Checker(e), r.toReceive, r.wokenReceivers)
    && OneWoken(WakesSender(s, e), s.toSend, s.wokenSenders - Checker(e), r.toSend, r.wokenSenders)
  }

  lemma WriteWakes(s: State, t: TaskId, mayBlock: bool)
    requires Enabled(s, Check(t, mayBlock)) && !s.PhaseOf(t).op.Reads()
    ensures WokenAsDue(s, Check(t, mayBlock), Apply(s, Check(t, mayBlock)))
  {
    HeadIsWoken(Served(s, t, if s.PhaseOf(t).op.Send? then s.count + 1 else CountAfterSend(s, true)));
  }

  lemma ReadWakes(s: State, t: TaskId, mayBlock: bool)
    requires Enabled(s, Check(t, mayBlock)) && s.PhaseOf(t).op.Reads()
    ensures WokenAsDue(s, Check(t, mayBlock), Apply(s, Check(t, mayBlock)))
  {
    if s.count > 0 {
      HeadIsWoken(Served(s, t, if s.PhaseOf(t).op.Receive? then s.count - 1 else s.count));
    }
  }

  lemma IsrWakes(s: State, e: Event)
    requires Enabled(s, e) && (e.IsrSend? || e.IsrReceive?)
    ensures WokenAsDue(s, e, Apply(s, e))
  {
    assert s.wokenReceivers - Checker(e) == s.wokenReceivers && s.wokenSenders - Checker(e) == s.wokenSenders;
    if e.IsrSend? {
      HeadIsWoken(s.(count := CountAfterSend(s, e.overwrite)));
    } else if s.count > 0 {
      HeadIsWoken(s.(count := s.count - 1));
    }
  }

  /**
    In every run, the check of a task and an interrupt wake the first task of a wait list
    exactly when they should, no other, and give up no wake-up but the task's own.
   */
  lemma WakesExactlyOne(run: seq<State>, events: seq<Event>, k: nat)
    requires IsRun(run, events) && k < |events| && (events[k].Check? || events[k].IsrSend? || events[k].IsrReceive?)
    ensures WokenAsDue(run[k], events[k], run[k + 1])
  {
    if events[k].Check? {
      if run[k].PhaseOf(events[k].t).op.Reads() {
        ReadWakes(run[k], events[k].t, events[k].mayBlock);
      } else {
        WriteWakes(run[k], events[k].t, events[k].mayBlock);
      }
    } else {
      IsrWakes(run[k], events[k]);
    }
  }

  /** The first `n` tasks of the list, or all there are, have been woken. */
  ghost predicate FirstWoken(n: nat, list: seq<TaskId>, woken: set<TaskId>, list': seq<TaskId>, woken': set<TaskId>) {
    var m := if n < |list| then n else |list|;
    list' == list[m..] && forall t :: t in woken' <==> t in woken || t in list[..m]
  }

  lemma HeadWoken(n: nat, list: seq<TaskId>, woken: set<TaskId>, list': seq<TaskId>, woken': set<TaskId>)
    requires n > 0 && list != [] && FirstWoken(n - 1, list[1..], woken + {list[0]}, list', woken')
    ensures FirstWoken(n, list, woken, list', woken')
  {
    var m := if n < |list| then n else |list|;
    assert list[1..][m - 1..] == list[m..];
    assert list[..m] == [list[0]] + list[1..][..m - 1];
  }

  /** Unlocking wakes as many of the first receivers as sends were counted, or all there are, ... */
  lemma {:induction false} ReplayWakesReceivers(s: State, n: nat)
    ensures FirstWoken(n, s.toReceive, s.wokenReceivers, WakeReceivers(s, n).toReceive, WakeReceivers(s, n).wokenReceivers)
    decreases n
  {
    if n > 0 && s.toReceive != [] {
      var r := WakeReceivers(s, n);
      ReplayWakesReceivers(WakeReceiver(s), n - 1);
      HeadWoken(n, s.toReceive, s.wokenReceivers, r.toReceive, r.wokenReceivers);
    }
  }

  /** ... and the same for senders. */
  lemma {:induction false} ReplayWakesSenders(s: State, n: nat)
    ensures FirstWoken(n, s.toSend, s.wokenSenders, WakeSenders(s, n).toSend, WakeSenders(s, n).wokenSenders)
    decreases n
  {
    if n > 0 && s.toSend != [] {
      var r := WakeSenders(s, n);
      ReplayWakesSenders(WakeSender(s), n - 1);
      HeadWoken(n, s.toSend, s.wokenSenders, r.toSend, r.wokenSenders);
    }
  }

  /** `t` is inside a call and event `e` of it ends the call. */
  predicate Ends(s: State, e: Event, t: TaskId)
    requires Enabled(s, e)
  {
    match e
    case Check(u, mayBlock) => u == t && (Possible(s, s.PhaseOf(t).op) || !mayBlock)
    case Resume(u) => u == t && s.PhaseOf(t).Resuming? && s.PhaseOf(t).outcome.Expired? && !s.PhaseOf(t).op.Reads()
    case Look(u) => u == t && s.count == 0
    case _ => false
  }

  /**
    In every run, a call ends exactly in a check that succeeds or may not wait, when the time of
    a sender is up, or when that of a reader is up and its last look finds the queue empty.
   */
  lemma CallEndsExactlyWhen(run: seq<State>, events: seq<Event>, k: nat, t: TaskId)
    requires IsRun(run, events) && k < |events| && run[k].PhaseOf(t) != Outside
    ensures run[k + 1].PhaseOf(t) == Outside <==> Ends(run[k], events[k], t)
  {
    RunKeeps(run, events, k);
    var s, e := run[k], events[k];
    if e.Check? && e.t == t {
      CheckEnds(s, t, e.mayBlock);
    } else {
      OtherEventEnds(s, e, t);
    }
  }

  lemma CheckEnds(s: State, t: TaskId, mayBlock: bool)
    requires Enabled(s, Check(t, mayBlock))
    ensures Apply(s, Check(t, mayBlock)).PhaseOf(t) == Outside <==> Possible(s, s.PhaseOf(t).op) || !mayBlock
  {
    WakesKeepPhases(Served(s, t, CountAfterSend(s, true)));
  }

  lemma WakesKeepPhases(s: State)
    ensures WakeReceiver(s).phases == s.phases && WakeSender(s).phases == s.phases
  {
  }

  lemma OtherEventEnds(s: State, e: Event, t: TaskId)
    requires Shape(s) && Enabled(s, e) && s.PhaseOf(t) != Outside && !(e.Check? && e.t == t)
    ensures Apply(s, e).PhaseOf(t) == Outside <==> Ends(s, e, t)
  {
    match e
    case UnlockTx(_) => WakeReceiversKeeps(s, Max0(s.cTxLock));
    case UnlockRx(_) => WakeSendersKeeps(s, Max0(s.cRxLock));
    case _ =>
  }

  /**
    In every run, a task that has locked the queue gives up exactly when its time is up, and
    otherwise goes on to block exactly when it finds its operation impossible.
   */
  lemma BlocksExactlyWhen(run: seq<State>, events: seq<Event>, k: nat, t: TaskId, expired: bool)
    requires IsRun(run, events) && k < |events| && events[k] == Test(t, expired)
    ensures var op := run[k].PhaseOf(t).op;
            run[k + 1] == run[k].Move(t, if expired then UnlockingTx(op, Expired)
                                         else if Possible(run[k], op) then UnlockingTx(op, Retry) else Placing(op))
  {
    RunKeeps(run, events, k);
  }
}
