/** The loops of xTaskIncrementTick and xTaskResumeAll, as the source writes them. */
module TickCode {
  import opened Shared
  import opened DelayedTasks
  import R = ReadyLists

  class KernelObject {
    var state: Kernel

    constructor (initial: Kernel)
      ensures state == initial
    {
      state := initial;
    }

    method IncrementTick() returns (switchRequired: bool)
      modifies this
      ensures Ticked(state, switchRequired) == Tick(old(state))
    {
      switchRequired := false;
      if state.suspended != 0 {
        state := state.(pendedTicks := (state.pendedTicks + 1) % WORD);
        return;
      }
      state := state.(tick := (state.tick + 1) % WORD);
      if state.tick == 0 {
        state := SwitchLists(state);
      }
      if state.tick >= state.nextUnblock {
        switchRequired := UnblockExpired();
      }
      if SharesPriority(state.sched) {
        switchRequired := true;
      }
      if state.yieldPending {
        switchRequired := true;
      }
    }

    method UnblockExpired() returns (switchRequired: bool)
      modifies this
      ensures Ticked(state, switchRequired) == Drain(old(state), false)
    {
      switchRequired := false;
      while state.delayed != [] && state.tick >= state.delayed[0].wake
        invariant Drain(state, switchRequired) == Drain(old(state), false)
        decreases |state.delayed|
      {
        var t := state.delayed[0].task;
        switchRequired := switchRequired || PriorityOf(state.sched, t) >= PriorityOf(state.sched, state.sched.current);
        state := state.(delayed := state.delayed[1..], sched := R.AddReady(state.sched, t));
      }
      state := state.(nextUnblock := if state.delayed == [] then MAX_DELAY else state.delayed[0].wake);
    }

    method ResumeScheduler() returns (alreadyYielded: bool)
      requires state.suspended > 0
      modifies this
      ensures Resumed(state, alreadyYielded) == ResumeAll(old(state))
    {
      alreadyYielded := false;
      state := state.(suspended := state.suspended - 1);
      if state.suspended == 0 {
        ghost var start := state;
        var moved := false;
        while state.pendingReady != []
          invariant ReadyPending(state) == ReadyPending(start)
          invariant moved <==> start.pendingReady != state.pendingReady
          invariant |state.pendingReady| <= |start.pendingReady|
          invariant moved ==> |state.pendingReady| < |start.pendingReady|
          decreases |state.pendingReady|
        {
          var t := state.pendingReady[0];
          var preempts := PriorityOf(state.sched, t) >= PriorityOf(state.sched, state.sched.current);
          state := Unblock(state, t).(
            pendingReady := state.pendingReady[1..],
            yieldPending := state.yieldPending || preempts);
          moved := true;
        }
        if moved {
          state := state.(nextUnblock := ResetNextUnblock(state.delayed));
        }
        ghost var settled := state;
        var pendedCounts := state.pendedTicks;
        while pendedCounts > 0
          invariant ProcessPended(state, pendedCounts) == ProcessPended(settled, settled.pendedTicks)
        {
          var required := IncrementTick();
          if required {
            state := state.(yieldPending := true);
          }
          pendedCounts := pendedCounts - 1;
        }
        state := state.(pendedTicks := 0);
        alreadyYielded := state.yieldPending;
      }
    }
  }
}
