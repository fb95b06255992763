/**
  Over whole runs of Inheritance: a task blocked on a mutex is never forgotten, and what the
  holder of one mutex has inherited comes from a task that is still in a call on it
  (FreeRTOS/Source/queue.c, FreeRTOS/Source/tasks.c).
 */
module InheritanceCauses {
  import opened Shared
  import opened CursorList
  import opened Inheritance

  // ----- no waiter is forgotten -----

  /** A task that is blocked on a mutex is on its wait list. */
  predicate OnItsList(s: State, t: TaskId) {
    InStage(s.calls, t, Listed) ==> s.calls[t].mutex in s.mutexes && t in s.mutexes[s.calls[t].mutex].waiters
  }

  lemma BlockLists(s: State, u: TaskId, t: TaskId)
    requires Enabled(s, Block(u)) && OnItsList(s, t)
    ensures OnItsList(ApplyBlock(s, u), t)
  {
    var waiters := s.mutexes[s.calls[u].mutex].waiters;
    assert forall x :: x in InsertWaiter(s.tasks, waiters, u) <==> x in waiters || x == u by {
      InsertFacts(waiters, InsertPosition(ItemValues(s.tasks, waiters), ItemValue(s.tasks, u)), u);
    }
  }

  lemma UnlistLists(s: State, u: TaskId, t: TaskId)
    requires Enabled(s, Unlist(u)) && OnItsList(s, t)
    ensures OnItsList(ApplyUnlist(s, u), t)
  {
    WithoutFacts(s.mutexes[s.calls[u].mutex].waiters, u);
  }

  lemma GiveListsTheRest(s: State, u: TaskId, m: MutexId, t: TaskId)
    requires Inv(s) && Enabled(s, Give(u, m)) && OnItsList(s, t)
    ensures OnItsList(ApplyGive(s, u, m), t)
  {
    var waiters := s.mutexes[m].waiters;
    WaitersCall(s, m);
    if waiters != [] {
      assert waiters[0] in waiters;
      assert waiters == [waiters[0]] + waiters[1..];
    }
  }

  lemma StepLists(s: State, e: Event, t: TaskId)
    requires Inv(s) && Enabled(s, e) && OnItsList(s, t)
    ensures OnItsList(Apply(s, e), t)
  {
    match e
    case Block(u) => BlockLists(s, u, t);
    case Unlist(u) => UnlistLists(s, u, t);
    case Give(u, m) => GiveListsTheRest(s, u, m, t);
    case _ =>
  }

  /** In every run, a task blocked on a mutex is on the wait list of that mutex. */
  lemma {:induction false} NobodyIsForgotten(run: seq<State>, events: seq<Event>, k: nat, t: TaskId)
    requires IsRun(run, events) && k < |run|
    ensures OnItsList(run[k], t)
  {
    if k > 0 {
      NobodyIsForgotten(run, events, k - 1, t);
      RunKeeps(run, events, k - 1);
      assert Step(run[k - 1], events[k - 1], run[k - 1 + 1]);
      StepLists(run[k - 1], events[k - 1], t);
    }
  }

  // ----- what is inherited has a cause, and goes with it -----

  /** A task that blocks is told that it caused inheritance exactly when the holder's base is below it. */
  lemma BlockAnswers(run: seq<State>, events: seq<Event>, k: nat, t: TaskId)
    requires IsRun(run, events) && k < |events| && events[k] == Block(t)
    ensures t in run[k].calls && t in run[k].tasks && t in run[k + 1].calls && Taken(run[k].mutexes, run[k].calls[t].mutex)
    ensures var h := run[k].mutexes[run[k].calls[t].mutex].holder.value;
            && h in run[k].tasks
            && (run[k + 1].calls[t].inherited <==> run[k].tasks[h].base < run[k].tasks[t].priority)
  {
    RunKeeps(run, events, k);
    assert Step(run[k], events[k], run[k + 1]);
    HolderKnown(run[k], run[k].calls[t].mutex);
    InheritFacts(run[k].tasks, run[k].mutexes[run[k].calls[t].mutex].holder.value, t);
  }

  /** Task `t`, at the priority of `h`, is in a call on `m` and knows that it has caused inheritance. */
  predicate Raises(s: State, h: TaskId, m: MutexId, t: TaskId) {
    t in s.calls && s.calls[t].mutex == m && s.calls[t].inherited && PriorityIn(s.tasks, t) == PriorityIn(s.tasks, h)
  }

  /** A waiter above the base of `h` knows that it has caused inheritance. */
  predicate Knows(s: State, h: TaskId, t: TaskId) {
    h in s.tasks && t in s.calls && s.tasks[h].base < PriorityIn(s.tasks, t) ==> s.calls[t].inherited
  }

  /** `h` holds `m` and nothing else, and what it has inherited comes from a call on `m`. */
  ghost predicate Caused(s: State, h: TaskId, m: MutexId) {
    && h in s.tasks && s.tasks[h].held == 1
    && m in s.mutexes && s.mutexes[m].holder == Some(h)
    && (forall t :: t in s.mutexes[m].waiters ==> Knows(s, h, t))
    && (s.tasks[h].priority == s.tasks[h].base || exists t :: Raises(s, h, m, t))
  }

  lemma TakeIsCaused(s: State, h: TaskId, m: MutexId)
    requires Inv(s) && Enabled(s, Take(h, m)) && s.tasks[h].held == 0
    ensures Caused(ApplyTake(s, h, m), h, m)
  {
    var r, waiters := ApplyTake(s, h, m), s.mutexes[m].waiters;
    TakenFromNobodyAbove(s, h, m);
    forall t | t in waiters
      ensures Knows(r, h, t)
    {
      var i :| 0 <= i < |waiters| && waiters[i] == t;
    }
  }

  /** A step that leaves `h` and `m` alone, and the calls on `m` that know of their inheritance. */
  lemma CauseStays(s: State, r: State, h: TaskId, m: MutexId)
    requires Caused(s, h, m) && h in r.tasks && r.tasks[h] == s.tasks[h]
    requires m in r.mutexes && r.mutexes[m].holder == Some(h)
    requires forall t :: t in r.mutexes[m].waiters ==> Knows(r, h, t)
    requires forall t :: Raises(s, h, m, t) ==> Raises(r, h, m, t)
    ensures Caused(r, h, m)
  {
    if s.tasks[h].priority != s.tasks[h].base {
      var t :| Raises(s, h, m, t);
      assert Raises(r, h, m, t);
    }
  }

  /** `h` holds no other mutex than `m`. */
  lemma HoldsNoOther(s: State, h: TaskId, m: MutexId, n: MutexId)
    requires Inv(s) && Caused(s, h, m) && n != m && Taken(s.mutexes, n)
    ensures s.mutexes[n].holder.value != h
  {
    if s.mutexes[n].holder.value == h {
      assert m in HeldBy(s.mutexes, h) && n in HeldBy(s.mutexes, h);
      OnlyOne(s, h, m, n);
    }
  }

  lemma BlockSamePriorities(s: State, t: TaskId)
    requires Inv(s) && Enabled(s, Block(t))
    ensures SamePriorities(s.tasks, ApplyBlock(s, t).tasks, s.calls)
  {
    HolderKnown(s, s.calls[t].mutex);
  }

  lemma BlockHereIsCaused(s: State, t: TaskId, h: TaskId, m: MutexId)
    requires Inv(s) && Enabled(s, Block(t)) && Caused(s, h, m) && s.calls[t].mutex == m
    ensures Caused(ApplyBlock(s, t), h, m)
  {
    var r, waiters := ApplyBlock(s, t), s.mutexes[m].waiters;
    InheritFacts(s.tasks, h, t);
    BlockSamePriorities(s, t);
    InsertFacts(waiters, InsertPosition(ItemValues(s.tasks, waiters), ItemValue(s.tasks, t)), t);
    forall u | u in r.mutexes[m].waiters
      ensures Knows(r, h, u)
    {
      assert u == t || Knows(s, h, u);
    }
    if r.tasks[h].priority != r.tasks[h].base {
      if r.tasks[h].priority == s.tasks[t].priority {
        assert Raises(r, h, m, t);
      } else {
        var u :| Raises(s, h, m, u);
        assert Raises(r, h, m, u);
      }
    }
  }

  lemma BlockElsewhereIsCaused(s: State, t: TaskId, h: TaskId, m: MutexId)
    requires Inv(s) && Enabled(s, Block(t)) && Caused(s, h, m) && s.calls[t].mutex != m
    ensures Caused(ApplyBlock(s, t), h, m)
  {
    var r, n := ApplyBlock(s, t), s.calls[t].mutex;
    HolderKnown(s, n);
    HoldsNoOther(s, h, m, n);
    InheritFacts(s.tasks, s.mutexes[n].holder.value, t);
    BlockSamePriorities(s, t);
    WaitersCall(s, m);
    forall u
      ensures Raises(s, h, m, u) ==> Raises(r, h, m, u)
      ensures u in s.mutexes[m].waiters ==> Knows(r, h, u)
    {
      assert u in s.mutexes[m].waiters ==> Knows(s, h, u);
    }
    CauseStays(s, r, h, m);
  }

  lemma WaitersCall(s: State, m: MutexId)
    requires Inv(s) && m in s.mutexes
    ensures forall t :: t in s.mutexes[m].waiters ==> t in s.calls && s.calls[t].mutex == m && s.calls[t].stage.Listed?
  {
    var waiters := s.mutexes[m].waiters;
    assert MutexOk(s.tasks, s.calls, m, s.mutexes[m]);
    forall t | t in waiters
      ensures t in s.calls && s.calls[t].mutex == m && s.calls[t].stage.Listed?
    {
      var i :| 0 <= i < |waiters| && waiters[i] == t;
    }
  }

  lemma LeaveHereIsCaused(s: State, t: TaskId, h: TaskId, m: MutexId)
    requires Inv(s) && Enabled(s, Leave(t)) && Caused(s, h, m) && s.calls[t].mutex == m
    ensures Caused(ApplyLeave(s, t), h, m)
  {
    var r, waiters := ApplyLeave(s, t), s.mutexes[m].waiters;
    LeaveKeepsTasks(s, t);
    WaitersCall(s, m);
    forall u | u in waiters
      ensures Knows(r, h, u)
    {
      assert Knows(s, h, u);
    }
    if r.tasks[h].priority != r.tasks[h].base {
      assert waiters[0] in waiters;
      assert Knows(s, h, waiters[0]);
      assert Raises(r, h, m, waiters[0]);
    }
  }

  lemma LeaveElsewhereIsCaused(s: State, t: TaskId, h: TaskId, m: MutexId)
    requires Inv(s) && Enabled(s, Leave(t)) && Caused(s, h, m) && s.calls[t].mutex != m
    ensures Caused(ApplyLeave(s, t), h, m)
  {
    var r, n := ApplyLeave(s, t), s.calls[t].mutex;
    if Taken(s.mutexes, n) {
      HoldsNoOther(s, h, m, n);
      LeaveKeepsTasks(s, t);
    }
    WaitersCall(s, m);
    forall u
      ensures Raises(s, h, m, u) ==> Raises(r, h, m, u)
      ensures u in s.mutexes[m].waiters ==> Knows(r, h, u)
    {
      assert u in s.mutexes[m].waiters ==> Knows(s, h, u);
    }
    CauseStays(s, r, h, m);
  }

  lemma UnlistIsCaused(s: State, t: TaskId, h: TaskId, m: MutexId)
    requires Inv(s) && Enabled(s, Unlist(t)) && Caused(s, h, m)
    ensures Caused(ApplyUnlist(s, t), h, m)
  {
    var r := ApplyUnlist(s, t);
    WithoutFacts(s.mutexes[s.calls[t].mutex].waiters, t);
    forall u | u in r.mutexes[m].waiters
      ensures Knows(r, h, u)
    {
      assert Knows(s, h, u);
    }
    CauseStays(s, r, h, m);
  }

  lemma GiveElsewhereIsCaused(s: State, t: TaskId, n: MutexId, h: TaskId, m: MutexId)
    requires Inv(s) && Enabled(s, Give(t, n)) && Caused(s, h, m) && t != h
    ensures Caused(ApplyGive(s, t, n), h, m)
  {
    var r := ApplyGive(s, t, n);
    WaitersCall(s, m);
    WaitersCall(s, n);
    if s.mutexes[n].waiters != [] {
      assert s.mutexes[n].waiters[0] in s.mutexes[n].waiters;
    }
    forall u
      ensures Raises(s, h, m, u) ==> Raises(r, h, m, u)
      ensures u in s.mutexes[m].waiters ==> Knows(r, h, u)
    {
      assert u in s.mutexes[m].waiters ==> Knows(s, h, u);
    }
    CauseStays(s, r, h, m);
  }

  /** The remaining steps change one call, and a call on `m` that knows of its inheritance stays one. */
  lemma CallStepIsCaused(s: State, e: Event, h: TaskId, m: MutexId)
    requires Inv(s) && Enabled(s, e) && Caused(s, h, m)
    requires e.Take? ==> e.t != h
    requires !e.Block? && !e.Leave? && !e.Unlist? && !e.Give?
    ensures Caused(Apply(s, e), h, m)
  {
    var r := Apply(s, e);
    WaitersCall(s, m);
    forall u
      ensures Raises(s, h, m, u) ==> Raises(r, h, m, u)
      ensures u in s.mutexes[m].waiters ==> Knows(r, h, u)
    {
      assert u in s.mutexes[m].waiters ==> Knows(s, h, u);
    }
    CauseStays(s, r, h, m);
  }

  lemma StepIsCaused(s: State, e: Event, h: TaskId, m: MutexId)
    requires Inv(s) && Enabled(s, e) && Caused(s, h, m) && (e.Take? || e.Give? ==> e.t != h)
    ensures Caused(Apply(s, e), h, m)
  {
    match e
    case Block(t) =>
      if s.calls[t].mutex == m {
        BlockHereIsCaused(s, t, h, m);
      } else {
        BlockElsewhereIsCaused(s, t, h, m);
      }
    case Leave(t) =>
      if s.calls[t].mutex == m {
        LeaveHereIsCaused(s, t, h, m);
      } else {
        LeaveElsewhereIsCaused(s, t, h, m);
      }
    case Unlist(t) => UnlistIsCaused(s, t, h, m);
    case Give(t, n) => GiveElsewhereIsCaused(s, t, n, h, m);
    case _ => CallStepIsCaused(s, e, h, m);
  }

  /** In event `a` task `h`, holding nothing, takes `m`; up to state `k` it takes and gives nothing else. */
  ghost predicate HoldsOnly(run: seq<State>, events: seq<Event>, a: nat, k: nat, h: TaskId, m: MutexId) {
    && a < k && a < |events| && a < |run|
    && events[a] == Take(h, m) && h in run[a].tasks && run[a].tasks[h].held == 0
    && forall i :: a < i < k && i < |events| && (events[i].Take? || events[i].Give?) ==> events[i].t != h
  }

  /**
    In every run, as long as a task holds just one mutex, either it is at its base priority or
    a task at its priority is in a call on the mutex, and will undo the inheritance if it gives
    up. So once no call on the mutex is left, the holder is at its base.
   */
  lemma {:induction false} InheritedHasCause(run: seq<State>, events: seq<Event>, a: nat, k: nat, h: TaskId, m: MutexId)
    requires IsRun(run, events) && k < |run| && HoldsOnly(run, events, a, k, h, m)
    ensures Caused(run[k], h, m)
    ensures (forall t :: t in run[k].calls ==> run[k].calls[t].mutex != m) ==> run[k].tasks[h].priority == run[k].tasks[h].base
    decreases k
  {
    RunKeeps(run, events, k - 1);
    assert Step(run[k - 1], events[k - 1], run[k - 1 + 1]);
    if k - 1 == a {
      TakeIsCaused(run[a], h, m);
    } else {
      InheritedHasCause(run, events, a, k - 1, h, m);
      StepIsCaused(run[k - 1], events[k - 1], h, m);
    }
  }
}
