/**
  Mutexes and priority inheritance: xQueueSemaphoreTake and the mutex paths of queue.c, and
  xTaskPriorityInherit, xTaskPriorityDisinherit, vTaskPriorityDisinheritAfterTimeout and
  pvTaskIncrementMutexHeldCount of tasks.c.

  Any number of tasks and mutexes, held and waited for in any order, as long as the priority
  of a task inside a blocking call stays fixed.
 */
module Inheritance {
  import opened Shared
  import opened CursorList

  type MutexId = int

  const MAX_PRIORITIES: nat := 8
  const IDLE_PRIORITY: nat := 0

  /** uxBasePriority, uxPriority and uxMutexesHeld. */
  datatype Task = Task(base: nat, priority: nat, held: nat)

  /** xMutexHolder and xTasksWaitingToReceive. */
  datatype Mutex = Mutex(holder: Option<TaskId>, waiters: seq<TaskId>)

  /**
    Where a task is inside xQueueSemaphoreTake:
      Listed    on the wait list
      Woken     taken off the list by a give, back at the top of the loop
      Back      at the top of the loop for another reason
      Checking  found the mutex taken; about to check the time and block
      Expired   timed out; about to look once more
      Leaving   looked and found it taken; about to undo the inheritance it caused
      Retrying  looked and found it free; at the top of the loop with no time left
    `inherited` is xInheritanceOccurred.
   */
  datatype Stage = Listed | Woken | Back | Checking | Expired | Leaving | Retrying
  datatype Call = Call(mutex: MutexId, stage: Stage, inherited: bool)

  type Tasks = map<TaskId, Task>
  type Mutexes = map<MutexId, Mutex>
  type Calls = map<TaskId, Call>

  datatype State = State(tasks: Tasks, mutexes: Mutexes, calls: Calls, halted: bool)

  function PriorityIn(tasks: Tasks, t: TaskId): nat {
    if t in tasks then tasks[t].priority else 0
  }

  // ----- tasks.c -----

  datatype Inherited = Inherited(tasks: Tasks, occurred: bool)

  /** xTaskPriorityInherit, called by task `t`. */
  function Inherit(tasks: Tasks, holder: TaskId, t: TaskId): Inherited {
    if holder !in tasks || t !in tasks then Inherited(tasks, false)
    else if tasks[holder].priority < tasks[t].priority then
      Inherited(tasks[holder := tasks[holder].(priority := tasks[t].priority)], true)
    else
      Inherited(tasks, tasks[holder].base < tasks[t].priority)
  }

  /** xTaskPriorityDisinherit. */
  function Disinherit(task: Task): Task {
    var left := task.(held := if task.held > 0 then task.held - 1 else 0);
    if left.priority != left.base && left.held == 0 then left.(priority := left.base) else left
  }

  /** vTaskPriorityDisinheritAfterTimeout. */
  function DisinheritAfterTimeout(task: Task, highestWaiting: nat): Task {
    var use := if task.base < highestWaiting then highestWaiting else task.base;
    if task.priority != use && task.held == 1 then task.(priority := use) else task
  }

  // ----- queue.c -----

  /** The xItemValue of a waiting task's event list item. */
  function ItemValue(tasks: Tasks, t: TaskId): nat {
    var p := PriorityIn(tasks, t);
    if p < MAX_PRIORITIES then MAX_PRIORITIES - p else 0
  }

  function ItemValues(tasks: Tasks, waiters: seq<TaskId>): (values: seq<nat>)
    ensures |values| == |waiters|
    ensures forall i :: 0 <= i < |waiters| ==> values[i] == ItemValue(tasks, waiters[i])
  {
    seq(|waiters|, i requires 0 <= i < |waiters| => ItemValue(tasks, waiters[i]))
  }

  /** prvGetDisinheritPriorityAfterTimeout. */
  function HighestWaiting(tasks: Tasks, waiters: seq<TaskId>): nat {
    if waiters == [] then IDLE_PRIORITY else PriorityIn(tasks, waiters[0])
  }

  datatype Event =
    | Take(t: TaskId, m: MutexId)     // the count is 1
    | Miss(t: TaskId, m: MutexId)     // the count is 0 and there is time to wait
    | Block(t: TaskId)                // the time is not up and the count is still 0
    | Again(t: TaskId)                // the time is not up and the count is 1
    | Unlist(t: TaskId)               // the tick takes it off the list
    | TimeOut(t: TaskId)              // the time is up
    | Look(t: TaskId)
    | Leave(t: TaskId)
    | RetryFails(t: TaskId)           // the count is 0 and no time is left
    | Give(t: TaskId, m: MutexId)

  predicate InStage(calls: Calls, t: TaskId, stage: Stage) {
    t in calls && calls[t].stage == stage
  }

  /** The task is outside every call, or at the top of the loop of one for `m`. */
  predicate AtTop(calls: Calls, t: TaskId, m: MutexId) {
    t in calls ==>
      && calls[t].mutex == m
      && (calls[t].stage.Woken? || calls[t].stage.Back? || calls[t].stage.Retrying?)
  }

  /**
    A running task is never below a task that a give has made ready, because the scheduler
    runs a highest-priority ready task.
   */
  predicate RunsBefore(s: State, t: TaskId) {
    forall w :: w in s.calls && s.calls[w].stage.Woken? ==> PriorityIn(s.tasks, w) <= PriorityIn(s.tasks, t)
  }

  predicate Free(mutexes: Mutexes, m: MutexId) {
    m in mutexes && mutexes[m].holder.None?
  }

  predicate Taken(mutexes: Mutexes, m: MutexId) {
    m in mutexes && mutexes[m].holder.Some?
  }

  /** The priority that blocking gives the holder of the mutex. */
  function Raised(s: State, t: TaskId): nat
    requires t in s.calls && Taken(s.mutexes, s.calls[t].mutex)
  {
    var p := PriorityIn(s.tasks, s.mutexes[s.calls[t].mutex].holder.value);
    if p < PriorityIn(s.tasks, t) then PriorityIn(s.tasks, t) else p
  }

  /** The priority that giving up leaves it. */
  function Lowered(s: State, m: MutexId): nat
    requires Taken(s.mutexes, m)
  {
    var h := s.mutexes[m].holder.value;
    if h in s.tasks then DisinheritAfterTimeout(s.tasks[h], HighestWaiting(s.tasks, s.mutexes[m].waiters)).priority else 0
  }

  /** The priority of a task inside a call is fixed: one that waits is not raised or lowered itself. */
  predicate Undisturbed(s: State, h: TaskId, p: nat) {
    h in s.calls ==> PriorityIn(s.tasks, h) == p
  }

  predicate Enabled(s: State, e: Event) {
    && !s.halted
    && match e
       case Take(t, m) => t in s.tasks && AtTop(s.calls, t, m) && Free(s.mutexes, m) && RunsBefore(s, t)
       case Miss(t, m) =>
         && t in s.tasks
         && AtTop(s.calls, t, m) && !InStage(s.calls, t, Retrying) && Taken(s.mutexes, m)
       case Block(t) =>
         && InStage(s.calls, t, Checking) && Taken(s.mutexes, s.calls[t].mutex)
         && Undisturbed(s, s.mutexes[s.calls[t].mutex].holder.value, Raised(s, t))
       case Again(t) => InStage(s.calls, t, Checking) && Free(s.mutexes, s.calls[t].mutex)
       case Unlist(t) => InStage(s.calls, t, Listed) && s.calls[t].mutex in s.mutexes
       case TimeOut(t) => InStage(s.calls, t, Checking)
       case Look(t) => InStage(s.calls, t, Expired)
       case Leave(t) =>
         && InStage(s.calls, t, Leaving) && s.calls[t].mutex in s.mutexes
         && (Taken(s.mutexes, s.calls[t].mutex) ==>
               Undisturbed(s, s.mutexes[s.calls[t].mutex].holder.value, Lowered(s, s.calls[t].mutex)))
       case RetryFails(t) => InStage(s.calls, t, Retrying) && Taken(s.mutexes, s.calls[t].mutex)
       case Give(t, m) => t in s.tasks && t !in s.calls && m in s.mutexes && s.mutexes[m].holder == Some(t)
  }

  // ----- the invariant -----

  ghost predicate TasksOk(tasks: Tasks) {
    forall t :: t in tasks ==>
      && tasks[t].base <= tasks[t].priority < MAX_PRIORITIES
      && (tasks[t].held == 0 ==> tasks[t].priority == tasks[t].base)
  }

  ghost predicate CallsOk(tasks: Tasks, calls: Calls) {
    forall t :: t in calls ==> t in tasks
  }

  /** The tasks on the wait list of `m` are those blocked on it, ... */
  ghost predicate AllListed(calls: Calls, m: MutexId, waiters: seq<TaskId>) {
    forall i :: 0 <= i < |waiters| ==>
      waiters[i] in calls && calls[waiters[i]].mutex == m && calls[waiters[i]].stage.Listed?
  }

  /** ... in descending order of priority. */
  ghost predicate Descending(tasks: Tasks, waiters: seq<TaskId>) {
    forall i, j :: 0 <= i < j < |waiters| ==> PriorityIn(tasks, waiters[i]) >= PriorityIn(tasks, waiters[j])
  }

  ghost predicate WaitersOk(tasks: Tasks, calls: Calls, m: MutexId, waiters: seq<TaskId>) {
    && AllListed(calls, m, waiters)
    && Distinct(waiters)
    && Descending(tasks, waiters)
  }

  /** `h` is at or above its base priority and every task waiting for the mutex. */
  ghost predicate Above(tasks: Tasks, h: TaskId, waiters: seq<TaskId>) {
    && h in tasks
    && forall i :: 0 <= i < |waiters| ==> PriorityIn(tasks, waiters[i]) <= tasks[h].priority
  }

  /** A free mutex that tasks still wait for has been offered to one that is not below them. */
  ghost predicate Offered(tasks: Tasks, calls: Calls, m: MutexId, waiters: seq<TaskId>) {
    waiters != [] ==>
      exists w :: w in calls && calls[w].mutex == m && calls[w].stage.Woken?
                  && PriorityIn(tasks, w) >= PriorityIn(tasks, waiters[0])
  }

  ghost predicate MutexOk(tasks: Tasks, calls: Calls, m: MutexId, mutex: Mutex) {
    && WaitersOk(tasks, calls, m, mutex.waiters)
    && match mutex.holder
       case None => Offered(tasks, calls, m, mutex.waiters)
       case Some(h) => Above(tasks, h, mutex.waiters)
  }

  function HeldBy(mutexes: Mutexes, t: TaskId): set<MutexId> {
    set m | m in mutexes && mutexes[m].holder == Some(t)
  }

  ghost predicate CountsOk(tasks: Tasks, mutexes: Mutexes) {
    && (forall t :: t in tasks ==> tasks[t].held == |HeldBy(mutexes, t)|)
    && (forall m :: m in mutexes && mutexes[m].holder.Some? ==> mutexes[m].holder.value in tasks)
  }

  ghost predicate MutexesOk(tasks: Tasks, calls: Calls, mutexes: Mutexes) {
    forall m :: m in mutexes ==> MutexOk(tasks, calls, m, mutexes[m])
  }

  /** Every call is for a mutex that exists. */
  ghost predicate TargetsOk(calls: Calls, mutexes: Mutexes) {
    forall t :: t in calls ==> calls[t].mutex in mutexes
  }

  ghost predicate Inv(s: State) {
    && TasksOk(s.tasks)
    && CallsOk(s.tasks, s.calls)
    && TargetsOk(s.calls, s.mutexes)
    && CountsOk(s.tasks, s.mutexes)
    && MutexesOk(s.tasks, s.calls, s.mutexes)
  }

  // ----- the steps -----

  function ApplyTake(s: State, t: TaskId, m: MutexId): State
    requires t in s.tasks && m in s.mutexes
  {
    s.(tasks := s.tasks[t := s.tasks[t].(held := s.tasks[t].held + 1)],
       mutexes := s.mutexes[m := s.mutexes[m].(holder := Some(t))],
       calls := s.calls - {t})
  }

  /** vListInsert of the caller's event list item. */
  function InsertWaiter(tasks: Tasks, waiters: seq<TaskId>, t: TaskId): seq<TaskId> {
    Insert(waiters, InsertPosition(ItemValues(tasks, waiters), ItemValue(tasks, t)), t)
  }

  /** xTaskPriorityInherit, then vTaskPlaceOnEventList. */
  function ApplyBlock(s: State, t: TaskId): State
    requires t in s.calls && Taken(s.mutexes, s.calls[t].mutex)
  {
    var m := s.calls[t].mutex;
    var waiters := s.mutexes[m].waiters;
    var inherited := Inherit(s.tasks, s.mutexes[m].holder.value, t);
    s.(tasks := inherited.tasks,
       mutexes := s.mutexes[m := s.mutexes[m].(waiters := InsertWaiter(s.tasks, waiters, t))],
       calls := s.calls[t := Call(m, Listed, inherited.occurred)])
  }

  function ToStage(s: State, t: TaskId, stage: Stage): State
    requires t in s.calls
  {
    s.(calls := s.calls[t := s.calls[t].(stage := stage)])
  }

  function ApplyUnlist(s: State, t: TaskId): State
    requires t in s.calls && s.calls[t].mutex in s.mutexes
  {
    var m := s.calls[t].mutex;
    ToStage(s, t, Back).(mutexes := s.mutexes[m := s.mutexes[m].(waiters := Without(s.mutexes[m].waiters, t))])
  }

  /** The disinherit step of a task that gives up. */
  function ApplyLeave(s: State, t: TaskId): State
    requires t in s.calls && s.calls[t].mutex in s.mutexes
  {
    var m := s.mutexes[s.calls[t].mutex];
    var out := s.(calls := s.calls - {t});
    if m.holder.None? || m.holder.value !in s.tasks then out
    else
      var h := m.holder.value;
      out.(tasks := s.tasks[h := DisinheritAfterTimeout(s.tasks[h], HighestWaiting(s.tasks, m.waiters))])
  }

  function WakeHead(calls: Calls, waiters: seq<TaskId>): Calls {
    if waiters == [] || waiters[0] !in calls then calls
    else calls[waiters[0] := calls[waiters[0]].(stage := Woken)]
  }

  /** prvCopyDataToQueue on a mutex, then xTaskRemoveFromEventList. */
  function ApplyGive(s: State, t: TaskId, m: MutexId): State
    requires t in s.tasks && m in s.mutexes
  {
    var waiters := s.mutexes[m].waiters;
    s.(tasks := s.tasks[t := Disinherit(s.tasks[t])],
       mutexes := s.mutexes[m := Mutex(None, if waiters == [] then [] else waiters[1..])],
       calls := WakeHead(s.calls, waiters))
  }

  function Apply(s: State, e: Event): State
    requires Enabled(s, e)
  {
    match e
    case Take(t, m) => ApplyTake(s, t, m)
    case Miss(t, m) =>
      s.(calls := s.calls[t := Call(m, Checking, t in s.calls && s.calls[t].inherited)])
    case Block(t) => ApplyBlock(s, t)
    case Again(t) => ToStage(s, t, Back)
    case Unlist(t) => ApplyUnlist(s, t)
    case TimeOut(t) => ToStage(s, t, Expired)
    case Look(t) =>
      if Free(s.mutexes, s.calls[t].mutex) then ToStage(s, t, Retrying)
      else if s.calls[t].inherited then ToStage(s, t, Leaving)
      else s.(calls := s.calls - {t})
    case Leave(t) => ApplyLeave(s, t)
    case RetryFails(t) =>
      if s.calls[t].inherited then s.(halted := true)   // the configASSERT at the top of the loop
      else s.(calls := s.calls - {t})
    case Give(t, m) => ApplyGive(s, t, m)
  }

  // ----- what a step leaves alone -----

  lemma HolderKnown(s: State, m: MutexId)
    requires Inv(s) && Taken(s.mutexes, m)
    ensures s.mutexes[m].holder.value in s.tasks
    ensures s.tasks[s.mutexes[m].holder.value].held > 0
  {
    var h := s.mutexes[m].holder.value;
    assert m in HeldBy(s.mutexes, h);
  }

  ghost predicate SamePriorities(tasks: Tasks, tasks': Tasks, calls: Calls) {
    forall x :: x in calls ==> PriorityIn(tasks', x) == PriorityIn(tasks, x)
  }

  /** The calls that the invariant of `m` speaks of. */
  predicate Matters(call: Call, m: MutexId, free: bool) {
    call.mutex == m && (call.stage.Listed? || (free && call.stage.Woken?))
  }

  ghost predicate SameCalls(calls: Calls, calls': Calls, m: MutexId, free: bool) {
    forall x :: x in calls && Matters(calls[x], m, free) ==> x in calls' && calls'[x] == calls[x]
  }

  lemma MutexKept(tasks: Tasks, tasks': Tasks, calls: Calls, calls': Calls, m: MutexId, mutex: Mutex)
    requires MutexOk(tasks, calls, m, mutex)
    requires SamePriorities(tasks, tasks', calls) && SameCalls(calls, calls', m, mutex.holder.None?)
    requires mutex.holder.Some? ==>
               mutex.holder.value in tasks' && tasks'[mutex.holder.value].priority >= PriorityIn(tasks, mutex.holder.value)
    ensures MutexOk(tasks', calls', m, mutex)
  {
    var waiters := mutex.waiters;
    assert forall i :: 0 <= i < |waiters| ==> Matters(calls[waiters[i]], m, mutex.holder.None?);
    if mutex.holder.None? && waiters != [] {
      OfferKept(tasks, tasks', calls, calls', m, waiters);
    }
  }

  lemma OfferKept(tasks: Tasks, tasks': Tasks, calls: Calls, calls': Calls, m: MutexId, waiters: seq<TaskId>)
    requires waiters != [] && waiters[0] in calls && Offered(tasks, calls, m, waiters)
    requires SamePriorities(tasks, tasks', calls) && SameCalls(calls, calls', m, true)
    ensures Offered(tasks', calls', m, waiters)
  {
    var w :| w in calls && calls[w].mutex == m && calls[w].stage.Woken?
             && PriorityIn(tasks, w) >= PriorityIn(tasks, waiters[0]);
    assert Matters(calls[w], m, true);
  }

  /** A step that changes only the call of `t`, which no invariant of a mutex speaks of. */
  lemma CallChangeKeeps(s: State, t: TaskId, calls': Calls)
    requires Inv(s)
    requires forall x :: x != t ==> (x in calls' <==> x in s.calls) && (x in s.calls ==> calls'[x] == s.calls[x])
    requires t in calls' ==> t in s.tasks && calls'[t].mutex in s.mutexes
    requires t in s.calls ==> !Matters(s.calls[t], s.calls[t].mutex, Free(s.mutexes, s.calls[t].mutex))
    ensures Inv(s.(calls := calls'))
  {
    forall m | m in s.mutexes
      ensures MutexOk(s.tasks, calls', m, s.mutexes[m])
    {
      MutexKept(s.tasks, s.tasks, s.calls, calls', m, s.mutexes[m]);
    }
  }

  // ----- counting the mutexes a task holds -----

  lemma HeldAfterTake(mutexes: Mutexes, m: MutexId, mutex': Mutex, t: TaskId)
    requires Free(mutexes, m) && mutex'.holder == Some(t)
    ensures |HeldBy(mutexes[m := mutex'], t)| == |HeldBy(mutexes, t)| + 1
    ensures forall x :: x != t ==> HeldBy(mutexes[m := mutex'], x) == HeldBy(mutexes, x)
  {
    assert HeldBy(mutexes[m := mutex'], t) == HeldBy(mutexes, t) + {m};
  }

  lemma HeldAfterGive(mutexes: Mutexes, m: MutexId, mutex': Mutex, t: TaskId)
    requires Taken(mutexes, m) && mutexes[m].holder == Some(t) && mutex'.holder == None
    ensures |HeldBy(mutexes[m := mutex'], t)| == |HeldBy(mutexes, t)| - 1
    ensures forall x :: x != t ==> HeldBy(mutexes[m := mutex'], x) == HeldBy(mutexes, x)
  {
    assert m in HeldBy(mutexes, t);
    assert HeldBy(mutexes[m := mutex'], t) == HeldBy(mutexes, t) - {m};
  }

  lemma SameHolderKeepsCounts(tasks: Tasks, tasks': Tasks, mutexes: Mutexes, m: MutexId, mutex': Mutex)
    requires CountsOk(tasks, mutexes) && m in mutexes && mutex'.holder == mutexes[m].holder
    requires tasks'.Keys == tasks.Keys && forall x :: x in tasks ==> tasks'[x].held == tasks[x].held
    ensures CountsOk(tasks', mutexes[m := mutex'])
  {
    forall x | x in tasks
      ensures tasks'[x].held == |HeldBy(mutexes[m := mutex'], x)|
    {
      assert HeldBy(mutexes[m := mutex'], x) == HeldBy(mutexes, x);
    }
  }

  /** A task that holds one mutex holds no other. */
  lemma OnlyOne(s: State, h: TaskId, m: MutexId, n: MutexId)
    requires Inv(s) && h in s.tasks && s.tasks[h].held == 1
    requires m in HeldBy(s.mutexes, h) && n in HeldBy(s.mutexes, h)
    ensures m == n
  {
    var rest := HeldBy(s.mutexes, h) - {m};
    assert |rest| == 0;
    assert n !in rest;
  }

  // ----- wait lists -----

  lemma InsertedInOrder(tasks: Tasks, waiters: seq<TaskId>, t: TaskId)
    requires TasksOk(tasks) && Descending(tasks, waiters)
    ensures Descending(tasks, InsertWaiter(tasks, waiters, t))
  {
    var values := ItemValues(tasks, waiters);
    var at := InsertPosition(values, ItemValue(tasks, t));
    assert Ascending(values);
    InsertPositionSplits(values, ItemValue(tasks, t));
    assert forall i :: 0 <= i < |waiters| ==> values[i] == MAX_PRIORITIES - PriorityIn(tasks, waiters[i]);
    InsertKeepsOrder(waiters, at, t, (x: TaskId) => 0 - PriorityIn(tasks, x) as int);
  }

  lemma {:induction false} WithoutKeepsOrder(tasks: Tasks, list: seq<TaskId>, t: TaskId)
    requires Distinct(list) && Descending(tasks, list)
    ensures Distinct(Without(list, t)) && Descending(tasks, Without(list, t))
  {
    if list != [] {
      var rest := list[1..];
      var kept := Without(rest, t);
      WithoutKeepsOrder(tasks, rest, t);
      WithoutFacts(rest, t);
      forall i | 0 <= i < |kept|
        ensures list[0] != kept[i] && PriorityIn(tasks, list[0]) >= PriorityIn(tasks, kept[i])
      {
        assert kept[i] in kept;
        var j :| 0 <= j < |rest| && rest[j] == kept[i];
        assert list[j + 1] == kept[i];
      }
    }
  }

  /** The first waiter is a highest-priority one. */
  lemma HeadIsHighest(tasks: Tasks, waiters: seq<TaskId>)
    requires Descending(tasks, waiters)
    ensures forall i :: 0 <= i < |waiters| ==> PriorityIn(tasks, waiters[i]) <= HighestWaiting(tasks, waiters)
  {
  }

  // ----- every step keeps the invariant -----

  lemma TakeKeeps(s: State, t: TaskId, m: MutexId)
    requires Inv(s) && Enabled(s, Take(t, m))
    ensures Inv(ApplyTake(s, t, m))
  {
    var r := ApplyTake(s, t, m);
    HeldAfterTake(s.mutexes, m, r.mutexes[m], t);
    forall n | n in s.mutexes
      ensures MutexOk(r.tasks, r.calls, n, r.mutexes[n])
    {
      if n != m {
        MutexKept(s.tasks, r.tasks, s.calls, r.calls, n, s.mutexes[n]);
      } else {
        TakenFromNobodyAbove(s, t, m);
      }
    }
  }

  /** Whoever takes a free mutex is not below the tasks that still wait for it. */
  lemma TakenFromNobodyAbove(s: State, t: TaskId, m: MutexId)
    requires Inv(s) && Enabled(s, Take(t, m))
    ensures Above(s.tasks, t, s.mutexes[m].waiters)
    ensures MutexOk(ApplyTake(s, t, m).tasks, ApplyTake(s, t, m).calls, m, ApplyTake(s, t, m).mutexes[m])
  {
    var waiters := s.mutexes[m].waiters;
    assert MutexOk(s.tasks, s.calls, m, s.mutexes[m]);
    HeadIsHighest(s.tasks, waiters);
    if waiters != [] {
      assert Offered(s.tasks, s.calls, m, waiters);
    }
    var r := ApplyTake(s, t, m);
    assert forall x :: PriorityIn(r.tasks, x) == PriorityIn(s.tasks, x);
    assert t !in waiters;
  }

  lemma InheritFacts(tasks: Tasks, holder: TaskId, t: TaskId)
    requires TasksOk(tasks) && holder in tasks && t in tasks && tasks[holder].held > 0
    ensures var r := Inherit(tasks, holder, t).tasks;
            && TasksOk(r) && r.Keys == tasks.Keys
            && r[holder].priority >= tasks[holder].priority && r[holder].priority >= tasks[t].priority
            && (r[holder].priority == tasks[holder].priority || r[holder].priority == tasks[t].priority)
            && (forall x :: x in tasks ==> r[x].held == tasks[x].held && r[x].base == tasks[x].base)
            && (forall x :: x in tasks && x != holder ==> r[x] == tasks[x])
    ensures Inherit(tasks, holder, t).occurred <==> tasks[holder].base < tasks[t].priority
  {
  }

  lemma InsertedAllListed(calls: Calls, m: MutexId, waiters: seq<TaskId>, at: nat, t: TaskId, flag: bool)
    requires AllListed(calls, m, waiters) && Distinct(waiters) && t !in waiters && at <= |waiters|
    ensures AllListed(calls[t := Call(m, Listed, flag)], m, Insert(waiters, at, t))
    ensures Distinct(Insert(waiters, at, t))
  {
    InsertFacts(waiters, at, t);
    var r := Insert(waiters, at, t);
    forall i | 0 <= i < |r|
      ensures r[i] == t || (r[i] in calls && calls[r[i]].mutex == m && calls[r[i]].stage.Listed?)
    {
      assert r[i] == if i < at then waiters[i] else if i == at then t else waiters[i - 1];
    }
  }

  /** The wait list with the caller on it, and the holder raised to the caller's priority. */
  lemma InsertedWaiterOk(tasks: Tasks, calls: Calls, m: MutexId, waiters: seq<TaskId>, t: TaskId, flag: bool)
    requires TasksOk(tasks) && WaitersOk(tasks, calls, m, waiters) && t !in waiters
    ensures WaitersOk(tasks, calls[t := Call(m, Listed, flag)], m, InsertWaiter(tasks, waiters, t))
    ensures forall x :: x in InsertWaiter(tasks, waiters, t) ==> x in waiters || x == t
  {
    var at := InsertPosition(ItemValues(tasks, waiters), ItemValue(tasks, t));
    InsertedInOrder(tasks, waiters, t);
    InsertedAllListed(calls, m, waiters, at, t, flag);
    InsertFacts(waiters, at, t);
  }

  lemma BlockKeepsMutex(s: State, t: TaskId)
    requires Inv(s) && Enabled(s, Block(t))
    ensures var r := ApplyBlock(s, t); var m := s.calls[t].mutex;
            MutexOk(r.tasks, r.calls, m, r.mutexes[m])
  {
    var m := s.calls[t].mutex;
    var r := ApplyBlock(s, t);
    var waiters, waiters' := s.mutexes[m].waiters, r.mutexes[m].waiters;
    var h := s.mutexes[m].holder.value;
    assert MutexOk(s.tasks, s.calls, m, s.mutexes[m]);
    HolderKnown(s, m);
    InheritFacts(s.tasks, h, t);
    InsertedWaiterOk(s.tasks, s.calls, m, waiters, t, r.calls[t].inherited);
    assert SamePriorities(s.tasks, r.tasks, r.calls);
    assert forall i :: 0 <= i < |waiters'| ==> waiters'[i] in waiters || waiters'[i] == t;
  }

  lemma BlockKeeps(s: State, t: TaskId)
    requires Inv(s) && Enabled(s, Block(t))
    ensures Inv(ApplyBlock(s, t))
  {
    var m := s.calls[t].mutex;
    var r := ApplyBlock(s, t);
    HolderKnown(s, m);
    InheritFacts(s.tasks, s.mutexes[m].holder.value, t);
    SameHolderKeepsCounts(s.tasks, r.tasks, s.mutexes, m, r.mutexes[m]);
    forall n | n in s.mutexes
      ensures MutexOk(r.tasks, r.calls, n, r.mutexes[n])
    {
      if n != m {
        MutexKept(s.tasks, r.tasks, s.calls, r.calls, n, s.mutexes[n]);
      } else {
        BlockKeepsMutex(s, t);
      }
    }
  }

  lemma UnlistKeepsMutex(s: State, t: TaskId)
    requires Inv(s) && Enabled(s, Unlist(t))
    ensures var r := ApplyUnlist(s, t); var m := s.calls[t].mutex;
            MutexOk(r.tasks, r.calls, m, r.mutexes[m])
  {
    var m := s.calls[t].mutex;
    var r := ApplyUnlist(s, t);
    var waiters := s.mutexes[m].waiters;
    var kept := Without(waiters, t);
    assert MutexOk(s.tasks, s.calls, m, s.mutexes[m]);
    WithoutFacts(waiters, t);
    WithoutKeepsOrder(s.tasks, waiters, t);
    HeadIsHighest(s.tasks, waiters);
    forall i | 0 <= i < |kept|
      ensures kept[i] in waiters && kept[i] != t
    {
      assert kept[i] in kept;
    }
    if s.mutexes[m].holder.None? && kept != [] {
      var w :| w in s.calls && s.calls[w].mutex == m && s.calls[w].stage.Woken?
               && PriorityIn(s.tasks, w) >= PriorityIn(s.tasks, waiters[0]);
      assert w in r.calls && r.calls[w] == s.calls[w];
    }
  }

  lemma UnlistKeeps(s: State, t: TaskId)
    requires Inv(s) && Enabled(s, Unlist(t))
    ensures Inv(ApplyUnlist(s, t))
  {
    var m := s.calls[t].mutex;
    var r := ApplyUnlist(s, t);
    SameHolderKeepsCounts(s.tasks, r.tasks, s.mutexes, m, r.mutexes[m]);
    forall n | n in s.mutexes
      ensures MutexOk(r.tasks, r.calls, n, r.mutexes[n])
    {
      if n != m {
        MutexKept(s.tasks, r.tasks, s.calls, r.calls, n, s.mutexes[n]);
      } else {
        UnlistKeepsMutex(s, t);
      }
    }
  }

  lemma LeaveKeeps(s: State, t: TaskId)
    requires Inv(s) && Enabled(s, Leave(t))
    ensures Inv(ApplyLeave(s, t))
  {
    var m := s.calls[t].mutex;
    var r := ApplyLeave(s, t);
    if Free(s.mutexes, m) {
      CallChangeKeeps(s, t, r.calls);
    } else {
      HolderKnown(s, m);
      SameHolderKeepsCounts(s.tasks, r.tasks, s.mutexes, m, s.mutexes[m]);
      assert r.mutexes == s.mutexes[m := s.mutexes[m]];
      LeaveKeepsTasks(s, t);
      forall n | n in s.mutexes
        ensures MutexOk(r.tasks, r.calls, n, s.mutexes[n])
      {
        LeaveKeepsMutex(s, t, n);
      }
    }
  }

  lemma LeaveKeepsTasks(s: State, t: TaskId)
    requires Inv(s) && Enabled(s, Leave(t)) && Taken(s.mutexes, s.calls[t].mutex)
    ensures TasksOk(ApplyLeave(s, t).tasks)
    ensures CallsOk(ApplyLeave(s, t).tasks, ApplyLeave(s, t).calls)
    ensures SamePriorities(s.tasks, ApplyLeave(s, t).tasks, s.calls)
  {
    HolderKnown(s, s.calls[t].mutex);
  }

  lemma LeaveKeepsMutex(s: State, t: TaskId, n: MutexId)
    requires Inv(s) && Enabled(s, Leave(t)) && Taken(s.mutexes, s.calls[t].mutex) && n in s.mutexes
    ensures MutexOk(ApplyLeave(s, t).tasks, ApplyLeave(s, t).calls, n, s.mutexes[n])
  {
    var m := s.calls[t].mutex;
    var r := ApplyLeave(s, t);
    var h := s.mutexes[m].holder.value;
    HolderKnown(s, m);
    LeaveKeepsTasks(s, t);
    assert MutexOk(s.tasks, s.calls, n, s.mutexes[n]);
    if s.mutexes[n].holder == Some(h) && s.tasks[h].held == 1 {
      assert m in HeldBy(s.mutexes, h) && n in HeldBy(s.mutexes, h);
      OnlyOne(s, h, m, n);
      LowersToTheWaiters(s, t);
    } else {
      MutexKept(s.tasks, r.tasks, s.calls, r.calls, n, s.mutexes[n]);
    }
  }

  lemma LowersToTheWaiters(s: State, t: TaskId)
    requires Inv(s) && Enabled(s, Leave(t)) && Taken(s.mutexes, s.calls[t].mutex)
    requires s.mutexes[s.calls[t].mutex].holder.value in s.tasks
    requires s.tasks[s.mutexes[s.calls[t].mutex].holder.value].held == 1
    requires SamePriorities(s.tasks, ApplyLeave(s, t).tasks, s.calls)
    ensures MutexOk(ApplyLeave(s, t).tasks, ApplyLeave(s, t).calls, s.calls[t].mutex, s.mutexes[s.calls[t].mutex])
  {
    var m := s.calls[t].mutex;
    assert MutexOk(s.tasks, s.calls, m, s.mutexes[m]);
    HeadIsHighest(s.tasks, s.mutexes[m].waiters);
  }

  /** Waking the head leaves a wait list in order, with the mutex offered to the woken task. */
  lemma WakeHeadKeeps(tasks: Tasks, calls: Calls, m: MutexId, waiters: seq<TaskId>)
    requires WaitersOk(tasks, calls, m, waiters) && waiters != []
    ensures MutexOk(tasks, WakeHead(calls, waiters), m, Mutex(None, waiters[1..]))
  {
    var rest := waiters[1..];
    var calls' := WakeHead(calls, waiters);
    forall i | 0 <= i < |rest|
      ensures rest[i] == waiters[i + 1] && rest[i] != waiters[0]
    {
    }
    assert AllListed(calls', m, rest);
    assert Distinct(rest);
    assert Descending(tasks, rest);
    if rest != [] {
      assert waiters[0] in calls' && calls'[waiters[0]].mutex == m && calls'[waiters[0]].stage.Woken?;
    }
  }

  lemma GiveKeepsMutex(s: State, t: TaskId, m: MutexId)
    requires Inv(s) && Enabled(s, Give(t, m)) && s.tasks[t].held > 0
    ensures MutexOk(ApplyGive(s, t, m).tasks, ApplyGive(s, t, m).calls, m, ApplyGive(s, t, m).mutexes[m])
  {
    var waiters := s.mutexes[m].waiters;
    var r := ApplyGive(s, t, m);
    assert MutexOk(s.tasks, s.calls, m, s.mutexes[m]);
    if waiters != [] {
      WakeHeadKeeps(s.tasks, s.calls, m, waiters);
      assert SamePriorities(s.tasks, r.tasks, r.calls);
      MutexKept(s.tasks, r.tasks, r.calls, r.calls, m, r.mutexes[m]);
    }
  }

  lemma GiveKeepsTasks(s: State, t: TaskId, m: MutexId)
    requires Inv(s) && Enabled(s, Give(t, m)) && s.tasks[t].held > 0
    ensures TasksOk(ApplyGive(s, t, m).tasks)
    ensures CallsOk(ApplyGive(s, t, m).tasks, ApplyGive(s, t, m).calls)
    ensures CountsOk(ApplyGive(s, t, m).tasks, ApplyGive(s, t, m).mutexes)
  {
    HeldAfterGive(s.mutexes, m, ApplyGive(s, t, m).mutexes[m], t);
  }

  /** Another mutex of the giver keeps the giver's inherited priority up. */
  lemma GiveKeepsOther(s: State, t: TaskId, m: MutexId, n: MutexId)
    requires Inv(s) && Enabled(s, Give(t, m)) && s.tasks[t].held > 0 && n in s.mutexes && n != m
    ensures MutexOk(ApplyGive(s, t, m).tasks, ApplyGive(s, t, m).calls, n, s.mutexes[n])
  {
    var r := ApplyGive(s, t, m);
    assert MutexOk(s.tasks, s.calls, m, s.mutexes[m]);
    if s.mutexes[n].holder == Some(t) && s.tasks[t].held == 1 {
      assert m in HeldBy(s.mutexes, t) && n in HeldBy(s.mutexes, t);
      OnlyOne(s, t, m, n);
    }
    MutexKept(s.tasks, r.tasks, s.calls, r.calls, n, s.mutexes[n]);
  }

  lemma GiveKeeps(s: State, t: TaskId, m: MutexId)
    requires Inv(s) && Enabled(s, Give(t, m)) && s.tasks[t].held > 0
    ensures Inv(ApplyGive(s, t, m))
  {
    var r := ApplyGive(s, t, m);
    GiveKeepsTasks(s, t, m);
    forall n | n in s.mutexes
      ensures MutexOk(r.tasks, r.calls, n, r.mutexes[n])
    {
      if n != m {
        GiveKeepsOther(s, t, m, n);
      } else {
        GiveKeepsMutex(s, t, m);
      }
    }
  }

  lemma StepKeeps(s: State, e: Event)
    requires Inv(s) && Enabled(s, e)
    ensures Inv(Apply(s, e))
  {
    match e
    case Take(t, m) => TakeKeeps(s, t, m);
    case Block(t) => BlockKeeps(s, t);
    case Unlist(t) => UnlistKeeps(s, t);
    case Leave(t) => LeaveKeeps(s, t);
    case Give(t, m) =>
      HolderKnown(s, m);
      GiveKeeps(s, t, m);
    case _ => CallChangeKeeps(s, e.t, Apply(s, e).calls);
  }

  // ----- whole runs -----

  /** No mutex is held, nobody waits, and every task is at its base priority. */
  ghost predicate Initial(s: State) {
    && (forall t :: t in s.tasks ==> s.tasks[t].priority == s.tasks[t].base < MAX_PRIORITIES && s.tasks[t].held == 0)
    && (forall m :: m in s.mutexes ==> s.mutexes[m] == Mutex(None, []))
    && s.calls == map[] && !s.halted
  }

  ghost predicate Step(s: State, e: Event, r: State) {
    Enabled(s, e) && r == Apply(s, e)
  }

  ghost predicate IsRun(run: seq<State>, events: seq<Event>) {
    && |run| == |events| + 1
    && Initial(run[0])
    && forall i :: 0 <= i < |events| ==> Step(run[i], events[i], run[i + 1])
  }

  lemma InitialInv(s: State)
    requires Initial(s)
    ensures Inv(s)
  {
    forall t | t in s.tasks
      ensures HeldBy(s.mutexes, t) == {}
    {
      assert forall m :: m in s.mutexes ==> s.mutexes[m].holder == None;
    }
  }

  lemma {:induction false} RunKeeps(run: seq<State>, events: seq<Event>, k: nat)
    requires IsRun(run, events) && k < |run|
    ensures Inv(run[k])
  {
    if k == 0 {
      InitialInv(run[0]);
    } else {
      RunKeeps(run, events, k - 1);
      assert Step(run[k - 1], events[k - 1], run[k - 1 + 1]);
      StepKeeps(run[k - 1], events[k - 1]);
    }
  }

  /** In every run a holder is at or above its base and every task on a wait list of a mutex it holds. */
  lemma HolderIsNeverBelow(run: seq<State>, events: seq<Event>, k: nat, m: MutexId)
    requires IsRun(run, events) && k < |run| && Taken(run[k].mutexes, m)
    ensures var h := run[k].mutexes[m].holder.value; var waiters := run[k].mutexes[m].waiters;
            && h in run[k].tasks
            && run[k].tasks[h].priority >= run[k].tasks[h].base
            && forall i :: 0 <= i < |waiters| ==> run[k].tasks[h].priority >= PriorityIn(run[k].tasks, waiters[i])
  {
    RunKeeps(run, events, k);
    assert MutexOk(run[k].tasks, run[k].calls, m, run[k].mutexes[m]);
  }

  /** uxMutexesHeld is the number of mutexes naming the task as holder; with none, it is at its base. */
  lemma HeldCountIsExact(run: seq<State>, events: seq<Event>, k: nat, t: TaskId)
    requires IsRun(run, events) && k < |run| && t in run[k].tasks
    ensures run[k].tasks[t].held == |HeldBy(run[k].mutexes, t)|
    ensures HeldBy(run[k].mutexes, t) == {} ==> run[k].tasks[t].priority == run[k].tasks[t].base
  {
    RunKeeps(run, events, k);
  }

  /** `p` is the greater of the task's base and the priorities of the waiters. */
  ghost predicate IsGreatest(p: nat, tasks: Tasks, h: TaskId, waiters: seq<TaskId>)
    requires h in tasks
  {
    && p >= tasks[h].base
    && (forall i :: 0 <= i < |waiters| ==> p >= PriorityIn(tasks, waiters[i]))
    && (p == tasks[h].base || exists i :: 0 <= i < |waiters| && p == PriorityIn(tasks, waiters[i]))
  }

  /** After a timed-out waiter's disinherit step, the holder of one mutex is at exactly that priority. */
  lemma LeaveIsExact(run: seq<State>, events: seq<Event>, k: nat, t: TaskId)
    requires IsRun(run, events) && k < |events| && events[k] == Leave(t)
    requires t in run[k].calls && Taken(run[k].mutexes, run[k].calls[t].mutex)
    ensures var m := run[k].calls[t].mutex; var h := run[k].mutexes[m].holder.value;
            && h in run[k].tasks && h in run[k + 1].tasks && run[k + 1].mutexes == run[k].mutexes
            && (run[k].tasks[h].held == 1 ==>
                  IsGreatest(run[k + 1].tasks[h].priority, run[k + 1].tasks, h, run[k].mutexes[m].waiters))
            && (run[k].tasks[h].held != 1 ==> run[k + 1].tasks[h] == run[k].tasks[h])
  {
    RunKeeps(run, events, k);
    assert Step(run[k], events[k], run[k + 1]);
    var s := run[k];
    var m := s.calls[t].mutex;
    HolderKnown(s, m);
    LeaveKeepsTasks(s, t);
    assert MutexOk(s.tasks, s.calls, m, s.mutexes[m]);
    HeadIsHighest(s.tasks, s.mutexes[m].waiters);
  }

  /**
    Giving the last mutex a task holds puts it back at its base; giving another keeps what it
    inherited. The longest-waiting of the highest-priority waiters is woken.
   */
  lemma GiveRestores(run: seq<State>, events: seq<Event>, k: nat, t: TaskId, m: MutexId)
    requires IsRun(run, events) && k < |events| && events[k] == Give(t, m)
    ensures t in run[k].tasks && t in run[k + 1].tasks && m in run[k].mutexes && Free(run[k + 1].mutexes, m)
    ensures HeldBy(run[k + 1].mutexes, t) == {} ==> run[k + 1].tasks[t].priority == run[k].tasks[t].base
    ensures HeldBy(run[k + 1].mutexes, t) != {} ==> run[k + 1].tasks[t].priority == run[k].tasks[t].priority
    ensures run[k].mutexes[m].waiters != [] ==>
              var w := run[k].mutexes[m].waiters[0];
              && InStage(run[k + 1].calls, w, Woken)
              && forall i :: 0 <= i < |run[k].mutexes[m].waiters| ==>
                   PriorityIn(run[k].tasks, run[k].mutexes[m].waiters[i]) <= PriorityIn(run[k].tasks, w)
    ensures run[k].mutexes[m].waiters != [] ==> run[k + 1].mutexes[m].waiters == run[k].mutexes[m].waiters[1..]
  {
    RunKeeps(run, events, k);
    RunKeeps(run, events, k + 1);
    var s := run[k];
    assert Step(s, events[k], run[k + 1]);
    HolderKnown(s, m);
    assert MutexOk(s.tasks, s.calls, m, s.mutexes[m]);
    HeadIsHighest(s.tasks, s.mutexes[m].waiters);
    HeldAfterGive(s.mutexes, m, run[k + 1].mutexes[m], t);
  }

  // ----- the configASSERT at the top of the loop -----

  ghost predicate NoEventOf(events: seq<Event>, j: nat, k: nat, t: TaskId) {
    forall i :: j < i < k && i < |events| ==> events[i].t != t
  }

  /** In event `j` task `t`, out of time and having caused inheritance, finds mutex `m` free. */
  ghost predicate FindsFree(run: seq<State>, events: seq<Event>, j: nat, t: TaskId, m: MutexId) {
    && j < |events| && j < |run| && events[j] == Look(t)
    && t in run[j].calls && run[j].calls[t].mutex == m && run[j].calls[t].inherited && Free(run[j].mutexes, m)
  }

  /** Task `t` found mutex `m` free in event `j`, and before its next step another task took it in event `i`. */
  ghost predicate Overtaken(run: seq<State>, events: seq<Event>, j: nat, i: nat, k: nat, t: TaskId, m: MutexId) {
    && FindsFree(run, events, j, t, m)
    && j < i < k && i < |events| && events[i].Take? && events[i].m == m && events[i].t != t
    && NoEventOf(events, j, k, t)
  }

  /** Nobody else moves a task that is about to retry. */
  lemma RetryingStays(s: State, e: Event, t: TaskId)
    requires Inv(s) && Enabled(s, e) && e.t != t && t in s.calls && s.calls[t].stage.Retrying?
    ensures t in Apply(s, e).calls && Apply(s, e).calls[t] == s.calls[t]
  {
    if e.Give? {
      HolderKnown(s, e.m);
      assert MutexOk(s.tasks, s.calls, e.m, s.mutexes[e.m]);
    }
  }

  /** A task comes to retry only by its own look at a free mutex, or was about to already. */
  lemma RetryingBefore(s: State, e: Event, t: TaskId)
    requires Inv(s) && Enabled(s, e) && !Apply(s, e).halted && InStage(Apply(s, e).calls, t, Retrying)
    ensures if e.t == t
            then e == Look(t) && t in s.calls && Free(s.mutexes, s.calls[t].mutex) && SameAim(s.calls, Apply(s, e).calls, t)
            else t in s.calls && s.calls[t] == Apply(s, e).calls[t]
  {
    if e.Give? {
      HolderKnown(s, e.m);
      assert MutexOk(s.tasks, s.calls, e.m, s.mutexes[e.m]);
    }
  }

  predicate SameAim(calls: Calls, calls': Calls, t: TaskId) {
    t in calls && t in calls' && calls[t].mutex == calls'[t].mutex && calls[t].inherited == calls'[t].inherited
  }

  lemma {:induction false} FindLook(run: seq<State>, events: seq<Event>, k: nat, t: TaskId) returns (j: nat)
    requires IsRun(run, events) && k < |run| && !run[k].halted && InStage(run[k].calls, t, Retrying) && run[k].calls[t].inherited
    ensures j < k && FindsFree(run, events, j, t, run[k].calls[t].mutex) && NoEventOf(events, j, k, t)
    decreases k
  {
    assert k > 0;
    RunKeeps(run, events, k - 1);
    assert Step(run[k - 1], events[k - 1], run[k - 1 + 1]);
    RetryingBefore(run[k - 1], events[k - 1], t);
    if events[k - 1].t == t {
      j := k - 1;
    } else {
      j := FindLook(run, events, k - 1, t);
    }
  }

  lemma OnlyTakeTakes(s: State, e: Event, m: MutexId)
    requires Inv(s) && Enabled(s, e) && !Taken(s.mutexes, m) && Taken(Apply(s, e).mutexes, m)
    ensures e.Take? && e.m == m
  {
  }

  /** A mutex that was free and is taken was taken in between. */
  lemma {:induction false} FindTake(run: seq<State>, events: seq<Event>, a: nat, b: nat, m: MutexId) returns (i: nat)
    requires IsRun(run, events) && a <= b < |run| && Free(run[a].mutexes, m) && Taken(run[b].mutexes, m)
    ensures a <= i < b && events[i].Take? && events[i].m == m
    decreases b
  {
    RunKeeps(run, events, b - 1);
    assert Step(run[b - 1], events[b - 1], run[b - 1 + 1]);
    if Taken(run[b - 1].mutexes, m) {
      i := FindTake(run, events, a, b - 1, m);
    } else {
      OnlyTakeTakes(run[b - 1], events[b - 1], m);
      i := b - 1;
    }
  }

  /** A task that found the mutex free is about to retry until its next step. */
  lemma {:induction false} StillRetrying(run: seq<State>, events: seq<Event>, j: nat, k: nat, t: TaskId, m: MutexId)
    requires IsRun(run, events) && j < k < |run| && FindsFree(run, events, j, t, m) && NoEventOf(events, j, k, t)
    ensures InStage(run[k].calls, t, Retrying) && run[k].calls[t].mutex == m && run[k].calls[t].inherited
    decreases k
  {
    RunKeeps(run, events, k - 1);
    assert Step(run[k - 1], events[k - 1], run[k - 1 + 1]);
    if j < k - 1 {
      StillRetrying(run, events, j, k - 1, t, m);
      RetryingStays(run[k - 1], events[k - 1], t);
    }
  }

  /**
    xQueueSemaphoreTake asserts that a caller out of time and without the mutex has caused no
    inheritance. In every run, the assertion fails exactly when such a caller comes to retry
    after another task took the mutex that its last look had found free.
   */
  lemma AssertionFailsExactlyWhen(run: seq<State>, events: seq<Event>, k: nat)
    requires IsRun(run, events) && k < |events|
    ensures run[k + 1].halted <==>
              && events[k].RetryFails?
              && exists j, i, m :: Overtaken(run, events, j, i, k, events[k].t, m)
  {
    RunKeeps(run, events, k);
    assert Step(run[k], events[k], run[k + 1]);
    var t := events[k].t;
    if run[k + 1].halted {
      HaltsInRetry(run[k], events[k]);
      OvertakenBefore(run, events, k);
    }
    if events[k].RetryFails? && exists j, i, m :: Overtaken(run, events, j, i, k, t, m) {
      var j, i, m :| Overtaken(run, events, j, i, k, t, m);
      StillRetrying(run, events, j, k, t, m);
    }
  }

  /** Only running out of time makes a call look at the mutex a last time. */
  lemma {:induction false} FindTimeOut(run: seq<State>, events: seq<Event>, k: nat, t: TaskId) returns (i: nat)
    requires IsRun(run, events) && k < |run| && !run[k].halted && InStage(run[k].calls, t, Expired)
    ensures i < k && i < |events| && events[i] == TimeOut(t)
    decreases k
  {
    assert k > 0;
    RunKeeps(run, events, k - 1);
    assert Step(run[k - 1], events[k - 1], run[k - 1 + 1]);
    if events[k - 1] == TimeOut(t) {
      i := k - 1;
    } else {
      ExpiredBefore(run[k - 1], events[k - 1], t);
      i := FindTimeOut(run, events, k - 1, t);
    }
  }

  lemma ExpiredBefore(s: State, e: Event, t: TaskId)
    requires Inv(s) && Enabled(s, e) && e != TimeOut(t) && InStage(Apply(s, e).calls, t, Expired)
    ensures InStage(s.calls, t, Expired)
  {
  }

  /** A task whose calls never time out, waiting portMAX_DELAY, never fails the assertion. */
  lemma NoTimeOutNoFailure(run: seq<State>, events: seq<Event>, k: nat)
    requires IsRun(run, events) && k < |events|
    requires forall i :: 0 <= i < k ==> events[i] != TimeOut(events[k].t)
    ensures !run[k + 1].halted
  {
    var t := events[k].t;
    AssertionFailsExactlyWhen(run, events, k);
    if run[k + 1].halted {
      var j: nat, i: nat, m: MutexId :| Overtaken(run, events, j, i, k, t, m);
      RunKeeps(run, events, j);
      assert Step(run[j], events[j], run[j + 1]);
      var e := FindTimeOut(run, events, j, t);
      assert false;
    }
  }

  lemma HaltsInRetry(s: State, e: Event)
    requires Inv(s) && Enabled(s, e) && Apply(s, e).halted
    ensures e.RetryFails? && s.calls[e.t].inherited
  {
  }

  lemma OvertakenBefore(run: seq<State>, events: seq<Event>, k: nat)
    requires IsRun(run, events) && k < |events| && events[k].RetryFails? && Enabled(run[k], events[k])
    requires run[k].calls[events[k].t].inherited
    ensures exists j, i, m :: Overtaken(run, events, j, i, k, events[k].t, m)
  {
    var t := events[k].t;
    var m := run[k].calls[t].mutex;
    var j := FindLook(run, events, k, t);
    RunKeeps(run, events, j);
    assert Step(run[j], events[j], run[j + 1]);
    var i := FindTake(run, events, j + 1, k, m);
    assert Overtaken(run, events, j, i, k, t, m);
  }

  /** And once overtaken, with the mutex still taken, the retry is the caller's next step. */
  lemma OvertakenRetryFails(run: seq<State>, events: seq<Event>, j: nat, i: nat, k: nat, t: TaskId, m: MutexId)
    requires IsRun(run, events) && k < |run| && !run[k].halted
    requires Overtaken(run, events, j, i, k, t, m) && Taken(run[k].mutexes, m)
    ensures Enabled(run[k], RetryFails(t)) && Inv(run[k]) && Apply(run[k], RetryFails(t)).halted
  {
    RunKeeps(run, events, k);
    StillRetrying(run, events, j, k, t, m);
  }

  /** Three tasks of base priority 1, 2 and 3, and one mutex. */
  function Scene(p: nat, held1: nat, held3: nat, mutex: Mutex, calls: Calls): State {
    State(map[1 := Task(1, p, held1), 2 := Task(2, 2, 0), 3 := Task(3, 3, held3)], map[0 := mutex], calls, false)
  }

  const HELD := Mutex(Some(1), [])
  const FREE := Mutex(None, [])

  function Trying(stage: Stage, inherited: bool): Calls {
    map[2 := Call(0, stage, inherited)]
  }

  lemma TaskTwoMisses()
    ensures Step(Scene(1, 0, 0, FREE, map[]), Take(1, 0), Scene(1, 1, 0, HELD, map[]))
    ensures Step(Scene(1, 1, 0, HELD, map[]), Miss(2, 0), Scene(1, 1, 0, HELD, Trying(Checking, false)))
  {
  }

  lemma TaskTwoBlocks()
    ensures Step(Scene(1, 1, 0, HELD, Trying(Checking, false)), Block(2),
                 Scene(2, 1, 0, Mutex(Some(1), [2]), Trying(Listed, true)))
  {
    assert InsertWaiter(Scene(1, 1, 0, HELD, Trying(Checking, false)).tasks, [], 2) == [2];
  }

  lemma TaskTwoTimesOut()
    ensures Step(Scene(2, 1, 0, Mutex(Some(1), [2]), Trying(Listed, true)), Unlist(2), Scene(2, 1, 0, HELD, Trying(Back, true)))
    ensures Step(Scene(2, 1, 0, HELD, Trying(Back, true)), Miss(2, 0), Scene(2, 1, 0, HELD, Trying(Checking, true)))
    ensures Step(Scene(2, 1, 0, HELD, Trying(Checking, true)), TimeOut(2), Scene(2, 1, 0, HELD, Trying(Expired, true)))
  {
    assert Without([2], 2) == Without([2][1..], 2) == [];
  }

  lemma TaskTwoIsOvertaken()
    ensures Step(Scene(2, 1, 0, HELD, Trying(Expired, true)), Give(1, 0), Scene(1, 0, 0, FREE, Trying(Expired, true)))
    ensures Step(Scene(1, 0, 0, FREE, Trying(Expired, true)), Look(2), Scene(1, 0, 0, FREE, Trying(Retrying, true)))
    ensures Step(Scene(1, 0, 0, FREE, Trying(Retrying, true)), Take(3, 0),
                 Scene(1, 0, 1, Mutex(Some(3), []), Trying(Retrying, true)))
  {
  }

  lemma Then(run: seq<State>, events: seq<Event>, e: Event, r: State) returns (run': seq<State>, events': seq<Event>)
    requires IsRun(run, events) && Step(run[|events|], e, r)
    ensures IsRun(run', events') && run'[|events'|] == r
  {
    run', events' := run + [r], events + [e];
    forall i | 0 <= i < |events'|
      ensures Step(run'[i], events'[i], run'[i + 1])
    {
      if i < |events| {
        assert Step(run[i], events[i], run[i + 1]);
      }
    }
  }

  lemma ThreeSteps(run: seq<State>, events: seq<Event>, e: Event, r: State, e': Event, r': State, e'': Event, r'': State)
    returns (run': seq<State>, events': seq<Event>)
    requires IsRun(run, events) && Step(run[|events|], e, r) && Step(r, e', r') && Step(r', e'', r'')
    ensures IsRun(run', events') && run'[|events'|] == r''
  {
    run', events' := Then(run, events, e, r);
    run', events' := Then(run', events', e', r');
    run', events' := Then(run', events', e'', r'');
  }

  lemma StartsFree()
    ensures IsRun([Scene(1, 0, 0, FREE, map[])], [])
  {
  }

  lemma RunToListed() returns (run: seq<State>, events: seq<Event>)
    ensures IsRun(run, events) && run[|events|] == Scene(2, 1, 0, Mutex(Some(1), [2]), Trying(Listed, true))
  {
    StartsFree();
    TaskTwoMisses();
    TaskTwoBlocks();
    run, events := ThreeSteps([Scene(1, 0, 0, FREE, map[])], [], Take(1, 0), Scene(1, 1, 0, HELD, map[]),
                              Miss(2, 0), Scene(1, 1, 0, HELD, Trying(Checking, false)),
                              Block(2), Scene(2, 1, 0, Mutex(Some(1), [2]), Trying(Listed, true)));
  }

  lemma RunToExpired() returns (run: seq<State>, events: seq<Event>)
    ensures IsRun(run, events) && run[|events|] == Scene(2, 1, 0, HELD, Trying(Expired, true))
  {
    run, events := RunToListed();
    TaskTwoTimesOut();
    run, events := ThreeSteps(run, events, Unlist(2), Scene(2, 1, 0, HELD, Trying(Back, true)),
                              Miss(2, 0), Scene(2, 1, 0, HELD, Trying(Checking, true)),
                              TimeOut(2), Scene(2, 1, 0, HELD, Trying(Expired, true)));
  }

  lemma RunToOvertaken() returns (run: seq<State>, events: seq<Event>)
    ensures IsRun(run, events) && run[|events|] == Scene(1, 0, 1, Mutex(Some(3), []), Trying(Retrying, true))
  {
    run, events := RunToExpired();
    TaskTwoIsOvertaken();
    run, events := ThreeSteps(run, events, Give(1, 0), Scene(1, 0, 0, FREE, Trying(Expired, true)),
                              Look(2), Scene(1, 0, 0, FREE, Trying(Retrying, true)),
                              Take(3, 0), Scene(1, 0, 1, Mutex(Some(3), []), Trying(Retrying, true)));
  }

  /** Task 1 holds the mutex, task 2 times out on it having raised task 1, task 3 overtakes task 2. */
  lemma AssertionCanFail() returns (run: seq<State>, events: seq<Event>)
    ensures IsRun(run, events) && run[|events|].halted
  {
    run, events := RunToOvertaken();
    run, events := Then(run, events, RetryFails(2), run[|events|].(halted := true));
  }
}
