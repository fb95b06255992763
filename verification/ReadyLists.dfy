/**
  Which task runs next (FreeRTOS/Source/tasks.c): one ready list per priority, the bound
  uxTopReadyPriority, and the downward scan of taskSELECT_HIGHEST_PRIORITY_TASK.
 */
module ReadyLists {
  import opened Shared
  import opened CursorList

  /** A ready list; pxIndex is always on the list. */
  type Ring = l: CursorList<TaskId> | l.cursor <= |l.items| witness CursorList([], 0)

  /** `priority` is uxPriority of every task; `current` is pxCurrentTCB. */
  datatype Sched = Sched(priority: map<TaskId, nat>, lists: seq<Ring>, top: nat, current: TaskId)

  /** The task exists and its priority is below configMAX_PRIORITIES. */
  predicate Known(s: Sched, t: TaskId) {
    t in s.priority && s.priority[t] < |s.lists|
  }

  predicate IsReady(s: Sched, t: TaskId) {
    Known(s, t) && t in s.lists[s.priority[t]].items
  }

  /** Every ready list holds only tasks of its priority, and `top` bounds the non-empty ones. */
  ghost predicate Inv(s: Sched) {
    && s.top < |s.lists|
    && (forall p :: 0 <= p < |s.lists| ==> Distinct(s.lists[p].items))
    && (forall p, t :: 0 <= p < |s.lists| && t in s.lists[p].items ==> t in s.priority && s.priority[t] == p)
    && (forall p :: s.top < p < |s.lists| ==> s.lists[p].items == [])
  }

  // ----- the operations; each is the identity where the source would fail a configASSERT -----

  /** prvAddTaskToReadyList. */
  function AddReady(s: Sched, t: TaskId): Sched {
    if !Known(s, t) then s
    else
      var p := s.priority[t];
      s.(top := if p > s.top then p else s.top, lists := s.lists[p := InsertEnd(s.lists[p], t)])
  }

  /** uxListRemove of a ready task's state list item. */
  function RemoveReady(s: Sched, t: TaskId): Sched {
    if !IsReady(s, t) then s
    else
      var p := s.priority[t];
      s.(lists := s.lists[p := RemoveAt(s.lists[p], IndexOf(s.lists[p].items, t))])
  }

  /**
    The list handling shared by vTaskPrioritySet, xTaskPriorityInherit, xTaskPriorityDisinherit
    and vTaskPriorityDisinheritAfterTimeout.
   */
  function Reprioritise(s: Sched, t: TaskId, p: nat): Sched {
    if IsReady(s, t) then AddReady(RemoveReady(s, t).(priority := s.priority[t := p]), t)
    else s.(priority := s.priority[t := p])
  }

  /** The highest non-empty list at or below `from`. */
  function TopNonEmpty(lists: seq<Ring>, from: nat): (p: nat)
    requires from < |lists|
    requires exists q :: 0 <= q <= from && lists[q].items != []
    ensures p <= from && lists[p].items != []
    ensures forall q :: p < q <= from ==> lists[q].items == []
  {
    if lists[from].items != [] then from else TopNonEmpty(lists, from - 1)
  }

  ghost predicate SomeReady(s: Sched) {
    exists p :: 0 <= p < |s.lists| && s.lists[p].items != []
  }

  function SwitchContext(s: Sched): Sched
    requires Inv(s) && SomeReady(s)
  {
    var p := TopNonEmpty(s.lists, s.top);
    var l := Advance(s.lists[p]);
    s.(top := p, lists := s.lists[p := l], current := l.items[l.cursor])
  }

  // ----- what they keep -----

  lemma AddReadyKeepsInv(s: Sched, t: TaskId)
    requires Inv(s) && Known(s, t) && !IsReady(s, t)
    ensures Inv(AddReady(s, t))
  {
    var p, r := s.priority[t], AddReady(s, t);
    AddedItems(s, t);
    forall q | 0 <= q < |r.lists|
      ensures Distinct(r.lists[q].items)
    {
      assert q != p ==> r.lists[q] == s.lists[q];
    }
    forall q, u | 0 <= q < |r.lists| && u in r.lists[q].items
      ensures u in r.priority && r.priority[u] == q
    {
      assert q != p ==> r.lists[q] == s.lists[q];
    }
  }

  /** The list of the task's priority gains the task, the others stay as they are. */
  lemma AddedItems(s: Sched, t: TaskId)
    requires Inv(s) && Known(s, t) && !IsReady(s, t)
    ensures var p, r := s.priority[t], AddReady(s, t);
            && Distinct(r.lists[p].items)
            && (forall u :: u in r.lists[p].items <==> u in s.lists[p].items || u == t)
            && (forall q :: 0 <= q < |s.lists| && q != p ==> r.lists[q] == s.lists[q])
  {
    var l := s.lists[s.priority[t]];
    InsertFacts(l.items, l.cursor, t);
  }

  lemma AddReadyKeeps(s: Sched, t: TaskId)
    requires Inv(s) && Known(s, t) && !IsReady(s, t)
    ensures Inv(AddReady(s, t))
    ensures forall u :: IsReady(AddReady(s, t), u) <==> IsReady(s, u) || u == t
  {
    var r := AddReady(s, t);
    AddReadyKeepsInv(s, t);
    forall u
      ensures IsReady(r, u) <==> IsReady(s, u) || u == t
    {
      AddedItems(s, t);
    }
  }

  lemma RemoveReadyKeeps(s: Sched, t: TaskId)
    requires Inv(s) && IsReady(s, t)
    ensures Inv(RemoveReady(s, t))
    ensures forall u :: IsReady(RemoveReady(s, t), u) <==> IsReady(s, u) && u != t
  {
    var p := s.priority[t];
    DeleteFacts(s.lists[p].items, IndexOf(s.lists[p].items, t));
  }

  /** A task on no ready list may change priority freely. */
  lemma UnlistedPriorityIsFree(s: Sched, t: TaskId, p: nat)
    requires Inv(s) && !IsReady(s, t) && p < |s.lists|
    ensures var r := s.(priority := s.priority[t := p]);
            && Inv(r)
            && forall u :: IsReady(r, u) <==> IsReady(s, u)
  {
    var r := s.(priority := s.priority[t := p]);
    forall q | 0 <= q < |s.lists|
      ensures t !in s.lists[q].items
    {
    }
    assert Inv(r);
  }

  lemma ReprioritiseKeeps(s: Sched, t: TaskId, p: nat)
    requires Inv(s) && p < |s.lists|
    ensures Inv(Reprioritise(s, t, p))
    ensures forall u :: IsReady(Reprioritise(s, t, p), u) <==> IsReady(s, u)
    ensures Reprioritise(s, t, p).priority == s.priority[t := p]
  {
    if IsReady(s, t) {
      RemoveReadyKeeps(s, t);
      var m := RemoveReady(s, t);
      UnlistedPriorityIsFree(m, t, p);
      AddReadyKeeps(m.(priority := s.priority[t := p]), t);
    } else {
      UnlistedPriorityIsFree(s, t, p);
    }
  }

  /** The scan ends, and the task it picks is ready and has the highest priority of all ready tasks. */
  lemma SwitchPicksHighest(s: Sched)
    requires Inv(s) && SomeReady(s)
    ensures var r := SwitchContext(s);
            && Inv(r)
            && IsReady(r, r.current)
            && (forall u :: IsReady(r, u) <==> IsReady(s, u))
            && (forall u :: IsReady(s, u) ==> s.priority[u] <= s.priority[r.current])
  {
    var r := SwitchContext(s);
    assert r.lists[r.top].items == s.lists[r.top].items;
    assert r.current in r.lists[r.top].items;
  }

  // ----- every run -----

  datatype Event =
    | BecomesReady(t: TaskId)
    | Blocks(t: TaskId)
    | GetsPriority(t: TaskId, p: nat)
    | Switch

  ghost predicate Enabled(s: Sched, e: Event)
    requires Inv(s)
  {
    match e
    case BecomesReady(t) => Known(s, t) && !IsReady(s, t)
    case Blocks(t) => IsReady(s, t)
    case GetsPriority(t, p) => p < |s.lists|
    case Switch => SomeReady(s)
  }

  function Apply(s: Sched, e: Event): Sched
    requires Inv(s) && Enabled(s, e)
  {
    match e
    case BecomesReady(t) => AddReady(s, t)
    case Blocks(t) => RemoveReady(s, t)
    case GetsPriority(t, p) => Reprioritise(s, t, p)
    case Switch => SwitchContext(s)
  }

  ghost predicate Step(s: Sched, e: Event, r: Sched) {
    Inv(s) ==> Enabled(s, e) && r == Apply(s, e)
  }

  ghost predicate IsRun(run: seq<Sched>, events: seq<Event>) {
    && |run| == |events| + 1
    && Inv(run[0])
    && (forall t :: !IsReady(run[0], t))
    && forall i :: 0 <= i < |events| ==> Step(run[i], events[i], run[i + 1])
  }

  lemma {:induction false} RunKeeps(run: seq<Sched>, events: seq<Event>, k: nat)
    requires IsRun(run, events) && k < |run|
    ensures Inv(run[k])
  {
    if k > 0 {
      RunKeeps(run, events, k - 1);
      var s := run[k - 1];
      assert Step(s, events[k - 1], run[k]);
      match events[k - 1]
      case BecomesReady(t) => AddReadyKeeps(s, t);
      case Blocks(t) => RemoveReadyKeeps(s, t);
      case GetsPriority(t, p) => ReprioritiseKeeps(s, t, p);
      case Switch => SwitchPicksHighest(s);
    }
  }

  /** In every run, the task a context switch leaves running is a highest-priority ready task. */
  lemma EverySwitchPicksHighest(run: seq<Sched>, events: seq<Event>, k: nat)
    requires IsRun(run, events) && k < |events| && events[k].Switch?
    ensures Inv(run[k]) && Inv(run[k + 1])
    ensures IsReady(run[k + 1], run[k + 1].current)
    ensures forall u :: IsReady(run[k], u) ==> run[k].priority[u] <= run[k].priority[run[k + 1].current]
  {
    RunKeeps(run, events, k);
    assert Step(run[k], events[k], run[k + 1]);
    SwitchPicksHighest(run[k]);
  }

  // ----- equal shares -----

  /** The tasks that `n` context switches in a row would run. */
  function Picks(s: Sched, n: nat): (picks: seq<TaskId>)
    requires Inv(s) && SomeReady(s)
    ensures |picks| == n
    decreases n
  {
    if n == 0 then []
    else
      SwitchPicksHighest(s);
      var r := SwitchContext(s);
      assert IsReady(r, r.current) && SomeReady(r);
      [r.current] + Picks(r, n - 1)
  }

  lemma {:induction false} PicksGoRound(s: Sched, n: nat, j: nat)
    requires Inv(s) && SomeReady(s) && j < n
    ensures var l := s.lists[TopNonEmpty(s.lists, s.top)];
            Picks(s, n)[j] == (VisitedAdvances(l, j); l.items[Visited(l, j)])
    decreases n
  {
    var p := TopNonEmpty(s.lists, s.top);
    var l := s.lists[p];
    SwitchPicksHighest(s);
    var r := SwitchContext(s);
    assert IsReady(r, r.current) && SomeReady(r);
    VisitedAdvances(l, j);
    if j == 0 {
    } else {
      VisitedAdvances(l, j - 1);
      assert r.lists[p] == Advance(l);
      assert TopNonEmpty(r.lists, r.top) == p;
      PicksGoRound(r, n - 1, j - 1);
    }
  }

  function Rotated<T>(items: seq<T>, c: nat): seq<T>
    requires c <= |items|
  {
    items[c..] + items[..c]
  }

  lemma RotatedPermutes<T>(items: seq<T>, c: nat)
    requires c <= |items|
    ensures multiset(Rotated(items, c)) == multiset(items)
  {
    assert items == items[..c] + items[c..];
  }

  lemma PickInRotation(s: Sched, l: Ring, j: nat)
    requires Inv(s) && SomeReady(s) && l == s.lists[TopNonEmpty(s.lists, s.top)] && j < |l.items|
    ensures Picks(s, |l.items|)[j] == Rotated(l.items, NextCursor(l))[j]
  {
    PicksGoRound(s, |l.items|, j);
    VisitedWraps(l, j);
  }

  /** With k tasks of the highest priority, any k switches in a row run each exactly once. */
  lemma EqualShares(s: Sched)
    requires Inv(s) && SomeReady(s)
    ensures var l := s.lists[TopNonEmpty(s.lists, s.top)];
            && Picks(s, |l.items|) == Rotated(l.items, NextCursor(l))
            && multiset(Picks(s, |l.items|)) == multiset(l.items)
  {
    var l := s.lists[TopNonEmpty(s.lists, s.top)];
    forall j | 0 <= j < |l.items|
      ensures Picks(s, |l.items|)[j] == Rotated(l.items, NextCursor(l))[j]
    {
      PickInRotation(s, l, j);
    }
    RotatedPermutes(l.items, NextCursor(l));
  }

  // ----- the code of taskSELECT_HIGHEST_PRIORITY_TASK -----

  class Scheduler {
    var state: Sched

    constructor (initial: Sched)
      ensures state == initial
    {
      state := initial;
    }

    method SelectHighestPriorityTask()
      requires Inv(state) && SomeReady(state)
      modifies this
      ensures state == SwitchContext(old(state))
    {
      var topPriority := state.top;
      while state.lists[topPriority].items == []
        invariant topPriority <= state.top
        invariant exists q :: 0 <= q <= topPriority && state.lists[q].items != []
        invariant forall q :: topPriority < q <= state.top ==> state.lists[q].items == []
        decreases topPriority
      {
        topPriority := topPriority - 1;
      }
      var next := Advance(state.lists[topPriority]);
      state := state.(
        lists := state.lists[topPriority := next],
        top := topPriority,
        current := next.items[next.cursor]);
    }
  }
}
