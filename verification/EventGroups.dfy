/**
  Event groups: FreeRTOS/Source/event_groups.c, with 32-bit ticks.

  A 32-bit word is the set of its bit positions: union is |, intersection &, difference & ~.
  The event list item of a waiting task holds the bits it waits for in positions 0 to 23 and
  control bits in positions 24 to 31.
 */
module EventGroups {
  import opened Shared

  type Word = set<nat>

  const CLEAR_EVENTS_ON_EXIT: nat := 24
  const UNBLOCKED_DUE_TO_BIT_SET: nat := 25
  const WAIT_FOR_ALL: nat := 26
  const CONTROL_BYTES: Word := {24, 25, 26, 27, 28, 29, 30, 31}

  /** A task and the value of its event list item. */
  datatype Waiter = Waiter(task: TaskId, item: Word)

  /** A released task, and the value that vTaskRemoveFromUnorderedEventList stores for it. */
  datatype Release = Release(task: TaskId, value: Word)

  /** The configASSERTs on the bits that a caller passes. */
  predicate Plain(bits: Word) {
    bits !! CONTROL_BYTES
  }

  predicate Waitable(want: Word) {
    Plain(want) && want != {}
  }

  /** prvTestWaitCondition. */
  predicate WaitConditionMet(bits: Word, want: Word, all: bool) {
    if all then bits * want == want else bits * want != {}
  }

  // ----- the item value of a waiting task -----

  function Pack(want: Word, clearOnExit: bool, all: bool): Word {
    want + (if clearOnExit then {CLEAR_EVENTS_ON_EXIT} else {}) + (if all then {WAIT_FOR_ALL} else {})
  }

  function Want(item: Word): Word {
    item - CONTROL_BYTES
  }

  predicate ClearsOnExit(item: Word) {
    item * CONTROL_BYTES * {CLEAR_EVENTS_ON_EXIT} != {}
  }

  predicate WaitsForAll(item: Word) {
    item * CONTROL_BYTES * {WAIT_FOR_ALL} != {}
  }

  /** The test of xEventGroupSetBits on an item value. */
  predicate Satisfied(item: Word, bits: Word) {
    if WaitsForAll(item) then Want(item) * bits == Want(item) else Want(item) * bits != {}
  }

  /** The control bits come back out as they went in. */
  lemma PackRoundTrip(want: Word, clearOnExit: bool, all: bool)
    requires Plain(want)
    ensures Want(Pack(want, clearOnExit, all)) == want
    ensures ClearsOnExit(Pack(want, clearOnExit, all)) == clearOnExit
    ensures WaitsForAll(Pack(want, clearOnExit, all)) == all
  {
    var item := Pack(want, clearOnExit, all);
    assert item * CONTROL_BYTES * {CLEAR_EVENTS_ON_EXIT} == if clearOnExit then {CLEAR_EVENTS_ON_EXIT} else {};
    assert item * CONTROL_BYTES * {WAIT_FOR_ALL} == if all then {WAIT_FOR_ALL} else {};
  }

  /** The test on the packed value is the test on what was packed. */
  lemma SatisfiedMeansMet(want: Word, clearOnExit: bool, all: bool, bits: Word)
    requires Plain(want)
    ensures Satisfied(Pack(want, clearOnExit, all), bits) <==> WaitConditionMet(bits, want, all)
  {
    PackRoundTrip(want, clearOnExit, all);
    assert want * bits == bits * want;
  }

  /** Fewer bits satisfy fewer waiters. */
  lemma FewerBits(item: Word, bits: Word, fewer: Word)
    requires fewer <= bits && Satisfied(item, fewer)
    ensures Satisfied(item, bits)
  {
    var want := Want(item);
    assert want * fewer <= want * bits <= want;
  }

  // ----- what setting bits does to the waiting tasks -----

  function Remaining(waiters: seq<Waiter>, bits: Word): seq<Waiter> {
    if waiters == [] then []
    else if Satisfied(waiters[0].item, bits) then Remaining(waiters[1..], bits)
    else [waiters[0]] + Remaining(waiters[1..], bits)
  }

  function Released(waiters: seq<Waiter>, bits: Word): seq<Release> {
    if waiters == [] then []
    else if Satisfied(waiters[0].item, bits) then
      [Release(waiters[0].task, bits + {UNBLOCKED_DUE_TO_BIT_SET})] + Released(waiters[1..], bits)
    else Released(waiters[1..], bits)
  }

  /** The bits of released tasks that asked for them to be cleared. */
  function ToClear(waiters: seq<Waiter>, bits: Word): Word {
    if waiters == [] then {}
    else
      (if Satisfied(waiters[0].item, bits) && ClearsOnExit(waiters[0].item) then Want(waiters[0].item) else {})
      + ToClear(waiters[1..], bits)
  }

  lemma {:induction false} RemainingExactly(waiters: seq<Waiter>, bits: Word, w: Waiter)
    ensures w in Remaining(waiters, bits) <==> w in waiters && !Satisfied(w.item, bits)
  {
    if waiters != [] {
      RemainingExactly(waiters[1..], bits, w);
      assert waiters == [waiters[0]] + waiters[1..];
    }
  }

  lemma {:induction false} ReleasedExactly(waiters: seq<Waiter>, bits: Word, r: Release)
    ensures r in Released(waiters, bits) <==>
              && r.value == bits + {UNBLOCKED_DUE_TO_BIT_SET}
              && exists w :: w in waiters && w.task == r.task && Satisfied(w.item, bits)
  {
    if waiters != [] {
      ReleasedExactly(waiters[1..], bits, r);
      assert waiters == [waiters[0]] + waiters[1..];
    }
  }

  /** A bit is cleared exactly when a released task asked for it. */
  lemma {:induction false} ToClearExactly(waiters: seq<Waiter>, bits: Word, b: nat)
    ensures b in ToClear(waiters, bits) <==> exists w :: w in waiters && Asks(w, bits, b)
  {
    if waiters != [] {
      ToClearExactly(waiters[1..], bits, b);
      assert waiters == [waiters[0]] + waiters[1..];
      if Asks(waiters[0], bits, b) {
        assert waiters[0] in waiters;
      }
    }
  }

  /** The waiter is released by `bits`, clears on exit, and waits for bit `b`. */
  predicate Asks(w: Waiter, bits: Word, b: nat) {
    Satisfied(w.item, bits) && ClearsOnExit(w.item) && b in Want(w.item)
  }

  // ----- the calls -----

  /** uxEventBits and xTasksWaitingForBits. */
  datatype Group = Group(bits: Word, waiters: seq<Waiter>)

  /** xEventGroupSetBits. */
  function SetBits(g: Group, set_: Word): Group {
    var bits := g.bits + set_;
    Group(bits - ToClear(g.waiters, bits), Remaining(g.waiters, bits))
  }

  /** Exactly the waiters satisfied by old|set are released, and what they asked for is cleared. */
  lemma SetBitsExactly(g: Group, set_: Word)
    ensures var bits, r := g.bits + set_, SetBits(g, set_);
            && (forall w :: w in r.waiters <==> w in g.waiters && !Satisfied(w.item, bits))
            && (forall x :: x in Released(g.waiters, bits) <==>
                            && x.value == bits + {UNBLOCKED_DUE_TO_BIT_SET}
                            && exists w :: w in g.waiters && w.task == x.task && Satisfied(w.item, bits))
            && (forall b :: b in r.bits <==> b in bits && !(exists w :: w in g.waiters && Asks(w, bits, b)))
  {
    var bits, r := g.bits + set_, SetBits(g, set_);
    forall w
      ensures w in r.waiters <==> w in g.waiters && !Satisfied(w.item, bits)
    {
      RemainingExactly(g.waiters, bits, w);
    }
    forall x
      ensures x in Released(g.waiters, bits) <==>
                && x.value == bits + {UNBLOCKED_DUE_TO_BIT_SET}
                && exists w :: w in g.waiters && w.task == x.task && Satisfied(w.item, bits)
    {
      ReleasedExactly(g.waiters, bits, x);
    }
    forall b
      ensures b in r.bits <==> b in bits && !(exists w :: w in g.waiters && Asks(w, bits, b))
    {
      ToClearExactly(g.waiters, bits, b);
    }
  }

  /** The order of the wait list does not matter. */
  lemma SetBitsIgnoresOrder(g: Group, g': Group, set_: Word)
    requires g'.bits == g.bits && multiset(g'.waiters) == multiset(g.waiters)
    ensures SetBits(g', set_).bits == SetBits(g, set_).bits
    ensures forall w :: w in SetBits(g', set_).waiters <==> w in SetBits(g, set_).waiters
    ensures forall x :: x in Released(g'.waiters, g.bits + set_) <==> x in Released(g.waiters, g.bits + set_)
  {
    forall w: Waiter
      ensures w in g'.waiters <==> w in g.waiters
    {
      assert w in multiset(g'.waiters) <==> w in multiset(g.waiters);
    }
    SetBitsExactly(g, set_);
    SetBitsExactly(g', set_);
  }

  /** No waiting task has its condition met. */
  ghost predicate Quiescent(g: Group) {
    forall w :: w in g.waiters ==> !Satisfied(w.item, g.bits)
  }

  /** Where a task is that has left the wait list without its bits: about to look once more. */
  datatype Late = Late(want: Word, clearOnExit: bool, all: bool)

  datatype State = State(group: Group, late: map<TaskId, Late>)

  datatype Event =
    | Set(bits: Word)
    | Wait(task: TaskId, want: Word, clearOnExit: bool, all: bool, block: bool)
    | Clear(bits: Word)
    | Sync(task: TaskId, bits: Word, want: Word, block: bool)
    | TimeOut(at: nat)            // the tick takes a task off the wait list
    | LookAgain(task: TaskId)     // that task runs again

  /** xEventGroupWaitBits, up to where the caller blocks. */
  function WaitBits(g: Group, task: TaskId, want: Word, clearOnExit: bool, all: bool, block: bool): Group {
    if WaitConditionMet(g.bits, want, all) then
      if clearOnExit then g.(bits := g.bits - want) else g
    else if block then g.(waiters := g.waiters + [Waiter(task, Pack(want, clearOnExit, all))])
    else g
  }

  /** xEventGroupSync, up to where the caller blocks. */
  function SyncBits(g: Group, task: TaskId, bits: Word, want: Word, block: bool): Group {
    var r := SetBits(g, bits);
    if (g.bits + bits) * want == want then r.(bits := r.bits - want)
    else if block then r.(waiters := r.waiters + [Waiter(task, Pack(want, true, true))])
    else r
  }

  /** What a task that timed out does to the bits: its condition may have been met meanwhile. */
  function LookBits(g: Group, late: Late): Group {
    if WaitConditionMet(g.bits, late.want, late.all) && late.clearOnExit then g.(bits := g.bits - late.want) else g
  }

  predicate Enabled(s: State, e: Event) {
    match e
    case Set(bits) => Plain(bits)
    case Wait(_, want, _, _, _) => Waitable(want)
    case Clear(bits) => Plain(bits)
    case Sync(_, bits, want, _) => Plain(bits) && Waitable(want)
    case TimeOut(at) => at < |s.group.waiters|
    case LookAgain(task) => task in s.late
  }

  function Apply(s: State, e: Event): State
    requires Enabled(s, e)
  {
    match e
    case Set(bits) => s.(group := SetBits(s.group, bits))
    case Wait(task, want, clearOnExit, all, block) => s.(group := WaitBits(s.group, task, want, clearOnExit, all, block))
    case Clear(bits) => s.(group := s.group.(bits := s.group.bits - bits))
    case Sync(task, bits, want, block) => s.(group := SyncBits(s.group, task, bits, want, block))
    case TimeOut(at) =>
      var w := s.group.waiters[at];
      State(s.group.(waiters := s.group.waiters[..at] + s.group.waiters[at + 1..]),
            s.late[w.task := Late(Want(w.item), ClearsOnExit(w.item), WaitsForAll(w.item))])
    case LookAgain(task) => State(LookBits(s.group, s.late[task]), s.late - {task})
  }

  lemma SubsetKeeps(g: Group, fewer: Word)
    requires Quiescent(g) && fewer <= g.bits
    ensures Quiescent(g.(bits := fewer))
  {
    forall w | w in g.waiters
      ensures !Satisfied(w.item, fewer)
    {
      if Satisfied(w.item, fewer) {
        FewerBits(w.item, g.bits, fewer);
      }
    }
  }

  /** Setting bits leaves no waiter satisfied, whatever the state before. */
  lemma SetBitsQuiets(g: Group, bits: Word)
    ensures Quiescent(SetBits(g, bits))
  {
    SetBitsExactly(g, bits);
    SubsetKeeps(Group(g.bits + bits, SetBits(g, bits).waiters), SetBits(g, bits).bits);
  }

  lemma AppendKeeps(g: Group, w: Waiter)
    requires Quiescent(g) && !Satisfied(w.item, g.bits)
    ensures Quiescent(g.(waiters := g.waiters + [w]))
  {
  }

  lemma WaitQuiet(g: Group, task: TaskId, want: Word, clearOnExit: bool, all: bool, block: bool)
    requires Quiescent(g) && Waitable(want)
    ensures Quiescent(WaitBits(g, task, want, clearOnExit, all, block))
  {
    SatisfiedMeansMet(want, clearOnExit, all, g.bits);
    SubsetKeeps(g, g.bits - want);
    if !WaitConditionMet(g.bits, want, all) {
      AppendKeeps(g, Waiter(task, Pack(want, clearOnExit, all)));
    }
  }

  lemma SyncQuiet(g: Group, task: TaskId, bits: Word, want: Word, block: bool)
    requires Waitable(want)
    ensures Quiescent(SyncBits(g, task, bits, want, block))
  {
    var r := SetBits(g, bits);
    SetBitsQuiets(g, bits);
    if (g.bits + bits) * want == want {
      SubsetKeeps(r, r.bits - want);
    } else {
      SatisfiedMeansMet(want, true, true, g.bits + bits);
      if Satisfied(Pack(want, true, true), r.bits) {
        FewerBits(Pack(want, true, true), g.bits + bits, r.bits);
      }
      AppendKeeps(r, Waiter(task, Pack(want, true, true)));
    }
  }

  lemma StepKeeps(s: State, e: Event)
    requires Quiescent(s.group) && Enabled(s, e)
    ensures Quiescent(Apply(s, e).group)
  {
    match e
    case Set(bits) => SetBitsQuiets(s.group, bits);
    case Wait(task, want, clearOnExit, all, block) => WaitQuiet(s.group, task, want, clearOnExit, all, block);
    case Clear(bits) => SubsetKeeps(s.group, s.group.bits - bits);
    case Sync(task, bits, want, block) => SyncQuiet(s.group, task, bits, want, block);
    case TimeOut(at) =>
    case LookAgain(task) => SubsetKeeps(s.group, s.group.bits - s.late[task].want);
  }

  ghost predicate IsRun(run: seq<State>, events: seq<Event>) {
    && |run| == |events| + 1
    && run[0].group.waiters == []
    && forall i :: 0 <= i < |events| ==> Enabled(run[i], events[i]) && run[i + 1] == Apply(run[i], events[i])
  }

  /** After every call in every run, no task on the wait list has its condition met. */
  lemma {:induction false} AlwaysQuiescent(run: seq<State>, events: seq<Event>, k: nat)
    requires IsRun(run, events) && k < |run|
    ensures Quiescent(run[k].group)
  {
    if k > 0 {
      AlwaysQuiescent(run, events, k - 1);
      StepKeeps(run[k - 1], events[k - 1]);
    }
  }

  // ----- what each call does to the bits and the wait list -----

  /** What the caller is waiting for: all of the bits, or any of them. */
  ghost predicate Met(bits: Word, want: Word, all: bool) {
    if all then want <= bits else exists b :: b in want && b in bits
  }

  lemma MetIsTested(bits: Word, want: Word, all: bool)
    ensures WaitConditionMet(bits, want, all) <==> Met(bits, want, all)
  {
    if all {
      assert want <= bits <==> bits * want == want;
    } else {
      assert forall b :: b in bits * want <==> b in want && b in bits;
    }
  }

  /** The list item stands for the call: whom it releases, by which bits, and what it clears. */
  ghost predicate StandsFor(w: Waiter, task: TaskId, want: Word, clearOnExit: bool, all: bool) {
    && w.task == task
    && (forall bits: Word :: Satisfied(w.item, bits) <==> Met(bits, want, all))
    && (forall bits: Word, b: nat :: Asks(w, bits, b) <==> Met(bits, want, all) && clearOnExit && b in want)
  }

  lemma PackedStandsFor(task: TaskId, want: Word, clearOnExit: bool, all: bool)
    requires Plain(want)
    ensures StandsFor(Waiter(task, Pack(want, clearOnExit, all)), task, want, clearOnExit, all)
  {
    PackRoundTrip(want, clearOnExit, all);
    forall bits: Word
      ensures Satisfied(Pack(want, clearOnExit, all), bits) <==> Met(bits, want, all)
    {
      SatisfiedMeansMet(want, clearOnExit, all, bits);
      MetIsTested(bits, want, all);
    }
  }

  /** `r` has the bits of `g` but for those in `want` if they are to be cleared. */
  ghost predicate Cleared(bits: Word, want: Word, clear: bool, bits': Word) {
    forall b :: b in bits' <==> b in bits && !(clear && b in want)
  }

  /**
    A call of xEventGroupWaitBits clears the bits it waits for exactly when it finds its
    condition met and was asked to, and lists the caller, standing for this call, exactly when
    it does not and may block.
   */
  lemma WaitExactly(run: seq<State>, events: seq<Event>, k: nat, task: TaskId, want: Word, clearOnExit: bool, all: bool, block: bool)
    requires IsRun(run, events) && k < |events| && events[k] == Wait(task, want, clearOnExit, all, block)
    ensures var g, r := run[k].group, run[k + 1].group;
            && Cleared(g.bits, want, Met(g.bits, want, all) && clearOnExit, r.bits)
            && (if Met(g.bits, want, all) || !block then r.waiters == g.waiters
                else |r.waiters| == |g.waiters| + 1 && r.waiters[..|g.waiters|] == g.waiters
                     && StandsFor(r.waiters[|g.waiters|], task, want, clearOnExit, all))
            && run[k + 1].late == run[k].late
  {
    MetIsTested(run[k].group.bits, want, all);
    PackedStandsFor(task, want, clearOnExit, all);
  }

  /** A call of xEventGroupClearBits clears the bits it is given, and does nothing else. */
  lemma ClearExactly(run: seq<State>, events: seq<Event>, k: nat, bits: Word)
    requires IsRun(run, events) && k < |events| && events[k] == Clear(bits)
    ensures Cleared(run[k].group.bits, bits, true, run[k + 1].group.bits)
    ensures run[k + 1] == run[k].(group := Group(run[k + 1].group.bits, run[k].group.waiters))
  {
  }

  /**
    A call of xEventGroupSync sets its bits as xEventGroupSetBits does. With all the bits it
    waits for among the old and the new ones, these end up clear; otherwise the caller is
    listed, if it may block, to be released by all of them and to clear them.
   */
  lemma SyncExactly(run: seq<State>, events: seq<Event>, k: nat, task: TaskId, bits: Word, want: Word, block: bool)
    requires IsRun(run, events) && k < |events| && events[k] == Sync(task, bits, want, block)
    ensures var r, set_ := run[k + 1].group, SetBits(run[k].group, bits);
            && Cleared(set_.bits, want, want <= run[k].group.bits + bits, r.bits)
            && (if want <= run[k].group.bits + bits || !block then r.waiters == set_.waiters
                else |r.waiters| == |set_.waiters| + 1 && r.waiters[..|set_.waiters|] == set_.waiters
                     && StandsFor(r.waiters[|set_.waiters|], task, want, true, true))
            && run[k + 1].late == run[k].late
  {
    MetIsTested(run[k].group.bits + bits, want, true);
    PackedStandsFor(task, want, true, true);
  }

  /** The tick takes one task off the list, which keeps the terms it waited on, and does nothing else. */
  lemma TimeOutExactly(run: seq<State>, events: seq<Event>, k: nat, at: nat)
    requires IsRun(run, events) && k < |events| && events[k] == TimeOut(at)
    ensures at < |run[k].group.waiters|
    ensures var g, r, w := run[k].group, run[k + 1].group, run[k].group.waiters[at];
            && r.bits == g.bits && multiset(r.waiters) + multiset{w} == multiset(g.waiters)
            && run[k + 1].late.Keys == run[k].late.Keys + {w.task}
            && (forall t :: t in run[k].late && t != w.task ==> run[k + 1].late[t] == run[k].late[t])
            && (var late := run[k + 1].late[w.task]; StandsFor(w, w.task, late.want, late.clearOnExit, late.all))
  {
    var g, w := run[k].group, run[k].group.waiters[at];
    var late := run[k + 1].late[w.task];
    assert g.waiters == g.waiters[..at] + [w] + g.waiters[at + 1..];
    forall bits: Word
      ensures Satisfied(w.item, bits) <==> Met(bits, late.want, late.all)
    {
      assert Want(w.item) * bits == bits * Want(w.item);
      MetIsTested(bits, late.want, late.all);
    }
  }

  /** Before event `k` the task called to wait like this, and could block. */
  ghost predicate CalledFor(events: seq<Event>, k: nat, task: TaskId, want: Word, clearOnExit: bool, all: bool) {
    exists a :: CalledAt(events, k, a, task, want, clearOnExit, all)
  }

  ghost predicate CalledAt(events: seq<Event>, k: nat, a: nat, task: TaskId, want: Word, clearOnExit: bool, all: bool) {
    && a < k && a < |events| && Plain(want)
    && match events[a]
       case Wait(t, w, c, l, block) => t == task && w == want && c == clearOnExit && l == all && block
       case Sync(t, _, w, block) => t == task && w == want && clearOnExit && all && block
       case _ => false
  }

  /** What the item of a waiting task says is what it called for. */
  ghost predicate ItemCalled(events: seq<Event>, k: nat, w: Waiter) {
    && w.item == Pack(Want(w.item), ClearsOnExit(w.item), WaitsForAll(w.item))
    && CalledFor(events, k, w.task, Want(w.item), ClearsOnExit(w.item), WaitsForAll(w.item))
  }

  ghost predicate LateCalled(events: seq<Event>, k: nat, t: TaskId, late: Late) {
    CalledFor(events, k, t, late.want, late.clearOnExit, late.all)
  }

  ghost predicate AllCalled(events: seq<Event>, k: nat, s: State) {
    && (forall w :: w in s.group.waiters ==> ItemCalled(events, k, w))
    && (forall t :: t in s.late ==> LateCalled(events, k, t, s.late[t]))
  }

  lemma StillCalled(events: seq<Event>, k: nat, task: TaskId, want: Word, clearOnExit: bool, all: bool)
    requires CalledFor(events, k, task, want, clearOnExit, all)
    ensures CalledFor(events, k + 1, task, want, clearOnExit, all)
  {
    var a :| CalledAt(events, k, a, task, want, clearOnExit, all);
    assert CalledAt(events, k + 1, a, task, want, clearOnExit, all);
  }

  lemma JustCalled(events: seq<Event>, k: nat, task: TaskId, want: Word, clearOnExit: bool, all: bool)
    requires k < |events| && CalledAt(events, k + 1, k, task, want, clearOnExit, all)
    ensures ItemCalled(events, k + 1, Waiter(task, Pack(want, clearOnExit, all)))
  {
    PackRoundTrip(want, clearOnExit, all);
  }

  /** Whoever waits, or has left the list without its bits, has called for what is kept of it. */
  lemma {:induction false} WaitersHaveCalled(run: seq<State>, events: seq<Event>, k: nat)
    requires IsRun(run, events) && k < |run| && run[0].late == map[]
    ensures AllCalled(events, k, run[k])
  {
    if k > 0 {
      WaitersHaveCalled(run, events, k - 1);
      StepCalled(run[k - 1], events, k - 1);
    }
  }

  lemma StepCalled(s: State, events: seq<Event>, k: nat)
    requires k < |events| && Enabled(s, events[k]) && AllCalled(events, k, s)
    ensures AllCalled(events, k + 1, Apply(s, events[k]))
  {
    var r, k' := Apply(s, events[k]), k + 1;
    forall w | w in r.group.waiters
      ensures ItemCalled(events, k', w)
    {
      if w in s.group.waiters {
        assert ItemCalled(events, k, w);
        StillCalled(events, k, w.task, Want(w.item), ClearsOnExit(w.item), WaitsForAll(w.item));
      } else {
        NewWaiter(s, events, k, w);
      }
    }
    forall t | t in r.late
      ensures LateCalled(events, k', t, r.late[t])
    {
      if t in s.late && r.late[t] == s.late[t] {
        assert LateCalled(events, k, t, s.late[t]);
        StillCalled(events, k, t, s.late[t].want, s.late[t].clearOnExit, s.late[t].all);
      } else {
        var w := s.group.waiters[events[k].at];
        assert w in s.group.waiters && ItemCalled(events, k, w);
        StillCalled(events, k, w.task, Want(w.item), ClearsOnExit(w.item), WaitsForAll(w.item));
      }
    }
  }

  lemma NewWaiter(s: State, events: seq<Event>, k: nat, w: Waiter)
    requires k < |events| && Enabled(s, events[k]) && w in Apply(s, events[k]).group.waiters && w !in s.group.waiters
    ensures ItemCalled(events, k + 1, w)
  {
    match events[k]
    case Set(bits) =>
      RemainingExactly(s.group.waiters, s.group.bits + bits, w);
    case Wait(task, want, clearOnExit, all, block) =>
      JustCalled(events, k, task, want, clearOnExit, all);
    case Clear(bits) =>
    case Sync(task, bits, want, block) =>
      RemainingExactly(s.group.waiters, s.group.bits + bits, w);
      JustCalled(events, k, task, want, true, true);
    case TimeOut(at) =>
    case LookAgain(task) =>
  }

  /**
    A task that comes back without its bits looks once more, by the terms of a call it made:
    it clears what it waited for exactly when its condition is met by now and it was asked to.
   */
  lemma LookAgainExactly(run: seq<State>, events: seq<Event>, k: nat, task: TaskId)
    requires IsRun(run, events) && k < |events| && run[0].late == map[] && events[k] == LookAgain(task)
    ensures exists want, clearOnExit, all ::
              && CalledFor(events, k, task, want, clearOnExit, all)
              && Cleared(run[k].group.bits, want, Met(run[k].group.bits, want, all) && clearOnExit, run[k + 1].group.bits)
    ensures run[k + 1].group.waiters == run[k].group.waiters && run[k + 1].late == run[k].late - {task}
  {
    WaitersHaveCalled(run, events, k);
    var late := run[k].late[task];
    assert LateCalled(events, k, task, late);
    MetIsTested(run[k].group.bits, late.want, late.all);
    assert Cleared(run[k].group.bits, late.want, Met(run[k].group.bits, late.want, late.all) && late.clearOnExit, run[k + 1].group.bits);
  }

  // ----- rendezvous -----

  datatype Arrival = Arrival(task: TaskId, bits: Word)

  /** Union of the bits of the first `k` arrivals. */
  function Gathered(arrivals: seq<Arrival>, k: nat): Word
    requires k <= |arrivals|
  {
    if k == 0 then {} else Gathered(arrivals, k - 1) + arrivals[k - 1].bits
  }

  /** Non-empty, pairwise disjoint bit sets. */
  ghost predicate Blocks(arrivals: seq<Arrival>) {
    && (forall i :: 0 <= i < |arrivals| ==> Waitable(arrivals[i].bits))
    && (forall i, j :: 0 <= i < j < |arrivals| ==> arrivals[i].bits !! arrivals[j].bits)
  }

  /** The group after the first `k` tasks have called xEventGroupSync. */
  function AfterArrivals(g: Group, arrivals: seq<Arrival>, k: nat): Group
    requires k <= |arrivals|
  {
    if k == 0 then g
    else SyncBits(AfterArrivals(g, arrivals, k - 1), arrivals[k - 1].task, arrivals[k - 1].bits,
                  Gathered(arrivals, |arrivals|), true)
  }

  function WaitingFor(arrivals: seq<Arrival>, k: nat, want: Word): seq<Waiter>
    requires k <= |arrivals|
  {
    seq(k, i requires 0 <= i < k => Waiter(arrivals[i].task, Pack(want, true, true)))
  }

  lemma {:induction false} GatheredDisjoint(arrivals: seq<Arrival>, k: nat, j: nat)
    requires Blocks(arrivals) && k <= j < |arrivals|
    ensures Gathered(arrivals, k) !! arrivals[j].bits
  {
    if k > 0 {
      GatheredDisjoint(arrivals, k - 1, j);
    }
  }

  lemma {:induction false} GatheredGrows(arrivals: seq<Arrival>, k: nat, n: nat)
    requires Blocks(arrivals) && k <= n <= |arrivals|
    ensures Gathered(arrivals, k) <= Gathered(arrivals, n) && Plain(Gathered(arrivals, n))
  {
    if n > 0 {
      GatheredGrows(arrivals, if k < n then k else k - 1, n - 1);
    }
  }

  /** With a task still to come, some bit is missing. */
  lemma SomethingMissing(arrivals: seq<Arrival>, k: nat, base: Word)
    requires Blocks(arrivals) && k < |arrivals| && base !! Gathered(arrivals, |arrivals|)
    ensures !(Gathered(arrivals, |arrivals|) <= base + Gathered(arrivals, k))
  {
    GatheredDisjoint(arrivals, k, k);
    GatheredGrows(arrivals, k + 1, |arrivals|);
    var b :| b in arrivals[k].bits;
    assert b in Gathered(arrivals, k + 1);
  }

  lemma {:induction false} NobodySatisfied(waiters: seq<Waiter>, bits: Word)
    requires forall i :: 0 <= i < |waiters| ==> !Satisfied(waiters[i].item, bits)
    ensures Remaining(waiters, bits) == waiters && Released(waiters, bits) == [] && ToClear(waiters, bits) == {}
  {
    if waiters != [] {
      NobodySatisfied(waiters[1..], bits);
    }
  }

  lemma {:induction false} EverybodySatisfied(waiters: seq<Waiter>, bits: Word, want: Word)
    requires forall i :: 0 <= i < |waiters| ==>
               Satisfied(waiters[i].item, bits) && ClearsOnExit(waiters[i].item) && Want(waiters[i].item) == want
    ensures Remaining(waiters, bits) == [] && ToClear(waiters, bits) == if waiters == [] then {} else want
    ensures |Released(waiters, bits)| == |waiters|
    ensures forall i :: 0 <= i < |waiters| ==>
              Released(waiters, bits)[i] == Release(waiters[i].task, bits + {UNBLOCKED_DUE_TO_BIT_SET})
  {
    if waiters != [] {
      EverybodySatisfied(waiters[1..], bits, want);
    }
  }

  /** Until the last arrival everybody waits, and the bits gather. */
  lemma {:induction false} NobodyLeavesEarly(g: Group, arrivals: seq<Arrival>, k: nat)
    requires Blocks(arrivals) && k < |arrivals|
    requires g.waiters == [] && g.bits !! Gathered(arrivals, |arrivals|)
    ensures AfterArrivals(g, arrivals, k) ==
            Group(g.bits + Gathered(arrivals, k), WaitingFor(arrivals, k, Gathered(arrivals, |arrivals|)))
  {
    if k > 0 {
      NobodyLeavesEarly(g, arrivals, k - 1);
      SyncBlocks(g.bits, arrivals, k);
    }
  }

  /** One arrival before the last. */
  lemma SyncBlocks(base: Word, arrivals: seq<Arrival>, k: nat)
    requires Blocks(arrivals) && 0 < k < |arrivals| && base !! Gathered(arrivals, |arrivals|)
    ensures var want := Gathered(arrivals, |arrivals|);
            var before := Group(base + Gathered(arrivals, k - 1), WaitingFor(arrivals, k - 1, want));
            && SyncBits(before, arrivals[k - 1].task, arrivals[k - 1].bits, want, true)
               == Group(base + Gathered(arrivals, k), WaitingFor(arrivals, k, want))
            && Released(before.waiters, before.bits + arrivals[k - 1].bits) == []
  {
    var want := Gathered(arrivals, |arrivals|);
    var waiters := WaitingFor(arrivals, k - 1, want);
    var bits := base + Gathered(arrivals, k);
    assert base + Gathered(arrivals, k - 1) + arrivals[k - 1].bits == bits;
    SomethingMissing(arrivals, k, base);
    GatheredGrows(arrivals, k, |arrivals|);
    SatisfiedMeansMet(want, true, true, bits);
    assert bits * want != want;
    NobodySatisfied(waiters, bits);
    assert WaitingFor(arrivals, k, want) == waiters + [Waiter(arrivals[k - 1].task, Pack(want, true, true))];
  }

  /** The value old|set that the k-th arrival finds. */
  function Found(g: Group, arrivals: seq<Arrival>, k: nat): Word
    requires k < |arrivals|
  {
    AfterArrivals(g, arrivals, k).bits + arrivals[k].bits
  }

  /** The tasks that the k-th arrival releases. */
  function ReleasedBy(g: Group, arrivals: seq<Arrival>, k: nat): seq<Release>
    requires k < |arrivals|
  {
    Released(AfterArrivals(g, arrivals, k).waiters, Found(g, arrivals, k))
  }

  ghost predicate ReadyToMeet(g: Group, arrivals: seq<Arrival>) {
    Blocks(arrivals) && g.waiters == [] && g.bits !! Gathered(arrivals, |arrivals|)
  }

  /** Rendezvous, in any order of arrival: nobody is released before the last one ... */
  lemma NobodyReleasedEarly(g: Group, arrivals: seq<Arrival>, k: nat)
    requires ReadyToMeet(g, arrivals) && k + 1 < |arrivals|
    ensures ReleasedBy(g, arrivals, k) == []
    ensures |AfterArrivals(g, arrivals, k + 1).waiters| == k + 1
  {
    NobodyLeavesEarly(g, arrivals, k);
    NobodyLeavesEarly(g, arrivals, k + 1);
    SyncBlocks(g.bits, arrivals, k + 1);
  }

  lemma LastFindsAll(g: Group, arrivals: seq<Arrival>)
    requires ReadyToMeet(g, arrivals) && arrivals != []
    ensures Found(g, arrivals, |arrivals| - 1) == g.bits + Gathered(arrivals, |arrivals|)
    ensures AfterArrivals(g, arrivals, |arrivals| - 1).waiters ==
            WaitingFor(arrivals, |arrivals| - 1, Gathered(arrivals, |arrivals|))
  {
    NobodyLeavesEarly(g, arrivals, |arrivals| - 1);
  }

  lemma AllSatisfied(arrivals: seq<Arrival>, k: nat, want: Word, bits: Word)
    requires k <= |arrivals| && Plain(want) && want <= bits
    ensures forall i :: 0 <= i < k ==>
              var item := WaitingFor(arrivals, k, want)[i].item;
              Satisfied(item, bits) && ClearsOnExit(item) && Want(item) == want
  {
    PackRoundTrip(want, true, true);
    SatisfiedMeansMet(want, true, true, bits);
    assert bits * want == want;
  }

  /** ... whose call finds all the bits, and releases everybody with a return value that contains them ... */
  lemma LastReleasesAll(g: Group, arrivals: seq<Arrival>)
    requires ReadyToMeet(g, arrivals) && arrivals != []
    ensures Gathered(arrivals, |arrivals|) <= Found(g, arrivals, |arrivals| - 1)
    ensures |ReleasedBy(g, arrivals, |arrivals| - 1)| == |arrivals| - 1
    ensures forall i :: 0 <= i < |arrivals| - 1 ==>
              && ReleasedBy(g, arrivals, |arrivals| - 1)[i].task == arrivals[i].task
              && Gathered(arrivals, |arrivals|) <= ReleasedBy(g, arrivals, |arrivals| - 1)[i].value - CONTROL_BYTES
  {
    var n, want := |arrivals|, Gathered(arrivals, |arrivals|);
    var waiters, bits := WaitingFor(arrivals, n - 1, want), g.bits + want;
    assert Found(g, arrivals, n - 1) == bits && ReleasedBy(g, arrivals, n - 1) == Released(waiters, bits) by {
      LastFindsAll(g, arrivals);
    }
    GatheredGrows(arrivals, 0, n);
    AllSatisfied(arrivals, n - 1, want, bits);
    EverybodySatisfied(waiters, bits, want);
  }

  /** ... and leaves the group as it was: those bits clear, and nobody waiting. */
  lemma LastLeavesClear(g: Group, arrivals: seq<Arrival>)
    requires ReadyToMeet(g, arrivals) && arrivals != []
    ensures AfterArrivals(g, arrivals, |arrivals|) == g
  {
    var n, want := |arrivals|, Gathered(arrivals, |arrivals|);
    LastFindsAll(g, arrivals);
    GatheredGrows(arrivals, 0, n);
    AllSatisfied(arrivals, n - 1, want, g.bits + want);
    EverybodySatisfied(WaitingFor(arrivals, n - 1, want), g.bits + want, want);
    assert (g.bits + want) * want == want;
    assert g.bits + want - want == g.bits;
    assert g.bits - want == g.bits;
  }

  // ----- the loop of xEventGroupSetBits -----

  /** What a walk over `list` has kept, released and collected when `rest` is still to come. */
  predicate Walked(list: seq<Waiter>, bits: Word, kept: seq<Waiter>, released: seq<Release>, clear: Word, rest: seq<Waiter>) {
    && kept + Remaining(rest, bits) == Remaining(list, bits)
    && released + Released(rest, bits) == Released(list, bits)
    && clear + ToClear(rest, bits) == ToClear(list, bits)
  }

  lemma WalkStep(list: seq<Waiter>, bits: Word, kept: seq<Waiter>, released: seq<Release>, clear: Word, w: Waiter, rest: seq<Waiter>)
    requires Walked(list, bits, kept, released, clear, [w] + rest)
    ensures if Satisfied(w.item, bits) then
              Walked(list, bits, kept, released + [Release(w.task, bits + {UNBLOCKED_DUE_TO_BIT_SET})],
                     if ClearsOnExit(w.item) then clear + Want(w.item) else clear, rest)
            else Walked(list, bits, kept + [w], released, clear, rest)
  {
    assert ([w] + rest)[0] == w && ([w] + rest)[1..] == rest;
  }

  class EventGroup {
    var bits: Word
    var waiters: seq<Waiter>

    constructor ()
      ensures bits == {} && waiters == []
    {
      bits, waiters := {}, [];
    }

    function Value(): Group
      reads this
    {
      Group(bits, waiters)
    }

    /** Walks the list once, taking off the satisfied tasks, and clears their bits afterwards. */
    method SetBitsInPlace(bitsToSet: Word) returns (released: seq<Release>, result: Word)
      requires Plain(bitsToSet)
      modifies this
      ensures Value() == SetBits(old(Value()), bitsToSet)
      ensures released == Released(old(waiters), old(bits) + bitsToSet)
      ensures result == bits
    {
      released := [];
      var bitsToClear: Word := {};
      bits := bits + bitsToSet;
      var i := 0;
      while i < |waiters|
        invariant i <= |waiters| && bits == old(bits) + bitsToSet
        invariant Walked(old(waiters), bits, waiters[..i], released, bitsToClear, waiters[i..])
        decreases |waiters| - i
      {
        var w := waiters[i];
        ghost var rest := waiters[i + 1..];
        assert waiters[i..] == [w] + rest;
        WalkStep(old(waiters), bits, waiters[..i], released, bitsToClear, w, rest);
        if Satisfied(w.item, bits) {
          if ClearsOnExit(w.item) {
            bitsToClear := bitsToClear + Want(w.item);
          }
          released := released + [Release(w.task, bits + {UNBLOCKED_DUE_TO_BIT_SET})];
          ghost var kept := waiters[..i];
          waiters := waiters[..i] + waiters[i + 1..];
          assert waiters[..i] == kept && waiters[i..] == rest;
        } else {
          assert waiters[..i + 1] == waiters[..i] + [w];
          i := i + 1;
        }
      }
      assert waiters[..i] == waiters && waiters[i..] == [];
      bits := bits - bitsToClear;
      result := bits;
    }
  }
}
