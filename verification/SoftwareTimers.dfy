/**
  The timer service task of FreeRTOS/Source/timers.c.

  Besides the 32-bit values of the program, the model carries unbounded times: the time of
  the last sample, the time at which each listed timer is due and the time at which it was
  started. The 32-bit values are their remainders.
 */
module SoftwareTimers {
  import opened Shared
  import Modular
  import opened CursorList

  type TimerId = int

  /** xTimerCreate and prvProcessReceivedCommands assert that a period is not zero. */
  type Period = p: nat | 0 < p < WORD witness 1

  /** xTimerPeriodInTicks, and the auto-reload and active bits of ucStatus. */
  datatype Timer = Timer(period: Period, autoReload: bool, active: bool)

  function At(values: map<TimerId, nat>, id: TimerId): nat {
    if id in values then values[id] else 0
  }

  // ----- lists ordered by expiry time -----

  function ExpiryValues(list: seq<TimerId>, expiry: map<TimerId, nat>): (values: seq<nat>)
    ensures |values| == |list|
    ensures forall i :: 0 <= i < |list| ==> values[i] == At(expiry, list[i])
  {
    seq(|list|, i requires 0 <= i < |list| => At(expiry, list[i]))
  }

  /** vListInsert. */
  function InsertTimer(list: seq<TimerId>, expiry: map<TimerId, nat>, id: TimerId): seq<TimerId> {
    Insert(list, InsertPosition(ExpiryValues(list, expiry), At(expiry, id)), id)
  }

  /** uxListRemove, if the timer is in this list. */
  function RemoveTimer(list: seq<TimerId>, id: TimerId): seq<TimerId> {
    if id in list then Delete(list, IndexOf(list, id)) else list
  }

  ghost predicate Sorted(list: seq<TimerId>, expiry: map<TimerId, nat>) {
    forall i, j :: 0 <= i < j < |list| ==> At(expiry, list[i]) <= At(expiry, list[j])
  }

  ghost predicate InOrder(list: seq<TimerId>, expiry: map<TimerId, nat>, i: int, j: int) {
    0 <= i < j < |list| ==> list[i] != list[j] && At(expiry, list[i]) <= At(expiry, list[j])
  }

  /** The timer is due in this turn of the tick counter. */
  ghost predicate InTurn(list: seq<TimerId>, expiry: map<TimerId, nat>, due: map<TimerId, nat>, turn: int, i: int) {
    0 <= i < |list| ==> At(due, list[i]) / WORD == turn && At(expiry, list[i]) == At(due, list[i]) % WORD
  }

  ghost predicate ListOk(list: seq<TimerId>, expiry: map<TimerId, nat>, due: map<TimerId, nat>, turn: int) {
    && (forall i, j :: InOrder(list, expiry, i, j))
    && (forall i :: InTurn(list, expiry, due, turn, i))
  }

  lemma ListOkFacts(list: seq<TimerId>, expiry: map<TimerId, nat>, due: map<TimerId, nat>, turn: int)
    requires ListOk(list, expiry, due, turn)
    ensures Distinct(list) && Sorted(list, expiry)
  {
    forall i, j | 0 <= i < j < |list|
      ensures list[i] != list[j] && At(expiry, list[i]) <= At(expiry, list[j])
    {
      assert InOrder(list, expiry, i, j);
    }
  }

  lemma InsertKeepsSorted(list: seq<TimerId>, expiry: map<TimerId, nat>, id: TimerId)
    requires Sorted(list, expiry)
    ensures Sorted(InsertTimer(list, expiry, id), expiry)
  {
    var values := ExpiryValues(list, expiry);
    var at := InsertPosition(values, At(expiry, id));
    assert Ascending(values);
    InsertPositionSplits(values, At(expiry, id));
    assert forall i :: 0 <= i < |list| ==> values[i] == At(expiry, list[i]);
    InsertKeepsOrder(list, at, id, x => At(expiry, x));
  }

  /** Setting the expiry time of a timer and inserting it keeps the list in order. */
  lemma InsertTimerFacts(list: seq<TimerId>, expiry: map<TimerId, nat>, due: map<TimerId, nat>, turn: int, id: TimerId, d: nat)
    requires ListOk(list, expiry, due, turn) && id !in list && d / WORD == turn
    ensures ListOk(InsertTimer(list, expiry[id := d % WORD], id), expiry[id := d % WORD], due[id := d], turn)
    ensures forall x :: x in InsertTimer(list, expiry[id := d % WORD], id) <==> x in list || x == id
  {
    var expiry', due' := expiry[id := d % WORD], due[id := d];
    ListOkFacts(list, expiry, due, turn);
    assert Sorted(list, expiry') by {
      assert forall i :: 0 <= i < |list| ==> At(expiry', list[i]) == At(expiry, list[i]);
    }
    InsertKeepsSorted(list, expiry', id);
    var at := InsertPosition(ExpiryValues(list, expiry'), At(expiry', id));
    InsertFacts(list, at, id);
    InOrderFrom(Insert(list, at, id), expiry');
    InsertedInTurn(list, expiry, due, turn, id, d, at, expiry', due');
  }

  lemma InOrderFrom(list: seq<TimerId>, expiry: map<TimerId, nat>)
    requires Distinct(list) && Sorted(list, expiry)
    ensures forall i, j :: InOrder(list, expiry, i, j)
  {
    forall i, j
      ensures InOrder(list, expiry, i, j)
    {
    }
  }

  lemma InsertedInTurn(list: seq<TimerId>, expiry: map<TimerId, nat>, due: map<TimerId, nat>, turn: int, id: TimerId, d: nat, at: nat,
                       expiry': map<TimerId, nat>, due': map<TimerId, nat>)
    requires ListOk(list, expiry, due, turn) && id !in list && d / WORD == turn && at <= |list|
    requires expiry' == expiry[id := d % WORD] && due' == due[id := d]
    ensures forall i :: InTurn(Insert(list, at, id), expiry', due', turn, i)
  {
    var r := Insert(list, at, id);
    forall i
      ensures InTurn(r, expiry', due', turn, i)
    {
      var j := if i < at then i else i - 1;
      assert InTurn(list, expiry, due, turn, j);
    }
  }

  lemma UntouchedListOk(list: seq<TimerId>, expiry: map<TimerId, nat>, due: map<TimerId, nat>, turn: int, id: TimerId, d: nat)
    requires ListOk(list, expiry, due, turn) && id !in list
    ensures ListOk(list, expiry[id := d % WORD], due[id := d], turn)
  {
    var expiry', due' := expiry[id := d % WORD], due[id := d];
    forall i, j
      ensures InOrder(list, expiry', i, j)
    {
      assert InOrder(list, expiry, i, j);
    }
    forall i
      ensures InTurn(list, expiry', due', turn, i)
    {
      assert InTurn(list, expiry, due, turn, i);
    }
  }

  lemma DeleteKeepsListOk(list: seq<TimerId>, expiry: map<TimerId, nat>, due: map<TimerId, nat>, turn: int, at: nat)
    requires ListOk(list, expiry, due, turn) && at < |list|
    ensures ListOk(Delete(list, at), expiry, due, turn)
    ensures forall x :: x in Delete(list, at) <==> x in list && x != list[at]
  {
    ListOkFacts(list, expiry, due, turn);
    DeleteFacts(list, at);
    var r := Delete(list, at);
    forall i, j
      ensures InOrder(r, expiry, i, j)
    {
      var i', j' := if i < at then i else i + 1, if j < at then j else j + 1;
      assert InOrder(list, expiry, i', j');
    }
    forall i
      ensures InTurn(r, expiry, due, turn, i)
    {
      var i' := if i < at then i else i + 1;
      assert InTurn(list, expiry, due, turn, i');
    }
  }

  ghost predicate InOneOnly(current: seq<TimerId>, overflow: seq<TimerId>, x: TimerId) {
    !(x in current && x in overflow)
  }

  /** The current list holds what is due in this turn, the overflow list what is due in the next. */
  ghost predicate PairOk(current: seq<TimerId>, overflow: seq<TimerId>, expiry: map<TimerId, nat>, due: map<TimerId, nat>, turn: int) {
    && ListOk(current, expiry, due, turn)
    && ListOk(overflow, expiry, due, turn + 1)
    && (forall x :: InOneOnly(current, overflow, x))
  }

  /** Lists with the same or fewer members stay apart. */
  lemma StillInOneOnly(current: seq<TimerId>, overflow: seq<TimerId>, current': seq<TimerId>, overflow': seq<TimerId>, id: TimerId)
    requires forall x :: InOneOnly(current, overflow, x)
    requires forall x :: x in current' ==> x in current || x == id
    requires forall x :: x in overflow' ==> x in overflow || x == id
    requires InOneOnly(current', overflow', id)
    ensures forall x :: InOneOnly(current', overflow', x)
  {
    forall x
      ensures InOneOnly(current', overflow', x)
    {
      assert InOneOnly(current, overflow, x);
    }
  }

  ghost predicate IsInserted(list: seq<TimerId>, list': seq<TimerId>, id: TimerId) {
    forall x :: x in list' <==> x in list || x == id
  }

  lemma UntouchedPairOk(current: seq<TimerId>, overflow: seq<TimerId>, expiry: map<TimerId, nat>, due: map<TimerId, nat>,
                        turn: int, id: TimerId, d: nat)
    requires PairOk(current, overflow, expiry, due, turn) && id !in current && id !in overflow
    ensures PairOk(current, overflow, expiry[id := d % WORD], due[id := d], turn)
  {
    UntouchedListOk(current, expiry, due, turn, id, d);
    UntouchedListOk(overflow, expiry, due, turn + 1, id, d);
  }

  lemma InsertIntoCurrent(current: seq<TimerId>, overflow: seq<TimerId>, expiry: map<TimerId, nat>, due: map<TimerId, nat>,
                          turn: int, id: TimerId, d: nat)
    requires PairOk(current, overflow, expiry, due, turn) && id !in current && id !in overflow && d / WORD == turn
    ensures PairOk(InsertTimer(current, expiry[id := d % WORD], id), overflow, expiry[id := d % WORD], due[id := d], turn)
    ensures IsInserted(current, InsertTimer(current, expiry[id := d % WORD], id), id)
  {
    InsertTimerFacts(current, expiry, due, turn, id, d);
    UntouchedListOk(overflow, expiry, due, turn + 1, id, d);
    StillInOneOnly(current, overflow, InsertTimer(current, expiry[id := d % WORD], id), overflow, id);
  }

  lemma InsertIntoOverflow(current: seq<TimerId>, overflow: seq<TimerId>, expiry: map<TimerId, nat>, due: map<TimerId, nat>,
                           turn: int, id: TimerId, d: nat)
    requires PairOk(current, overflow, expiry, due, turn) && id !in current && id !in overflow && d / WORD == turn + 1
    ensures PairOk(current, InsertTimer(overflow, expiry[id := d % WORD], id), expiry[id := d % WORD], due[id := d], turn)
    ensures IsInserted(overflow, InsertTimer(overflow, expiry[id := d % WORD], id), id)
  {
    UntouchedListOk(current, expiry, due, turn, id, d);
    InsertTimerFacts(overflow, expiry, due, turn + 1, id, d);
    StillInOneOnly(current, overflow, current, InsertTimer(overflow, expiry[id := d % WORD], id), id);
  }

  // ----- expiry times -----

  /** The n-th time at which a timer started at `start` is due. */
  function Nth(start: nat, period: nat, n: nat): nat {
    if n == 0 then start else Nth(start, period, n - 1) + period
  }

  lemma {:induction false} NthIs(start: nat, period: nat, n: nat)
    ensures Nth(start, period, n) == start + n * period
  {
    if n > 0 {
      NthIs(start, period, n - 1);
      assert n * period == (n - 1) * period + period;
    }
  }

  /** The expirations of an auto-reload timer up to time `t`. */
  function Expirations(start: nat, period: nat, t: nat): set<nat>
    requires period > 0
  {
    set k: nat | 1 <= k <= t && Nth(start, period, k) <= t
  }

  function UpTo(n: nat): set<nat> {
    if n == 0 then {} else UpTo(n - 1) + {n}
  }

  lemma {:induction false} UpToFacts(n: nat)
    ensures |UpTo(n)| == n
    ensures forall k: nat :: k in UpTo(n) <==> 1 <= k <= n
  {
    if n > 0 {
      UpToFacts(n - 1);
    }
  }

  lemma {:induction false} NthMonotonic(start: nat, period: nat, j: nat, k: nat)
    requires j <= k
    ensures Nth(start, period, j) <= Nth(start, period, k)
    ensures period > 0 ==> k <= Nth(start, period, k)
  {
    if k > 0 {
      NthMonotonic(start, period, if j < k then j else j - 1, k - 1);
    }
  }

  /** Standing between two consecutive due times tells the number of expirations. */
  lemma CountIsExact(start: nat, period: nat, n: nat, t: nat)
    requires period > 0 && Nth(start, period, n) <= t < Nth(start, period, n + 1)
    ensures |Expirations(start, period, t)| == n
    ensures n == (t - start) / period
  {
    UpToFacts(n);
    forall k: nat
      ensures k in Expirations(start, period, t) <==> k in UpTo(n)
    {
      if k <= n {
        NthMonotonic(start, period, k, n);
        NthMonotonic(start, period, k, k);
      } else {
        NthMonotonic(start, period, n + 1, k);
      }
    }
    assert Expirations(start, period, t) == UpTo(n);
    WholePeriods(start, period, n, t);
  }

  lemma WholePeriods(start: nat, period: nat, n: nat, t: nat)
    requires period > 0 && Nth(start, period, n) <= t < Nth(start, period, n + 1)
    ensures n == (t - start) / period
  {
    NthIs(start, period, n);
    Modular.ModUnique(t - start, n, t - start - n * period, period);
  }

  /** The tests of prvInsertTimerInActiveList on the 32-bit values. */
  function ProcessNow(next: nat, timeNow: nat, commandTime: nat, period: nat): bool {
    if next <= timeNow then (timeNow - commandTime) % WORD >= period
    else timeNow < commandTime && next >= commandTime
  }

  /** They decide correctly whether the time is past, and otherwise in which turn it lies. */
  lemma ProcessNowIsExact(command: nat, now: nat, period: nat)
    requires command <= now < command + WORD && 0 < period < WORD
    ensures var next := (command + period) % WORD;
            && (ProcessNow(next, now % WORD, command % WORD, period) <==> command + period <= now)
            && (command + period > now ==>
                  (command + period) / WORD == if next <= now % WORD then now / WORD + 1 else now / WORD)
  {
    var gap := now % WORD - command % WORD;
    Modular.ModAdd(command, now - command, WORD);
    Modular.ModAdd(command, period, WORD);
    Modular.ModUnique(gap, if gap < 0 then -1 else 0, now - command, WORD);
  }

  // ----- what is known of each timer that has been started -----

  /**
    A timer started at `start` whose callback has run `n` times since: while active it is due
    at the (n+1)-st time, the n-th is past, and a one-shot timer runs its callback once.
   */
  ghost predicate Counted(timer: Timer, start: nat, n: int, due: nat, now: nat) {
    && 0 <= n
    && Nth(start, timer.period, n) <= now
    && (timer.active ==> due == Nth(start, timer.period, n + 1))
    && (timer.autoReload ==> timer.active)
    && (!timer.autoReload ==> n == if timer.active then 0 else 1)
  }

  /** The callbacks that should have run by time `t`. */
  function Expected(timer: Timer, start: nat, t: nat): nat {
    var n := |Expirations(start, timer.period, t)|;
    if timer.autoReload || n == 0 then n else 1
  }

  lemma AtLeast(start: nat, period: nat, n: nat, t: nat)
    requires period > 0 && Nth(start, period, n) <= t
    ensures |Expirations(start, period, t)| >= n
  {
    UpToFacts(n);
    var all := Expirations(start, period, t);
    forall k | k in UpTo(n)
      ensures k in all
    {
      NthMonotonic(start, period, k, n);
      NthMonotonic(start, period, k, k);
    }
    assert all == UpTo(n) + (all - UpTo(n));
  }

  /** A timer with something overdue has not. */
  lemma SomethingOverdue(timer: Timer, start: nat, n: nat, due: nat, now: nat, t: nat)
    requires Counted(timer, start, n, due, now) && timer.active && due <= t
    ensures Expected(timer, start, t) > n
  {
    AtLeast(start, timer.period, n + 1, t);
  }

  /** No callback runs early. */
  lemma NothingEarly(timer: Timer, start: nat, n: nat, due: nat, now: nat)
    requires Counted(timer, start, n, due, now)
    ensures n <= Expected(timer, start, now)
  {
    AtLeast(start, timer.period, n, now);
  }

  /** A timer with nothing overdue has run its callback exactly as often as it should have. */
  lemma NothingOverdue(timer: Timer, start: nat, n: nat, due: nat, t: nat)
    requires Counted(timer, start, n, due, t)
    requires timer.active ==> due > t
    ensures n == Expected(timer, start, t)
  {
    if timer.active {
      CountIsExact(start, timer.period, n, t);
    } else {
      NthMonotonic(start, timer.period, 1, 1);
      assert 1 in Expirations(start, timer.period, t);
    }
  }

  ghost predicate CountedAt(timers: map<TimerId, Timer>, live: set<TimerId>, start: map<TimerId, nat>,
                            before: map<TimerId, nat>, calls: map<TimerId, nat>, due: map<TimerId, nat>,
                            now: nat, x: TimerId) {
    x in live ==>
      x in timers && Counted(timers[x], At(start, x), At(calls, x) - At(before, x), At(due, x), now)
  }

  ghost predicate AllCounted(timers: map<TimerId, Timer>, live: set<TimerId>, start: map<TimerId, nat>,
                             before: map<TimerId, nat>, calls: map<TimerId, nat>, due: map<TimerId, nat>,
                             now: nat) {
    forall x :: CountedAt(timers, live, start, before, calls, due, now, x)
  }

  /** Timer `x`, if started, has run its callback exactly as often as it should have by time `t`. */
  ghost predicate ExactFor(timers: map<TimerId, Timer>, live: set<TimerId>, start: map<TimerId, nat>,
                           before: map<TimerId, nat>, calls: map<TimerId, nat>, t: nat, x: TimerId) {
    x in live ==>
      x in timers && At(calls, x) - At(before, x) == Expected(timers[x], At(start, x), t)
  }

  /** Timer `x`, if started, has not run its callback more often than it should have by time `t`. */
  ghost predicate NotEarlyFor(timers: map<TimerId, Timer>, live: set<TimerId>, start: map<TimerId, nat>,
                              before: map<TimerId, nat>, calls: map<TimerId, nat>, t: nat, x: TimerId) {
    x in live ==>
      x in timers && At(calls, x) - At(before, x) <= Expected(timers[x], At(start, x), t)
  }

  /** The listed timers are the active ones. */
  ghost predicate ListedAt(timers: map<TimerId, Timer>, live: set<TimerId>, current: seq<TimerId>, overflow: seq<TimerId>, x: TimerId) {
    x in current || x in overflow <==> x in live && x in timers && timers[x].active
  }

  ghost predicate AllListed(timers: map<TimerId, Timer>, live: set<TimerId>, current: seq<TimerId>, overflow: seq<TimerId>,
                            hole: set<TimerId>) {
    forall x :: x in hole || ListedAt(timers, live, current, overflow, x)
  }

  /** The list of turn `turn` after a timer due at `d` has been put where it belongs. */
  function Placed(list: seq<TimerId>, turn: int, expiry: map<TimerId, nat>, id: TimerId, d: nat): seq<TimerId> {
    if d / WORD == turn then InsertTimer(list, expiry[id := d % WORD], id) else list
  }

  lemma PlacedOk(current: seq<TimerId>, overflow: seq<TimerId>, expiry: map<TimerId, nat>, due: map<TimerId, nat>,
                 turn: int, id: TimerId, d: nat)
    requires PairOk(current, overflow, expiry, due, turn) && id !in current && id !in overflow
    requires d / WORD == turn || d / WORD == turn + 1
    ensures PairOk(Placed(current, turn, expiry, id, d), Placed(overflow, turn + 1, expiry, id, d),
                   expiry[id := d % WORD], due[id := d], turn)
    ensures forall x :: x in Placed(current, turn, expiry, id, d) || x in Placed(overflow, turn + 1, expiry, id, d) <==>
                        x in current || x in overflow || x == id
  {
    if d / WORD == turn {
      InsertIntoCurrent(current, overflow, expiry, due, turn, id, d);
    } else {
      InsertIntoOverflow(current, overflow, expiry, due, turn, id, d);
    }
  }

  /** A timer due at `d` has been listed for it. */
  ghost predicate IsListed(current: seq<TimerId>, overflow: seq<TimerId>, expiry: map<TimerId, nat>, now: nat,
                           id: TimerId, d: nat, current': seq<TimerId>, overflow': seq<TimerId>) {
    && (d / WORD == now / WORD || d / WORD == now / WORD + 1)
    && current' == Placed(current, now / WORD, expiry, id, d)
    && overflow' == Placed(overflow, now / WORD + 1, expiry, id, d)
  }

  lemma ListedIn(current: seq<TimerId>, overflow: seq<TimerId>, expiry: map<TimerId, nat>, now: nat, id: TimerId, d: nat)
    requires d / WORD == now / WORD || d / WORD == now / WORD + 1
    ensures var expiry' := expiry[id := d % WORD];
            if d / WORD == now / WORD then IsListed(current, overflow, expiry, now, id, d, InsertTimer(current, expiry', id), overflow)
            else IsListed(current, overflow, expiry, now, id, d, current, InsertTimer(overflow, expiry', id))
  {
  }

  ghost predicate SameFor(values: map<TimerId, nat>, values': map<TimerId, nat>, id: TimerId, x: TimerId) {
    x != id ==> (x in values <==> x in values') && (x in values ==> values[x] == values'[x])
  }

  ghost predicate SameBut(values: map<TimerId, nat>, values': map<TimerId, nat>, id: TimerId) {
    forall x :: SameFor(values, values', id, x)
  }

  lemma Overwritten(values: map<TimerId, nat>, values': map<TimerId, nat>, id: TimerId, v: nat)
    requires SameBut(values, values', id)
    ensures values[id := v] == values'[id := v] && SameBut(values, values'[id := v], id)
  {
    var values'' := values'[id := v];
    forall x
      ensures SameFor(values, values'', id, x)
    {
      assert SameFor(values, values', id, x);
    }
    forall x | x != id
      ensures (x in values <==> x in values') && (x in values ==> values[x] == values'[x])
    {
      assert SameFor(values, values', id, x);
    }
  }

  /** Where a timer is listed does not depend on the expiry time that it had before. */
  lemma ListedAnew(current: seq<TimerId>, overflow: seq<TimerId>, expiry: map<TimerId, nat>, expiry': map<TimerId, nat>, now: nat,
                   id: TimerId, d: nat, current': seq<TimerId>, overflow': seq<TimerId>)
    requires SameBut(expiry, expiry', id)
    requires IsListed(current, overflow, expiry', now, id, d, current', overflow')
    ensures IsListed(current, overflow, expiry, now, id, d, current', overflow')
  {
    Overwritten(expiry, expiry', id, d % WORD);
  }

  lemma TickSum(at: nat, period: nat)
    ensures (at % WORD + period) % WORD == (at + period) % WORD
  {
  }

  function Bumped(calls: map<TimerId, nat>, id: TimerId, n: nat): map<TimerId, nat> {
    if n == 0 then calls else calls[id := At(calls, id) + n]
  }

  lemma BumpedOnceMore(calls: map<TimerId, nat>, id: TimerId, n: nat)
    ensures Bumped(calls, id, n)[id := At(Bumped(calls, id, n), id) + 1] == Bumped(calls, id, n + 1)
  {
  }

  /** Nothing but the active bits has changed. */
  ghost predicate SameSettings(timers: map<TimerId, Timer>, timers': map<TimerId, Timer>) {
    && timers'.Keys == timers.Keys
    && forall x :: x in timers ==> timers'[x].period == timers[x].period && timers'[x].autoReload == timers[x].autoReload
  }

  /** Only the callbacks of timers in `who` may have run. */
  ghost predicate OnlyCalled(who: set<TimerId>, calls: map<TimerId, nat>, calls': map<TimerId, nat>) {
    forall x :: At(calls, x) <= At(calls', x) && (x in who || At(calls', x) == At(calls, x))
  }

  /** Every timer but `id` is in the current list as before, and due when it was. */
  ghost predicate ElseSameAt(current: seq<TimerId>, current': seq<TimerId>, due: map<TimerId, nat>, due': map<TimerId, nat>,
                             id: TimerId, x: TimerId) {
    x != id ==> (x in current' <==> x in current) && At(due', x) == At(due, x)
  }

  ghost predicate ElseSame(current: seq<TimerId>, current': seq<TimerId>, due: map<TimerId, nat>, due': map<TimerId, nat>, id: TimerId) {
    forall x :: ElseSameAt(current, current', due, due', id, x)
  }

  /** The timers of the current list whose time has come at `t`. */
  function Overdue(current: seq<TimerId>, due: map<TimerId, nat>, t: nat): set<TimerId> {
    set x | x in current && At(due, x) <= t
  }

  /** The callback of `h`, one of the overdue timers, has run, and only that one is overdue no more. */
  ghost predicate ServesOne(overdue: set<TimerId>, overdue': set<TimerId>, calls: map<TimerId, nat>, calls': map<TimerId, nat>, h: TimerId) {
    && h in overdue && overdue' == overdue - {h}
    && OnlyCalled({h}, calls, calls') && At(calls', h) > At(calls, h)
  }

  lemma OneLessOverdue(current: seq<TimerId>, current': seq<TimerId>, due: map<TimerId, nat>, due': map<TimerId, nat>, id: TimerId, t: nat)
    requires ElseSame(current, current', due, due', id) && (id in current' ==> At(due', id) > t)
    ensures Overdue(current', due', t) == Overdue(current, due, t) - {id}
  {
    var now, later := Overdue(current, due, t) - {id}, Overdue(current', due', t);
    forall x
      ensures x in later <==> x in now
    {
      assert ElseSameAt(current, current', due, due', id, x);
    }
  }

  lemma PlacedElse(current: seq<TimerId>, overflow: seq<TimerId>, expiry: map<TimerId, nat>, due: map<TimerId, nat>, now: nat,
                   id: TimerId, d: nat, current': seq<TimerId>, overflow': seq<TimerId>)
    requires IsListed(current, overflow, expiry, now, id, d, current', overflow')
    ensures ElseSame(current, current', due, due[id := d], id)
  {
    var due' := due[id := d];
    var expiry' := expiry[id := d % WORD];
    InsertFacts(current, InsertPosition(ExpiryValues(current, expiry'), At(expiry', id)), id);
    forall x
      ensures ElseSameAt(current, current', due, due', id, x)
    {
    }
  }

  lemma ElseSameChain(a: seq<TimerId>, b: seq<TimerId>, c: seq<TimerId>, due: map<TimerId, nat>, due': map<TimerId, nat>, id: TimerId)
    requires ElseSame(a, b, due, due, id) && ElseSame(b, c, due, due', id)
    ensures ElseSame(a, c, due, due', id)
  {
    forall x
      ensures ElseSameAt(a, c, due, due', id, x)
    {
      assert ElseSameAt(a, b, due, due, id, x) && ElseSameAt(b, c, due, due', id, x);
    }
  }

  // ----- updating one timer -----

  lemma CountedChange(timers: map<TimerId, Timer>, live: set<TimerId>, start: map<TimerId, nat>, before: map<TimerId, nat>,
                      calls: map<TimerId, nat>, due: map<TimerId, nat>, now: nat,
                      timers': map<TimerId, Timer>, calls': map<TimerId, nat>, due': map<TimerId, nat>, id: TimerId)
    requires AllCounted(timers, live, start, before, calls, due, now)
    requires forall x :: x != id && x in live && x in timers ==>
               x in timers' && timers'[x] == timers[x] && At(calls', x) == At(calls, x) && At(due', x) == At(due, x)
    requires CountedAt(timers', live, start, before, calls', due', now, id)
    ensures AllCounted(timers', live, start, before, calls', due', now)
  {
    forall x
      ensures CountedAt(timers', live, start, before, calls', due', now, x)
    {
      assert CountedAt(timers, live, start, before, calls, due, now, x);
    }
  }

  lemma LaterCounted(timers: map<TimerId, Timer>, live: set<TimerId>, start: map<TimerId, nat>, before: map<TimerId, nat>,
                     calls: map<TimerId, nat>, due: map<TimerId, nat>, now: nat, now': nat)
    requires AllCounted(timers, live, start, before, calls, due, now) && now <= now'
    ensures AllCounted(timers, live, start, before, calls, due, now')
  {
    forall x
      ensures CountedAt(timers, live, start, before, calls, due, now', x)
    {
      assert CountedAt(timers, live, start, before, calls, due, now, x);
    }
  }

  /** The bookkeeping of an expiry and `n` more of an auto-reload timer. */
  lemma CountedAgain(timer: Timer, start: nat, c: nat, due: nat, n: nat, d: nat, now: nat)
    requires timer.autoReload && due <= now && Counted(timer, start, c, due, now)
    requires Nth(due, timer.period, n) <= now && d == Nth(due, timer.period, n + 1)
    ensures Counted(timer, start, c + n + 1, d, now)
  {
    NthShift(start, timer.period, c + 1, n);
  }

  lemma {:induction false} NthShift(start: nat, period: nat, c: nat, n: nat)
    ensures Nth(Nth(start, period, c), period, n) == Nth(start, period, c + n)
    ensures Nth(Nth(start, period, c), period, n + 1) == Nth(start, period, c + n + 1)
  {
    if n > 0 {
      NthShift(start, period, c, n - 1);
    }
  }

  /** Taking the head off the current list. */
  lemma HeadRemoved(timers: map<TimerId, Timer>, live: set<TimerId>, current: seq<TimerId>, overflow: seq<TimerId>,
                    expiry: map<TimerId, nat>, due: map<TimerId, nat>, turn: int)
    requires PairOk(current, overflow, expiry, due, turn) && AllListed(timers, live, current, overflow, {}) && current != []
    ensures PairOk(Delete(current, 0), overflow, expiry, due, turn)
    ensures AllListed(timers, live, Delete(current, 0), overflow, {current[0]})
    ensures current[0] !in Delete(current, 0) && current[0] !in overflow
    ensures current[0] in live && current[0] in timers && timers[current[0]].active
    ensures At(expiry, current[0]) == At(due, current[0]) % WORD && At(due, current[0]) / WORD == turn
  {
    var id := current[0];
    var rest := Delete(current, 0);
    DeleteKeepsListOk(current, expiry, due, turn, 0);
    StillInOneOnly(current, overflow, rest, overflow, id);
    assert InOneOnly(current, overflow, id) && InTurn(current, expiry, due, turn, 0);
    assert ListedAt(timers, live, current, overflow, id);
    forall x
      ensures x in {id} || ListedAt(timers, live, rest, overflow, x)
    {
      assert ListedAt(timers, live, current, overflow, x);
    }
  }

  lemma HeadRemovedElse(current: seq<TimerId>, expiry: map<TimerId, nat>, due: map<TimerId, nat>, turn: int)
    requires ListOk(current, expiry, due, turn) && current != []
    ensures ElseSame(current, Delete(current, 0), due, due, current[0])
  {
    var id, rest := current[0], Delete(current, 0);
    DeleteKeepsListOk(current, expiry, due, turn, 0);
    forall x
      ensures ElseSameAt(current, rest, due, due, id, x)
    {
    }
  }

  /** Listing a timer that is in no list. */
  lemma ListedAgain(timers: map<TimerId, Timer>, live: set<TimerId>, current: seq<TimerId>, overflow: seq<TimerId>,
                    expiry: map<TimerId, nat>, due: map<TimerId, nat>, now: nat,
                    id: TimerId, d: nat, current': seq<TimerId>, overflow': seq<TimerId>)
    requires PairOk(current, overflow, expiry, due, now / WORD) && id !in current && id !in overflow
    requires AllListed(timers, live, current, overflow, {id})
    requires id in live && id in timers && timers[id].active
    requires IsListed(current, overflow, expiry, now, id, d, current', overflow')
    ensures PairOk(current', overflow', expiry[id := d % WORD], due[id := d], now / WORD)
    ensures AllListed(timers, live, current', overflow', {})
  {
    PlacedOk(current, overflow, expiry, due, now / WORD, id, d);
    forall x
      ensures ListedAt(timers, live, current', overflow', x)
    {
      assert x in {id} || ListedAt(timers, live, current, overflow, x);
    }
  }

  /** A timer in no list is inactive from now on. */
  lemma Retired(timers: map<TimerId, Timer>, live: set<TimerId>, current: seq<TimerId>, overflow: seq<TimerId>, id: TimerId, timer: Timer)
    requires AllListed(timers, live, current, overflow, {id}) && id !in current && id !in overflow && !timer.active
    ensures AllListed(timers[id := timer], live, current, overflow, {})
  {
    var timers' := timers[id := timer];
    forall x
      ensures ListedAt(timers', live, current, overflow, x)
    {
      assert x in {id} || ListedAt(timers, live, current, overflow, x);
    }
  }

  lemma CurrentEmptied(current: seq<TimerId>, overflow: seq<TimerId>, expiry: map<TimerId, nat>, now: nat,
                       id: TimerId, d: nat, current': seq<TimerId>, overflow': seq<TimerId>)
    requires IsListed(current, overflow, expiry, now, id, d, current', overflow') && now < d && now % WORD == WORD - 1
    ensures current' == current
  {
  }

  /** An auto-reload timer expired, was caught up with and listed again. */
  lemma Reloaded(timers: map<TimerId, Timer>, live: set<TimerId>, start: map<TimerId, nat>, before: map<TimerId, nat>,
                 calls: map<TimerId, nat>, due: map<TimerId, nat>, now: nat, id: TimerId, n: nat, d: nat)
    requires AllCounted(timers, live, start, before, calls, due, now)
    requires id in live && id in timers && timers[id].autoReload && At(due, id) <= now
    requires Nth(At(due, id), timers[id].period, n) <= now && d == Nth(At(due, id), timers[id].period, n + 1)
    ensures AllCounted(timers, live, start, before, Bumped(calls, id, n)[id := At(Bumped(calls, id, n), id) + 1], due[id := d], now)
  {
    assert CountedAt(timers, live, start, before, calls, due, now, id);
    CountedAgain(timers[id], At(start, id), At(calls, id) - At(before, id), At(due, id), n, d, now);
    var calls' := Bumped(calls, id, n)[id := At(Bumped(calls, id, n), id) + 1];
    CountedChange(timers, live, start, before, calls, due, now, timers, calls', due[id := d], id);
  }

  /** A one-shot timer expired. */
  lemma Finished(timers: map<TimerId, Timer>, live: set<TimerId>, start: map<TimerId, nat>, before: map<TimerId, nat>,
                 calls: map<TimerId, nat>, due: map<TimerId, nat>, now: nat, id: TimerId)
    requires AllCounted(timers, live, start, before, calls, due, now)
    requires id in live && id in timers && timers[id].active && !timers[id].autoReload && At(due, id) <= now
    ensures AllCounted(timers[id := timers[id].(active := false)], live, start, before, calls[id := At(calls, id) + 1], due, now)
  {
    assert CountedAt(timers, live, start, before, calls, due, now, id);
    CountedChange(timers, live, start, before, calls, due, now,
                  timers[id := timers[id].(active := false)], calls[id := At(calls, id) + 1], due, id);
  }

  // ----- the end of a turn -----

  /** The last moment of the turn of `t`. */
  function TurnEnd(t: nat): nat {
    t / WORD * WORD + WORD - 1
  }

  lemma TurnEndFacts(t: nat)
    ensures t <= TurnEnd(t) && TurnEnd(t) / WORD == t / WORD && TurnEnd(t) % WORD == WORD - 1
    ensures (TurnEnd(t) + 1) / WORD == t / WORD + 1 && (TurnEnd(t) + 1) % WORD == 0
  {
  }

  lemma TurnLeft(t: nat)
    ensures var left := (0 - t % WORD) % WORD; left < WORD && (t + left) % WORD == 0
  {
    var r := t % WORD;
    if r > 0 {
      Modular.ModUnique(-r, -1, WORD - r, WORD);
      Modular.ModAdd(t, WORD - r, WORD);
    }
  }

  lemma HeadInTurn(list: seq<TimerId>, expiry: map<TimerId, nat>, due: map<TimerId, nat>, turn: int)
    requires ListOk(list, expiry, due, turn) && list != []
    ensures At(due, list[0]) / WORD == turn && At(expiry, list[0]) == At(due, list[0]) % WORD
  {
    assert InTurn(list, expiry, due, turn, 0);
  }

  lemma ListsSwitched(timers: map<TimerId, Timer>, live: set<TimerId>, current: seq<TimerId>, overflow: seq<TimerId>,
                      expiry: map<TimerId, nat>, due: map<TimerId, nat>, now: nat)
    requires PairOk(current, overflow, expiry, due, now / WORD) && AllListed(timers, live, current, overflow, {})
    requires current == [] && (now + 1) / WORD == now / WORD + 1
    ensures PairOk(overflow, current, expiry, due, (now + 1) / WORD) && AllListed(timers, live, overflow, current, {})
  {
    var turn := (now + 1) / WORD + 1;
    forall i, j
      ensures InOrder(current, expiry, i, j) && InTurn(current, expiry, due, turn, i) && InOneOnly(overflow, current, i)
    {
    }
    forall x
      ensures ListedAt(timers, live, overflow, current, x)
    {
      assert x in {} || ListedAt(timers, live, current, overflow, x);
    }
  }

  /** A smaller tick count than the last one means that the counter has wrapped, once. */
  lemma WrapIsSeen(now: nat, t: nat)
    requires now <= t < now + WORD
    ensures t % WORD < now % WORD <==> t / WORD != now / WORD
    ensures t % WORD < now % WORD ==> TurnEnd(now) + 1 <= t && t / WORD == (TurnEnd(now) + 1) / WORD
  {
  }

  /** With the head of the current list in the future, so is every listed timer. */
  lemma AllInFuture(current: seq<TimerId>, overflow: seq<TimerId>, expiry: map<TimerId, nat>, due: map<TimerId, nat>, now: nat, x: TimerId)
    requires PairOk(current, overflow, expiry, due, now / WORD)
    requires current != [] ==> At(expiry, current[0]) > now % WORD
    requires x in current || x in overflow
    ensures At(due, x) > now
    ensures x in current ==> At(due, x) >= At(due, current[0])
    ensures current == [] ==> At(due, x) > TurnEnd(now)
    ensures current != [] ==> At(due, x) >= At(due, current[0]) > now
  {
    if current != [] {
      HeadInTurn(current, expiry, due, now / WORD);
    }
    if x in current {
      var i :| 0 <= i < |current| && current[i] == x;
      assert InOrder(current, expiry, 0, i) && InTurn(current, expiry, due, now / WORD, i);
    } else {
      var i :| 0 <= i < |overflow| && overflow[i] == x;
      assert InTurn(overflow, expiry, due, now / WORD + 1, i);
    }
  }

  lemma RemoveTimerFacts(list: seq<TimerId>, expiry: map<TimerId, nat>, due: map<TimerId, nat>, turn: int, id: TimerId)
    requires ListOk(list, expiry, due, turn)
    ensures ListOk(RemoveTimer(list, id), expiry, due, turn)
    ensures forall x :: x in RemoveTimer(list, id) <==> x in list && x != id
  {
    if id in list {
      DeleteKeepsListOk(list, expiry, due, turn, IndexOf(list, id));
    }
  }

  lemma TakenOff(timers: map<TimerId, Timer>, live: set<TimerId>, current: seq<TimerId>, overflow: seq<TimerId>,
                 expiry: map<TimerId, nat>, due: map<TimerId, nat>, turn: int, id: TimerId)
    requires PairOk(current, overflow, expiry, due, turn) && AllListed(timers, live, current, overflow, {})
    ensures PairOk(RemoveTimer(current, id), RemoveTimer(overflow, id), expiry, due, turn)
    ensures AllListed(timers, live - {id}, RemoveTimer(current, id), RemoveTimer(overflow, id), {})
    ensures id !in RemoveTimer(current, id) && id !in RemoveTimer(overflow, id)
  {
    RemoveTimerFacts(current, expiry, due, turn, id);
    RemoveTimerFacts(overflow, expiry, due, turn + 1, id);
    assert InOneOnly(current, overflow, id);
    StillInOneOnly(current, overflow, RemoveTimer(current, id), RemoveTimer(overflow, id), id);
    forall x
      ensures ListedAt(timers, live - {id}, RemoveTimer(current, id), RemoveTimer(overflow, id), x)
    {
      assert x in {} || ListedAt(timers, live, current, overflow, x);
    }
  }

  lemma CountedWithout(timers: map<TimerId, Timer>, live: set<TimerId>, start: map<TimerId, nat>, before: map<TimerId, nat>,
                       calls: map<TimerId, nat>, due: map<TimerId, nat>, now: nat, id: TimerId)
    requires AllCounted(timers, live, start, before, calls, due, now)
    ensures AllCounted(timers, live - {id}, start, before, calls, due, now)
  {
    forall x
      ensures CountedAt(timers, live - {id}, start, before, calls, due, now, x)
    {
      assert CountedAt(timers, live, start, before, calls, due, now, x);
    }
  }

  /** A timer that has just been started. */
  lemma Begun(timers: map<TimerId, Timer>, live: set<TimerId>, start: map<TimerId, nat>, before: map<TimerId, nat>,
              calls: map<TimerId, nat>, due: map<TimerId, nat>, now: nat, id: TimerId, timer: Timer, issued: nat)
    requires AllCounted(timers, live, start, before, calls, due, now) && id !in live
    requires timer.active && issued <= now
    ensures AllCounted(timers[id := timer], live + {id}, start[id := issued], before[id := At(calls, id)], calls,
                       due[id := issued + timer.period], now)
  {
    assert Nth(issued, timer.period, 1) == Nth(issued, timer.period, 0) + timer.period;
    var timers', live', start', before', due' :=
      timers[id := timer], live + {id}, start[id := issued], before[id := At(calls, id)], due[id := issued + timer.period];
    forall x
      ensures CountedAt(timers', live', start', before', calls, due', now, x)
    {
      assert CountedAt(timers, live, start, before, calls, due, now, x);
    }
  }

  lemma BegunLists(timers: map<TimerId, Timer>, live: set<TimerId>, current: seq<TimerId>, overflow: seq<TimerId>, id: TimerId, timer: Timer)
    requires AllListed(timers, live, current, overflow, {})
    ensures AllListed(timers[id := timer], live + {id}, current, overflow, {id})
  {
    var timers', live' := timers[id := timer], live + {id};
    forall x
      ensures x == id || ListedAt(timers', live', current, overflow, x)
    {
      assert x in {} || ListedAt(timers, live, current, overflow, x);
    }
  }

  /** The settings of a timer that is not started may change freely. */
  lemma SetAside(timers: map<TimerId, Timer>, live: set<TimerId>, start: map<TimerId, nat>, before: map<TimerId, nat>,
                 calls: map<TimerId, nat>, due: map<TimerId, nat>, now: nat,
                 current: seq<TimerId>, overflow: seq<TimerId>, id: TimerId, timer: Timer)
    requires AllCounted(timers, live, start, before, calls, due, now) && AllListed(timers, live, current, overflow, {})
    requires id !in live && id in timers
    ensures AllCounted(timers[id := timer], live, start, before, calls, due, now)
    ensures AllListed(timers[id := timer], live, current, overflow, {})
  {
    var timers' := timers[id := timer];
    CountedChange(timers, live, start, before, calls, due, now, timers', calls, due, id);
    forall x
      ensures ListedAt(timers', live, current, overflow, x)
    {
      assert x in {} || ListedAt(timers, live, current, overflow, x);
    }
  }

  // ----- commands -----

  /** Start stands for the reset command too; both come also from interrupts. */
  datatype Command = Start(id: TimerId) | Stop(id: TimerId) | SetPeriod(id: TimerId, period: Period) | DeleteTimer(id: TimerId)
  {
    predicate Starts() {
      Start? || SetPeriod?
    }

    /** A start counts from when it was issued, a change of period from when it is handled. */
    function StartTime(issued: nat, handled: nat): nat {
      if SetPeriod? then handled else issued
    }
  }

  function Resettled(timers: map<TimerId, Timer>, command: Command): map<TimerId, Timer>
    requires command.id in timers
  {
    if command.SetPeriod? then timers[command.id := timers[command.id].(period := command.period)] else timers
  }

  // ----- runs -----

  /** A pass of the timer task at a time, or a command issued and handled at two times. */
  datatype Event = Pass(at: nat) | Handle(command: Command, issued: nat, handled: nat)
  {
    function Time(): nat {
      if Pass? then at else handled
    }

    predicate IsFor(x: TimerId) {
      Handle? && command.id == x
    }
  }

  function TimeBefore(t0: nat, events: seq<Event>, k: nat): nat
    requires k <= |events|
  {
    if k == 0 then t0 else events[k - 1].Time()
  }

  /** Less than one turn passes between samples, and between a command's issue and its handling. */
  ghost predicate OnTime(timers: map<TimerId, Timer>, t0: nat, events: seq<Event>, k: nat) {
    k < |events| ==>
      && TimeBefore(t0, events, k) <= events[k].Time() < TimeBefore(t0, events, k) + WORD
      && (events[k].Handle? ==>
            events[k].command.id in timers && events[k].issued <= events[k].handled < events[k].issued + WORD)
  }

  ghost predicate Timely(timers: map<TimerId, Timer>, t0: nat, events: seq<Event>) {
    forall k: nat :: OnTime(timers, t0, events, k)
  }

  /** What the commands say of one timer: its period, and when and by which event it was last started. */
  datatype Plan = Plan(period: Period, running: bool, start: nat, since: nat)

  function PlanAt(initial: map<TimerId, Timer>, events: seq<Event>, k: nat, x: TimerId): Plan
    requires k <= |events|
  {
    if k == 0 then Plan(if x in initial then initial[x].period else 1, false, 0, 0)
    else
      var plan := PlanAt(initial, events, k - 1, x);
      match events[k - 1]
      case Pass(_) => plan
      case Handle(command, issued, handled) =>
        if command.id != x then plan
        else
          match command
          case Start(_) => plan.(running := true, start := issued, since := k - 1)
          case SetPeriod(_, period) => Plan(period, true, handled, k - 1)
          case Stop(_) => plan.(running := false)
          case DeleteTimer(_) => plan.(running := false)
  }

  /**
    By time `t` timer `x`, as the first `p` events have left it, has called back exactly as
    often as it has expiry times, counted before event `i`. tallies[i] is how often each
    callback has run before event i.
   */
  ghost predicate UpToDateAt(initial: map<TimerId, Timer>, events: seq<Event>, tallies: seq<map<TimerId, nat>>,
                             p: nat, i: nat, t: nat, x: TimerId) {
    p <= |events| && i < |tallies| && x in initial ==>
      var plan := PlanAt(initial, events, p, x);
      plan.running ==>
        && plan.since < |tallies|
        && At(tallies[i], x) - At(tallies[plan.since], x)
           == Expected(Timer(plan.period, initial[x].autoReload, true), plan.start, t)
  }

  ghost predicate AllUpToDate(initial: map<TimerId, Timer>, events: seq<Event>, tallies: seq<map<TimerId, nat>>, p: nat, i: nat, t: nat) {
    forall x :: UpToDateAt(initial, events, tallies, p, i, t, x)
  }

  /** Timer `x` has not called back more often by time `t` than it has expiry times. */
  ghost predicate NotEarlyAt(initial: map<TimerId, Timer>, events: seq<Event>, tallies: seq<map<TimerId, nat>>,
                             p: nat, i: nat, t: nat, x: TimerId) {
    p <= |events| && i < |tallies| && x in initial ==>
      var plan := PlanAt(initial, events, p, x);
      plan.running ==>
        && plan.since < |tallies|
        && At(tallies[i], x) - At(tallies[plan.since], x)
           <= Expected(Timer(plan.period, initial[x].autoReload, true), plan.start, t)
  }

  /**
    Event `k` leaves timer `x` with no callback run early. A command leaves other timers alone,
    but when the tick count has wrapped, any event first brings them up to date as of the end
    of the turn, and no further.
   */
  ghost predicate InBounds(initial: map<TimerId, Timer>, t0: nat, events: seq<Event>, tallies: seq<map<TimerId, nat>>, k: nat, x: TimerId)
    requires k < |events| && k + 1 < |tallies|
  {
    var was, t := TimeBefore(t0, events, k), events[k].Time();
    && NotEarlyAt(initial, events, tallies, k + 1, k + 1, t, x)
    && (!events[k].IsFor(x) ==>
          if t / WORD != was / WORD then UpToDateAt(initial, events, tallies, k + 1, k + 1, TurnEnd(was), x)
          else events[k].Handle? ==> At(tallies[k + 1], x) == At(tallies[k], x))
  }

  /** Event `k` runs callbacks of a running timer and leaves it up to date, and runs no others. */
  ghost predicate CatchesUp(initial: map<TimerId, Timer>, events: seq<Event>, tallies: seq<map<TimerId, nat>>, k: nat, x: TimerId)
    requires k < |events| && k + 1 < |tallies|
  {
    && x in initial && PlanAt(initial, events, k, x).running
    && At(tallies[k + 1], x) > At(tallies[k], x)
    && UpToDateAt(initial, events, tallies, k, k + 1, events[k].Time(), x)
    && forall y :: y != x ==> At(tallies[k + 1], y) == At(tallies[k], y)
  }

  /** Event `k` runs no callback of a timer that does not run, unless it is a command for it, and takes none back. */
  ghost predicate CallsOnlyRunning(initial: map<TimerId, Timer>, events: seq<Event>, tallies: seq<map<TimerId, nat>>, k: nat, x: TimerId)
    requires k < |events| && k + 1 < |tallies|
  {
    && At(tallies[k], x) <= At(tallies[k + 1], x)
    && (x in initial && !PlanAt(initial, events, k, x).running && !events[k].IsFor(x) ==>
          At(tallies[k + 1], x) == At(tallies[k], x))
  }

  /**
    What event `k` does. The daemon blocks exactly in a pass that finds every timer up to date
    and the tick count not wrapped, and runs no callback then. Any other pass in the same turn
    brings one timer up to date that was behind. A timer just started is up to date at once.
    `InBounds` says the rest.
   */
  ghost predicate EventExact(initial: map<TimerId, Timer>, t0: nat, events: seq<Event>, tallies: seq<map<TimerId, nat>>,
                             blocked: seq<bool>, k: nat) {
    k < |events| && k + 1 < |tallies| && k < |blocked| ==>
      var t := events[k].Time();
      var sameTurn := t / WORD == TimeBefore(t0, events, k) / WORD;
      && (blocked[k] <==> events[k].Pass? && sameTurn && AllUpToDate(initial, events, tallies, k, k, t))
      && (blocked[k] ==> tallies[k + 1] == tallies[k])
      && (events[k].Pass? && sameTurn && !blocked[k] ==> exists x :: CatchesUp(initial, events, tallies, k, x))
      && (events[k].Handle? && events[k].command.Starts() ==>
            UpToDateAt(initial, events, tallies, k + 1, k + 1, t, events[k].command.id))
      && (forall x :: CallsOnlyRunning(initial, events, tallies, k, x))
      && (forall x :: InBounds(initial, t0, events, tallies, k, x))
  }

  /** What the commands handled so far say of timer `x` is what the daemon keeps of it. */
  ghost predicate Follows(initial: map<TimerId, Timer>, events: seq<Event>, k: nat, timers: map<TimerId, Timer>, live: set<TimerId>,
                          start: map<TimerId, nat>, before: map<TimerId, nat>, tallies: seq<map<TimerId, nat>>, x: TimerId) {
    k <= |events| && x in initial ==>
      var plan := PlanAt(initial, events, k, x);
      && x in timers && timers[x].period == plan.period && timers[x].autoReload == initial[x].autoReload
      && (x in live <==> plan.running)
      && (plan.running ==>
            && At(start, x) == plan.start
            && plan.since + 1 < |tallies| && At(before, x) == At(tallies[plan.since], x))
  }

  ghost predicate FollowsAll(initial: map<TimerId, Timer>, events: seq<Event>, k: nat, timers: map<TimerId, Timer>, live: set<TimerId>,
                             start: map<TimerId, nat>, before: map<TimerId, nat>, tallies: seq<map<TimerId, nat>>) {
    forall x :: Follows(initial, events, k, timers, live, start, before, tallies, x)
  }

  lemma PassFollows(initial: map<TimerId, Timer>, events: seq<Event>, timers: map<TimerId, Timer>, timers': map<TimerId, Timer>,
                    live: set<TimerId>, start: map<TimerId, nat>, before: map<TimerId, nat>,
                    tallies: seq<map<TimerId, nat>>, tallies': seq<map<TimerId, nat>>, calls: map<TimerId, nat>, k: nat)
    requires |tallies| == k + 1 <= |events| && events[k].Pass? && tallies' == tallies + [calls]
    requires FollowsAll(initial, events, k, timers, live, start, before, tallies)
    requires SameSettings(timers, timers')
    ensures FollowsAll(initial, events, k + 1, timers', live, start, before, tallies')
  {
    var k' := k + 1;
    forall x
      ensures Follows(initial, events, k', timers', live, start, before, tallies', x)
    {
      assert Follows(initial, events, k, timers, live, start, before, tallies, x);
    }
  }

  /** What handling a command does to what is kept of the timers. */
  ghost predicate Handled(command: Command, issued: nat, handled: nat, calls: map<TimerId, nat>,
                          timers: map<TimerId, Timer>, timers': map<TimerId, Timer>, live: set<TimerId>, live': set<TimerId>,
                          start: map<TimerId, nat>, start': map<TimerId, nat>, before: map<TimerId, nat>, before': map<TimerId, nat>)
  {
    && command.id in timers
    && SameSettings(Resettled(timers, command), timers')
    && live' == (if command.Starts() then live + {command.id} else live - {command.id})
    && start' == (if command.Starts() then start[command.id := command.StartTime(issued, handled)] else start)
    && before' == (if command.Starts() then before[command.id := At(calls, command.id)] else before)
  }

  /** Handling a command changes nothing about how many callbacks other timers have run, or should have. */
  lemma OthersUntouched(command: Command, issued: nat, handled: nat, calls: map<TimerId, nat>, calls': map<TimerId, nat>,
                        timers: map<TimerId, Timer>, timers': map<TimerId, Timer>, live: set<TimerId>, live': set<TimerId>,
                        start: map<TimerId, nat>, start': map<TimerId, nat>, before: map<TimerId, nat>, before': map<TimerId, nat>, t: nat)
    requires Handled(command, issued, handled, calls, timers, timers', live, live', start, start', before, before')
    requires OnlyCalled({command.id}, calls, calls')
    ensures forall x :: x != command.id && ExactFor(timers, live, start, before, calls, t, x) ==>
              ExactFor(timers', live', start', before', calls', t, x)
  {
    forall x | x != command.id && ExactFor(timers, live, start, before, calls, t, x)
      ensures ExactFor(timers', live', start', before', calls', t, x)
    {
      assert At(calls', x) == At(calls, x) && At(start', x) == At(start, x) && At(before', x) == At(before, x);
    }
  }

  lemma HandleFollows(initial: map<TimerId, Timer>, events: seq<Event>,
                      timers: map<TimerId, Timer>, timers': map<TimerId, Timer>, live: set<TimerId>, live': set<TimerId>,
                      start: map<TimerId, nat>, start': map<TimerId, nat>, before: map<TimerId, nat>, before': map<TimerId, nat>,
                      tallies: seq<map<TimerId, nat>>, tallies': seq<map<TimerId, nat>>, calls: map<TimerId, nat>, k: nat)
    requires |tallies| == k + 1 <= |events| && events[k].Handle? && tallies' == tallies + [calls]
    requires FollowsAll(initial, events, k, timers, live, start, before, tallies)
    requires Handled(events[k].command, events[k].issued, events[k].handled, tallies[k],
                     timers, timers', live, live', start, start', before, before')
    ensures FollowsAll(initial, events, k + 1, timers', live', start', before', tallies')
  {
    var k' := k + 1;
    forall x
      ensures Follows(initial, events, k', timers', live', start', before', tallies', x)
    {
      assert Follows(initial, events, k, timers, live, start, before, tallies, x);
      var plan := PlanAt(initial, events, k + 1, x);
      if events[k].command.id != x {
        assert plan == PlanAt(initial, events, k, x);
      }
    }
  }

  /** What the daemon keeps of a timer decides whether it is up to date. */
  lemma ExactMeans(initial: map<TimerId, Timer>, events: seq<Event>, p: nat, timers: map<TimerId, Timer>, live: set<TimerId>,
                   start: map<TimerId, nat>, before: map<TimerId, nat>, calls: map<TimerId, nat>,
                   earlier: seq<map<TimerId, nat>>, tallies: seq<map<TimerId, nat>>, i: nat, t: nat, x: TimerId)
    requires Follows(initial, events, p, timers, live, start, before, earlier, x) && p <= |events|
    requires earlier <= tallies && i < |tallies| && tallies[i] == calls && x in initial
    ensures UpToDateAt(initial, events, tallies, p, i, t, x) <==> ExactFor(timers, live, start, before, calls, t, x)
  {
  }

  /** Earlier events are not affected by what follows. */
  lemma ExactExtends(initial: map<TimerId, Timer>, t0: nat, events: seq<Event>, tallies: seq<map<TimerId, nat>>, calls: map<TimerId, nat>,
                     blocked: seq<bool>, stops: bool, k: nat)
    requires |tallies| == |blocked| + 1 && k < |blocked| && k < |events|
    requires EventExact(initial, t0, events, tallies, blocked, k)
    ensures EventExact(initial, t0, events, tallies + [calls], blocked + [stops], k)
  {
    var tallies', t, next := tallies + [calls], events[k].Time(), k + 1;
    forall x
      ensures UpToDateAt(initial, events, tallies', k, k, t, x) == UpToDateAt(initial, events, tallies, k, k, t, x)
      ensures UpToDateAt(initial, events, tallies', k, next, t, x) == UpToDateAt(initial, events, tallies, k, next, t, x)
      ensures UpToDateAt(initial, events, tallies', next, next, t, x) == UpToDateAt(initial, events, tallies, next, next, t, x)
    {
      PlansReachBack(initial, events, k, x);
      PlansReachBack(initial, events, next, x);
    }
    forall x
      ensures CallsOnlyRunning(initial, events, tallies', k, x)
    {
      assert CallsOnlyRunning(initial, events, tallies, k, x);
    }
    forall x
      ensures InBounds(initial, t0, events, tallies', k, x)
    {
      assert InBounds(initial, t0, events, tallies, k, x);
      BoundsExtend(initial, t0, events, tallies, calls, k, x);
    }
    if events[k].Pass? && t / WORD == TimeBefore(t0, events, k) / WORD && !blocked[k] {
      var x :| CatchesUp(initial, events, tallies, k, x);
      assert CatchesUp(initial, events, tallies', k, x);
    }
  }

  lemma BoundsExtend(initial: map<TimerId, Timer>, t0: nat, events: seq<Event>, tallies: seq<map<TimerId, nat>>, calls: map<TimerId, nat>,
                     k: nat, x: TimerId)
    requires k + 1 < |tallies| && k < |events| && InBounds(initial, t0, events, tallies, k, x)
    ensures InBounds(initial, t0, events, tallies + [calls], k, x)
  {
    PlansReachBack(initial, events, k + 1, x);
  }

  /** A timer was started by an earlier event. */
  lemma {:induction false} PlansReachBack(initial: map<TimerId, Timer>, events: seq<Event>, p: nat, x: TimerId)
    requires p <= |events|
    ensures PlanAt(initial, events, p, x).since <= if p == 0 then 0 else p - 1
  {
    if p > 0 {
      PlansReachBack(initial, events, p - 1, x);
    }
  }

  /** The started timers are up to date as the daemon keeps them exactly when they are by the commands. */
  lemma AllExactMeans(initial: map<TimerId, Timer>, events: seq<Event>, p: nat, timers: map<TimerId, Timer>, live: set<TimerId>,
                      start: map<TimerId, nat>, before: map<TimerId, nat>, calls: map<TimerId, nat>,
                      earlier: seq<map<TimerId, nat>>, tallies: seq<map<TimerId, nat>>, i: nat, t: nat)
    requires FollowsAll(initial, events, p, timers, live, start, before, earlier) && p <= |events|
    requires earlier <= tallies && i < |tallies| && tallies[i] == calls
    requires forall x :: x in live ==> x in initial
    ensures AllUpToDate(initial, events, tallies, p, i, t) <==> forall x :: ExactFor(timers, live, start, before, calls, t, x)
  {
    forall x
      ensures x in initial ==>
                (UpToDateAt(initial, events, tallies, p, i, t, x) <==> ExactFor(timers, live, start, before, calls, t, x))
    {
      assert Follows(initial, events, p, timers, live, start, before, earlier, x);
      if x in initial {
        ExactMeans(initial, events, p, timers, live, start, before, calls, earlier, tallies, i, t, x);
      }
    }
    if forall x :: ExactFor(timers, live, start, before, calls, t, x) {
      forall x
        ensures UpToDateAt(initial, events, tallies, p, i, t, x)
      {
        assert ExactFor(timers, live, start, before, calls, t, x);
      }
    }
    if AllUpToDate(initial, events, tallies, p, i, t) {
      forall x
        ensures ExactFor(timers, live, start, before, calls, t, x)
      {
        assert UpToDateAt(initial, events, tallies, p, i, t, x);
      }
    }
  }

  lemma OnlyRunningCalled(initial: map<TimerId, Timer>, events: seq<Event>, k: nat, timers: map<TimerId, Timer>, live: set<TimerId>,
                          start: map<TimerId, nat>, before: map<TimerId, nat>,
                          tallies: seq<map<TimerId, nat>>, calls: map<TimerId, nat>)
    requires |tallies| == k + 1 <= |events| && FollowsAll(initial, events, k, timers, live, start, before, tallies)
    requires OnlyCalled(live + (if events[k].Handle? then {events[k].command.id} else {}), tallies[k], calls)
    ensures forall x :: CallsOnlyRunning(initial, events, tallies + [calls], k, x)
  {
    var tallies' := tallies + [calls];
    forall x
      ensures CallsOnlyRunning(initial, events, tallies', k, x)
    {
      assert Follows(initial, events, k, timers, live, start, before, tallies, x);
      assert At(tallies[k], x) <= At(calls, x);
    }
  }

  /** The callback of a started timer has run, and it is up to date. */
  ghost predicate Catches(timers: map<TimerId, Timer>, live: set<TimerId>, start: map<TimerId, nat>, before: map<TimerId, nat>,
                          calls: map<TimerId, nat>, calls': map<TimerId, nat>, t: nat, h: TimerId) {
    && h in live && At(calls', h) > At(calls, h) && OnlyCalled({h}, calls, calls')
    && ExactFor(timers, live, start, before, calls', t, h)
  }

  lemma CatchMeans(initial: map<TimerId, Timer>, events: seq<Event>, k: nat, timers: map<TimerId, Timer>, timers': map<TimerId, Timer>,
                   live: set<TimerId>, start: map<TimerId, nat>, before: map<TimerId, nat>,
                   tallies: seq<map<TimerId, nat>>, calls: map<TimerId, nat>, h: TimerId)
    requires |tallies| == k + 1 <= |events| && FollowsAll(initial, events, k, timers, live, start, before, tallies)
    requires SameSettings(timers, timers') && h in initial
    requires Catches(timers', live, start, before, tallies[k], calls, events[k].Time(), h)
    ensures CatchesUp(initial, events, tallies + [calls], k, h)
  {
    assert Follows(initial, events, k, timers, live, start, before, tallies, h);
    assert Follows(initial, events, k, timers', live, start, before, tallies, h);
    ExactMeans(initial, events, k, timers', live, start, before, calls, tallies, tallies + [calls], k + 1, events[k].Time(), h);
  }

  /** A timer that the event is not a command for, from before it to after it, when `end` ended a turn in between. */
  ghost predicate OtherFor(event: Event, wrapped: bool, end: nat, timers: map<TimerId, Timer>, live: set<TimerId>, start: map<TimerId, nat>,
                           before: map<TimerId, nat>, calls: map<TimerId, nat>, calls': map<TimerId, nat>, x: TimerId) {
    !event.IsFor(x) ==>
      if wrapped then ExactFor(timers, live, start, before, calls', end, x)
      else event.Handle? ==> At(calls', x) == At(calls, x)
  }

  ghost predicate OthersFor(event: Event, wrapped: bool, end: nat, timers: map<TimerId, Timer>, live: set<TimerId>, start: map<TimerId, nat>,
                            before: map<TimerId, nat>, calls: map<TimerId, nat>, calls': map<TimerId, nat>) {
    forall x :: OtherFor(event, wrapped, end, timers, live, start, before, calls, calls', x)
  }

  lemma BoundsNow(initial: map<TimerId, Timer>, t0: nat, events: seq<Event>, k: nat, tallies: seq<map<TimerId, nat>>, calls: map<TimerId, nat>,
                  timers: map<TimerId, Timer>, live: set<TimerId>, start: map<TimerId, nat>, before: map<TimerId, nat>, wrapped: bool, end: nat)
    requires |tallies| == k + 1 <= |events|
    requires FollowsAll(initial, events, k + 1, timers, live, start, before, tallies + [calls])
    requires end == TurnEnd(TimeBefore(t0, events, k))
    requires wrapped <==> events[k].Time() / WORD != TimeBefore(t0, events, k) / WORD
    requires forall x :: NotEarlyFor(timers, live, start, before, calls, events[k].Time(), x)
    requires OthersFor(events[k], wrapped, end, timers, live, start, before, tallies[k], calls)
    ensures forall x :: InBounds(initial, t0, events, tallies + [calls], k, x)
  {
    var tallies', k' := tallies + [calls], k + 1;
    forall x
      ensures InBounds(initial, t0, events, tallies', k, x)
    {
      assert Follows(initial, events, k', timers, live, start, before, tallies', x);
      assert NotEarlyFor(timers, live, start, before, calls, events[k].Time(), x);
      assert OtherFor(events[k], wrapped, end, timers, live, start, before, tallies[k], calls, x);
      if x in initial {
        ExactMeans(initial, events, k', timers, live, start, before, calls, tallies', tallies', k', end, x);
      }
    }
  }

  /** What a turn of the loop promises of the daemon's state, in terms of the events. */
  lemma EventNow(initial: map<TimerId, Timer>, t0: nat, events: seq<Event>, k: nat, tallies: seq<map<TimerId, nat>>, calls: map<TimerId, nat>,
                 blocked: seq<bool>, stops: bool, timers: map<TimerId, Timer>, timers': map<TimerId, Timer>,
                 live: set<TimerId>, live': set<TimerId>, start: map<TimerId, nat>, start': map<TimerId, nat>,
                 before: map<TimerId, nat>, before': map<TimerId, nat>, up: bool)
    requires |tallies| == k + 1 <= |events| && |blocked| == k
    requires FollowsAll(initial, events, k, timers, live, start, before, tallies)
    requires FollowsAll(initial, events, k + 1, timers', live', start', before', tallies + [calls])
    requires (forall x :: x in live ==> x in initial) && forall x :: CallsOnlyRunning(initial, events, tallies + [calls], k, x)
    requires forall x :: InBounds(initial, t0, events, tallies + [calls], k, x)
    requires up <==> forall x :: ExactFor(timers, live, start, before, tallies[k], events[k].Time(), x)
    requires stops <==> events[k].Pass? && events[k].Time() / WORD == TimeBefore(t0, events, k) / WORD && up
    requires stops ==> calls == tallies[k]
    requires events[k].Pass? ==> SameSettings(timers, timers') && live' == live && start' == start && before' == before
    requires events[k].Pass? && events[k].Time() / WORD == TimeBefore(t0, events, k) / WORD && !stops ==>
               exists h :: Catches(timers', live', start', before', tallies[k], calls, events[k].Time(), h)
    requires events[k].Handle? && events[k].command.Starts() ==>
               events[k].command.id in initial && ExactFor(timers', live', start', before', calls, events[k].Time(), events[k].command.id)
    ensures EventExact(initial, t0, events, tallies + [calls], blocked + [stops], k)
  {
    var tallies', t := tallies + [calls], events[k].Time();
    AllExactMeans(initial, events, k, timers, live, start, before, tallies[k], tallies, tallies', k, t);
    if events[k].Pass? && t / WORD == TimeBefore(t0, events, k) / WORD && !stops {
      var h :| Catches(timers', live', start', before', tallies[k], calls, t, h);
      CatchMeans(initial, events, k, timers, timers', live, start, before, tallies, calls, h);
    }
    if events[k].Handle? && events[k].command.Starts() {
      var x := events[k].command.id;
      assert Follows(initial, events, k + 1, timers', live', start', before', tallies', x);
      ExactMeans(initial, events, k + 1, timers', live', start', before', calls, tallies', tallies', k + 1, t, x);
    }
  }

  class TimerDaemon {
    var timers: map<TimerId, Timer>
    var expiry: map<TimerId, nat>        // xItemValue of each timer's list item
    var current: seq<TimerId>            // *pxCurrentTimerList
    var overflow: seq<TimerId>           // *pxOverflowTimerList
    var lastTime: nat                    // xLastTime
    var calls: map<TimerId, nat>         // callbacks that have run

    ghost var now: nat                   // unbounded time up to which the lists have been worked off
    ghost var due: map<TimerId, nat>     // unbounded expiry times
    ghost var live: set<TimerId>         // started and not since stopped or deleted
    ghost var start: map<TimerId, nat>   // unbounded time of the last start
    ghost var before: map<TimerId, nat>  // callbacks that had run before it

    /** The lists are in order, and hold the active timers outside `hole`. */
    ghost predicate ListsOk(hole: set<TimerId>)
      reads this
    {
      && PairOk(current, overflow, expiry, due, now / WORD)
      && AllListed(timers, live, current, overflow, hole)
    }

    /** Lists and callbacks agree with the commands handled and the time worked off. */
    ghost predicate Core()
      reads this
    {
      && ListsOk({})
      && AllCounted(timers, live, start, before, calls, due, now)
    }

    ghost predicate Valid()
      reads this
    {
      Core() && lastTime == now % WORD
    }

    /** prvCheckForValidListAndQueue, with timers that have been created but not started. */
    constructor (created: map<TimerId, Timer>)
      requires forall x :: x in created ==> !created[x].active
      ensures Valid() && timers == created && live == {} && now == 0
    {
      timers, expiry, current, overflow, lastTime, calls := created, map[], [], [], 0, map[];
      now, due, live, start, before := 0, map[], {}, map[], map[];
    }

    /** prvInsertTimerInActiveList; `command` is the unbounded time that commandTime stands for. */
    method InsertTimerInActiveList(id: TimerId, next: nat, timeNow: nat, commandTime: nat, ghost command: nat)
      returns (processNow: bool)
      requires id in timers
      requires command <= now < command + WORD && commandTime == command % WORD && timeNow == now % WORD
      requires next == (commandTime + timers[id].period) % WORD
      modifies this`expiry, this`due, this`current, this`overflow
      ensures processNow <==> command + timers[id].period <= now
      ensures expiry == old(expiry)[id := (command + timers[id].period) % WORD] && due == old(due)[id := command + timers[id].period]
      ensures processNow ==> current == old(current) && overflow == old(overflow)
      ensures !processNow ==> IsListed(old(current), old(overflow), old(expiry), now, id, At(due, id), current, overflow)
    {
      processNow := false;
      expiry := expiry[id := next];
      due := due[id := command + timers[id].period];
      ghost var d := command + timers[id].period;
      assert next == d % WORD by { TickSum(command, timers[id].period); }
      assert (ProcessNow(next, timeNow, commandTime, timers[id].period) <==> d <= now)
          && (d > now ==> d / WORD == if next <= timeNow then now / WORD + 1 else now / WORD) by {
        ProcessNowIsExact(command, now, timers[id].period);
      }
      if d > now {
        ListedIn(current, overflow, old(expiry), now, id, d);
      }
      if next <= timeNow {
        if (timeNow - commandTime) % WORD >= timers[id].period {
          processNow := true;
        } else {
          overflow := InsertTimer(overflow, expiry, id);
        }
      } else {
        if timeNow < commandTime && next >= commandTime {
          processNow := true;
        } else {
          current := InsertTimer(current, expiry, id);
        }
      }
    }

    /** The same, where `expiry0` and `due0` are what the expiry times were but for this timer. */
    method TryInsert(id: TimerId, next: nat, timeNow: nat, commandTime: nat, ghost command: nat,
                     ghost expiry0: map<TimerId, nat>, ghost due0: map<TimerId, nat>)
      returns (processNow: bool)
      requires id in timers
      requires command <= now < command + WORD && commandTime == command % WORD && timeNow == now % WORD
      requires next == (commandTime + timers[id].period) % WORD
      requires SameBut(expiry0, expiry, id) && SameBut(due0, due, id)
      modifies this`expiry, this`due, this`current, this`overflow
      ensures processNow <==> command + timers[id].period <= now
      ensures SameBut(expiry0, expiry, id) && SameBut(due0, due, id)
      ensures expiry == expiry0[id := (command + timers[id].period) % WORD] && due == due0[id := command + timers[id].period]
      ensures processNow ==> current == old(current) && overflow == old(overflow)
      ensures !processNow ==> IsListed(old(current), old(overflow), expiry0, now, id, command + timers[id].period, current, overflow)
    {
      ghost var d := command + timers[id].period;
      Overwritten(expiry0, expiry, id, d % WORD);
      Overwritten(due0, due, id, d);
      processNow := InsertTimerInActiveList(id, next, timeNow, commandTime, command);
      if !processNow {
        ListedAnew(old(current), old(overflow), expiry0, old(expiry), now, id, d, current, overflow);
      }
    }

    /**
      prvReloadTimer, for a timer that expired at the unbounded time `command`: runs the
      callback for every further expiry that is past and lists the timer for the next.
     */
    method ReloadTimer(id: TimerId, expiredTime: nat, timeNow: nat, ghost command: nat)
      returns (ghost n: nat)
      requires id in timers
      requires command <= now < command + WORD && expiredTime == command % WORD && timeNow == now % WORD
      modifies this`expiry, this`due, this`current, this`overflow, this`calls
      ensures calls == Bumped(old(calls), id, n)
      ensures Nth(command, timers[id].period, n) <= now
      ensures now < At(due, id) == Nth(command, timers[id].period, n + 1)
      ensures expiry == old(expiry)[id := At(due, id) % WORD] && due == old(due)[id := At(due, id)]
      ensures IsListed(old(current), old(overflow), old(expiry), now, id, At(due, id), current, overflow)
    {
      var period := timers[id].period;
      var expired := expiredTime;
      ghost var at := command;
      n := 0;
      assert SameBut(expiry, expiry, id) && SameBut(due, due, id);
      while true
        invariant command <= at <= now && expired == at % WORD && at == Nth(command, period, n)
        invariant calls == Bumped(old(calls), id, n)
        invariant SameBut(old(expiry), expiry, id) && SameBut(old(due), due, id)
        invariant current == old(current) && overflow == old(overflow)
        decreases now - at
      {
        var processNow := TryInsert(id, (expired + period) % WORD, timeNow, expired, at, old(expiry), old(due));
        if !processNow {
          break;
        }
        TickSum(at, period);
        BumpedOnceMore(old(calls), id, n);
        expired := (expired + period) % WORD;
        calls := calls[id := At(calls, id) + 1];
        n := n + 1;
        at := at + period;
      }
    }

    /** prvReloadTimer for a timer just taken off its list. */
    method Relist(id: TimerId, expiredTime: nat, timeNow: nat)
      returns (ghost n: nat)
      requires ListsOk({id}) && id !in current && id !in overflow
      requires id in live && id in timers && timers[id].active
      requires At(due, id) <= now < At(due, id) + WORD && expiredTime == At(due, id) % WORD && timeNow == now % WORD
      modifies this`expiry, this`due, this`current, this`overflow, this`calls
      ensures ListsOk({})
      ensures calls == Bumped(old(calls), id, n)
      ensures due == old(due)[id := Nth(At(old(due), id), timers[id].period, n + 1)]
      ensures Nth(At(old(due), id), timers[id].period, n) <= now < At(due, id)
      ensures ElseSame(old(current), current, old(due), due, id)
      ensures now % WORD == WORD - 1 ==> current == old(current)
    {
      n := ReloadTimer(id, expiredTime, timeNow, At(due, id));
      ListedAgain(timers, live, old(current), old(overflow), old(expiry), old(due), now, id, At(due, id), current, overflow);
      PlacedElse(old(current), old(overflow), old(expiry), old(due), now, id, At(due, id), current, overflow);
      if now % WORD == WORD - 1 {
        CurrentEmptied(old(current), old(overflow), old(expiry), now, id, At(due, id), current, overflow);
      }
    }

    /** The callback of `id` is about to run once more. */
    ghost predicate OwesCallback(id: TimerId)
      reads this
    {
      && ListsOk({})
      && AllCounted(timers, live, start, before, calls[id := At(calls, id) + 1], due, now)
    }

    ghost predicate IsExpired(id: TimerId)
      reads this
    {
      && ListsOk({id}) && id !in current && id !in overflow
      && AllCounted(timers, live, start, before, calls, due, now)
      && id in live && id in timers && timers[id].active
      && At(due, id) <= now < At(due, id) + WORD
    }

    method ReloadExpired(id: TimerId, expiredTime: nat, timeNow: nat)
      requires IsExpired(id) && timers[id].autoReload && expiredTime == At(due, id) % WORD && timeNow == now % WORD
      modifies this`expiry, this`due, this`current, this`overflow, this`calls
      ensures OwesCallback(id) && OnlyCalled({id}, old(calls), calls)
      ensures At(due, id) > now && ElseSame(old(current), current, old(due), due, id)
      ensures now % WORD == WORD - 1 ==> current == old(current)
    {
      ghost var n := Relist(id, expiredTime, timeNow);
      Reloaded(timers, live, start, before, old(calls), old(due), now, id, n, At(due, id));
    }

    method Deactivate(id: TimerId)
      requires IsExpired(id) && !timers[id].autoReload
      modifies this`timers
      ensures OwesCallback(id) && SameSettings(old(timers), timers) && !timers[id].active
    {
      Finished(timers, live, start, before, calls, due, now, id);
      Retired(timers, live, current, overflow, id, timers[id].(active := false));
      timers := timers[id := timers[id].(active := false)];
    }

    method RunCallback(id: TimerId)
      requires OwesCallback(id)
      modifies this`calls
      ensures Core() && OnlyCalled({id}, old(calls), calls) && At(calls, id) == At(old(calls), id) + 1
    {
      calls := calls[id := At(calls, id) + 1];
    }

    /** What becomes of an expired timer in no list: it is listed for its next expiry or retired, and calls back. */
    method Expire(id: TimerId, expiredTime: nat, timeNow: nat)
      requires IsExpired(id) && expiredTime == At(due, id) % WORD && timeNow == now % WORD
      modifies this`timers, this`expiry, this`due, this`current, this`overflow, this`calls
      ensures Core() && SameSettings(old(timers), timers) && OnlyCalled({id}, old(calls), calls) && At(calls, id) > At(old(calls), id)
      ensures id in timers && (timers[id].active ==> At(due, id) > now)
      ensures ElseSame(old(current), current, old(due), due, id)
      ensures now % WORD == WORD - 1 ==> current == old(current)
    {
      if timers[id].autoReload {
        ReloadExpired(id, expiredTime, timeNow);
      } else {
        Deactivate(id);
      }
      RunCallback(id);
    }

    /** uxListRemove of the head of the current list. */
    method TakeHead() returns (id: TimerId)
      requires ListsOk({}) && current != []
      modifies this`current
      ensures id == old(current[0]) && |current| == |old(current)| - 1
      ensures ListsOk({id}) && id !in current && id !in overflow
      ensures id in live && id in timers && timers[id].active
      ensures At(expiry, id) == At(due, id) % WORD && At(due, id) / WORD == now / WORD
      ensures ElseSame(old(current), current, due, due, id)
    {
      id := current[0];
      HeadRemoved(timers, live, current, overflow, expiry, due, now / WORD);
      HeadRemovedElse(current, expiry, due, now / WORD);
      current := Delete(current, 0);
    }

    /**
      prvProcessExpiredTimer: the timer at the head runs its callback and is up to date after
      it, and no other timer is touched.
     */
    method ProcessExpiredTimer(nextExpireTime: nat, timeNow: nat)
      requires Core() && current != [] && At(due, current[0]) <= now
      requires nextExpireTime == At(expiry, current[0]) && timeNow == now % WORD
      modifies this`timers, this`expiry, this`due, this`current, this`overflow, this`calls
      ensures Core() && SameSettings(old(timers), timers)
      ensures var h := old(current[0]);
              && h in live && OnlyCalled({h}, old(calls), calls) && At(calls, h) > At(old(calls), h) && Exact(now, h)
              && Overdue(current, due, now) == Overdue(old(current), old(due), now) - {h}
      ensures now % WORD == WORD - 1 ==> |current| < |old(current)|
    {
      var id := TakeHead();
      ghost var rest := current;
      Expire(id, nextExpireTime, timeNow);
      Served(id, old(current), rest, old(due));
    }

    /** What has been taken off the list, and put back for later or not at all, is no longer overdue. */
    lemma Served(id: TimerId, current0: seq<TimerId>, rest: seq<TimerId>, due0: map<TimerId, nat>)
      requires Core() && id in live && id in timers && (timers[id].active ==> At(due, id) > now)
      requires ElseSame(current0, rest, due0, due0, id) && ElseSame(rest, current, due0, due, id)
      ensures Exact(now, id) && Overdue(current, due, now) == Overdue(current0, due0, now) - {id}
    {
      UpToDate(id);
      ElseSameChain(current0, rest, current, due0, due, id);
      assert id in {} || ListedAt(timers, live, current, overflow, id);
      OneLessOverdue(current0, current, due0, due, id, now);
    }

    /** The loop of prvSwitchTimerLists: every timer left in the current list has expired. */
    method WorkOffTurn()
      requires Core()
      modifies this`timers, this`expiry, this`due, this`current, this`overflow, this`calls, this`now
      ensures Core() && SameSettings(old(timers), timers) && OnlyCalled(live, old(calls), calls)
      ensures now == TurnEnd(old(now)) && current == [] && CaughtUp(now)
    {
      TurnEndFacts(now);
      LaterCounted(timers, live, start, before, calls, due, now, TurnEnd(now));
      now := TurnEnd(now);
      while current != []
        invariant Core() && SameSettings(old(timers), timers) && now == TurnEnd(old(now)) && OnlyCalled(live, old(calls), calls)
        decreases |current|
      {
        var nextExpireTime := At(expiry, current[0]);
        HeadInTurn(current, expiry, due, now / WORD);
        ProcessExpiredTimer(nextExpireTime, WORD - 1);
      }
      NothingLeft();
    }

    lemma NothingLeft()
      requires Core() && current == []
      ensures CaughtUp(now)
    {
      TurnEndFacts(now);
      forall x
        ensures Exact(now, x)
      {
        if x in live && x in timers && timers[x].active {
          assert x in {} || ListedAt(timers, live, current, overflow, x);
          AllInFuture(current, overflow, expiry, due, now, x);
        }
        UpToDate(x);
      }
    }

    /**
      prvSwitchTimerLists: works off what is left of the ended turn, and starts the next. The
      list that becomes the overflow list is empty.
     */
    method SwitchTimerLists()
      requires Core()
      modifies this`timers, this`expiry, this`due, this`current, this`overflow, this`calls, this`now
      ensures Core() && SameSettings(old(timers), timers) && OnlyCalled(live, old(calls), calls)
      ensures now == TurnEnd(old(now)) + 1 && overflow == [] && CaughtUp(TurnEnd(old(now)))
    {
      WorkOffTurn();
      TurnEndFacts(old(now));
      ghost var end := now;
      label Done:
      ExchangeLists();
      assert forall x :: old@Done(Exact(end, x)) == Exact(end, x);
    }

    method ExchangeLists()
      requires Core() && current == [] && now % WORD == WORD - 1
      modifies this`current, this`overflow, this`now
      ensures Core() && now == old(now) + 1 && current == old(overflow) && overflow == []
    {
      ListsSwitched(timers, live, current, overflow, expiry, due, now);
      LaterCounted(timers, live, start, before, calls, due, now, now + 1);
      now := now + 1;
      current, overflow := overflow, current;
    }

    /** prvSampleTimeNow, when xTaskGetTickCount returns the tick count of the unbounded time `t`. */
    method SampleTimeNow(tickCount: nat, ghost t: nat) returns (timeNow: nat, switched: bool)
      requires Valid() && now <= t < now + WORD && tickCount == t % WORD
      modifies this`timers, this`expiry, this`due, this`current, this`overflow, this`calls, this`now, this`lastTime
      ensures Valid() && SameSettings(old(timers), timers) && OnlyCalled(live, old(calls), calls)
      ensures now == t && timeNow == tickCount
      ensures switched <==> t / WORD != old(now) / WORD
      ensures !switched ==> current == old(current) && overflow == old(overflow) && expiry == old(expiry) && due == old(due)
      ensures !switched ==> timers == old(timers) && calls == old(calls)
      ensures switched ==> CaughtUp(TurnEnd(old(now)))
    {
      timeNow := tickCount;
      WrapIsSeen(now, t);
      if timeNow < lastTime {
        SwitchTimerLists();
        switched := true;
      } else {
        switched := false;
      }
      LaterCounted(timers, live, start, before, calls, due, now, t);
      ghost var end := TurnEnd(old(now));
      label Sampled:
      now := t;
      lastTime := timeNow;
      assert forall x :: old@Sampled(Exact(end, x)) == Exact(end, x);
    }

    ghost predicate Exact(t: nat, x: TimerId)
      reads this
    {
      ExactFor(timers, live, start, before, calls, t, x)
    }

    /** Every started timer has run its callback exactly as often as it should have by time `t`. */
    ghost predicate CaughtUp(t: nat)
      reads this
    {
      forall x :: Exact(t, x)
    }

    lemma CaughtUpMeans(t: nat)
      requires CaughtUp(t)
      ensures forall x :: ExactFor(timers, live, start, before, calls, t, x)
    {
      forall x
        ensures ExactFor(timers, live, start, before, calls, t, x)
      {
        assert Exact(t, x);
      }
    }

    /** prvGetNextExpireTime. */
    method GetNextExpireTime() returns (next: nat, listWasEmpty: bool)
      ensures listWasEmpty <==> current == []
      ensures next == if current == [] then 0 else At(expiry, current[0])
    {
      listWasEmpty := current == [];
      if listWasEmpty {
        next := 0;
      } else {
        next := At(expiry, current[0]);
      }
    }

    /** No listed timer is overdue, and the block time ends with none overdue. */
    ghost predicate MayBlock(next: nat)
      reads this
    {
      && (current != [] ==> next == At(expiry, current[0]) && next > now % WORD)
      && (current == [] ==> next == 0)
    }

    /** A timer with nothing overdue is up to date. */
    lemma UpToDate(x: TimerId)
      requires Core() && (x in live && x in timers && timers[x].active ==> At(due, x) > now)
      ensures Exact(now, x)
    {
      assert CountedAt(timers, live, start, before, calls, due, now, x);
      if x in live {
        NothingOverdue(timers[x], At(start, x), At(calls, x) - At(before, x), At(due, x), now);
      }
    }

    /** No started timer has run its callback early, ... */
    lemma NeverEarly()
      requires Core()
      ensures forall x :: NotEarlyFor(timers, live, start, before, calls, now, x)
    {
      forall x
        ensures NotEarlyFor(timers, live, start, before, calls, now, x)
      {
        assert CountedAt(timers, live, start, before, calls, due, now, x);
        if x in live {
          NothingEarly(timers[x], At(start, x), At(calls, x) - At(before, x), At(due, x), now);
        }
      }
    }

    /** ... and one that is due is not up to date. */
    lemma Behind(x: TimerId)
      requires Core() && x in live && x in timers && timers[x].active && At(due, x) <= now
      ensures !Exact(now, x)
    {
      assert CountedAt(timers, live, start, before, calls, due, now, x);
      SomethingOverdue(timers[x], At(start, x), At(calls, x) - At(before, x), At(due, x), now, now);
    }

    lemma ExactCount(x: TimerId, next: nat)
      requires Valid() && MayBlock(next)
      ensures Exact(now, x)
    {
      if x in live && x in timers && timers[x].active {
        assert x in {} || ListedAt(timers, live, current, overflow, x);
        AllInFuture(current, overflow, expiry, due, now, x);
      }
      UpToDate(x);
    }

    lemma SleepsUntilDue(next: nat, x: TimerId)
      requires Valid() && MayBlock(next)
      requires x in live && x in timers && timers[x].active
      ensures At(due, x) >= now + (next - now % WORD) % WORD
      ensures current != [] ==> now + (next - now % WORD) % WORD == At(due, current[0])
    {
      assert x in {} || ListedAt(timers, live, current, overflow, x);
      AllInFuture(current, overflow, expiry, due, now, x);
      if current != [] {
        HeadInTurn(current, expiry, due, now / WORD);
      }
    }

    /** Blocking the task for `ticks` ticks neither leaves nor makes a callback late. */
    ghost predicate BlocksInTime(ticks: nat, indefinitely: bool)
      reads this
    {
      forall x :: x in live && x in timers && timers[x].active ==> !indefinitely && now + ticks <= At(due, x)
    }

    /** It is blocked until the first expiry of this turn, or else the end of the turn, and for ever only with no timer listed. */
    ghost predicate BlocksAsLong(ticks: nat, indefinitely: bool)
      reads this
    {
      && (indefinitely <==> current == [] && overflow == [])
      && (if current != [] then now + ticks == At(due, current[0]) else (now + ticks) % WORD == 0 && ticks < WORD)
    }

    lemma BlocksUntilHead(next: nat)
      requires Valid() && MayBlock(next)
      ensures BlocksAsLong((next - now % WORD) % WORD, current == [] && overflow == [])
    {
      if current != [] {
        HeadInTurn(current, expiry, due, now / WORD);
        assert current[0] in {} || ListedAt(timers, live, current, overflow, current[0]);
        SleepsUntilDue(next, current[0]);
      } else {
        TurnLeft(now);
      }
    }

    lemma MayBlockIsRight(next: nat)
      requires Valid() && MayBlock(next)
      ensures CaughtUp(now)
      ensures BlocksInTime((next - now % WORD) % WORD, current == [] && overflow == [])
    {
      forall x
        ensures Exact(now, x)
      {
        ExactCount(x, next);
      }
      var ticks := (next - now % WORD) % WORD;
      forall x | x in live && x in timers && timers[x].active
        ensures (current != [] || overflow != []) && now + ticks <= At(due, x)
      {
        SleepsUntilDue(next, x);
        assert x in {} || ListedAt(timers, live, current, overflow, x);
      }
    }

    lemma HeadIsBehind()
      requires Valid() && current != [] && At(expiry, current[0]) <= now % WORD
      ensures current[0] in Overdue(current, due, now) && !CaughtUp(now)
    {
      var h := current[0];
      HeadInTurn(current, expiry, due, now / WORD);
      assert h in {} || ListedAt(timers, live, current, overflow, h);
      Behind(h);
    }

    /**
      prvProcessTimerOrBlockTask at the unbounded time `t`. Unless the tick count has wrapped
      since the last sample, it blocks exactly when every callback due by now has run, and then
      sleeps past the expiry of no timer; otherwise it serves one overdue timer.
     */
    method ProcessTimerOrBlock(nextExpireTime: nat, listWasEmpty: bool, tickCount: nat, ghost t: nat)
      returns (blocked: bool, ticks: nat, indefinitely: bool)
      requires Valid() && now <= t < now + WORD && tickCount == t % WORD
      requires listWasEmpty <==> current == []
      requires nextExpireTime == if current == [] then 0 else At(expiry, current[0])
      modifies this`timers, this`expiry, this`due, this`current, this`overflow, this`calls, this`now, this`lastTime
      ensures Valid() && SameSettings(old(timers), timers) && OnlyCalled(live, old(calls), calls)
      ensures now == t
      ensures blocked <==> t / WORD == old(now) / WORD && (old(current) == [] || At(old(expiry), old(current)[0]) > tickCount)
      ensures blocked <==> t / WORD == old(now) / WORD && old(CaughtUp(t))
      ensures blocked ==> calls == old(calls) && CaughtUp(now) && BlocksInTime(ticks, indefinitely) && BlocksAsLong(ticks, indefinitely)
      ensures blocked ==> current == old(current) && due == old(due)
      ensures t / WORD != old(now) / WORD ==> CaughtUp(TurnEnd(old(now)))
      ensures !blocked && t / WORD == old(now) / WORD ==>
                && old(current) != [] && old(current)[0] in live && Exact(now, old(current)[0])
                && ServesOne(Overdue(old(current), old(due), t), Overdue(current, due, now), old(calls), calls, old(current)[0])
    {
      blocked, ticks, indefinitely := false, 0, false;
      var timeNow, switched := SampleTimeNow(tickCount, t);
      if !switched {
        assert old(CaughtUp(t)) == CaughtUp(now) by {
          assert forall x :: old(Exact(t, x)) == Exact(now, x);
        }
        if !listWasEmpty && nextExpireTime <= timeNow {
          HeadInTurn(current, expiry, due, now / WORD);
          HeadIsBehind();
          ProcessExpiredTimer(nextExpireTime, timeNow);
        } else {
          indefinitely := listWasEmpty;
          if listWasEmpty {
            indefinitely := overflow == [];
          }
          ticks := (nextExpireTime - timeNow) % WORD;
          blocked := true;
          MayBlockIsRight(nextExpireTime);
          BlocksUntilHead(nextExpireTime);
        }
      }
    }

    lemma NoneOverdue()
      requires Valid() && CaughtUp(now)
      ensures Overdue(current, due, now) == {}
    {
      if x :| x in Overdue(current, due, now) {
        assert x in {} || ListedAt(timers, live, current, overflow, x);
        assert Exact(now, x);
        Behind(x);
      }
    }

    /**
      Passes at one time, until the daemon blocks: there is an end to them, with every timer up
      to date, and without a wrap they are one for each overdue timer and a last one.
     */
    method PassUntilBlocked(tickCount: nat, ghost t: nat) returns (passes: nat)
      requires Valid() && now <= t < now + WORD && tickCount == t % WORD
      modifies this`timers, this`expiry, this`due, this`current, this`overflow, this`calls, this`now, this`lastTime
      ensures Valid() && now == t && CaughtUp(t)
      ensures t / WORD == old(now) / WORD ==> passes == |Overdue(old(current), old(due), t)| + 1
    {
      passes := 0;
      var blocked := false;
      while !blocked
        invariant Valid() && now <= t < now + WORD
        invariant blocked ==> now == t && CaughtUp(t)
        invariant t / WORD == old(now) / WORD ==>
                    && now / WORD == t / WORD
                    && passes + |Overdue(current, due, t)| == |Overdue(old(current), old(due), t)| + if blocked then 1 else 0
        decreases if blocked then 0 else 1, t / WORD - now / WORD, |Overdue(current, due, t)|
      {
        var next, listWasEmpty := GetNextExpireTime();
        var ticks, indefinitely;
        blocked, ticks, indefinitely := ProcessTimerOrBlock(next, listWasEmpty, tickCount, t);
        passes := passes + 1;
      }
      NoneOverdue();
    }

    // ----- commands -----

    /** A timer in any list is taken off it, and counts as not started until its command says so. */
    method TakeOff(id: TimerId)
      requires Valid() && id in timers
      modifies this`current, this`overflow, this`live
      ensures Valid() && live == old(live) - {id} && id !in current && id !in overflow
    {
      TakenOff(timers, live, current, overflow, expiry, due, now / WORD, id);
      CountedWithout(timers, live, start, before, calls, due, now, id);
      live := live - {id};
      current, overflow := RemoveTimer(current, id), RemoveTimer(overflow, id);
    }

    /** The timer is active, and has been started as of the unbounded time `issued`. */
    method Activate(id: TimerId, ghost issued: nat)
      requires Core() && id in timers && id !in live && id !in current && id !in overflow && issued <= now
      modifies this`timers, this`live, this`start, this`before
      ensures timers == old(timers)[id := old(timers)[id].(active := true)]
      ensures live == old(live) + {id} && start == old(start)[id := issued] && before == old(before)[id := At(calls, id)]
      ensures ListsOk({id})
      ensures AllCounted(timers, live, start, before, calls, due[id := issued + timers[id].period], now)
    {
      ghost var timer := timers[id].(active := true);
      Begun(timers, live, start, before, calls, due, now, id, timer, issued);
      BegunLists(timers, live, current, overflow, id, timer);
      timers := timers[id := timers[id].(active := true)];
      live, start, before := live + {id}, start[id := issued], before[id := At(calls, id)];
    }

    /** prvInsertTimerInActiveList for a timer just activated: it is now listed, or has expired meanwhile. */
    method ListActivated(id: TimerId, next: nat, timeNow: nat, commandTime: nat, ghost issued: nat) returns (processNow: bool)
      requires ListsOk({id}) && id !in current && id !in overflow && id in live && id in timers && timers[id].active
      requires AllCounted(timers, live, start, before, calls, due[id := issued + timers[id].period], now)
      requires issued <= now < issued + WORD && commandTime == issued % WORD && timeNow == now % WORD
      requires next == (commandTime + timers[id].period) % WORD
      modifies this`expiry, this`due, this`current, this`overflow
      ensures processNow <==> issued + timers[id].period <= now
      ensures At(due, id) == issued + timers[id].period
      ensures if processNow then IsExpired(id) else Core()
    {
      ghost var d := issued + timers[id].period;
      UntouchedPairOk(current, overflow, expiry, due, now / WORD, id, d);
      processNow := InsertTimerInActiveList(id, next, timeNow, commandTime, issued);
      assert AllCounted(timers, live, start, before, calls, due, now);
      if !processNow {
        ListedAgain(timers, live, old(current), old(overflow), old(expiry), old(due), now, id, d, current, overflow);
      }
    }

    /** The start and reset commands, issued at the unbounded time `issued`. */
    method StartTimer(id: TimerId, value: nat, timeNow: nat, ghost issued: nat)
      requires Core() && id in timers && id !in live && id !in current && id !in overflow
      requires issued <= now < issued + WORD && value == issued % WORD && timeNow == now % WORD
      modifies this`timers, this`expiry, this`due, this`current, this`overflow, this`calls, this`live, this`start, this`before
      ensures Core() && SameSettings(old(timers), timers) && OnlyCalled({id}, old(calls), calls)
      ensures timers[id].active ==> At(due, id) > now
      ensures live == old(live) + {id} && start == old(start)[id := issued] && before == old(before)[id := At(old(calls), id)]
    {
      Activate(id, issued);
      var period := timers[id].period;
      TickSum(issued, period);
      var processNow := ListActivated(id, (value + period) % WORD, timeNow, value, issued);
      if processNow {
        Expire(id, (value + period) % WORD, timeNow);
      }
    }

    /** The stop and delete commands. */
    method StopTimer(id: TimerId)
      requires Core() && id in timers && id !in live && id !in current && id !in overflow
      modifies this`timers
      ensures Core() && SameSettings(old(timers), timers)
    {
      SetAside(timers, live, start, before, calls, due, now, current, overflow, id, timers[id].(active := false));
      timers := timers[id := timers[id].(active := false)];
    }

    method ChangePeriod(id: TimerId, period: Period, timeNow: nat)
      requires Core() && id in timers && id !in live && id !in current && id !in overflow && timeNow == now % WORD
      modifies this`timers, this`expiry, this`due, this`current, this`overflow, this`live, this`start, this`before
      ensures Core() && SameSettings(old(timers)[id := old(timers)[id].(period := period)], timers)
      ensures timers[id].active && At(due, id) > now
      ensures live == old(live) + {id} && start == old(start)[id := now] && before == old(before)[id := At(calls, id)]
    {
      SetAside(timers, live, start, before, calls, due, now, current, overflow, id, timers[id].(period := period));
      timers := timers[id := timers[id].(period := period)];
      Activate(id, now);
      var processNow := ListActivated(id, (timeNow + period) % WORD, timeNow, timeNow, now);
      assert !processNow;
    }

    /** One pass of the loop of prvProcessReceivedCommands, at the unbounded time `handled`. */
    method ProcessCommand(command: Command, value: nat, tickCount: nat, ghost issued: nat, ghost handled: nat)
      requires Valid() && command.id in timers && now <= handled < now + WORD && tickCount == handled % WORD
      requires issued <= handled < issued + WORD && value == issued % WORD
      modifies this
      ensures Valid() && now == handled
      ensures OnlyCalled(old(live) + {command.id}, old(calls), calls)
      ensures handled / WORD == old(now) / WORD ==> OnlyCalled({command.id}, old(calls), calls)
      ensures handled / WORD != old(now) / WORD ==> forall x :: x != command.id ==> Exact(TurnEnd(old(now)), x)
      ensures command.id in timers && (command.Starts() ==> Exact(now, command.id))
      ensures Handled(command, issued, handled, old(calls), old(timers), timers, old(live), live, old(start), start, old(before), before)
    {
      var id := command.id;
      assert old(live) - {id} + {id} == old(live) + {id};
      var timeNow := TakeOffAndSample(id, tickCount, handled);
      ghost var end := TurnEnd(old(now));
      ghost var timers1, live1, start1, before1, calls1 := timers, live, start, before, calls;
      assert handled / WORD != old(now) / WORD ==> forall x :: ExactFor(timers1, live1, start1, before1, calls1, end, x) by {
        if CaughtUp(end) { CaughtUpMeans(end); }
      }
      Dispatch(command, value, timeNow, issued);
      OthersUntouched(command, issued, handled, calls1, calls, timers1, timers, live1, live, start1, start, before1, before, end);
    }

    /** What comes before the switch of prvProcessReceivedCommands. */
    method TakeOffAndSample(id: TimerId, tickCount: nat, ghost t: nat) returns (timeNow: nat)
      requires Valid() && id in timers && now <= t < now + WORD && tickCount == t % WORD
      modifies this`timers, this`expiry, this`due, this`current, this`overflow, this`calls, this`now, this`lastTime, this`live
      ensures Valid() && now == t && timeNow == tickCount && SameSettings(old(timers), timers)
      ensures live == old(live) - {id} && id !in current && id !in overflow
      ensures OnlyCalled(old(live) - {id}, old(calls), calls) && At(calls, id) == At(old(calls), id)
      ensures if t / WORD == old(now) / WORD then calls == old(calls) else CaughtUp(TurnEnd(old(now)))
    {
      TakeOff(id);
      ghost var calls0 := calls;
      var switched;
      timeNow, switched := SampleTimeNow(tickCount, t);
      assert id in {} || ListedAt(timers, live, current, overflow, id);
      assert id in live || At(calls, id) == At(calls0, id);
    }

    /** The switch of prvProcessReceivedCommands, on a timer in no list. */
    method Dispatch(command: Command, value: nat, timeNow: nat, ghost issued: nat)
      requires Core() && command.id in timers && command.id !in live && command.id !in current && command.id !in overflow
      requires issued <= now < issued + WORD && value == issued % WORD && timeNow == now % WORD
      modifies this`timers, this`expiry, this`due, this`current, this`overflow, this`calls, this`live, this`start, this`before
      ensures Core() && OnlyCalled({command.id}, old(calls), calls)
      ensures SameSettings(Resettled(old(timers), command), timers)
      ensures live == if command.Starts() then old(live) + {command.id} else old(live)
      ensures start == if command.Starts() then old(start)[command.id := command.StartTime(issued, now)] else old(start)
      ensures before == if command.Starts() then old(before)[command.id := At(old(calls), command.id)] else old(before)
      ensures command.Starts() ==> Exact(now, command.id)
    {
      var id := command.id;
      match command
      case Start(_) =>
        StartTimer(id, value, timeNow, issued);
        UpToDate(id);
      case SetPeriod(_, period) =>
        ChangePeriod(id, period, timeNow);
        UpToDate(id);
      case Stop(_) => StopTimer(id);
      case DeleteTimer(_) => StopTimer(id);
    }

    // ----- the task -----

    lemma OthersMeans(event: Event, wrapped: bool, end: nat, calls0: map<TimerId, nat>)
      requires event.Handle?
      requires if wrapped then forall x :: x != event.command.id ==> Exact(end, x) else OnlyCalled({event.command.id}, calls0, calls)
      ensures OthersFor(event, wrapped, end, timers, live, start, before, calls0, calls)
    {
      forall x
        ensures OtherFor(event, wrapped, end, timers, live, start, before, calls0, calls, x)
      {
        assert x == event.command.id || !wrapped || Exact(end, x);
      }
    }

    /** One turn of the loop: a pass, or a command. */
    method Work(event: Event) returns (blocked: bool)
      requires Valid() && now <= event.Time() < now + WORD
      requires event.Handle? ==> event.command.id in timers && event.issued <= event.handled < event.issued + WORD
      modifies this
      ensures Valid() && now == event.Time() && timers.Keys == old(timers).Keys
      ensures event.Pass? ==>
                SameSettings(old(timers), timers) && live == old(live) && start == old(start) && before == old(before)
      ensures event.Handle? ==>
                Handled(event.command, event.issued, event.handled, old(calls),
                        old(timers), timers, old(live), live, old(start), start, old(before), before)
      ensures OnlyCalled(old(live) + (if event.Handle? then {event.command.id} else {}), old(calls), calls)
      ensures blocked <==> event.Pass? && event.Time() / WORD == old(now) / WORD && old(CaughtUp(event.Time()))
      ensures blocked ==> calls == old(calls)
      ensures OthersFor(event, event.Time() / WORD != old(now) / WORD, TurnEnd(old(now)), timers, live, start, before, old(calls), calls)
      ensures event.Handle? && event.command.Starts() ==> Exact(now, event.command.id)
      ensures event.Pass? && event.Time() / WORD == old(now) / WORD && !blocked ==>
                exists h :: Catches(timers, live, start, before, old(calls), calls, now, h)
    {
      blocked := false;
      match event
      case Pass(at) =>
        var next, listWasEmpty := GetNextExpireTime();
        var ticks, indefinitely;
        blocked, ticks, indefinitely := ProcessTimerOrBlock(next, listWasEmpty, at % WORD, at);
        if !blocked && at / WORD == old(now) / WORD {
          assert Catches(timers, live, start, before, old(calls), calls, now, old(current)[0]);
        }
        if at / WORD != old(now) / WORD {
          CaughtUpMeans(TurnEnd(old(now)));
        }
      case Handle(command, issued, handled) =>
        ProcessCommand(command, issued % WORD, handled % WORD, issued, handled);
        OthersMeans(event, handled / WORD != old(now) / WORD, TurnEnd(old(now)), old(calls));
    }

    /**
      The loop of prvTimerTask, over any passes and commands. tallies[k] is how often each
      callback has run before event k, and blocked[k] whether the daemon blocks in event k.
     */
    method Run(events: seq<Event>) returns (tallies: seq<map<TimerId, nat>>, blocked: seq<bool>)
      requires Valid() && live == {} && Timely(timers, now, events)
      modifies this
      ensures Valid() && now == TimeBefore(old(now), events, |events|)
      ensures |tallies| == |events| + 1 && |blocked| == |events|
      ensures tallies[0] == old(calls) && tallies[|events|] == calls
      ensures forall k: nat :: EventExact(old(timers), old(now), events, tallies, blocked, k)
    {
      ghost var initial, t0 := timers, now;
      tallies, blocked := [calls], [];
      assert forall x :: Follows(initial, events, 0, timers, live, start, before, tallies, x);
      for i := 0 to |events|
        invariant Valid() && timers.Keys == initial.Keys
        invariant |tallies| == i + 1 && |blocked| == i && tallies[0] == old(calls) && tallies[i] == calls
        invariant now == TimeBefore(t0, events, i)
        invariant FollowsAll(initial, events, i, timers, live, start, before, tallies)
        invariant forall k: nat :: EventExact(initial, t0, events, tallies, blocked, k)
      {
        assert OnTime(initial, t0, events, i);
        var stops := RunEvent(initial, t0, events, i, tallies, blocked);
        tallies := tallies + [calls];
        blocked := blocked + [stops];
      }
    }

    /** Event `i` of the run. */
    method RunEvent(ghost initial: map<TimerId, Timer>, ghost t0: nat, events: seq<Event>, i: nat,
                    ghost tallies: seq<map<TimerId, nat>>, ghost blocked: seq<bool>)
      returns (stops: bool)
      requires Valid() && timers.Keys == initial.Keys && i < |events| && now == TimeBefore(t0, events, i)
      requires |tallies| == i + 1 && |blocked| == i && tallies[i] == calls && OnTime(initial, t0, events, i)
      requires FollowsAll(initial, events, i, timers, live, start, before, tallies)
      requires forall k: nat :: EventExact(initial, t0, events, tallies, blocked, k)
      modifies this
      ensures Valid() && timers.Keys == initial.Keys && now == events[i].Time()
      ensures FollowsAll(initial, events, i + 1, timers, live, start, before, tallies + [calls])
      ensures forall k: nat :: EventExact(initial, t0, events, tallies + [calls], blocked + [stops], k)
    {
      LiveAreKnown();
      ghost var up := CaughtUp(events[i].Time());
      assert up <==> forall x :: ExactFor(timers, live, start, before, tallies[i], events[i].Time(), x) by {
        assert forall x :: Exact(events[i].Time(), x) <==> ExactFor(timers, live, start, before, tallies[i], events[i].Time(), x);
      }
      ghost var timers0, live0, start0, before0 := timers, live, start, before;
      stops := Work(events[i]);
      ghost var tallies', blocked' := tallies + [calls], blocked + [stops];
      NeverEarly();
      OnlyRunningCalled(initial, events, i, timers0, live0, start0, before0, tallies, calls);
      if events[i].Pass? {
        PassFollows(initial, events, timers0, timers, live, start, before, tallies, tallies', calls, i);
      } else {
        HandleFollows(initial, events, timers0, timers, live0, live, start0, start, before0, before, tallies, tallies', calls, i);
      }
      BoundsNow(initial, t0, events, i, tallies, calls, timers, live, start, before,
                events[i].Time() / WORD != old(now) / WORD, TurnEnd(old(now)));
      EventNow(initial, t0, events, i, tallies, calls, blocked, stops, timers0, timers, live0, live, start0, start, before0, before, up);
      forall k: nat
        ensures EventExact(initial, t0, events, tallies', blocked', k)
      {
        if k < i {
          assert EventExact(initial, t0, events, tallies, blocked, k);
          ExactExtends(initial, t0, events, tallies, calls, blocked, stops, k);
        }
      }
    }

    lemma LiveAreKnown()
      requires Core()
      ensures forall x :: x in live ==> x in timers
    {
      forall x | x in live
        ensures x in timers
      {
        assert CountedAt(timers, live, start, before, calls, due, now, x);
      }
    }
  }
}
