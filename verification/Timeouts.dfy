/**
  vTaskSetTimeOutState and xTaskCheckForTimeOut (FreeRTOS/Source/tasks.c): how a blocking call
  that is woken early and blocks again keeps to its original wait, on a clock that wraps.
 */
module Timeouts {
  import opened Shared
  import Modular

  /** xTickCount and xNumOfOverflows at unbounded tick count `now`; both are 32 bits wide. */
  function TickCount(now: nat): nat {
    now % WORD
  }

  function Overflows(now: nat): nat {
    now / WORD % WORD
  }

  datatype TimeOut = TimeOut(overflowCount: nat, timeOnEntering: nat)

  function Stamp(now: nat): TimeOut {
    TimeOut(Overflows(now), TickCount(now))
  }

  /** The caller's TimeOut_t and its xTicksToWait. */
  datatype Wait = Wait(timeOut: TimeOut, ticksToWait: nat)

  datatype Checked = Checked(wait: Wait, expired: bool)

  /** xTaskCheckForTimeOut with ucDelayAborted clear. */
  function Check(w: Wait, now: nat): Checked {
    var elapsed := (TickCount(now) - w.timeOut.timeOnEntering) % WORD;
    if w.ticksToWait == MAX_DELAY then Checked(w, false)
    else if Overflows(now) != w.timeOut.overflowCount && TickCount(now) >= w.timeOut.timeOnEntering then
      Checked(w.(ticksToWait := 0), true)
    else if elapsed < w.ticksToWait then
      Checked(Wait(Stamp(now), w.ticksToWait - elapsed), false)
    else
      Checked(w.(ticksToWait := 0), true)
  }

  /** The 32-bit difference is the elapsed time, and no false overflow is seen, over less than one turn. */
  lemma ElapsedIsExact(start: nat, d: nat)
    requires d < WORD
    ensures (TickCount(start + d) - TickCount(start)) % WORD == d
    ensures !(Overflows(start + d) != Overflows(start) && TickCount(start + d) >= TickCount(start))
  {
    Modular.ModAdd(start, d, WORD);
    Modular.ModUnique(d, 0, d, WORD);
    if TickCount(start) + d >= WORD {
      Modular.ModUnique(d - WORD, -1, d, WORD);
    }
  }

  /** One check, less than one turn after the stamp it checks against. */
  lemma CheckIsExact(start: nat, ticks: nat, d: nat)
    requires ticks < MAX_DELAY && d < WORD
    ensures var c := Check(Wait(Stamp(start), ticks), start + d);
            && (c.expired <==> d >= ticks)
            && (c.expired ==> c.wait.ticksToWait == 0)
            && (!c.expired ==> c.wait == Wait(Stamp(start + d), ticks - d))
  {
    ElapsedIsExact(start, d);
  }

  /** The state of a blocking call after checks at the given times. */
  function CheckAll(w: Wait, times: seq<nat>): Checked
    requires times != []
  {
    if |times| == 1 then Check(w, times[0])
    else Check(CheckAll(w, times[..|times| - 1]).wait, times[|times| - 1])
  }

  /** Times that do not go back and are less than one turn apart. */
  ghost predicate Paced(start: nat, times: seq<nat>) {
    forall i :: 0 <= i < |times| ==> Before(start, times, i) <= times[i] < Before(start, times, i) + WORD
  }

  function Before(start: nat, times: seq<nat>, i: nat): nat
    requires i < |times|
  {
    if i == 0 then start else times[i - 1]
  }

  lemma PacedPrefix(start: nat, times: seq<nat>)
    requires times != [] && Paced(start, times)
    ensures Paced(start, times[..|times| - 1])
  {
    var earlier := times[..|times| - 1];
    forall i | 0 <= i < |earlier|
      ensures Before(start, earlier, i) <= earlier[i] < Before(start, earlier, i) + WORD
    {
      assert earlier[i] == times[i] && Before(start, earlier, i) == Before(start, times, i);
    }
  }

  lemma ExpiredStays(w: Wait, now: nat)
    requires w.ticksToWait == 0
    ensures Check(w, now) == Checked(w, true)
  {
  }

  /**
    Timeout accounting: however often a finite wait is interrupted, a check reports expiry
    exactly when the ticks since the call began have reached the original wait, and until
    then leaves exactly the rest of it.
   */
  lemma {:induction false} WaitIsKept(start: nat, ticks: nat, times: seq<nat>)
    requires ticks < MAX_DELAY && times != [] && Paced(start, times)
    ensures var c := CheckAll(Wait(Stamp(start), ticks), times);
            var now := times[|times| - 1];
            && now >= start
            && (c.expired <==> now - start >= ticks)
            && (c.expired ==> c.wait.ticksToWait == 0)
            && (!c.expired ==> c.wait == Wait(Stamp(now), ticks - (now - start)))
  {
    var n := |times| - 1;
    var now := times[n];
    if n == 0 {
      CheckIsExact(start, ticks, now - start);
    } else {
      var earlier := times[..n];
      PacedPrefix(start, times);
      WaitIsKept(start, ticks, earlier);
      var before := times[n - 1];
      assert earlier[|earlier| - 1] == before;
      assert before == Before(start, times, n);
      var c := CheckAll(Wait(Stamp(start), ticks), earlier);
      if c.expired {
        ExpiredStays(c.wait, now);
      } else {
        CheckIsExact(before, ticks - (before - start), now - before);
      }
    }
  }

  /**
    After any gap: a check reports expiry exactly when the count has wrapped and passed its old
    value again, or the wrapped difference alone is enough.
   */
  lemma CheckAfterAnyGap(start: nat, ticks: nat, d: nat)
    requires ticks < MAX_DELAY
    ensures Check(Wait(Stamp(start), ticks), start + d).expired <==>
              || (Overflows(start + d) != Overflows(start) && TickCount(start + d) >= TickCount(start))
              || d % WORD >= ticks
  {
    var a := TickCount(start);
    var b := TickCount(start + d);
    var e := d % WORD;
    AfterGap(start, d);
    assert (b - a) % WORD == e;
  }

  /** Both counters after a gap of whole turns and a rest. */
  lemma AfterGap(start: nat, d: nat)
    ensures var a, e, turns := TickCount(start), d % WORD, start / WORD + d / WORD;
            if a + e < WORD then TickCount(start + d) == a + e && Overflows(start + d) == turns % WORD
            else TickCount(start + d) == a + e - WORD && Overflows(start + d) == (turns + 1) % WORD
  {
    var a, e, turns := TickCount(start), d % WORD, start / WORD + d / WORD;
    assert start + d == turns * WORD + (a + e);
    if a + e < WORD {
      Modular.ModUnique(start + d, turns, a + e, WORD);
    } else {
      Modular.ModUnique(start + d, turns + 1, a + e - WORD, WORD);
    }
  }

  lemma OverflowsDiffer(start: nat, turns: nat)
    ensures (start / WORD + turns) % WORD != Overflows(start) <==> turns % WORD != 0
  {
    var q, r := start / WORD, turns % WORD;
    Modular.ModUnique(q + turns, (q + r) / WORD + turns / WORD, (q + r) % WORD, WORD);
    Modular.ModAdd(q, r, WORD);
  }

  /**
    A report is right exactly when the wait is not over, or the rest of the gap beyond whole
    turns covers it, or the count has passed its old value with the overflow count changed.
    Otherwise a wait that is long over is taken for a running one.
   */
  lemma CheckIsRightExactlyWhen(start: nat, ticks: nat, d: nat)
    requires ticks < MAX_DELAY
    ensures (Check(Wait(Stamp(start), ticks), start + d).expired <==> d >= ticks) <==>
              || d < ticks
              || d % WORD >= ticks
              || (TickCount(start) + d % WORD < WORD && d / WORD % WORD != 0)
  {
    CheckAfterAnyGap(start, ticks, d);
    AfterGap(start, d);
    OverflowsDiffer(start, d / WORD);
    if d < ticks {
      Modular.ModUnique(d, 0, d, WORD);
    }
  }

  lemma LongGapCanBeMissed()
    ensures var d := 2 * WORD - 3;
            !Check(Wait(Stamp(3), WORD - 2), 3 + d).expired && d >= WORD - 2
  {
    Modular.ModUnique(-3, -1, WORD - 3, WORD);
  }

  /** The same step in place, as the callers in queue.c, stream_buffer.c and event_groups.c use it. */
  class WaitingCall {
    var wait: Wait

    constructor (now: nat, ticks: nat)
      ensures wait == Wait(Stamp(now), ticks)
    {
      wait := Wait(Stamp(now), ticks);
    }

    method CheckForTimeOut(now: nat) returns (expired: bool)
      modifies this
      ensures Checked(wait, expired) == Check(old(wait), now)
    {
      var tick := TickCount(now);
      var elapsed := (tick - wait.timeOut.timeOnEntering) % WORD;
      if wait.ticksToWait == MAX_DELAY {
        expired := false;
      } else if Overflows(now) != wait.timeOut.overflowCount && tick >= wait.timeOut.timeOnEntering {
        expired := true;
        wait := wait.(ticksToWait := 0);
      } else if elapsed < wait.ticksToWait {
        wait := Wait(Stamp(now), wait.ticksToWait - elapsed);
        expired := false;
      } else {
        wait := wait.(ticksToWait := 0);
        expired := true;
      }
    }
  }
}
