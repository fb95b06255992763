/**
  The gate control list of src/FlexCAN_SKKU.c, for any table of slots: gcl_locate,
  TAS_IsGateOpen_FIFOx and TAS_RemainingOpenTimeNs_FIFOx. The clock is a parameter.
 */
module GateSchedule {
  import opened Shared
  import Modular

  const CYCLE_NS: nat := 10_000_000
  const SLOT_MARGIN_NS: nat := 100_000

  /** TimeIntervalNs and GateControlBits. */
  datatype Slot = Slot(interval: nat, gates: nat)

  type Table = seq<Slot>

  /** Where slot `i` begins in the cycle. */
  function SlotStart(table: Table, i: nat): nat
    requires i <= |table|
  {
    if i == 0 then 0 else SlotStart(table, i - 1) + table[i - 1].interval
  }

  /** The table covers the cycle. */
  ghost predicate Covers(table: Table) {
    table != [] && SlotStart(table, |table|) == CYCLE_NS
  }

  ghost predicate Holds(table: Table, i: nat, phase: nat) {
    i < |table| && SlotStart(table, i) <= phase < SlotStart(table, i + 1)
  }

  lemma {:induction false} StartsGrow(table: Table, i: nat, j: nat)
    requires i <= j <= |table|
    ensures SlotStart(table, i) <= SlotStart(table, j)
  {
    if i < j {
      StartsGrow(table, i, j - 1);
    }
  }

  /** No phase lies in two slots. */
  lemma SlotIsUnique(table: Table, i: nat, j: nat, phase: nat)
    requires Holds(table, i, phase) && Holds(table, j, phase)
    ensures i == j
  {
    if i < j {
      StartsGrow(table, i + 1, j);
    } else if j < i {
      StartsGrow(table, j + 1, i);
    }
  }

  /** The slot, and its first and past-the-end phase. */
  datatype Located = Located(index: nat, start: nat, end: nat)

  /** gcl_locate as a search from slot `i`, with the fallback of a table that does not reach the phase. */
  function Locate(table: Table, phase: nat, i: nat): (r: Located)
    requires table != [] && i <= |table|
    ensures r.index < |table|
    decreases |table| - i
  {
    if i == |table| then
      Located(|table| - 1, (CYCLE_NS - table[|table| - 1].interval) % WORD, CYCLE_NS)
    else if phase < SlotStart(table, i + 1) then Located(i, SlotStart(table, i), SlotStart(table, i + 1))
    else Locate(table, phase, i + 1)
  }

  /** A table that covers the cycle never reaches the fallback: the slot found holds the phase. */
  lemma {:induction false} LocateFinds(table: Table, phase: nat, i: nat)
    requires Covers(table) && phase < CYCLE_NS && i <= |table| && SlotStart(table, i) <= phase
    ensures var r := Locate(table, phase, i);
            Holds(table, r.index, phase) && r.start == SlotStart(table, r.index) && r.end == SlotStart(table, r.index + 1)
    decreases |table| - i
  {
    if phase >= SlotStart(table, i + 1) {
      LocateFinds(table, phase, i + 1);
    }
  }

  /** The loop of gcl_locate. */
  method GclLocate(table: Table, phase: nat) returns (index: nat, start: nat, end: nat)
    requires table != [] && SlotStart(table, |table|) < WORD
    ensures Located(index, start, end) == Locate(table, phase, 0)
  {
    var acc := 0;
    for i := 0 to |table|
      invariant acc == SlotStart(table, i)
      invariant Locate(table, phase, i) == Locate(table, phase, 0)
    {
      StartsGrow(table, i + 1, |table|);
      var next := (acc + table[i].interval) % WORD;
      if phase < next {
        return i, acc, next;
      }
      acc := next;
    }
    return |table| - 1, (CYCLE_NS - table[|table| - 1].interval) % WORD, CYCLE_NS;
  }

  // ----- gates -----

  function Shift(gates: nat, fifo: nat): nat {
    if fifo == 0 then gates else Shift(gates / 2, fifo - 1)
  }

  predicate GateBit(gates: nat, fifo: nat) {
    Shift(gates, fifo) % 2 == 1
  }

  function EffectiveEnd(r: Located): nat {
    if r.end > SLOT_MARGIN_NS then r.end - SLOT_MARGIN_NS else r.start
  }

  /** TAS_IsGateOpen_FIFOx at clock value `now`. */
  predicate IsGateOpen(table: Table, fifo: nat, now: nat)
    requires table != []
  {
    if fifo > 2 then false
    else
      var phase := now % CYCLE_NS;
      var r := Locate(table, phase, 0);
      var end := EffectiveEnd(r);
      if end <= r.start then false
      else if phase < r.start || phase >= end then false
      else GateBit(table[r.index].gates, fifo)
  }

  /** TAS_RemainingOpenTimeNs_FIFOx at clock value `now`. */
  function RemainingOpenTime(table: Table, fifo: nat, now: nat): nat
    requires table != []
  {
    if fifo > 2 then 0
    else
      var phase := now % CYCLE_NS;
      var r := Locate(table, phase, 0);
      var end := EffectiveEnd(r);
      if end <= r.start then 0
      else if phase >= r.start && phase < end && GateBit(table[r.index].gates, fifo) then end - phase
      else 0
  }

  /** A time within the slot of `now`. */
  lemma SameSlot(table: Table, now: nat, later: nat)
    requires Covers(table) && now <= later
    requires now % CYCLE_NS + (later - now) < Locate(table, now % CYCLE_NS, 0).end
    ensures later % CYCLE_NS == now % CYCLE_NS + (later - now)
    ensures Locate(table, later % CYCLE_NS, 0) == Locate(table, now % CYCLE_NS, 0)
  {
    var phase := now % CYCLE_NS;
    var r := Locate(table, phase, 0);
    LocateFinds(table, phase, 0);
    StartsGrow(table, r.index + 1, |table|);
    Modular.ModAdd(now, later - now, CYCLE_NS);
    LocateFinds(table, later % CYCLE_NS, 0);
    SlotIsUnique(table, r.index, Locate(table, later % CYCLE_NS, 0).index, later % CYCLE_NS);
  }

  /**
    A gate is open exactly when its bit is set in the slot of this moment, and more than the
    margin is left of the slot.
   */
  lemma OpenExactlyWhen(table: Table, fifo: nat, now: nat)
    requires Covers(table)
    ensures IsGateOpen(table, fifo, now) <==>
              && fifo <= 2
              && exists i: nat :: Holds(table, i, now % CYCLE_NS) && GateBit(table[i].gates, fifo)
                                  && now % CYCLE_NS + SLOT_MARGIN_NS < SlotStart(table, i + 1)
  {
    var phase := now % CYCLE_NS;
    var r := Locate(table, phase, 0);
    LocateFinds(table, phase, 0);
    forall i: nat | Holds(table, i, phase)
      ensures i == r.index
    {
      SlotIsUnique(table, i, r.index, phase);
    }
  }

  /** A gate is open exactly when it has open time left. */
  lemma OpenMeansTimeLeft(table: Table, fifo: nat, now: nat)
    requires table != []
    ensures IsGateOpen(table, fifo, now) <==> RemainingOpenTime(table, fifo, now) > 0
  {
  }

  /** The open time left is exact: the gate stays open for that long, and is then closed. */
  lemma OpenUntil(table: Table, fifo: nat, now: nat, later: nat)
    requires Covers(table) && IsGateOpen(table, fifo, now)
    requires now <= later <= now + RemainingOpenTime(table, fifo, now)
    ensures IsGateOpen(table, fifo, later) <==> later < now + RemainingOpenTime(table, fifo, now)
  {
    SameSlot(table, now, later);
  }

  /** If no slot opens two gates, no two are ever open together. */
  lemma AtMostOneOpen(table: Table, f: nat, g: nat, now: nat)
    requires table != [] && f != g
    requires forall i :: 0 <= i < |table| ==> !(GateBit(table[i].gates, f) && GateBit(table[i].gates, g))
    ensures !(IsGateOpen(table, f, now) && IsGateOpen(table, g, now))
  {
  }

  const GCL_MIRROR: Table := [Slot(1_000_000, 1), Slot(4_000_000, 2), Slot(4_000_000, 4), Slot(1_000_000, 0)]

  lemma MirrorFacts()
    ensures Covers(GCL_MIRROR)
    ensures SlotStart(GCL_MIRROR, 1) == 1_000_000 && SlotStart(GCL_MIRROR, 2) == 5_000_000 && SlotStart(GCL_MIRROR, 3) == 9_000_000
    ensures forall i: nat, f: nat :: i < |GCL_MIRROR| && f <= 2 ==> (GateBit(GCL_MIRROR[i].gates, f) <==> i == f)
  {
    assert SlotStart(GCL_MIRROR, 1) == 1_000_000;
    assert SlotStart(GCL_MIRROR, 2) == 5_000_000;
    assert SlotStart(GCL_MIRROR, 3) == 9_000_000;
    assert Shift(4, 1) == 2 && Shift(4, 2) == 1;
    assert Shift(2, 1) == 1 && Shift(2, 2) == 0 by { assert Shift(2, 2) == Shift(1, 1) == Shift(0, 0); }
    assert Shift(1, 1) == 0 && Shift(1, 2) == 0;
    assert Shift(0, 1) == 0 && Shift(0, 2) == 0;
  }

  /** The table of the program covers the cycle, and opens one gate at a time. */
  lemma GclMirrorIsCoherent(i: nat, f: nat, g: nat)
    requires i < |GCL_MIRROR| && f < g <= 2
    ensures Covers(GCL_MIRROR)
    ensures !(GateBit(GCL_MIRROR[i].gates, f) && GateBit(GCL_MIRROR[i].gates, g))
  {
    MirrorFacts();
  }

  /** In a cycle of 10 ms, gate 0 of the program is open for 0.9 ms and gates 1 and 2 for 3.9 ms each. */
  lemma MirrorOpensWhen(fifo: nat, now: nat)
    ensures IsGateOpen(GCL_MIRROR, fifo, now) <==>
              var phase := now % 10_000_000;
              || (fifo == 0 && phase < 900_000)
              || (fifo == 1 && 1_000_000 <= phase < 4_900_000)
              || (fifo == 2 && 5_000_000 <= phase < 8_900_000)
  {
    MirrorFacts();
    LocateFinds(GCL_MIRROR, now % CYCLE_NS, 0);
  }
}
