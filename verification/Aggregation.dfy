/**
  What the aggregation task ETH_PDU_Send_TAS of src/FlexCAN_SKKU.c does to the frames it takes
  from the CAN queue, as a function of its inputs: the head of the queue, the clock and the
  answers of the Ethernet driver. For any mapping table and any gate control list.
 */
module Aggregation {
  import opened Shared
  import opened ContainerCodec
  import GateSchedule

  const TC_BEST_EFFORT: nat := 7
  const UNMAPPED: PduId := 0xFFFF

  /** Flexcan_Ip_MsgBuffType: a CAN FD frame holds at most 64 bytes. */
  datatype FrameRecord = Frame(msgId: nat, dataLen: nat, data: seq<Byte>)
  type Frame = f: FrameRecord | f.dataLen <= 64 && |f.data| == 64 witness Frame(0, 0, Zeros(64))

  datatype Mapping = Mapping(canId: nat, pduId: PduId, trafficClass: nat)
  type Table = seq<Mapping>

  // ----- mapping -----

  /** The first entry for `canId` from position `i` on, or the length of the table. */
  function Find(table: Table, canId: nat, i: nat): (r: nat)
    requires i <= |table|
    ensures i <= r <= |table|
    ensures r < |table| ==> table[r].canId == canId
    ensures forall j :: i <= j < r ==> table[j].canId != canId
    decreases |table| - i
  {
    if i == |table| || table[i].canId == canId then i else Find(table, canId, i + 1)
  }

  function PduIdOf(table: Table, canId: nat): PduId {
    var i := Find(table, canId, 0);
    if i < |table| then table[i].pduId else UNMAPPED
  }

  function ClassOf(table: Table, canId: nat): nat {
    var i := Find(table, canId, 0);
    if i < |table| then table[i].trafficClass else TC_BEST_EFFORT
  }

  /** Entry `r` is the first one for `canId`. */
  ghost predicate FirstEntryFor(table: Table, canId: nat, r: nat) {
    r < |table| && table[r].canId == canId && forall j :: 0 <= j < r ==> table[j].canId != canId
  }

  ghost predicate NoEntryFor(table: Table, canId: nat) {
    forall j :: 0 <= j < |table| ==> table[j].canId != canId
  }

  /** A CAN id has the PDU id and the class of its first entry, and without one it is unmapped. */
  lemma MapsByFirstEntry(table: Table, canId: nat, r: nat)
    ensures FirstEntryFor(table, canId, r) ==>
              PduIdOf(table, canId) == table[r].pduId && ClassOf(table, canId) == table[r].trafficClass
    ensures NoEntryFor(table, canId) ==> PduIdOf(table, canId) == UNMAPPED && ClassOf(table, canId) == TC_BEST_EFFORT
  {
    var i := Find(table, canId, 0);
    if FirstEntryFor(table, canId, r) {
      assert i == r;
    }
  }

  predicate IsMapped(table: Table, f: Frame) {
    PduIdOf(table, f.msgId) != UNMAPPED
  }

  function PduOf(table: Table, f: Frame): Pdu {
    Pdu(PduIdOf(table, f.msgId), f.data[..f.dataLen])
  }

  function PdusOf(table: Table, frames: seq<Frame>): (r: seq<Pdu>)
    ensures |r| == |frames| && forall i :: 0 <= i < |frames| ==> r[i] == PduOf(table, frames[i])
  {
    seq(|frames|, i requires 0 <= i < |frames| => PduOf(table, frames[i]))
  }

  function MappedOf(table: Table, frames: seq<Frame>): seq<Frame> {
    if frames == [] then []
    else
      var last := frames[|frames| - 1];
      MappedOf(table, frames[..|frames| - 1]) + (if IsMapped(table, last) then [last] else [])
  }

  lemma MappedOfAppend(table: Table, frames: seq<Frame>, f: Frame)
    ensures MappedOf(table, frames + [f]) == MappedOf(table, frames) + (if IsMapped(table, f) then [f] else [])
  {
    assert (frames + [f])[..|frames|] == frames;
  }

  // ----- the class a container is sent in -----

  function TcToFifo(trafficClass: nat): (fifo: nat)
    ensures trafficClass < 8 ==> fifo == [0, 0, 0, 1, 1, 1, 2, 2][trafficClass]
  {
    if trafficClass <= 2 then 0 else if trafficClass <= 5 then 1 else 2
  }

  /** The least traffic class of the frames, kept as they come. */
  function LeastOf(table: Table, frames: seq<Frame>): nat
    requires frames != []
  {
    var last := ClassOf(table, frames[|frames| - 1].msgId);
    if |frames| == 1 then last else Min(LeastOf(table, frames[..|frames| - 1]), last)
  }

  /** The class of frame `i`, if there is one, is at least `tc`. */
  ghost predicate NotBelow(table: Table, frames: seq<Frame>, tc: nat, i: int) {
    0 <= i < |frames| ==> tc <= ClassOf(table, frames[i].msgId)
  }

  ghost predicate HasClass(table: Table, frames: seq<Frame>, tc: nat, i: int) {
    0 <= i < |frames| && ClassOf(table, frames[i].msgId) == tc
  }

  ghost predicate LeastClass(table: Table, frames: seq<Frame>, tc: nat) {
    && (forall i :: NotBelow(table, frames, tc, i))
    && (exists i :: HasClass(table, frames, tc, i))
  }

  lemma {:induction false} LeastOfIsLeast(table: Table, frames: seq<Frame>)
    requires frames != []
    ensures LeastClass(table, frames, LeastOf(table, frames))
  {
    var n := |frames| - 1;
    var init := frames[..n];
    if n > 0 {
      LeastOfIsLeast(table, init);
    }
    assert frames == init + [frames[n]];
    LeastClassAppend(table, init, if n == 0 then ClassOf(table, frames[n].msgId) else LeastOf(table, init), frames[n]);
  }

  lemma LeastIsUnique(table: Table, frames: seq<Frame>, a: nat, b: nat)
    requires LeastClass(table, frames, a) && LeastClass(table, frames, b)
    ensures a == b
  {
    var i :| HasClass(table, frames, a, i);
    var j :| HasClass(table, frames, b, j);
    assert NotBelow(table, frames, b, i) && NotBelow(table, frames, a, j);
  }

  lemma LeastClassAppend(table: Table, frames: seq<Frame>, tc: nat, f: Frame)
    requires if frames == [] then tc == ClassOf(table, f.msgId) else LeastClass(table, frames, tc)
    ensures LeastClass(table, frames + [f], if ClassOf(table, f.msgId) < tc then ClassOf(table, f.msgId) else tc)
  {
    var all := frames + [f];
    var least := if ClassOf(table, f.msgId) < tc then ClassOf(table, f.msgId) else tc;
    if least == ClassOf(table, f.msgId) {
      assert HasClass(table, all, least, |frames|);
    } else {
      var i :| HasClass(table, frames, tc, i);
      assert HasClass(table, all, least, i);
    }
    forall i
      ensures NotBelow(table, all, least, i)
    {
      assert frames == [] || NotBelow(table, frames, tc, i);
    }
  }

  /** `fifo` is the smallest TC_to_FIFO value over the frames. */
  ghost predicate LeastFifo(table: Table, frames: seq<Frame>, fifo: nat) {
    && (exists i :: 0 <= i < |frames| && TcToFifo(ClassOf(table, frames[i].msgId)) == fifo)
    && (forall i :: 0 <= i < |frames| ==> fifo <= TcToFifo(ClassOf(table, frames[i].msgId)))
  }

  /** The FIFO of the least class is the least FIFO. */
  lemma LeastClassGivesLeastFifo(table: Table, frames: seq<Frame>, tc: nat)
    requires LeastClass(table, frames, tc)
    ensures LeastFifo(table, frames, TcToFifo(tc))
  {
    var i :| HasClass(table, frames, tc, i);
    assert TcToFifo(ClassOf(table, frames[i].msgId)) == TcToFifo(tc);
    forall i | 0 <= i < |frames|
      ensures TcToFifo(tc) <= TcToFifo(ClassOf(table, frames[i].msgId))
    {
      assert NotBelow(table, frames, tc, i);
    }
  }

  // ----- closed containers -----

  datatype Outcome = Sent | TransmitFailed | NoBuffer

  /** A container handed to the driver or dropped: its frames, its bytes and its FIFO. */
  datatype Closed = Closed(frames: seq<Frame>, bytes: seq<Byte>, fifo: nat, outcome: Outcome)

  function FramesOf(closed: seq<Closed>): seq<Frame> {
    if closed == [] then [] else FramesOf(closed[..|closed| - 1]) + closed[|closed| - 1].frames
  }

  function Count(closed: seq<Closed>, o: Outcome): nat {
    if closed == [] then 0
    else Count(closed[..|closed| - 1], o) + (if closed[|closed| - 1].outcome == o then 1 else 0)
  }

  lemma ClosedAppend(closed: seq<Closed>, c: Closed)
    ensures FramesOf(closed + [c]) == FramesOf(closed) + c.frames
    ensures forall o :: Count(closed + [c], o) == Count(closed, o) + (if c.outcome == o then 1 else 0)
  {
    assert (closed + [c])[..|closed|] == closed;
  }

  /** Every closed container is counted once. */
  lemma {:induction false} CountsAddUp(closed: seq<Closed>)
    ensures Count(closed, Sent) + Count(closed, TransmitFailed) + Count(closed, NoBuffer) == |closed|
  {
    if closed != [] {
      CountsAddUp(closed[..|closed| - 1]);
    }
  }

  // ----- the pending container -----

  /** containerLen, with the frames in it. */
  function ContainerLength(table: Table, frames: seq<Frame>): nat {
    |Encode(PdusOf(table, frames))|
  }

  lemma PdusOfAppend(table: Table, frames: seq<Frame>, f: Frame)
    ensures PdusOf(table, frames + [f]) == PdusOf(table, frames) + [PduOf(table, f)]
  {
  }

  lemma LengthAppend(table: Table, frames: seq<Frame>, f: Frame)
    ensures ContainerLength(table, frames + [f]) == ContainerLength(table, frames) + PDU_HEADER_SIZE + f.dataLen
    ensures ContainerLength(table, frames) >= HEADER_SIZE
  {
    PdusOfAppend(table, frames, f);
    EntriesAppend(PdusOf(table, frames), PduOf(table, f));
  }

  lemma LengthOfEmpty(table: Table)
    ensures ContainerLength(table, []) == HEADER_SIZE
  {
    assert PdusOf(table, []) == [];
  }

  // ----- the task -----

  datatype Config = Config(mapping: Table, gates: GateSchedule.Table)

  /** What one turn of the loop meets: the head of the queue, the clock and the driver. */
  datatype Input = Input(queued: Option<Frame>, clock: nat, provideOk: bool, transmitOk: bool)

  function OutcomeOf(input: Input): Outcome {
    if !input.provideOk then NoBuffer else if input.transmitOk then Sent else TransmitFailed
  }

  /** TAS_IsGateOpen_FIFOx(0), whatever FIFO the container goes out on. */
  predicate GateOpen(c: Config, clock: nat) {
    c.gates != [] && GateSchedule.IsGateOpen(c.gates, 0, clock)
  }

  /** The frames in the pending container, the one carried over, those taken and those closed so far. */
  datatype View = View(frames: seq<Frame>, carried: Option<Frame>, dequeued: seq<Frame>, closed: seq<Closed>)

  const START: View := View([], None, [], [])

  /** The frame that a turn deals with: the one carried over comes before the queue. */
  function Next(v: View, input: Input): Option<Frame> {
    if v.carried.Some? then v.carried else input.queued
  }

  /** Step 1: the view once that frame has been taken. */
  function Taken(v: View, input: Input): View {
    v.(carried := None,
       dequeued := v.dequeued + if v.carried.None? && input.queued.Some? then [input.queued.value] else [])
  }

  /** Step 2: a mapped frame goes into the container if it fits. */
  function Put(c: Config, v: View, f: Frame): View {
    if ContainerLength(c.mapping, v.frames + [f]) <= PAYLOAD_MAX then v.(frames := v.frames + [f])
    else v.(carried := Some(f))
  }

  /** The pending container as it is handed over or dropped. */
  function ClosedNow(c: Config, v: View, input: Input): Closed
    requires v.frames != []
  {
    Closed(v.frames, Encode(PdusOf(c.mapping, v.frames)), TcToFifo(LeastOf(c.mapping, v.frames)), OutcomeOf(input))
  }

  /** Step 4. */
  function Close(c: Config, v: View, input: Input): View
    requires v.frames != []
  {
    v.(frames := [], closed := v.closed + [ClosedNow(c, v, input)])
  }

  /** Step 3. */
  predicate ShouldTransmit(c: Config, v: View, clock: nat) {
    v.frames != [] && (v.carried.Some? || ContainerLength(c.mapping, v.frames) >= PAYLOAD_MAX || GateOpen(c, clock))
  }

  function Transmitted(c: Config, v: View, input: Input): View {
    if ShouldTransmit(c, v, input.clock) then Close(c, v, input) else v
  }

  /** One turn. An unmapped frame ends it at once. */
  function TurnOf(c: Config, v: View, input: Input): View {
    match Next(v, input)
    case None => Transmitted(c, Taken(v, input), input)
    case Some(f) =>
      if IsMapped(c.mapping, f) then Transmitted(c, Put(c, Taken(v, input), f), input) else Taken(v, input)
  }

  /** The first `k` turns. */
  function RunOf(c: Config, v: View, inputs: seq<Input>, k: nat): View
    requires k <= |inputs|
  {
    if k == 0 then v else TurnOf(c, RunOf(c, v, inputs, k - 1), inputs[k - 1])
  }

  lemma RunStep(c: Config, v: View, inputs: seq<Input>, k: nat)
    requires k < |inputs|
    ensures RunOf(c, v, inputs, k + 1) == TurnOf(c, RunOf(c, v, inputs, k), inputs[k])
  {
  }

  // ----- what every turn keeps -----

  /** The frames of the closed containers, then those of the pending one, then the one carried over. */
  function Held(v: View): seq<Frame> {
    FramesOf(v.closed) + v.frames + if v.carried.Some? then [v.carried.value] else []
  }

  ghost predicate ClosedOk(table: Table, c: Closed) {
    && c.frames != []
    && c.bytes == Encode(PdusOf(table, c.frames))
    && |c.bytes| <= PAYLOAD_MAX
    && LeastFifo(table, c.frames, c.fifo)
  }

  ghost predicate AllClosedOk(table: Table, closed: seq<Closed>) {
    forall i :: 0 <= i < |closed| ==> ClosedOk(table, closed[i])
  }

  /** Between turns a frame is carried over only when no container is pending. */
  ghost predicate ViewOk(c: Config, v: View) {
    && MappedOf(c.mapping, v.dequeued) == Held(v)
    && AllClosedOk(c.mapping, v.closed)
    && ContainerLength(c.mapping, v.frames) <= PAYLOAD_MAX
    && (v.carried.Some? ==> v.frames == [] && IsMapped(c.mapping, v.carried.value))
  }

  /** Within a turn, with `f` in hand: everything holds with `f` counted as carried over. */
  ghost predicate InHand(c: Config, v: View, f: Option<Frame>) {
    && v.carried.None? && AllClosedOk(c.mapping, v.closed) && ContainerLength(c.mapping, v.frames) <= PAYLOAD_MAX
    && MappedOf(c.mapping, v.dequeued) == Held(v.(carried := if f.Some? && IsMapped(c.mapping, f.value) then f else None))
  }

  lemma TakenInHand(c: Config, v: View, input: Input)
    requires ViewOk(c, v)
    ensures InHand(c, Taken(v, input), Next(v, input))
  {
    if v.carried.None? && input.queued.Some? {
      MappedOfAppend(c.mapping, v.dequeued, input.queued.value);
      assert FramesOf(v.closed) + v.frames + [] == FramesOf(v.closed) + v.frames;
    } else {
      assert v.dequeued + [] == v.dequeued;
    }
  }

  /** A frame carried over leaves a container behind that is not empty, and will be closed. */
  lemma PutKeeps(c: Config, v: View, f: Frame)
    requires InHand(c, v, Some(f)) && IsMapped(c.mapping, f)
    ensures var r := Put(c, v, f);
            && MappedOf(c.mapping, r.dequeued) == Held(r) && r.closed == v.closed
            && r.frames != [] && ContainerLength(c.mapping, r.frames) <= PAYLOAD_MAX
            && (r.carried.Some? ==> r.carried.value == f)
  {
    LengthAppend(c.mapping, v.frames, f);
    LengthOfEmpty(c.mapping);
    assert FramesOf(v.closed) + (v.frames + [f]) + [] == FramesOf(v.closed) + v.frames + [f];
  }

  lemma LastIsOk(c: Config, v: View, input: Input)
    requires v.frames != [] && ContainerLength(c.mapping, v.frames) <= PAYLOAD_MAX
    ensures ClosedOk(c.mapping, ClosedNow(c, v, input))
  {
    LeastOfIsLeast(c.mapping, v.frames);
    LeastClassGivesLeastFifo(c.mapping, v.frames, LeastOf(c.mapping, v.frames));
  }

  lemma AllOkAppend(table: Table, closed: seq<Closed>, x: Closed)
    requires AllClosedOk(table, closed) && ClosedOk(table, x)
    ensures AllClosedOk(table, closed + [x])
  {
  }

  /** Closing a container moves its frames and loses none. */
  lemma CloseKeepsHeld(c: Config, v: View, input: Input)
    requires v.frames != []
    ensures Held(Close(c, v, input)) == Held(v)
  {
    ClosedAppend(v.closed, ClosedNow(c, v, input));
    assert FramesOf(v.closed) + v.frames + [] == FramesOf(v.closed) + v.frames;
  }

  lemma TransmittedKeeps(c: Config, v: View, input: Input)
    requires MappedOf(c.mapping, v.dequeued) == Held(v) && AllClosedOk(c.mapping, v.closed)
    requires ContainerLength(c.mapping, v.frames) <= PAYLOAD_MAX
    requires v.carried.Some? ==> v.frames != [] && IsMapped(c.mapping, v.carried.value)
    ensures ViewOk(c, Transmitted(c, v, input))
  {
    if ShouldTransmit(c, v, input.clock) {
      LastIsOk(c, v, input);
      AllOkAppend(c.mapping, v.closed, ClosedNow(c, v, input));
      CloseKeepsHeld(c, v, input);
      LengthOfEmpty(c.mapping);
    }
  }

  lemma TurnKeeps(c: Config, v: View, input: Input)
    requires ViewOk(c, v)
    ensures ViewOk(c, TurnOf(c, v, input))
  {
    var t := Taken(v, input);
    TakenInHand(c, v, input);
    match Next(v, input)
    case None => TransmittedKeeps(c, t, input);
    case Some(f) =>
      if IsMapped(c.mapping, f) {
        PutKeeps(c, t, f);
        TransmittedKeeps(c, Put(c, t, f), input);
      }
  }

  lemma {:induction false} RunKeeps(c: Config, inputs: seq<Input>, k: nat)
    requires k <= |inputs|
    ensures ViewOk(c, RunOf(c, START, inputs, k))
  {
    if k == 0 {
      LengthOfEmpty(c.mapping);
    } else {
      RunKeeps(c, inputs, k - 1);
      TurnKeeps(c, RunOf(c, START, inputs, k - 1), inputs[k - 1]);
    }
  }

  // ----- whole runs -----

  /**
    Conservation and order: after any number of turns, the closed containers, the pending one
    and the frame carried over hold, in order and once each, the mapped frames dequeued.
   */
  lemma NothingLostOrReordered(c: Config, inputs: seq<Input>)
    ensures var v := RunOf(c, START, inputs, |inputs|); MappedOf(c.mapping, v.dequeued) == Held(v)
  {
    RunKeeps(c, inputs, |inputs|);
  }

  /** Every closed container encodes its frames in at most 1518 bytes and goes out on its least FIFO. */
  lemma ContainersAreRight(c: Config, inputs: seq<Input>, i: nat)
    requires i < |RunOf(c, START, inputs, |inputs|).closed|
    ensures ClosedOk(c.mapping, RunOf(c, START, inputs, |inputs|).closed[i])
  {
    RunKeeps(c, inputs, |inputs|);
  }

  /** It decodes to the PDUs of its frames exactly when there are fewer than 256 of them, ... */
  lemma ContainersDecodeExactlyWhen(c: Config, inputs: seq<Input>, i: nat)
    requires i < |RunOf(c, START, inputs, |inputs|).closed|
    ensures var x := RunOf(c, START, inputs, |inputs|).closed[i];
            Decode(x.bytes) == Some(PdusOf(c.mapping, x.frames)) <==> |x.frames| < 256
  {
    var x := RunOf(c, START, inputs, |inputs|).closed[i];
    ContainersAreRight(c, inputs, i);
    RoundTripExactlyWhen(PdusOf(c.mapping, x.frames));
  }

  /** ... which three data bytes in each frame ensure. */
  lemma LongFramesDecode(c: Config, inputs: seq<Input>, i: nat)
    requires i < |RunOf(c, START, inputs, |inputs|).closed|
    requires forall f :: f in RunOf(c, START, inputs, |inputs|).closed[i].frames ==> f.dataLen >= 3
    ensures var x := RunOf(c, START, inputs, |inputs|).closed[i];
            |x.frames| <= 252 && Decode(x.bytes) == Some(PdusOf(c.mapping, x.frames))
  {
    var x := RunOf(c, START, inputs, |inputs|).closed[i];
    ContainersAreRight(c, inputs, i);
    CountDoesNotWrap(PdusOf(c.mapping, x.frames));
  }

  /** A frame carried over always fits into the next container, which is empty. */
  lemma CarriedFits(c: Config, inputs: seq<Input>, k: nat)
    requires k <= |inputs| && RunOf(c, START, inputs, k).carried.Some?
    ensures var v := RunOf(c, START, inputs, k);
            v.frames == [] && ContainerLength(c.mapping, [v.carried.value]) <= PAYLOAD_MAX
  {
    RunKeeps(c, inputs, k);
    var f := RunOf(c, START, inputs, k).carried.value;
    LengthAppend(c.mapping, [], f);
    LengthOfEmpty(c.mapping);
    assert [] + [f] == [f];
  }

  /**
    When a turn closes a container: never after an unmapped frame; otherwise, if there is
    anything in it, when the gate is open, when it is full, or when the frame does not fit.
   */
  predicate Closes(c: Config, v: View, input: Input) {
    match Next(v, input)
    case None => v.frames != [] && (ContainerLength(c.mapping, v.frames) >= PAYLOAD_MAX || GateOpen(c, input.clock))
    case Some(f) =>
      && IsMapped(c.mapping, f)
      && (ContainerLength(c.mapping, v.frames) + PDU_HEADER_SIZE + f.dataLen >= PAYLOAD_MAX || GateOpen(c, input.clock))
  }

  lemma TransmittedCloses(c: Config, v: View, input: Input)
    ensures var r := Transmitted(c, v, input);
            v.closed <= r.closed && |r.closed| == |v.closed| + if ShouldTransmit(c, v, input.clock) then 1 else 0
  {
  }

  lemma PutShouldTransmit(c: Config, v: View, f: Frame, clock: nat)
    requires v.carried.None? && ContainerLength(c.mapping, v.frames) <= PAYLOAD_MAX
    ensures ShouldTransmit(c, Put(c, v, f), clock) <==>
              ContainerLength(c.mapping, v.frames) + PDU_HEADER_SIZE + f.dataLen >= PAYLOAD_MAX || GateOpen(c, clock)
  {
    LengthAppend(c.mapping, v.frames, f);
    LengthOfEmpty(c.mapping);
  }

  lemma TurnClosesFrom(c: Config, v: View, input: Input)
    requires ContainerLength(c.mapping, v.frames) <= PAYLOAD_MAX
    ensures var r := TurnOf(c, v, input);
            v.closed <= r.closed && |r.closed| == |v.closed| + if Closes(c, v, input) then 1 else 0
  {
    var t := Taken(v, input);
    match Next(v, input)
    case None => TransmittedCloses(c, t, input);
    case Some(f) =>
      PutShouldTransmit(c, t, f, input.clock);
      TransmittedCloses(c, Put(c, t, f), input);
  }

  lemma TurnCloses(c: Config, inputs: seq<Input>, k: nat)
    requires k < |inputs|
    ensures var v, r := RunOf(c, START, inputs, k), RunOf(c, START, inputs, k + 1);
            v.closed <= r.closed && |r.closed| == |v.closed| + if Closes(c, v, inputs[k]) then 1 else 0
  {
    RunKeeps(c, inputs, k);
    RunStep(c, START, inputs, k);
    TurnClosesFrom(c, RunOf(c, START, inputs, k), inputs[k]);
  }

  // ----- what becomes of the containers is what the driver answers -----

  /** The driver gave a buffer and took the frame; gave a buffer and refused the frame; gave no buffer. */
  predicate AnsweredBy(input: Input, o: Outcome) {
    match o
    case Sent => input.provideOk && input.transmitOk
    case TransmitFailed => input.provideOk && !input.transmitOk
    case NoBuffer => !input.provideOk
  }

  /** Which turns close a container. */
  function Closings(c: Config, inputs: seq<Input>): (closings: seq<bool>)
    ensures |closings| == |inputs|
  {
    seq(|inputs|, k requires 0 <= k < |inputs| => Closes(c, RunOf(c, START, inputs, k), inputs[k]))
  }

  /** The turns among the first `k` that close a container and get such answers from the driver. */
  function Answers(closings: seq<bool>, inputs: seq<Input>, k: nat, o: Outcome): nat
    requires k <= |inputs| == |closings|
  {
    if k == 0 then 0
    else Answers(closings, inputs, k - 1, o) + if closings[k - 1] && AnsweredBy(inputs[k - 1], o) then 1 else 0
  }

  lemma TurnRecords(c: Config, v: View, input: Input)
    requires ContainerLength(c.mapping, v.frames) <= PAYLOAD_MAX
    ensures var r := TurnOf(c, v, input);
            if Closes(c, v, input) then
              r.closed != [] && r.closed[..|r.closed| - 1] == v.closed && r.closed[|r.closed| - 1].outcome == OutcomeOf(input)
            else r.closed == v.closed
  {
    TurnClosesFrom(c, v, input);
  }

  ghost predicate CountsTurn(counts: seq<nat>, closings: seq<bool>, inputs: seq<Input>, o: Outcome, k: nat) {
    k < |inputs| == |closings| && |counts| == |inputs| + 1 ==>
      counts[k + 1] == counts[k] + if closings[k] && AnsweredBy(inputs[k], o) then 1 else 0
  }

  lemma {:induction false} SumOfTurns(counts: seq<nat>, closings: seq<bool>, inputs: seq<Input>, o: Outcome, k: nat)
    requires k <= |inputs| == |closings| && |counts| == |inputs| + 1 && counts[0] == 0
    requires forall i: nat :: CountsTurn(counts, closings, inputs, o, i)
    ensures counts[k] == Answers(closings, inputs, k, o)
  {
    if k > 0 {
      SumOfTurns(counts, closings, inputs, o, k - 1);
      assert CountsTurn(counts, closings, inputs, o, k - 1);
    }
  }

  /** How many containers with this outcome there are before each turn and after the last. */
  function Tallies(c: Config, inputs: seq<Input>, o: Outcome): (counts: seq<nat>)
    ensures |counts| == |inputs| + 1
  {
    seq(|inputs| + 1, k requires 0 <= k <= |inputs| => Count(RunOf(c, START, inputs, k).closed, o))
  }

  lemma TallyAt(c: Config, inputs: seq<Input>, o: Outcome, k: nat)
    requires k <= |inputs|
    ensures Tallies(c, inputs, o)[k] == Count(RunOf(c, START, inputs, k).closed, o)
    ensures k == 0 ==> Tallies(c, inputs, o)[k] == 0
  {
  }

  lemma ViewCounts(closed: seq<Closed>, closed': seq<Closed>, closes: bool, input: Input, o: Outcome)
    requires if closes then
               closed' != [] && closed'[..|closed'| - 1] == closed && closed'[|closed'| - 1].outcome == OutcomeOf(input)
             else closed' == closed
    ensures Count(closed', o) == Count(closed, o) + if closes && AnsweredBy(input, o) then 1 else 0
  {
  }

  lemma TallyTurn(c: Config, inputs: seq<Input>, o: Outcome, k: nat)
    ensures CountsTurn(Tallies(c, inputs, o), Closings(c, inputs), inputs, o, k)
  {
    if k < |inputs| {
      var v, r := RunOf(c, START, inputs, k), RunOf(c, START, inputs, k + 1);
      assert ContainerLength(c.mapping, v.frames) <= PAYLOAD_MAX by { RunKeeps(c, inputs, k); }
      assert r == TurnOf(c, v, inputs[k]);
      TurnRecords(c, v, inputs[k]);
      ViewCounts(v.closed, r.closed, Closes(c, v, inputs[k]), inputs[k], o);
    }
  }

  /** A container counts as sent, failed or without a buffer exactly by the answers in the turn that closed it. */
  lemma OutcomesAreAnswers(c: Config, inputs: seq<Input>, o: Outcome)
    ensures Count(RunOf(c, START, inputs, |inputs|).closed, o) == Answers(Closings(c, inputs), inputs, |inputs|, o)
  {
    var counts, closings := Tallies(c, inputs, o), Closings(c, inputs);
    forall k: nat
      ensures CountsTurn(counts, closings, inputs, o, k)
    {
      TallyTurn(c, inputs, o, k);
    }
    assert counts[0] == 0 by { TallyAt(c, inputs, o, 0); }
    SumOfTurns(counts, closings, inputs, o, |inputs|);
    TallyAt(c, inputs, o, |inputs|);
  }

  lemma TurnExtends(c: Config, v: View, input: Input)
    ensures v.closed <= TurnOf(c, v, input).closed
  {
  }

  /** Containers once closed stay as they are. */
  lemma {:induction false} ClosedStays(c: Config, inputs: seq<Input>, j: nat, k: nat)
    requires j <= k <= |inputs|
    ensures RunOf(c, START, inputs, j).closed <= RunOf(c, START, inputs, k).closed
  {
    if j < k {
      ClosedStays(c, inputs, j, k - 1);
      var u, v := RunOf(c, START, inputs, j).closed, RunOf(c, START, inputs, k - 1);
      var w := TurnOf(c, v, inputs[k - 1]);
      assert v.closed <= w.closed by {
        TurnExtends(c, v, inputs[k - 1]);
      }
      PrefixOfPrefix(u, v.closed, w.closed);
      assert RunOf(c, START, inputs, k) == w;
    }
  }

  lemma PrefixOfPrefix(a: seq<Closed>, b: seq<Closed>, d: seq<Closed>)
    requires a <= b <= d
    ensures a <= d
  {
  }

  // ----- the count byte wraps in the task itself -----

  function Repeated(f: Frame, n: nat): (r: seq<Frame>)
    ensures |r| == n && forall i :: 0 <= i < n ==> r[i] == f
  {
    seq(n, i => f)
  }

  lemma RepeatedLength(table: Table, f: Frame, n: nat)
    ensures ContainerLength(table, Repeated(f, n)) == HEADER_SIZE + n * (PDU_HEADER_SIZE + f.dataLen)
  {
    assert PdusOf(table, Repeated(f, n)) == Copies(n, PduOf(table, f));
    CopiesLength(n, PduOf(table, f));
  }

  /** How many frames of this length fit into one container. */
  function Capacity(f: Frame): nat {
    (PAYLOAD_MAX - HEADER_SIZE) / (PDU_HEADER_SIZE + f.dataLen)
  }

  /** The view with `k` copies of the frame taken and pending. */
  function Loaded(f: Frame, k: nat): View {
    View(Repeated(f, k), None, Repeated(f, k), [])
  }

  lemma RepeatedFits(table: Table, f: Frame, k: nat)
    requires f.dataLen <= 2 && k <= Capacity(f)
    ensures ContainerLength(table, Repeated(f, k)) <= PAYLOAD_MAX
  {
    RepeatedLength(table, f, k);
    AtCapacity(f);
    if k < Capacity(f) {
      FitsBelowCapacity(f, k);
    }
  }

  lemma RepeatedStep(f: Frame, k: nat)
    ensures Repeated(f, k) + [f] == Repeated(f, k + 1)
  {
  }

  lemma OneMoreFits(c: Config, f: Frame, input: Input, k: nat)
    requires IsMapped(c.mapping, f) && f.dataLen <= 2 && input.queued == Some(f) && k < Capacity(f)
    ensures TurnOf(c, Loaded(f, k), input) == Transmitted(c, Loaded(f, k + 1), input)
  {
    var t := Taken(Loaded(f, k), input);
    RepeatedStep(f, k);
    assert Put(c, t, f) == Loaded(f, k + 1) by {
      RepeatedFits(c.mapping, f, k + 1);
    }
  }

  lemma NotYetFull(c: Config, f: Frame, input: Input, k: nat)
    requires f.dataLen <= 2 && !GateOpen(c, input.clock) && k < Capacity(f)
    ensures Transmitted(c, Loaded(f, k), input) == Loaded(f, k)
  {
    RepeatedLength(c.mapping, f, k);
    FitsBelowCapacity(f, k);
  }

  /** In every turn the queue offers `f` and gate 0 is shut; clocks and driver are free otherwise. */
  ghost predicate Stream(c: Config, f: Frame, inputs: seq<Input>) {
    && IsMapped(c.mapping, f) && f.dataLen <= 2
    && forall i :: 0 <= i < |inputs| ==> inputs[i].queued == Some(f) && !GateOpen(c, inputs[i].clock)
  }

  lemma {:induction false} FillsUp(c: Config, f: Frame, inputs: seq<Input>, k: nat)
    requires Stream(c, f, inputs) && k <= |inputs| && k < Capacity(f)
    ensures RunOf(c, START, inputs, k) == Loaded(f, k)
  {
    if k > 0 {
      var j := k - 1;
      FillsUp(c, f, inputs, j);
      RunStep(c, START, inputs, j);
      OneMoreFits(c, f, inputs[j], j);
      NotYetFull(c, f, inputs[j], k);
    }
  }

  lemma FitsBelowCapacity(f: Frame, k: nat)
    requires f.dataLen <= 2 && k < Capacity(f)
    ensures HEADER_SIZE + k * (PDU_HEADER_SIZE + f.dataLen) < PAYLOAD_MAX
  {
    if f.dataLen == 0 {
    } else if f.dataLen == 1 {
    } else {
    }
  }

  /** At capacity the container is full, or one byte short of it. */
  lemma AtCapacity(f: Frame)
    requires f.dataLen <= 2
    ensures 256 <= Capacity(f) < 512
    ensures var n := HEADER_SIZE + Capacity(f) * (PDU_HEADER_SIZE + f.dataLen);
            n <= PAYLOAD_MAX < n + PDU_HEADER_SIZE + f.dataLen
  {
    if f.dataLen == 0 {
      assert Capacity(f) == 505;
    } else if f.dataLen == 1 {
      assert Capacity(f) == 379;
    } else {
      assert Capacity(f) == 303;
    }
  }

  /** The turn that fills the container, ... */
  lemma LastFits(c: Config, f: Frame, inputs: seq<Input>, k: nat)
    requires Stream(c, f, inputs) && k + 1 == Capacity(f) && k < |inputs|
    ensures RunOf(c, START, inputs, k + 1) == Transmitted(c, Loaded(f, k + 1), inputs[k])
  {
    FillsUp(c, f, inputs, k);
    RunStep(c, START, inputs, k);
    OneMoreFits(c, f, inputs[k], k);
  }

  /** ... and the next one, that closes it unless it has been closed for being full. */
  lemma NextOverflows(c: Config, f: Frame, input: Input, v: View)
    requires IsMapped(c.mapping, f) && f.dataLen <= 2 && input.queued == Some(f)
    requires v.carried.None? && v.frames == Repeated(f, Capacity(f))
    ensures Capacity(f) > 0 && TurnOf(c, v, input).closed == v.closed + [ClosedNow(c, v, input)]
  {
    AtCapacity(f);
    RepeatedLength(c.mapping, f, Capacity(f));
    LengthAppend(c.mapping, v.frames, f);
  }

  /** The first container closed holds `n` copies of the frame. */
  ghost predicate FirstHolds(c: Config, f: Frame, n: nat, v: View) {
    v.closed != [] && v.closed[0].frames == Repeated(f, n) && v.closed[0].bytes == Encode(PdusOf(c.mapping, Repeated(f, n)))
  }

  /** Either way the container is closed with as many frames as fit. */
  lemma FullIsClosed(c: Config, f: Frame, a: Input, b: Input, n: nat)
    requires IsMapped(c.mapping, f) && f.dataLen <= 2 && b.queued == Some(f) && n == Capacity(f)
    ensures FirstHolds(c, f, n, TurnOf(c, Transmitted(c, Loaded(f, n), a), b))
  {
    AtCapacity(f);
    if ShouldTransmit(c, Loaded(f, n), a.clock) {
      TurnExtends(c, Close(c, Loaded(f, n), a), b);
    } else {
      NextOverflows(c, f, b, Loaded(f, n));
    }
  }

  lemma FirstIsFull(c: Config, f: Frame, inputs: seq<Input>, k: nat)
    requires Stream(c, f, inputs) && k + 1 == Capacity(f) < |inputs|
    ensures FirstHolds(c, f, k + 1, RunOf(c, START, inputs, k + 2))
  {
    var a, b := inputs[k], inputs[k + 1];
    var v := RunOf(c, START, inputs, k + 1);
    assert v == Transmitted(c, Loaded(f, k + 1), a) by {
      LastFits(c, f, inputs, k);
    }
    assert RunOf(c, START, inputs, k + 2) == TurnOf(c, v, b) by {
      RunStep(c, START, inputs, k + 1);
    }
    FullIsClosed(c, f, a, b, k + 1);
  }

  /**
    With the gate shut, a stream of mapped frames of at most two data bytes makes the task close
    a container whose count byte has wrapped: it holds 303, 379 or 505 of them and does not decode.
   */
  lemma CountByteWraps(c: Config, f: Frame, inputs: seq<Input>)
    requires Stream(c, f, inputs) && Capacity(f) < |inputs|
    ensures var v := RunOf(c, START, inputs, Capacity(f) + 1);
            && v.closed != [] && v.closed[0].frames == Repeated(f, Capacity(f)) && Capacity(f) >= 256
            && Decode(v.closed[0].bytes) != Some(PdusOf(c.mapping, v.closed[0].frames))
  {
    AtCapacity(f);
    var k := Capacity(f) - 1;
    FirstIsFull(c, f, inputs, k);
    assert FirstHolds(c, f, k + 1, RunOf(c, START, inputs, Capacity(f) + 1));
    RoundTripExactlyWhen(PdusOf(c.mapping, Repeated(f, Capacity(f))));
  }

  // ----- the gate of the FIFO a container goes out on -----

  /** The gates open in the slot that contains the phase of the clock. */
  function SlotGates(c: Config, clock: nat): nat
    requires c.gates != []
  {
    c.gates[GateSchedule.Locate(c.gates, clock % GateSchedule.CYCLE_NS, 0).index].gates
  }

  /** While gate 0 is open, another gate is open exactly if the same slot opens it. */
  lemma OtherGate(c: Config, clock: nat, fifo: nat)
    requires GateOpen(c, clock) && fifo <= 2
    ensures GateSchedule.IsGateOpen(c.gates, fifo, clock) <==> GateSchedule.GateBit(SlotGates(c, clock), fifo)
  {
  }

  /** The turn closes a container for no other reason than that gate 0 is open. */
  predicate ClosesByGate(c: Config, v: View, input: Input) {
    Closes(c, v, input) && match Next(v, input)
                           case None => ContainerLength(c.mapping, v.frames) < PAYLOAD_MAX
                           case Some(f) => ContainerLength(c.mapping, v.frames) + PDU_HEADER_SIZE + f.dataLen < PAYLOAD_MAX
  }

  /** No slot opens gate 0 together with another. */
  ghost predicate Gate0Alone(gates: GateSchedule.Table) {
    forall i, g :: 0 <= i < |gates| && 0 < g <= 2 ==>
      !(GateSchedule.GateBit(gates[i].gates, 0) && GateSchedule.GateBit(gates[i].gates, g))
  }

  lemma OtherGateAlone(c: Config, clock: nat, fifo: nat)
    requires GateOpen(c, clock) && fifo <= 2 && Gate0Alone(c.gates)
    ensures GateSchedule.IsGateOpen(c.gates, fifo, clock) <==> fifo == 0
  {
    OtherGate(c, clock, fifo);
    OtherGate(c, clock, 0);
  }

  lemma ClosedFifo(c: Config, inputs: seq<Input>, k: nat)
    requires k < |inputs| && Closes(c, RunOf(c, START, inputs, k), inputs[k])
    ensures var v, r := RunOf(c, START, inputs, k), RunOf(c, START, inputs, k + 1);
            |r.closed| == |v.closed| + 1 && r.closed[|v.closed|].fifo <= 2
  {
    TurnCloses(c, inputs, k);
    RunKeeps(c, inputs, k + 1);
    var r := RunOf(c, START, inputs, k + 1);
    assert ClosedOk(c.mapping, r.closed[|r.closed| - 1]);
  }

  /**
    The task asks gate 0 whatever FIFO the container goes out on. A container closed by the gate
    finds its own FIFO open exactly when the slot opens that gate too; with a list that opens
    gate 0 alone, exactly when it goes out on FIFO 0.
   */
  lemma OwnGateExactlyWhen(c: Config, inputs: seq<Input>, k: nat, fifo: nat)
    requires k < |inputs| && ClosesByGate(c, RunOf(c, START, inputs, k), inputs[k])
    requires var v, r := RunOf(c, START, inputs, k), RunOf(c, START, inputs, k + 1);
             |r.closed| > |v.closed| ==> fifo == r.closed[|v.closed|].fifo
    ensures |RunOf(c, START, inputs, k + 1).closed| == |RunOf(c, START, inputs, k).closed| + 1
    ensures GateOpen(c, inputs[k].clock)
    ensures GateSchedule.IsGateOpen(c.gates, fifo, inputs[k].clock) <==> GateSchedule.GateBit(SlotGates(c, inputs[k].clock), fifo)
    ensures Gate0Alone(c.gates) ==> (GateSchedule.IsGateOpen(c.gates, fifo, inputs[k].clock) <==> fifo == 0)
  {
    ClosedFifo(c, inputs, k);
    OtherGate(c, inputs[k].clock, fifo);
    if Gate0Alone(c.gates) {
      OtherGateAlone(c, inputs[k].clock, fifo);
    }
  }

  // ----- the tables of the program -----

  const CAN_PDU_MAP: Table :=
    [Mapping(1, 1001, 0), Mapping(2, 1002, 0), Mapping(3, 1003, 0), Mapping(4, 1004, 0)]

  lemma {:induction false} MappedAreMapped(table: Table, frames: seq<Frame>, f: Frame)
    requires f in MappedOf(table, frames)
    ensures IsMapped(table, f)
  {
    if frames != [] && f in MappedOf(table, frames[..|frames| - 1]) {
      MappedAreMapped(table, frames[..|frames| - 1], f);
    }
  }

  lemma {:induction false} InFramesOf(closed: seq<Closed>, i: nat, f: Frame)
    requires i < |closed| && f in closed[i].frames
    ensures f in FramesOf(closed)
  {
    if i < |closed| - 1 {
      InFramesOf(closed[..|closed| - 1], i, f);
    }
  }

  /** The frames of a closed container are mapped. */
  lemma ClosedAreMapped(c: Config, inputs: seq<Input>, i: nat, f: Frame)
    requires i < |RunOf(c, START, inputs, |inputs|).closed| && f in RunOf(c, START, inputs, |inputs|).closed[i].frames
    ensures IsMapped(c.mapping, f)
  {
    var v := RunOf(c, START, inputs, |inputs|);
    NothingLostOrReordered(c, inputs);
    InFramesOf(v.closed, i, f);
    assert f in Held(v);
    MappedAreMapped(c.mapping, v.dequeued, f);
  }

  /** The program maps the CAN ids 1 to 4, to the PDUs 1001 to 1004 of the critical class. */
  lemma ProgramMaps(f: Frame)
    ensures IsMapped(CAN_PDU_MAP, f) <==> 1 <= f.msgId <= 4
    ensures IsMapped(CAN_PDU_MAP, f) ==>
              PduOf(CAN_PDU_MAP, f) == Pdu(1000 + f.msgId, f.data[..f.dataLen]) && ClassOf(CAN_PDU_MAP, f.msgId) == 0
  {
    MapsByFirstEntry(CAN_PDU_MAP, f.msgId, if f.msgId == 0 then 0 else f.msgId - 1);
  }

  /** The bytes of a container with one frame of the program: version, count, id, length, data. */
  lemma ProgramBytes(f: Frame)
    requires 1 <= f.msgId <= 4
    ensures Encode(PdusOf(CAN_PDU_MAP, [f])) == [1, 1, 3, 232 + f.msgId, f.dataLen] + f.data[..f.dataLen]
  {
    ProgramMaps(f);
    assert PdusOf(CAN_PDU_MAP, [f]) == [PduOf(CAN_PDU_MAP, f)];
    var p := Pdu(1000 + f.msgId, f.data[..f.dataLen]);
    assert [p][1..] == [] && Entries([]) == [];
    assert Entries([p]) == Entry(p);
    assert p.id / 256 == 3 && p.id % 256 == 232 + f.msgId;
  }

  /** With the mapping of the program every container goes out on FIFO 0, whose gate is the one asked. */
  lemma ProgramAsksItsOwnGate(gates: GateSchedule.Table, inputs: seq<Input>, i: nat)
    requires i < |RunOf(Config(CAN_PDU_MAP, gates), START, inputs, |inputs|).closed|
    ensures RunOf(Config(CAN_PDU_MAP, gates), START, inputs, |inputs|).closed[i].fifo == 0
  {
    var c := Config(CAN_PDU_MAP, gates);
    var x := RunOf(c, START, inputs, |inputs|).closed[i];
    ContainersAreRight(c, inputs, i);
    var j :| 0 <= j < |x.frames| && TcToFifo(ClassOf(CAN_PDU_MAP, x.frames[j].msgId)) == x.fifo;
    ClosedAreMapped(c, inputs, i, x.frames[j]);
    ProgramMaps(x.frames[j]);
  }

  // ----- a table with which the gate asked is not the one used -----

  const CLASS_3_MAP: Table := [Mapping(5, 2000, 3)]
  const FRAME_5: Frame := Frame(5, 8, Zeros(64))

  lemma FrameFiveIsClassThree()
    ensures IsMapped(CLASS_3_MAP, FRAME_5) && ClassOf(CLASS_3_MAP, 5) == 3
  {
  }

  lemma OnlyGate0AtStart()
    ensures GateSchedule.IsGateOpen(GateSchedule.GCL_MIRROR, 0, 0) && !GateSchedule.IsGateOpen(GateSchedule.GCL_MIRROR, 1, 0)
  {
    assert GateSchedule.SlotStart(GateSchedule.GCL_MIRROR, 1) == 1_000_000;
    assert GateSchedule.Shift(1, 1) == 0;
  }

  /**
    With a mapping of class 3, which the program's does not have, the task closes a container
    because gate 0 is open and hands it to FIFO 1, whose gate is shut.
   */
  lemma OtherMappingMeetsShutGate(provideOk: bool, transmitOk: bool)
    ensures var c := Config(CLASS_3_MAP, GateSchedule.GCL_MIRROR);
            var input := Input(Some(FRAME_5), 0, provideOk, transmitOk);
            var v := RunOf(c, START, [input], 1);
            && ClosesByGate(c, START, input)
            && |v.closed| == 1 && v.closed[0].fifo == 1
            && GateSchedule.IsGateOpen(c.gates, 0, 0) && !GateSchedule.IsGateOpen(c.gates, 1, 0)
  {
    var c := Config(CLASS_3_MAP, GateSchedule.GCL_MIRROR);
    var input := Input(Some(FRAME_5), 0, provideOk, transmitOk);
    FrameFiveIsClassThree();
    OnlyGate0AtStart();
    LengthOfEmpty(c.mapping);
    LengthAppend(c.mapping, [], FRAME_5);
    assert [] + [FRAME_5] == [FRAME_5];
    RunStep(c, START, [input], 0);
  }
}
