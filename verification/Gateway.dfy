/**
  The code of ETH_PDU_Send_TAS of src/FlexCAN_SKKU.c, with GW_GetPduId_FromCanFd: the container
  buffer, its length and count, the flags and the statistics, updated in place.
 */
module Gateway {
  import opened Shared
  import opened ContainerCodec
  import opened Aggregation
  import GateSchedule

  /** GW_GetPduId_FromCanFd. Its index is a uint8, so that it ends only for tables of at most 255 entries. */
  method GetPduId(table: Table, canId: nat) returns (id: PduId, trafficClass: nat)
    requires |table| <= 255
    ensures id == PduIdOf(table, canId) && trafficClass == ClassOf(table, canId)
    ensures forall r: nat :: FirstEntryFor(table, canId, r) ==> id == table[r].pduId && trafficClass == table[r].trafficClass
    ensures NoEntryFor(table, canId) ==> id == UNMAPPED && trafficClass == TC_BEST_EFFORT
  {
    trafficClass := TC_BEST_EFFORT;
    var i: Byte := 0;
    while i < |table|
      invariant i <= |table|
      invariant Find(table, canId, i) == Find(table, canId, 0)
      invariant forall j :: 0 <= j < i ==> table[j].canId != canId
      decreases |table| - i
    {
      if table[i].canId == canId {
        trafficClass := table[i].trafficClass;
        return table[i].pduId, trafficClass;
      }
      i := (i + 1) % 256;
    }
    return UNMAPPED, trafficClass;
  }

  /** Adding one entry behind what is there, and counting it, gives the encoding of one PDU more. */
  lemma EncodeAppend(pdus: seq<Pdu>, p: Pdu, bytes: seq<Byte>, bytes': seq<Byte>)
    requires bytes == Encode(pdus)
    requires bytes' == [bytes[0], (|pdus| + 1) % 256] + bytes[2..] + Entry(p)
    ensures bytes' == Encode(pdus + [p])
  {
    EntriesAppend(pdus, p);
    assert bytes[2..] == Entries(pdus);
  }

  lemma PackedAppend(pdus: seq<Pdu>, p: Pdu, before: seq<Byte>, written: seq<Byte>, after: seq<Byte>, n: nat)
    requires before == Encode(pdus) && n == |before| && n + |Entry(p)| <= |written|
    requires written[..n] == before && written[n..n + |Entry(p)|] == Entry(p)
    requires after == written[1 := (|pdus| + 1) % 256]
    ensures after[..n + |Entry(p)|] == Encode(pdus + [p])
  {
    var m, bytes := n + |Entry(p)|, [before[0], (|pdus| + 1) % 256] + before[2..] + Entry(p);
    assert |bytes| == m;
    forall i | 0 <= i < m
      ensures after[i] == bytes[i]
    {
      assert i < n ==> written[i] == before[i];
      assert n <= i ==> written[i] == Entry(p)[i - n];
    }
    assert after[..m] == bytes;
    EncodeAppend(pdus, p, before, bytes);
  }

  lemma MoreThanHeader(pdus: seq<Pdu>)
    requires pdus != []
    ensures |Encode(pdus)| > HEADER_SIZE
  {
  }

  datatype Statistics = Statistics(containersSent: nat, ethTxErrors: nat, ethBufferErrors: nat)

  function Counted(stats: Statistics, o: Outcome): Statistics {
    match o
    case Sent => stats.(containersSent := (stats.containersSent + 1) % WORD)
    case TransmitFailed => stats.(ethTxErrors := (stats.ethTxErrors + 1) % WORD)
    case NoBuffer => stats.(ethBufferErrors := (stats.ethBufferErrors + 1) % WORD)
  }

  function StatOf(stats: Statistics, o: Outcome): nat {
    match o
    case Sent => stats.containersSent
    case TransmitFailed => stats.ethTxErrors
    case NoBuffer => stats.ethBufferErrors
  }

  ghost predicate StatOk(stats: Statistics, closed: seq<Closed>, o: Outcome) {
    StatOf(stats, o) == Count(closed, o) % WORD
  }

  /** The uint32 counters count the outcomes of the closed containers. */
  ghost predicate StatsOk(stats: Statistics, closed: seq<Closed>) {
    forall o :: StatOk(stats, closed, o)
  }

  lemma CountStep(n: nat)
    ensures (n % WORD + 1) % WORD == (n + 1) % WORD
  {
  }

  lemma StatsAppend(stats: Statistics, closed: seq<Closed>, c: Closed)
    requires StatsOk(stats, closed)
    ensures StatsOk(Counted(stats, c.outcome), closed + [c])
  {
    var stats', closed' := Counted(stats, c.outcome), closed + [c];
    ClosedAppend(closed, c);
    forall o
      ensures StatOk(stats', closed', o)
    {
      assert StatOk(stats, closed, o);
      CountStep(Count(closed, o));
    }
  }

  lemma SumOfTwo(a: nat, b: nat)
    ensures (a % WORD + b) % WORD == (a + b) % WORD
  {
  }

  lemma SumOfRemainders(a: nat, b: nat, c: nat)
    ensures (a % WORD + b % WORD + c % WORD) % WORD == (a + b + c) % WORD
  {
    SumOfTwo(a, b % WORD + c % WORD);
    SumOfTwo(b, a + c % WORD);
    SumOfTwo(c, a + b);
  }

  /** Together the counters give the number of containers closed. */
  lemma StatsAddUp(stats: Statistics, closed: seq<Closed>)
    requires StatsOk(stats, closed)
    ensures (stats.containersSent + stats.ethTxErrors + stats.ethBufferErrors) % WORD == |closed| % WORD
  {
    CountsAddUp(closed);
    assert StatOk(stats, closed, Sent) && StatOk(stats, closed, TransmitFailed) && StatOk(stats, closed, NoBuffer);
    SumOfRemainders(Count(closed, Sent), Count(closed, TransmitFailed), Count(closed, NoBuffer));
  }

  ghost predicate EncodedAt(table: Table, frames: seq<Frame>, bytes: seq<Byte>, k: int) {
    |bytes| == ContainerLength(table, frames) && (0 <= k < |bytes| ==> bytes[k] == Encode(PdusOf(table, frames))[k])
  }

  /** The bytes are the encoding of the frames. */
  ghost predicate Encoded(table: Table, frames: seq<Frame>, bytes: seq<Byte>) {
    forall k :: EncodedAt(table, frames, bytes, k)
  }

  lemma EncodedMeans(table: Table, frames: seq<Frame>, bytes: seq<Byte>)
    ensures Encoded(table, frames, bytes) <==> bytes == Encode(PdusOf(table, frames))
  {
    if Encoded(table, frames, bytes) {
      assert EncodedAt(table, frames, bytes, 0);
      forall k | 0 <= k < |bytes|
        ensures bytes[k] == Encode(PdusOf(table, frames))[k]
      {
        assert EncodedAt(table, frames, bytes, k);
      }
    }
  }

  /** Writing the entry of a frame behind the encoding of others, and counting it, encodes one frame more. */
  lemma EncodedAppend(table: Table, frames: seq<Frame>, f: Frame, before: seq<Byte>, written: seq<Byte>, after: seq<Byte>, n: nat)
    requires Encoded(table, frames, before) && n == |before| && n + PDU_HEADER_SIZE + f.dataLen <= |written|
    requires written[..n] == before && written[n..n + PDU_HEADER_SIZE + f.dataLen] == Entry(PduOf(table, f))
    requires |written| > 1 && after == written[1 := (|frames| + 1) % 256]
    ensures Encoded(table, frames + [f], after[..n + PDU_HEADER_SIZE + f.dataLen])
  {
    EncodedMeans(table, frames, before);
    PackedAppend(PdusOf(table, frames), PduOf(table, f), before, written, after, n);
    PdusOfAppend(table, frames, f);
    EncodedMeans(table, frames + [f], after[..n + PDU_HEADER_SIZE + f.dataLen]);
  }

  /** What is handed over is the encoding of the frames, on the FIFO of the least class. */
  lemma IsClosedNow(c: Config, v: View, input: Input, tc: nat, bytes: seq<Byte>)
    requires v.frames != [] && LeastClass(c.mapping, v.frames, tc) && Encoded(c.mapping, v.frames, bytes)
    ensures Closed(v.frames, bytes, TcToFifo(tc), OutcomeOf(input)) == ClosedNow(c, v, input)
  {
    EncodedMeans(c.mapping, v.frames, bytes);
    LeastOfIsLeast(c.mapping, v.frames);
    LeastIsUnique(c.mapping, v.frames, tc, LeastOf(c.mapping, v.frames));
  }

  /** The uint32 counters give the turns that closed a container, by the answers of the driver. */
  ghost predicate CountsAnswers(stats: Statistics, c: Config, inputs: seq<Input>) {
    && stats.containersSent == Answers(Closings(c, inputs), inputs, |inputs|, Sent) % WORD
    && stats.ethTxErrors == Answers(Closings(c, inputs), inputs, |inputs|, TransmitFailed) % WORD
    && stats.ethBufferErrors == Answers(Closings(c, inputs), inputs, |inputs|, NoBuffer) % WORD
  }

  lemma StatIsAnswer(stats: Statistics, c: Config, inputs: seq<Input>, closed: seq<Closed>, o: Outcome)
    requires StatsOk(stats, closed) && closed == RunOf(c, START, inputs, |inputs|).closed
    ensures StatOf(stats, o) == Answers(Closings(c, inputs), inputs, |inputs|, o) % WORD
  {
    OutcomesAreAnswers(c, inputs, o);
    assert StatOk(stats, closed, o);
  }

  class AggregationTask {
    const config: Config
    const container: array<Byte>
    var containerLen: nat
    var pduCount: Byte
    var currentTC: nat
    var containerPending: bool
    var overflowPdu: Frame
    var hasOverflowPdu: bool
    var stats: Statistics

    ghost var frames: seq<Frame>      // in the pending container
    ghost var dequeued: seq<Frame>    // taken from the queue so far
    ghost var closed: seq<Closed>     // handed over or dropped so far

    /** What the task has done so far. */
    ghost function Seen(): View
      reads this
    {
      View(frames, if hasOverflowPdu then Some(overflowPdu) else None, dequeued, closed)
    }

    /** The bytes of the pending container encode its frames. */
    ghost predicate Packed()
      reads this, container
    {
      && container.Length == CONTAINER_MAX_SIZE
      && HEADER_SIZE <= containerLen <= PAYLOAD_MAX
      && Encoded(config.mapping, frames, container[..containerLen])
      && pduCount == |frames| % 256
    }

    ghost predicate ContainerOk()
      reads this, container
    {
      && container.Length == CONTAINER_MAX_SIZE
      && (if containerPending then Packed() && frames != [] && LeastClass(config.mapping, frames, currentTC) else frames == [])
    }

    ghost predicate Valid()
      reads this, container
    {
      && |config.mapping| <= 255 && config.gates != []
      && ContainerOk()
      && StatsOk(stats, closed)
      && (hasOverflowPdu ==> !containerPending)
    }

    constructor (c: Config)
      requires |c.mapping| <= 255 && c.gates != []
      ensures Valid() && fresh(container) && config == c && Seen() == START
    {
      config := c;
      container := new Byte[CONTAINER_MAX_SIZE](i => 0);
      containerLen, pduCount, currentTC, containerPending := 0, 0, TC_BEST_EFFORT, false;
      overflowPdu, hasOverflowPdu := Frame(0, 0, Zeros(64)), false;
      stats := Statistics(0, 0, 0);
      frames, dequeued, closed := [], [], [];
      new;
      assert forall o :: StatOk(stats, closed, o);
    }

    method StartContainer(msgTC: nat)
      requires container.Length == CONTAINER_MAX_SIZE && frames == []
      modifies container, this`containerLen, this`pduCount, this`currentTC, this`containerPending
      ensures Packed() && containerLen == HEADER_SIZE && currentTC == msgTC && containerPending
    {
      container[0] := CONTAINER_VERSION;
      container[1] := 0;
      containerLen := HEADER_SIZE;
      pduCount := 0;
      currentTC := msgTC;
      containerPending := true;
      assert container[..2] == Encode([]) && PdusOf(config.mapping, []) == [];
      EncodedMeans(config.mapping, [], container[..2]);
    }

    /** The four assignments that write one entry at position `n`. */
    method WriteEntry(n: nat, f: Frame, id: PduId)
      requires n + PDU_HEADER_SIZE + f.dataLen <= container.Length
      modifies container
      ensures container[..n] == old(container[..n])
      ensures container[n..n + PDU_HEADER_SIZE + f.dataLen] == Entry(Pdu(id, f.data[..f.dataLen]))
    {
      container[n] := id / 256;
      container[n + 1] := id % 256;
      container[n + 2] := f.dataLen;
      forall k | 0 <= k < f.dataLen {
        container[n + 3 + k] := f.data[k];
      }
    }

    method SetCount(count: Byte)
      requires container.Length == CONTAINER_MAX_SIZE
      modifies container, this`pduCount
      ensures pduCount == count
      ensures container[..] == old(container[..])[1 := count]
    {
      pduCount := count;
      container[1] := pduCount;
    }

    /** Writes one entry behind the others and counts it. */
    method AddEntry(f: Frame, id: PduId)
      requires Packed() && id == PduIdOf(config.mapping, f.msgId)
      requires containerLen + PDU_HEADER_SIZE + f.dataLen <= PAYLOAD_MAX
      modifies container, this`containerLen, this`pduCount, this`frames
      ensures Packed() && frames == old(frames) + [f]
      ensures containerLen == old(containerLen) + PDU_HEADER_SIZE + f.dataLen
    {
      ghost var before := container[..containerLen];
      WriteEntry(containerLen, f, id);
      ghost var written := container[..];
      SetCount((pduCount + 1) % 256);
      EncodedAppend(config.mapping, frames, f, before, written, container[..], containerLen);
      containerLen := containerLen + PDU_HEADER_SIZE + f.dataLen;
      frames := frames + [f];
    }

    /**
      Step 2 of the loop: an unmapped frame is skipped; any other goes into the container, or is
      carried over when it does not fit, which a new container always avoids.
     */
    method ProcessPdu(rx: Frame) returns (skip: bool)
      requires |config.mapping| <= 255 && ContainerOk() && !hasOverflowPdu
      modifies container, this`containerLen, this`pduCount, this`currentTC, this`containerPending,
               this`overflowPdu, this`hasOverflowPdu, this`frames
      ensures ContainerOk() && (skip <==> !IsMapped(config.mapping, rx))
      ensures skip ==> Seen() == old(Seen())
      ensures !skip ==> containerPending && Seen() == Put(config, old(Seen()), rx)
    {
      var id, msgTC := GetPduId(config.mapping, rx.msgId);
      if id == UNMAPPED {
        return true;
      }
      skip := false;
      LengthAppend(config.mapping, frames, rx);
      LengthOfEmpty(config.mapping);
      assert containerPending ==> EncodedAt(config.mapping, frames, container[..containerLen], 0);
      if !containerPending {
        StartContainer(msgTC);
      }
      var requiredSpace := PDU_HEADER_SIZE + rx.dataLen;
      if containerLen + requiredSpace <= PAYLOAD_MAX {
        LeastClassAppend(config.mapping, frames, currentTC, rx);
        AddEntry(rx, id);
        if msgTC < currentTC {
          currentTC := msgTC;
        }
      } else {
        overflowPdu := rx;
        hasOverflowPdu := true;
      }
    }

    /** The driver is asked for a buffer and given the frame, and its answer is counted. */
    method HandOver(input: Input) returns (outcome: Outcome)
      modifies this`stats
      ensures outcome == OutcomeOf(input) && stats == Counted(old(stats), outcome)
    {
      if input.provideOk {
        if input.transmitOk {
          outcome := Sent;
          stats := stats.(containersSent := (stats.containersSent + 1) % WORD);
        } else {
          outcome := TransmitFailed;
          stats := stats.(ethTxErrors := (stats.ethTxErrors + 1) % WORD);
        }
      } else {
        outcome := NoBuffer;
        stats := stats.(ethBufferErrors := (stats.ethBufferErrors + 1) % WORD);
      }
    }

    /** Step 4: the container is handed over or dropped, and counted, on the FIFO of its least class. */
    method Transmit(input: Input)
      requires containerPending && ContainerOk() && StatsOk(stats, closed)
      modifies this`containerLen, this`pduCount, this`containerPending, this`stats, this`frames, this`closed
      ensures ContainerOk() && StatsOk(stats, closed) && !containerPending && Seen() == Close(config, old(Seen()), input)
    {
      var fifo := TcToFifo(currentTC);
      var outcome := HandOver(input);
      ghost var c := Closed(frames, container[..containerLen], fifo, outcome);
      IsClosedNow(config, Seen(), input, currentTC, container[..containerLen]);
      StatsAppend(old(stats), closed, c);
      closed := closed + [c];
      frames := [];
      containerPending := false;
      containerLen := 0;
      pduCount := 0;
    }

    /** Step 1: the frame carried over comes first, then the queue. */
    method NextPdu(input: Input) returns (hasPdu: bool, rx: Frame, took: bool)
      requires Valid()
      modifies this`hasOverflowPdu, this`dequeued
      ensures Valid() && Seen() == Taken(old(Seen()), input)
      ensures took <==> !old(hasOverflowPdu) && input.queued.Some?
      ensures Next(old(Seen()), input) == if hasPdu then Some(rx) else None
    {
      hasPdu, rx, took := false, overflowPdu, false;
      if hasOverflowPdu {
        hasOverflowPdu := false;
        hasPdu := true;
      } else if input.queued.Some? {
        rx := input.queued.value;
        dequeued := dequeued + [rx];
        took := true;
        hasPdu := true;
      }
    }

    /** Steps 3 and 4. A frame carried over forces the container out, so that the next one is empty. */
    method DecideAndTransmit(input: Input)
      requires |config.mapping| <= 255 && config.gates != [] && ContainerOk() && StatsOk(stats, closed)
      requires hasOverflowPdu ==> containerPending
      modifies this`containerLen, this`pduCount, this`containerPending, this`stats, this`frames, this`closed
      ensures Valid() && Seen() == Transmitted(config, old(Seen()), input)
    {
      var shouldTransmit := false;
      if containerPending {
        assert EncodedAt(config.mapping, frames, container[..containerLen], 0);
        MoreThanHeader(PdusOf(config.mapping, frames));
      }
      if containerPending && containerLen > HEADER_SIZE {
        if hasOverflowPdu {
          shouldTransmit := true;
        } else if containerLen >= PAYLOAD_MAX {
          shouldTransmit := true;
        } else if GateSchedule.IsGateOpen(config.gates, 0, input.clock) && containerLen >= 2 {
          shouldTransmit := true;
        }
      }
      if shouldTransmit {
        Transmit(input);
      }
    }

    /** One turn of the loop of ETH_PDU_Send_TAS. An unmapped frame ends the turn at once. */
    method Turn(input: Input) returns (took: bool)
      requires Valid()
      modifies this, container
      ensures Valid() && Seen() == TurnOf(config, old(Seen()), input)
      ensures took <==> !old(hasOverflowPdu) && input.queued.Some?
      ensures dequeued == old(dequeued) + if took then [input.queued.value] else []
    {
      var hasPdu, rx;
      hasPdu, rx, took := NextPdu(input);
      if hasPdu {
        var skip := ProcessPdu(rx);
        if skip {
          return;
        }
      }
      DecideAndTransmit(input);
    }

    /** Any number of turns; `taken` are the frames taken from the queue in them. */
    method Run(inputs: seq<Input>) returns (taken: seq<Frame>)
      requires Valid()
      modifies this, container
      ensures Valid() && Seen() == RunOf(config, old(Seen()), inputs, |inputs|)
      ensures dequeued == old(dequeued) + taken
      ensures old(Seen()) == START ==> CountsAnswers(stats, config, inputs)
    {
      taken := Turns(inputs);
      if old(Seen()) == START {
        AllAnswersCounted(inputs);
      }
    }

    method Turns(inputs: seq<Input>) returns (taken: seq<Frame>)
      requires Valid()
      modifies this, container
      ensures Valid() && Seen() == RunOf(config, old(Seen()), inputs, |inputs|)
      ensures dequeued == old(dequeued) + taken
    {
      taken := [];
      ghost var v := Seen();
      for i := 0 to |inputs|
        invariant Valid() && Seen() == RunOf(config, v, inputs, i)
        invariant dequeued == old(dequeued) + taken
      {
        var took := Turn(inputs[i]);
        RunStep(config, v, inputs, i);
        ghost var before := taken;
        if took {
          taken := taken + [inputs[i].queued.value];
        }
        assert taken == before + if took then [inputs[i].queued.value] else [];
      }
    }

    lemma AllAnswersCounted(inputs: seq<Input>)
      requires Valid() && Seen() == RunOf(config, START, inputs, |inputs|)
      ensures CountsAnswers(stats, config, inputs)
    {
      StatIsAnswer(stats, config, inputs, closed, Sent);
      StatIsAnswer(stats, config, inputs, closed, TransmitFailed);
      StatIsAnswer(stats, config, inputs, closed, NoBuffer);
    }

    /** At any time the statistics add up to the number of containers closed. */
    lemma CountersAddUp()
      requires Valid()
      ensures (stats.containersSent + stats.ethTxErrors + stats.ethBufferErrors) % WORD == |closed| % WORD
    {
      StatsAddUp(stats, closed);
    }
  }
}
