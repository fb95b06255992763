/**
  One sender and one receiver on a stream or message buffer, FreeRTOS/Source/stream_buffer.c,
  interleaved at every load and store of an index and every byte copied.

  The sender runs xStreamBufferSpacesAvailable and prvWriteMessageToBuffer, the receiver
  prvBytesInBuffer and prvReadMessageFromBuffer, or xStreamBufferNextMessageLengthBytes. Beside
  xHead and xTail the state carries unbounded counts of the bytes published and consumed.
 */
module StreamProtocol {
  import opened Shared
  import opened RingIndex
  import opened StreamFrames

  /**
    Looking has read xTail once, Summing twice. Copying has put `done` of the bytes of the
    header and the data into the buffer.
   */
  datatype Sender =
    | Resting
    | Looking(toSend: Bytes, tail1: nat)
    | Summing(toSend: Bytes, tail1: nat, tail2: nat)
    | Copying(header: Bytes, data: Bytes, done: nat)

  /**
    Measuring reads the length of the next message, Fetching the data. `room` is the size of
    the caller's buffer; `peek` says that only the length is wanted. `upTo` is how many
    messages had been sent when the receiver looked.
   */
  datatype Receiver =
    | Waiting
    | Measuring(available: nat, upTo: nat, room: nat, peek: bool, got: Bytes)
    | Fetching(skip: nat, count: nat, got: Bytes)

  datatype State = State(
    length: nat,
    isMessageBuffer: bool,
    buffer: Bytes,
    head: nat,                  // xHead
    tail: nat,                  // xTail
    written: nat,               // the bytes ever published, of which head is the remainder
    read_: nat,                 // the bytes ever consumed, of which tail is the remainder
    stream: Bytes,              // all bytes ever published by the sender
    sent: seq<Bytes>,           // the data of every send that returned non-zero
    received: seq<Bytes>,       // the data of every receive that returned non-zero
    reported: seq<nat>,         // what xStreamBufferNextMessageLengthBytes has returned
    sender: Sender,
    receiver: Receiver)

  datatype Event =
    | Look(toSend: Bytes)
    | Sum
    | Decide
    | Put
    | Publish
    | Begin(room: nat, peek: bool)
    | Get
    | Finish

  // ----- the steps of the sender -----

  /** Where the data begins behind a length of `skip` bytes. */
  function DataStart(length: nat, at: nat, skip: nat): nat {
    if skip == 0 then at else NextIndex(length, at, skip)
  }

  /** Where the sender puts its next byte: the header first, then the data behind it. */
  function PutIndex(length: nat, head: nat, header: Bytes, data: Bytes, done: nat): nat
    requires head < length
  {
    if done < |header| then CopyIndex(length, head, |header|, done)
    else
      var next := DataStart(length, head, |header|);
      if next < length then CopyIndex(length, next, |data|, done - |header|) else 0
  }

  /** prvWriteMessageToBuffer up to the copying, with the space measured. */
  function Decided(isMessageBuffer: bool, toSend: Bytes, space: nat): Sender {
    if isMessageBuffer then
      if space >= |toSend| + LENGTH_BYTES then Copying(LengthBytes(|toSend|), toSend, 0) else Resting
    else
      var n := if |toSend| < space then |toSend| else space;
      if n == 0 then Resting else Copying([], toSend[..n], 0)
  }

  // ----- the steps of the receiver -----

  /** Where the receiver finds its next byte. */
  function GetIndex(length: nat, tail: nat, r: Receiver): nat
    requires tail < length
  {
    match r
    case Waiting => 0
    case Measuring(_, _, _, _, got) => CopyIndex(length, tail, LENGTH_BYTES, |got|)
    case Fetching(skip, count, got) =>
      var from := DataStart(length, tail, skip);
      if from < length then CopyIndex(length, from, count, |got|) else 0
  }

  function Begun(isMessageBuffer: bool, available: nat, upTo: nat, room: nat, peek: bool): Receiver {
    if isMessageBuffer then
      if available > LENGTH_BYTES then Measuring(available, upTo, room, peek, []) else Waiting
    else if peek then Waiting
    else
      var count := if room < available then room else available;
      if count == 0 then Waiting else Fetching(0, count, [])
  }

  /** After the length has been read: too small a buffer ends the call. */
  function Measured(available: nat, room: nat, n: nat): Receiver {
    var wanted := if n > room then 0 else n;
    var count := if wanted < available - LENGTH_BYTES then wanted else available - LENGTH_BYTES;
    if count <= 0 then Waiting else Fetching(LENGTH_BYTES, count, [])
  }

  function Append(r: Receiver, b: Byte): Receiver
    requires !r.Waiting?
  {
    r.(got := r.got + [b])
  }

  // ----- the machine -----

  predicate Enabled(s: State, e: Event) {
    match e
    case Look(toSend) => s.sender.Resting? && |toSend| + LENGTH_BYTES < WORD
    case Sum => s.sender.Looking?
    case Decide => s.sender.Summing?
    case Put => s.sender.Copying? && s.sender.done < |s.sender.header| + |s.sender.data|
    case Publish => s.sender.Copying? && s.sender.done == |s.sender.header| + |s.sender.data|
    case Begin(_, _) => s.receiver.Waiting?
    case Get =>
      || (s.receiver.Measuring? && |s.receiver.got| < LENGTH_BYTES)
      || (s.receiver.Fetching? && |s.receiver.got| < s.receiver.count)
    case Finish =>
      || (s.receiver.Measuring? && |s.receiver.got| == LENGTH_BYTES)
      || (s.receiver.Fetching? && |s.receiver.got| == s.receiver.count)
  }

  predicate Shape(s: State) {
    ValidLength(s.length) && |s.buffer| == s.length && s.head < s.length && s.tail < s.length
  }

  function Apply(s: State, e: Event): State
    requires Enabled(s, e) && Shape(s)
  {
    match e
    case Look(toSend) => s.(sender := Looking(toSend, s.read_))
    case Sum => s.(sender := Summing(s.sender.toSend, s.sender.tail1, s.read_))
    case Decide =>
      if s.sender.tail1 % s.length != s.tail then s.(sender := Looking(s.sender.toSend, s.read_))
      else s.(sender := Decided(s.isMessageBuffer, s.sender.toSend,
                                SpacesAvailable(s.length, s.head, s.sender.tail2 % s.length)))
    case Put =>
      var c := s.sender;
      var at := PutIndex(s.length, s.head, c.header, c.data, c.done);
      if at >= s.length then s
      else s.(buffer := s.buffer[at := (c.header + c.data)[c.done]], sender := c.(done := c.done + 1))
    case Publish =>
      var c := s.sender;
      if c.data == [] then s.(sender := Resting)
      else
        s.(head := NextIndex(s.length, DataStart(s.length, s.head, |c.header|), |c.data|),
           written := s.written + |c.header + c.data|,
           stream := s.stream + (c.header + c.data),
           sent := s.sent + [c.data],
           sender := Resting)
    case Begin(room, peek) =>
      s.(receiver := Begun(s.isMessageBuffer, BytesInBuffer(s.length, s.head, s.tail), |s.sent|, room, peek))
    case Get =>
      var at := GetIndex(s.length, s.tail, s.receiver);
      if at >= s.length then s
      else s.(receiver := Append(s.receiver, s.buffer[at]))
    case Finish =>
      match s.receiver
      case Waiting => s
      case Measuring(available, _, room, peek, got) =>
        if peek then s.(reported := s.reported + [LengthOf(got)], receiver := Waiting)
        else s.(receiver := Measured(available, room, LengthOf(got)))
      case Fetching(skip, count, got) =>
        s.(tail := NextIndex(s.length, DataStart(s.length, s.tail, skip), count),
           read_ := s.read_ + skip + count,
           received := s.received + [got],
           receiver := Waiting)
  }

  // ----- the invariant -----

  /** Byte `i` of the stream, if not yet consumed, is in its place. */
  ghost predicate StoredAt(buffer: Bytes, length: nat, stream: Bytes, read_: nat, i: nat) {
    0 < length == |buffer| && read_ <= i < |stream| ==> buffer[i % length] == stream[i]
  }

  ghost predicate Stored(buffer: Bytes, length: nat, stream: Bytes, read_: nat) {
    forall i: nat :: StoredAt(buffer, length, stream, read_, i)
  }

  ghost predicate Counters(s: State) {
    && Shape(s)
    && Fits(s.length, s.written, s.read_)
    && s.head == s.written % s.length && s.tail == s.read_ % s.length
    && |s.stream| == s.written
  }

  /** Byte `j` of what the sender is copying is in its place. */
  ghost predicate PutAt(buffer: Bytes, length: nat, written: nat, bytes: Bytes, done: nat, j: nat) {
    0 < length == |buffer| && j < done <= |bytes| ==> buffer[(written + j) % length] == bytes[j]
  }

  ghost predicate AllPut(buffer: Bytes, length: nat, written: nat, bytes: Bytes, done: nat) {
    forall j: nat :: PutAt(buffer, length, written, bytes, done, j)
  }

  /** What the sender has still to publish fits into the free space. */
  ghost predicate SenderOk(length: nat, isMessageBuffer: bool, written: nat, read_: nat, sender: Sender) {
    match sender
    case Resting => true
    case Looking(toSend, tail1) => |toSend| + LENGTH_BYTES < WORD && Fits(length, written, tail1) && tail1 <= read_
    case Summing(toSend, tail1, tail2) =>
      && |toSend| + LENGTH_BYTES < WORD
      && Fits(length, written, tail1) && Fits(length, written, tail2) && tail1 <= tail2 <= read_
    case Copying(header, data, done) =>
      && |data| < WORD
      && header == (if isMessageBuffer then LengthBytes(|data|) else [])
      && done <= |header| + |data|
      && written + |header| + |data| < read_ + length
      && (!isMessageBuffer ==> data != [])
  }

  /** What the receiver has got is what was sent, from the consumed bytes on. */
  ghost predicate ReceiverOk(isMessageBuffer: bool, read_: nat, stream: Bytes, sent: seq<Bytes>, received: nat, receiver: Receiver) {
    match receiver
    case Waiting => true
    case Measuring(available, upTo, _, _, got) =>
      && isMessageBuffer
      && received < upTo <= |sent|
      && read_ + available == |Frames(sent[..upTo])| <= |stream|
      && |got| <= LENGTH_BYTES < available
      && got == stream[read_..read_ + |got|]
    case Fetching(skip, count, got) =>
      && 0 < count && read_ + skip + count <= |stream| && |got| <= count
      && skip == (if isMessageBuffer then LENGTH_BYTES else 0)
      && (isMessageBuffer ==> received < |sent| && count == |sent[received]|)
      && got == stream[read_ + skip..read_ + skip + |got|]
  }

  /** The stream is made of what was sent, and what was received is its consumed part. */
  ghost predicate History(isMessageBuffer: bool, read_: nat, stream: Bytes, sent: seq<Bytes>, received: seq<Bytes>) {
    && read_ <= |stream|
    && if isMessageBuffer then
         && stream == Frames(sent)
         && (forall i :: 0 <= i < |sent| ==> 0 < |sent[i]| < WORD)
         && |received| <= |sent| && received == sent[..|received|]
         && read_ == |Frames(received)|
       else
         stream == Joined(sent) && stream[..read_] == Joined(received)
  }

  ghost predicate SenderPut(s: State) {
    s.sender.Copying? ==> AllPut(s.buffer, s.length, s.written, s.sender.header + s.sender.data, s.sender.done)
  }

  ghost predicate Inv(s: State) {
    && Counters(s)
    && Stored(s.buffer, s.length, s.stream, s.read_)
    && SenderOk(s.length, s.isMessageBuffer, s.written, s.read_, s.sender)
    && SenderPut(s)
    && ReceiverOk(s.isMessageBuffer, s.read_, s.stream, s.sent, |s.received|, s.receiver)
    && History(s.isMessageBuffer, s.read_, s.stream, s.sent, s.received)
  }

  // ----- where bytes go -----

  lemma DataStartIsExact(length: nat, from: nat, skip: nat)
    requires 0 < length && skip < length
    ensures from % length < length && DataStart(length, from % length, skip) == (from + skip) % length
  {
    NextIndexIsExact(length, from, skip);
  }

  lemma PutIndexIsExact(length: nat, written: nat, header: Bytes, data: Bytes, done: nat)
    requires 0 < length && |header| + |data| < length && done < |header| + |data|
    ensures written % length < length
    ensures PutIndex(length, written % length, header, data, done) == (written + done) % length
  {
    if done < |header| {
      CopyIndexIsExact(length, written, |header|, done);
    } else {
      DataStartIsExact(length, written, |header|);
      CopyIndexIsExact(length, written + |header|, |data|, done - |header|);
    }
  }

  lemma NextOf(length: nat, from: nat, skip: nat, count: nat)
    requires 0 < length && skip + count < length
    ensures from % length < length
    ensures NextIndex(length, DataStart(length, from % length, skip), count) == (from + skip + count) % length
  {
    DataStartIsExact(length, from, skip);
    NextIndexIsExact(length, from + skip, count);
  }

  // ----- the sender's steps keep the invariant -----

  /** No byte that the receiver may read is overwritten, nor one just put. */
  lemma PutKeeps(s: State)
    requires Inv(s) && Enabled(s, Put)
    ensures Inv(Apply(s, Put))
  {
    var c := s.sender;
    var bytes := c.header + c.data;
    var at := (s.written + c.done) % s.length;
    PutIndexIsExact(s.length, s.written, c.header, c.data, c.done);
    var buffer' := s.buffer[at := bytes[c.done]];
    PutKeepsStored(s.buffer, s.length, s.stream, s.read_, s.written + c.done, bytes[c.done]);
    PutKeepsPut(s.buffer, s.length, s.written, bytes, c.done);
  }

  lemma PutKeepsStored(buffer: Bytes, length: nat, stream: Bytes, read_: nat, place: nat, b: Byte)
    requires 0 < length == |buffer| && Stored(buffer, length, stream, read_)
    requires |stream| <= place < read_ + length
    ensures place % length < |buffer| && Stored(buffer[place % length := b], length, stream, read_)
  {
    var at := place % length;
    var buffer' := buffer[at := b];
    forall i: nat
      ensures StoredAt(buffer', length, stream, read_, i)
    {
      assert StoredAt(buffer, length, stream, read_, i);
      if read_ <= i < |stream| {
        ApartInRing(length, i, place);
      }
    }
  }

  lemma PutKeepsPut(buffer: Bytes, length: nat, written: nat, bytes: Bytes, done: nat)
    requires 0 < length == |buffer| && AllPut(buffer, length, written, bytes, done)
    requires done < |bytes| < length
    ensures (written + done) % length < |buffer|
    ensures AllPut(buffer[(written + done) % length := bytes[done]], length, written, bytes, done + 1)
  {
    var at := (written + done) % length;
    var buffer', done' := buffer[at := bytes[done]], done + 1;
    forall j: nat
      ensures PutAt(buffer', length, written, bytes, done', j)
    {
      assert PutAt(buffer, length, written, bytes, done, j);
      if j < done {
        ApartInRing(length, written + j, written + done);
      }
    }
  }

  lemma LookKeeps(s: State, e: Event)
    requires Inv(s) && Enabled(s, e) && (e.Look? || e.Sum?)
    ensures Inv(Apply(s, e))
  {
  }

  /** The space that the sender measured is there, whatever the receiver has consumed since. */
  lemma DecideKeeps(s: State)
    requires Inv(s) && Enabled(s, Decide)
    ensures Inv(Apply(s, Decide))
  {
    SpacesAreExact(s.length, s.written, s.sender.tail2);
    var r := Apply(s, Decide).sender;
    if r.Copying? {
      assert AllPut(s.buffer, s.length, s.written, r.header + r.data, 0);
    }
  }

  lemma PublishedStored(buffer: Bytes, length: nat, stream: Bytes, read_: nat, bytes: Bytes)
    requires 0 < length == |buffer| && Stored(buffer, length, stream, read_)
    requires AllPut(buffer, length, |stream|, bytes, |bytes|)
    ensures Stored(buffer, length, stream + bytes, read_)
  {
    var stream' := stream + bytes;
    forall i: nat
      ensures StoredAt(buffer, length, stream', read_, i)
    {
      assert StoredAt(buffer, length, stream, read_, i);
      if |stream| <= i {
        var j := i - |stream|;
        assert PutAt(buffer, length, |stream|, bytes, |bytes|, j);
      }
    }
  }

  lemma PublishedReceiver(isMessageBuffer: bool, read_: nat, stream: Bytes, sent: seq<Bytes>, received: nat, receiver: Receiver,
                          bytes: Bytes, data: Bytes)
    requires ReceiverOk(isMessageBuffer, read_, stream, sent, received, receiver)
    ensures ReceiverOk(isMessageBuffer, read_, stream + bytes, sent + [data], received, receiver)
  {
    match receiver
    case Waiting =>
    case Measuring(_, upTo, _, _, got) =>
      assert (sent + [data])[..upTo] == sent[..upTo];
      assert (stream + bytes)[read_..read_ + |got|] == stream[read_..read_ + |got|];
    case Fetching(skip, _, got) =>
      assert (stream + bytes)[read_ + skip..read_ + skip + |got|] == stream[read_ + skip..read_ + skip + |got|];
  }

  lemma PublishedHistory(isMessageBuffer: bool, read_: nat, stream: Bytes, sent: seq<Bytes>, received: seq<Bytes>, data: Bytes)
    requires History(isMessageBuffer, read_, stream, sent, received) && 0 < |data| < WORD
    ensures History(isMessageBuffer, read_, stream + (if isMessageBuffer then Frame(data) else data), sent + [data], received)
  {
    FramesAppend(sent, data);
    JoinedAppend(sent, data);
    if isMessageBuffer {
      assert (sent + [data])[..|received|] == sent[..|received|];
    } else {
      assert (stream + data)[..read_] == stream[..read_];
    }
  }

  lemma PublishKeeps(s: State)
    requires Inv(s) && Enabled(s, Publish)
    ensures Inv(Apply(s, Publish))
  {
    var c := s.sender;
    var bytes := c.header + c.data;
    if c.data != [] {
      assert [] + c.data == c.data;
      PublishedStored(s.buffer, s.length, s.stream, s.read_, bytes);
      PublishedReceiver(s.isMessageBuffer, s.read_, s.stream, s.sent, |s.received|, s.receiver, bytes, c.data);
      PublishedHistory(s.isMessageBuffer, s.read_, s.stream, s.sent, s.received, c.data);
      NextOf(s.length, s.written, |c.header|, |c.data|);
    }
  }

  // ----- the receiver's steps keep the invariant -----

  lemma BeginKeeps(s: State, room: nat, peek: bool)
    requires Inv(s) && Enabled(s, Begin(room, peek))
    ensures Inv(Apply(s, Begin(room, peek)))
  {
    BytesAreExact(s.length, s.written, s.read_);
    assert s.sent[..|s.sent|] == s.sent;
  }

  /** How far behind the consumed bytes the receiver reads next. */
  function Offset(r: Receiver): nat {
    match r
    case Waiting => 0
    case Measuring(_, _, _, _, got) => |got|
    case Fetching(skip, _, got) => skip + |got|
  }

  lemma GetIndexIsExact(s: State)
    requires Inv(s) && Enabled(s, Get)
    ensures s.tail < s.length && s.read_ + Offset(s.receiver) < |s.stream|
    ensures GetIndex(s.length, s.tail, s.receiver) == (s.read_ + Offset(s.receiver)) % s.length
  {
    match s.receiver
    case Measuring(_, _, _, _, got) => CopyIndexIsExact(s.length, s.read_, LENGTH_BYTES, |got|);
    case Fetching(skip, count, got) =>
      DataStartIsExact(s.length, s.read_, skip);
      CopyIndexIsExact(s.length, s.read_ + skip, count, |got|);
  }

  lemma GotOneMore(isMessageBuffer: bool, read_: nat, stream: Bytes, sent: seq<Bytes>, received: nat, r: Receiver, i: nat)
    requires ReceiverOk(isMessageBuffer, read_, stream, sent, received, r) && !r.Waiting?
    requires i == read_ + Offset(r) < |stream|
    requires |r.got| < if r.Fetching? then r.count else LENGTH_BYTES
    ensures ReceiverOk(isMessageBuffer, read_, stream, sent, received, Append(r, stream[i]))
  {
    OneMoreByte(stream, i - |r.got|, i, r.got);
  }

  lemma OneMoreByte(stream: Bytes, from: nat, i: nat, got: Bytes)
    requires from <= i < |stream| && got == stream[from..i]
    ensures got + [stream[i]] == stream[from..from + |got + [stream[i]]|]
  {
  }

  lemma GetKeeps(s: State)
    requires Inv(s) && Enabled(s, Get)
    ensures Inv(Apply(s, Get))
  {
    var i := s.read_ + Offset(s.receiver);
    GetIndexIsExact(s);
    assert StoredAt(s.buffer, s.length, s.stream, s.read_, i);
    assert Apply(s, Get) == s.(receiver := Append(s.receiver, s.stream[i]));
    GotOneMore(s.isMessageBuffer, s.read_, s.stream, s.sent, |s.received|, s.receiver, i);
  }

  lemma HeaderOfNext(sent: seq<Bytes>, k: nat, upTo: nat)
    requires k < upTo <= |sent|
    ensures var at := |Frames(sent[..k])|;
            && at + LENGTH_BYTES + |sent[k]| <= |Frames(sent[..upTo])| <= |Frames(sent)|
            && Frames(sent)[at..at + LENGTH_BYTES] == LengthBytes(|sent[k]|)
  {
    var at := |Frames(sent[..k])|;
    NextFrame(sent, k);
    FramesPrefix(sent, upTo);
    FramesPrefix(sent[..upTo], k + 1);
    assert sent[..upTo][..k + 1] == sent[..k + 1];
    assert Frames(sent)[at..at + LENGTH_BYTES] == Frames(sent)[at..at + |Frame(sent[k])|][..LENGTH_BYTES];
  }

  /** The length that the receiver reads is that of the first message not yet received. */
  lemma MeasuresNextMessage(s: State)
    requires Inv(s) && s.receiver.Measuring? && |s.receiver.got| == LENGTH_BYTES
    ensures |s.received| < |s.sent| && LengthOf(s.receiver.got) == |s.sent[|s.received|]|
    ensures s.receiver.available >= LENGTH_BYTES + |s.sent[|s.received|]|
  {
    HeaderOfNext(s.sent, |s.received|, s.receiver.upTo);
    LengthRoundTrip(|s.sent[|s.received|]|);
  }

  lemma FinishMeasuringKeeps(s: State)
    requires Inv(s) && Enabled(s, Finish) && s.receiver.Measuring?
    ensures Inv(Apply(s, Finish))
  {
    MeasuresNextMessage(s);
  }

  lemma ConsumedStored(buffer: Bytes, length: nat, stream: Bytes, read_: nat, read': nat)
    requires Stored(buffer, length, stream, read_) && read_ <= read'
    ensures Stored(buffer, length, stream, read')
  {
    forall i: nat
      ensures StoredAt(buffer, length, stream, read', i)
    {
      assert StoredAt(buffer, length, stream, read_, i);
    }
  }

  lemma ConsumedHistory(isMessageBuffer: bool, read_: nat, stream: Bytes, sent: seq<Bytes>, received: seq<Bytes>, r: Receiver)
    requires History(isMessageBuffer, read_, stream, sent, received)
    requires r.Fetching? && |r.got| == r.count && ReceiverOk(isMessageBuffer, read_, stream, sent, |received|, r)
    ensures History(isMessageBuffer, read_ + r.skip + r.count, stream, sent, received + [r.got])
  {
    if isMessageBuffer {
      ConsumedMessage(read_, stream, sent, received, r);
    } else {
      JoinedAppend(received, r.got);
      assert stream[..read_ + r.count] == stream[..read_] + stream[read_..read_ + r.count];
    }
  }

  /** A received message is the one that was sent, whole and unchanged. */
  lemma ConsumedMessage(read_: nat, stream: Bytes, sent: seq<Bytes>, received: seq<Bytes>, r: Receiver)
    requires History(true, read_, stream, sent, received)
    requires r.Fetching? && |r.got| == r.count && ReceiverOk(true, read_, stream, sent, |received|, r)
    ensures r.got == sent[|received|]
    ensures History(true, read_ + r.skip + r.count, stream, sent, received + [r.got])
  {
    var k := |received|;
    var m := sent[k];
    NextFrame(sent, k);
    assert stream[read_..read_ + LENGTH_BYTES + |m|] == Frame(m);
    assert Frame(m)[LENGTH_BYTES..] == m;
    assert stream[read_..read_ + LENGTH_BYTES + |m|][LENGTH_BYTES..] == stream[read_ + LENGTH_BYTES..read_ + LENGTH_BYTES + |m|];
    FramesAppend(received, m);
    assert received + [m] == sent[..k + 1];
  }

  lemma FinishFetchingKeeps(s: State)
    requires Inv(s) && Enabled(s, Finish) && s.receiver.Fetching?
    ensures Inv(Apply(s, Finish))
  {
    var r := s.receiver;
    ConsumedStored(s.buffer, s.length, s.stream, s.read_, s.read_ + r.skip + r.count);
    ConsumedHistory(s.isMessageBuffer, s.read_, s.stream, s.sent, s.received, r);
    NextOf(s.length, s.read_, r.skip, r.count);
  }

  lemma StepKeeps(s: State, e: Event)
    requires Inv(s) && Enabled(s, e)
    ensures Inv(Apply(s, e))
  {
    match e
    case Look(_) => LookKeeps(s, e);
    case Sum => LookKeeps(s, e);
    case Decide => DecideKeeps(s);
    case Put => PutKeeps(s);
    case Publish => PublishKeeps(s);
    case Begin(room, peek) => BeginKeeps(s, room, peek);
    case Get => GetKeeps(s);
    case Finish =>
      if s.receiver.Measuring? {
        FinishMeasuringKeeps(s);
      } else {
        FinishFetchingKeeps(s);
      }
  }

  // ----- whole runs -----

  ghost predicate Initial(s: State) {
    && ValidLength(s.length) && |s.buffer| == s.length
    && s.head == s.tail == s.written == s.read_ == 0
    && s.stream == [] && s.sent == [] && s.received == [] && s.reported == []
    && s.sender == Resting && s.receiver == Waiting
  }

  ghost predicate Step(s: State, e: Event, r: State) {
    Shape(s) && Enabled(s, e) && r == Apply(s, e)
  }

  ghost predicate StepAt(run: seq<State>, events: seq<Event>, i: nat) {
    i < |events| && i + 1 < |run| ==> Step(run[i], events[i], run[i + 1])
  }

  ghost predicate IsRun(run: seq<State>, events: seq<Event>) {
    && |run| == |events| + 1
    && Initial(run[0])
    && forall i: nat :: StepAt(run, events, i)
  }

  lemma {:induction false} RunKeeps(run: seq<State>, events: seq<Event>, k: nat)
    requires IsRun(run, events) && k < |run|
    ensures Inv(run[k])
  {
    if k == 0 {
      assert Stored(run[0].buffer, run[0].length, [], 0);
      assert 0 % run[0].length == 0;
    } else {
      RunKeeps(run, events, k - 1);
      assert StepAt(run, events, k - 1);
      StepKeeps(run[k - 1], events[k - 1]);
    }
  }
}
