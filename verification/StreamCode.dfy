/** The copying, sending and receiving code of FreeRTOS/Source/stream_buffer.c, run to completion. */
module StreamCode {
  import opened Shared
  import opened RingIndex
  import opened StreamFrames
  import opened StreamProtocol

  /** The place of byte `i`, if it lies less than one turn before the copied bytes, is untouched. */
  ghost predicate UntouchedAt(before: Bytes, after: Bytes, length: nat, from: nat, count: nat, i: nat) {
    0 < length == |before| == |after| && i < from && from + count <= i + length ==> after[i % length] == before[i % length]
  }

  /** Two chunks: up to the end of the buffer, and the rest from its start. */
  ghost predicate InTwoChunks(before: Bytes, after: Bytes, start: nat, data: Bytes) {
    && |before| == |after| && start < |before| && |data| < |before|
    && var first := Min(|before| - start, |data|);
       && (forall k :: start <= k < start + first ==> after[k] == data[k - start])
       && (forall k :: 0 <= k < |data| - first ==> after[k] == data[first + k])
       && (forall k :: |data| - first <= k < start ==> after[k] == before[k])
       && (forall k :: start + first <= k < |before| ==> after[k] == before[k])
  }

  lemma ChunksPut(before: Bytes, after: Bytes, from: nat, data: Bytes, j: nat)
    requires |before| > 0 && InTwoChunks(before, after, from % |before|, data)
    ensures PutAt(after, |before|, from, data, |data|, j)
  {
    if j < |data| {
      CopyIndexIsExact(|before|, from, |data|, j);
    }
  }

  lemma ChunksLeaveAlone(before: Bytes, after: Bytes, from: nat, data: Bytes, i: nat)
    requires |before| > 0 && InTwoChunks(before, after, from % |before|, data)
    ensures UntouchedAt(before, after, |before|, from, |data|, i)
  {
    var length, start := |before|, from % |before|;
    var first := Min(length - start, |data|);
    var k := i % length;
    if i < from && from + |data| <= i + length {
      if start <= k < start + first {
        NotCopied(length, from, |data|, i, k - start);
      } else if k < |data| - first {
        NotCopied(length, from, |data|, i, first + k);
      }
    }
  }

  lemma NotCopied(length: nat, from: nat, count: nat, i: nat, j: nat)
    requires 0 < length && j < count <= length && i < from && from + count <= i + length
    ensures from % length < length && CopyIndex(length, from % length, count, j) != i % length
  {
    CopyIndexIsExact(length, from, count, j);
    ApartInRing(length, i, from + j);
  }

  /** The bytes at places `from` to `from + count` round the ring. */
  function Around(buffer: Bytes, from: nat, count: nat): Bytes
    requires |buffer| > 0
  {
    seq(count, j requires 0 <= j => buffer[(from + j) % |buffer|])
  }

  lemma ChunksReadAt(buffer: Bytes, start: nat, from: nat, count: nat, j: nat)
    requires |buffer| > 0 && count < |buffer| && start == from % |buffer| && j < count
    ensures 0 <= start < |buffer|
    ensures var first := Min(|buffer| - start, count);
            (if j < first then buffer[start + j] else buffer[j - first]) == Around(buffer, from, count)[j]
  {
    CopyIndexIsExact(|buffer|, from, count, j);
  }

  lemma ChunksRead(buffer: Bytes, start: nat, from: nat, count: nat)
    requires |buffer| > 0 && count < |buffer| && start == from % |buffer| && start < |buffer|
    ensures var first := Min(|buffer| - start, count);
            buffer[start..start + first] + buffer[..count - first] == Around(buffer, from, count)
  {
    var first := Min(|buffer| - start, count);
    var one, two, all := buffer[start..start + first], buffer[..count - first], Around(buffer, from, count);
    forall j | 0 <= j < count
      ensures (one + two)[j] == all[j]
    {
      ChunksReadAt(buffer, start, from, count, j);
    }
  }

  /** What is stored round the ring is the stream. */
  lemma AroundIsStream(buffer: Bytes, length: nat, stream: Bytes, read_: nat, from: nat, count: nat)
    requires 0 < length == |buffer| && Stored(buffer, length, stream, read_)
    requires read_ <= from && from + count <= |stream|
    ensures Around(buffer, from, count) == stream[from..from + count]
  {
    forall j | 0 <= j < count
      ensures Around(buffer, from, count)[j] == stream[from..from + count][j]
    {
      assert StoredAt(buffer, length, stream, read_, from + j);
    }
  }

  lemma CopyKeepsStored(before: Bytes, after: Bytes, length: nat, stream: Bytes, read_: nat, from: nat, count: nat)
    requires 0 < length == |before| == |after| && Stored(before, length, stream, read_)
    requires forall i: nat :: UntouchedAt(before, after, length, from, count, i)
    requires |stream| <= from && from + count <= read_ + length
    ensures Stored(after, length, stream, read_)
  {
    forall i: nat
      ensures StoredAt(after, length, stream, read_, i)
    {
      assert StoredAt(before, length, stream, read_, i);
      assert UntouchedAt(before, after, length, from, count, i);
    }
  }

  /** Bytes copied just before the ones being copied stay in place. */
  lemma CopyKeepsPut(before: Bytes, after: Bytes, length: nat, written: nat, bytes: Bytes, from: nat, count: nat)
    requires 0 < length == |before| == |after| && AllPut(before, length, written, bytes, |bytes|)
    requires forall i: nat :: UntouchedAt(before, after, length, from, count, i)
    requires from == written + |bytes| && |bytes| + count <= length
    ensures AllPut(after, length, written, bytes, |bytes|)
  {
    forall j: nat
      ensures PutAt(after, length, written, bytes, |bytes|, j)
    {
      assert PutAt(before, length, written, bytes, |bytes|, j);
      var i := written + j;
      assert UntouchedAt(before, after, length, from, count, i);
    }
  }

  lemma PutBoth(buffer: Bytes, length: nat, written: nat, header: Bytes, data: Bytes)
    requires 0 < length == |buffer|
    requires AllPut(buffer, length, written, header, |header|)
    requires AllPut(buffer, length, written + |header|, data, |data|)
    ensures AllPut(buffer, length, written, header + data, |header + data|)
  {
    var bytes, n, from := header + data, |header + data|, written + |header|;
    forall j: nat
      ensures PutAt(buffer, length, written, bytes, n, j)
    {
      assert PutAt(buffer, length, written, header, |header|, j);
      if |header| <= j {
        var i := j - |header|;
        assert PutAt(buffer, length, from, data, |data|, i);
      }
    }
  }

  // ----- receiving -----

  /** What a receive returns, and what it leaves in the buffer. */
  datatype Fetched = Fetched(data: Bytes, rest: Bytes)

  function Fetch(isMessageBuffer: bool, contents: Bytes, room: nat): Fetched {
    if isMessageBuffer then
      if |contents| <= LENGTH_BYTES then Fetched([], contents)
      else
        var n := LengthOf(contents[..LENGTH_BYTES]);
        var count := Min(if n > room then 0 else n, |contents| - LENGTH_BYTES);
        if count == 0 then Fetched([], contents)
        else Fetched(contents[LENGTH_BYTES..LENGTH_BYTES + count], contents[LENGTH_BYTES + count..])
    else
      var count := Min(room, |contents|);
      Fetched(contents[..count], contents[count..])
  }

  /** The first message in the buffer comes out whole, or not at all when the caller's buffer is too small. */
  lemma FetchesFirstMessage(m: Bytes, rest: Bytes, room: nat)
    requires 0 < |m| < WORD
    ensures Fetch(true, Frame(m) + rest, room) == if |m| <= room then Fetched(m, rest) else Fetched([], Frame(m) + rest)
    ensures LengthOf((Frame(m) + rest)[..LENGTH_BYTES]) == |m|
  {
    var contents := Frame(m) + rest;
    LengthRoundTrip(|m|);
    assert contents[..LENGTH_BYTES] == LengthBytes(|m|);
    assert contents[LENGTH_BYTES..LENGTH_BYTES + |m|] == m;
    assert contents[LENGTH_BYTES + |m|..] == rest;
  }

  /** Receiving `n` times with enough room. */
  function FetchAll(contents: Bytes, room: nat, n: nat): seq<Bytes> {
    if n == 0 then []
    else
      var f := Fetch(true, contents, room);
      [f.data] + FetchAll(f.rest, room, n - 1)
  }

  lemma {:induction false} FramesFromFront(messages: seq<Bytes>)
    requires messages != []
    ensures Frames(messages) == Frame(messages[0]) + Frames(messages[1..])
  {
    var n := |messages|;
    if n > 1 {
      FramesFromFront(messages[..n - 1]);
      assert messages[..n - 1][1..] == messages[1..][..n - 2];
    } else {
      assert messages[..0] == [] && messages[1..] == [];
    }
  }

  /** Messages sent come out again: whole, unchanged, once and in order. */
  lemma {:induction false} MessageRoundTrip(messages: seq<Bytes>, room: nat)
    requires forall i :: 0 <= i < |messages| ==> 0 < |messages[i]| <= room && |messages[i]| < WORD
    ensures FetchAll(Frames(messages), room, |messages|) == messages
  {
    if messages != [] {
      FramesFromFront(messages);
      FetchesFirstMessage(messages[0], Frames(messages[1..]), room);
      MessageRoundTrip(messages[1..], room);
      assert messages == [messages[0]] + messages[1..];
    }
  }

  class StreamBuffer {
    const isMessageBuffer: bool
    const buffer: array<Byte>
    var head: nat
    var tail: nat

    ghost var written: nat
    ghost var read_: nat
    ghost var stream: Bytes     // all bytes ever published

    ghost predicate Valid()
      reads this, buffer
    {
      && ValidLength(buffer.Length)
      && Fits(buffer.Length, written, read_)
      && head == written % buffer.Length && tail == read_ % buffer.Length
      && |stream| == written
      && Stored(buffer[..], buffer.Length, stream, read_)
    }

    /** The bytes in the buffer. */
    ghost function Contents(): Bytes
      requires read_ <= |stream|
      reads this
    {
      stream[read_..]
    }

    constructor (length: nat, message: bool)
      requires ValidLength(length)
      ensures Valid() && fresh(buffer) && buffer.Length == length && isMessageBuffer == message && Contents() == []
    {
      isMessageBuffer := message;
      buffer := new Byte[length](i => 0);
      head, tail, written, read_, stream := 0, 0, 0, 0, [];
    }

    /** prvWriteBytesToBuffer. `from` is the unbounded count that `start` stands for. */
    method WriteBytes(data: Bytes, start: nat, ghost from: nat) returns (next: nat)
      requires buffer.Length > 0 && start == from % buffer.Length && 0 < |data| < buffer.Length
      modifies buffer
      ensures next == (from + |data|) % buffer.Length
      ensures AllPut(buffer[..], buffer.Length, from, data, |data|)
      ensures forall i: nat :: UntouchedAt(old(buffer[..]), buffer[..], buffer.Length, from, |data|, i)
    {
      var firstLength := Min(buffer.Length - start, |data|);
      forall k | 0 <= k < firstLength {
        buffer[start + k] := data[k];
      }
      if |data| > firstLength {
        forall k | 0 <= k < |data| - firstLength {
          buffer[k] := data[firstLength + k];
        }
      }
      NextIndexIsExact(buffer.Length, from, |data|);
      next := start + |data|;
      if next >= buffer.Length {
        next := next - buffer.Length;
      }
      ghost var before, after := old(buffer[..]), buffer[..];
      assert InTwoChunks(before, after, start, data);
      forall j: nat
        ensures PutAt(after, buffer.Length, from, data, |data|, j)
      {
        ChunksPut(before, after, from, data, j);
      }
      forall i: nat
        ensures UntouchedAt(before, after, buffer.Length, from, |data|, i)
      {
        ChunksLeaveAlone(before, after, from, data, i);
      }
    }

    /** prvReadBytesFromBuffer. */
    method ReadBytes(count: nat, start: nat, ghost from: nat) returns (data: Bytes, next: nat)
      requires buffer.Length > 0 && start == from % buffer.Length && 0 < count < buffer.Length
      ensures data == Around(buffer[..], from, count)
      ensures next == (from + count) % buffer.Length
    {
      var firstLength := Min(buffer.Length - start, count);
      data := buffer[start..start + firstLength];
      if count > firstLength {
        data := data + buffer[..count - firstLength];
      }
      ChunksRead(buffer[..], start, from, count);
      NextIndexIsExact(buffer.Length, from, count);
      next := start + count;
      if next >= buffer.Length {
        next := next - buffer.Length;
      }
    }

    /** xStreamBufferSpacesAvailable. */
    method Spaces() returns (space: nat)
      requires Valid()
      ensures space == buffer.Length - 1 - |Contents()|
    {
      SpacesAreExact(buffer.Length, written, read_);
      space := (buffer.Length + tail) % WORD;
      space := (space - head) % WORD;
      space := (space - 1) % WORD;
      if space >= buffer.Length {
        space := (space - buffer.Length) % WORD;
      }
    }

    /** prvBytesInBuffer. */
    method BytesAvailable() returns (count: nat)
      requires Valid()
      ensures count == |Contents()|
    {
      BytesAreExact(buffer.Length, written, read_);
      count := (buffer.Length + head) % WORD;
      count := (count - tail) % WORD;
      if count >= buffer.Length {
        count := (count - buffer.Length) % WORD;
      }
    }

    /** What prvWriteMessageToBuffer adds to the contents, and what it returns. */
    ghost function Accepted(data: Bytes, space: nat): Bytes {
      if isMessageBuffer then
        if space >= |data| + LENGTH_BYTES && data != [] then Frame(data) else []
      else data[..Min(|data|, space)]
    }

    /** The length of the message goes into free space; nothing is published yet. */
    method WriteHeader(header: Bytes) returns (next: nat)
      requires Valid() && 0 < |header| <= buffer.Length - 1 - |Contents()|
      modifies buffer
      ensures Valid() && next == (written + |header|) % buffer.Length
      ensures AllPut(buffer[..], buffer.Length, written, header, |header|)
    {
      next := WriteBytes(header, head, written);
      CopyKeepsStored(old(buffer[..]), buffer[..], buffer.Length, stream, read_, written, |header|);
    }

    /** The data goes behind the length, if any, and storing the new head publishes both. */
    method WriteData(ghost header: Bytes, data: Bytes, nextHead: nat)
      requires Valid() && 0 < |data| && |header| + |data| <= buffer.Length - 1 - |Contents()|
      requires nextHead == (written + |header|) % buffer.Length
      requires AllPut(buffer[..], buffer.Length, written, header, |header|)
      modifies buffer, this
      ensures Valid() && read_ == old(read_) && stream == old(stream) + (header + data)
    {
      head := WriteBytes(data, nextHead, written + |header|);
      CopyKeepsStored(old(buffer[..]), buffer[..], buffer.Length, stream, read_, written + |header|, |data|);
      CopyKeepsPut(old(buffer[..]), buffer[..], buffer.Length, written, header, written + |header|, |data|);
      PutBoth(buffer[..], buffer.Length, written, header, data);
      PublishedStored(buffer[..], buffer.Length, stream, read_, header + data);
      written, stream := written + |header + data|, stream + (header + data);
    }

    /** prvWriteMessageToBuffer, for a space that is there. */
    method WriteMessage(data: Bytes, space: nat) returns (n: nat)
      requires Valid() && space <= buffer.Length - 1 - |Contents()| && |data| + LENGTH_BYTES < WORD
      modifies buffer, this
      ensures Valid() && read_ == old(read_)
      ensures Contents() == old(Contents()) + Accepted(data, space)
      ensures n == if isMessageBuffer && space < |data| + LENGTH_BYTES then 0
                   else if isMessageBuffer then |data| else Min(|data|, space)
    {
      var nextHead := head;
      n := |data|;
      ghost var header: Bytes := [];
      if isMessageBuffer {
        if space >= |data| + LENGTH_BYTES {
          header := LengthBytes(|data|);
          nextHead := WriteHeader(LengthBytes(|data|));
        } else {
          n := 0;
        }
      } else {
        n := Min(|data|, space);
      }
      if n != 0 {
        WriteData(header, data[..n], nextHead);
        assert old(stream)[read_..] + (header + data[..n]) == (old(stream) + (header + data[..n]))[read_..];
      }
    }

    /** xStreamBufferSend with no block time, and xStreamBufferSendFromISR. */
    method Send(data: Bytes) returns (n: nat)
      requires Valid() && |data| + LENGTH_BYTES < WORD
      modifies buffer, this
      ensures Valid() && read_ == old(read_)
      ensures Contents() == old(Contents()) + Accepted(data, buffer.Length - 1 - |old(Contents())|)
      ensures isMessageBuffer && data != [] ==>
                if |old(Contents())| + LENGTH_BYTES + |data| < buffer.Length
                then n == |data| && Contents() == old(Contents()) + Frame(data)
                else n == 0 && Contents() == old(Contents())
      ensures !isMessageBuffer ==>
                n == Min(|data|, buffer.Length - 1 - |old(Contents())|) && Contents() == old(Contents()) + data[..n]
    {
      var space := Spaces();
      n := WriteMessage(data, space);
    }

    /** The data behind `skip` bytes is copied out, and storing the new tail consumes both. */
    method ReadData(skip: nat, count: nat, nextTail: nat) returns (data: Bytes)
      requires Valid() && 0 < count && skip + count <= |Contents()| && nextTail == (read_ + skip) % buffer.Length
      modifies this`tail, this`read_
      ensures Valid() && data == old(Contents())[skip..skip + count] && Contents() == old(Contents())[skip + count..]
    {
      data, tail := ReadBytes(count, nextTail, read_ + skip);
      AroundIsStream(buffer[..], buffer.Length, stream, read_, read_ + skip, count);
      ConsumedStored(buffer[..], buffer.Length, stream, read_, read_ + skip + count);
      read_ := read_ + skip + count;
    }

    /** The four bytes at the tail, which stay there. */
    method PeekLength() returns (n: nat, next: nat)
      requires Valid() && |Contents()| >= LENGTH_BYTES
      ensures n == LengthOf(Contents()[..LENGTH_BYTES]) && next == (read_ + LENGTH_BYTES) % buffer.Length
    {
      var header;
      header, next := ReadBytes(LENGTH_BYTES, tail, read_);
      AroundIsStream(buffer[..], buffer.Length, stream, read_, read_, LENGTH_BYTES);
      assert header == Contents()[..LENGTH_BYTES];
      n := LengthOf(header);
    }

    /** xStreamBufferReceive with no block time, and xStreamBufferReceiveFromISR. */
    method Receive(room: nat) returns (data: Bytes)
      requires Valid()
      modifies this`tail, this`read_
      ensures Valid()
      ensures Fetched(data, Contents()) == Fetch(isMessageBuffer, old(Contents()), room)
      ensures !isMessageBuffer ==>
                |data| == Min(room, |old(Contents())|) && data + Contents() == old(Contents())
    {
      data := [];
      var available := BytesAvailable();
      var skip := if isMessageBuffer then LENGTH_BYTES else 0;
      if available > skip {
        var nextTail := tail;
        var nextLength := room;
        if isMessageBuffer {
          nextLength, nextTail := PeekLength();
          available := available - LENGTH_BYTES;
          if nextLength > room {
            nextLength := 0;
          }
        }
        var count := Min(nextLength, available);
        if count != 0 {
          data := ReadData(skip, count, nextTail);
        }
      }
    }

    /** xStreamBufferNextMessageLengthBytes. */
    method NextMessageLength() returns (n: nat)
      requires Valid()
      ensures n == if isMessageBuffer && |Contents()| > LENGTH_BYTES then LengthOf(Contents()[..LENGTH_BYTES]) else 0
    {
      n := 0;
      if isMessageBuffer {
        var available := BytesAvailable();
        if available > LENGTH_BYTES {
          var next;
          n, next := PeekLength();
        }
      }
    }
  }
}
