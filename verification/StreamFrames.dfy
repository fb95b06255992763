/** Message framing of FreeRTOS/Source/stream_buffer.c: each message is preceded by its length as a size_t. */
module StreamFrames {
  import opened Shared

  type Bytes = seq<Byte>

  const LENGTH_BYTES: nat := 4

  /** A size_t in memory, least significant byte first. */
  function LengthBytes(n: nat): (r: Bytes)
    ensures |r| == LENGTH_BYTES
  {
    [n % 256, n / 256 % 256, n / 65536 % 256, n / 16777216 % 256]
  }

  function LengthOf(b: Bytes): nat
    requires |b| == LENGTH_BYTES
  {
    b[0] as int + b[1] as int * 256 + b[2] as int * 65536 + b[3] as int * 16777216
  }

  lemma LengthRoundTrip(n: nat)
    requires n < WORD
    ensures LengthOf(LengthBytes(n)) == n
  {
    assert n / 65536 == n / 256 / 256;
    assert n / 16777216 == n / 256 / 256 / 256;
  }

  function Frame(m: Bytes): Bytes {
    LengthBytes(|m|) + m
  }

  /** What a run of messages looks like in the buffer. */
  function Frames(messages: seq<Bytes>): Bytes {
    if messages == [] then []
    else Frames(messages[..|messages| - 1]) + Frame(messages[|messages| - 1])
  }

  lemma FramesAppend(messages: seq<Bytes>, m: Bytes)
    ensures Frames(messages + [m]) == Frames(messages) + Frame(m)
  {
    assert (messages + [m])[..|messages|] == messages;
  }

  /** The frames of the first `n` messages are a prefix of the frames of all. */
  lemma {:induction false} FramesPrefix(messages: seq<Bytes>, n: nat)
    requires n <= |messages|
    ensures |Frames(messages[..n])| <= |Frames(messages)|
    ensures Frames(messages)[..|Frames(messages[..n])|] == Frames(messages[..n])
  {
    if n < |messages| {
      var init := messages[..|messages| - 1];
      FramesPrefix(init, n);
      assert init[..n] == messages[..n];
    } else {
      assert messages[..n] == messages;
    }
  }

  /** Behind the frames of the first `n` messages comes the frame of the next. */
  lemma NextFrame(messages: seq<Bytes>, n: nat)
    requires n < |messages|
    ensures var at := |Frames(messages[..n])|;
            && at + |Frame(messages[n])| == |Frames(messages[..n + 1])| <= |Frames(messages)|
            && Frames(messages)[at..at + |Frame(messages[n])|] == Frame(messages[n])
  {
    var upTo := messages[..n + 1];
    assert upTo == messages[..n] + [messages[n]];
    FramesAppend(messages[..n], messages[n]);
    FramesPrefix(messages, n + 1);
    var at := |Frames(messages[..n])|;
    assert Frames(messages)[at..at + |Frame(messages[n])|] == Frames(upTo)[at..];
  }

  function Joined(chunks: seq<Bytes>): Bytes {
    if chunks == [] then [] else Joined(chunks[..|chunks| - 1]) + chunks[|chunks| - 1]
  }

  lemma JoinedAppend(chunks: seq<Bytes>, c: Bytes)
    ensures Joined(chunks + [c]) == Joined(chunks) + c
  {
    assert (chunks + [c])[..|chunks|] == chunks;
  }
}
