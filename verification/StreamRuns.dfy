/**
  What a stream or message buffer promises its callers (FreeRTOS/Source/stream_buffer.c), in
  every interleaving of the sender and the receiver of StreamProtocol.
 */
module StreamRuns {
  import opened Shared
  import opened RingIndex
  import opened StreamFrames
  import opened StreamProtocol
  import Modular

  // ----- what the caller asked for and what arrives -----

  /** The free bytes, in unbounded counts. */
  function Room(s: State): int {
    s.length - 1 - (s.written - s.read_)
  }

  function Unread(s: State): nat {
    if s.read_ < s.written then s.written - s.read_ else 0
  }

  /** What a send of `x` puts in: a message whole or not at all, of a stream as much as there is room for. */
  function Accepts(isMessageBuffer: bool, x: Bytes, room: int): Bytes {
    if isMessageBuffer then if |x| + LENGTH_BYTES <= room then x else []
    else if |x| <= room then x
    else if room <= 0 then [] else x[..room]
  }

  /** The bytes passed to the last send that began before event `k`. */
  ghost function LastCall(events: seq<Event>, k: nat): Bytes
    requires k <= |events|
  {
    if k == 0 then [] else if events[k - 1].Look? then events[k - 1].toSend else LastCall(events, k - 1)
  }

  /** The sender has read xTail twice without a change, so that the space it adds up is the space there is. */
  ghost predicate Settled(s: State) {
    s.sender.Summing? && s.sender.tail1 == s.read_
  }

  /** What the sends decided before event `k` put in, judged by what their callers passed and the room there was. */
  ghost function Accepted(run: seq<State>, events: seq<Event>, k: nat): seq<Bytes>
    requires k <= |events| < |run|
  {
    if k == 0 then []
    else
      var s := run[k - 1];
      var data := Accepts(s.isMessageBuffer, LastCall(events, k - 1), Room(s));
      if events[k - 1].Decide? && Settled(s) && data != [] then Accepted(run, events, k - 1) + [data]
      else Accepted(run, events, k - 1)
  }

  /** What has been accepted and not yet published. */
  function InHand(sender: Sender): seq<Bytes> {
    if sender.Copying? && sender.data != [] then [sender.data] else []
  }

  /** The sender works on what its caller passed. */
  predicate WorksOn(sender: Sender, x: Bytes) {
    sender.Looking? || sender.Summing? ==> sender.toSend == x
  }

  /** The tail that was read first, compared modulo the length, is the tail of now only if nothing was consumed. */
  lemma SameTailIsNoChange(s: State)
    requires Inv(s) && s.sender.Summing?
    ensures s.sender.tail1 % s.length == s.tail <==> s.sender.tail1 == s.read_
    ensures s.sender.tail1 == s.read_ ==> s.sender.tail2 == s.read_
  {
    if s.sender.tail1 < s.read_ {
      Modular.ModDistinct(s.sender.tail1, s.read_, s.length);
    }
  }

  /** A sender that has settled takes exactly what `Accepts` says; any other looks again. */
  lemma DecideAccepts(s: State)
    requires Inv(s) && Enabled(s, Decide)
    ensures var r, x := Apply(s, Decide), s.sender.toSend;
            if Settled(s) then
              && !r.sender.Looking? && !r.sender.Summing? && (r.sender.Copying? ==> r.sender.done == 0)
              && InHand(r.sender) == (var data := Accepts(s.isMessageBuffer, x, Room(s)); if data == [] then [] else [data])
            else r.sender == Looking(x, s.read_)
  {
    SameTailIsNoChange(s);
    if Settled(s) {
      assert SpacesAvailable(s.length, s.head, s.sender.tail2 % s.length) == Room(s) by {
        SpacesAreExact(s.length, s.written, s.sender.tail2);
      }
      DecidedAccepts(s.isMessageBuffer, s.sender.toSend, Room(s));
    }
  }

  lemma DecidedAccepts(isMessageBuffer: bool, x: Bytes, room: nat)
    ensures var r, data := Decided(isMessageBuffer, x, room), Accepts(isMessageBuffer, x, room);
            && !r.Looking? && !r.Summing? && (r.Copying? ==> r.done == 0)
            && InHand(r) == if data == [] then [] else [data]
  {
    assert x[..|x|] == x;
  }

  lemma StepAccepts(s: State, e: Event, x: Bytes)
    requires Inv(s) && Enabled(s, e) && WorksOn(s.sender, x)
    ensures WorksOn(Apply(s, e).sender, if e.Look? then e.toSend else x)
    ensures var data := Accepts(s.isMessageBuffer, x, Room(s));
            Apply(s, e).sent + InHand(Apply(s, e).sender) ==
            s.sent + InHand(s.sender) + if e.Decide? && Settled(s) && data != [] then [data] else []
  {
    if e.Decide? {
      DecideAccepts(s);
    }
  }

  /** What is published is what was accepted, but for the send in hand. */
  lemma {:induction false} AcceptedIsSent(run: seq<State>, events: seq<Event>, k: nat)
    requires IsRun(run, events) && k < |run|
    ensures Accepted(run, events, k) == run[k].sent + InHand(run[k].sender)
    ensures WorksOn(run[k].sender, LastCall(events, k))
  {
    if k > 0 {
      RunKeeps(run, events, k - 1);
      AcceptedIsSent(run, events, k - 1);
      assert StepAt(run, events, k - 1);
      StepAccepts(run[k - 1], events[k - 1], LastCall(events, k - 1));
    }
  }

  /**
    In every interleaving, the bytes received are a prefix of the bytes that the callers passed,
    as far as there was room, and with the sender at rest all of those have been published.
   */
  lemma ReceivedIsPrefix(run: seq<State>, events: seq<Event>, k: nat)
    requires IsRun(run, events) && k < |run| && !run[k].isMessageBuffer
    ensures Joined(run[k].received) <= Joined(run[k].sent)
    ensures run[k].sent <= Accepted(run, events, k)
    ensures run[k].sender.Resting? ==> run[k].sent == Accepted(run, events, k)
  {
    RunKeeps(run, events, k);
    AcceptedIsSent(run, events, k);
  }

  /**
    In every interleaving, the messages received are the first ones of those that were passed
    and had room: whole, unchanged, once, in order.
   */
  lemma MessagesArriveInOrder(run: seq<State>, events: seq<Event>, k: nat)
    requires IsRun(run, events) && k < |run| && run[k].isMessageBuffer
    ensures run[k].received <= run[k].sent <= Accepted(run, events, k)
    ensures run[k].sender.Resting? ==> run[k].sent == Accepted(run, events, k)
  {
    RunKeeps(run, events, k);
    AcceptedIsSent(run, events, k);
  }

  // ----- what a receive finds -----

  /**
    A receive or a look at the next length goes on exactly when a message is unread, or for a
    stream when a byte is, and then it is after as many bytes as the caller has room for.
   */
  lemma BeginFinds(run: seq<State>, events: seq<Event>, k: nat)
    requires IsRun(run, events) && k < |events| && events[k].Begin?
    ensures var s, r := run[k], run[k + 1];
            && r == s.(receiver := r.receiver)
            && (if s.isMessageBuffer then
                  if |s.received| == |s.sent| then r.receiver == Waiting
                  else r.receiver.Measuring? && r.receiver.room == events[k].room && r.receiver.peek == events[k].peek
                else
                  var n := Min(events[k].room, Unread(s));
                  r.receiver == if n == 0 || events[k].peek then Waiting else Fetching(0, n, []))
  {
    RunKeeps(run, events, k);
    assert StepAt(run, events, k);
    var s := run[k];
    BytesAreExact(s.length, s.written, s.read_);
    if s.isMessageBuffer {
      if |s.received| < |s.sent| {
        NextFrame(s.sent, |s.received|);
      } else {
        assert s.sent[..|s.received|] == s.sent;
      }
    }
  }

  /** The receive that began at event `a` is still fetching `n` bytes. */
  predicate StillFetching(was: State, s: State, n: nat) {
    s.receiver.Fetching? && s.receiver.skip == 0 && s.receiver.count == n
    && s.read_ == was.read_ && s.received == was.received && was.stream <= s.stream
    && s.isMessageBuffer == was.isMessageBuffer
  }

  lemma FetchingGoesOn(was: State, s: State, e: Event, r: State, n: nat)
    requires Step(s, e, r) && StillFetching(was, s, n) && !e.Finish?
    ensures StillFetching(was, r, n)
  {
  }

  lemma {:induction false} FetchesAllAlong(run: seq<State>, events: seq<Event>, a: nat, k: nat)
    requires IsRun(run, events) && a < k < |run| && !run[a].isMessageBuffer && events[a].Begin? && !events[a].peek
    requires Min(events[a].room, Unread(run[a])) > 0
    requires forall i :: a < i < k ==> !events[i].Finish?
    ensures StillFetching(run[a], run[k], Min(events[a].room, Unread(run[a])))
    decreases k
  {
    if k - 1 == a {
      BeginFinds(run, events, a);
    } else {
      FetchesAllAlong(run, events, a, k - 1);
      assert StepAt(run, events, k - 1);
      FetchingGoesOn(run[a], run[k - 1], events[k - 1], run[k], Min(events[a].room, Unread(run[a])));
    }
  }

  /** A receive from a message buffer that has fetched a message returns the first one not yet received. */
  lemma MessageReceiveReturns(run: seq<State>, events: seq<Event>, k: nat)
    requires IsRun(run, events) && k < |events| && events[k].Finish? && run[k].isMessageBuffer && run[k].receiver.Fetching?
    ensures |run[k].received| < |run[k].sent|
    ensures run[k + 1].received == run[k].received + [run[k].sent[|run[k].received|]] && run[k + 1].receiver == Waiting
  {
    RunKeeps(run, events, k);
    assert StepAt(run, events, k);
    ConsumedMessage(run[k].read_, run[k].stream, run[k].sent, run[k].received, run[k].receiver);
  }

  /** A receive from a stream returns the next bytes, as many as were there when it looked and as the caller has room for. */
  lemma StreamReceiveReturns(run: seq<State>, events: seq<Event>, a: nat, k: nat)
    requires IsRun(run, events) && a < k < |events| && !run[a].isMessageBuffer && events[a].Begin? && !events[a].peek
    requires forall i :: a < i < k ==> !events[i].Finish?
    requires Min(events[a].room, Unread(run[a])) > 0 && events[k].Finish?
    ensures var n := Min(events[a].room, Unread(run[a]));
            && run[a].read_ + n <= |run[a].stream|
            && run[k + 1].read_ == run[a].read_ + n
            && run[k + 1].received == run[a].received + [run[a].stream[run[a].read_..run[a].read_ + n]]
  {
    RunKeeps(run, events, a);
    RunKeeps(run, events, k);
    FetchesAllAlong(run, events, a, k);
    assert StepAt(run, events, k);
    var n := Min(events[a].room, Unread(run[a]));
    assert run[k].stream[run[a].read_..run[a].read_ + n] == run[a].stream[run[a].read_..run[a].read_ + n];
  }

  /** The place the sender is about to write holds no byte that the receiver may still read. */
  lemma SenderStaysClear(run: seq<State>, events: seq<Event>, k: nat, i: nat)
    requires IsRun(run, events) && k < |run| && Enabled(run[k], Put)
    requires run[k].read_ <= i < run[k].written
    ensures run[k].head < run[k].length
    ensures PutIndex(run[k].length, run[k].head, run[k].sender.header, run[k].sender.data, run[k].sender.done) != i % run[k].length
  {
    RunKeeps(run, events, k);
    var s := run[k];
    PutIndexIsExact(s.length, s.written, s.sender.header, s.sender.data, s.sender.done);
    ApartInRing(s.length, i, s.written + s.sender.done);
  }

  /** The place the receiver is about to read holds a byte that has been published and not yet consumed. */
  lemma ReceiverStaysClear(run: seq<State>, events: seq<Event>, k: nat)
    requires IsRun(run, events) && k < |run| && Enabled(run[k], Get)
    ensures run[k].tail < run[k].length
    ensures exists i :: run[k].read_ <= i < run[k].written && run[k].length > 0 &&
                        GetIndex(run[k].length, run[k].tail, run[k].receiver) == i % run[k].length
  {
    RunKeeps(run, events, k);
    GetIndexIsExact(run[k]);
  }

  /** With neither side at work, bytes and spaces add up to the length less one. */
  lemma AtRest(run: seq<State>, events: seq<Event>, k: nat)
    requires IsRun(run, events) && k < |run|
    ensures BytesInBuffer(run[k].length, run[k].head, run[k].tail)
            + SpacesAvailable(run[k].length, run[k].head, run[k].tail) == run[k].length - 1
    ensures BytesInBuffer(run[k].length, run[k].head, run[k].tail) == run[k].written - run[k].read_
  {
    RunKeeps(run, events, k);
    BytesAndSpaces(run[k].length, run[k].written, run[k].read_);
    BytesAreExact(run[k].length, run[k].written, run[k].read_);
  }

  /** The reported length is that of the first unread message, and reporting it changes nothing else. */
  lemma ReportsNextLength(run: seq<State>, events: seq<Event>, k: nat)
    requires IsRun(run, events) && k < |events| && events[k] == Finish
    requires run[k].receiver.Measuring? && run[k].receiver.peek
    ensures |run[k].received| < |run[k].sent|
    ensures run[k + 1] == run[k].(reported := run[k].reported + [|run[k].sent[|run[k].received|]|], receiver := Waiting)
  {
    RunKeeps(run, events, k);
    assert StepAt(run, events, k);
    MeasuresNextMessage(run[k]);
  }

  /** A receive with too small a buffer changes nothing; any other goes on to fetch the whole message. */
  lemma TooSmallChangesNothing(run: seq<State>, events: seq<Event>, k: nat)
    requires IsRun(run, events) && k < |events| && events[k] == Finish
    requires run[k].receiver.Measuring? && !run[k].receiver.peek
    ensures |run[k].received| < |run[k].sent|
    ensures var n := |run[k].sent[|run[k].received|]|;
            run[k + 1] == run[k].(receiver := if n > run[k].receiver.room then Waiting else Fetching(LENGTH_BYTES, n, []))
  {
    RunKeeps(run, events, k);
    assert StepAt(run, events, k);
    MeasuresNextMessage(run[k]);
  }

  /** The sender is at rest, or in a call with nothing to send. */
  predicate SendsNothing(sender: Sender) {
    match sender
    case Resting => true
    case Looking(toSend, _) => toSend == []
    case Summing(toSend, _, _) => toSend == []
    case Copying(_, data, _) => data == []
  }

  predicate SamePublished(s: State, r: State) {
    r.head == s.head && r.written == s.written && r.stream == s.stream && r.sent == s.sent
  }

  lemma NothingToPublish(s: State, e: Event, r: State)
    requires Step(s, e, r) && (if e.Look? then e.toSend == [] else SendsNothing(s.sender))
    ensures SendsNothing(r.sender) && SamePublished(s, r)
  {
  }

  /** From a call to send no bytes until the sender's next call, nothing is published, whatever the receiver does. */
  lemma {:induction false} EmptySendPublishesNothing(run: seq<State>, events: seq<Event>, a: nat, k: nat)
    requires IsRun(run, events) && a < k < |run| && events[a] == Look([])
    requires forall i :: a < i < k ==> !events[i].Look?
    ensures SendsNothing(run[k].sender) && SamePublished(run[a], run[k])
    decreases k
  {
    if a < k - 1 {
      EmptySendPublishesNothing(run, events, a, k - 1);
    }
    assert StepAt(run, events, k - 1);
    NothingToPublish(run[k - 1], events[k - 1], run[k]);
  }
}
