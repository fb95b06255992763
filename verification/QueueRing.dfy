/**
  The ring storage of a queue, FreeRTOS/Source/queue.c: prvCopyDataToQueue,
  prvCopyDataFromQueue, and the copying done by send, receive and peek. Positions are item
  slots: pcWriteTo is the next slot to write at the back, pcReadFrom the slot last read.
 */
module QueueRing {
  import opened Shared
  import Modular

  datatype Position = ToBack | ToFront | Overwrite

  // ----- a bounded double-ended queue -----

  datatype Deque<T> = Deque(length: nat, items: seq<T>)

  datatype Op<T> = Send(item: T, position: Position) | Receive | Peek

  /** What an operation on a queue is promised to do to its items. */
  function Apply<T>(q: Deque<T>, op: Op<T>): Deque<T> {
    match op
    case Send(x, position) =>
      if position.Overwrite? then q.(items := [x])
      else if |q.items| >= q.length then q
      else if position.ToBack? then q.(items := q.items + [x])
      else q.(items := [x] + q.items)
    case Receive => if q.items == [] then q else q.(items := q.items[1..])
    case Peek => q
  }

  /** Whether it succeeds, and the item it hands out. */
  function Answer<T>(q: Deque<T>, op: Op<T>): Option<T> {
    match op
    case Send(x, position) => if |q.items| < q.length || position.Overwrite? then Some(x) else None
    case Receive => if q.items == [] then None else Some(q.items[0])
    case Peek => if q.items == [] then None else Some(q.items[0])
  }

  // ----- slots -----

  /**
    Item `k` of the queue lies `k` slots behind the next one to read, and behind the last item
    lies the slot to write next.
   */
  ghost predicate LiesAt<T>(slots: seq<T>, readFrom: nat, writeTo: nat, items: seq<T>, k: nat) {
    slots != [] ==>
      var at := (readFrom + 1 + k) % |slots|;
      (k < |items| ==> slots[at] == items[k]) && (k == |items| ==> writeTo == at)
  }

  ghost predicate Holds<T>(slots: seq<T>, readFrom: nat, writeTo: nat, items: seq<T>) {
    && |items| <= |slots| && readFrom < |slots| && writeTo < |slots|
    && forall k: nat :: LiesAt(slots, readFrom, writeTo, items, k)
  }

  function Forward(at: nat, length: nat): nat {
    if at + 1 >= length then 0 else at + 1
  }

  function Backward(at: nat, length: nat): nat
    requires length > 0
  {
    if at == 0 then length - 1 else at - 1
  }

  lemma ForwardIsExact(from: nat, length: nat)
    requires length > 0
    ensures Forward(from % length, length) == (from + 1) % length
  {
    if length == 1 {
      Modular.ModUnique(from + 1, from + 1, 0, 1);
    } else {
      Modular.ModAdd(from, 1, length);
    }
  }

  lemma BackwardIsExact(at: nat, length: nat)
    requires at < length
    ensures (Backward(at, length) + 1) % length == at
  {
    if at == 0 {
      Modular.ModUnique(length, 1, 0, length);
    } else {
      Modular.ModUnique(at, 0, at, length);
    }
  }

  /** Shifting the origin by one slot back. */
  lemma ShiftedBack(at: nat, length: nat, k: nat)
    requires at < length
    ensures (Backward(at, length) + 1 + (k + 1)) % length == (at + 1 + k) % length
  {
    if at == 0 {
      Modular.ModStep(at + 1 + k, length);
    }
  }

  lemma AppendHolds<T>(slots: seq<T>, readFrom: nat, writeTo: nat, items: seq<T>, x: T)
    requires Holds(slots, readFrom, writeTo, items) && |items| < |slots|
    ensures Holds(slots[writeTo := x], readFrom, Forward(writeTo, |slots|), items + [x])
  {
    var slots', items', next := slots[writeTo := x], items + [x], Forward(writeTo, |slots|);
    assert LiesAt(slots, readFrom, writeTo, items, |items|);
    ForwardIsExact(readFrom + 1 + |items|, |slots|);
    forall k: nat
      ensures LiesAt(slots', readFrom, next, items', k)
    {
      assert LiesAt(slots, readFrom, writeTo, items, k);
      if k < |items| {
        Modular.ModDistinct(readFrom + 1 + k, readFrom + 1 + |items|, |slots|);
      }
    }
  }

  lemma PrependHolds<T>(slots: seq<T>, readFrom: nat, writeTo: nat, items: seq<T>, x: T)
    requires Holds(slots, readFrom, writeTo, items) && |items| < |slots|
    ensures Holds(slots[readFrom := x], Backward(readFrom, |slots|), writeTo, [x] + items)
  {
    var slots', items', back := slots[readFrom := x], [x] + items, Backward(readFrom, |slots|);
    BackwardIsExact(readFrom, |slots|);
    forall k: nat
      ensures LiesAt(slots', back, writeTo, items', k)
    {
      if 0 < k <= |items'| {
        var j := k - 1;
        assert LiesAt(slots, readFrom, writeTo, items, j);
        ShiftedBack(readFrom, |slots|, j);
        if j < |items| {
          ReadSlotIsApart(readFrom, |slots|, j);
        }
      }
    }
  }

  /** The slot last read holds no item, unless the queue is full. */
  lemma ReadSlotIsApart(readFrom: nat, length: nat, j: nat)
    requires readFrom < length && j + 1 < length
    ensures (readFrom + 1 + j) % length != readFrom
  {
    Modular.ModDistinct(readFrom, readFrom + 1 + j, length);
    Modular.ModUnique(readFrom, 0, readFrom, length);
  }

  lemma RemoveHolds<T>(slots: seq<T>, readFrom: nat, writeTo: nat, items: seq<T>)
    requires Holds(slots, readFrom, writeTo, items) && items != []
    ensures Forward(readFrom, |slots|) < |slots| && slots[Forward(readFrom, |slots|)] == items[0]
    ensures Holds(slots, Forward(readFrom, |slots|), writeTo, items[1..])
  {
    var next, rest := Forward(readFrom, |slots|), items[1..];
    Modular.ModUnique(readFrom, 0, readFrom, |slots|);
    ForwardIsExact(readFrom, |slots|);
    assert LiesAt(slots, readFrom, writeTo, items, 0);
    assert Backward(next, |slots|) == readFrom;
    forall k: nat
      ensures LiesAt(slots, next, writeTo, rest, k)
    {
      var j := k + 1;
      assert LiesAt(slots, readFrom, writeTo, items, j);
      ShiftedBack(next, |slots|, k);
    }
  }

  /** Overwriting the only slot of a queue of length 1. */
  lemma OverwriteHolds<T>(slots: seq<T>, x: T)
    requires |slots| == 1
    ensures Holds(slots[0 := x], 0, 0, [x])
  {
    var slots', items' := slots[0 := x], [x];
    forall k: nat
      ensures LiesAt(slots', 0, 0, items', k)
    {
      Modular.ModUnique(1 + k, 1 + k, 0, 1);
    }
  }

  /** pcWriteTo is uxMessagesWaiting slots behind the next slot to read. */
  lemma WriteSlot<T>(slots: seq<T>, readFrom: nat, writeTo: nat, items: seq<T>)
    requires Holds(slots, readFrom, writeTo, items)
    ensures writeTo == (Forward(readFrom, |slots|) + |items|) % |slots|
  {
    var next := Forward(readFrom, |slots|);
    assert LiesAt(slots, readFrom, writeTo, items, |items|);
    if next == 0 {
      Modular.ModStep(|items|, |slots|);
    }
  }

  class Queue<T> {
    const slots: array<T>
    var writeTo: nat            // pcWriteTo
    var readFrom: nat           // pcReadFrom
    var messagesWaiting: nat    // uxMessagesWaiting
    ghost var items: seq<T>

    ghost predicate Valid()
      reads this, slots
    {
      && slots.Length >= 1
      && messagesWaiting == |items|
      && Holds(slots[..], readFrom, writeTo, items)
    }

    ghost function Value(): Deque<T>
      reads this
    {
      Deque(slots.Length, items)
    }

    /** A queue as xQueueGenericReset leaves it. */
    constructor (length: nat, blank: T)
      requires length >= 1
      ensures Valid() && fresh(slots) && Value() == Deque(length, [])
    {
      slots := new T[length](_ => blank);
      messagesWaiting, writeTo, readFrom, items := 0, 0, length - 1, [];
      Modular.ModUnique(length, 1, 0, length);
      new;
      assert forall k: nat :: LiesAt(slots[..], readFrom, writeTo, items, k);
    }

    /** prvCopyDataToQueue. Only a queue of length 1 may be overwritten. */
    method CopyDataToQueue(x: T, position: Position)
      requires Valid() && (position.Overwrite? ==> slots.Length == 1)
      requires |items| < slots.Length || position.Overwrite?
      modifies this, slots
      ensures Valid()
      ensures items == if position.Overwrite? then [x] else if position.ToBack? then old(items) + [x] else [x] + old(items)
    {
      var waiting := messagesWaiting;
      if position.ToBack? {
        AppendHolds(slots[..], readFrom, writeTo, items, x);
        slots[writeTo] := x;
        assert slots[..] == old(slots[..])[writeTo := x];
        writeTo := writeTo + 1;
        if writeTo >= slots.Length {
          writeTo := 0;
        }
        items := items + [x];
      } else {
        if position.Overwrite? {
          OverwriteHolds(slots[..], x);
        } else {
          PrependHolds(slots[..], readFrom, writeTo, items, x);
        }
        slots[readFrom] := x;
        assert slots[..] == old(slots[..])[readFrom := x];
        readFrom := if readFrom == 0 then slots.Length - 1 else readFrom - 1;
        if position.Overwrite? {
          if waiting > 0 {
            waiting := waiting - 1;
          }
          items := [x];
        } else {
          items := [x] + items;
        }
      }
      messagesWaiting := waiting + 1;
    }

    /** prvCopyDataFromQueue. */
    method CopyDataFromQueue() returns (x: T)
      requires Valid() && items != []
      modifies this`readFrom
      ensures readFrom == Forward(old(readFrom), slots.Length) && x == items[0]
    {
      RemoveHolds(slots[..], readFrom, writeTo, items);
      readFrom := readFrom + 1;
      if readFrom >= slots.Length {
        readFrom := 0;
      }
      x := slots[readFrom];
    }

    /** xQueueGenericSend with no block time, and xQueueGenericSendFromISR. */
    method GenericSend(x: T, position: Position) returns (ok: bool)
      requires Valid() && (position.Overwrite? ==> slots.Length == 1)
      modifies this, slots
      ensures Valid() && Value() == Apply(old(Value()), Send(x, position))
      ensures ok <==> Answer(old(Value()), Send(x, position)).Some?
    {
      ok := messagesWaiting < slots.Length || position.Overwrite?;
      if ok {
        CopyDataToQueue(x, position);
      }
    }

    /** xQueueReceive with no block time, and xQueueReceiveFromISR. */
    method QueueReceive() returns (r: Option<T>)
      requires Valid()
      modifies this
      ensures Valid() && Value() == Apply(old(Value()), Receive)
      ensures r == Answer(old(Value()), Receive)
    {
      r := None;
      var waiting := messagesWaiting;
      if waiting > 0 {
        RemoveHolds(slots[..], readFrom, writeTo, items);
        var x := CopyDataFromQueue();
        r := Some(x);
        messagesWaiting := waiting - 1;
        items := items[1..];
      }
    }

    /** xQueuePeek with no block time, and xQueuePeekFromISR: the read position is put back. */
    method QueuePeek() returns (r: Option<T>)
      requires Valid()
      modifies this`readFrom
      ensures Valid() && readFrom == old(readFrom)
      ensures r == Answer(Value(), Peek)
    {
      r := None;
      if messagesWaiting > 0 {
        var originalReadPosition := readFrom;
        var x := CopyDataFromQueue();
        r := Some(x);
        readFrom := originalReadPosition;
      }
    }

    method Perform(op: Op<T>) returns (answer: Option<T>)
      requires Valid() && (op.Send? && op.position.Overwrite? ==> slots.Length == 1)
      modifies this, slots
      ensures Valid() && Value() == Apply(old(Value()), op)
      ensures answer == Answer(old(Value()), op)
    {
      match op
      case Send(x, position) =>
        var ok := GenericSend(x, position);
        answer := if ok then Some(x) else None;
      case Receive =>
        answer := QueueReceive();
      case Peek =>
        answer := QueuePeek();
    }

    /** Any sequence of operations does what it does to a bounded double-ended queue. */
    method PerformAll(ops: seq<Op<T>>) returns (answers: seq<Option<T>>)
      requires Valid()
      requires forall i :: 0 <= i < |ops| && ops[i].Send? && ops[i].position.Overwrite? ==> slots.Length == 1
      modifies this, slots
      ensures Valid() && Value() == ApplyAll(old(Value()), ops, |ops|)
      ensures |answers| == |ops| && forall i: nat :: Answered(old(Value()), ops, answers, i)
    {
      ghost var q := Value();
      answers := [];
      for i := 0 to |ops|
        invariant Valid() && Value() == ApplyAll(q, ops, i)
        invariant |answers| == i && forall j: nat :: Answered(q, ops, answers, j)
      {
        var r := Perform(ops[i]);
        AnsweredAppend(q, ops, answers, r);
        answers := answers + [r];
      }
    }
  }

  /** The first `k` operations on a bounded double-ended queue. */
  function ApplyAll<T>(q: Deque<T>, ops: seq<Op<T>>, k: nat): Deque<T>
    requires k <= |ops|
  {
    if k == 0 then q else Apply(ApplyAll(q, ops, k - 1), ops[k - 1])
  }

  /** The i-th answer is what the double-ended queue gives after the operations before it. */
  ghost predicate Answered<T>(q: Deque<T>, ops: seq<Op<T>>, answers: seq<Option<T>>, i: nat) {
    i < |answers| && i < |ops| ==> answers[i] == Answer(ApplyAll(q, ops, i), ops[i])
  }

  lemma AnsweredAppend<T>(q: Deque<T>, ops: seq<Op<T>>, answers: seq<Option<T>>, r: Option<T>)
    requires |answers| < |ops| && (forall i: nat :: Answered(q, ops, answers, i))
    requires r == Answer(ApplyAll(q, ops, |answers|), ops[|answers|])
    ensures forall i: nat :: Answered(q, ops, answers + [r], i)
  {
    var answers' := answers + [r];
    forall i: nat
      ensures Answered(q, ops, answers', i)
    {
      assert Answered(q, ops, answers, i);
    }
  }

  /** It never holds more than its length. */
  lemma {:induction false} NeverOverfull<T>(q: Deque<T>, ops: seq<Op<T>>, k: nat)
    requires k <= |ops| && |q.items| <= q.length && q.length >= 1
    ensures |ApplyAll(q, ops, k).items| <= q.length && ApplyAll(q, ops, k).length == q.length
  {
    if k > 0 {
      NeverOverfull(q, ops, k - 1);
    }
  }
}
