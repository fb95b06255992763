/**
  The index arithmetic of FreeRTOS/Source/stream_buffer.c. xHead and xTail are the remainders
  of unbounded counts of the bytes written and read; size_t has 32 bits.
 */
module RingIndex {
  import opened Shared
  import Modular

  /** The buffer can hold a byte, and twice its length fits size_t. */
  predicate ValidLength(length: nat) {
    2 <= length && 2 * length <= WORD
  }

  /** prvBytesInBuffer. */
  function BytesInBuffer(length: nat, head: nat, tail: nat): nat {
    var count := (length + head) % WORD;
    var less := (count - tail) % WORD;
    if less >= length then (less - length) % WORD else less
  }

  /** xStreamBufferSpacesAvailable, once xTail has been read. */
  function SpacesAvailable(length: nat, head: nat, tail: nat): nat {
    var sum := (length + tail) % WORD;
    var less := (sum - head) % WORD;
    var space := (less - 1) % WORD;
    if space >= length then (space - length) % WORD else space
  }

  /** The counts stand for a buffer that holds `written - read` bytes. */
  ghost predicate Fits(length: nat, written: nat, read_: nat) {
    read_ <= written < read_ + length
  }

  lemma Wrapped(length: nat, written: nat, read_: nat)
    requires 0 < length && Fits(length, written, read_)
    ensures var h, t := written % length, read_ % length;
            0 <= h < length && 0 <= t < length && written - read_ == if h >= t then h - t else h + length - t
  {
    Modular.ModAdd(read_, written - read_, length);
  }

  /** No intermediate result leaves the range of size_t. */
  lemma BytesOf(length: nat, head: nat, tail: nat)
    requires ValidLength(length) && head < length && tail < length
    ensures BytesInBuffer(length, head, tail) == if head >= tail then head - tail else head + length - tail
  {
    assert (length + head) % WORD == length + head;
    assert (length + head - tail) % WORD == length + head - tail;
  }

  lemma SpacesOf(length: nat, head: nat, tail: nat)
    requires ValidLength(length) && head < length && tail < length
    ensures SpacesAvailable(length, head, tail) == length - 1 - if head >= tail then head - tail else head + length - tail
  {
    assert (length + tail) % WORD == length + tail;
    assert (length + tail - head) % WORD == length + tail - head;
    assert (length + tail - head - 1) % WORD == length + tail - head - 1;
  }

  lemma BytesAreExact(length: nat, written: nat, read_: nat)
    requires ValidLength(length) && Fits(length, written, read_)
    ensures BytesInBuffer(length, written % length, read_ % length) == written - read_
  {
    Wrapped(length, written, read_);
    BytesOf(length, written % length, read_ % length);
  }

  lemma SpacesAreExact(length: nat, written: nat, read_: nat)
    requires ValidLength(length) && Fits(length, written, read_)
    ensures SpacesAvailable(length, written % length, read_ % length) == length - 1 - (written - read_)
  {
    Wrapped(length, written, read_);
    SpacesOf(length, written % length, read_ % length);
  }

  /** At rest, the bytes and the spaces add up to the length less one. */
  lemma BytesAndSpaces(length: nat, written: nat, read_: nat)
    requires ValidLength(length) && Fits(length, written, read_)
    ensures BytesInBuffer(length, written % length, read_ % length)
            + SpacesAvailable(length, written % length, read_ % length) == length - 1
  {
    BytesAreExact(length, written, read_);
    SpacesAreExact(length, written, read_);
  }

  /** Where prvWriteBytesToBuffer and prvReadBytesFromBuffer put or find byte `j` of `count`. */
  function CopyIndex(length: nat, start: nat, count: nat, j: nat): nat
    requires start < length
  {
    var firstLength := if length - start < count then length - start else count;
    if j < firstLength then start + j else j - firstLength
  }

  /** The index they return. */
  function NextIndex(length: nat, start: nat, count: nat): nat {
    if start + count >= length then start + count - length else start + count
  }

  /** Two chunks or one, byte `j` lies `j` places on, round the ring. */
  lemma CopyIndexIsExact(length: nat, from: nat, count: nat, j: nat)
    requires 0 < length && j < count <= length
    ensures from % length < length
    ensures CopyIndex(length, from % length, count, j) == (from + j) % length
  {
    Modular.ModAdd(from, j, length);
  }

  lemma NextIndexIsExact(length: nat, from: nat, count: nat)
    requires 0 < length && count < length
    ensures from % length < length
    ensures NextIndex(length, from % length, count) == (from + count) % length
  {
    Modular.ModAdd(from, count, length);
  }

  /** Less than one turn apart, two bytes lie in different places. */
  lemma ApartInRing(length: nat, a: nat, b: nat)
    requires 0 < length && a < b < a + length
    ensures a % length != b % length
  {
    Modular.ModDistinct(a, b, length);
  }
}
