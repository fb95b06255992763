/**
  The doubly linked lists of FreeRTOS/Source/list.c on the heap, and what they stand for: a
  sequence of items with a cursor. A list is a ring of its items and its end marker.
 */
module KernelList {
  import opened Shared
  import opened CursorList

  class ListItem {
    var value: nat                // xItemValue
    var next: ListItem?           // pxNext
    var previous: ListItem?       // pxPrevious
    var container: List?          // pxContainer

    /** vListInitialiseItem. */
    constructor (v: nat)
      ensures value == v && container == null && next == null && previous == null
    {
      value, container, next, previous := v, null, null, null;
    }
  }

  function Succ(n: nat, k: nat): nat {
    if k + 1 >= n then 0 else k + 1
  }

  /** Node `k` of the ring and the node behind it point at each other. */
  ghost predicate LinkedAt(ring: seq<ListItem>, k: nat)
    reads ring`next, ring`previous
  {
    k < |ring| ==> ring[k].next == ring[Succ(|ring|, k)] && ring[Succ(|ring|, k)].previous == ring[k]
  }

  ghost predicate Apart(ring: seq<ListItem>, i: nat, j: nat) {
    i < j < |ring| ==> ring[i] != ring[j]
  }

  ghost predicate Ring(ring: seq<ListItem>)
    reads ring`next, ring`previous
  {
    && ring != []
    && (forall i: nat, j: nat :: Apart(ring, i, j))
    && (forall k: nat :: LinkedAt(ring, k))
  }

  lemma RingIsDistinct(ring: seq<ListItem>)
    requires forall i: nat, j: nat :: Apart(ring, i, j)
    ensures Distinct(ring)
  {
    forall i, j | 0 <= i < j < |ring|
      ensures ring[i] != ring[j]
    {
      assert Apart(ring, i, j);
    }
  }

  lemma DistinctIsApart(ring: seq<ListItem>)
    requires Distinct(ring)
    ensures forall i: nat, j: nat :: Apart(ring, i, j)
  {
  }

  /** The ring with a node behind node `k`. */
  ghost function After(ring: seq<ListItem>, k: nat, x: ListItem): seq<ListItem>
    requires k < |ring|
  {
    Insert(ring, k + 1, x)
  }

  lemma AfterFacts(ring: seq<ListItem>, k: nat, x: ListItem, p: nat)
    requires k < |ring| && p < |ring|
    ensures |After(ring, k, x)| == |ring| + 1 && After(ring, k, x)[0] == ring[0] && After(ring, k, x)[k + 1] == x
    ensures After(ring, k, x)[1..] == Insert(ring[1..], k, x)
    ensures After(ring, k, x)[if k < p then p + 1 else p] == ring[p]
  {
  }

  lemma DeletedFacts(ring: seq<ListItem>, k: nat, p: nat)
    requires 0 < k < |ring| && p < |ring|
    ensures |Delete(ring, k)| == |ring| - 1 && Delete(ring, k)[0] == ring[0]
    ensures Delete(ring, k)[1..] == Delete(ring[1..], k - 1)
    ensures Delete(ring, k)[if k <= p then p - 1 else p] == if p == k then ring[k - 1] else ring[p]
  {
  }

  /** The four assignments that put `x` between node `k` and the one behind it. */
  method Splice(ghost ring: seq<ListItem>, ghost k: nat, p: ListItem, n: ListItem, x: ListItem)
    requires Ring(ring) && k < |ring| && p == ring[k] && n == ring[Succ(|ring|, k)] && x !in ring
    modifies x`next, x`previous, p`next, n`previous
    ensures Ring(After(ring, k, x))
  {
    x.next := n;
    x.previous := p;
    n.previous := x;
    p.next := x;
    ghost var ring' := After(ring, k, x);
    RingIsDistinct(ring);
    InsertFacts(ring, k + 1, x);
    DistinctIsApart(ring');
    forall j: nat
      ensures LinkedAt(ring', j)
    {
      if j < |ring'| {
        ghost var i := if j <= k then j else j - 1;
        assert old(LinkedAt(ring, i));
        assert ring'[j] == if j == k + 1 then x else ring[i];
      }
    }
  }

  /** Node `k`, unless it is the end marker, belongs to the list. */
  ghost predicate MemberAt(ring: seq<ListItem>, list: List, k: nat)
    reads ring`container, ring`value
  {
    0 < k < |ring| ==> ring[k].container == list && ring[k].value <= MAX_DELAY
  }

  ghost predicate Members(ring: seq<ListItem>, list: List)
    reads ring`container, ring`value
  {
    forall k: nat :: MemberAt(ring, list, k)
  }

  /** The two assignments that take node `k` out. */
  method Unsplice(ghost ring: seq<ListItem>, ghost k: nat, x: ListItem)
    requires Ring(ring) && 0 < k < |ring| && x == ring[k] && x.next != null && x.previous != null
    modifies x.next`previous, x.previous`next
    ensures Ring(Delete(ring, k)) && x.previous == ring[k - 1] && x !in Delete(ring, k)
  {
    assert LinkedAt(ring, k) && LinkedAt(ring, k - 1);
    x.next.previous := x.previous;
    x.previous.next := x.next;
    ghost var ring' := Delete(ring, k);
    RingIsDistinct(ring);
    DeleteFacts(ring, k);
    DistinctIsApart(ring');
    forall j: nat
      ensures LinkedAt(ring', j)
    {
      if j < |ring'| {
        ghost var i := if j < k then j else j + 1;
        assert old(LinkedAt(ring, i)) && old(LinkedAt(ring, k));
        assert ring'[j] == ring[i];
      }
    }
  }

  /** Remembering which list an item is in, ... */
  method Adopt(ghost ring: seq<ListItem>, ghost k: nat, x: ListItem, list: List)
    requires k < |ring| && x !in ring && x.value <= MAX_DELAY && Members(ring, list)
    modifies x`container
    ensures x.container == list && Members(After(ring, k, x), list)
  {
    x.container := list;
    ghost var ring' := After(ring, k, x);
    AfterFacts(ring, k, x, 0);
    forall j: nat
      ensures MemberAt(ring', list, j)
    {
      ghost var i := if j <= k then j else j - 1;
      assert old(MemberAt(ring, list, i));
      assert j < |ring'| ==> ring'[j] == if j == k + 1 then x else ring[i];
    }
  }

  /** ... and forgetting it. */
  method Release(ghost ring: seq<ListItem>, ghost k: nat, x: ListItem, ghost list: List)
    requires 0 < k < |ring| && x == ring[k] && (forall i: nat, j: nat :: Apart(ring, i, j)) && Members(ring, list)
    modifies x`container
    ensures x.container == null && Members(Delete(ring, k), list)
  {
    x.container := null;
    ghost var ring' := Delete(ring, k);
    RingIsDistinct(ring);
    forall j: nat
      ensures MemberAt(ring', list, j)
    {
      ghost var i := if j < k then j else j + 1;
      assert old(MemberAt(ring, list, i));
      assert j < |ring'| ==> ring'[j] == ring[i] && i != k;
    }
  }

  /** The item values, in the order of the list. */
  ghost function ValuesOf(ring: seq<ListItem>): (values: seq<nat>)
    requires ring != []
    reads ring
    ensures |values| == |ring| - 1
    ensures forall i :: 0 <= i < |values| ==> values[i] == ring[i + 1].value
  {
    seq(|ring| - 1, i requires 0 <= i < |ring| - 1 reads ring => ring[i + 1].value)
  }

  lemma AfterValues(ring: seq<ListItem>, k: nat, x: ListItem)
    requires k < |ring|
    ensures ValuesOf(After(ring, k, x)) == Insert(ValuesOf(ring), k, x.value)
  {
    var values, values' := ValuesOf(ring), ValuesOf(After(ring, k, x));
    forall i | 0 <= i < |values'|
      ensures values'[i] == Insert(values, k, x.value)[i]
    {
      assert After(ring, k, x)[i + 1] == if i < k then ring[i + 1] else if i == k then x else ring[i];
    }
  }

  lemma DeletedValues(ring: seq<ListItem>, k: nat)
    requires 0 < k < |ring|
    ensures ValuesOf(Delete(ring, k)) == Delete(ValuesOf(ring), k - 1)
  {
    var values, values' := ValuesOf(ring), ValuesOf(Delete(ring, k));
    forall i | 0 <= i < |values'|
      ensures values'[i] == values[if i < k - 1 then i else i + 1]
    {
      assert Delete(ring, k)[i + 1] == ring[if i + 1 < k then i + 1 else i + 2];
    }
    assert values' == Delete(values, k - 1);
  }

  /** What vListInsertEnd and vListInsert do to the nodes ... */
  method LinkIn(ghost ring: seq<ListItem>, ghost k: nat, p: ListItem, n: ListItem, x: ListItem, list: List)
    requires Ring(ring) && k < |ring| && p == ring[k] && n == ring[Succ(|ring|, k)]
    requires x !in ring && x.value <= MAX_DELAY && Members(ring, list)
    modifies x`next, x`previous, x`container, p`next, n`previous
    ensures Ring(After(ring, k, x)) && Members(After(ring, k, x), list) && x.container == list
    ensures ValuesOf(After(ring, k, x)) == Insert(old(ValuesOf(ring)), k, x.value)
  {
    Splice(ring, k, p, n, x);
    Adopt(ring, k, x, list);
    assert ValuesOf(ring) == old(ValuesOf(ring));
    AfterValues(ring, k, x);
  }

  /** ... and what uxListRemove does to them. */
  method LinkOut(ghost ring: seq<ListItem>, ghost k: nat, x: ListItem, ghost list: List)
    requires Ring(ring) && 0 < k < |ring| && x == ring[k] && x.next != null && x.previous != null && Members(ring, list)
    modifies x.next`previous, x.previous`next, x`container
    ensures Ring(Delete(ring, k)) && Members(Delete(ring, k), list)
    ensures x.container == null && x.previous == ring[k - 1] && x !in Delete(ring, k)
    ensures ValuesOf(Delete(ring, k)) == Delete(old(ValuesOf(ring)), k - 1)
  {
    Unsplice(ring, k, x);
    Release(ring, k, x, list);
    assert ValuesOf(ring) == old(ValuesOf(ring));
    DeletedValues(ring, k);
  }

  // ----- what the operations do to a sequence with a cursor -----

  ghost function ValueOf(ring: seq<ListItem>, at: nat): CursorList<ListItem>
    requires at < |ring|
  {
    CursorList(ring[1..], if at == 0 then |ring| - 1 else at - 1)
  }

  /** An item inserted at `at`: the cursor stays on its item, or on the end marker. */
  function Inserted<T>(l: CursorList<T>, at: nat, x: T): CursorList<T>
    requires at <= |l.items|
  {
    CursorList(Insert(l.items, at, x), if at <= l.cursor then l.cursor + 1 else l.cursor)
  }

  ghost function AtAfter(at: nat, k: nat): nat {
    if k < at then at + 1 else at
  }

  lemma AfterValue(ring: seq<ListItem>, at: nat, k: nat, x: ListItem)
    requires at < |ring| && k < |ring|
    ensures AtAfter(at, k) < |After(ring, k, x)| && After(ring, k, x)[0] == ring[0]
    ensures After(ring, k, x)[AtAfter(at, k)] == ring[at]
    ensures k <= |ValueOf(ring, at).items|
    ensures ValueOf(After(ring, k, x), AtAfter(at, k)) == Inserted(ValueOf(ring, at), k, x)
  {
    AfterFacts(ring, k, x, at);
  }

  ghost function AtDeleted(at: nat, k: nat): nat {
    if k <= at && at > 0 then at - 1 else at
  }

  lemma DeletedValue(ring: seq<ListItem>, at: nat, k: nat)
    requires at < |ring| && 0 < k < |ring|
    ensures AtDeleted(at, k) < |Delete(ring, k)| && Delete(ring, k)[0] == ring[0]
    ensures Delete(ring, k)[AtDeleted(at, k)] == if at == k then ring[k - 1] else ring[at]
    ensures ValueOf(ring, at).cursor <= |ValueOf(ring, at).items|
    ensures ValueOf(Delete(ring, k), AtDeleted(at, k)) == RemoveAt(ValueOf(ring, at), k - 1)
  {
    DeletedFacts(ring, k, at);
  }

  class List {
    const end: ListItem           // xListEnd
    var index: ListItem           // pxIndex
    var count: nat                // uxNumberOfItems

    ghost var ring: seq<ListItem> // the end marker, then the items
    ghost var at: nat             // the place of pxIndex in the ring

    ghost predicate Valid()
      reads this, ring
    {
      && Ring(ring) && ring[0] == end && end.value == MAX_DELAY
      && Members(ring, this)
      && count == |ring| - 1
      && at < |ring| && ring[at] == index
    }

    /** What the list stands for. */
    ghost function Value(): CursorList<ListItem>
      requires at < |ring|
      reads this
    {
      ValueOf(ring, at)
    }

    /** vListInitialise. */
    constructor ()
      ensures Valid() && fresh(end) && Value() == Initialised()
    {
      var e := new ListItem(MAX_DELAY);
      end, index, count := e, e, 0;
      ring, at := [e], 0;
      new;
      end.next, end.previous := end, end;
      assert forall k: nat :: LinkedAt(ring, k);
      assert forall k: nat :: MemberAt(ring, this, k);
    }

    ghost function Values(): (values: seq<nat>)
      requires ring != []
      reads this`ring, ring
      ensures |values| == |ring| - 1
    {
      ValuesOf(ring)
    }

    /** pxIndex and the count follow the ring. */
    method Follow(i: ListItem, n: nat, ghost nodes: seq<ListItem>, ghost place: nat)
      requires Ring(nodes) && nodes[0] == end && end.value == MAX_DELAY && Members(nodes, this)
      requires n == |nodes| - 1 && place < |nodes| && nodes[place] == i
      modifies this`index, this`count, this`ring, this`at
      ensures Valid() && ring == nodes && at == place && count == n
      ensures ValuesOf(nodes) == old(ValuesOf(nodes))
    {
      index, count, ring, at := i, n, nodes, place;
    }

    /** Places `x` behind node `k` of the ring, counts it and remembers its list. */
    method PutBehind(ghost k: nat, p: ListItem, n: ListItem, x: ListItem)
      requires Valid() && k < |ring| && p == ring[k] && n == ring[Succ(|ring|, k)]
      requires x !in ring && x.value <= MAX_DELAY
      modifies x`next, x`previous, x`container, p`next, n`previous, this`index, this`count, this`ring, this`at
      ensures Valid() && x.container == this
      ensures k <= |old(Value()).items| && Value() == Inserted(old(Value()), k, x)
      ensures Values() == Insert(old(Values()), k, x.value)
    {
      AfterValue(ring, at, k, x);
      LinkIn(ring, k, p, n, x, this);
      Follow(index, count + 1, After(ring, k, x), AtAfter(at, k));
    }

    /** vListInsertEnd: in front of pxIndex, wherever that is. */
    method InsertAtIndex(x: ListItem)
      requires Valid() && x !in ring && x.container == null && x.value <= MAX_DELAY
      modifies this, x`next, x`previous, x`container, ring`next, ring`previous
      ensures Valid() && Value() == InsertEnd(old(Value()), x) && x.container == this
      ensures Values() == Insert(old(Values()), old(Value()).cursor, x.value)
    {
      ghost var k := if at == 0 then |ring| - 1 else at - 1;
      assert LinkedAt(ring, k);
      PutBehind(k, index.previous, index, x);
    }

    /** vListInsert: the loop ends at the end marker at the latest, whose value is the greatest. */
    method InsertInOrder(x: ListItem)
      requires Valid() && x !in ring && x.container == null && x.value <= MAX_DELAY
      modifies this, x`next, x`previous, x`container, ring`next, ring`previous
      ensures Valid() && x.container == this
      ensures Value() == Inserted(old(Value()), InsertPosition(old(Values()), x.value), x)
      ensures Values() == Insert(old(Values()), InsertPosition(old(Values()), x.value), x.value)
      ensures Ascending(old(Values())) ==> Ascending(Values())
    {
      var place: ListItem;
      ghost var k := 0;
      if x.value == MAX_DELAY {
        k := |ring| - 1;
        assert LinkedAt(ring, k);
        place := end.previous;
        NothingGreater(ring, Values());
      } else {
        place, k := FindPlace(x.value);
      }
      assert LinkedAt(ring, k);
      if Ascending(Values()) {
        InsertedInOrder(Values(), x.value);
      }
      PutBehind(k, place, place.next, x);
    }

    lemma NothingGreater(nodes: seq<ListItem>, values: seq<nat>)
      requires Valid() && nodes == ring && values == Values()
      ensures InsertPosition(values, MAX_DELAY) == |values|
    {
      forall i | 0 <= i < |values|
        ensures values[i] <= MAX_DELAY
      {
        assert MemberAt(ring, this, i + 1);
      }
      AllNotGreater(values, MAX_DELAY);
    }

    /** The search loop of vListInsert. */
    method FindPlace(v: nat) returns (place: ListItem, ghost k: nat)
      requires Valid() && v < MAX_DELAY
      ensures k == InsertPosition(Values(), v) && place == ring[InsertPosition(Values(), v)]
    {
      place, k := end, 0;
      assert LinkedAt(ring, 0);
      while place.next.value <= v
        invariant k < |ring| && place == ring[k] && place.next == ring[Succ(|ring|, k)]
        invariant k + InsertPosition(Values()[k..], v) == InsertPosition(Values(), v)
        decreases |ring| - k
      {
        assert Values()[k..][1..] == Values()[k + 1..];
        k := k + 1;
        assert LinkedAt(ring, k);
        place := place.next;
      }
    }

    /** uxListRemove of the item at place `k` of the ring. */
    method Remove(x: ListItem, ghost k: nat) returns (left: nat)
      requires Valid() && 0 < k < |ring| && ring[k] == x
      modifies this, x`container, ring`next, ring`previous
      ensures Valid() && x.container == null && x !in ring
      ensures Value() == RemoveAt(old(Value()), k - 1)
      ensures Values() == Delete(old(Values()), k - 1)
      ensures left == |Value().items|
    {
      assert LinkedAt(ring, k) && LinkedAt(ring, k - 1);
      TakeOut(x, k);
      left := count;
    }

    /** Takes `x` out of the ring, moves pxIndex off it and counts it out. */
    method TakeOut(x: ListItem, ghost k: nat)
      requires Valid() && 0 < k < |ring| && ring[k] == x && x.next != null && x.previous != null
      modifies x.next`previous, x.previous`next, x`container, this`index, this`count, this`ring, this`at
      ensures Valid() && x.container == null && x !in ring
      ensures Value() == RemoveAt(old(Value()), k - 1)
      ensures Values() == Delete(old(Values()), k - 1)
    {
      DeletedValue(ring, at, k);
      assert Apart(ring, k, at) && Apart(ring, at, k);
      LinkOut(ring, k, x, this);
      Follow(if index == x then x.previous else index, count - 1, Delete(ring, k), AtDeleted(at, k));
    }

    /** listGET_OWNER_OF_NEXT_ENTRY: one step on, and past the end marker. */
    method GetNextEntry() returns (x: ListItem)
      requires Valid() && count > 0
      modifies this`index, this`at
      ensures Valid() && Value() == Advance(old(Value())) && x == Value().items[Value().cursor]
    {
      assert LinkedAt(ring, at);
      index := index.next;
      at := Succ(|ring|, at);
      assert Apart(ring, 0, at);
      if index == end {
        assert LinkedAt(ring, at);
        index := index.next;
        at := 1;
      }
      x := index;
    }
  }

  lemma {:induction false} AllNotGreater(values: seq<nat>, v: nat)
    requires forall i :: 0 <= i < |values| ==> values[i] <= v
    ensures InsertPosition(values, v) == |values|
  {
    if values != [] {
      AllNotGreater(values[1..], v);
    }
  }

  /** Taking an item out keeps an ascending list ascending. */
  lemma DeletedInOrder(values: seq<nat>, at: nat)
    requires Ascending(values) && at < |values|
    ensures Ascending(Delete(values, at))
  {
    var r := Delete(values, at);
    forall i, j | 0 <= i < j < |r|
      ensures r[i] <= r[j]
    {
      assert r[i] == values[if i < at then i else i + 1] && r[j] == values[if j < at then j else j + 1];
    }
  }

  /** In a list in ascending order, a new item goes behind all items that are not greater, and the order is kept. */
  lemma InsertedInOrder(values: seq<nat>, v: nat)
    requires Ascending(values)
    ensures var at := InsertPosition(values, v);
            && (forall i :: 0 <= i < |values| ==> (i < at <==> values[i] <= v))
            && Ascending(Insert(values, at, v))
  {
    InsertPositionSplits(values, v);
    InsertKeepsOrder(values, InsertPosition(values, v), v, x => x);
  }
}
