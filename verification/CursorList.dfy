/**
  What a List_t of FreeRTOS/Source/list.c stands for: the items from the one after the end
  marker to the one before it, and the position of pxIndex. A cursor equal to the number of
  items means that pxIndex is the end marker.
 */
module CursorList {
  import Modular

  datatype CursorList<T> = CursorList(items: seq<T>, cursor: nat)
  {
    ghost predicate Valid() {
      && cursor <= |items|
      && Distinct(items)
    }
  }

  ghost predicate Distinct<T>(items: seq<T>) {
    forall i, j :: 0 <= i < j < |items| ==> items[i] != items[j]
  }

  function Initialised<T>(): CursorList<T> {
    CursorList([], 0)
  }

  function Insert<T>(items: seq<T>, at: nat, x: T): seq<T>
    requires at <= |items|
  {
    items[..at] + [x] + items[at..]
  }

  function Delete<T>(items: seq<T>, at: nat): seq<T>
    requires at < |items|
  {
    items[..at] + items[at + 1..]
  }

  /** vListInsertEnd: in front of pxIndex, which stays on the same node. */
  function InsertEnd<T>(l: CursorList<T>, x: T): CursorList<T>
    requires l.cursor <= |l.items|
  {
    CursorList(Insert(l.items, l.cursor, x), l.cursor + 1)
  }

  /** uxListRemove of the item at `at`: pxIndex steps back when it stood on that item. */
  function RemoveAt<T>(l: CursorList<T>, at: nat): CursorList<T>
    requires at < |l.items| && l.cursor <= |l.items|
  {
    CursorList(Delete(l.items, at),
               if at < l.cursor then l.cursor - 1
               else if at > l.cursor then l.cursor
               else if at == 0 then |l.items| - 1
               else at - 1)
  }

  /** Where listGET_OWNER_OF_NEXT_ENTRY leaves pxIndex: the next item, past the end marker. */
  function NextCursor<T>(l: CursorList<T>): nat
    requires l.items != []
  {
    if l.cursor + 1 >= |l.items| then 0 else l.cursor + 1
  }

  function Advance<T>(l: CursorList<T>): CursorList<T>
    requires l.items != []
  {
    l.(cursor := NextCursor(l))
  }

  function IndexOf<T(==)>(items: seq<T>, x: T): (i: nat)
    requires x in items
    ensures i < |items| && items[i] == x
  {
    if items[0] == x then 0 else IndexOf(items[1..], x) + 1
  }

  function Without<T(==)>(items: seq<T>, x: T): seq<T> {
    if items == [] then []
    else if items[0] == x then Without(items[1..], x)
    else [items[0]] + Without(items[1..], x)
  }

  lemma {:induction false} WithoutFacts<T>(items: seq<T>, x: T)
    ensures forall y :: y in Without(items, x) <==> y in items && y != x
    ensures |Without(items, x)| <= |items|
    ensures Distinct(items) ==> Distinct(Without(items, x))
  {
    if items != [] {
      WithoutFacts(items[1..], x);
      assert items == [items[0]] + items[1..];
      if items[0] != x && Distinct(items) {
        var rest := Without(items[1..], x);
        assert Without(items, x) == [items[0]] + rest;
        assert items[0] !in rest;
      }
    }
  }

  // ----- lists kept in ascending order of item value -----

  ghost predicate Ascending(values: seq<nat>) {
    forall i, j :: 0 <= i < j < |values| ==> values[i] <= values[j]
  }

  /** Where vListInsert puts a new value: after every value that is not greater. */
  function InsertPosition(values: seq<nat>, v: nat): (at: nat)
    ensures at <= |values|
  {
    if values == [] || values[0] > v then 0 else InsertPosition(values[1..], v) + 1
  }

  lemma {:induction false} InsertPositionSplits(values: seq<nat>, v: nat)
    requires Ascending(values)
    ensures forall i :: 0 <= i < InsertPosition(values, v) ==> values[i] <= v
    ensures forall i :: InsertPosition(values, v) <= i < |values| ==> values[i] > v
  {
    if values != [] && values[0] <= v {
      InsertPositionSplits(values[1..], v);
      assert forall i :: 1 <= i < |values| ==> values[i] == values[1..][i - 1];
    }
  }

  /** A list ordered by a key of its items stays so when an item goes in where its key belongs. */
  lemma InsertKeepsOrder<T>(items: seq<T>, at: nat, x: T, key: T -> int)
    requires at <= |items|
    requires forall i, j :: 0 <= i < j < |items| ==> key(items[i]) <= key(items[j])
    requires forall i :: 0 <= i < at ==> key(items[i]) <= key(x)
    requires forall i :: at <= i < |items| ==> key(items[i]) >= key(x)
    ensures var r := Insert(items, at, x); forall i, j :: 0 <= i < j < |r| ==> key(r[i]) <= key(r[j])
  {
    var r := Insert(items, at, x);
    forall i, j | 0 <= i < j < |r|
      ensures key(r[i]) <= key(r[j])
    {
      assert r[i] == if i < at then items[i] else if i == at then x else items[i - 1];
      assert r[j] == if j < at then items[j] else if j == at then x else items[j - 1];
    }
  }

  lemma InsertFacts<T>(items: seq<T>, at: nat, x: T)
    requires at <= |items|
    ensures forall y :: y in Insert(items, at, x) <==> y in items || y == x
    ensures multiset(Insert(items, at, x)) == multiset(items) + multiset{x}
    ensures Distinct(items) && x !in items ==> Distinct(Insert(items, at, x))
  {
    var r := Insert(items, at, x);
    assert items == items[..at] + items[at..];
    forall i, j | Distinct(items) && x !in items && 0 <= i < j < |r|
      ensures r[i] != r[j]
    {
      assert r[i] == if i < at then items[i] else if i == at then x else items[i - 1];
      assert r[j] == if j < at then items[j] else if j == at then x else items[j - 1];
    }
  }

  lemma DeleteFacts<T>(items: seq<T>, at: nat)
    requires at < |items| && Distinct(items)
    ensures forall y :: y in Delete(items, at) <==> y in items && y != items[at]
    ensures Distinct(Delete(items, at))
  {
    var r := Delete(items, at);
    assert forall i :: 0 <= i < |r| ==> r[i] == items[if i < at then i else i + 1];
    forall y | y in items && y != items[at]
      ensures y in r
    {
      var k :| 0 <= k < |items| && items[k] == y;
      assert r[if k < at then k else k - 1] == y;
    }
  }

  /** The position that the (j+1)-st call of listGET_OWNER_OF_NEXT_ENTRY stops at. */
  function Visited<T>(l: CursorList<T>, j: nat): nat
    requires l.items != []
  {
    (NextCursor(l) + j) % |l.items|
  }

  /** `Visited` is what iterating `Advance` gives. */
  lemma {:induction false} VisitedAdvances<T>(l: CursorList<T>, j: nat)
    requires l.items != []
    ensures Visited(l, 0) == Advance(l).cursor
    ensures Visited(l, j + 1) == Visited(Advance(l), j)
    ensures Visited(l, j) < |l.items|
  {
    var n := |l.items|;
    var c := NextCursor(l);
    assert c % n == c by { Modular.ModUnique(c, 0, c, n); }
    if c + 1 >= n {
      assert c + (j + 1) == j + n;
      Modular.ModStep(j, n);
    } else {
      assert c + (j + 1) == (c + 1) + j;
    }
  }

  /** Within one round the position wraps at most once. */
  lemma VisitedWraps<T>(l: CursorList<T>, j: nat)
    requires j < |l.items|
    ensures var c := NextCursor(l); Visited(l, j) == if c + j < |l.items| then c + j else c + j - |l.items|
  {
    var c := NextCursor(l);
    Modular.ModUnique(c, 0, c, |l.items|);
    Modular.ModAdd(c, j, |l.items|);
  }

  /**
    An inserted item comes up after every other item has, with one exception: the item that
    pxIndex stood on, which comes directly after it.
   */
  lemma {:induction false} InsertedComesUpLast<T>(l: CursorList<T>, x: T, j: nat)
    requires l.cursor <= |l.items| && j <= |l.items|
    ensures var onItem := l.cursor < |l.items|;
            Visited(InsertEnd(l, x), j) == l.cursor <==> j == (if onItem then |l.items| - 1 else |l.items|)
  {
    var r := InsertEnd(l, x);
    var n := |r.items|;
    var start := NextCursor(r);
    assert start == if l.cursor + 2 >= n then 0 else l.cursor + 2;
    VisitedWraps(r, j);
  }
}
