/**
 * The cursor-list contract of breadthFirstSearch/List.h, as values: a
 * sequence of integers and a cursor that is either undefined (-1) or the
 * index of one element. Each operation is the one the header describes;
 * the header's "Pre:" conditions are preconditions. The BFS graph uses
 * these operations, and they are the intended behaviour against which the
 * depth-first-search list is compared.
 */
module ListContract {

  datatype ListValue = ListValue(items: seq<int>, cursor: int)

  /** The cursor is undefined or on an element. */
  predicate Valid(L: ListValue)
  {
    -1 <= L.cursor < |L.items|
  }

  function NewList(): (L: ListValue)
    ensures Valid(L) && L.items == [] && L.cursor == -1
  {
    ListValue([], -1)
  }

  function Length(L: ListValue): nat
  {
    |L.items|
  }

  /** position(): the cursor's index, or -1. */
  function Index(L: ListValue): int
  {
    L.cursor
  }

  function Front(L: ListValue): int
    requires |L.items| > 0
  {
    L.items[0]
  }

  function Back(L: ListValue): int
    requires |L.items| > 0
  {
    L.items[|L.items| - 1]
  }

  function Get(L: ListValue): int
    requires Valid(L) && L.cursor >= 0
  {
    L.items[L.cursor]
  }

  /** The cursor is not part of what equals compares. */
  predicate Equals(A: ListValue, B: ListValue)
  {
    A.items == B.items
  }

  function Clear(L: ListValue): ListValue
  {
    NewList()
  }

  function Set(L: ListValue, x: int): (r: ListValue)
    requires Valid(L) && L.cursor >= 0
    ensures Valid(r)
  {
    L.(items := L.items[L.cursor := x])
  }

  /** On a non-empty list the cursor goes to the front; otherwise nothing changes. */
  function MoveFront(L: ListValue): (r: ListValue)
    ensures Valid(L) ==> Valid(r)
  {
    if |L.items| > 0 then L.(cursor := 0) else L
  }

  function MoveBack(L: ListValue): (r: ListValue)
    ensures Valid(L) ==> Valid(r)
  {
    if |L.items| > 0 then L.(cursor := |L.items| - 1) else L
  }

  function MovePrev(L: ListValue): (r: ListValue)
    requires Valid(L)
    ensures Valid(r)
  {
    if L.cursor >= 0 then L.(cursor := L.cursor - 1) else L
  }

  function MoveNext(L: ListValue): (r: ListValue)
    requires Valid(L)
    ensures Valid(r)
  {
    if L.cursor < 0 then L
    else if L.cursor == |L.items| - 1 then L.(cursor := -1)
    else L.(cursor := L.cursor + 1)
  }

  function Prepend(L: ListValue, x: int): (r: ListValue)
    requires Valid(L)
    ensures Valid(r)
  {
    ListValue([x] + L.items, if L.cursor >= 0 then L.cursor + 1 else -1)
  }

  function Append(L: ListValue, x: int): (r: ListValue)
    requires Valid(L)
    ensures Valid(r)
  {
    ListValue(L.items + [x], L.cursor)
  }

  function InsertBefore(L: ListValue, x: int): (r: ListValue)
    requires Valid(L) && L.cursor >= 0
    ensures Valid(r)
  {
    ListValue(L.items[..L.cursor] + [x] + L.items[L.cursor..], L.cursor + 1)
  }

  function InsertAfter(L: ListValue, x: int): (r: ListValue)
    requires Valid(L) && L.cursor >= 0
    ensures Valid(r)
  {
    ListValue(L.items[..L.cursor + 1] + [x] + L.items[L.cursor + 1..], L.cursor)
  }

  function DeleteFront(L: ListValue): (r: ListValue)
    requires Valid(L) && |L.items| > 0
    ensures Valid(r)
  {
    ListValue(L.items[1..], if L.cursor <= 0 then -1 else L.cursor - 1)
  }

  function DeleteBack(L: ListValue): (r: ListValue)
    requires Valid(L) && |L.items| > 0
    ensures Valid(r)
  {
    ListValue(L.items[..|L.items| - 1], if L.cursor == |L.items| - 1 then -1 else L.cursor)
  }

  function Delete(L: ListValue): (r: ListValue)
    requires Valid(L) && L.cursor >= 0
    ensures Valid(r)
  {
    ListValue(L.items[..L.cursor] + L.items[L.cursor + 1..], -1)
  }

  function Copy(L: ListValue): (r: ListValue)
    ensures Valid(r)
  {
    ListValue(L.items, -1)
  }

  function Join(A: ListValue, B: ListValue): (r: ListValue)
    ensures Valid(r)
  {
    ListValue(A.items + B.items, -1)
  }

  /** The result of split: the shortened list and the removed front part. */
  datatype SplitResult = SplitResult(rest: ListValue, removed: ListValue)

  function Split(L: ListValue): (r: SplitResult)
    requires Valid(L) && L.cursor >= 0
    ensures Valid(r.rest) && Valid(r.removed)
  {
    SplitResult(ListValue(L.items[L.cursor..], 0), ListValue(L.items[..L.cursor], -1))
  }

  // ---------------------------------------------------------------------
  // Properties of the contract

  /** moveFront puts the cursor on the front element, and on an empty list changes nothing. */
  lemma MoveFrontPlacesCursor(L: ListValue)
    requires Valid(L)
    ensures |L.items| > 0 ==> Index(MoveFront(L)) == 0 && Get(MoveFront(L)) == Front(L)
    ensures |L.items| == 0 ==> MoveFront(L) == L && Index(MoveFront(L)) == -1
  {
  }

  /** set overwrites exactly the cursor element and keeps the cursor. */
  lemma SetOverwritesCursor(L: ListValue, x: int)
    requires Valid(L) && L.cursor >= 0
    ensures var r := Set(L, x);
      Get(r) == x && r.cursor == L.cursor && |r.items| == |L.items| &&
      forall i :: 0 <= i < |L.items| && i != L.cursor ==> r.items[i] == L.items[i]
  {
  }

  /** Splitting at the front removes nothing and leaves the elements in place. */
  lemma SplitAtFront(L: ListValue)
    requires Valid(L) && L.cursor == 0
    ensures Split(L).removed == NewList() && Split(L).rest == L
  {
  }

  /** Inserting before the cursor keeps the cursor on the same element, right after the new one. */
  lemma InsertBeforeKeepsCursorElement(L: ListValue, x: int)
    requires Valid(L) && L.cursor >= 0
    ensures var r := InsertBefore(L, x);
      Get(r) == Get(L) && r.items[r.cursor - 1] == x && |r.items| == |L.items| + 1
  {
  }

  /** Inserting before the cursor, stepping back and deleting restores the elements. */
  lemma DeleteUndoesInsertBefore(L: ListValue, x: int)
    requires Valid(L) && L.cursor >= 0
    ensures Delete(MovePrev(InsertBefore(L, x))).items == L.items
  {
    var r := InsertBefore(L, x);
    var c := L.cursor;
    assert r.items[..c] == L.items[..c];
    assert r.items[c + 1..] == L.items[c..];
    assert L.items[..c] + L.items[c..] == L.items;
  }

  lemma DeleteUndoesInsertAfter(L: ListValue, x: int)
    requires Valid(L) && L.cursor >= 0
    ensures Delete(MoveNext(InsertAfter(L, x))).items == L.items
  {
    var r := InsertAfter(L, x);
    var c := L.cursor;
    assert r.items[..c + 1] == L.items[..c + 1];
    assert r.items[c + 2..] == L.items[c + 1..];
    assert L.items[..c + 1] + L.items[c + 1..] == L.items;
  }

  /** Deleting the front undoes prepend, cursor included. */
  lemma DeleteFrontUndoesPrepend(L: ListValue, x: int)
    requires Valid(L)
    ensures DeleteFront(Prepend(L, x)) == L
  {
    assert ([x] + L.items)[1..] == L.items;
  }

  /** Deleting the back undoes append, cursor included. */
  lemma DeleteBackUndoesAppend(L: ListValue, x: int)
    requires Valid(L)
    ensures DeleteBack(Append(L, x)) == L
  {
    assert (L.items + [x])[..|L.items|] == L.items;
  }

  /** Joining what split removed with what it left gives the list back, and the cursor element is at the front. */
  lemma JoinUndoesSplit(L: ListValue)
    requires Valid(L) && L.cursor >= 0
    ensures var r := Split(L);
      Join(r.removed, r.rest).items == L.items && Get(r.rest) == Get(L) &&
      |r.removed.items| == L.cursor
  {
    assert L.items[..L.cursor] + L.items[L.cursor..] == L.items;
  }

  /** A copy equals its original and has no cursor. */
  lemma CopyEquals(L: ListValue)
    ensures Equals(Copy(L), L) && Copy(L).cursor == -1
  {
  }

  /** From the front, |L| moves visit every element and then leave the cursor undefined. */
  lemma {:induction false} MoveNextWalks(L: ListValue, k: nat)
    requires Valid(L) && L.cursor >= 0 && L.cursor + k <= |L.items|
    ensures MoveNextN(L, k).cursor == (if L.cursor + k == |L.items| then -1 else L.cursor + k)
    ensures MoveNextN(L, k).items == L.items
    decreases k
  {
    if k > 0 {
      MoveNextWalks(L, k - 1);
    }
  }

  /** k calls of moveNext. */
  function MoveNextN(L: ListValue, k: nat): (r: ListValue)
    requires Valid(L)
    ensures Valid(r)
    decreases k
  {
    if k == 0 then L else MoveNext(MoveNextN(L, k - 1))
  }
}
