/**
 * The doubly linked cursor list of depthFirstSearch/List.c, as it is
 * written. Its state is the sequence of elements, the cursor (the index of
 * the cursor node, or -1 for NULL) and the separately stored position,
 * which the code does not always keep equal to the cursor's index.
 *
 * A call the source ends with exit(EXIT_FAILURE) yields Exit. A call that
 * would dereference a NULL cursor has that excluded by its precondition.
 */
module CursorList {
  import C = ListContract

  datatype ListState = ListState(items: seq<int>, cursor: int, position: int)

  /** A result, or the error exit the source takes. */
  datatype Res<T> = Ok(value: T) | Exit

  /**
   * The states the code can reach: the cursor is NULL or on an element;
   * on an element, the position is its index; with a NULL cursor the
   * position is -1, or 0 after moveFront on an empty list.
   */
  predicate WellFormed(s: ListState)
  {
    -1 <= s.cursor < |s.items| &&
    (s.cursor >= 0 ==> s.position == s.cursor) &&
    (s.cursor < 0 ==> s.position == -1 || s.position == 0)
  }

  /** The position is the cursor's index or -1, as the header promises. */
  predicate Consistent(s: ListState)
  {
    -1 <= s.cursor < |s.items| && s.position == s.cursor
  }

  /** The list as the header's contract sees it. */
  function Abs(s: ListState): C.ListValue
  {
    C.ListValue(s.items, s.cursor)
  }

  const Empty := ListState([], -1, -1)

  // ---------------------------------------------------------------------
  // The operations as written

  function FrontOf(s: ListState): (r: Res<int>)
    ensures r.Ok? <==> |s.items| > 0
    ensures r.Ok? ==> r.value == C.Front(Abs(s))
  {
    if |s.items| == 0 then Exit else Ok(s.items[0])
  }

  function BackOf(s: ListState): (r: Res<int>)
    ensures r.Ok? <==> |s.items| > 0
    ensures r.Ok? ==> r.value == C.Back(Abs(s))
  {
    if |s.items| == 0 then Exit else Ok(s.items[|s.items| - 1])
  }

  /** get: an empty list exits; otherwise the cursor node is read. */
  function GetOf(s: ListState): (r: Res<int>)
    requires WellFormed(s) && (|s.items| > 0 ==> s.cursor >= 0)
    ensures r.Ok? <==> |s.items| > 0
    ensures r.Ok? ==> r.value == C.Get(Abs(s))
  {
    if |s.items| == 0 then Exit else Ok(s.items[s.cursor])
  }

  /** set: exits on an empty list and at position 0; otherwise writes the cursor node. */
  function SetOf(s: ListState, x: int): (r: Res<ListState>)
    requires WellFormed(s) && (|s.items| > 0 && s.position != 0 ==> s.cursor >= 0)
    ensures r.Ok? <==> |s.items| > 0 && s.position != 0
    ensures r.Ok? ==> WellFormed(r.value) && r.value.cursor == s.cursor && |r.value.items| == |s.items|
    ensures r.Ok? ==> r.value.items[s.cursor] == x
    ensures r.Ok? ==> forall i | 0 <= i < |s.items| && i != s.cursor :: r.value.items[i] == s.items[i]
  {
    if |s.items| == 0 then Exit
    else if s.position == 0 then Exit
    else Ok(s.(items := s.items[s.cursor := x]))
  }

  /** moveFront: the guard never fails, so an empty list gets position 0 and a NULL cursor. */
  function MoveFrontOf(s: ListState): (r: ListState)
    ensures WellFormed(s) ==> WellFormed(r)
    ensures r.position == 0 && r.items == s.items
  {
    s.(cursor := if |s.items| > 0 then 0 else -1, position := 0)
  }

  function MoveBackOf(s: ListState): (r: ListState)
    ensures WellFormed(s) ==> WellFormed(r)
    ensures r.items == s.items
    ensures |s.items| > 0 ==> Consistent(r) && r.cursor == |s.items| - 1
    ensures |s.items| == 0 ==> r == s
  {
    if |s.items| > 0 then s.(cursor := |s.items| - 1, position := |s.items| - 1) else s
  }

  function MovePrevOf(s: ListState): (r: ListState)
    ensures WellFormed(s) ==> WellFormed(r)
    ensures r.items == s.items
    ensures s.cursor < 0 ==> r == s
    ensures s.cursor >= 0 ==> r.cursor == s.cursor - 1
    ensures WellFormed(s) && s.cursor >= 0 ==> Consistent(r)
  {
    if s.cursor < 0 then s
    else if s.cursor == 0 then s.(cursor := -1, position := -1)
    else s.(cursor := s.cursor - 1, position := s.position - 1)
  }

  function MoveNextOf(s: ListState): (r: ListState)
    ensures WellFormed(s) ==> WellFormed(r)
    ensures r.items == s.items
    ensures s.cursor < 0 ==> r == s
    ensures 0 <= s.cursor < |s.items| - 1 ==> r.cursor == s.cursor + 1
    ensures s.cursor == |s.items| - 1 ==> r.cursor == -1
    ensures WellFormed(s) && s.cursor >= 0 ==> Consistent(r)
  {
    if s.cursor < 0 then s
    else if s.cursor == |s.items| - 1 then s.(cursor := -1, position := -1)
    else s.(cursor := s.cursor + 1, position := s.position + 1)
  }

  /** prepend: the position moves up only when the list was non-empty and the cursor is set. */
  function PrependOf(s: ListState, x: int): (r: ListState)
    requires WellFormed(s)
    ensures WellFormed(r) && r.items == [x] + s.items
  {
    if |s.items| == 0 then s.(items := [x])
    else if s.cursor >= 0 then ListState([x] + s.items, s.cursor + 1, s.position + 1)
    else s.(items := [x] + s.items)
  }

  function AppendOf(s: ListState, x: int): (r: ListState)
    ensures WellFormed(s) ==> WellFormed(r)
    ensures r.items == s.items + [x] && r.cursor == s.cursor && r.position == s.position
  {
    s.(items := s.items + [x])
  }

  /** insertBefore: exits at position -1 or on an empty list; otherwise links the node before the cursor. */
  function InsertBeforeOf(s: ListState, x: int): (r: Res<ListState>)
    requires WellFormed(s) && (s.position != -1 && |s.items| > 0 ==> s.cursor >= 0)
    ensures r.Ok? <==> s.position != -1 && |s.items| > 0
    ensures r.Ok? ==> WellFormed(r.value) && |r.value.items| == |s.items| + 1 && r.value.cursor == s.cursor + 1
    ensures r.Ok? ==> r.value.items[s.cursor] == x && r.value.items[r.value.cursor] == s.items[s.cursor]
    ensures r.Ok? ==> multiset(r.value.items) == multiset(s.items) + multiset{x}
  {
    if s.position == -1 then Exit
    else if |s.items| == 0 then Exit
    else
      assert s.items == s.items[..s.cursor] + s.items[s.cursor..];
      Ok(ListState(s.items[..s.cursor] + [x] + s.items[s.cursor..], s.cursor + 1, s.position + 1))
  }

  /** insertAfter: reads the cursor node before any check, so the cursor must be set. */
  function InsertAfterOf(s: ListState, x: int): (r: ListState)
    requires WellFormed(s) && s.cursor >= 0
    ensures WellFormed(r) && |r.items| == |s.items| + 1 && r.cursor == s.cursor
    ensures r.items[s.cursor + 1] == x && r.items[r.cursor] == s.items[s.cursor]
    ensures multiset(r.items) == multiset(s.items) + multiset{x}
  {
    assert s.items == s.items[..s.cursor + 1] + s.items[s.cursor + 1..];
    ListState(s.items[..s.cursor + 1] + [x] + s.items[s.cursor + 1..], s.cursor, s.position)
  }

  /** deleteFront: a cursor on the front becomes NULL, a cursor elsewhere moves down with its node. */
  function DeleteFrontOf(s: ListState): (r: Res<ListState>)
    requires WellFormed(s)
    ensures r.Ok? <==> |s.items| > 0
    ensures r.Ok? ==> WellFormed(r.value) && r.value.items == s.items[1..]
  {
    if |s.items| == 0 then Exit
    else if s.cursor == 0 then Ok(ListState(s.items[1..], -1, -1))
    else if s.cursor > 0 then Ok(ListState(s.items[1..], s.cursor - 1, s.position - 1))
    else Ok(s.(items := s.items[1..]))
  }

  function DeleteBackOf(s: ListState): (r: Res<ListState>)
    requires WellFormed(s)
    ensures r.Ok? <==> |s.items| > 0
    ensures r.Ok? ==> WellFormed(r.value)
  {
    if |s.items| == 0 then Exit
    else if s.cursor == |s.items| - 1 then Ok(ListState(s.items[..|s.items| - 1], -1, -1))
    else Ok(s.(items := s.items[..|s.items| - 1]))
  }

  /** delete: exits on an empty list or at position -1; otherwise unlinks the cursor node. */
  function DeleteOf(s: ListState): (r: Res<ListState>)
    requires WellFormed(s) && (|s.items| > 0 && s.position != -1 ==> s.cursor >= 0)
    ensures r.Ok? <==> |s.items| > 0 && s.position != -1
    ensures r.Ok? ==> Consistent(r.value) && r.value.cursor == -1 && |r.value.items| == |s.items| - 1
    ensures r.Ok? ==> multiset(r.value.items) + multiset{s.items[s.cursor]} == multiset(s.items)
  {
    if |s.items| == 0 then Exit
    else if s.position == -1 then Exit
    else
      assert s.items == s.items[..s.cursor] + [s.items[s.cursor]] + s.items[s.cursor + 1..];
      Ok(ListState(s.items[..s.cursor] + s.items[s.cursor + 1..], -1, -1))
  }

  /** clear: deleteFront until empty; a position left without a cursor survives. */
  function ClearOf(s: ListState): (r: ListState)
    requires WellFormed(s)
    ensures WellFormed(r) && r.items == []
  {
    ListState([], -1, if s.cursor >= 0 then -1 else s.position)
  }

  /** copyList: one element per node, but every one read from the front node. */
  function CopyOf(s: ListState): (r: ListState)
    ensures Consistent(r) && r.cursor == -1 && |r.items| == |s.items|
  {
    ListState(seq(|s.items|, _ requires |s.items| > 0 => s.items[0]), -1, -1)
  }

  function JoinOf(a: ListState, b: ListState): (r: ListState)
    ensures Consistent(r) && r.items == a.items + b.items
  {
    ListState(a.items + b.items, -1, -1)
  }

  datatype Parts = Parts(rest: ListState, removed: ListState)

  /**
   * split: exits on an empty list and at position 0. At position -1 the
   * loop runs no times; otherwise the elements before the cursor move to
   * the new list, in order, and the cursor ends at the front.
   */
  function SplitOf(s: ListState): (r: Res<Parts>)
    requires WellFormed(s)
    ensures r.Ok? ==> WellFormed(r.value.rest) && Consistent(r.value.removed)
    ensures r.Ok? ==> r.value.removed.items + r.value.rest.items == s.items
  {
    if |s.items| == 0 then Exit
    else if s.position == 0 then Exit
    else if s.position < 0 then Ok(Parts(s, Empty))
    else Ok(Parts(ListState(s.items[s.cursor..], 0, 0), ListState(s.items[..s.cursor], -1, -1)))
  }

  // ---------------------------------------------------------------------
  // Agreement with the header's contract

  /** On a consistent list the cursor moves do what the header says (moveFront only when non-empty). */
  lemma MovesMatchContract(s: ListState)
    requires Consistent(s)
    ensures |s.items| > 0 ==> Consistent(MoveFrontOf(s)) && Abs(MoveFrontOf(s)) == C.MoveFront(Abs(s))
    ensures Consistent(MoveBackOf(s)) && Abs(MoveBackOf(s)) == C.MoveBack(Abs(s))
    ensures Consistent(MovePrevOf(s)) && Abs(MovePrevOf(s)) == C.MovePrev(Abs(s))
    ensures Consistent(MoveNextOf(s)) && Abs(MoveNextOf(s)) == C.MoveNext(Abs(s))
  {
  }

  /** prepend, append, insertBefore and insertAfter do what the header says on a consistent list. */
  lemma InsertsMatchContract(s: ListState, x: int)
    requires Consistent(s)
    ensures Consistent(PrependOf(s, x)) && Abs(PrependOf(s, x)) == C.Prepend(Abs(s), x)
    ensures Consistent(AppendOf(s, x)) && Abs(AppendOf(s, x)) == C.Append(Abs(s), x)
    ensures s.cursor >= 0 ==>
      var r := InsertBeforeOf(s, x);
      r.Ok? && Consistent(r.value) && Abs(r.value) == C.InsertBefore(Abs(s), x)
    ensures s.cursor >= 0 ==>
      Consistent(InsertAfterOf(s, x)) && Abs(InsertAfterOf(s, x)) == C.InsertAfter(Abs(s), x)
  {
  }

  /** The three deletions do what the header says on a consistent list within their preconditions. */
  lemma DeletesMatchContract(s: ListState)
    requires Consistent(s) && |s.items| > 0
    ensures var r := DeleteFrontOf(s); r.Ok? && Consistent(r.value) && Abs(r.value) == C.DeleteFront(Abs(s))
    ensures var r := DeleteBackOf(s); r.Ok? && Consistent(r.value) && Abs(r.value) == C.DeleteBack(Abs(s))
    ensures s.cursor >= 0 ==>
      var r := DeleteOf(s); r.Ok? && Consistent(r.value) && Abs(r.value) == C.Delete(Abs(s))
  {
  }

  /** clear and join give the header's results on consistent lists. */
  lemma ClearAndJoinMatchContract(s: ListState, t: ListState)
    requires Consistent(s)
    ensures ClearOf(s) == Empty && Abs(ClearOf(s)) == C.Clear(Abs(s))
    ensures Abs(JoinOf(s, t)) == C.Join(Abs(s), Abs(t))
  {
  }

  /** Away from the front, set and split do what the header says. */
  lemma SetAndSplitMatchContractAwayFromFront(s: ListState, x: int)
    requires Consistent(s) && s.cursor > 0
    ensures var r := SetOf(s, x); r.Ok? && Consistent(r.value) && Abs(r.value) == C.Set(Abs(s), x)
    ensures var r := SplitOf(s);
      r.Ok? && Consistent(r.value.rest) && Abs(r.value.rest) == C.Split(Abs(s)).rest &&
      Abs(r.value.removed) == C.Split(Abs(s)).removed
  {
  }

  /** copyList is right exactly when every element equals the front one. */
  lemma CopyCorrectIffConstant(s: ListState)
    ensures CopyOf(s).items == s.items <==> forall i :: 0 <= i < |s.items| ==> s.items[i] == s.items[0]
  {
    if forall i :: 0 <= i < |s.items| ==> s.items[i] == s.items[0] {
      assert CopyOf(s).items == s.items;
    } else {
      var i :| 0 <= i < |s.items| && s.items[i] != s.items[0];
      assert CopyOf(s).items[i] == s.items[0];
    }
  }

  // ---------------------------------------------------------------------
  // Where the code departs from its contract

  /** moveFront on an empty list reports position 0 with no cursor; the header's moveFront leaves -1. */
  lemma MoveFrontOnEmptySetsPosition()
    ensures MoveFrontOf(Empty) == ListState([], -1, 0)
    ensures !Consistent(MoveFrontOf(Empty))
    ensures C.Index(C.MoveFront(Abs(Empty))) == -1
  {
  }

  /** set exits with the cursor on the front element, where the header allows it. */
  lemma SetRejectsFront(s: ListState, x: int)
    requires Consistent(s) && s.cursor == 0
    ensures SetOf(s, x) == Exit
    ensures C.Get(C.Set(Abs(s), x)) == x
  {
  }

  /** copyList of [1, 2] is [1, 1]. */
  lemma CopyRepeatsFront()
    ensures CopyOf(ListState([1, 2], -1, -1)).items == [1, 1]
    ensures !C.Equals(Abs(CopyOf(ListState([1, 2], -1, -1))), Abs(ListState([1, 2], -1, -1)))
  {
  }

  /** split exits with the cursor on the front element, where the header's split removes nothing. */
  lemma SplitRejectsFront(s: ListState)
    requires Consistent(s) && s.cursor == 0
    ensures SplitOf(s) == Exit
    ensures C.Split(Abs(s)).rest == Abs(s) && C.Split(Abs(s)).removed.items == []
  {
  }

  // ---------------------------------------------------------------------
  // The list object

  class List {
    var items: seq<int>
    var cursor: int
    var position: int

    function State(): ListState
      reads this
    {
      ListState(items, cursor, position)
    }

    /** newList */
    constructor ()
      ensures State() == Empty
    {
      items := [];
      cursor := -1;
      position := -1;
    }

    function Length(): (n: nat)
      reads this
      ensures n == |State().items|
    {
      |items|
    }

    function Position(): (p: int)
      reads this
      ensures p == State().position
    {
      position
    }

    method Set(x: int) returns (ok: bool)
      requires WellFormed(State()) && (|items| > 0 && position != 0 ==> cursor >= 0)
      modifies this
      ensures var r := SetOf(old(State()), x);
        ok == r.Ok? && State() == (if ok then r.value else old(State()))
    {
      if |items| == 0 {
        return false;
      }
      if position == 0 {
        return false;
      }
      items := items[cursor := x];
      return true;
    }

    method MoveFront()
      modifies this
      ensures State() == MoveFrontOf(old(State()))
    {
      cursor := if |items| > 0 then 0 else -1;
      position := 0;
    }

    method MoveBack()
      modifies this
      ensures State() == MoveBackOf(old(State()))
    {
      if |items| != 0 {
        cursor := |items| - 1;
        position := |items| - 1;
      }
    }

    method MovePrev()
      modifies this
      ensures State() == MovePrevOf(old(State()))
    {
      if cursor >= 0 {
        if cursor != 0 {
          cursor := cursor - 1;
          position := position - 1;
        } else {
          cursor := -1;
          position := -1;
        }
      }
    }

    method MoveNext()
      modifies this
      ensures State() == MoveNextOf(old(State()))
    {
      if cursor >= 0 {
        if cursor != |items| - 1 {
          cursor := cursor + 1;
          position := position + 1;
        } else {
          cursor := -1;
          position := -1;
        }
      }
    }

    method Prepend(x: int)
      requires WellFormed(State())
      modifies this
      ensures State() == PrependOf(old(State()), x)
    {
      if |items| == 0 {
        items := [x];
      } else {
        items := [x] + items;
        if cursor >= 0 {
          cursor := cursor + 1;
          position := position + 1;
        }
      }
    }

    method Append(x: int)
      modifies this
      ensures State() == AppendOf(old(State()), x)
    {
      items := items + [x];
    }

    method InsertBefore(x: int) returns (ok: bool)
      requires WellFormed(State()) && (position != -1 && |items| > 0 ==> cursor >= 0)
      modifies this
      ensures var r := InsertBeforeOf(old(State()), x);
        ok == r.Ok? && State() == (if ok then r.value else old(State()))
    {
      if position == -1 || |items| == 0 {
        return false;
      }
      items := items[..cursor] + [x] + items[cursor..];
      cursor := cursor + 1;
      position := position + 1;
      return true;
    }

    method InsertAfter(x: int)
      requires WellFormed(State()) && cursor >= 0
      modifies this
      ensures State() == InsertAfterOf(old(State()), x)
    {
      items := items[..cursor + 1] + [x] + items[cursor + 1..];
    }

    method DeleteFront() returns (ok: bool)
      requires WellFormed(State())
      modifies this
      ensures var r := DeleteFrontOf(old(State()));
        ok == r.Ok? && State() == (if ok then r.value else old(State()))
    {
      if |items| == 0 {
        return false;
      }
      items := items[1..];
      if cursor == 0 {
        cursor := -1;
        position := -1;
      } else if cursor > 0 {
        cursor := cursor - 1;
        position := position - 1;
      }
      return true;
    }

    method DeleteBack() returns (ok: bool)
      requires WellFormed(State())
      modifies this
      ensures var r := DeleteBackOf(old(State()));
        ok == r.Ok? && State() == (if ok then r.value else old(State()))
    {
      if |items| == 0 {
        return false;
      }
      if cursor == |items| - 1 {
        cursor := -1;
        position := -1;
      }
      items := items[..|items| - 1];
      return true;
    }

    method Delete() returns (ok: bool)
      requires WellFormed(State()) && (|items| > 0 && position != -1 ==> cursor >= 0)
      modifies this
      ensures var r := DeleteOf(old(State()));
        ok == r.Ok? && State() == (if ok then r.value else old(State()))
    {
      if |items| == 0 || position == -1 {
        return false;
      }
      items := items[..cursor] + items[cursor + 1..];
      cursor := -1;
      position := -1;
      return true;
    }

    /** clear: deleteFront while the list is non-empty. */
    method Clear()
      requires WellFormed(State())
      modifies this
      ensures State() == ClearOf(old(State()))
    {
      while |items| > 0
        invariant WellFormed(State())
        invariant old(cursor) < 0 ==> cursor == -1 && position == old(position)
        invariant old(cursor) >= 0 ==> cursor >= 0 || position == -1
        decreases |items|
      {
        var _ := DeleteFront();
      }
    }

    /** equals: equal lengths, then the elements pairwise from the front. */
    method Equals(B: List) returns (eq: bool)
      ensures eq <==> items == B.items
    {
      eq := |items| == |B.items|;
      var i := 0;
      while eq && i < |items|
        invariant 0 <= i <= |items|
        invariant eq ==> |items| == |B.items| && items[..i] == B.items[..i]
        invariant !eq ==> items != B.items
      {
        eq := items[i] == B.items[i];
        if eq {
          assert items[..i + 1] == items[..i] + [items[i]];
          assert B.items[..i + 1] == B.items[..i] + [B.items[i]];
        }
        i := i + 1;
      }
      if eq {
        assert items[..|items|] == items && B.items[..|B.items|] == B.items;
      }
    }

    /** copyList: a fresh list with one append per node, each of the front element. */
    method CopyList() returns (M: List)
      ensures fresh(M) && M.State() == CopyOf(State())
    {
      M := new List();
      var xs := items;
      var i := 0;
      while i < |xs|
        invariant 0 <= i <= |xs|
        invariant fresh(M) && xs == items
        invariant M.State() == ListState(seq(i, _ requires |xs| > 0 => xs[0]), -1, -1)
      {
        M.Append(xs[0]);
        i := i + 1;
      }
    }

    /**
     * split: exits on an empty list or at position 0; otherwise moves the
     * front element to a fresh list position() times.
     */
    method Split() returns (ok: bool, M: List)
      requires WellFormed(State())
      modifies this
      ensures fresh(M)
      ensures var r := SplitOf(old(State()));
        ok == r.Ok? &&
        (ok ==> State() == r.value.rest && M.State() == r.value.removed) &&
        (!ok ==> State() == old(State()))
    {
      M := new List();
      if |items| == 0 || position == 0 {
        return false, M;
      }
      var i := 0;
      var j := position;
      while i < j
        invariant 0 <= i && (j >= 0 ==> i <= j)
        invariant j > 0 ==> j == old(cursor) && items == old(items)[i..] && cursor == j - i && position == j - i
        invariant j > 0 ==> M.State() == ListState(old(items)[..i], -1, -1)
        invariant fresh(M) && M != this
        invariant j < 0 ==> State() == old(State()) && M.State() == Empty
      {
        M.Append(items[0]);
        assert old(items)[..i + 1] == old(items)[..i] + [old(items)[i]];
        var _ := DeleteFront();
        assert old(items)[i..][1..] == old(items)[i + 1..];
        i := i + 1;
      }
      return true, M;
    }
  }

  /** join: a fresh list holding A's elements, then B's. */
  method Join(A: List, B: List) returns (L: List)
    ensures fresh(L) && L.State() == JoinOf(A.State(), B.State())
  {
    L := new List();
    var i := 0;
    while i < |A.items|
      invariant 0 <= i <= |A.items|
      invariant L.State() == ListState(A.items[..i], -1, -1)
    {
      L.Append(A.items[i]);
      assert A.items[..i + 1] == A.items[..i] + [A.items[i]];
      i := i + 1;
    }
    var k := 0;
    while k < |B.items|
      invariant 0 <= k <= |B.items|
      invariant L.State() == ListState(A.items + B.items[..k], -1, -1)
    {
      L.Append(B.items[k]);
      assert B.items[..k + 1] == B.items[..k] + [B.items[k]];
      k := k + 1;
    }
    assert A.items[..|A.items|] == A.items && B.items[..|B.items|] == B.items;
  }
}
