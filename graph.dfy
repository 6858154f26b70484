/**
 * The breadth-first-search graph of breadthFirstSearch/Graph.c: vertices
 * 1..n, one adjacency list per vertex, and the colour, parent and distance
 * arrays that BFS fills in. Slot 0 of every array is allocated and unused,
 * as in the C code. The adjacency lists and the BFS queue are driven through
 * the List.h contract (module ListContract).
 */
module Graph {
  import LC = ListContract

  const NIL := -2
  const INF := -1
  const White := 0
  const Grey := 1
  const Black := 2

  /** An operation that either returns or ends the program through exit(). */
  datatype Res<T> = Ok(value: T) | Exit

  // ---------------------------------------------------------------------
  // Graphs, trees and paths as values

  /** Every adjacency entry is a vertex 1..n. */
  predicate AdjOk(n: int, A: seq<seq<int>>)
  {
    n >= 0 && |A| == n + 1 &&
    forall u, j :: 0 <= u <= n && 0 <= j < |A[u]| ==> 1 <= A[u][j] <= n
  }

  /** A walk along adjacency entries: each vertex lists the next one. */
  predicate IsPath(A: seq<seq<int>>, p: seq<int>)
  {
    |p| >= 1 && forall i :: 0 <= i < |p| - 1 ==> 0 <= p[i] < |A| && p[i + 1] in A[p[i]]
  }

  /** Every vertex with a parent is one step further from the source than its parent. */
  predicate ParentsOk(n: int, D: seq<int>, P: seq<int>)
  {
    |D| == n + 1 && |P| == n + 1 &&
    forall v :: 1 <= v <= n && P[v] != NIL ==> 1 <= P[v] <= n && D[P[v]] >= 0 && D[v] == D[P[v]] + 1
  }

  /**
   * A BFS tree rooted at s: s has distance 0 and no parent, a vertex other
   * than s has a parent exactly when its distance is finite, and every
   * parent lists its child.
   */
  predicate Tree(n: int, D: seq<int>, P: seq<int>, A: seq<seq<int>>, s: int)
  {
    ParentsOk(n, D, P) && |A| == n + 1 &&
    1 <= s <= n && D[s] == 0 && P[s] == NIL &&
    (forall v :: 1 <= v <= n ==> D[v] >= INF) &&
    (forall v :: 1 <= v <= n && v != s ==> (D[v] == INF <==> P[v] == NIL)) &&
    (forall v :: 1 <= v <= n && 1 <= P[v] <= n ==> v in A[P[v]])
  }

  /** Distances are closed under edges: a neighbour of a reached vertex is reached, at most one step further. */
  predicate Closed(n: int, D: seq<int>, A: seq<seq<int>>)
  {
    |D| == n + 1 && |A| == n + 1 &&
    forall v, w :: 1 <= v <= n && D[v] >= 0 && w in A[v] ==> 0 <= w <= n && D[w] >= 0 && D[w] <= D[v] + 1
  }

  /** getPath's list: the parent chain from the source down to u, or NIL where the chain breaks. */
  function PathOf(n: int, D: seq<int>, P: seq<int>, s: int, u: int): (p: seq<int>)
    requires ParentsOk(n, D, P) && 1 <= u <= n
    ensures |p| >= 1 && p[|p| - 1] == (if u == s || P[u] != NIL then u else NIL)
    decreases D[u]
  {
    if u == s then [u]
    else if P[u] == NIL then [NIL]
    else PathOf(n, D, P, s, P[u]) + [u]
  }

  /** In a BFS tree the parent chain of a reached vertex is a path from the source with distance + 1 vertices. */
  lemma {:induction false} TreePathIsPath(n: int, D: seq<int>, P: seq<int>, A: seq<seq<int>>, s: int, v: int)
    requires Tree(n, D, P, A, s) && 1 <= v <= n && D[v] >= 0
    ensures var p := PathOf(n, D, P, s, v);
      IsPath(A, p) && p[0] == s && p[|p| - 1] == v && |p| == D[v] + 1
    decreases D[v]
  {
    if v != s {
      var u := P[v];
      TreePathIsPath(n, D, P, A, s, u);
      var q := PathOf(n, D, P, s, u);
      var p := q + [v];
      assert PathOf(n, D, P, s, v) == p;
      forall i | 0 <= i < |p| - 1
        ensures 0 <= p[i] < |A| && p[i + 1] in A[p[i]]
      {
        if i < |q| - 1 {
          assert p[i] == q[i] && p[i + 1] == q[i + 1];
        } else {
          assert p[i] == u && p[i + 1] == v;
        }
      }
    }
  }

  /** With closed distances, every path from the source ends at a reached vertex no further than the path is long. */
  lemma {:induction false} PathsAreNoShorter(n: int, D: seq<int>, A: seq<seq<int>>, s: int, p: seq<int>)
    requires AdjOk(n, A) && Closed(n, D, A) && 1 <= s <= n && D[s] == 0
    requires IsPath(A, p) && p[0] == s
    ensures 1 <= p[|p| - 1] <= n && D[p[|p| - 1]] >= 0 && D[p[|p| - 1]] <= |p| - 1
    decreases |p|
  {
    if |p| > 1 {
      var q := p[..|p| - 1];
      assert IsPath(A, q) by {
        forall i | 0 <= i < |q| - 1
          ensures 0 <= q[i] < |A| && q[i + 1] in A[q[i]]
        {
          assert q[i] == p[i] && q[i + 1] == p[i + 1];
        }
      }
      PathsAreNoShorter(n, D, A, s, q);
      var u, w := p[|p| - 2], p[|p| - 1];
      assert 1 <= u <= n && D[u] >= 0 && D[u] <= |p| - 2 by {
        assert u == q[|q| - 1];
      }
      assert w in A[u];
      EdgeStep(n, D, A, u, w);
    }
  }

  /** An edge out of a reached vertex leads to a vertex 1..n reached at most one step further. */
  lemma EdgeStep(n: int, D: seq<int>, A: seq<seq<int>>, u: int, w: int)
    requires AdjOk(n, A) && Closed(n, D, A) && 1 <= u <= n && D[u] >= 0 && w in A[u]
    ensures 1 <= w <= n && D[w] >= 0 && D[w] <= D[u] + 1
  {
    var j :| 0 <= j < |A[u]| && A[u][j] == w;
  }

  /**
   * After BFS, the distance of v is the number of edges on a shortest path
   * from the source: the parent chain is such a path, no path is shorter,
   * and an unreached vertex has no path at all.
   */
  lemma DistanceIsShortest(n: int, D: seq<int>, P: seq<int>, A: seq<seq<int>>, s: int, v: int)
    requires AdjOk(n, A) && Tree(n, D, P, A, s) && Closed(n, D, A) && 1 <= v <= n
    ensures D[v] >= 0 ==> var p := PathOf(n, D, P, s, v);
      IsPath(A, p) && p[0] == s && p[|p| - 1] == v && |p| == D[v] + 1
    ensures forall p :: IsPath(A, p) && p[0] == s && p[|p| - 1] == v ==> D[v] >= 0 && D[v] + 1 <= |p|
    ensures D[v] == INF <==> PathOf(n, D, P, s, v) == [NIL]
  {
    if D[v] >= 0 {
      TreePathIsPath(n, D, P, A, s, v);
    }
    forall p | IsPath(A, p) && p[0] == s && p[|p| - 1] == v
      ensures D[v] >= 0 && D[v] + 1 <= |p|
    {
      PathsAreNoShorter(n, D, A, s, p);
    }
  }

  // ---------------------------------------------------------------------
  // The BFS loop invariant, on values

  predicate Colours(n: int, C: seq<int>, D: seq<int>)
  {
    |C| == n + 1 && |D| == n + 1 &&
    forall v :: 1 <= v <= n ==> White <= C[v] <= Black && (C[v] == White <==> D[v] == INF)
  }

  /**
   * The queue holds distinct grey vertices in order of distance, all at
   * distance cur or cur + 1, and every grey vertex but x is queued.
   */
  predicate Queue(n: int, C: seq<int>, D: seq<int>, Q: seq<int>, cur: int, x: int)
  {
    |C| == n + 1 && |D| == n + 1 &&
    (forall i :: 0 <= i < |Q| ==> 1 <= Q[i] <= n && C[Q[i]] == Grey && cur <= D[Q[i]] <= cur + 1) &&
    (forall i, j :: 0 <= i < j < |Q| ==> Q[i] != Q[j] && D[Q[i]] <= D[Q[j]]) &&
    (forall v :: 1 <= v <= n && C[v] == Grey && v != x ==> v in Q)
  }

  /** No reached vertex is further than cur + 1. */
  predicate Frontier(n: int, C: seq<int>, D: seq<int>, cur: int)
  {
    |C| == n + 1 && |D| == n + 1 &&
    forall v :: 1 <= v <= n && C[v] != White ==> D[v] <= cur + 1
  }

  /** Every neighbour of a black vertex is reached, at most one step further. */
  predicate Finished(n: int, C: seq<int>, D: seq<int>, A: seq<seq<int>>)
  {
    AdjOk(n, A) && |C| == n + 1 && |D| == n + 1 &&
    forall v, j :: 1 <= v <= n && C[v] == Black && 0 <= j < |A[v]| ==> D[A[v][j]] >= 0 && D[A[v][j]] <= D[v] + 1
  }

  /** The outer loop's invariant; x is 0, a vertex that is never grey. */
  predicate Inv(n: int, C: seq<int>, D: seq<int>, P: seq<int>, A: seq<seq<int>>, Q: seq<int>, s: int, cur: int, x: int)
  {
    AdjOk(n, A) && Tree(n, D, P, A, s) && Colours(n, C, D) && Queue(n, C, D, Q, cur, x) &&
    Frontier(n, C, D, cur) && Finished(n, C, D, A)
  }

  /** The inner loop's invariant: x has been dequeued and its first i neighbours are reached. */
  predicate Scanning(n: int, C: seq<int>, D: seq<int>, P: seq<int>, A: seq<seq<int>>, Q: seq<int>, s: int, cur: int, x: int, i: int)
  {
    Inv(n, C, D, P, A, Q, s, cur, x) &&
    1 <= x <= n && C[x] == Grey && x !in Q && D[x] == cur && 0 <= i <= |A[x]| &&
    forall j :: 0 <= j < i ==> D[A[x][j]] >= 0 && D[A[x][j]] <= cur + 1
  }

  lemma InitialInv(n: int, C: seq<int>, D: seq<int>, P: seq<int>, A: seq<seq<int>>, s: int)
    requires AdjOk(n, A) && 1 <= s <= n && |C| == n + 1 && |D| == n + 1 && |P| == n + 1
    requires forall v :: 1 <= v <= n && v != s ==> C[v] == White && D[v] == INF && P[v] == NIL
    requires C[s] == Grey && D[s] == 0 && P[s] == NIL
    ensures Inv(n, C, D, P, A, [s], s, 0, 0)
  {
  }

  lemma DequeueStep(n: int, C: seq<int>, D: seq<int>, P: seq<int>, A: seq<seq<int>>, Q: seq<int>, s: int, cur: int)
    requires Inv(n, C, D, P, A, Q, s, cur, 0) && |Q| > 0
    ensures Scanning(n, C, D, P, A, Q[1..], s, D[Q[0]], Q[0], 0)
  {
    DequeueQueue(n, C, D, Q, cur);
    assert Frontier(n, C, D, D[Q[0]]);
  }

  /** Taking the front x off the queue leaves a queue for distance D[x] with x missing. */
  lemma DequeueQueue(n: int, C: seq<int>, D: seq<int>, Q: seq<int>, cur: int)
    requires Queue(n, C, D, Q, cur, 0) && |Q| > 0
    ensures var x := Q[0];
      Queue(n, C, D, Q[1..], D[x], x) && x !in Q[1..] && cur <= D[x] && 1 <= x <= n && C[x] == Grey
  {
    var x := Q[0];
    var Q' := Q[1..];
    assert x !in Q' by {
      forall k | 0 <= k < |Q'|
        ensures Q'[k] != x
      {
        assert Q'[k] == Q[k + 1];
      }
    }
    forall v | 1 <= v <= n && C[v] == Grey && v != x
      ensures v in Q'
    {
      var k :| 0 <= k < |Q| && Q[k] == v;
      assert Q'[k - 1] == v;
    }
    forall i | 0 <= i < |Q'|
      ensures D[x] <= D[Q'[i]] <= D[x] + 1
    {
      assert Q'[i] == Q[i + 1];
    }
  }

  lemma DiscoverStep(n: int, C: seq<int>, D: seq<int>, P: seq<int>, A: seq<seq<int>>, Q: seq<int>, s: int, cur: int, x: int, i: int)
    requires Scanning(n, C, D, P, A, Q, s, cur, x, i) && i < |A[x]| && C[A[x][i]] == White
    ensures var y := A[x][i];
      Scanning(n, C[y := Grey], D[y := cur + 1], P[y := x], A, Q + [y], s, cur, x, i + 1)
  {
    var y := A[x][i];
    assert y != s && y != x;
    assert y !in Q;
    var C', D', P', Q' := C[y := Grey], D[y := cur + 1], P[y := x], Q + [y];
    DiscoverKeepsTree(n, D, P, A, s, x, y);
    DiscoverKeepsQueue(n, C, D, Q, cur, x, y);
    DiscoverKeepsFinished(n, C, D, A, y, cur + 1);
    DiscoverKeepsColours(n, C, D, y, cur);
    DiscoverExtendsScan(D, A[x], i, cur);
    ScanningIntro(n, C', D', P', A, Q', s, cur, x, i + 1);
  }

  /** The inner loop's invariant from its parts. */
  lemma ScanningIntro(n: int, C: seq<int>, D: seq<int>, P: seq<int>, A: seq<seq<int>>, Q: seq<int>, s: int, cur: int, x: int, i: int)
    requires AdjOk(n, A) && Tree(n, D, P, A, s) && Colours(n, C, D) && Queue(n, C, D, Q, cur, x)
    requires Frontier(n, C, D, cur) && Finished(n, C, D, A)
    requires 1 <= x <= n && C[x] == Grey && x !in Q && D[x] == cur && 0 <= i <= |A[x]|
    requires forall j :: 0 <= j < i ==> D[A[x][j]] >= 0 && D[A[x][j]] <= cur + 1
    ensures Scanning(n, C, D, P, A, Q, s, cur, x, i)
  {
  }

  /** Greying y at distance cur + 1 keeps the colours consistent and the frontier at cur + 1. */
  lemma DiscoverKeepsColours(n: int, C: seq<int>, D: seq<int>, y: int, cur: int)
    requires Colours(n, C, D) && Frontier(n, C, D, cur) && 1 <= y <= n && cur >= 0
    ensures Colours(n, C[y := Grey], D[y := cur + 1]) && Frontier(n, C[y := Grey], D[y := cur + 1], cur)
  {
  }

  /** Reaching the i-th neighbour at cur + 1 extends the scanned prefix by one. */
  lemma DiscoverExtendsScan(D: seq<int>, xs: seq<int>, i: int, cur: int)
    requires 0 <= i < |xs| && forall j :: 0 <= j < |xs| ==> 0 <= xs[j] < |D|
    requires D[xs[i]] == INF && cur >= 0
    requires forall j :: 0 <= j < i ==> D[xs[j]] >= 0 && D[xs[j]] <= cur + 1
    ensures var D' := D[xs[i] := cur + 1];
      forall j :: 0 <= j < i + 1 ==> D'[xs[j]] >= 0 && D'[xs[j]] <= cur + 1
  {
    var D' := D[xs[i] := cur + 1];
    forall j | 0 <= j < i + 1
      ensures D'[xs[j]] >= 0 && D'[xs[j]] <= cur + 1
    {
      if j < i {
        assert xs[j] != xs[i];
      }
    }
  }

  lemma DiscoverKeepsTree(n: int, D: seq<int>, P: seq<int>, A: seq<seq<int>>, s: int, x: int, y: int)
    requires Tree(n, D, P, A, s) && 1 <= x <= n && D[x] >= 0 && 1 <= y <= n && y != s && D[y] == INF && y in A[x]
    ensures Tree(n, D[y := D[x] + 1], P[y := x], A, s)
  {
    var D', P' := D[y := D[x] + 1], P[y := x];
    forall v | 1 <= v <= n && P'[v] != NIL
      ensures 1 <= P'[v] <= n && D'[P'[v]] >= 0 && D'[v] == D'[P'[v]] + 1
    {
      if v != y {
        assert P[v] != y;
      }
    }
  }

  lemma DiscoverKeepsQueue(n: int, C: seq<int>, D: seq<int>, Q: seq<int>, cur: int, x: int, y: int)
    requires Queue(n, C, D, Q, cur, x) && 1 <= y <= n && C[y] == White && y !in Q
    ensures Queue(n, C[y := Grey], D[y := cur + 1], Q + [y], cur, x)
  {
    var C', D', Q' := C[y := Grey], D[y := cur + 1], Q + [y];
    forall k | 0 <= k < |Q'|
      ensures 1 <= Q'[k] <= n && C'[Q'[k]] == Grey && cur <= D'[Q'[k]] <= cur + 1
    {
      if k < |Q| {
        assert Q'[k] == Q[k];
      }
    }
    forall k, l | 0 <= k < l < |Q'|
      ensures Q'[k] != Q'[l] && D'[Q'[k]] <= D'[Q'[l]]
    {
      if l < |Q| {
        assert Q'[k] == Q[k] && Q'[l] == Q[l];
      } else {
        assert Q'[k] == Q[k] && Q'[l] == y;
      }
    }
    forall v | 1 <= v <= n && C'[v] == Grey && v != x
      ensures v in Q'
    {
      if v != y {
        assert v in Q;
      }
    }
  }

  lemma DiscoverKeepsFinished(n: int, C: seq<int>, D: seq<int>, A: seq<seq<int>>, y: int, d: int)
    requires Finished(n, C, D, A) && 1 <= y <= n && C[y] == White && D[y] == INF
    ensures Finished(n, C[y := Grey], D[y := d], A)
  {
    var C', D' := C[y := Grey], D[y := d];
    forall v, j | 1 <= v <= n && C'[v] == Black && 0 <= j < |A[v]|
      ensures D'[A[v][j]] >= 0 && D'[A[v][j]] <= D'[v] + 1
    {
      assert v != y && A[v][j] != y;
    }
  }

  lemma SkipStep(n: int, C: seq<int>, D: seq<int>, P: seq<int>, A: seq<seq<int>>, Q: seq<int>, s: int, cur: int, x: int, i: int)
    requires Scanning(n, C, D, P, A, Q, s, cur, x, i) && i < |A[x]| && C[A[x][i]] != White
    ensures Scanning(n, C, D, P, A, Q, s, cur, x, i + 1)
  {
  }

  lemma FinishStep(n: int, C: seq<int>, D: seq<int>, P: seq<int>, A: seq<seq<int>>, Q: seq<int>, s: int, cur: int, x: int)
    requires 0 <= x < |A| && Scanning(n, C, D, P, A, Q, s, cur, x, |A[x]|)
    ensures Inv(n, C[x := Black], D, P, A, Q, s, cur, 0)
  {
    var C' := C[x := Black];
    assert Queue(n, C', D, Q, cur, 0) by {
      forall k | 0 <= k < |Q|
        ensures C'[Q[k]] == Grey
      {
        assert Q[k] != x;
      }
    }
  }

  lemma FinalStep(n: int, C: seq<int>, D: seq<int>, P: seq<int>, A: seq<seq<int>>, s: int, cur: int)
    requires Inv(n, C, D, P, A, [], s, cur, 0)
    ensures Closed(n, D, A)
    ensures forall v :: 1 <= v <= n ==> C[v] == (if D[v] == INF then White else Black)
  {
    forall v, w | 1 <= v <= n && D[v] >= 0 && w in A[v]
      ensures 0 <= w <= n && D[w] >= 0 && D[w] <= D[v] + 1
    {
      var j :| 0 <= j < |A[v]| && A[v][j] == w;
    }
  }

  // ---------------------------------------------------------------------
  // addArc's insertion point and the adjacency entry count

  /** The index of the first element of xs that is at least v, or |xs|. */
  function FirstAtLeast(xs: seq<int>, v: int): (k: nat)
    ensures k <= |xs| && (forall j :: 0 <= j < k ==> xs[j] < v) && (k < |xs| ==> xs[k] >= v)
  {
    if xs == [] || xs[0] >= v then 0 else 1 + FirstAtLeast(xs[1..], v)
  }

  /** addArc's list: v inserted before the first element that is at least v, or at the end. */
  function InsertSorted(xs: seq<int>, v: int): seq<int>
  {
    var k := FirstAtLeast(xs, v);
    xs[..k] + [v] + xs[k..]
  }

  predicate Sorted(xs: seq<int>)
  {
    forall i, j :: 0 <= i < j < |xs| ==> xs[i] <= xs[j]
  }

  /** addArc keeps a sorted list sorted and adds exactly one v. */
  lemma InsertSortedKeepsSorted(xs: seq<int>, v: int)
    ensures multiset(InsertSorted(xs, v)) == multiset(xs) + multiset{v}
    ensures Sorted(xs) ==> Sorted(InsertSorted(xs, v))
  {
    var k := FirstAtLeast(xs, v);
    var a, b := xs[..k], xs[k..];
    assert xs == a + b;
    assert multiset(a + [v] + b) == multiset(a) + multiset{v} + multiset(b);
    if Sorted(xs) {
      InsertBetweenSorted(a, v, b);
    }
  }

  /** v placed between a sorted prefix below it and a sorted suffix starting at or above it keeps the list sorted. */
  lemma InsertBetweenSorted(a: seq<int>, v: int, b: seq<int>)
    requires Sorted(a + b) && (forall j :: 0 <= j < |a| ==> a[j] < v) && (b != [] ==> b[0] >= v)
    ensures Sorted(a + [v] + b)
  {
    var xs, r, k := a + b, a + [v] + b, |a|;
    forall i, j | 0 <= i < j < |r|
      ensures r[i] <= r[j]
    {
      if j < k {
        assert r[i] == xs[i] && r[j] == xs[j];
      } else if j == k {
        assert r[i] == a[i] && r[j] == v;
      } else if i < k {
        assert r[i] == xs[i] && r[j] == xs[j - 1];
      } else if i == k {
        assert r[i] == v && r[j] == xs[j - 1] && xs[j - 1] >= xs[k] && xs[k] == b[0];
      } else {
        assert r[i] == xs[i - 1] && r[j] == xs[j - 1];
      }
    }
  }

  /** addEdge's adjacency: v appended to u's list, then u appended to v's list. */
  function EdgeAdded(A: seq<seq<int>>, u: int, v: int): (r: seq<seq<int>>)
    requires 0 <= u < |A| && 0 <= v < |A|
    ensures |r| == |A|
  {
    var A1 := A[u := A[u] + [v]];
    A1[v := A1[v] + [u]]
  }

  /** The number of adjacency entries, summed over all lists. */
  function Entries(A: seq<seq<int>>): nat
  {
    if A == [] then 0 else Entries(A[..|A| - 1]) + |A[|A| - 1]|
  }

  lemma {:induction false} EntriesUpdate(A: seq<seq<int>>, u: int, xs: seq<int>)
    requires 0 <= u < |A|
    ensures Entries(A[u := xs]) + |A[u]| == Entries(A) + |xs|
    decreases |A|
  {
    var B := A[u := xs];
    assert B[..|B| - 1] == if u == |A| - 1 then A[..|A| - 1] else A[..|A| - 1][u := xs];
    if u < |A| - 1 {
      EntriesUpdate(A[..|A| - 1], u, xs);
    }
  }

  /** An undirected edge is listed from both ends and adds two entries: the arcs getNumArcs counts. */
  lemma EdgeAddedIsSymmetric(A: seq<seq<int>>, u: int, v: int)
    requires 0 <= u < |A| && 0 <= v < |A|
    ensures var r := EdgeAdded(A, u, v);
      v in r[u] && u in r[v] && Entries(r) == Entries(A) + 2 &&
      forall w :: 0 <= w < |A| && w != u && w != v ==> r[w] == A[w]
  {
    var A1 := A[u := A[u] + [v]];
    EntriesUpdate(A, u, A[u] + [v]);
    EntriesUpdate(A1, v, A1[v] + [u]);
    assert A1[u][|A[u]|] == v;
    if u == v {
      assert EdgeAdded(A, u, v)[u] == A[u] + [v] + [u];
      assert (A[u] + [v] + [u])[|A[u]|] == v;
    }
  }

  /** Adding entries never removes a parent-to-child listing, so a BFS tree stays one. */
  lemma TreeSurvivesNewEntries(n: int, D: seq<int>, P: seq<int>, A: seq<seq<int>>, B: seq<seq<int>>, s: int)
    requires Tree(n, D, P, A, s) && |B| == |A|
    requires forall u, w :: 0 <= u < |A| && w in A[u] ==> w in B[u]
    ensures Tree(n, D, P, B, s)
  {
  }

  /** The number of white entries, the measure that bounds BFS: each vertex is greyed once. */
  function Whites(C: seq<int>): nat
  {
    if C == [] then 0 else Whites(C[..|C| - 1]) + (if C[|C| - 1] == White then 1 else 0)
  }

  lemma {:induction false} WhitesUpdate(C: seq<int>, y: int, c: int)
    requires 0 <= y < |C|
    ensures Whites(C[y := c]) + (if C[y] == White then 1 else 0) == Whites(C) + (if c == White then 1 else 0)
    decreases |C|
  {
    var C' := C[y := c];
    if y < |C| - 1 {
      assert C'[..|C'| - 1] == C[..|C| - 1][y := c];
      WhitesUpdate(C[..|C| - 1], y, c);
    } else {
      assert C'[..|C'| - 1] == C[..|C| - 1];
    }
  }

  /**
   * addArc's walk over one adjacency list: from the front, step past every
   * element below v, then insert v before the cursor, or append it when the
   * cursor has fallen off the back.
   */
  method InsertInOrder(xs: seq<int>, v: int) returns (ys: seq<int>)
    ensures ys == InsertSorted(xs, v)
  {
    var L := LC.MoveFront(LC.ListValue(xs, -1));
    ghost var i := 0;
    while LC.Index(L) >= 0 && LC.Get(L) < v
      invariant LC.Valid(L) && L.items == xs && 0 <= i <= |xs|
      invariant L.cursor == (if i < |xs| then i else -1)
      invariant forall j :: 0 <= j < i ==> xs[j] < v
      decreases |xs| - i
    {
      L := LC.MoveNext(L);
      i := i + 1;
    }
    assert i == FirstAtLeast(xs, v);
    if LC.Index(L) >= 0 {
      L := LC.InsertBefore(L, v);
    } else {
      L := LC.Append(L, v);
      assert xs[i..] == [] && xs[..i] == xs;
    }
    ys := L.items;
  }

  // ---------------------------------------------------------------------
  // The graph object

  class Graph {
    const order: int
    var edges: int
    var source: int
    const color: array<int>
    const parent: array<int>
    const distance: array<int>
    const adj: array<seq<int>>

    ghost predicate Valid()
      reads this, color, parent, distance, adj
    {
      color != parent && color != distance && parent != distance &&
      color.Length == order + 1 && AdjOk(order, adj[..]) &&
      ParentsOk(order, distance[..], parent[..]) &&
      (source == NIL || 1 <= source <= order) &&
      (source == NIL ==> forall v :: 1 <= v <= order ==> parent[v] == NIL && distance[v] == INF) &&
      (source != NIL ==> Tree(order, distance[..], parent[..], adj[..], source))
    }

    /** newGraph(n): n vertices, no edges, no source; every vertex white, without parent, at distance INF. */
    constructor (n: int)
      requires n >= 0
      ensures Valid() && order == n && edges == 0 && source == NIL
      ensures forall v :: 1 <= v <= n ==>
        adj[v] == [] && color[v] == White && parent[v] == NIL && distance[v] == INF
    {
      order := n;
      edges := 0;
      source := NIL;
      adj := new seq<int>[n + 1](_ => LC.NewList().items);
      color := new int[n + 1](_ => 0);
      parent := new int[n + 1](_ => 0);
      distance := new int[n + 1](_ => 0);
      new;
      var i := 1;
      while i <= n
        invariant 1 <= i <= n + 1
        invariant forall v :: 1 <= v < i ==> color[v] == White && parent[v] == NIL && distance[v] == INF
        invariant forall v :: i <= v <= n ==> parent[v] == 0
        invariant forall v :: 0 <= v <= n ==> adj[v] == []
        invariant order == n && edges == 0 && source == NIL
      {
        color[i] := White;
        parent[i] := NIL;
        distance[i] := INF;
        i := i + 1;
      }
    }

    function GetOrder(): (r: int)
      reads this
      ensures r == order
    {
      order
    }

    function GetNumEdges(): (r: int)
      reads this
      ensures r == edges
    {
      edges
    }

    /** getNumArcs: each edge is two arcs. */
    function GetNumArcs(): (r: int)
      reads this
      ensures r == 2 * GetNumEdges()
    {
      2 * edges
    }

    /** getSource: the source of the last BFS, or NIL before any. */
    function GetSource(): (r: int)
      reads this, color, parent, distance, adj
      requires Valid()
      ensures r == NIL || 1 <= r <= order
      ensures r == source
    {
      if source == NIL then NIL else source
    }

    /** getParent: exits outside 1..n; NIL before any BFS; otherwise a parent one step nearer that lists u. */
    function GetParent(u: int): (r: Res<int>)
      reads this, color, parent, distance, adj
      requires Valid()
      ensures r.Ok? <==> 1 <= u <= order
      ensures r.Ok? && source == NIL ==> r.value == NIL
      ensures r.Ok? && r.value != NIL ==>
        1 <= r.value <= order && distance[r.value] >= 0 && distance[u] == distance[r.value] + 1 &&
        u in adj[r.value]
    {
      if u < 1 then Exit
      else if u > order then Exit
      else if source == NIL then Ok(NIL)
      else Ok(parent[u])
    }

    /** getDist: exits outside 1..n; INF before any BFS; otherwise u's distance, with a parent chain of that length. */
    function GetDist(u: int): (r: Res<int>)
      reads this, color, parent, distance, adj
      requires Valid()
      ensures r.Ok? <==> 1 <= u <= order
      ensures r.Ok? && source == NIL ==> r.value == INF
      ensures r.Ok? ==> r.value >= INF
      ensures r.Ok? && r.value >= 0 ==>
        var p := PathTo(u); IsPath(adj[..], p) && p[0] == source && |p| == r.value + 1
    {
      if u < 1 then Exit
      else if u > order then Exit
      else if source == NIL then Ok(INF)
      else
        var d := distance[u];
        if d >= 0 then TreePathIsPath(order, distance[..], parent[..], adj[..], source, u); Ok(d)
        else Ok(d)
    }

    /** The vertices getPath appends for u. */
    ghost function PathTo(u: int): seq<int>
      reads this, color, parent, distance, adj
      requires Valid() && 1 <= u <= order
    {
      PathOf(order, distance[..], parent[..], source, u)
    }

    /**
     * getPath(L, u): exits outside 1..n; otherwise appends the parent chain
     * from the source to u, or NIL when the chain breaks. With no source the
     * code reports an error and goes on, appending NIL.
     */
    method GetPath(L: LC.ListValue, u: int) returns (r: Res<LC.ListValue>)
      requires Valid() && LC.Valid(L)
      ensures r.Ok? <==> 1 <= u <= order
      ensures r.Ok? ==> (LC.Valid(r.value) && r.value.cursor == L.cursor &&
                         r.value.items == L.items + PathTo(u))
      ensures r.Ok? && source == NIL ==> r.value.items == L.items + [NIL]
      decreases if 1 <= u <= order && distance[u] >= 0 then distance[u] else 0
    {
      if u < 1 || u > order {
        return Exit;
      }
      if u == source {
        return Ok(LC.Append(L, u));
      } else if parent[u] == NIL {
        return Ok(LC.Append(L, NIL));
      } else {
        var r' := GetPath(L, parent[u]);
        assert r'.Ok?;
        return Ok(LC.Append(r'.value, u));
      }
    }

    /** makeNull: every list emptied, every vertex reset, no edges and no source. */
    method MakeNull()
      requires Valid()
      modifies this, color, parent, distance, adj
      ensures Valid() && edges == 0 && source == NIL
      ensures forall v :: 1 <= v <= order ==>
        adj[v] == [] && color[v] == White && parent[v] == NIL && distance[v] == INF
    {
      var i := 1;
      while i <= order
        invariant 1 <= i <= order + 1
        invariant AdjOk(order, adj[..])
        invariant forall v :: 1 <= v < i ==>
          adj[v] == [] && color[v] == White && parent[v] == NIL && distance[v] == INF
      {
        adj[i] := LC.Clear(LC.ListValue(adj[i], -1)).items;
        color[i] := White;
        parent[i] := NIL;
        distance[i] := INF;
        i := i + 1;
      }
      edges := 0;
      source := NIL;
    }

    /** addEdge(u, v): exits outside 1..n; otherwise v is appended to u's list, u to v's, and one edge counted. */
    method AddEdge(u: int, v: int) returns (ok: bool)
      requires Valid()
      modifies this, adj
      ensures Valid() && source == old(source)
      ensures ok <==> 1 <= u <= order && 1 <= v <= order
      ensures ok ==> adj[..] == EdgeAdded(old(adj[..]), u, v) && edges == old(edges) + 1
      ensures !ok ==> adj[..] == old(adj[..]) && edges == old(edges)
    {
      if u < 1 || u > order || v < 1 || v > order {
        return false;
      }
      ghost var A := adj[..];
      adj[u] := LC.Append(LC.ListValue(adj[u], -1), v).items;
      adj[v] := LC.Append(LC.ListValue(adj[v], -1), u).items;
      edges := edges + 1;
      assert adj[..] == EdgeAdded(A, u, v);
      AddedEntriesKeepValid(A, EdgeAdded(A, u, v));
      return true;
    }

    /**
     * addArc(u, v): exits outside 1..n; otherwise walks u's list from the
     * front past every element below v and inserts v there, or appends it.
     */
    method AddArc(u: int, v: int) returns (ok: bool)
      requires Valid()
      modifies this, adj
      ensures Valid() && source == old(source)
      ensures ok <==> 1 <= u <= order && 1 <= v <= order
      ensures ok ==> adj[..] == old(adj[..])[u := InsertSorted(old(adj[u]), v)] && edges == old(edges) + 1
      ensures !ok ==> adj[..] == old(adj[..]) && edges == old(edges)
    {
      if u < 1 || u > order || v < 1 || v > order {
        return false;
      }
      ghost var A := adj[..];
      var ys := InsertInOrder(adj[u], v);
      adj[u] := ys;
      edges := edges + 1;
      InsertSortedKeepsSorted(A[u], v);
      assert adj[..] == A[u := ys];
      forall w, j | 0 <= w <= order && 0 <= j < |adj[w]|
        ensures 1 <= adj[w][j] <= order
      {
        if w == u {
          assert ys[j] in multiset(ys);
        }
      }
      AddedEntriesKeepValid(A, adj[..]);
      return true;
    }

    /** Lists that only gain entries, all vertices, keep the graph valid. */
    lemma AddedEntriesKeepValid(A: seq<seq<int>>, B: seq<seq<int>>)
      requires AdjOk(order, A) && |B| == |A|
      requires forall u, w :: 0 <= u < |A| && w in A[u] ==> w in B[u]
      requires forall u, j :: 0 <= u <= order && 0 <= j < |B[u]| ==> 1 <= B[u][j] <= order
      requires source != NIL ==> Tree(order, distance[..], parent[..], A, source)
      ensures AdjOk(order, B)
      ensures source != NIL ==> Tree(order, distance[..], parent[..], B, source)
    {
      if source != NIL {
        TreeSurvivesNewEntries(order, distance[..], parent[..], A, B, source);
      }
    }

    /** One pass of BFS's outer loop: the front vertex is dequeued, its neighbours scanned, and it turns black. */
    method VisitFront(L0: LC.ListValue, ghost s: int, ghost cur0: int) returns (L: LC.ListValue, ghost cur: int)
      requires color != parent && color != distance && parent != distance && adj.Length == order + 1
      requires LC.Valid(L0) && L0.cursor == -1 && |L0.items| > 0
      requires Inv(order, color[..], distance[..], parent[..], adj[..], L0.items, s, cur0, 0)
      modifies color, parent, distance
      ensures LC.Valid(L) && L.cursor == -1
      ensures Inv(order, color[..], distance[..], parent[..], adj[..], L.items, s, cur, 0)
      ensures Whites(color[..]) < old(Whites(color[..])) ||
        (Whites(color[..]) == old(Whites(color[..])) && |L.items| < |L0.items|)
    {
      DequeueStep(order, color[..], distance[..], parent[..], adj[..], L0.items, s, cur0);
      var x := LC.Front(L0);
      L := LC.DeleteFront(L0);
      cur := distance[x];
      L := ScanNeighbours(x, L, s, cur);
      ghost var C := color[..];
      FinishStep(order, C, distance[..], parent[..], adj[..], L.items, s, cur, x);
      WhitesUpdate(C, x, Black);
      color[x] := Black;
      assert color[..] == C[x := Black];
    }

    /**
     * BFS's inner loop over x's adjacency list: every white neighbour is
     * greyed, placed one step further than x, given x as parent and
     * enqueued.
     */
    method ScanNeighbours(x: int, L0: LC.ListValue, ghost s: int, ghost cur: int) returns (L: LC.ListValue)
      requires color != parent && color != distance && parent != distance
      requires 0 <= x < adj.Length && LC.Valid(L0) && L0.cursor == -1
      requires Scanning(order, color[..], distance[..], parent[..], adj[..], L0.items, s, cur, x, 0)
      modifies color, parent, distance
      ensures LC.Valid(L) && L.cursor == -1
      ensures Scanning(order, color[..], distance[..], parent[..], adj[..], L.items, s, cur, x, |adj[x]|)
      ensures Whites(color[..]) + |L.items| == old(Whites(color[..])) + |L0.items| && |L.items| >= |L0.items|
    {
      L := L0;
      ghost var w0 := Whites(color[..]);
      var it := LC.MoveFront(LC.ListValue(adj[x], -1));
      ghost var i := 0;
      while LC.Index(it) >= 0
        invariant LC.Valid(it) && it.items == adj[x] && 0 <= i <= |adj[x]|
        invariant it.cursor == (if i < |adj[x]| then i else -1)
        invariant LC.Valid(L) && L.cursor == -1
        invariant Scanning(order, color[..], distance[..], parent[..], adj[..], L.items, s, cur, x, i)
        invariant Whites(color[..]) + |L.items| == w0 + |L0.items| && |L.items| >= |L0.items|
        decreases |adj[x]| - i
      {
        L := VisitNeighbour(x, LC.Get(it), L, s, cur, i);
        it := LC.MoveNext(it);
        i := i + 1;
      }
    }

    /** One pass of BFS's inner loop: y, the i-th neighbour of x, is discovered if it is white. */
    method VisitNeighbour(x: int, y: int, L0: LC.ListValue, ghost s: int, ghost cur: int, ghost i: int) returns (L: LC.ListValue)
      requires color != parent && color != distance && parent != distance
      requires 0 <= x < adj.Length && 0 <= i < |adj[x]| && y == adj[x][i] && LC.Valid(L0) && L0.cursor == -1
      requires Scanning(order, color[..], distance[..], parent[..], adj[..], L0.items, s, cur, x, i)
      modifies color, parent, distance
      ensures LC.Valid(L) && L.cursor == -1
      ensures Scanning(order, color[..], distance[..], parent[..], adj[..], L.items, s, cur, x, i + 1)
      ensures Whites(color[..]) + |L.items| == old(Whites(color[..])) + |L0.items| && |L.items| >= |L0.items|
    {
      ghost var C, D, P := color[..], distance[..], parent[..];
      if color[y] == White {
        DiscoverStep(order, C, D, P, adj[..], L0.items, s, cur, x, i);
        WhitesUpdate(C, y, Grey);
        Discover(x, y);
        assert color[..] == C[y := Grey] && distance[..] == D[y := cur + 1] && parent[..] == P[y := x];
        L := LC.Append(L0, y);
      } else {
        SkipStep(order, C, D, P, adj[..], L0.items, s, cur, x, i);
        L := L0;
      }
    }

    /** The discovery of y from x: grey, one step further than x, with x as parent. */
    method Discover(x: int, y: int)
      requires color != parent && color != distance && parent != distance
      requires 0 <= x < distance.Length && 0 <= y < color.Length && y < distance.Length && y < parent.Length
      modifies color, parent, distance
      ensures color[..] == old(color[..])[y := Grey]
      ensures distance[..] == old(distance[..])[y := old(distance[x]) + 1]
      ensures parent[..] == old(parent[..])[y := x]
    {
      color[y] := Grey;
      distance[y] := distance[x] + 1;
      parent[y] := x;
    }

    /** BFS's first loop: every vertex white, without parent, at distance INF. */
    method ResetVertices()
      requires order >= 0 && color.Length == order + 1 && parent.Length == order + 1 && distance.Length == order + 1
      requires color != parent && color != distance && parent != distance
      modifies color, parent, distance
      ensures forall v :: 1 <= v <= order ==> color[v] == White && distance[v] == INF && parent[v] == NIL
    {
      var v := 1;
      while v <= order
        invariant 1 <= v <= order + 1
        invariant forall w :: 1 <= w < v ==> color[w] == White && distance[w] == INF && parent[w] == NIL
      {
        color[v] := White;
        distance[v] := INF;
        parent[v] := NIL;
        v := v + 1;
      }
    }

    /** BFS holds after a search from source: a BFS tree with closed distances, reached vertices black and the rest white. */
    ghost predicate Searched()
      reads this, color, parent, distance, adj
    {
      color.Length == order + 1 &&
      Tree(order, distance[..], parent[..], adj[..], source) && Closed(order, distance[..], adj[..]) &&
      forall v :: 1 <= v <= order ==> color[v] == (if distance[v] == INF then White else Black)
    }

    /**
     * BFS(s): exits unless 1 <= s <= n; otherwise resets every vertex, then
     * dequeues vertices in FIFO order, greying, timing and parenting each
     * white neighbour and blackening each finished vertex.
     */
    method BFS(s: int) returns (ok: bool)
      requires Valid()
      modifies this, color, parent, distance
      ensures Valid() && edges == old(edges)
      ensures ok <==> 1 <= s <= order
      ensures !ok ==> source == old(source) && unchanged(color, parent, distance)
      ensures ok ==> source == s && Searched()
    {
      if s > order || s <= 0 {
        return false;
      }
      ResetVertices();
      source := s;
      color[s] := Grey;
      distance[s] := 0;
      parent[s] := NIL;
      InitialInv(order, color[..], distance[..], parent[..], adj[..], s);

      var L := LC.Append(LC.NewList(), s);
      ghost var cur := 0;
      while LC.Length(L) > 0
        invariant LC.Valid(L) && L.cursor == -1 && source == s && edges == old(edges)
        invariant Inv(order, color[..], distance[..], parent[..], adj[..], L.items, s, cur, 0)
        decreases Whites(color[..]), |L.items|
      {
        L, cur := VisitFront(L, s, cur);
      }
      FinalStep(order, color[..], distance[..], parent[..], adj[..], s, cur);
      return true;
    }
  }
}
