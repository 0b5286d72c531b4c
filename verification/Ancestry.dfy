// Ancestry queries of the metadata store (internal/server/storage/postgres/store.go).
module Ancestry {
  import opened Wrappers
  import opened Ordering
  import opened CommitGraph

  const MAX_MERGE_ANCESTRY_COMMITS: nat := 100

  datatype HistoryError = CommitNotFound | CommitHistoryTooDeep | CommitHistoryIncomplete | NoCommonAncestor

  datatype Queued = Queued(id: Id, depth: nat)

  ghost predicate Distance(g: Graph, c: Id, a: Id, d: nat) {
    StepsTo(g, c, a, d) && forall m: nat :: m < d ==> !StepsTo(g, c, a, m)
  }

  /** `h` maps exactly the ancestors of `c` to their shortest distance from `c`. */
  ghost predicate ExactHistory(g: Graph, c: Id, h: map<Id, nat>) {
    && (forall a :: a in h <==> Reaches(g, c, a))
    && (forall a :: a in h ==> Distance(g, c, a, h[a]))
  }

  ghost function Ancestors(g: Graph, c: Id): set<Id> {
    set a | a in g && Reaches(g, c, a)
  }

  // ----- breadth-first search -----------------------------------------------------------

  /** Nothing reachable can escape the visited map and the queue. */
  ghost predicate Covered(g: Graph, c: Id, h: map<Id, nat>, queue: seq<Queued>) {
    && ((c in h && h[c] == 0) || Queued(c, 0) in queue)
    && (forall y, p {:trigger Handled(h, queue, y, p)} :: y in h && y in g && p in g[y] ==> Handled(h, queue, y, p))
    && (forall y :: y in h ==> y in g)
  }

  /** The parent `p` of the visited commit `y` is visited soon enough or waits in the queue. */
  ghost predicate Handled(h: map<Id, nat>, queue: seq<Queued>, y: Id, p: Id)
    requires y in h
  {
    (p in h && h[p] <= h[y] + 1) || Queued(p, h[y] + 1) in queue
  }

  ghost predicate QueueOrdered(h: map<Id, nat>, queue: seq<Queued>) {
    && (forall i, j :: 0 <= i < j < |queue| ==> queue[i].depth <= queue[j].depth)
    && (forall i :: 0 <= i < |queue| ==> queue[i].depth <= queue[0].depth + 1)
    && (|queue| > 0 ==> forall y :: y in h ==> h[y] <= queue[0].depth)
  }

  /** The loop invariant of both breadth-first searches. */
  ghost predicate Searching(g: Graph, c: Id, h: map<Id, nat>, queue: seq<Queued>) {
    && Covered(g, c, h, queue)
    && QueueOrdered(h, queue)
    && (forall q :: q in queue ==> StepsTo(g, c, q.id, q.depth))
    && (forall a :: a in h ==> Distance(g, c, a, h[a]))
    && (h == map[] ==> queue == [Queued(c, 0)])
    && (h != map[] ==> c in g)
  }

  lemma {:induction false} FrontierHolds(g: Graph, c: Id, h: map<Id, nat>, queue: seq<Queued>, a: Id, n: nat)
    requires Covered(g, c, h, queue) && StepsTo(g, c, a, n)
    ensures (a in h && h[a] <= n) || exists q :: q in queue && q.depth <= n
    decreases n
  {
    if n > 0 {
      var y :| StepsTo(g, c, y, n - 1) && y in g && a in g[y];
      FrontierHolds(g, c, h, queue, y, n - 1);
      if y in h {
        assert Handled(h, queue, y, a);
      }
    }
  }

  lemma HeadIsNearest(g: Graph, c: Id, h: map<Id, nat>, queue: seq<Queued>)
    requires Covered(g, c, h, queue) && QueueOrdered(h, queue)
    requires |queue| > 0 && queue[0].id !in h && StepsTo(g, c, queue[0].id, queue[0].depth)
    ensures Distance(g, c, queue[0].id, queue[0].depth)
  {
    hide StepsTo;
    forall m: nat | m < queue[0].depth ensures !StepsTo(g, c, queue[0].id, m) {
      if StepsTo(g, c, queue[0].id, m) {
        FrontierHolds(g, c, h, queue, queue[0].id, m);
        assert false;
      }
    }
  }

  lemma ExactWhenDrained(g: Graph, c: Id, h: map<Id, nat>)
    requires Covered(g, c, h, [])
    requires forall a :: a in h ==> Distance(g, c, a, h[a])
    ensures ExactHistory(g, c, h)
  {
    forall a | Reaches(g, c, a) ensures a in h {
      var n: nat :| StepsTo(g, c, a, n);
      FrontierHolds(g, c, h, [], a, n);
    }
  }

  /** Appends the parents of a commit at depth `depth - 1` that are not visited yet. */
  method Enqueue(queue: seq<Queued>, parents: seq<Id>, h: map<Id, nat>, depth: nat) returns (r: seq<Queued>)
    ensures |queue| <= |r| && r[..|queue|] == queue
    ensures forall i :: |queue| <= i < |r| ==> r[i].depth == depth && r[i].id in parents
    ensures forall p :: p in parents ==> p in h || Queued(p, depth) in r
  {
    r := queue;
    for i := 0 to |parents|
      invariant |queue| <= |r| && r[..|queue|] == queue
      invariant forall k :: |queue| <= k < |r| ==> r[k].depth == depth && r[k].id in parents
      invariant forall k :: 0 <= k < i ==> parents[k] in h || Queued(parents[k], depth) in r
    {
      if parents[i] !in h {
        r := r + [Queued(parents[i], depth)];
        assert r[|r| - 1] == Queued(parents[i], depth);
      }
    }
  }

  lemma AncestorsBound(g: Graph, c: Id, s: set<Id>)
    requires Closed(g) && c in g
    requires forall a :: a in s ==> Reaches(g, c, a)
    ensures s <= Ancestors(g, c) && |s| <= |Ancestors(g, c)|
  {
    forall a | a in s ensures a in g {
      AncestryFrozen(g, g, c, a);
    }
    SubsetSize(s, Ancestors(g, c));
  }

  lemma SearchStarts(g: Graph, c: Id)
    ensures Searching(g, c, map[], [Queued(c, 0)])
  {
    assert StepsTo(g, c, c, 0);
  }

  lemma SkipVisited(g: Graph, c: Id, h: map<Id, nat>, queue: seq<Queued>)
    requires Searching(g, c, h, queue) && |queue| > 0 && queue[0].id in h
    ensures Searching(g, c, h, queue[1..])
  {
    hide StepsTo;
    var current, rest := queue[0], queue[1..];
    assert forall i :: 0 <= i < |rest| ==> rest[i] == queue[i + 1];
    assert forall q :: q in queue ==> q == current || q in rest;
    assert forall q :: q in rest ==> q in queue;
    forall y, p | y in h && y in g && p in g[y] ensures Handled(h, rest, y, p) {
      assert Handled(h, queue, y, p);
    }
  }

  /** `next` is the queue without its head, followed by the unseen parents of that head. */
  ghost predicate Enqueued(g: Graph, h: map<Id, nat>, queue: seq<Queued>, next: seq<Queued>) {
    && |queue| > 0 && queue[0].id in g
    && |queue| - 1 <= |next| && next[..|queue| - 1] == queue[1..]
    && (forall i :: |queue| - 1 <= i < |next| ==> next[i].depth == queue[0].depth + 1 && next[i].id in g[queue[0].id])
    && (forall p :: p in g[queue[0].id] ==> p in h || p == queue[0].id || Queued(p, queue[0].depth + 1) in next)
  }

  lemma EnqueuedOrdered(g: Graph, h: map<Id, nat>, queue: seq<Queued>, next: seq<Queued>)
    requires Enqueued(g, h, queue, next) && QueueOrdered(h, queue)
    ensures QueueOrdered(h[queue[0].id := queue[0].depth], next)
  {
    assert forall i :: 0 <= i < |queue| - 1 ==> next[i] == queue[i + 1];
    assert forall i :: 0 <= i < |next| ==> queue[0].depth <= next[i].depth <= queue[0].depth + 1;
  }

  lemma EnqueuedKeeps(g: Graph, h: map<Id, nat>, queue: seq<Queued>, next: seq<Queued>, q: Queued)
    requires Enqueued(g, h, queue, next) && q in queue && q != queue[0]
    ensures q in next
  {
    var i :| 0 <= i < |queue| && queue[i] == q;
    assert next[i - 1] == q;
  }

  lemma EnqueuedCovered(g: Graph, c: Id, h: map<Id, nat>, queue: seq<Queued>, next: seq<Queued>)
    requires Enqueued(g, h, queue, next) && QueueOrdered(h, queue) && Covered(g, c, h, queue) && queue[0].id !in h
    ensures Covered(g, c, h[queue[0].id := queue[0].depth], next)
  {
    var current := queue[0];
    var k := h[current.id := current.depth];
    if !(c in k && k[c] == 0) {
      EnqueuedKeeps(g, h, queue, next, Queued(c, 0));
    }
    forall y, p | y in k && y in g && p in g[y] ensures Handled(k, next, y, p) {
      if y == current.id {
        assert p in h ==> h[p] <= current.depth;
      } else {
        assert Handled(h, queue, y, p);
        if !(p in k && k[p] <= k[y] + 1) {
          EnqueuedKeeps(g, h, queue, next, Queued(p, k[y] + 1));
        }
      }
    }
  }

  lemma EnqueuedSteps(g: Graph, c: Id, h: map<Id, nat>, queue: seq<Queued>, next: seq<Queued>)
    requires Enqueued(g, h, queue, next)
    requires forall q :: q in queue ==> StepsTo(g, c, q.id, q.depth)
    ensures forall q :: q in next ==> StepsTo(g, c, q.id, q.depth)
  {
    hide StepsTo;
    forall q | q in next ensures StepsTo(g, c, q.id, q.depth) {
      var i :| 0 <= i < |next| && next[i] == q;
      if i < |queue| - 1 {
        assert queue[1..][i] in queue;
      } else {
        assert queue[0] in queue;
        ParentSteps(g, c, queue[0].id, q.id, queue[0].depth);
      }
    }
  }

  /** Visiting the unseen head of the queue: it is recorded at its true distance. */
  lemma Visit(g: Graph, c: Id, h: map<Id, nat>, queue: seq<Queued>, next: seq<Queued>)
    requires Searching(g, c, h, queue) && Enqueued(g, h, queue, next) && queue[0].id !in h
    ensures Searching(g, c, h[queue[0].id := queue[0].depth], next)
  {
    hide StepsTo;
    HeadIsNearest(g, c, h, queue);
    EnqueuedOrdered(g, h, queue, next);
    EnqueuedCovered(g, c, h, queue, next);
    EnqueuedSteps(g, c, h, queue, next);
  }

  lemma ParentSteps(g: Graph, c: Id, y: Id, p: Id, n: nat)
    requires StepsTo(g, c, y, n) && y in g && p in g[y]
    ensures StepsTo(g, c, p, n + 1)
  {}

  /** An unrecorded head of the queue is the start itself or a missing ancestor. */
  lemma MissingCommit(g: Graph, c: Id, h: map<Id, nat>, queue: seq<Queued>)
    requires Searching(g, c, h, queue) && |queue| > 0 && queue[0].id !in g
    ensures Reaches(g, c, queue[0].id)
    ensures h == map[] <==> c !in g
  {
    assert queue[0] in queue;
  }

  lemma StartRecorded(g: Graph, c: Id, h: map<Id, nat>, queue: seq<Queued>)
    requires Searching(g, c, h, queue) && |h| > 0
    ensures c in g
  {}

  lemma SearchEnds(g: Graph, c: Id, h: map<Id, nat>)
    requires Searching(g, c, h, [])
    ensures ExactHistory(g, c, h) && c in g
    ensures forall a :: a in h ==> a in g
    ensures h.Keys == Ancestors(g, c) && |h| == |Ancestors(g, c)|
  {
    hide StepsTo;
    ExactWhenDrained(g, c, h);
    assert |h| == |h.Keys|;
  }

  /** An unseen head beyond `cap` visited commits means more than `cap` ancestors. */
  lemma Overflow(g: Graph, c: Id, h: map<Id, nat>, queue: seq<Queued>)
    requires Searching(g, c, h, queue) && |queue| > 0 && queue[0].id !in h
    requires Closed(g) && c in g
    ensures |Ancestors(g, c)| > |h|
    ensures queue[0].id in g
  {
    assert queue[0] in queue;
    AncestorsBound(g, c, h.Keys + {queue[0].id});
    assert |h.Keys + {queue[0].id}| == |h| + 1;
  }

  /** collectMergeAncestry: the queue may hold duplicates; at most `cap` commits are visited. */
  method CollectMergeAncestry(g: Graph, commitID: Id, cap: nat) returns (r: Result<map<Id, nat>, HistoryError>)
    requires cap > 0
    ensures r.Ok? ==> ExactHistory(g, commitID, r.value) && |r.value| <= cap
    ensures r.Ok? ==> forall a :: a in r.value ==> a in g
    ensures r.Err? ==> r.error != NoCommonAncestor
    ensures r == Err(CommitNotFound) <==> commitID !in g
    ensures r == Err(CommitHistoryIncomplete) ==> exists a :: Reaches(g, commitID, a) && a !in g
    ensures Closed(g) && commitID in g ==>
              (r.Ok? <==> |Ancestors(g, commitID)| <= cap)
              && (r == Err(CommitHistoryTooDeep) <==> |Ancestors(g, commitID)| > cap)
  {
    hide StepsTo;
    hide Searching;
    hide Distance;
    var history: map<Id, nat> := map[];
    var queue := [Queued(commitID, 0)];
    SearchStarts(g, commitID);
    while |queue| > 0
      invariant |history| <= cap
      invariant Searching(g, commitID, history, queue)
      decreases cap - |history|, |queue|
    {
      var current := queue[0];
      if current.id in history {
        SkipVisited(g, commitID, history, queue);
        queue := queue[1..];
        continue;
      }
      if Closed(g) && commitID in g {
        Overflow(g, commitID, history, queue);
      }
      if |history| == cap {
        StartRecorded(g, commitID, history, queue);
        return Err(CommitHistoryTooDeep);
      }
      if current.id !in g {
        MissingCommit(g, commitID, history, queue);
        return Err(if history == map[] then CommitNotFound else CommitHistoryIncomplete);
      }
      var next := Enqueue(queue[1..], g[current.id], history[current.id := current.depth], current.depth + 1);
      Visit(g, commitID, history, queue, next);
      history, queue := history[current.id := current.depth], next;
    }
    SearchEnds(g, commitID, history);
    return Ok(history);
  }

  // ----- whole-history traversal used by retention --------------------------------------

  /** The visited set and the queue hold reachable commits only, and nothing reachable escapes them. */
  ghost predicate Traversing(g: Graph, c: Id, visited: set<Id>, queue: seq<Id>) {
    && (c in visited || c in queue)
    && (forall a :: a in visited ==> a in g && Reaches(g, c, a))
    && (forall a :: a in queue ==> Reaches(g, c, a))
    && (forall y, p :: y in visited && y in g && p in g[y] ==> p in visited || p in queue)
    && (visited == {} ==> queue == [c])
    && (visited != {} ==> c in g)
  }

  lemma {:induction false} TraversalComplete(g: Graph, c: Id, visited: set<Id>, a: Id, n: nat)
    requires Traversing(g, c, visited, []) && StepsTo(g, c, a, n)
    ensures a in visited
    decreases n
  {
    if n > 0 {
      var y :| StepsTo(g, c, y, n - 1) && y in g && a in g[y];
      TraversalComplete(g, c, visited, y, n - 1);
    }
  }

  lemma TraversalEnds(g: Graph, c: Id, visited: set<Id>)
    requires Traversing(g, c, visited, [])
    ensures c in g && visited == Ancestors(g, c)
    ensures forall a :: Reaches(g, c, a) ==> a in visited
  {
    forall a | Reaches(g, c, a) ensures a in visited {
      var n: nat :| StepsTo(g, c, a, n);
      TraversalComplete(g, c, visited, a, n);
    }
  }

  lemma TraverseHead(g: Graph, c: Id, visited: set<Id>, queue: seq<Id>, next: seq<Id>)
    requires Traversing(g, c, visited, queue) && |queue| > 0 && queue[0] in g
    requires |queue| - 1 <= |next| && next[..|queue| - 1] == queue[1..]
    requires forall i :: |queue| - 1 <= i < |next| ==> next[i] in g[queue[0]]
    requires forall p :: p in g[queue[0]] ==> p in visited || p == queue[0] || p in next
    ensures Traversing(g, c, visited + {queue[0]}, next)
  {
    hide Reaches;
    var current := queue[0];
    assert current in queue;
    forall q | q in queue && q != current ensures q in next {
      var i :| 0 <= i < |queue| && queue[i] == q;
      assert next[i - 1] == q;
    }
    forall a | a in next ensures Reaches(g, c, a) {
      var i :| 0 <= i < |next| && next[i] == a;
      if i < |queue| - 1 {
        assert queue[1..][i] in queue;
      } else {
        ReachesParent(g, c, current, a);
      }
    }
    assert c in g by {
      if visited == {} { assert current == c; }
    }
  }

  /** `ids` lists exactly the ancestors of `c`, in increasing order. */
  ghost predicate ListsAncestors(g: Graph, c: Id, ids: seq<Id>) {
    StrictlySorted(ids) && forall a :: a in ids <==> Reaches(g, c, a)
  }

  /** CommitAncestryIDs: existence is checked before the cap. */
  method CommitAncestryIDs(g: Graph, commitID: Id, cap: nat) returns (r: Result<seq<Id>, HistoryError>)
    requires cap > 0
    ensures r.Ok? ==> commitID in g && ListsAncestors(g, commitID, r.value) && |Ancestors(g, commitID)| <= cap
    ensures r == Err(CommitNotFound) <==> commitID !in g
    ensures r == Err(CommitHistoryIncomplete) ==> exists a :: Reaches(g, commitID, a) && a !in g
    ensures Closed(g) && commitID in g ==>
              (r.Ok? <==> |Ancestors(g, commitID)| <= cap)
              && (r == Err(CommitHistoryTooDeep) <==> |Ancestors(g, commitID)| > cap)
  {
    hide Reaches;
    ReachesSelf(g, commitID);
    var visited: set<Id> := {};
    var queue := [commitID];
    while |queue| > 0
      invariant |visited| <= cap
      invariant Traversing(g, commitID, visited, queue)
      decreases cap - |visited|, |queue|
    {
      var current := queue[0];
      assert current in queue;
      if current in visited {
        SkipTraversed(g, commitID, visited, queue);
        queue := queue[1..];
        continue;
      }
      if current !in g {
        if Closed(g) && commitID in g {
          AncestryFrozen(g, g, commitID, current);
        }
        return Err(if visited == {} then CommitNotFound else CommitHistoryIncomplete);
      }
      if |visited| == cap {
        if Closed(g) && commitID in g {
          AncestorsBound(g, commitID, visited + {current});
        }
        return Err(CommitHistoryTooDeep);
      }
      var next := queue[1..];
      for i := 0 to |g[current]|
        invariant |queue| - 1 <= |next| && next[..|queue| - 1] == queue[1..]
        invariant forall k :: |queue| - 1 <= k < |next| ==> next[k] in g[current]
        invariant forall k :: 0 <= k < i ==>
                              g[current][k] in visited || g[current][k] == current || g[current][k] in next
      {
        if g[current][i] !in visited + {current} {
          next := next + [g[current][i]];
        }
      }
      TraverseHead(g, commitID, visited, queue, next);
      visited, queue := visited + {current}, next;
    }
    assert queue == [];
    TraversalEnds(g, commitID, visited);
    var ids := ToSortedSeq(visited);
    return Ok(ids);
  }

  lemma SkipTraversed(g: Graph, c: Id, visited: set<Id>, queue: seq<Id>)
    requires Traversing(g, c, visited, queue) && |queue| > 0 && queue[0] in visited
    ensures Traversing(g, c, visited, queue[1..])
  {
    hide Reaches;
    assert forall q :: q in queue ==> q == queue[0] || q in queue[1..];
    assert forall q :: q in queue[1..] ==> q in queue;
  }

  // ----- the recursive query behind IsAncestor ------------------------------------------

  lemma {:induction false} LeastDistance(g: Graph, c: Id, a: Id, n: nat) returns (d: nat)
    requires StepsTo(g, c, a, n)
    ensures d <= n && Distance(g, c, a, d)
    decreases n
  {
    if m: nat :| m < n && StepsTo(g, c, a, m) {
      d := LeastDistance(g, c, a, m);
    } else {
      d := n;
    }
  }

  /** A shortest path to a commit runs through a commit one edge nearer. */
  lemma NearerPredecessor(g: Graph, c: Id, a: Id, d: nat) returns (y: Id)
    requires Distance(g, c, a, d) && d > 0
    ensures Distance(g, c, y, d - 1) && y in g && a in g[y]
  {
    y :| StepsTo(g, c, y, d - 1) && y in g && a in g[y];
    forall m: nat | m < d - 1 ensures !StepsTo(g, c, y, m) {
      if StepsTo(g, c, y, m) {
        ParentSteps(g, c, y, a, m);
        assert false;
      }
    }
  }

  /** A row of the recursive query: the commits passed so far, without repetitions. */
  ghost predicate Row(g: Graph, c: Id, p: seq<Id>, n: nat) {
    && |p| == n + 1 && Distinct(p)
    && (forall a :: a in p ==> a in g)
    && p[n] in g && Reaches(g, c, p[n])
  }

  ghost predicate Level(g: Graph, c: Id, rows: set<seq<Id>>, n: nat) {
    forall p :: p in rows ==> |p| == n + 1 && p[|p| - 1] in g && Row(g, c, p, n)
  }

  /** A row that follows shortest distances. */
  ghost predicate ShortestRow(g: Graph, c: Id, p: seq<Id>) {
    forall i :: 0 <= i < |p| ==> Distance(g, c, p[i], i)
  }

  /** Every recorded commit at distance `n` is the end of a row that follows shortest distances. */
  ghost predicate LevelComplete(g: Graph, c: Id, rows: set<seq<Id>>, n: nat) {
    forall a :: a in g && Distance(g, c, a, n) ==>
                exists p :: p in rows && |p| == n + 1 && p[n] == a && ShortestRow(g, c, p)
  }

  function NextRows(g: Graph, rows: set<seq<Id>>): set<seq<Id>>
    requires forall p :: p in rows ==> |p| > 0 && p[|p| - 1] in g
  {
    set p, a | p in rows && a in g[p[|p| - 1]] && a in g && a !in p :: p + [a]
  }

  lemma {:induction false} DistinctBound(p: seq<Id>, s: set<Id>)
    requires Distinct(p) && forall a :: a in p ==> a in s
    ensures |p| <= |s|
  {
    if p != [] {
      var last := p[|p| - 1];
      DistinctBound(p[..|p| - 1], s - {last});
    }
  }

  lemma NextRowsStayRows(g: Graph, c: Id, rows: set<seq<Id>>, n: nat)
    requires Level(g, c, rows, n)
    ensures Level(g, c, NextRows(g, rows), n + 1)
  {
    hide Reaches;
    forall p | p in NextRows(g, rows) ensures Row(g, c, p, n + 1) {
      var q, a :| q in rows && a in g[q[|q| - 1]] && a in g && a !in q && p == q + [a];
      ReachesParent(g, c, q[n], a);
    }
  }

  lemma NextLevelComplete(g: Graph, c: Id, rows: set<seq<Id>>, n: nat)
    requires Level(g, c, rows, n)
    requires LevelComplete(g, c, rows, n)
    ensures LevelComplete(g, c, NextRows(g, rows), n + 1)
  {
    hide StepsTo;
    hide Reaches;
    var next := NextRows(g, rows);
    forall a | a in g && Distance(g, c, a, n + 1)
      ensures exists p :: p in next && |p| == n + 2 && p[n + 1] == a && ShortestRow(g, c, p)
    {
      var y := NearerPredecessor(g, c, a, n + 1);
      var q :| q in rows && |q| == n + 1 && q[n] == y && ShortestRow(g, c, q);
      assert a !in q;
      var p := q + [a];
      assert p in next && ShortestRow(g, c, p);
    }
  }

  lemma {:induction false} EmptyLevel(g: Graph, c: Id, n: nat, a: Id, d: nat)
    requires LevelComplete(g, c, {}, n) && n <= d && a in g
    ensures !Distance(g, c, a, d)
    decreases d
  {
    if Distance(g, c, a, d) && n < d {
      var y := NearerPredecessor(g, c, a, d);
      EmptyLevel(g, c, n, y, d - 1);
    }
  }

  /** Distances below `n` have all been compared with `ancestor`. */
  ghost predicate Answered(g: Graph, c: Id, ancestor: Id, n: nat, found: bool) {
    && (found ==> ancestor in g && Reaches(g, c, ancestor))
    && (forall d: nat :: d < n && ancestor in g && Distance(g, c, ancestor, d) ==> found)
  }

  lemma AnswerRows(g: Graph, c: Id, ancestor: Id, rows: set<seq<Id>>, n: nat, found: bool)
    requires Level(g, c, rows, n)
    requires LevelComplete(g, c, rows, n) && Answered(g, c, ancestor, n, found)
    ensures Answered(g, c, ancestor, n + 1, found || exists p :: p in rows && p[|p| - 1] == ancestor)
  {
    hide StepsTo;
    hide Reaches;
  }

  lemma AnswerComplete(g: Graph, c: Id, ancestor: Id, n: nat, found: bool)
    requires Answered(g, c, ancestor, n, found) && LevelComplete(g, c, {}, n)
    ensures found <==> ancestor in g && Reaches(g, c, ancestor)
  {
    if ancestor in g && Reaches(g, c, ancestor) {
      var m: nat :| StepsTo(g, c, ancestor, m);
      var d := LeastDistance(g, c, ancestor, m);
      if d >= n {
        EmptyLevel(g, c, n, ancestor, d);
      }
    }
  }

  /** IsAncestor: rows are extended by parents not yet on their own path until none is left. */
  method IsAncestor(g: Graph, ancestor: Id, commit: Id) returns (found: bool)
    ensures found <==> commit in g && ancestor in g && Reaches(g, commit, ancestor)
  {
    hide StepsTo;
    hide Reaches;
    if commit !in g {
      NothingFrom(g, commit, ancestor);
      return false;
    }
    var working: set<seq<Id>> := {[commit]};
    ghost var n := 0;
    found := false;
    FirstRow(g, commit);
    while working != {}
      invariant Level(g, commit, working, n)
      invariant LevelComplete(g, commit, working, n)
      invariant Answered(g, commit, ancestor, n, found)
      decreases |g| + 1 - n
    {
      var row :| row in working;
      DistinctBound(row, g.Keys);
      assert |g.Keys| == |g|;
      AnswerRows(g, commit, ancestor, working, n, found);
      found := found || exists p | p in working :: p[|p| - 1] == ancestor;
      NextRowsStayRows(g, commit, working, n);
      NextLevelComplete(g, commit, working, n);
      working := NextRows(g, working);
      n := n + 1;
    }
    AnswerComplete(g, commit, ancestor, n, found);
  }

  lemma FirstRow(g: Graph, c: Id)
    requires c in g
    ensures Level(g, c, {[c]}, 0) && LevelComplete(g, c, {[c]}, 0)
  {
    ReachesSelf(g, c);
    assert ShortestRow(g, c, [c]);
  }

  lemma NothingFrom(g: Graph, c: Id, a: Id)
    requires c !in g
    ensures Reaches(g, c, a) ==> a == c
  {
    if Reaches(g, c, a) {
      var n: nat :| StepsTo(g, c, a, n);
      if n > 0 {
        var p := FirstStep(g, c, a, n);
      }
    }
  }

  /** On a parent-closed repository within the cap both engines give the same answer. */
  method EnginesAgree(g: Graph, ancestor: Id, commit: Id, cap: nat)
    returns (found: bool, ids: Result<seq<Id>, HistoryError>)
    requires Closed(g) && cap > 0
    ensures found <==> commit in g && ancestor in g && Reaches(g, commit, ancestor)
    ensures ids.Ok? <==> commit in g && |Ancestors(g, commit)| <= cap
    ensures ids.Ok? ==> ListsAncestors(g, commit, ids.value) && (found <==> ancestor in ids.value)
    ensures ids.Err? ==> ids.error == if commit in g then CommitHistoryTooDeep else CommitNotFound
  {
    hide StepsTo;
    hide Reaches;
    found := IsAncestor(g, ancestor, commit);
    ids := CommitAncestryIDs(g, commit, cap);
    if commit in g {
      AncestryFrozen(g, g, commit, ancestor);
    }
  }

  // ----- merge base ---------------------------------------------------------------------

  function Max(a: nat, b: nat): nat { if a < b then b else a }

  /** A common ancestor of `s` and `t` at shortest distances `ds` and `dt`. */
  ghost predicate Common(g: Graph, s: Id, t: Id, a: Id, ds: nat, dt: nat) {
    Distance(g, s, a, ds) && Distance(g, t, a, dt)
  }

  /** The comparison of FindLowestCommonAncestor: summed distance, then maximum distance, then id. */
  predicate Nearer(a: Id, as_: nat, at: nat, b: Id, bs: nat, bt: nat) {
    || as_ + at < bs + bt
    || (as_ + at == bs + bt && Max(as_, at) < Max(bs, bt))
    || (as_ + at == bs + bt && Max(as_, at) == Max(bs, bt) && Less(a, b))
  }

  /** `a` is the unique minimum of that comparison among all common ancestors. */
  ghost predicate MergeBase(g: Graph, s: Id, t: Id, a: Id) {
    exists as_: nat, at: nat :: Common(g, s, t, a, as_, at)
      && forall b, bs: nat, bt: nat :: Common(g, s, t, b, bs, bt) && b != a ==> Nearer(a, as_, at, b, bs, bt)
  }

  lemma NearerTotal(a: Id, as_: nat, at: nat, b: Id, bs: nat, bt: nat)
    requires a != b
    ensures Nearer(a, as_, at, b, bs, bt) <==> !Nearer(b, bs, bt, a, as_, at)
  {
    LessTotal(a, b);
    if Less(a, b) { LessAsymmetric(a, b); }
    if Less(b, a) { LessAsymmetric(b, a); }
  }

  lemma NearerTransitive(a: Id, as_: nat, at: nat, b: Id, bs: nat, bt: nat, c: Id, cs: nat, ct: nat)
    requires Nearer(a, as_, at, b, bs, bt) && Nearer(b, bs, bt, c, cs, ct)
    ensures Nearer(a, as_, at, c, cs, ct)
  {
    if Less(a, b) && Less(b, c) { LessTransitive(a, b, c); }
  }

  /** `a` comes no later than `b`: the smaller sum of distances, then the smaller greater one, then the id. */
  ghost predicate ComesFirst(a: Id, as_: nat, at: nat, b: Id, bs: nat, bt: nat) {
    && as_ + at <= bs + bt
    && (as_ + at == bs + bt ==> (as_ <= bs || as_ <= bt) && (at <= bs || at <= bt))
    && (as_ + at == bs + bt && ((as_ == bs && at == bt) || (as_ == bt && at == bs)) ==> Less(a, b))
  }

  /** What the merge base is, by distances alone: no other common ancestor has a smaller sum of distances, none with the
      same sum a smaller greater distance, and none with the same sum and greater distance a smaller id. */
  lemma MergeBaseExactly(g: Graph, s: Id, t: Id, a: Id)
    ensures MergeBase(g, s, t, a) <==>
            && Reaches(g, s, a) && Reaches(g, t, a)
            && forall as_: nat, at: nat, b, bs: nat, bt: nat ::
                 Common(g, s, t, a, as_, at) && Common(g, s, t, b, bs, bt) && b != a ==>
                   ComesFirst(a, as_, at, b, bs, bt)
  {
    hide Distance;
    if MergeBase(g, s, t, a) {
      MergeBaseReached(g, s, t, a);
      var ds: nat, dt: nat :| Common(g, s, t, a, ds, dt)
        && forall b, bs: nat, bt: nat :: Common(g, s, t, b, bs, bt) && b != a ==> Nearer(a, ds, dt, b, bs, bt);
      forall as_: nat, at: nat, b, bs: nat, bt: nat
        | Common(g, s, t, a, as_, at) && Common(g, s, t, b, bs, bt) && b != a
        ensures ComesFirst(a, as_, at, b, bs, bt)
      {
        DistanceUnique(g, s, a, ds, as_);
        DistanceUnique(g, t, a, dt, at);
      }
    }
    if Reaches(g, s, a) && Reaches(g, t, a)
       && forall as_: nat, at: nat, b, bs: nat, bt: nat ::
         Common(g, s, t, a, as_, at) && Common(g, s, t, b, bs, bt) && b != a ==> ComesFirst(a, as_, at, b, bs, bt)
    {
      var as_, at := CommonDistances(g, s, t, a);
      forall b, bs: nat, bt: nat | Common(g, s, t, b, bs, bt) && b != a ensures Nearer(a, as_, at, b, bs, bt) {
        assert ComesFirst(a, as_, at, b, bs, bt);
      }
    }
  }

  /** The merge base does not depend on which side is called source. */
  lemma MergeBaseSymmetric(g: Graph, s: Id, t: Id, a: Id)
    requires MergeBase(g, s, t, a)
    ensures MergeBase(g, t, s, a)
  {
    hide Distance;
    var as_: nat, at: nat :| Common(g, s, t, a, as_, at)
      && forall b, bs: nat, bt: nat :: Common(g, s, t, b, bs, bt) && b != a ==> Nearer(a, as_, at, b, bs, bt);
    assert Common(g, t, s, a, at, as_);
    forall b, bs: nat, bt: nat | Common(g, t, s, b, bs, bt) && b != a ensures Nearer(a, at, as_, b, bs, bt) {
      assert Common(g, s, t, b, bt, bs);
    }
  }

  lemma MergeBaseUnique(g: Graph, s: Id, t: Id, a: Id, b: Id)
    requires MergeBase(g, s, t, a) && MergeBase(g, s, t, b)
    ensures a == b
  {
    hide Distance;
    if a != b {
      var as_: nat, at: nat :| Common(g, s, t, a, as_, at)
        && forall x, xs: nat, xt: nat :: Common(g, s, t, x, xs, xt) && x != a ==> Nearer(a, as_, at, x, xs, xt);
      var bs: nat, bt: nat :| Common(g, s, t, b, bs, bt)
        && forall x, xs: nat, xt: nat :: Common(g, s, t, x, xs, xt) && x != b ==> Nearer(b, bs, bt, x, xs, xt);
      NearerTotal(a, as_, at, b, bs, bt);
      assert false;
    }
  }

  ghost predicate SingleParent(g: Graph) {
    forall c :: c in g ==> |g[c]| <= 1
  }

  /** On single-parent histories the nearer of two ancestors descends from the farther one. */
  lemma {:induction false} LinearOrder(g: Graph, s: Id, x: Id, m: nat, y: Id, n: nat)
    requires SingleParent(g) && m <= n && StepsTo(g, s, x, m) && StepsTo(g, s, y, n)
    ensures StepsTo(g, x, y, n - m)
    decreases m
  {
    if m > 0 {
      var p := FirstStep(g, s, x, m);
      var q := FirstStep(g, s, y, n);
      LinearOrder(g, p, x, m - 1, y, n - 1);
    }
  }

  /** On single-parent histories the merge base is the true lowest common ancestor. */
  lemma LinearMergeBaseIsLowest(g: Graph, s: Id, t: Id, a: Id, b: Id)
    requires SingleParent(g) && MergeBase(g, s, t, a)
    requires Reaches(g, s, b) && Reaches(g, t, b)
    ensures Reaches(g, a, b)
  {
    hide StepsTo;
    ReachesSelf(g, a);
    var as_: nat, at: nat :| Common(g, s, t, a, as_, at)
      && forall x, xs: nat, xt: nat :: Common(g, s, t, x, xs, xt) && x != a ==> Nearer(a, as_, at, x, xs, xt);
    var ns: nat :| StepsTo(g, s, b, ns);
    var nt: nat :| StepsTo(g, t, b, nt);
    var bs := LeastDistance(g, s, b, ns);
    var bt := LeastDistance(g, t, b, nt);
    assert Common(g, s, t, b, bs, bt);
    if as_ <= bs {
      LinearOrder(g, s, a, as_, b, bs);
    } else if at <= bt {
      LinearOrder(g, t, a, at, b, bt);
    } else {
      assert b == a;
    }
  }

  /** Both histories are small enough for a merge. */
  ghost predicate WithinCap(g: Graph, source: Id, target: Id) {
    && source in g && target in g
    && |Ancestors(g, source)| <= MAX_MERGE_ANCESTRY_COMMITS && |Ancestors(g, target)| <= MAX_MERGE_ANCESTRY_COMMITS
  }

  /** FindLowestCommonAncestor: the loop visits the source history in arbitrary map order. */
  method FindLowestCommonAncestor(g: Graph, source: Id, target: Id) returns (r: Result<Id, HistoryError>)
    ensures r.Ok? ==> MergeBase(g, source, target, r.value)
    ensures r.Ok? ==> forall as_: nat, at: nat, b, bs: nat, bt: nat ::
                        Common(g, source, target, r.value, as_, at) && Common(g, source, target, b, bs, bt) ==>
                        b == r.value || ComesFirst(r.value, as_, at, b, bs, bt)
    ensures source !in g ==> r == Err(CommitNotFound)
    ensures r == Err(NoCommonAncestor) ==> forall a :: !(Reaches(g, source, a) && Reaches(g, target, a))
    ensures Closed(g) ==> (r.Ok? || r == Err(NoCommonAncestor) <==> WithinCap(g, source, target))
    ensures Closed(g) && r.Err? && r != Err(NoCommonAncestor) && source in g && target in g ==>
              |Ancestors(g, source)| > 100 || |Ancestors(g, target)| > 100
    ensures Closed(g) && (r.Ok? || r == Err(NoCommonAncestor)) ==>
              |Ancestors(g, source)| <= 100 && |Ancestors(g, target)| <= 100
  {
    hide Distance;
    hide Reaches;
    var sourceHistory := CollectMergeAncestry(g, source, MAX_MERGE_ANCESTRY_COMMITS);
    if sourceHistory.Err? { return Err(sourceHistory.error); }
    var targetHistory := CollectMergeAncestry(g, target, MAX_MERGE_ANCESTRY_COMMITS);
    if targetHistory.Err? { return Err(targetHistory.error); }
    var sh, th := sourceHistory.value, targetHistory.value;
    var best: Option<Id> := None;
    var rest := sh.Keys;
    while rest != {}
      invariant rest <= sh.Keys
      invariant best.None? ==> forall b :: b in sh.Keys - rest ==> b !in th
      invariant best.Some? ==> best.value in sh && best.value in th && best.value !in rest
      invariant best.Some? ==> forall b :: b in sh.Keys - rest && b in th && b != best.value ==>
                  Nearer(best.value, sh[best.value], th[best.value], b, sh[b], th[b])
      decreases rest
    {
      var id :| id in rest;
      rest := rest - {id};
      if id in th {
        if best.None? || Nearer(id, sh[id], th[id], best.value, sh[best.value], th[best.value]) {
          forall b | b in sh.Keys - rest && b in th && b != id ensures Nearer(id, sh[id], th[id], b, sh[b], th[b]) {
            if best.Some? && b != best.value {
              NearerTransitive(id, sh[id], th[id], best.value, sh[best.value], th[best.value], b, sh[b], th[b]);
            }
          }
          best := Some(id);
        } else {
          NearerTotal(id, sh[id], th[id], best.value, sh[best.value], th[best.value]);
        }
      }
    }
    if best.None? {
      return Err(NoCommonAncestor);
    }
    ExactMinimum(g, source, target, sh, th, best.value);
    MergeBaseExactly(g, source, target, best.value);
    return Ok(best.value);
  }

  lemma ExactMinimum(g: Graph, s: Id, t: Id, sh: map<Id, nat>, th: map<Id, nat>, a: Id)
    requires ExactHistory(g, s, sh) && ExactHistory(g, t, th) && a in sh && a in th
    requires forall b :: b in sh && b in th && b != a ==> Nearer(a, sh[a], th[a], b, sh[b], th[b])
    ensures MergeBase(g, s, t, a)
  {
    assert Common(g, s, t, a, sh[a], th[a]);
    forall b, bs: nat, bt: nat | Common(g, s, t, b, bs, bt) && b != a ensures Nearer(a, sh[a], th[a], b, bs, bt) {
      assert Reaches(g, s, b) && Reaches(g, t, b);
      DistanceUnique(g, s, b, bs, sh[b]);
      DistanceUnique(g, t, b, bt, th[b]);
    }
  }

  lemma DistanceUnique(g: Graph, c: Id, a: Id, m: nat, n: nat)
    requires Distance(g, c, a, m) && Distance(g, c, a, n)
    ensures m == n
  {}

  /** Calling with source and target swapped gives the same answer. */
  method MergeBaseOrderFree(g: Graph, source: Id, target: Id)
    returns (r: Result<Id, HistoryError>, swapped: Result<Id, HistoryError>)
    ensures r.Ok? ==> MergeBase(g, source, target, r.value)
    ensures swapped.Ok? ==> MergeBase(g, target, source, swapped.value)
    ensures r == Err(NoCommonAncestor) || swapped == Err(NoCommonAncestor) ==>
              forall a :: !(Reaches(g, source, a) && Reaches(g, target, a))
    ensures Closed(g) ==> (r.Ok? || r == Err(NoCommonAncestor) <==> WithinCap(g, source, target))
    ensures r.Ok? && swapped.Ok? ==> r == swapped
    ensures Closed(g) && WithinCap(g, source, target) ==> r == swapped
  {
    r := FindLowestCommonAncestor(g, source, target);
    swapped := FindLowestCommonAncestor(g, target, source);
    if r.Ok? && swapped.Ok? {
      MergeBaseSymmetric(g, target, source, swapped.value);
      MergeBaseUnique(g, source, target, r.value, swapped.value);
    }
    if r.Ok? {
      MergeBaseReached(g, source, target, r.value);
    }
    if swapped.Ok? {
      MergeBaseReached(g, target, source, swapped.value);
    }
  }

  lemma MergeBaseReached(g: Graph, s: Id, t: Id, a: Id)
    requires MergeBase(g, s, t, a)
    ensures Reaches(g, s, a) && Reaches(g, t, a)
  {}

  // ----- when the merge base is lowest --------------------------------------------------

  /** `a` is a common ancestor and no other common ancestor descends from it. */
  ghost predicate Lowest(g: Graph, s: Id, t: Id, a: Id) {
    && Reaches(g, s, a) && Reaches(g, t, a)
    && forall b :: Reaches(g, s, b) && Reaches(g, t, b) && b != a ==> !Reaches(g, b, a)
  }

  /** Distances from `s` strictly grow from each commit to its proper ancestors: no parent edge is a shortcut. */
  ghost predicate NoShortcut(g: Graph, s: Id) {
    forall a, b, na: nat, nb: nat :: Distance(g, s, a, na) && Distance(g, s, b, nb) && Reaches(g, b, a) && a != b ==>
                                     nb < na
  }

  ghost predicate CommonAncestor(g: Graph, s: Id, t: Id, x: Id) {
    Reaches(g, s, x) && Reaches(g, t, x)
  }

  /** A parent edge of the common history: `y` is another common ancestor and names `x` as a parent. */
  ghost predicate CommonChild(g: Graph, s: Id, t: Id, y: Id, x: Id) {
    CommonAncestor(g, s, t, y) && y != x && y in g && x in g[y]
  }

  /** A common ancestor without a child in the common history. */
  ghost predicate Tip(g: Graph, s: Id, t: Id, x: Id) {
    CommonAncestor(g, s, t, x) && forall y :: !CommonChild(g, s, t, y, x)
  }

  /** FindLowestCommonAncestor prefers `x` to `y`. */
  ghost predicate Preferred(g: Graph, s: Id, t: Id, x: Id, y: Id) {
    exists xs: nat, xt: nat, ys: nat, yt: nat ::
      Common(g, s, t, x, xs, xt) && Common(g, s, t, y, ys, yt) && Nearer(x, xs, xt, y, ys, yt)
  }

  /** Shortcuts make `x` nearer than every child that it has in the common history. */
  ghost predicate Overtakes(g: Graph, s: Id, t: Id, x: Id) {
    && (exists y :: CommonChild(g, s, t, y, x))
    && forall y :: CommonChild(g, s, t, y, x) ==> Preferred(g, s, t, x, y)
  }

  /** Every commit that overtakes its children is still farther away than some tip of the common history. */
  ghost predicate TipsPreferred(g: Graph, s: Id, t: Id) {
    forall x :: Overtakes(g, s, t, x) ==> exists c :: Tip(g, s, t, c) && Preferred(g, s, t, c, x)
  }

  lemma CommonDistances(g: Graph, s: Id, t: Id, a: Id) returns (ds: nat, dt: nat)
    requires Reaches(g, s, a) && Reaches(g, t, a)
    ensures Common(g, s, t, a, ds, dt)
  {
    hide StepsTo;
    hide Distance;
    var ns: nat :| StepsTo(g, s, a, ns);
    var nt: nat :| StepsTo(g, t, a, nt);
    ds := LeastDistance(g, s, a, ns);
    dt := LeastDistance(g, t, a, nt);
  }

  /** The last edge into `a` on a path from another commit. */
  lemma {:induction false} LastEdge(g: Graph, b: Id, a: Id, n: nat) returns (y: Id)
    requires StepsTo(g, b, a, n) && b != a
    ensures y in g && a in g[y] && y != a && Reaches(g, b, y)
    decreases n
  {
    y :| StepsTo(g, b, y, n - 1) && y in g && a in g[y];
    if y == a {
      y := LastEdge(g, b, a, n - 1);
    }
  }

  /** Where another common ancestor descends from `x`, some child of `x` is a common ancestor. */
  lemma ChildAbove(g: Graph, s: Id, t: Id, b: Id, x: Id) returns (y: Id)
    requires CommonAncestor(g, s, t, b) && b != x && Reaches(g, b, x)
    ensures CommonChild(g, s, t, y, x)
  {
    hide StepsTo;
    var n: nat :| StepsTo(g, b, x, n);
    y := LastEdge(g, b, x, n);
    ReachesTransitive(g, s, b, y);
    ReachesTransitive(g, t, b, y);
  }

  /** The lowest common ancestors are the tips of the common history. */
  lemma LowestIsTip(g: Graph, s: Id, t: Id, x: Id)
    ensures Lowest(g, s, t, x) <==> Tip(g, s, t, x)
  {
    hide StepsTo;
    if Lowest(g, s, t, x) {
      forall y ensures !CommonChild(g, s, t, y, x) {
        if CommonChild(g, s, t, y, x) { Below(g, y, x); }
      }
    }
    forall b | Tip(g, s, t, x) && CommonAncestor(g, s, t, b) && b != x ensures !Reaches(g, b, x) {
      if Reaches(g, b, x) {
        var y := ChildAbove(g, s, t, b, x);
      }
    }
  }

  /** A merge base is preferred to every other common ancestor, and none is preferred to it. */
  lemma MergeBasePreferred(g: Graph, s: Id, t: Id, a: Id, x: Id)
    requires MergeBase(g, s, t, a) && CommonAncestor(g, s, t, x)
    ensures x != a ==> Preferred(g, s, t, a, x)
    ensures !Preferred(g, s, t, x, a)
  {
    hide Reaches;
    hide StepsTo;
    var as_: nat, at: nat :| Common(g, s, t, a, as_, at)
      && forall b, bs: nat, bt: nat :: Common(g, s, t, b, bs, bt) && b != a ==> Nearer(a, as_, at, b, bs, bt);
    var ds, dt := CommonDistances(g, s, t, x);
    forall xs: nat, xt: nat, ys: nat, yt: nat | Common(g, s, t, x, xs, xt) && Common(g, s, t, a, ys, yt)
      ensures !Nearer(x, xs, xt, a, ys, yt)
    {
      DistanceUnique(g, s, a, as_, ys);
      DistanceUnique(g, t, a, at, yt);
      if x == a {
        DistanceUnique(g, s, a, as_, xs);
        DistanceUnique(g, t, a, at, xt);
        if Less(a, a) { LessAsymmetric(a, a); }
      } else {
        NearerTotal(a, as_, at, x, xs, xt);
      }
    }
  }

  /** The exact condition, in terms of the parent edges of the common history: the merge base is lowest if and only if
      no commit that overtakes all of its children there comes before all tips. */
  lemma MergeBaseLowestExactly(g: Graph, s: Id, t: Id, a: Id)
    requires MergeBase(g, s, t, a)
    ensures Lowest(g, s, t, a) <==> TipsPreferred(g, s, t)
  {
    MergeBaseReached(g, s, t, a);
    LowestIsTip(g, s, t, a);
    hide Reaches;
    hide MergeBase;
    hide Lowest;
    if Tip(g, s, t, a) {
      forall x | Overtakes(g, s, t, x) ensures exists c :: Tip(g, s, t, c) && Preferred(g, s, t, c, x) {
        var y :| CommonChild(g, s, t, y, x);
        CommonParent(g, s, t, y, x);
        MergeBasePreferred(g, s, t, a, x);
      }
    } else {
      forall y | CommonChild(g, s, t, y, a) ensures Preferred(g, s, t, a, y) {
        MergeBasePreferred(g, s, t, a, y);
      }
      assert Overtakes(g, s, t, a);
      forall c | Tip(g, s, t, c) ensures !Preferred(g, s, t, c, a) {
        MergeBasePreferred(g, s, t, a, c);
      }
    }
  }

  lemma CommonParent(g: Graph, s: Id, t: Id, y: Id, x: Id)
    requires CommonChild(g, s, t, y, x)
    ensures CommonAncestor(g, s, t, x)
  {
    hide Reaches;
    ReachesParent(g, s, y, x);
    ReachesParent(g, t, y, x);
  }

  /** So in a history without shortcuts from either side every merge base is lowest. */
  lemma NoShortcutBaseIsLowest(g: Graph, s: Id, t: Id, a: Id)
    requires NoShortcut(g, s) && NoShortcut(g, t) && MergeBase(g, s, t, a)
    ensures Lowest(g, s, t, a)
  {
    hide Reaches;
    hide NoShortcut;
    hide MergeBase;
    hide Lowest;
    hide Preferred;
    hide CommonChild;
    MergeBaseLowestExactly(g, s, t, a);
    forall x ensures !Overtakes(g, s, t, x) {
      if Overtakes(g, s, t, x) {
        var y :| CommonChild(g, s, t, y, x);
        NeverOvertaken(g, s, t, y, x);
      }
    }
  }

  lemma NeverOvertaken(g: Graph, s: Id, t: Id, y: Id, x: Id)
    requires NoShortcut(g, s) && NoShortcut(g, t) && CommonChild(g, s, t, y, x)
    ensures !Preferred(g, s, t, x, y)
  {
    hide Reaches;
    hide Distance;
    Below(g, y, x);
    forall xs: nat, xt: nat, ys: nat, yt: nat | Common(g, s, t, x, xs, xt) && Common(g, s, t, y, ys, yt)
      ensures ys < xs && yt < xt
    {}
  }

  lemma Below(g: Graph, c: Id, p: Id)
    requires c in g && p in g[c]
    ensures Reaches(g, c, p)
  {
    ReachesSelf(g, c);
    ReachesParent(g, c, c, p);
  }

  /** A commit is the merge base of itself with itself, and lowest, whatever shortcuts its history has. */
  lemma OwnMergeBase(g: Graph, s: Id)
    requires Acyclic(g) && s in g
    ensures MergeBase(g, s, s, s) && Lowest(g, s, s, s)
  {
    assert StepsTo(g, s, s, 0);
    assert Common(g, s, s, s, 0, 0);
    forall b, bs: nat, bt: nat | Common(g, s, s, b, bs, bt) && b != s ensures Nearer(s, 0, 0, b, bs, bt) {
      assert bs > 0 && bt > 0;
    }
    forall b | Reaches(g, s, b) && b != s ensures !Reaches(g, b, s) {
      if Reaches(g, b, s) { ReachesAntisymmetric(g, s, b); }
    }
  }

  /** Two merges that reach an old commit through shortcuts: `b` is a common ancestor below `a`. */
  const SHORTCUTS: Graph := map["s" := ["x", "a"], "t" := ["y", "a"], "x" := ["b"], "y" := ["b"], "b" := ["a"], "a" :=
    []]

  lemma ShortcutsRanked() returns (rank: map<Id, nat>)
    ensures Ranked(SHORTCUTS, rank) && rank["a"] == 0 && rank["b"] == 1 && rank["s"] == 3 && rank["t"] == 3
    ensures SHORTCUTS.Keys == {"s", "t", "x", "y", "b", "a"}
  {
    rank := map["a" := 0, "b" := 1, "x" := 2, "y" := 2, "s" := 3, "t" := 3];
  }

  lemma OneStep(g: Graph, c: Id, a: Id)
    ensures StepsTo(g, c, a, 1) <==> c in g && a in g[c]
  {
    assert StepsTo(g, c, c, 0);
  }

  lemma ShortcutsNearest(c: Id, cs: nat, ct: nat)
    requires Common(SHORTCUTS, "s", "t", c, cs, ct)
    ensures c == "a" || (cs >= 1 && ct >= 1 && cs + ct > 2)
  {
    hide StepsTo;
    var rank := ShortcutsRanked();
    StepsRank(SHORTCUTS, rank, "s", c, cs);
    StepsRank(SHORTCUTS, rank, "t", c, ct);
    OneStep(SHORTCUTS, "s", c);
    OneStep(SHORTCUTS, "t", c);
    ZeroSteps(SHORTCUTS, "s", c);
    ZeroSteps(SHORTCUTS, "t", c);
  }

  lemma ZeroSteps(g: Graph, c: Id, a: Id)
    ensures StepsTo(g, c, a, 0) <==> a == c
  {}

  lemma ShortcutBase()
    ensures MergeBase(SHORTCUTS, "s", "t", "a")
  {
    hide StepsTo;
    var g := SHORTCUTS;
    OneStep(g, "s", "a");
    OneStep(g, "t", "a");
    ZeroSteps(g, "s", "a");
    ZeroSteps(g, "t", "a");
    assert Common(g, "s", "t", "a", 1, 1);
    hide Common;
    forall c, cs: nat, ct: nat | Common(g, "s", "t", c, cs, ct) && c != "a" ensures Nearer("a", 1, 1, c, cs, ct) {
      ShortcutsNearest(c, cs, ct);
    }
  }

  /** In general the merge base need not be lowest: here a common ancestor descends from it. */
  lemma MergeBaseNotLowest()
    ensures Acyclic(SHORTCUTS) && MergeBase(SHORTCUTS, "s", "t", "a") && !Lowest(SHORTCUTS, "s", "t", "a")
    ensures Reaches(SHORTCUTS, "s", "b") && Reaches(SHORTCUTS, "t", "b") && Reaches(SHORTCUTS, "b", "a")
            && !Reaches(SHORTCUTS, "a", "b")
    ensures !TipsPreferred(SHORTCUTS, "s", "t")
  {
    hide Reaches;
    hide MergeBase;
    hide Ranked;
    hide TipsPreferred;
    var g := SHORTCUTS;
    ShortcutBase();
    MergeBaseLowestExactly(g, "s", "t", "a");
    Below(g, "s", "x");
    Below(g, "t", "y");
    Below(g, "b", "a");
    ReachesParent(g, "s", "x", "b");
    ReachesParent(g, "t", "y", "b");
    var rank := ShortcutsRanked();
    if Reaches(g, "a", "b") {
      ReachesRank(g, rank, "a", "b");
    }
  }

  /** Being free of shortcuts is not necessary: "s" has one, and still is its own lowest merge base. */
  lemma ShortcutsMayNotMatter()
    ensures !NoShortcut(SHORTCUTS, "s") && MergeBase(SHORTCUTS, "s", "s", "s") && Lowest(SHORTCUTS, "s", "s", "s")
  {
    hide Distance;
    hide Reaches;
    var rank := ShortcutsRanked();
    OwnMergeBase(SHORTCUTS, "s");
    Below(SHORTCUTS, "b", "a");
    NearShortcut();
    FarCommit();
    hide MergeBase;
    hide Lowest;
    hide Ranked;
  }

  lemma NearShortcut()
    ensures Distance(SHORTCUTS, "s", "a", 1)
  {
    OneStep(SHORTCUTS, "s", "a");
    ZeroSteps(SHORTCUTS, "s", "a");
    hide StepsTo;
  }

  lemma FarCommit()
    ensures Distance(SHORTCUTS, "s", "b", 2)
  {
    OneStep(SHORTCUTS, "s", "x");
    OneStep(SHORTCUTS, "s", "b");
    ZeroSteps(SHORTCUTS, "s", "b");
    TwoSteps(SHORTCUTS, "s", "x", "b");
    hide StepsTo;
  }

  lemma TwoSteps(g: Graph, c: Id, p: Id, a: Id)
    requires StepsTo(g, c, p, 1) && p in g && a in g[p]
    ensures StepsTo(g, c, a, 2)
  {}
}
