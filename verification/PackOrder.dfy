// orderPullPacks (internal/server/sync/pull.go): Kahn's algorithm with a smallest-hash tie-break.
module PackOrder {
  import opened Ordering
  import opened Wrappers

  type Hash = string
  type Dependencies = map<Hash, set<Hash>>

  ghost predicate WellFormed(deps: Dependencies) {
    forall h, d :: h in deps && d in deps[h] ==> d in deps && d != h
  }

  ghost function Elements(s: seq<Hash>): set<Hash> {
    set h | h in s
  }

  /** Packs not yet emitted whose dependencies have all been emitted. */
  ghost function Available(deps: Dependencies, emitted: seq<Hash>): set<Hash> {
    set h | h in deps && h !in emitted && deps[h] <= Elements(emitted)
  }

  /** A permutation of the packs in which every pack follows all of its dependencies. */
  ghost predicate Topological(deps: Dependencies, order: seq<Hash>) {
    && Distinct(order)
    && Elements(order) == deps.Keys
    && forall i :: 0 <= i < |order| ==> order[i] in deps && deps[order[i]] <= Elements(order[..i])
  }

  /** Each emitted pack is the smallest hash that was available at that point. */
  ghost predicate Greedy(deps: Dependencies, order: seq<Hash>) {
    forall i :: 0 <= i < |order| ==>
      order[i] in Available(deps, order[..i])
      && forall h :: h in Available(deps, order[..i]) ==> Leq(order[i], h)
  }

  /** `a` is no later than `b` in the lexicographic order on lists of hashes. */
  ghost predicate LexLeq(a: seq<Hash>, b: seq<Hash>) {
    a == b || exists i :: 0 <= i < |a| && i < |b| && a[..i] == b[..i] && Less(a[i], b[i])
  }

  /** Greedy emission yields the lexicographically smallest dependency order. */
  lemma GreedyIsLeast(deps: Dependencies, order: seq<Hash>, other: seq<Hash>)
    requires Topological(deps, order) && Greedy(deps, order) && Topological(deps, other)
    ensures LexLeq(order, other)
  {
    SameLength(order, other);
    var i := 0;
    while i < |order| && order[i] == other[i]
      invariant i <= |order| && order[..i] == other[..i]
    {
      assert order[..i + 1] == order[..i] + [order[i]];
      assert other[..i + 1] == other[..i] + [other[i]];
      i := i + 1;
    }
    if i < |order| {
      NotEmittedBefore(other, i);
      assert other[i] in Available(deps, order[..i]);
    } else {
      assert order == order[..i] && other == other[..i];
    }
  }

  lemma NotEmittedBefore(order: seq<Hash>, i: nat)
    requires Distinct(order) && i < |order|
    ensures order[i] !in order[..i]
  {}

  lemma {:induction false} DistinctSize(s: seq<Hash>)
    requires Distinct(s)
    ensures |Elements(s)| == |s|
  {
    if s == [] {
      assert Elements(s) == {};
    } else {
      var front := s[..|s| - 1];
      DistinctSize(front);
      assert Elements(s) == Elements(front) + {s[|s| - 1]};
    }
  }

  lemma SameLength(a: seq<Hash>, b: seq<Hash>)
    requires Distinct(a) && Distinct(b) && Elements(a) == Elements(b)
    ensures |a| == |b|
  {
    DistinctSize(a);
    DistinctSize(b);
  }

  // ----- cycles -------------------------------------------------------------------------

  /** A dependency cycle: consecutive packs depend on each other and the walk returns to its start. */
  ghost predicate Cycle(deps: Dependencies, walk: seq<Hash>) {
    && |walk| > 1 && walk[0] == walk[|walk| - 1]
    && Walk(deps, walk)
  }

  ghost predicate Walk(deps: Dependencies, walk: seq<Hash>) {
    && (forall i :: 0 <= i < |walk| ==> walk[i] in deps)
    && (forall i :: 0 <= i < |walk| - 1 ==> walk[i + 1] in deps[walk[i]])
  }

  /** A set of packs each of which waits for another one of the set. */
  ghost predicate Stuck(deps: Dependencies, s: set<Hash>) {
    s != {} && s <= deps.Keys && forall h :: h in s ==> deps[h] * s != {}
  }

  lemma {:induction false} StuckWalk(deps: Dependencies, s: set<Hash>, n: nat) returns (walk: seq<Hash>)
    requires Stuck(deps, s)
    ensures |walk| == n + 1 && Walk(deps, walk) && forall h :: h in walk ==> h in s
  {
    if n == 0 {
      var h :| h in s;
      walk := [h];
    } else {
      var front := StuckWalk(deps, s, n - 1);
      assert front[n - 1] in s;
      var d :| d in deps[front[n - 1]] * s;
      walk := front + [d];
    }
  }

  /** Waiting in a circle is a cycle: a long enough walk inside a stuck set repeats a pack. */
  lemma StuckHasCycle(deps: Dependencies, s: set<Hash>) returns (cycle: seq<Hash>)
    requires Stuck(deps, s)
    ensures Cycle(deps, cycle)
  {
    var walk := StuckWalk(deps, s, |s|);
    if Distinct(walk) {
      DistinctSize(walk);
      assert Elements(walk) <= s;
      SubsetSize(Elements(walk), s);
      assert false;
    }
    var i, j :| 0 <= i < j < |walk| && walk[i] == walk[j];
    cycle := walk[i..j + 1];
  }

  /** A cycle excludes every dependency order: along the walk positions would decrease for ever. */
  lemma CycleHasNoOrder(deps: Dependencies, cycle: seq<Hash>, order: seq<Hash>)
    requires Cycle(deps, cycle)
    ensures !Topological(deps, order)
  {
    if Topological(deps, order) {
      var p := Position(deps, order, cycle[0]);
      WalkDescends(deps, order, cycle, p);
      assert false;
    }
  }

  lemma Position(deps: Dependencies, order: seq<Hash>, h: Hash) returns (p: nat)
    requires Topological(deps, order) && h in deps
    ensures p < |order| && order[p] == h
  {
    assert h in Elements(order);
    p :| 0 <= p < |order| && order[p] == h;
  }

  lemma DependencyEarlier(deps: Dependencies, order: seq<Hash>, p: nat, d: Hash) returns (q: nat)
    requires Topological(deps, order) && p < |order| && d in deps[order[p]]
    ensures q < p && order[q] == d
  {
    assert d in Elements(order[..p]);
    q :| 0 <= q < p && order[..p][q] == d;
  }

  /** Following dependencies from position `p` ends strictly before it. */
  lemma {:induction false} WalkDescends(deps: Dependencies, order: seq<Hash>, walk: seq<Hash>, p: nat)
    requires Topological(deps, order) && Walk(deps, walk) && |walk| > 1
    requires p < |order| && order[p] == walk[0]
    ensures exists q :: 0 <= q < p && order[q] == walk[|walk| - 1]
    decreases |walk|
  {
    var q := DependencyEarlier(deps, order, p, walk[1]);
    if |walk| > 2 {
      WalkDescends(deps, order, walk[1..], q);
    }
  }

  /** A pack above all others is emitted last. */
  lemma TopIsLast(deps: Dependencies, order: seq<Hash>, top: Hash)
    requires Topological(deps, order) && top in deps && Tops(deps, top)
    ensures EndsWith(order, top)
  {
    var p := Position(deps, order, top);
    var last := order[|order| - 1];
    assert last in deps;
    var q := BelowEarlier(deps, order, p, last);
    SamePosition(order, q, |order| - 1);
  }

  /** Dependencies that always lead to a smaller number cannot form a cycle. */
  lemma RankedHasNoCycle(deps: Dependencies, rank: map<Hash, nat>)
    requires forall h :: h in deps ==> h in rank
    requires forall h, d :: h in deps && d in deps[h] ==> d in deps && rank[d] < rank[h]
    ensures !HasCycle(deps)
  {
    if walk :| Cycle(deps, walk) {
      WalkLowersRank(deps, rank, walk);
    }
  }

  lemma {:induction false} WalkLowersRank(deps: Dependencies, rank: map<Hash, nat>, walk: seq<Hash>)
    requires forall h :: h in deps ==> h in rank
    requires forall h, d :: h in deps && d in deps[h] ==> d in deps && rank[d] < rank[h]
    requires Walk(deps, walk) && |walk| > 1
    ensures rank[walk[|walk| - 1]] < rank[walk[0]]
  {
    if |walk| > 2 {
      WalkLowersRank(deps, rank, walk[..|walk| - 1]);
    }
  }

  // ----- which pack comes last ----------------------------------------------------------

  /** `h` is `u` itself or one of its transitive dependencies. */
  ghost predicate Below(deps: Dependencies, u: Hash, h: Hash) {
    exists walk :: WalkTo(deps, u, h, walk)
  }

  ghost predicate WalkTo(deps: Dependencies, u: Hash, h: Hash, walk: seq<Hash>) {
    Walk(deps, walk) && |walk| > 0 && walk[0] == u && walk[|walk| - 1] == h
  }

  lemma BelowSelf(deps: Dependencies, u: Hash)
    requires u in deps
    ensures Below(deps, u, u)
  {
    assert WalkTo(deps, u, u, [u]);
  }

  lemma BelowDependency(deps: Dependencies, u: Hash, h: Hash, d: Hash)
    requires WellFormed(deps) && Below(deps, u, h) && h in deps && d in deps[h]
    ensures Below(deps, u, d)
  {
    var walk :| WalkTo(deps, u, h, walk);
    assert WalkTo(deps, u, d, walk + [d]);
  }

  /** In a dependency order everything below a pack precedes it. */
  lemma BelowEarlier(deps: Dependencies, order: seq<Hash>, p: nat, h: Hash) returns (q: nat)
    requires Topological(deps, order) && p < |order| && Below(deps, order[p], h)
    ensures q <= p && order[q] == h
  {
    var walk :| WalkTo(deps, order[p], h, walk);
    if |walk| == 1 {
      q := p;
    } else {
      WalkDescends(deps, order, walk, p);
      q :| 0 <= q < p && order[q] == h;
    }
  }

  /** Every pack but `top` is a transitive dependency of `top`. */
  ghost predicate Tops(deps: Dependencies, top: Hash) {
    forall h :: h in deps ==> Below(deps, top, h)
  }

  ghost predicate EndsWith(order: seq<Hash>, h: Hash) {
    |order| > 0 && order[|order| - 1] == h
  }

  /** Emission order: each pack after its dependencies. */
  ghost predicate Ordered(deps: Dependencies, order: seq<Hash>) {
    Distinct(order) && forall i :: 0 <= i < |order| ==> order[i] in deps && deps[order[i]] <= Elements(order[..i])
  }

  lemma OrderedAppend(deps: Dependencies, order: seq<Hash>, h: Hash)
    requires Ordered(deps, order) && h in deps && h !in order && deps[h] <= Elements(order)
    ensures Ordered(deps, order + [h])
  {
    var more := order + [h];
    forall i | 0 <= i < |more| ensures more[i] in deps && deps[more[i]] <= Elements(more[..i]) {
      if i < |order| { assert more[..i] == order[..i]; } else { assert more[..i] == order; }
    }
  }

  /** The packs of `order` that are in `s`, in their order, after `front`. */
  ghost function KeepAfter(front: seq<Hash>, order: seq<Hash>, s: set<Hash>): seq<Hash> {
    if order == [] then front
    else
      var n := |order| - 1;
      var kept := KeepAfter(front, order[..n], s);
      if order[n] in s then kept + [order[n]] else kept
  }

  lemma {:induction false} KeepElements(front: seq<Hash>, order: seq<Hash>, s: set<Hash>)
    ensures Elements(KeepAfter(front, order, s)) == Elements(front) + Elements(order) * s
  {
    if order == [] {
      assert Elements(order) == {};
    } else {
      var n := |order| - 1;
      KeepElements(front, order[..n], s);
      assert Elements(order) == Elements(order[..n]) + {order[n]};
      var kept := KeepAfter(front, order[..n], s);
      assert Elements(kept + [order[n]]) == Elements(kept) + {order[n]};
    }
  }

  /** Keeping a part of a dependency order is a dependency order, if what it depends on is in front or kept too. */
  lemma {:induction false} KeepOrdered(deps: Dependencies, front: seq<Hash>, order: seq<Hash>, s: set<Hash>)
    requires Ordered(deps, front) && Ordered(deps, order) && forall h :: h in front ==> h !in s
    requires forall h, d :: h in order && h in s && h in deps && d in deps[h] ==> d in s || d in front
    ensures Ordered(deps, KeepAfter(front, order, s))
  {
    if order != [] {
      var n := |order| - 1;
      assert forall i :: 0 <= i < n ==> order[..n][..i] == order[..i];
      KeepOrdered(deps, front, order[..n], s);
      KeepElements(front, order[..n], s);
      var kept := KeepAfter(front, order[..n], s);
      if order[n] in s {
        assert order[n] !in Elements(kept);
        forall d | d in deps[order[n]] ensures d in Elements(kept) {
          assert d in Elements(order[..n]);
        }
        OrderedAppend(deps, kept, order[n]);
      }
    }
  }

  /** A dependency order in which everything below `top` is emitted first. */
  lemma DownFirst(deps: Dependencies, order: seq<Hash>, top: Hash) returns (other: seq<Hash>)
    requires WellFormed(deps) && Topological(deps, order) && top in deps && !Tops(deps, top)
    ensures Topological(deps, other) && !EndsWith(other, top)
  {
    hide Below;
    var down := set h | h in deps && Below(deps, top, h);
    var rest := deps.Keys - down;
    forall h, d | h in down && d in deps[h] ensures d in down { BelowDependency(deps, top, h, d); }
    BelowSelf(deps, top);
    other := FrontFirst(deps, order, down);
    assert top !in rest;
  }

  /** A dependency order in which the packs of `front`, which need no others, are emitted before all others. */
  lemma FrontFirst(deps: Dependencies, order: seq<Hash>, front: set<Hash>) returns (other: seq<Hash>)
    requires WellFormed(deps) && Topological(deps, order) && front < deps.Keys
    requires forall h, d :: h in front && d in deps[h] ==> d in front
    ensures Topological(deps, other) && |other| > 0 && other[|other| - 1] in deps.Keys - front
  {
    hide KeepAfter;
    var rest := deps.Keys - front;
    var first := KeepAfter([], order, front);
    KeepElements([], order, front);
    assert forall h :: h in first <==> h in Elements(first);
    other := KeepAfter(first, order, rest);
    KeepElements(first, order, rest);
    assert Elements(other) == deps.Keys;
    KeepLast(first, order, rest);
    KeepOrdered(deps, [], order, front);
    KeepOrdered(deps, first, order, rest);
  }

  lemma {:induction false} KeepLast(front: seq<Hash>, order: seq<Hash>, s: set<Hash>)
    requires Elements(order) * s != {}
    ensures var kept := KeepAfter(front, order, s); |kept| > 0 && kept[|kept| - 1] in s
  {
    var n := |order| - 1;
    if order[n] !in s {
      assert Elements(order) == Elements(order[..n]) + {order[n]};
      KeepLast(front, order[..n], s);
    }
  }

  /** `top` ends every dependency order if and only if every pack is below it. */
  lemma TopAlwaysLast(deps: Dependencies, order: seq<Hash>, top: Hash)
    requires WellFormed(deps) && Topological(deps, order) && top in deps
    ensures Tops(deps, top) <==> forall other :: Topological(deps, other) ==> EndsWith(other, top)
  {
    hide Below;
    if Tops(deps, top) {
      forall other | Topological(deps, other) ensures EndsWith(other, top) {
        var p := Position(deps, other, top);
        assert |other| > 0 && other[|other| - 1] in deps;
        TopIsLast(deps, other, top);
      }
    } else {
      var other := DownFirst(deps, order, top);
    }
  }

  /** The climb from the largest hash: the largest pack of `s`, then the largest of those above it, and so on, ends
      at `top`. */
  ghost predicate ClimbsTo(deps: Dependencies, s: set<Hash>, top: Hash)
    decreases s
  {
    exists m :: m in s && Largest(s, m) && var above := Above(deps, s, m); if above == {} then m == top
                else ClimbsTo(deps, above, top)
  }

  ghost predicate Largest(s: set<Hash>, m: Hash) {
    forall h :: h in s ==> Leq(h, m)
  }

  /** The packs of `s` that need `m` before them. */
  ghost function Above(deps: Dependencies, s: set<Hash>, m: Hash): set<Hash> {
    set h | h in s && h != m && Below(deps, h, m)
  }

  ghost function Remaining(deps: Dependencies, order: seq<Hash>, i: nat): (s: set<Hash>)
    requires i <= |order|
    ensures s <= deps.Keys
  {
    deps.Keys - Elements(order[..i])
  }

  lemma RemainingAt(deps: Dependencies, order: seq<Hash>, i: nat, p: nat)
    requires Topological(deps, order) && i <= |order| && p < |order|
    ensures order[p] in Remaining(deps, order, i) <==> i <= p
  {
    assert order[p] in deps;
    if p < i { assert order[..i][p] == order[p]; }
  }

  /** When a pack of a remaining set is passed over, something below it that is available is at least as large. */
  lemma AvailableBelow(deps: Dependencies, order: seq<Hash>, j: nat, z: Hash) returns (a: Hash)
    requires WellFormed(deps) && Topological(deps, order) && j <= |order| && z in Remaining(deps, order, j)
    ensures a in Available(deps, order[..j]) && Below(deps, z, a)
  {
    hide Below;
    BelowSelf(deps, z);
    var p := Position(deps, order, z);
    RemainingAt(deps, order, j, p);
    var q := j;
    while !Below(deps, z, order[q])
      invariant j <= q <= p && forall i :: j <= i < q ==> !Below(deps, z, order[i])
      decreases p - q
    {
      q := q + 1;
    }
    a := order[q];
    forall d | d in deps[a] ensures d in Elements(order[..j]) {
      BelowDependency(deps, z, a, d);
      var e := DependencyEarlier(deps, order, q, d);
      assert e < j;
      assert order[..j][e] == d;
    }
    RemainingAt(deps, order, j, q);
  }

  /** When the largest remaining pack is emitted, exactly the packs above it remain. */
  lemma LargestEmitted(deps: Dependencies, order: seq<Hash>, i: nat, j: nat)
    requires WellFormed(deps) && Topological(deps, order) && Greedy(deps, order) && i <= j < |order|
    requires Largest(Remaining(deps, order, i), order[j])
    ensures Remaining(deps, order, j + 1) == Above(deps, Remaining(deps, order, i), order[j])
  {
    hide Below;
    hide Greedy;
    var m := order[j];
    forall z | z in deps ensures z in Remaining(deps, order, j + 1) <==>
      z in Above(deps, Remaining(deps, order, i), m) {
      var p := Position(deps, order, z);
      RemainingAt(deps, order, j + 1, p);
      RemainingAt(deps, order, i, p);
      if Below(deps, z, m) {
        var q := BelowEarlier(deps, order, p, m);
        SamePosition(order, q, j);
      } else if p > j {
        RemainingAt(deps, order, j, p);
        var a := AvailableBelow(deps, order, j, z);
        GreedyPicks(deps, order, j, a);
        AvailableRemains(deps, order, i, j, a);
        LeqBoth(m, a);
      }
    }
  }

  lemma SamePosition(order: seq<Hash>, i: nat, j: nat)
    requires Distinct(order) && i < |order| && j < |order| && order[i] == order[j]
    ensures i == j
  {}

  lemma LeqBoth(a: Hash, b: Hash)
    requires Leq(a, b) && Leq(b, a)
    ensures a == b
  {
    if a != b { LessAsymmetric(a, b); }
  }

  lemma GreedyPicks(deps: Dependencies, order: seq<Hash>, j: nat, a: Hash)
    requires Greedy(deps, order) && j < |order| && a in Available(deps, order[..j])
    ensures Leq(order[j], a)
  {}

  lemma AvailableRemains(deps: Dependencies, order: seq<Hash>, i: nat, j: nat, a: Hash)
    requires i <= j <= |order| && a in Available(deps, order[..j])
    ensures a in Remaining(deps, order, i)
  {
    forall n | 0 <= n < i ensures order[..i][n] != a {
      assert order[..j][n] == order[..i][n];
    }
  }

  /** The least-hash order ends exactly where the climb over the packs still to be emitted ends. */
  lemma {:induction false} ClimbIsLast(deps: Dependencies, order: seq<Hash>, i: nat, top: Hash)
    requires WellFormed(deps) && Topological(deps, order) && Greedy(deps, order) && i < |order|
    ensures ClimbsTo(deps, Remaining(deps, order, i), top) <==> EndsWith(order, top)
    decreases |order| - i
  {
    hide *;
    var s := Remaining(deps, order, i);
    RemainingAt(deps, order, i, i);
    var m := LargestOf(s);
    var j := Position(deps, order, m);
    RemainingAt(deps, order, i, j);
    LargestEmitted(deps, order, i, j);
    ClimbStep(deps, s, m, top);
    OrderEnd(deps, order, top, j);
    if j + 1 < |order| {
      RemainingAt(deps, order, j + 1, j + 1);
      ClimbIsLast(deps, order, j + 1, top);
    }
  }

  lemma ClimbStep(deps: Dependencies, s: set<Hash>, m: Hash, top: Hash)
    requires m in s && Largest(s, m)
    ensures ClimbsTo(deps, s, top) <==>
              var above := Above(deps, s, m); if above == {} then m == top else ClimbsTo(deps, above, top)
  {
    hide Below;
    forall n | n in s && Largest(s, n) ensures n == m { LeqBoth(n, m); }
  }

  lemma OrderEnd(deps: Dependencies, order: seq<Hash>, top: Hash, j: nat)
    requires Topological(deps, order) && j < |order|
    ensures j + 1 < |order| ==> Remaining(deps, order, j + 1) != {}
    ensures j + 1 == |order| ==> Remaining(deps, order, j + 1) == {} && (EndsWith(order, top) <==> order[j] == top)
  {
    if j + 1 < |order| {
      RemainingAt(deps, order, j + 1, j + 1);
    } else {
      assert order[..j + 1] == order;
    }
  }

  lemma {:induction false} LargestOf(s: set<Hash>) returns (m: Hash)
    requires s != {}
    ensures m in s && Largest(s, m)
    decreases s
  {
    var h :| h in s;
    if s == {h} {
      m := h;
    } else {
      var rest := s - {h};
      assert s == rest + {h};
      m := LargestOf(rest);
      LessTotal(m, h);
      if Less(m, h) {
        forall x | x in s ensures Leq(x, h) {
          if x != h && x != m {
            assert x in rest && Leq(x, m);
            LessTransitive(x, m, h);
          }
        }
        m := h;
      }
    }
  }

  /** A pack above all others ends the least-hash order, as it ends every order. */
  lemma LeastOrderEnds(deps: Dependencies, order: seq<Hash>, top: Hash)
    requires WellFormed(deps) && Topological(deps, order) && Greedy(deps, order) && top in deps
    ensures ClimbsTo(deps, deps.Keys, top) <==> EndsWith(order, top)
    ensures Tops(deps, top) ==> ClimbsTo(deps, deps.Keys, top)
  {
    hide Below;
    hide Greedy;
    var p := Position(deps, order, top);
    assert Elements(order[..0]) == {};
    assert Remaining(deps, order, 0) == deps.Keys;
    ClimbIsLast(deps, order, 0, top);
    TopAlwaysLast(deps, order, top);
  }

  // ----- Kahn's algorithm ---------------------------------------------------------------

  /** The state of the main loop: what is still awaited, and the sorted ready list. */
  ghost predicate Progress(deps: Dependencies, remaining: Dependencies, ready: seq<Hash>, ordered: seq<Hash>) {
    && Distinct(ordered) && Elements(ordered) <= deps.Keys
    && (forall i :: 0 <= i < |ordered| ==> deps[ordered[i]] <= Elements(ordered[..i]))
    && Greedy(deps, ordered)
    && remaining.Keys == deps.Keys
    && (forall h :: h in deps ==> remaining[h] == deps[h] - Elements(ordered))
    && Distinct(ready) && Elements(ready) == Available(deps, ordered)
  }

  /** The dependents index: for every pack, the packs that wait for it, each once. */
  ghost predicate Index(deps: Dependencies, dependents: map<Hash, seq<Hash>>) {
    && (forall d :: d in dependents ==> Distinct(dependents[d]))
    && (forall h, d :: h in deps && d in deps[h] ==> d in dependents && h in dependents[d])
    && (forall d, h :: d in dependents && h in dependents[d] ==> h in deps && d in deps[h])
  }

  method BuildIndex(deps: Dependencies) returns (dependents: map<Hash, seq<Hash>>)
    ensures Index(deps, dependents)
  {
    dependents := map[];
    var hashes := deps.Keys;
    while hashes != {}
      invariant hashes <= deps.Keys
      invariant forall d :: d in dependents ==> Distinct(dependents[d])
      invariant forall h, d :: h in deps && h !in hashes && d in deps[h] ==> d in dependents && h in dependents[d]
      invariant forall d, h :: d in dependents && h in dependents[d] ==> h in deps && h !in hashes && d in deps[h]
      decreases hashes
    {
      var hash :| hash in hashes;
      var parents := deps[hash];
      while parents != {}
        invariant parents <= deps[hash]
        invariant forall d :: d in dependents ==> Distinct(dependents[d])
        invariant forall h, d :: h in deps && h !in hashes && d in deps[h] ==> d in dependents && h in dependents[d]
        invariant forall d :: d in deps[hash] - parents ==> d in dependents && hash in dependents[d]
        invariant forall d, h :: d in dependents && h in dependents[d] ==>
                    h in deps && d in deps[h] && (h !in hashes || (h == hash && d !in parents))
        decreases parents
      {
        var parent :| parent in parents;
        parents := parents - {parent};
        var old_ := if parent in dependents then dependents[parent] else [];
        assert hash !in old_;
        dependents := dependents[parent := old_ + [hash]];
      }
      hashes := hashes - {hash};
    }
  }

  /** Removes `hash` from the packs waiting for it; those with nothing left become ready. */
  method Release(deps: Dependencies, remaining: Dependencies, waiting: seq<Hash>, hash: Hash, ready: seq<Hash>)
    returns (remaining': Dependencies, ready': seq<Hash>)
    requires remaining.Keys == deps.Keys && Distinct(waiting) && Distinct(ready)
    requires forall h :: h in waiting ==> h in deps && h !in ready && hash in remaining[h]
    ensures remaining'.Keys == deps.Keys && Distinct(ready')
    ensures forall h :: h in deps ==> remaining'[h] == if h in waiting then remaining[h] - {hash} else remaining[h]
    ensures forall h :: h in ready' <==> h in ready || (h in waiting && remaining[h] - {hash} == {})
  {
    remaining', ready' := remaining, ready;
    for i := 0 to |waiting|
      invariant remaining'.Keys == deps.Keys && Distinct(ready')
      invariant forall h :: h in deps ==>
                            remaining'[h] == if h in waiting[..i] then remaining[h] - {hash} else remaining[h]
      invariant forall h :: h in ready' <==> h in ready || (h in waiting[..i] && remaining[h] - {hash} == {})
    {
      var dependent := waiting[i];
      assert dependent !in waiting[..i];
      assert waiting[..i + 1] == waiting[..i] + [dependent];
      remaining' := remaining'[dependent := remaining'[dependent] - {hash}];
      if remaining'[dependent] == {} {
        ready' := ready' + [dependent];
      }
    }
    assert waiting[..|waiting|] == waiting;
  }

  lemma FirstReady(deps: Dependencies, remaining: Dependencies, ready: seq<Hash>, ordered: seq<Hash>)
    requires Progress(deps, remaining, ready, ordered) && Sorted(ready) && |ready| > 0
    ensures ready[0] in Available(deps, ordered) && forall h :: h in Available(deps, ordered) ==> Leq(ready[0], h)
    ensures forall h :: h in ready <==> h in Available(deps, ordered)
    ensures forall h :: h in ready[1..] <==> h in ready && h != ready[0]
  {
    hide Greedy;
    hide Available;
    forall h ensures h in ready <==> h in Available(deps, ordered) {
      assert h in ready <==> h in Elements(ready);
    }
    forall h | h in ready && h != ready[0] ensures h in ready[1..] {
      var i :| 0 <= i < |ready| && ready[i] == h;
      assert ready[1..][i - 1] == h;
    }
  }

  lemma GreedyMore(deps: Dependencies, ordered: seq<Hash>, hash: Hash)
    requires Greedy(deps, ordered) && hash in Available(deps, ordered)
    requires forall h :: h in Available(deps, ordered) ==> Leq(hash, h)
    ensures Greedy(deps, ordered + [hash])
  {
    hide Available;
    var ordered' := ordered + [hash];
    forall i | 0 <= i < |ordered'|
      ensures ordered'[i] in Available(deps, ordered'[..i])
      ensures forall h :: h in Available(deps, ordered'[..i]) ==> Leq(ordered'[i], h)
    {
      if i < |ordered| {
        assert ordered'[..i] == ordered[..i] && ordered'[i] == ordered[i];
      } else {
        assert ordered'[..i] == ordered;
      }
    }
  }

  /** Emitting the smallest ready pack keeps the loop invariant. */
  lemma Emit(deps: Dependencies, remaining: Dependencies, ready: seq<Hash>, ordered: seq<Hash>,
             remaining': Dependencies, ready': seq<Hash>)
    requires WellFormed(deps) && Progress(deps, remaining, ready, ordered) && Sorted(ready) && |ready| > 0
    requires remaining'.Keys == deps.Keys && Distinct(ready')
    requires forall h :: h in deps ==> remaining'[h] == remaining[h] - {ready[0]}
    requires forall h :: h in ready' <==>
                         h in ready[1..] || (h in deps && ready[0] in remaining[h] && remaining[h] - {ready[0]} == {})
    ensures Progress(deps, remaining', ready', ordered + [ready[0]])
  {
    var hash, ordered' := ready[0], ordered + [ready[0]];
    FirstReady(deps, remaining, ready, ordered);
    GreedyMore(deps, ordered, hash);
    hide Greedy;
    hide Sorted;
    assert Elements(ordered') == Elements(ordered) + {hash};
    assert forall i :: 0 <= i < |ordered| ==> ordered'[..i] == ordered[..i];
    assert ordered'[..|ordered|] == ordered;
    forall h ensures h in Elements(ready') <==> h in Available(deps, ordered') {
      assert h in ready <==> h in Available(deps, ordered);
    }
  }

  /** With nothing ready, all packs are emitted or the rest wait for each other. */
  lemma NothingReady(deps: Dependencies, ordered: seq<Hash>)
    requires WellFormed(deps) && Distinct(ordered) && Elements(ordered) <= deps.Keys && Available(deps, ordered) == {}
    ensures Elements(ordered) == deps.Keys || Stuck(deps, deps.Keys - Elements(ordered))
  {
    var rest := deps.Keys - Elements(ordered);
    forall h | h in rest ensures deps[h] * rest != {} {
      assert h !in Available(deps, ordered);
      var d :| d in deps[h] && d !in Elements(ordered);
      assert d in deps[h] * rest;
    }
  }

  ghost predicate HasCycle(deps: Dependencies) {
    exists cycle :: Cycle(deps, cycle)
  }

  /** The ready list of the initial state, before sorting. */
  method InitiallyReady(deps: Dependencies) returns (ready: seq<Hash>)
    ensures Distinct(ready) && Elements(ready) == Available(deps, [])
  {
    ready := [];
    var hashes := deps.Keys;
    while hashes != {}
      invariant hashes <= deps.Keys && Distinct(ready)
      invariant forall h :: h in ready <==> h in deps && h !in hashes && deps[h] == {}
      decreases hashes
    {
      var hash :| hash in hashes;
      hashes := hashes - {hash};
      if deps[hash] == {} {
        ready := ready + [hash];
      }
    }
  }

  lemma WaitingNotReady(deps: Dependencies, remaining: Dependencies, ready: seq<Hash>, ordered: seq<Hash>)
    requires Progress(deps, remaining, ready, ordered) && |ready| > 0
    ensures ready[0] in deps && ready[0] !in ordered
    ensures forall h :: h in deps && ready[0] in remaining[h] ==> h !in ready[1..]
  {
    assert ready[0] in Elements(ready);
    forall h | h in deps && ready[0] in remaining[h] ensures h !in ready {
      assert h in ready <==> h in Elements(ready);
      assert h !in Available(deps, ordered);
    }
  }

  lemma WaitingIndexed(deps: Dependencies, dependents: map<Hash, seq<Hash>>, remaining: Dependencies,
                       ordered: seq<Hash>, hash: Hash)
    requires Index(deps, dependents) && hash !in ordered
    requires remaining.Keys == deps.Keys
    requires forall h :: h in deps ==> remaining[h] == deps[h] - Elements(ordered)
    ensures hash in dependents ==> forall h :: h in dependents[hash] <==> h in deps && hash in remaining[h]
    ensures hash !in dependents ==> forall h :: h in deps ==> hash !in remaining[h]
  {}

  /** What the main loop leaves behind when nothing is ready any more. */
  lemma Drained(deps: Dependencies, remaining: Dependencies, ordered: seq<Hash>)
    requires WellFormed(deps) && Progress(deps, remaining, [], ordered)
    ensures |ordered| == |deps| ==> Topological(deps, ordered) && Greedy(deps, ordered) && !HasCycle(deps)
    ensures |ordered| != |deps| ==> HasCycle(deps)
  {
    assert Available(deps, ordered) == Elements([]) == {};
    NothingReady(deps, ordered);
    DistinctSize(ordered);
    assert |deps.Keys| == |deps|;
    if |ordered| != |deps| {
      var cycle := StuckHasCycle(deps, deps.Keys - Elements(ordered));
    } else {
      if Elements(ordered) != deps.Keys {
        SubsetSize(Elements(ordered), deps.Keys);
      }
      forall i | 0 <= i < |ordered| ensures ordered[i] in deps {
        assert ordered[i] in Elements(ordered);
      }
      if cycle :| Cycle(deps, cycle) {
        CycleHasNoOrder(deps, cycle, ordered);
      }
    }
  }

  /** One round of the main loop: emits the first ready pack and re-sorts what has become ready. */
  method EmitFirst(deps: Dependencies, dependents: map<Hash, seq<Hash>>, remaining: Dependencies, ready: seq<Hash>,
                   ghost ordered: seq<Hash>)
    returns (remaining': Dependencies, ready': seq<Hash>)
    requires WellFormed(deps) && Index(deps, dependents) && Sorted(ready) && |ready| > 0
    requires Progress(deps, remaining, ready, ordered)
    ensures Sorted(ready') && Progress(deps, remaining', ready', ordered + [ready[0]])
    ensures ready[0] in deps && ready[0] !in ordered
  {
    hide Greedy;
    var hash := ready[0];
    WaitingNotReady(deps, remaining, ready, ordered);
    WaitingIndexed(deps, dependents, remaining, ordered, hash);
    var waiting := if hash in dependents then dependents[hash] else [];
    var released;
    remaining', released := Release(deps, remaining, waiting, hash, ready[1..]);
    Emit(deps, remaining, ready, ordered, remaining', released);
    hide Available;
    ready' := Resort(released);
  }

  /** The main loop of orderPullPacks. */
  method TopologicalOrder(deps: Dependencies) returns (r: Option<seq<Hash>>)
    requires WellFormed(deps)
    ensures r.Some? ==> Topological(deps, r.value) && Greedy(deps, r.value)
    ensures r.Some? ==> forall other :: Topological(deps, other) ==> LexLeq(r.value, other)
    ensures r.None? <==> HasCycle(deps)
  {
    hide Greedy;
    hide Topological;
    hide HasCycle;
    hide Progress;
    hide Index;
    hide WellFormed;
    hide Available;
    var dependents := BuildIndex(deps);
    var remaining := deps;
    var unsorted := InitiallyReady(deps);
    var ready := Resort(unsorted);
    var ordered: seq<Hash> := [];
    StartsInProgress(deps, ready);
    while |ready| > 0
      invariant Sorted(ready)
      invariant Progress(deps, remaining, ready, ordered)
      decreases deps.Keys - Elements(ordered)
    {
      var hash := ready[0];
      remaining, ready := EmitFirst(deps, dependents, remaining, ready, ordered);
      assert Elements(ordered + [hash]) == Elements(ordered) + {hash};
      ordered := ordered + [hash];
    }
    assert ready == [];
    Drained(deps, remaining, ordered);
    if |ordered| != |deps| {
      return None;
    }
    forall other | Topological(deps, other) ensures LexLeq(ordered, other) {
      GreedyIsLeast(deps, ordered, other);
    }
    return Some(ordered);
  }

  lemma StartsInProgress(deps: Dependencies, ready: seq<Hash>)
    requires Distinct(ready) && Elements(ready) == Available(deps, [])
    ensures Progress(deps, deps, ready, [])
  {
    assert Elements([]) == {};
  }

  /** sort.Strings on the ready list. */
  method Resort(s: seq<Hash>) returns (r: seq<Hash>)
    requires Distinct(s)
    ensures Sorted(r) && Distinct(r) && Elements(r) == Elements(s) && |r| == |s|
    ensures forall h :: h in r <==> h in s
  {
    r := SortStrings(s);
    SortedDistinct(s);
    StrictIsDistinct(r);
    forall h ensures h in r <==> h in s {
      SortedMember(s, h);
    }
    SortedMember(s, "");
  }

  lemma StrictIsDistinct(s: seq<Hash>)
    requires StrictlySorted(s)
    ensures Distinct(s)
  {
    forall i, j | 0 <= i < j < |s| ensures s[i] != s[j] {
      LessAsymmetric(s[i], s[j]);
    }
  }
}
