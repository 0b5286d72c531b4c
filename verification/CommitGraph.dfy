// The commit DAG: ids mapped to their ordered parents (tables commits and commit_parents).
module CommitGraph {

  type Id = string
  type Graph = map<Id, seq<Id>>

  /** `a` is reached from `c` by exactly `n` parent edges of recorded commits. */
  ghost predicate StepsTo(g: Graph, c: Id, a: Id, n: nat)
    decreases n
  {
    if n == 0 then a == c
    else exists y :: StepsTo(g, c, y, n - 1) && y in g && a in g[y]
  }

  /** `a` is an ancestor of `c`, every commit being its own ancestor. */
  ghost predicate Reaches(g: Graph, c: Id, a: Id) {
    exists n: nat :: StepsTo(g, c, a, n)
  }

  /** Every parent of a recorded commit is recorded (the foreign key of commit_parents). */
  ghost predicate Closed(g: Graph) {
    forall c, p :: c in g && p in g[c] ==> p in g
  }

  /** `rank` is an insertion order: a commit comes after all of its parents. */
  ghost predicate Ranked(g: Graph, rank: map<Id, nat>) {
    && (forall c :: c in g ==> c in rank)
    && (forall c, p :: c in g && p in g[c] ==> p in g && rank[p] < rank[c])
  }

  ghost predicate Acyclic(g: Graph) {
    exists rank: map<Id, nat> :: Ranked(g, rank)
  }

  /** `h` records everything `g` records, unchanged. */
  ghost predicate Extends(g: Graph, h: Graph) {
    forall c :: c in g ==> c in h && h[c] == g[c]
  }

  lemma ReachesSelf(g: Graph, c: Id)
    ensures Reaches(g, c, c)
  {
    assert StepsTo(g, c, c, 0);
  }

  lemma ReachesParent(g: Graph, c: Id, y: Id, a: Id)
    requires Reaches(g, c, y) && y in g && a in g[y]
    ensures Reaches(g, c, a)
  {
    var n: nat :| StepsTo(g, c, y, n);
    assert StepsTo(g, c, a, n + 1);
  }

  lemma {:induction false} StepsCompose(g: Graph, c: Id, b: Id, a: Id, m: nat, n: nat)
    requires StepsTo(g, c, b, m) && StepsTo(g, b, a, n)
    ensures StepsTo(g, c, a, m + n)
    decreases n
  {
    if n > 0 {
      var y :| StepsTo(g, b, y, n - 1) && y in g && a in g[y];
      StepsCompose(g, c, b, y, m, n - 1);
    }
  }

  lemma ReachesTransitive(g: Graph, c: Id, b: Id, a: Id)
    requires Reaches(g, c, b) && Reaches(g, b, a)
    ensures Reaches(g, c, a)
  {
    var m: nat :| StepsTo(g, c, b, m);
    var n: nat :| StepsTo(g, b, a, n);
    StepsCompose(g, c, b, a, m, n);
  }

  /** Splitting the first edge off a non-trivial path. */
  lemma {:induction false} FirstStep(g: Graph, c: Id, a: Id, n: nat) returns (p: Id)
    requires StepsTo(g, c, a, n) && n > 0
    ensures c in g && p in g[c] && StepsTo(g, p, a, n - 1)
    decreases n
  {
    var y :| StepsTo(g, c, y, n - 1) && y in g && a in g[y];
    if n == 1 {
      p := a;
    } else {
      p := FirstStep(g, c, y, n - 1);
    }
  }

  lemma {:induction false} StepsExtend(g: Graph, h: Graph, c: Id, a: Id, n: nat)
    requires Extends(g, h) && StepsTo(g, c, a, n)
    ensures StepsTo(h, c, a, n)
    decreases n
  {
    if n > 0 {
      var y :| StepsTo(g, c, y, n - 1) && y in g && a in g[y];
      StepsExtend(g, h, c, y, n - 1);
    }
  }

  lemma ReachesExtend(g: Graph, h: Graph, c: Id, a: Id)
    requires Extends(g, h) && Reaches(g, c, a)
    ensures Reaches(h, c, a)
  {
    var n: nat :| StepsTo(g, c, a, n);
    StepsExtend(g, h, c, a, n);
  }

  lemma {:induction false} StepsRestrict(g: Graph, h: Graph, c: Id, a: Id, n: nat)
    requires Extends(g, h) && Closed(g) && c in g && StepsTo(h, c, a, n)
    ensures StepsTo(g, c, a, n) && a in g
    decreases n
  {
    if n > 0 {
      var y :| StepsTo(h, c, y, n - 1) && y in h && a in h[y];
      StepsRestrict(g, h, c, y, n - 1);
    }
  }

  /** History is immutable: later commits never change the ancestors of a recorded one. */
  lemma AncestryFrozen(g: Graph, h: Graph, c: Id, a: Id)
    requires Extends(g, h) && Closed(g) && c in g
    ensures Reaches(g, c, a) <==> Reaches(h, c, a)
    ensures Reaches(g, c, a) ==> a in g
  {
    if Reaches(g, c, a) { ReachesExtend(g, h, c, a); }
    if Reaches(h, c, a) {
      var n: nat :| StepsTo(h, c, a, n);
      StepsRestrict(g, h, c, a, n);
    }
  }

  lemma {:induction false} StepsRank(g: Graph, rank: map<Id, nat>, c: Id, a: Id, n: nat)
    requires Ranked(g, rank) && c in g && StepsTo(g, c, a, n)
    ensures a in g && rank[a] + n <= rank[c]
    decreases n
  {
    if n > 0 {
      var y :| StepsTo(g, c, y, n - 1) && y in g && a in g[y];
      StepsRank(g, rank, c, y, n - 1);
    }
  }

  lemma ReachesRank(g: Graph, rank: map<Id, nat>, c: Id, a: Id)
    requires Ranked(g, rank) && c in g && Reaches(g, c, a)
    ensures a in g && rank[a] <= rank[c]
  {
    var n: nat :| StepsTo(g, c, a, n);
    StepsRank(g, rank, c, a, n);
  }

  /** In an acyclic history two commits that are ancestors of each other are the same. */
  lemma ReachesAntisymmetric(g: Graph, c: Id, a: Id)
    requires Acyclic(g) && c in g && Reaches(g, c, a) && Reaches(g, a, c)
    ensures a == c
  {
    var rank: map<Id, nat> :| Ranked(g, rank);
    var m: nat :| StepsTo(g, c, a, m);
    var n: nat :| StepsTo(g, a, c, n);
    StepsRank(g, rank, c, a, m);
    StepsRank(g, rank, a, c, n);
  }

  lemma AcyclicClosed(g: Graph)
    requires Acyclic(g)
    ensures Closed(g)
  {
    var rank: map<Id, nat> :| Ranked(g, rank);
  }

  function MaxRank(rank: map<Id, nat>, ps: seq<Id>): (m: nat)
    requires forall p :: p in ps ==> p in rank
    ensures forall p :: p in ps ==> rank[p] <= m
  {
    if ps == [] then 0
    else
      var rest := MaxRank(rank, ps[1..]);
      if rank[ps[0]] > rest then rank[ps[0]] else rest
  }

  /** Recording a new commit over recorded parents keeps the history acyclic. */
  lemma AcyclicInsert(g: Graph, c: Id, parents: seq<Id>)
    requires Acyclic(g) && c !in g
    requires forall p :: p in parents ==> p in g
    ensures Acyclic(g[c := parents]) && Extends(g, g[c := parents])
  {
    var rank: map<Id, nat> :| Ranked(g, rank);
    var h := g[c := parents];
    var r: map<Id, nat> := rank[c := MaxRank(rank, parents) + 1];
    assert Ranked(h, r);
  }
}
