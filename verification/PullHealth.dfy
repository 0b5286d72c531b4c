// When every pull can be planned: a condition on the whole pack table, and why V2 packs alone do not give it.
module PullHealth {
  import opened Wrappers
  import opened CommitGraph
  import opened Framing
  import opened PullPlan
  import opened PullClosure
  import opened PackOrder
  import opened PullPlanner

  /** Every base in the table is the start of history or the target of another row. */
  ghost predicate TableComplete(store: PullStore) {
    forall t :: t in store.ranges ==> store.ranges[t].base == "" || store.ranges[t].base in store.ranges
  }

  /** Every merge parent is the target of some pack. */
  ghost predicate MergeParentsPacked(k: Contract, store: PullStore) {
    forall t, m :: t in store.ranges && m in RowMerges(k, store, t) ==> m.id in store.ranges
  }

  /** A repository of V2 packs that are recorded, complete and disjoint. This is more than V2 pushes establish: packs
      that start at, or merge, a commit inside another pack break it, and so do packs that repeat commits. */
  ghost predicate Healthy(k: Contract, store: PullStore) {
    && RangesValid(store) && ChainsEnd(store) && Acyclic(store.commits) && AllV2(store) && AllRecorded(k, store)
    && TableComplete(store) && MergeParentsPacked(k, store)
    && Readable(k, store, store.ranges.Keys) && Disjoint(k, store, store.ranges.Keys)
      && MergesV2(k, store, store.ranges.Keys)
  }

  /** In a complete table every walk arrives at the start of history. */
  lemma CompleteChain(store: PullStore, t: Id)
    requires ChainsEnd(store) && TableComplete(store) && t in store.ranges
    ensures ChainComplete(store, t, "")
  {
    var rows: seq<PackRange> :| ChainRows(store, t, "", rows);
    assert IsRow(store, rows[|rows| - 1]);
    assert ValidChain(rows, t, "");
    ChainValid(store, t, "", rows);
  }

  lemma HealthyFetchable(k: Contract, store: PullStore, known: Id, s: set<Id>)
    requires ChainsEnd(store) && TableComplete(store) && MergeParentsPacked(k, store) && s <= store.ranges.Keys
    ensures Fetchable(k, store, known, s)
  {
    hide WillHave;
    hide RowMerges;
    hide ChainComplete;
    hide ChainsEnd;
    hide TableComplete;
    forall m | m in Missing(k, store, known, s) ensures ChainComplete(store, m.id, "") {
      CompleteChain(store, m.id);
    }
  }

  lemma {:induction false} HealthyRounds(k: Contract, store: PullStore, known: Id, s: set<Id>)
    requires ChainsEnd(store) && TableComplete(store) && MergeParentsPacked(k, store) && s <= store.ranges.Keys
    ensures RoundsComplete(k, store, known, s) && Closure(k, store, known, s) <= store.ranges.Keys
    decreases store.ranges.Keys - s
  {
    hide ChainsEnd;
    hide TableComplete;
    hide MergeParentsPacked;
    hide Fetchable;
    hide NextRound;
    HealthyFetchable(k, store, known, s);
    var next := NextRound(k, store, known, s);
    if s < next {
      HealthyRounds(k, store, known, next);
    }
  }

  lemma RankBelowTarget(k: Contract, g: Graph, rank: map<Id, nat>, f: PackFrame, i: nat, p: CommitIdentity)
    requires WellFramedV2(k, f) && Recorded(k, g, f) && Ranked(g, rank)
    requires i < |f.commits| && p in f.commits[i].parents
    ensures f.target.id in rank && p.id in rank && rank[p.id] < rank[f.target.id]
  {
    hide *;
    TargetRecorded(k, g, f);
    ParentRecorded(k, g, f, i, p);
    ChainDescends(k, g, f, i, |f.commits| - 1);
    ReachesRank(g, rank, f.target.id, CommitIdAt(k, f, i));
    ParentRank(g, rank, CommitIdAt(k, f, i), p.id);
  }

  lemma ParentRank(g: Graph, rank: map<Id, nat>, c: Id, p: Id)
    requires Ranked(g, rank) && c in g && p in g[c]
    ensures c in rank && p in rank && rank[p] < rank[c]
    ensures forall x :: x in g ==> x in rank
  {}

  lemma TargetRecorded(k: Contract, g: Graph, f: PackFrame)
    requires WellFramedV2(k, f) && Recorded(k, g, f)
    ensures |f.commits| > 0 && Chained(k, f, |f.commits|)
    ensures forall i :: 0 <= i < |f.commits| ==> Identity(k, f.commits[i]).Some?
    ensures f.target.id in g && f.target.id == CommitIdAt(k, f, |f.commits| - 1)
  {
    hide Identity;
  }

  lemma HealthyRow(k: Contract, store: PullStore, t: Id)
    requires Healthy(k, store) && t in store.ranges
    ensures RowFrame(k, store, t).Some? && store.ranges[t].target == t
    ensures var f := RowFrame(k, store, t).value;
            && WellFramedV2(k, f) && Recorded(k, store.commits, f) && f.target.id == t
            && f.base == (if store.ranges[t].base == "" then NO_COMMIT else V2(store.ranges[t].base))
            && RowIds(k, store, t) == Ids(k, f) && RowParents(k, store, t) == AllParents(f)
              && RowMerges(k, store, t) == MergeParents(f)
    ensures store.ranges[t].base == "" || store.ranges[t].base in store.ranges
    ensures V2(t) in RowIds(k, store, t)
  {
    hide Identity;
    hide Read;
    hide ChainsEnd;
    hide Acyclic;
    hide Recorded;
    hide Disjoint;
    hide WellFramedV2;
    hide MergeParentsPacked;
    ReadFacts(k, store, store.ranges[t]);
  }

  /** In a healthy repository a pack depends only on packs whose targets were recorded earlier. */
  lemma UseLowersRank(k: Contract, store: PullStore, rank: map<Id, nat>, t: Id, u: Id)
    requires Healthy(k, store) && Ranked(store.commits, rank)
    requires t in store.ranges && u in store.ranges && Uses(k, store, t, u)
    ensures t in rank && u in rank && rank[u] < rank[t]
  {
    hide Identity;
    hide Healthy;
    hide WellFramedV2;
    hide Recorded;
    hide Ranked;
    hide RowIds;
    hide RowParents;
    hide RowMerges;
    hide RowFrame;
    var p :| p in RowParents(k, store, t) && p in RowIds(k, store, u);
    HealthyRow(k, store, t);
    HealthyRow(k, store, u);
    var f := RowFrame(k, store, t).value;
    var i := ParentKinds(k, f, p);
    RankBelowTarget(k, store.commits, rank, f, i, p);
    HealthyParent(k, store, t, u, p);
  }

  /** The pack that carries a parent of another pack's commit is the one with that parent as its target. */
  lemma HealthyParent(k: Contract, store: PullStore, t: Id, u: Id, p: CommitIdentity)
    requires Healthy(k, store) && t in store.ranges && u in store.ranges && t != u
    requires p in RowParents(k, store, t) && p in RowIds(k, store, u)
    ensures p.id == u
  {
    hide Identity;
    hide WellFramedV2;
    hide Recorded;
    hide ChainsEnd;
    hide Acyclic;
    hide RowIds;
    hide RowParents;
    hide RowMerges;
    hide RowFrame;
    hide Readable;
    HealthyRow(k, store, t);
    HealthyRow(k, store, u);
    var f := RowFrame(k, store, t).value;
    var i := ParentKinds(k, f, p);
    IdsAreV2(k, RowFrame(k, store, u).value, p);
    assert p !in RowIds(k, store, t);
    if p == f.base {
      BaseNamed(p);
    }
    assert p.id in store.ranges;
    HealthyRow(k, store, p.id);
  }

  lemma HealthyNoCycle(k: Contract, store: PullStore, s: set<Id>)
    requires Healthy(k, store) && s <= store.ranges.Keys
    ensures !HasCycle(RowDeps(k, store, s))
  {
    hide HasCycle;
    hide Uses;
    var rank: map<Id, nat> :| Ranked(store.commits, rank);
    forall t | t in s ensures t in rank {
      HealthyRow(k, store, t);
      TargetRecorded(k, store.commits, RowFrame(k, store, t).value);
    }
    forall t, u | t in s && u in s && Uses(k, store, t, u) ensures rank[u] < rank[t] {
      UseLowersRank(k, store, rank, t, u);
    }
    HashesIdentify(k, store);
    hide Healthy;
    hide Ranked;
    NoCycleByRank(k, store, s, rank);
  }

  lemma HashesIdentify(k: Contract, store: PullStore)
    requires Healthy(k, store)
    ensures forall t, u :: t in store.ranges && u in store.ranges && HashOf(store, t) == HashOf(store, u) ==> t == u
  {}

  lemma NoCycleByRank(k: Contract, store: PullStore, s: set<Id>, rank: map<Id, nat>)
    requires forall t :: t in s ==> t in rank && t in store.ranges
    requires forall t, u :: t in s && u in s && Uses(k, store, t, u) ==> rank[u] < rank[t]
    requires forall t, u :: t in store.ranges && u in store.ranges && HashOf(store, t) == HashOf(store, u) ==> t == u
    ensures !HasCycle(RowDeps(k, store, s))
  {
    hide HasCycle;
    hide Uses;
    hide HashOf;
    var deps := RowDeps(k, store, s);
    var height: map<Hash, nat> := map h | h in Hashes(store, s) :: var t :| t in s && HashOf(store, t) == h; rank[t];
    forall t | t in s ensures HashOf(store, t) in height && height[HashOf(store, t)] == rank[t] {}
    RankedHasNoCycle(deps, height);
  }

  /** In a healthy repository every pull can be planned, whatever the client knows. */
  lemma HealthyPlannable(k: Contract, store: PullStore, known: Id, s: set<Id>)
    requires Healthy(k, store) && s <= store.ranges.Keys
    ensures Plannable(k, store, known, s)
  {
    HealthyRounds(k, store, known, s);
    var all := Closure(k, store, known, s);
    HealthyNoCycle(k, store, all);
    Monotone(k, store, all, store.ranges.Keys);
  }
}
