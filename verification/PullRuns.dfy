// The pack table that pulls read, as runs of the metadata store build it.
module PullRuns {
  import opened Wrappers
  import opened CommitGraph
  import opened RackStore
  import opened RackRuns
  import PullPlan

  /** The rows name recorded commits, and no two packs have the same target. */
  ghost predicate RangesRecorded(r: Repo) {
    && (forall h :: h in r.ranges ==> RowRecorded(r, r.ranges[h]))
    && (forall h, g :: h in r.ranges && g in r.ranges && r.ranges[h].target == r.ranges[g].target ==> h == g)
  }

  ghost predicate RowRecorded(r: Repo, row: RangeRow) {
    row.target in r.commits && row.target != "" && (row.base != "" ==> row.base in r.commits)
  }

  /** Each pack leads from its base to a proper descendant. */
  ghost predicate RangesForward(r: Repo) {
    forall h :: h in r.ranges && r.ranges[h].base != "" ==> Forward(r.commits, r.ranges[h])
  }

  ghost predicate Forward(commits: map<Id, CommitRow>, row: RangeRow) {
    row.base != row.target && Reaches(GraphOf(commits), row.target, row.base)
  }

  /** Only storing a pack and committing a merge write the table. */
  lemma RangesFrame(s: Sys, e: Event, s': Sys)
    requires Step(s, e, s') && !e.PutRange? && !e.Apply?
    ensures s'.repo.ranges == s.repo.ranges
  {
    hide Reaches;
    hide GraphOf;
    hide PutAllTx;
    hide Chain;
    hide Accepted;
  }

  lemma PutRangeFrame(s: Sys, e: Event, s': Sys)
    requires Step(s, e, s') && e.PutRange?
    ensures e.f in s.flights && s.flights[e.f].Storing? && s.flights[e.f].next == |s.flights[e.f].push.records|
    ensures var push := s.flights[e.f].push;
            var put := PutPackRangeTx(s.repo, push.hash, RangeOf(push));
            s'.repo == if put.Ok? then put.value else s.repo
  {
    hide Reaches;
    hide GraphOf;
    hide PutPackRangeTx;
  }

  /** The row a step adds, if it adds one. */
  ghost predicate AddsRow(r: Repo, q: Repo, hash: string, row: RangeRow) {
    && q.ranges == r.ranges[hash := row]
    && (hash in r.ranges ==> r.ranges[hash] == row)
    && (hash !in r.ranges ==> forall h :: h in r.ranges ==> r.ranges[h].target != row.target)
  }

  lemma PutRangeAdds(r: Repo, hash: string, row: RangeRow)
    requires PutPackRangeTx(r, hash, row).Ok?
    ensures AddsRow(r, PutPackRangeTx(r, hash, row).value, hash, row)
            && PutPackRangeTx(r, hash, row).value.commits == r.commits
  {}

  lemma ApplyAdds(s: Sys, e: Event, s': Sys)
    requires Step(s, e, s') && e.Apply? && ApplyMergeTx(s.repo, s.now, e.merge).Ok?
    ensures AddsRow(s.repo, s'.repo, e.merge.packHash,
                    RangeRow(e.merge.target, e.merge.result, NormalizeFormat(e.merge.packFormat)))
    ensures e.merge.result !in s.repo.commits && e.merge.result in s'.repo.commits && e.merge.result != ""
    ensures e.merge.target in s.repo.commits
    ensures s'.repo.commits[e.merge.result].parents == [e.merge.target, e.merge.source]
  {
    hide Reaches;
    hide GraphOf;
  }

  lemma RecordedAdds(r: Repo, q: Repo, hash: string, row: RangeRow)
    requires RangesRecorded(r) && AddsRow(r, q, hash, row) && Grows(r.commits, q.commits) && RowRecorded(q, row)
    ensures RangesRecorded(q)
  {}

  lemma ForwardAdds(r: Repo, q: Repo, hash: string, row: RangeRow)
    requires RangesForward(r) && AddsRow(r, q, hash, row) && Grows(r.commits, q.commits)
    requires row.base != "" ==> Forward(q.commits, row)
    ensures RangesForward(q)
  {
    hide Reaches;
    hide GraphOf;
    forall h | h in q.ranges && q.ranges[h].base != "" ensures Forward(q.commits, q.ranges[h]) {
      if h != hash {
        ForwardStays(r.commits, q.commits, r.ranges[h]);
      }
    }
  }

  lemma ForwardStays(c: map<Id, CommitRow>, d: map<Id, CommitRow>, row: RangeRow)
    requires Forward(c, row) && Grows(c, d)
    ensures Forward(d, row)
  {
    hide Reaches;
    GraphExtends(c, d);
    ReachesExtend(GraphOf(c), GraphOf(d), row.target, row.base);
  }

  /** A linked record descends from the base by at least one step, so it is not the base. */
  lemma LinkedAhead(commits: map<Id, CommitRow>, push: Push)
    requires Acyclic(GraphOf(commits)) && Named(push) && Stored(commits, push.records, |push.records|)
    requires push.base != "" && PushLinked(commits, push)
    ensures Forward(commits, RangeOf(push))
  {
    hide Acyclic;
    hide Reaches;
    var n := |push.records| - 1;
    var g, record := GraphOf(commits), push.records[n];
    LinkedReaches(commits, commits, push.base, push.records, n);
    var p := LinkedParent(commits, push.base, push.records, n);
    ReachesSelf(g, push.target);
    ReachesParent(g, push.target, push.target, p);
    assert NamedRecord(record);
    if push.target == push.base {
      ReachesAntisymmetric(g, push.target, p);
    }
  }

  lemma LinkedParent(commits: map<Id, CommitRow>, base: Id, records: seq<Record>, i: nat) returns (p: Id)
    requires i < |records| && Stored(commits, records, |records|) && LinkedAt(commits, base, records, i)
    ensures p in records[i].row.parents && Reaches(GraphOf(commits), p, base)
  {
    hide Reaches;
    if q :| q in records[i].row.parents && q in commits && Reaches(GraphOf(commits), q, base) {
      p := q;
    } else {
      var j :| 0 <= j < i && records[j].id in records[i].row.parents && LinkedAt(commits, base, records, j);
      p := records[j].id;
      LinkedReaches(commits, commits, base, records, j);
    }
  }

  lemma PushRow(s: Sys, f: string)
    requires Inv(s) && f in s.flights && s.flights[f].Storing? && s.flights[f].next == |s.flights[f].push.records|
    ensures RowRecorded(s.repo, RangeOf(s.flights[f].push))
    ensures AllLinked(s) && s.flights[f].push.base != "" ==> Forward(s.repo.commits, RangeOf(s.flights[f].push))
  {
    hide Acyclic;
    hide LinkedAt;
    hide Forward;
    var push := s.flights[f].push;
    assert FlightOk(s.repo.commits, s.flights[f]);
    assert push.records[|push.records| - 1].id in s.repo.commits;
    if AllLinked(s) && push.base != "" {
      assert FlightLinked(s.repo.commits, s.flights[f]);
      LinkedAhead(s.repo.commits, push);
    }
  }

  lemma RangeStep(s: Sys, e: Event, s': Sys)
    requires Inv(s) && Step(s, e, s') && RangesRecorded(s.repo)
    ensures RangesRecorded(s'.repo)
    ensures AllLinked(s) && RangesForward(s.repo) ==> RangesForward(s'.repo)
  {
    hide *;
    StepKeeps(s, e, s');
    HistoryIsCommits(s, s');
    if e.PutRange? {
      PutRangeFrame(s, e, s');
      var push := s.flights[e.f].push;
      if PutPackRangeTx(s.repo, push.hash, RangeOf(push)).Ok? {
        PushRow(s, e.f);
        PutRangeAdds(s.repo, push.hash, RangeOf(push));
        RowStays(s.repo, s'.repo, RangeOf(push));
        RecordedAdds(s.repo, s'.repo, push.hash, RangeOf(push));
        if AllLinked(s) && RangesForward(s.repo) {
          ForwardAdds(s.repo, s'.repo, push.hash, RangeOf(push)) by { RowBase(push); }
        }
      }
    } else if e.Apply? && ApplyMergeTx(s.repo, s.now, e.merge).Ok? {
      ApplyAdds(s, e, s');
      MergeRow(s, e, s');
    } else {
      if e.Apply? { ApplyRefused(s, e, s'); } else { RangesFrame(s, e, s'); }
      SameRanges(s.repo, s'.repo);
    }
  }

  lemma RowBase(push: Push)
    ensures RangeOf(push).base == push.base
  {}

  lemma HistoryIsCommits(s: Sys, s': Sys)
    requires HistoryGrows(s, s')
    ensures Grows(s.repo.commits, s'.repo.commits)
  {}

  lemma RowStays(r: Repo, q: Repo, row: RangeRow)
    requires RowRecorded(r, row) && Grows(r.commits, q.commits)
    ensures RowRecorded(q, row)
  {}

  lemma SameRanges(r: Repo, q: Repo)
    requires RangesRecorded(r) && q.ranges == r.ranges && Grows(r.commits, q.commits)
    ensures RangesRecorded(q) && (RangesForward(r) ==> RangesForward(q))
  {
    hide Forward;
    if RangesForward(r) {
      forall h | h in q.ranges && q.ranges[h].base != "" ensures Forward(q.commits, q.ranges[h]) {
        ForwardStays(r.commits, q.commits, q.ranges[h]);
      }
    }
  }

  lemma MergeRow(s: Sys, e: Event, s': Sys)
    requires RangesRecorded(s.repo) && Grows(s.repo.commits, s'.repo.commits) && e.Apply?
    requires AddsRow(s.repo, s'.repo, e.merge.packHash,
                     RangeRow(e.merge.target, e.merge.result, NormalizeFormat(e.merge.packFormat)))
    requires e.merge.result !in s.repo.commits && e.merge.result in s'.repo.commits && e.merge.result != ""
    requires e.merge.target in s.repo.commits
    requires s'.repo.commits[e.merge.result].parents == [e.merge.target, e.merge.source]
    ensures RangesRecorded(s'.repo) && (RangesForward(s.repo) ==> RangesForward(s'.repo))
  {
    hide Reaches;
    var row := RangeRow(e.merge.target, e.merge.result, NormalizeFormat(e.merge.packFormat));
    var g := GraphOf(s'.repo.commits);
    ReachesSelf(g, e.merge.result);
    ReachesParent(g, e.merge.result, e.merge.result, e.merge.target);
    assert Forward(s'.repo.commits, row);
    hide GraphOf;
    hide Forward;
    hide AddsRow;
    hide RangesRecorded;
    hide RangesForward;
    RecordedAdds(s.repo, s'.repo, e.merge.packHash, row);
    if RangesForward(s.repo) {
      ForwardAdds(s.repo, s'.repo, e.merge.packHash, row);
    }
  }

  /** In every run the table stays consistent; in a run of linked pushes each pack leads forward. */
  lemma {:induction false} RunRanges(states: seq<Sys>, events: seq<Event>, j: nat)
    requires Run(states, events) && j < |states| && RangesRecorded(states[0].repo)
    ensures RangesRecorded(states[j].repo)
    ensures LinkedRun(states, events) && RangesForward(states[0].repo) ==> RangesForward(states[j].repo)
    decreases j
  {
    hide Inv;
    hide Step;
    hide RangesRecorded;
    hide RangesForward;
    hide AllLinked;
    hide BeginsLinked;
    if j > 0 {
      RunRanges(states, events, j - 1);
      RunKeeps(states, events, j - 1, j - 1);
      assert Step(states[j - 1], events[j - 1], states[j]);
      RangeStep(states[j - 1], events[j - 1], states[j]);
      if LinkedRun(states, events) {
        RunForward(states, events, j - 1, j - 1);
      }
    }
  }

  // ----- the table as pulls see it ------------------------------------------------------

  /** The pull reads the branch heads, the commits, and the pack table by target. */
  ghost predicate Views(r: Repo, store: PullPlan.PullStore) {
    && store.commits == GraphOf(r.commits)
    && store.heads == (map b | b in r.branches :: r.branches[b].head)
    && (forall h :: h in r.ranges ==>
          r.ranges[h].target in store.ranges && store.ranges[r.ranges[h].target] == RowOf(h, r.ranges[h]))
    && (forall t :: t in store.ranges ==>
                    store.ranges[t].hash in r.ranges && r.ranges[store.ranges[t].hash].target == t)
  }

  function RowOf(h: string, row: RangeRow): PullPlan.PackRange {
    PullPlan.PackRange(h, row.base, row.target, row.format)
  }

  ghost function PackOf(ranges: map<string, RangeRow>, t: Id): (h: string)
    requires exists h :: h in ranges && ranges[h].target == t
    ensures h in ranges && ranges[h].target == t
  {
    var h :| h in ranges && ranges[h].target == t;
    h
  }

  /** The pack table by target. */
  lemma RowsByTarget(ranges: map<string, RangeRow>) returns (rows: map<Id, PullPlan.PackRange>)
    requires forall h, g :: h in ranges && g in ranges && ranges[h].target == ranges[g].target ==> h == g
    ensures forall h :: h in ranges ==> ranges[h].target in rows && rows[ranges[h].target] == RowOf(h, ranges[h])
    ensures forall t :: t in rows ==> rows[t].hash in ranges && ranges[rows[t].hash].target == t
  {
    var targets := set h | h in ranges :: ranges[h].target;
    rows := map t | t in targets :: RowOf(PackOf(ranges, t), ranges[PackOf(ranges, t)]);
    forall h | h in ranges ensures ranges[h].target in rows && rows[ranges[h].target] == RowOf(h, ranges[h]) {
      assert PackOf(ranges, ranges[h].target) == h;
    }
  }

  /** Such a view of a repository exists as long as no two packs have one target. */
  lemma ViewExists(r: Repo)
    requires forall h, g :: h in r.ranges && g in r.ranges && r.ranges[h].target == r.ranges[g].target ==> h == g
    ensures exists store :: Views(r, store)
  {
    hide GraphOf;
    hide RowOf;
    var rows := RowsByTarget(r.ranges);
    var heads := map b | b in r.branches :: r.branches[b].head;
    assert Views(r, PullPlan.PullStore(heads, GraphOf(r.commits), rows, map[]));
  }

  lemma ViewedRow(r: Repo, store: PullPlan.PullStore, t: Id) returns (h: string)
    requires Views(r, store) && t in store.ranges
    ensures h in r.ranges && store.ranges[t] == RowOf(h, r.ranges[h]) && r.ranges[h].target == t
  {
    h := store.ranges[t].hash;
  }

  /** The pack table of a consistent history is what the planner relies on: hashes and targets are unique, and when
      packs lead forward every walk through it ends. */
  lemma TableIsValid(s: Sys, store: PullPlan.PullStore)
    requires Inv(s) && RangesRecorded(s.repo) && Views(s.repo, store)
    ensures PullPlan.RangesValid(store)
    ensures RangesForward(s.repo) ==> PullPlan.ChainsEnd(store)
  {
    hide GraphOf;
    forall t | t in store.ranges ensures store.ranges[t].target == t {
      var h := ViewedRow(s.repo, store, t);
    }
    if RangesForward(s.repo) {
      var rank: map<Id, nat> :| Ranked(GraphOf(s.repo.commits), rank);
      forall t | t in store.ranges
        ensures t in rank
        ensures store.ranges[t].base in store.ranges ==>
                store.ranges[t].base in rank && rank[store.ranges[t].base] < rank[t]
      {
        ForwardRank(s, store, rank, t);
      }
      forall t | t in store.ranges ensures PullPlan.ChainEnds(store, t, "") {
        PullPlan.RankedChainEnds(store, rank, t, "", rank[t]);
      }
    }
  }

  lemma ForwardRank(s: Sys, store: PullPlan.PullStore, rank: map<Id, nat>, t: Id)
    requires RangesRecorded(s.repo) && RangesForward(s.repo) && Views(s.repo, store)
    requires Ranked(GraphOf(s.repo.commits), rank) && t in store.ranges
    ensures t in rank
    ensures store.ranges[t].base in store.ranges ==>
            store.ranges[t].base in rank && rank[store.ranges[t].base] < rank[t]
  {
    hide Reaches;
    var g := GraphOf(s.repo.commits);
    var h := ViewedRow(s.repo, store, t);
    assert RowRecorded(s.repo, s.repo.ranges[h]);
    assert t in g;
    var b := store.ranges[t].base;
    if b in store.ranges {
      var hb := ViewedRow(s.repo, store, b);
      assert RowRecorded(s.repo, s.repo.ranges[hb]);
      assert Forward(s.repo.commits, s.repo.ranges[h]);
      ReachesRank(g, rank, t, b);
      if rank[b] == rank[t] {
        SameRank(g, rank, t, b);
      }
    }
  }

  /** A proper ancestor has a smaller rank. */
  lemma SameRank(g: Graph, rank: map<Id, nat>, c: Id, a: Id)
    requires Ranked(g, rank) && c in g && Reaches(g, c, a)
    ensures a in rank && (rank[a] == rank[c] ==> a == c)
  {
    var n: nat :| StepsTo(g, c, a, n);
    StepsRank(g, rank, c, a, n);
  }

  /** Whatever linked pushes, merges and publishes interleave: at every moment of a run that starts with an empty
      pack table, the table that pulls read is valid and all its walks end. */
  lemma RunTableValid(states: seq<Sys>, events: seq<Event>, j: nat, store: PullPlan.PullStore)
    requires LinkedRun(states, events) && j < |states| && states[0].repo.ranges == map[] && Views(states[j].repo, store)
    ensures PullPlan.RangesValid(store) && PullPlan.ChainsEnd(store) && Acyclic(store.commits)
  {
    hide Inv;
    hide Step;
    hide AllLinked;
    hide BeginsLinked;
    RunKeeps(states, events, j, j);
    RunRanges(states, events, j);
    TableIsValid(states[j], store);
    InvAcyclic(states[j]);
  }

  lemma InvAcyclic(s: Sys)
    requires Inv(s)
    ensures Acyclic(Dag(s))
  {}
}
