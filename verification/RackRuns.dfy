// Concurrent runs of the server: pushes, fast-forward and three-way merges, native publishes and branch
// operations interleave as transactions of the metadata store.
module RackRuns {
  import opened Wrappers
  import opened CommitGraph
  import opened RackStore

  datatype Push = Push(branch: string, base: Id, target: Id, records: seq<Record>, hash: string, format: nat)

  /** Where a request stands between two of its transactions. */
  datatype Flight =
    | Storing(push: Push, next: nat)                       // commits before `next` are stored
    | Ranged(push: Push)                                   // the pack range is stored too
    | Checking(branch: string, head: Id, target: Id)       // push without a base: ancestry still to be checked
    | Swapping(branch: string, expected: Id, new_: Id)     // about to compare-and-swap the head

  datatype Sys = Sys(repo: Repo, now: nat, issued: set<string>, flights: map<string, Flight>)

  datatype Event =
    | PutCommit(id: Id, row: CommitRow)
    | BeginPush(f: string, push: Push)
    | StoreNext(f: string)
    | PutRange(f: string)
    | ReadHead(f: string)
    | CheckAncestor(f: string)
    | PreviewFastForward(f: string, branch: string, target: Id, source: Id)
    | Swap(f: string)
    | Publish(pub: Publication)
    | Acquire(lease: LeaseRequest, token: string)
    | Release(branch: string, subject: string, token: string)
    | Apply(merge: MergeRequest)
    | Create(branch: string, head: Id)
    | Delete(branch: string)
    | Tick

  function Dag(s: Sys): Graph { GraphOf(s.repo.commits) }

  /** The records form a first-parent chain from the base to the target; ids are content hashes,
      so no commit names itself. Both push validators establish this. */
  ghost predicate Chain(base: Id, records: seq<Record>, target: Id) {
    && |records| > 0 && records[|records| - 1].id == target
    && (forall i :: 0 <= i < |records| ==> records[i].id !in records[i].row.parents && records[i].id != "")
    && (forall i :: 0 <= i < |records| ==> Continues(base, records, i))
  }

  /** Record `i` continues the chain: a root only at the start of a push without a base. */
  ghost predicate Continues(base: Id, records: seq<Record>, i: nat)
    requires i < |records|
  {
    if records[i].row.parents == [] then i == 0 && base == ""
    else if i == 0 then base != "" && records[i].row.parents[0] == base
    else records[i].row.parents[0] == records[i - 1].id
  }

  ghost predicate Stored(commits: map<Id, CommitRow>, records: seq<Record>, n: nat) {
    forall i :: 0 <= i < n && i < |records| ==> records[i].id in commits && commits[records[i].id] == records[i].row
  }

  /** Each parent is the base, registered, or an earlier commit of the push. */
  ghost predicate AllParentsKnown(commits: map<Id, CommitRow>, base: Id, records: seq<Record>) {
    forall i, p :: 0 <= i < |records| && p in records[i].row.parents ==>
      (base != "" && p == base) || p in commits || exists l :: 0 <= l < i && records[l].id == p
  }

  /** What V3 validation and the known-parent loop of HandlePush establish; nothing links the target to the base. */
  ghost predicate V3Records(commits: map<Id, CommitRow>, base: Id, records: seq<Record>) {
    && (forall i :: 0 <= i < |records| ==> records[i].id != base)
    && (forall i, j :: 0 <= i < j < |records| ==> records[i].id != records[j].id)
    && (base != "" ==> forall i :: 0 <= i < |records| ==> records[i].row.parents != [])
    && AllParentsKnown(commits, base, records)
  }

  /** The target is the last record; ids are content hashes, so no commit names itself and none is empty. */
  ghost predicate Named(push: Push) {
    && |push.records| > 0 && push.records[|push.records| - 1].id == push.target
    && (forall i :: 0 <= i < |push.records| ==> NamedRecord(push.records[i]))
  }

  ghost predicate NamedRecord(record: Record) { record.id !in record.row.parents && record.id != "" }

  /** What HandlePush has checked of a push when it stores the first commit: V2 packs are first-parent chains. */
  ghost predicate Accepted(commits: map<Id, CommitRow>, push: Push) {
    && Named(push) && (push.base != "" ==> push.base in commits)
    && (Chain(push.base, push.records, push.target) || V3Records(commits, push.base, push.records))
  }

  /** Some parent of record `i` was registered and has the base in its history, or is an earlier linked record. */
  ghost predicate LinkedAt(commits: map<Id, CommitRow>, base: Id, records: seq<Record>, i: nat)
    requires i < |records|
    decreases i
  {
    || (exists p :: p in records[i].row.parents && p in commits && Reaches(GraphOf(commits), p, base))
    || (exists j :: 0 <= j < i && records[j].id in records[i].row.parents && LinkedAt(commits, base, records, j))
  }

  /** The link from target to base that a caller can check on the registered commits before the push. */
  ghost predicate PushLinked(commits: map<Id, CommitRow>, push: Push) {
    push.base != "" && |push.records| > 0 ==> LinkedAt(commits, push.base, push.records, |push.records| - 1)
  }

  function RangeOf(push: Push): RangeRow { RangeRow(push.base, push.target, push.format) }

  function Drop(s: Sys, f: string): Sys { s.(flights := s.flights - {f}) }

  function Fly(s: Sys, f: string, flight: Flight): Sys { s.(flights := s.flights[f := flight]) }

  /** A transaction that commits, or rolls back and leaves the tables alone. */
  function Committed(s: Sys, r: Result<Repo, StoreError>): Sys {
    match r case Ok(repo) => s.(repo := repo) case Err(_) => s
  }

  function AfterPut(s: Sys, put: Result<map<Id, CommitRow>, StoreError>): Sys {
    match put case Ok(c) => s.(repo := s.repo.(commits := c)) case Err(_) => s
  }

  function AfterPublish(s: Sys, r: Result<(Repo, PublishResult), StoreError>): Sys {
    match r case Ok(p) => s.(repo := p.0) case Err(_) => s
  }

  ghost predicate Step(s: Sys, e: Event, s': Sys) {
    match e
    case PutCommit(id, row) =>
      id !in row.parents && id != "" && s' == AfterPut(s, PutCommitTx(s.repo.commits, id, row))
    case BeginPush(f, push) => Accepted(s.repo.commits, push) && s' == Fly(s, f, Storing(push, 0))
    case StoreNext(f) =>
      && f in s.flights && s.flights[f].Storing? && s.flights[f].next < |s.flights[f].push.records|
      && var push, n := s.flights[f].push, s.flights[f].next;
         var put := PutCommitTx(s.repo.commits, push.records[n].id, push.records[n].row);
         s' == if put.Ok? then Fly(AfterPut(s, put), f, Storing(push, n + 1)) else Drop(s, f)
    case PutRange(f) =>
      && f in s.flights && s.flights[f].Storing? && s.flights[f].next == |s.flights[f].push.records|
      && var push := s.flights[f].push;
         var put := PutPackRangeTx(s.repo, push.hash, RangeOf(push));
         s' == if put.Ok? then Fly(Committed(s, put), f, Ranged(push)) else Drop(s, f)
    case ReadHead(f) =>
      && f in s.flights && s.flights[f].Ranged?
      && s' == AfterReadHead(s, f, s.flights[f].push)
    case CheckAncestor(f) =>
      && f in s.flights && s.flights[f].Checking?
      && var flight := s.flights[f];
         s' == if Reaches(Dag(s), flight.target, flight.head)
           then Fly(s, f, Swapping(flight.branch, flight.head, flight.target)) else Drop(s, f)
    case PreviewFastForward(f, branch, target, source) =>
      && target in s.repo.commits && source in s.repo.commits && Reaches(Dag(s), source, target)
      && s' == Fly(s, f, Swapping(branch, target, source))
    case Swap(f) =>
      && f in s.flights && s.flights[f].Swapping?
      && s' == Drop(Committed(s, CompareAndSwapTx(s.repo, s.now, s.flights[f].branch, s.flights[f].expected,
                                                  s.flights[f].new_)), f)
    case Publish(pub) =>
      && (pub.base != "" ==> Chain(pub.base, pub.commits, pub.target))
      && s' == AfterPublish(s, PublishTx(s.repo, pub))
    case Acquire(lease, token) =>
      && token !in s.issued
      && s' == Committed(s, AcquireLeaseTx(s.repo, s.now, lease, token)).(issued := s.issued + {token})
    case Release(branch, subject, token) => s' == Committed(s, ReleaseLeaseTx(s.repo, branch, subject, token))
    case Apply(merge) =>
      && merge.result != merge.target && merge.result != merge.source
      && s' == Committed(s, ApplyMergeTx(s.repo, s.now, merge))
    case Create(branch, head) => s' == Committed(s, CreateBranchTx(s.repo, branch, head))
    case Delete(branch) => s' == Committed(s, DeleteBranchTx(s.repo, branch))
    case Tick => s' == s.(now := s.now + 1)
  }

  /** HandlePush after its commits and pack are stored: what the branch head tells it to do next. A missing
      branch is created by a separate Create step. */
  function AfterReadHead(s: Sys, f: string, push: Push): Sys {
    if push.branch !in s.repo.branches then Drop(s, f)
    else
      var head := s.repo.branches[push.branch].head;
      if head == push.base then Fly(s, f, Swapping(push.branch, push.base, push.target))
      else if push.base == "" && head != push.target then Fly(s, f, Checking(push.branch, head, push.target))
      else Drop(s, f)
  }

  // ----- the invariant ------------------------------------------------------------------

  ghost predicate FlightOk(commits: map<Id, CommitRow>, flight: Flight) {
    match flight
    case Storing(push, next) =>
      && next <= |push.records| && Named(push) && Stored(commits, push.records, next)
      && (push.base != "" ==> push.base in commits)
    case Ranged(push) =>
      Named(push) && Stored(commits, push.records, |push.records|) && (push.base != "" ==> push.base in commits)
    case Checking(_, head, target) => head in commits && target in commits
    case Swapping(_, expected, new_) => expected in commits && new_ in commits
  }

  ghost predicate HeadsRecorded(r: Repo) {
    forall b :: b in r.branches ==> r.branches[b].head in r.commits
  }

  ghost predicate LeasesOk(r: Repo, issued: set<string>) {
    && (forall b :: b in r.leases ==> r.leases[b].token in issued)
    && (forall b, c :: b in r.leases && c in r.leases && r.leases[b].token == r.leases[c].token ==> b == c)
  }

  ghost predicate Inv(s: Sys) {
    && Acyclic(Dag(s)) && "" !in s.repo.commits
    && HeadsRecorded(s.repo)
    && LeasesOk(s.repo, s.issued)
    && (forall k :: k in s.repo.pushes ==> s.repo.pushes[k].committed)
    && (forall f :: f in s.flights ==> FlightOk(s.repo.commits, s.flights[f]))
  }

  /** Branches never disappear, and each head moves to a commit that has the old head as an ancestor. */
  ghost predicate HeadsForward(s: Sys, s': Sys) {
    forall b :: b in s.repo.branches ==>
      b in s'.repo.branches && Reaches(Dag(s'), s'.repo.branches[b].head, s.repo.branches[b].head)
  }

  /** Commits are immutable and never removed. */
  ghost predicate HistoryGrows(s: Sys, s': Sys) {
    Grows(s.repo.commits, s'.repo.commits)
  }

  ghost predicate Grows(c: map<Id, CommitRow>, d: map<Id, CommitRow>) {
    forall x :: x in c ==> x in d && d[x] == c[x]
  }

  /** The one kind of step that moves a head to a commit without the old head in its history. */
  ghost predicate Rewinds(s: Sys, e: Event) {
    && e.Swap? && e.f in s.flights && s.flights[e.f].Swapping?
    && var flight := s.flights[e.f];
       && CompareAndSwapTx(s.repo, s.now, flight.branch, flight.expected, flight.new_).Ok?
       && !Reaches(Dag(s), flight.new_, flight.expected)
  }

  // ----- growing the history ------------------------------------------------------------

  lemma GraphExtends(c: map<Id, CommitRow>, d: map<Id, CommitRow>)
    requires Grows(c, d)
    ensures Extends(GraphOf(c), GraphOf(d))
  {}

  lemma PutCommitGrows(c: map<Id, CommitRow>, id: Id, row: CommitRow)
    requires Acyclic(GraphOf(c)) && "" !in c && id !in row.parents && id != "" && PutCommitTx(c, id, row).Ok?
    ensures var d := PutCommitTx(c, id, row).value;
            Acyclic(GraphOf(d)) && "" !in d && id in d && d[id] == row && Grows(c, d)
  {
    hide Acyclic;
    if id !in c {
      AcyclicInsert(GraphOf(c), id, row.parents);
      assert GraphOf(c[id := row]) == GraphOf(c)[id := row.parents];
    }
  }

  lemma {:induction false} PutAllGrows(c: map<Id, CommitRow>, records: seq<Record>)
    requires Acyclic(GraphOf(c)) && "" !in c && PutAllTx(c, records).Ok?
    requires forall i :: 0 <= i < |records| ==> records[i].id !in records[i].row.parents && records[i].id != ""
    ensures var d := PutAllTx(c, records).value;
            Acyclic(GraphOf(d)) && "" !in d && Stored(d, records, |records|) && Grows(c, d)
    decreases |records|
  {
    hide Acyclic;
    if records != [] {
      var n := |records| - 1;
      PutAllGrows(c, records[..n]);
      PutCommitGrows(PutAllTx(c, records[..n]).value, records[n].id, records[n].row);
    }
  }

  /** Once all records are stored the target descends from the base. */
  lemma {:induction false} ChainReaches(commits: map<Id, CommitRow>, base: Id, records: seq<Record>, target: Id, n: nat)
    requires Chain(base, records, target) && Stored(commits, records, |records|) && base != "" && n < |records|
    ensures Reaches(GraphOf(commits), records[n].id, base)
    decreases n
  {
    hide Reaches;
    var g := GraphOf(commits);
    var c := records[n].id;
    assert Continues(base, records, n);
    ReachesSelf(g, c);
    ReachesParent(g, c, c, records[n].row.parents[0]);
    if n > 0 {
      ChainReaches(commits, base, records, target, n - 1);
      ReachesTransitive(g, c, records[n - 1].id, base);
    }
  }

  // ----- when a push is linked to its base ----------------------------------------------

  /** A linked record descends from the base in every history that extends the registered one and stores the push. */
  lemma {:induction false} LinkedReaches(before: map<Id, CommitRow>, after: map<Id, CommitRow>, base: Id,
                                         records: seq<Record>, i: nat)
    requires Grows(before, after) && Stored(after, records, |records|)
    requires i < |records| && LinkedAt(before, base, records, i)
    ensures Reaches(GraphOf(after), records[i].id, base)
    decreases i
  {
    hide Reaches;
    var g, c := GraphOf(after), records[i].id;
    ReachesSelf(g, c);
    if p :| p in records[i].row.parents && p in before && Reaches(GraphOf(before), p, base) {
      GraphExtends(before, after);
      ReachesExtend(GraphOf(before), g, p, base);
      ReachesParent(g, c, c, p);
      ReachesTransitive(g, c, p, base);
    } else {
      var j :| 0 <= j < i && records[j].id in records[i].row.parents && LinkedAt(before, base, records, j);
      LinkedReaches(before, after, base, records, j);
      ReachesParent(g, c, c, records[j].id);
      ReachesTransitive(g, c, records[j].id, base);
    }
  }

  lemma KnownParent(before: map<Id, CommitRow>, base: Id, records: seq<Record>, i: nat, p: Id)
    requires AllParentsKnown(before, base, records) && base in before && i < |records| && p in records[i].row.parents
    ensures p in before || exists j :: 0 <= j < i && records[j].id == p
  {}

  /** The exact condition: with known parents, a stored record descends from the base if and only if it is linked. */
  lemma {:induction false} LinkedExactly(before: map<Id, CommitRow>, after: map<Id, CommitRow>, base: Id,
                                         records: seq<Record>, i: nat)
    requires Closed(GraphOf(before)) && Grows(before, after) && Stored(after, records, |records|)
    requires base in before && AllParentsKnown(before, base, records)
    requires forall j :: 0 <= j < |records| ==> records[j].id != base
    requires i < |records|
    ensures Reaches(GraphOf(after), records[i].id, base) <==> LinkedAt(before, base, records, i)
    decreases i
  {
    hide AllParentsKnown;
    hide Closed;
    var g, c := GraphOf(after), records[i].id;
    if LinkedAt(before, base, records, i) {
      LinkedReaches(before, after, base, records, i);
    }
    if Reaches(g, c, base) {
      var n: nat :| StepsTo(g, c, base, n);
      var p := FirstStep(g, c, base, n);
      assert Reaches(g, p, base);
      hide Reaches;
      KnownParent(before, base, records, i, p);
      if p in before {
        GraphExtends(before, after);
        AncestryFrozen(GraphOf(before), g, p, base);
      } else {
        var j :| 0 <= j < i && records[j].id == p;
        LinkedExactly(before, after, base, records, j);
      }
    }
  }

  /** A first-parent chain is linked: its first commit has the base as a parent. */
  lemma {:induction false} ChainLinked(commits: map<Id, CommitRow>, base: Id, records: seq<Record>, target: Id, i: nat)
    requires Chain(base, records, target) && base != "" && base in commits && i < |records|
    ensures LinkedAt(commits, base, records, i)
    decreases i
  {
    hide Reaches;
    assert Continues(base, records, i);
    if i == 0 {
      ReachesSelf(GraphOf(commits), base);
      assert base in records[0].row.parents;
    } else {
      ChainLinked(commits, base, records, target, i - 1);
      assert records[i - 1].id in records[i].row.parents;
    }
  }

  /** Registering more commits keeps a push linked. */
  lemma {:induction false} LinkedStays(c: map<Id, CommitRow>, d: map<Id, CommitRow>, base: Id, records: seq<Record>,
                                       i: nat)
    requires Grows(c, d) && i < |records| && LinkedAt(c, base, records, i)
    ensures LinkedAt(d, base, records, i)
    decreases i
  {
    hide Reaches;
    if p :| p in records[i].row.parents && p in c && Reaches(GraphOf(c), p, base) {
      GraphExtends(c, d);
      ReachesExtend(GraphOf(c), GraphOf(d), p, base);
    } else {
      var j :| 0 <= j < i && records[j].id in records[i].row.parents && LinkedAt(c, base, records, j);
      LinkedStays(c, d, base, records, j);
    }
  }

  /** Once an accepted push is stored, its target descends from its base exactly if the push was linked. */
  lemma AcceptedPushLinked(before: map<Id, CommitRow>, after: map<Id, CommitRow>, push: Push)
    requires Accepted(before, push) && push.base != "" && Closed(GraphOf(before))
    requires Grows(before, after) && Stored(after, push.records, |push.records|)
    ensures Reaches(GraphOf(after), push.target, push.base) <==> PushLinked(before, push)
  {
    hide Reaches;
    hide LinkedAt;
    hide Closed;
    var n := |push.records| - 1;
    if Chain(push.base, push.records, push.target) {
      ChainLinked(before, push.base, push.records, push.target, n);
      LinkedReaches(before, after, push.base, push.records, n);
    } else {
      LinkedExactly(before, after, push.base, push.records, n);
    }
  }

  lemma FlightSurvives(c: map<Id, CommitRow>, d: map<Id, CommitRow>, flight: Flight)
    requires FlightOk(c, flight) && Grows(c, d)
    ensures FlightOk(d, flight)
  {}

  // ----- every step keeps the invariant -------------------------------------------------

  /** What a step that only grows the history and keeps heads in place has to establish. */
  lemma HistoryStep(s: Sys, s': Sys)
    requires Inv(s) && HistoryGrows(s, s') && Acyclic(Dag(s')) && "" !in s'.repo.commits
    requires s'.repo.pushes == s.repo.pushes && LeasesOk(s'.repo, s'.issued)
    requires forall b :: b in s.repo.branches ==>
               b in s'.repo.branches && s'.repo.branches[b].head == s.repo.branches[b].head
    requires HeadsRecorded(s'.repo)
    requires forall f :: f in s'.flights ==>
               (f in s.flights && s'.flights[f] == s.flights[f]) || FlightOk(s'.repo.commits, s'.flights[f])
    ensures Inv(s') && HeadsForward(s, s')
  {
    hide Reaches;
    hide Acyclic;
    hide FlightOk;
    hide GraphOf;
    hide LeasesOk;
    hide HeadsRecorded;
    forall f | f in s'.flights ensures FlightOk(s'.repo.commits, s'.flights[f]) {
      if f in s.flights && s'.flights[f] == s.flights[f] {
        FlightSurvives(s.repo.commits, s'.repo.commits, s.flights[f]);
      }
    }
    forall b | b in s.repo.branches ensures Reaches(Dag(s'), s'.repo.branches[b].head, s.repo.branches[b].head) {
      ReachesSelf(Dag(s'), s.repo.branches[b].head);
    }
  }

  /** What a step that moves one head has to establish. */
  lemma HeadStep(s: Sys, s': Sys, branch: string, head: Id)
    requires Inv(s) && HistoryGrows(s, s') && Acyclic(Dag(s')) && "" !in s'.repo.commits
    requires branch in s.repo.branches && head in s'.repo.commits
    requires s'.repo.branches == s.repo.branches[branch := s.repo.branches[branch].(head := head)]
    requires LeasesOk(s'.repo, s'.issued)
    requires forall k :: k in s'.repo.pushes ==> s'.repo.pushes[k].committed
    requires forall f :: f in s'.flights ==> f in s.flights && s'.flights[f] == s.flights[f]
    ensures Inv(s')
    ensures HeadsForward(s, s') <==> Reaches(Dag(s'), head, s.repo.branches[branch].head)
  {
    hide Reaches;
    hide Acyclic;
    hide FlightOk;
    hide GraphOf;
    hide LeasesOk;
    forall f | f in s'.flights ensures FlightOk(s'.repo.commits, s'.flights[f]) {
      FlightSurvives(s.repo.commits, s'.repo.commits, s.flights[f]);
    }
    forall b | b in s.repo.branches && b != branch
      ensures Reaches(Dag(s'), s'.repo.branches[b].head, s.repo.branches[b].head)
    {
      ReachesSelf(Dag(s'), s.repo.branches[b].head);
    }
  }

  lemma PutStep(s: Sys, e: Event, s': Sys)
    requires Inv(s) && Step(s, e, s') && (e.PutCommit? || e.StoreNext?)
    ensures Inv(s') && HistoryGrows(s, s') && HeadsForward(s, s')
  {
    hide Reaches;
    hide Acyclic;
    hide GraphOf;
    hide LeasesOk;
    if e.PutCommit? {
      if PutCommitTx(s.repo.commits, e.id, e.row).Ok? { PutCommitGrows(s.repo.commits, e.id, e.row); }
    } else {
      var push, n := s.flights[e.f].push, s.flights[e.f].next;
      assert FlightOk(s.repo.commits, s.flights[e.f]);
      var record := push.records[n];
      if PutCommitTx(s.repo.commits, record.id, record.row).Ok? {
        PutCommitGrows(s.repo.commits, record.id, record.row);
        assert FlightOk(s'.repo.commits, Storing(push, n + 1));
      }
    }
    KeepsLeases(s, s');
    HistoryStep(s, s');
  }

  lemma KeepsLeases(s: Sys, s': Sys)
    requires LeasesOk(s.repo, s.issued) && s'.repo.leases == s.repo.leases && s.issued <= s'.issued
    ensures LeasesOk(s'.repo, s'.issued)
  {}

  /** After the push has stored everything its target is recorded. */
  lemma StoredPush(s: Sys, push: Push)
    requires Named(push) && Stored(s.repo.commits, push.records, |push.records|)
    ensures push.target in s.repo.commits
  {
    assert push.records[|push.records| - 1].id in s.repo.commits;
  }

  lemma ReadHeadFrame(s: Sys, e: Event, s': Sys)
    requires Step(s, e, s') && e.ReadHead?
    ensures e.f in s.flights && s.flights[e.f].Ranged?
    ensures s'.repo == s.repo && s'.issued == s.issued && s' == AfterReadHead(s, e.f, s.flights[e.f].push)
  {
    hide Reaches;
    hide GraphOf;
  }

  lemma ReadHeadFlight(s: Sys, f: string, push: Push)
    requires HeadsRecorded(s.repo) && push.target in s.repo.commits
    ensures forall x :: x in AfterReadHead(s, f, push).flights ==>
              (x in s.flights && AfterReadHead(s, f, push).flights[x] == s.flights[x])
              || FlightOk(s.repo.commits, AfterReadHead(s, f, push).flights[x])
  {
    hide Reaches;
    hide GraphOf;
  }

  lemma ReadHeadStep(s: Sys, e: Event, s': Sys)
    requires Inv(s) && Step(s, e, s') && e.ReadHead?
    ensures Inv(s') && HistoryGrows(s, s') && HeadsForward(s, s')
  {
    hide Reaches;
    hide Acyclic;
    hide GraphOf;
    hide LeasesOk;
    hide Accepted;
    hide Stored;
    hide Step;
    hide AfterReadHead;
    ReadHeadFrame(s, e, s');
    KeepsLeases(s, s');
    var push := s.flights[e.f].push;
    assert FlightOk(s.repo.commits, s.flights[e.f]);
    StoredPush(s, push);
    ReadHeadFlight(s, e.f, push);
    hide FlightOk;
    HistoryStep(s, s');
  }

  /** A step that leaves commits, heads and leases alone. */
  ghost predicate Quiet(e: Event) {
    e.PutRange? || e.BeginPush? || e.CheckAncestor? || e.PreviewFastForward? || e.Tick? || e.Create? || e.Delete?
  }

  /** The tables a quiet step may write: pack ranges and branch rows. */
  lemma QuietTables(s: Sys, e: Event, s': Sys)
    requires Step(s, e, s') && Quiet(e)
    ensures s'.issued == s.issued && s'.repo ==
            s.repo.(branches := s'.repo.branches, defaultBranch := s'.repo.defaultBranch, ranges := s'.repo.ranges)
    ensures !e.Create? && !e.Delete? ==> s'.repo.branches == s.repo.branches
  {
    hide Reaches;
    hide GraphOf;
    hide Accepted;
  }

  lemma QuietBranches(s: Sys, e: Event, s': Sys)
    requires Step(s, e, s') && (e.Create? || e.Delete?) && HeadsRecorded(s.repo)
    ensures forall b :: b in s.repo.branches ==>
                        b in s'.repo.branches && s'.repo.branches[b].head == s.repo.branches[b].head
    ensures HeadsRecorded(s'.repo)
  {
    hide Reaches;
    hide GraphOf;
    hide Accepted;
  }

  lemma QuietFrame(s: Sys, e: Event, s': Sys)
    requires Step(s, e, s') && Quiet(e) && HeadsRecorded(s.repo)
    ensures s'.repo.commits == s.repo.commits && s'.repo.pushes == s.repo.pushes && s'.repo.leases == s.repo.leases
            && s'.issued == s.issued
    ensures forall b :: b in s.repo.branches ==>
                        b in s'.repo.branches && s'.repo.branches[b].head == s.repo.branches[b].head
    ensures HeadsRecorded(s'.repo)
  {
    hide Step;
    QuietTables(s, e, s');
    if e.Create? || e.Delete? {
      QuietBranches(s, e, s');
    }
  }

  lemma QuietFlights(s: Sys, e: Event, s': Sys, f: string)
    requires Step(s, e, s') && Quiet(e) && f in s'.flights
    requires f in s.flights ==> FlightOk(s.repo.commits, s.flights[f])
    ensures (f in s.flights && s'.flights[f] == s.flights[f]) || FlightOk(s.repo.commits, s'.flights[f])
  {
    hide Reaches;
    hide GraphOf;
    hide Chain;
    hide V3Records;
    hide Named;
    if e.PutRange? && f == e.f {
      var push := s.flights[f].push;
      assert FlightOk(s.repo.commits, Storing(push, |push.records|));
      assert s'.flights[f] == Ranged(push);
    }
  }

  lemma QuietStep(s: Sys, e: Event, s': Sys)
    requires Inv(s) && Step(s, e, s') && Quiet(e)
    ensures Inv(s') && HistoryGrows(s, s') && HeadsForward(s, s')
  {
    hide Reaches;
    hide Acyclic;
    hide GraphOf;
    hide LeasesOk;
    hide FlightOk;
    hide Step;
    hide HeadsRecorded;
    hide Quiet;
    QuietFrame(s, e, s');
    KeepsLeases(s, s');
    forall f | f in s'.flights ensures (f in s.flights && s'.flights[f] == s.flights[f])
      || FlightOk(s'.repo.commits, s'.flights[f]) {
      QuietFlights(s, e, s', f);
    }
    HistoryStep(s, s');
  }

  /** What acquiring and releasing leave alone, and what they do to the lease table. */
  lemma LeaseFrame(s: Sys, e: Event, s': Sys)
    requires LeasesOk(s.repo, s.issued) && Step(s, e, s') && (e.Acquire? || e.Release?)
    ensures s'.repo == s.repo.(leases := s'.repo.leases) && s'.flights == s.flights && LeasesOk(s'.repo, s'.issued)
  {
    hide Reaches;
    hide GraphOf;
  }

  lemma LeaseStep(s: Sys, e: Event, s': Sys)
    requires Inv(s) && Step(s, e, s') && (e.Acquire? || e.Release?)
    ensures Inv(s') && HistoryGrows(s, s') && HeadsForward(s, s')
  {
    hide Reaches;
    hide Acyclic;
    hide GraphOf;
    hide FlightOk;
    hide Step;
    hide LeasesOk;
    LeaseFrame(s, e, s');
    HistoryStep(s, s');
  }

  lemma SwapStep(s: Sys, e: Event, s': Sys)
    requires Inv(s) && Step(s, e, s') && e.Swap?
    ensures Inv(s') && HistoryGrows(s, s') && (HeadsForward(s, s') <==> !Rewinds(s, e))
  {
    hide Reaches;
    hide Acyclic;
    hide GraphOf;
    hide LeasesOk;
    var flight := s.flights[e.f];
    assert FlightOk(s.repo.commits, flight);
    KeepsLeases(s, s');
    if CompareAndSwapTx(s.repo, s.now, flight.branch, flight.expected, flight.new_).Ok? {
      HeadStep(s, s', flight.branch, flight.new_);
    } else {
      HistoryStep(s, s');
    }
  }

  lemma PublishStep(s: Sys, e: Event, s': Sys)
    requires Inv(s) && Step(s, e, s') && e.Publish?
    ensures Inv(s') && HistoryGrows(s, s') && HeadsForward(s, s')
  {
    hide Reaches;
    hide Acyclic;
    hide GraphOf;
    hide LeasesOk;
    hide FlightOk;
    var pub := e.pub;
    KeepsLeases(s, s');
    var r := PublishTx(s.repo, pub);
    if r.Ok? && !r.value.1.alreadyApplied {
      PutAllGrows(s.repo.commits, pub.commits);
      ChainReaches(s'.repo.commits, pub.base, pub.commits, pub.target, |pub.commits| - 1);
      HeadStep(s, s', pub.branch, pub.target);
    } else {
      HistoryStep(s, s');
    }
  }

  /** What a committed merge writes. */
  lemma ApplyFrame(s: Sys, e: Event, s': Sys)
    requires Step(s, e, s') && e.Apply? && ApplyMergeTx(s.repo, s.now, e.merge).Ok?
    ensures var req := e.merge;
            && req.branch in s.repo.branches && s.repo.branches[req.branch].head == req.target
            && req.result !in s.repo.commits && req.target in s.repo.commits && req.source in s.repo.commits
              && req.result != ""
            && s'.repo.commits == s.repo.commits[req.result := MergeCommit(req)]
            && s'.repo.branches == s.repo.branches[req.branch := s.repo.branches[req.branch].(head := req.result)]
            && s'.repo.leases == s.repo.leases - {req.branch} && s'.repo.pushes == s.repo.pushes
            && s'.flights == s.flights && s'.issued == s.issued
  {
    hide Reaches;
    hide GraphOf;
  }

  lemma ApplyRefused(s: Sys, e: Event, s': Sys)
    requires Step(s, e, s') && e.Apply? && ApplyMergeTx(s.repo, s.now, e.merge).Err?
    ensures s' == s
  {
    hide Reaches;
    hide GraphOf;
    hide ApplyMergeTx;
  }

  lemma MergeAcyclic(s: Sys, s': Sys, req: MergeRequest)
    requires Acyclic(Dag(s)) && req.result !in s.repo.commits && req.target in s.repo.commits
             && req.source in s.repo.commits
    requires s'.repo.commits == s.repo.commits[req.result := MergeCommit(req)]
    ensures Acyclic(Dag(s')) && Reaches(Dag(s'), req.result, req.target)
  {
    hide Reaches;
    hide Acyclic;
    AcyclicInsert(Dag(s), req.result, [req.target, req.source]);
    assert Dag(s') == Dag(s)[req.result := [req.target, req.source]];
    ReachesSelf(Dag(s'), req.result);
    ReachesParent(Dag(s'), req.result, req.result, req.target);
  }

  lemma FewerLeases(r: Repo, q: Repo, issued: set<string>, branch: string)
    requires LeasesOk(r, issued) && q.leases == r.leases - {branch}
    ensures LeasesOk(q, issued)
  {}

  lemma ApplyStep(s: Sys, e: Event, s': Sys)
    requires Inv(s) && Step(s, e, s') && e.Apply?
    ensures Inv(s') && HistoryGrows(s, s') && HeadsForward(s, s')
  {
    hide Reaches;
    hide Acyclic;
    hide FlightOk;
    hide GraphOf;
    hide Step;
    hide ApplyMergeTx;
    hide MergeCommit;
    hide LeasesOk;
    if ApplyMergeTx(s.repo, s.now, e.merge).Ok? {
      ApplyFrame(s, e, s');
      MergeAcyclic(s, s', e.merge);
      FewerLeases(s.repo, s'.repo, s.issued, e.merge.branch);
      HeadStep(s, s', e.merge.branch, e.merge.result);
    } else {
      ApplyRefused(s, e, s');
      HistoryStep(s, s');
    }
  }

  /** Every step keeps the invariant and the history; it moves heads only forward exactly if it is no rewinding swap. */
  lemma StepKeeps(s: Sys, e: Event, s': Sys)
    requires Inv(s) && Step(s, e, s')
    ensures Inv(s') && HistoryGrows(s, s') && (HeadsForward(s, s') <==> !Rewinds(s, e))
  {
    hide Inv;
    hide Step;
    hide HistoryGrows;
    hide HeadsForward;
    if !e.Swap? { OnlySwapsRewind(s, e); }
    hide Rewinds;
    match e
    case PutCommit(_, _) => PutStep(s, e, s');
    case StoreNext(_) => PutStep(s, e, s');
    case ReadHead(_) => ReadHeadStep(s, e, s');
    case Swap(_) => SwapStep(s, e, s');
    case Publish(_) => PublishStep(s, e, s');
    case Acquire(_, _) => LeaseStep(s, e, s');
    case Release(_, _, _) => LeaseStep(s, e, s');
    case Apply(_) => ApplyStep(s, e, s');
    case _ => QuietStep(s, e, s');
  }

  lemma OnlySwapsRewind(s: Sys, e: Event)
    requires !e.Swap?
    ensures !Rewinds(s, e)
  {}

  // ----- linked pushes ------------------------------------------------------------------

  ghost predicate FlightLinked(commits: map<Id, CommitRow>, flight: Flight) {
    match flight
    case Storing(push, _) => PushLinked(commits, push)
    case Ranged(push) => PushLinked(commits, push)
    case Checking(_, _, _) => true
    case Swapping(_, expected, new_) => Reaches(GraphOf(commits), new_, expected)
  }

  /** Every request in flight leads forward. */
  ghost predicate AllLinked(s: Sys) {
    forall f :: f in s.flights ==> FlightLinked(s.repo.commits, s.flights[f])
  }

  /** A push that is not linked to its base does not begin here. */
  ghost predicate BeginsLinked(s: Sys, e: Event) {
    e.BeginPush? ==> PushLinked(s.repo.commits, e.push)
  }

  lemma LinkStays(c: map<Id, CommitRow>, d: map<Id, CommitRow>, push: Push)
    requires PushLinked(c, push) && Grows(c, d)
    ensures PushLinked(d, push)
  {
    hide LinkedAt;
    hide Grows;
    if push.base != "" && |push.records| > 0 {
      LinkedStays(c, d, push.base, push.records, |push.records| - 1);
    }
  }

  /** A request in flight stays linked while others register commits. */
  lemma FlightStaysLinked(c: map<Id, CommitRow>, d: map<Id, CommitRow>, flight: Flight)
    requires FlightLinked(c, flight) && Grows(c, d)
    ensures FlightLinked(d, flight)
  {
    hide Reaches;
    hide LinkedAt;
    match flight
    case Storing(push, _) => LinkStays(c, d, push);
    case Ranged(push) => LinkStays(c, d, push);
    case Checking(_, _, _) =>
    case Swapping(_, expected, new_) =>
      GraphExtends(c, d);
      ReachesExtend(GraphOf(c), GraphOf(d), new_, expected);
  }

  /** The request `f` is as it was, or has only stored more of its push. */
  ghost predicate SamePush(s: Sys, s': Sys, f: string)
    requires f in s'.flights
  {
    && f in s.flights
    && (s'.flights[f] == s.flights[f]
        || (s.flights[f].Storing? && (s'.flights[f].Storing? || s'.flights[f].Ranged?)
            && s'.flights[f].push == s.flights[f].push))
  }

  /** What one step makes of the request `f`: the same request, a stage further, or a new one. */
  lemma FlightStep(s: Sys, e: Event, s': Sys, f: string)
    requires Inv(s) && Step(s, e, s') && BeginsLinked(s, e) && f in s'.flights && !e.ReadHead?
    ensures SamePush(s, s', f) || FlightLinked(s.repo.commits, s'.flights[f])
  {
    hide Reaches;
    hide GraphOf;
    hide LinkedAt;
    hide Acyclic;
    hide Accepted;
    hide FlightOk;
  }

  lemma ReadHeadLinks(s: Sys, e: Event, s': Sys, f: string)
    requires Inv(s) && Step(s, e, s') && e.ReadHead? && f in s'.flights
    requires f in s.flights ==> FlightLinked(s.repo.commits, s.flights[f])
    ensures SamePush(s, s', f) || FlightLinked(s.repo.commits, s'.flights[f])
  {
    hide Reaches;
    hide GraphOf;
    hide LinkedAt;
    hide Acyclic;
    hide Accepted;
    if f == e.f {
      var push := s.flights[f].push;
      assert FlightOk(s.repo.commits, s.flights[f]);
      if push.base != "" {
        LinkedReaches(s.repo.commits, s.repo.commits, push.base, push.records, |push.records| - 1);
      }
    }
  }

  /** As long as only linked pushes begin, every request in flight leads forward and no step rewinds a head. */
  lemma LinkedStep(s: Sys, e: Event, s': Sys)
    requires Inv(s) && AllLinked(s) && Step(s, e, s') && BeginsLinked(s, e)
    ensures Inv(s') && AllLinked(s') && HistoryGrows(s, s') && HeadsForward(s, s')
  {
    hide Inv;
    hide Step;
    hide BeginsLinked;
    hide HeadsForward;
    StepKeeps(s, e, s');
    forall f | f in s'.flights ensures FlightLinked(s'.repo.commits, s'.flights[f]) {
      if e.ReadHead? { ReadHeadLinks(s, e, s', f); } else { FlightStep(s, e, s', f); }
      FlightGrown(s, s', f);
    }
    if e.Swap? && e.f in s.flights {
      assert FlightLinked(s.repo.commits, s.flights[e.f]);
    }
  }

  lemma FlightGrown(s: Sys, s': Sys, f: string)
    requires Grows(s.repo.commits, s'.repo.commits) && f in s'.flights
    requires f in s.flights ==> FlightLinked(s.repo.commits, s.flights[f])
    requires SamePush(s, s', f) || FlightLinked(s.repo.commits, s'.flights[f])
    ensures FlightLinked(s'.repo.commits, s'.flights[f])
  {
    hide Grows;
    hide PushLinked;
    hide Reaches;
    hide GraphOf;
    FlightStaysLinked(s.repo.commits, s'.repo.commits, s'.flights[f]);
  }

  // ----- whole runs ---------------------------------------------------------------------

  /** Any interleaving of steps from a consistent state. */
  ghost predicate Run(states: seq<Sys>, events: seq<Event>) {
    && |states| == |events| + 1 && Inv(states[0])
    && forall i :: 0 <= i < |events| ==> Step(states[i], events[i], states[i + 1])
  }

  /** A run in which every push that begins is linked to its base by what is registered at that moment. */
  ghost predicate LinkedRun(states: seq<Sys>, events: seq<Event>) {
    && Run(states, events) && AllLinked(states[0])
    && forall i :: 0 <= i < |events| ==> BeginsLinked(states[i], events[i])
  }

  /** First-parent chains are always linked, so a run of V2 pushes qualifies. */
  lemma V2RunLinked(states: seq<Sys>, events: seq<Event>)
    requires Run(states, events) && AllLinked(states[0])
    requires forall i :: 0 <= i < |events| && events[i].BeginPush? ==>
               Chain(events[i].push.base, events[i].push.records, events[i].push.target)
    ensures LinkedRun(states, events)
  {
    hide Chain;
    hide LinkedAt;
    hide Inv;
    hide AllLinked;
    forall i | 0 <= i < |events| ensures BeginsLinked(states[i], events[i]) {
      if events[i].BeginPush? {
        var push := events[i].push;
        assert Step(states[i], events[i], states[i + 1]);
        if push.base != "" && |push.records| > 0 {
          ChainLinked(states[i].repo.commits, push.base, push.records, push.target, |push.records| - 1);
        }
      }
    }
  }

  /** Whether a push leads forward is decided when it begins: whatever runs in between, once its records are
      stored its target descends from its base exactly if it was linked then. */
  lemma LinkDecidedAtBegin(states: seq<Sys>, events: seq<Event>, i: nat, k: nat)
    requires Run(states, events) && i < |events| && i <= k < |states|
    requires events[i].BeginPush? && events[i].push.base != ""
    requires Stored(states[k].repo.commits, events[i].push.records, |events[i].push.records|)
    ensures Reaches(Dag(states[k]), events[i].push.target, events[i].push.base)
            <==> PushLinked(states[i].repo.commits, events[i].push)
  {
    hide Reaches;
    hide Acyclic;
    hide PushLinked;
    hide Stored;
    RunKeeps(states, events, i, k);
    assert Step(states[i], events[i], states[i + 1]);
    hide Run;
    hide Accepted;
    AcyclicClosed(Dag(states[i]));
    AcceptedPushLinked(states[i].repo.commits, states[k].repo.commits, events[i].push);
  }

  /** So the swap of an accepted push moves its branch forward if and only if the push was linked when it began. */
  lemma SwapDecidedAtBegin(states: seq<Sys>, events: seq<Event>, i: nat, k: nat)
    requires Run(states, events) && i < k < |events|
    requires events[i].BeginPush? && events[i].push.base != ""
    requires Stored(states[k].repo.commits, events[i].push.records, |events[i].push.records|)
    requires var push := events[i].push;
             && events[k].Swap? && events[k].f in states[k].flights
             && states[k].flights[events[k].f] == Swapping(push.branch, push.base, push.target)
             && CompareAndSwapTx(states[k].repo, states[k].now, push.branch, push.base, push.target).Ok?
    ensures HeadsForward(states[k], states[k + 1]) <==> PushLinked(states[i].repo.commits, events[i].push)
  {
    hide Inv;
    hide Reaches;
    hide PushLinked;
    hide Stored;
    hide HeadsForward;
    hide CompareAndSwapTx;
    RunKeeps(states, events, k, k);
    assert Step(states[k], events[k], states[k + 1]);
    LinkDecidedAtBegin(states, events, i, k);
    hide Step;
    StepKeeps(states[k], events[k], states[k + 1]);
  }

  /** Between any two moments of any run the history only grows. */
  lemma {:induction false} RunKeeps(states: seq<Sys>, events: seq<Event>, i: nat, j: nat)
    requires Run(states, events) && i <= j < |states|
    ensures Inv(states[i]) && Inv(states[j]) && HistoryGrows(states[i], states[j])
    decreases j
  {
    hide Inv;
    hide Step;
    hide HistoryGrows;
    if i < j {
      RunKeeps(states, events, i, j - 1);
      assert Step(states[j - 1], events[j - 1], states[j]);
      StepKeeps(states[j - 1], events[j - 1], states[j]);
      GrowthComposes(states[i], states[j - 1], states[j]);
    } else if j > 0 {
      RunKeeps(states, events, i - 1, i - 1);
      assert Step(states[i - 1], events[i - 1], states[i]);
      StepKeeps(states[i - 1], events[i - 1], states[i]);
      GrowthComposes(states[i], states[i], states[i]) by { NoMove(states[i]); }
    } else {
      NoMove(states[0]);
    }
  }

  lemma GrowthComposes(s: Sys, t: Sys, u: Sys)
    requires HistoryGrows(s, t) && HistoryGrows(t, u)
    ensures HistoryGrows(s, u)
  {}

  /** A new repository satisfies the invariant. */
  lemma EmptyRepositoryInv(now: nat)
    ensures Inv(Sys(Repo(map[], map[], None, map[], map[], map[]), now, {}, map[]))
    ensures AllLinked(Sys(Repo(map[], map[], None, map[], map[], map[]), now, {}, map[]))
  {
    var rank: map<Id, nat> := map[];
    assert Ranked(GraphOf(map[]), rank);
  }

  function HeadOf(s: Sys, b: string): Id
    requires b in s.repo.branches
  {
    s.repo.branches[b].head
  }

  /** Between any two moments of a run of linked pushes: history only grows, branches stay, heads only advance. */
  lemma {:induction false} RunForward(states: seq<Sys>, events: seq<Event>, i: nat, j: nat)
    requires LinkedRun(states, events) && i <= j < |states|
    ensures Inv(states[i]) && Inv(states[j]) && AllLinked(states[j])
    ensures HistoryGrows(states[i], states[j]) && HeadsForward(states[i], states[j])
    decreases j
  {
    hide Inv;
    hide Step;
    hide AllLinked;
    hide BeginsLinked;
    hide HistoryGrows;
    hide HeadsForward;
    if j == 0 {
      NoMove(states[0]);
    } else if i < j {
      RunForward(states, events, i, j - 1);
      assert Step(states[j - 1], events[j - 1], states[j]);
      LinkedStep(states[j - 1], events[j - 1], states[j]);
      MovesCompose(states[i], states[j - 1], states[j]);
    } else {
      RunForward(states, events, i - 1, i - 1);
      assert Step(states[i - 1], events[i - 1], states[i]);
      LinkedStep(states[i - 1], events[i - 1], states[i]);
      NoMove(states[i]);
    }
  }

  lemma NoMove(s: Sys)
    ensures HistoryGrows(s, s) && HeadsForward(s, s)
  {
    hide Reaches;
    forall b | b in s.repo.branches ensures Reaches(Dag(s), HeadOf(s, b), HeadOf(s, b)) {
      ReachesSelf(Dag(s), HeadOf(s, b));
    }
  }

  lemma MovesCompose(s: Sys, t: Sys, u: Sys)
    requires HistoryGrows(s, t) && HeadsForward(s, t) && HistoryGrows(t, u) && HeadsForward(t, u)
    ensures HistoryGrows(s, u) && HeadsForward(s, u)
  {
    hide Reaches;
    hide GraphOf;
    GraphExtends(t.repo.commits, u.repo.commits);
    forall b | b in s.repo.branches ensures b in u.repo.branches && Reaches(Dag(u), HeadOf(u, b), HeadOf(s, b)) {
      ReachesExtend(Dag(t), Dag(u), HeadOf(t, b), HeadOf(s, b));
      ReachesTransitive(Dag(u), HeadOf(u, b), HeadOf(t, b), HeadOf(s, b));
    }
  }

  /** No ABA: a head that is the same at two moments never changed in between. */
  lemma NoAba(states: seq<Sys>, events: seq<Event>, i: nat, j: nat, k: nat, b: string)
    requires LinkedRun(states, events) && i <= j <= k < |states| && b in states[i].repo.branches
    ensures b in states[j].repo.branches && b in states[k].repo.branches
    ensures HeadOf(states[i], b) == HeadOf(states[k], b) ==> HeadOf(states[j], b) == HeadOf(states[i], b)
  {
    hide Reaches;
    hide Acyclic;
    hide GraphOf;
    hide Step;
    RunForward(states, events, i, j);
    RunForward(states, events, j, k);
    RunForward(states, events, i, k);
    if HeadOf(states[i], b) == HeadOf(states[k], b) {
      GraphExtends(states[j].repo.commits, states[k].repo.commits);
      ReachesExtend(Dag(states[j]), Dag(states[k]), HeadOf(states[j], b), HeadOf(states[i], b));
      ReachesAntisymmetric(Dag(states[k]), HeadOf(states[k], b), HeadOf(states[j], b));
    }
  }

  // ----- leases -------------------------------------------------------------------------

  ghost predicate Granted(s: Sys, e: Event) {
    e.Acquire? && AcquireLeaseTx(s.repo, s.now, e.lease, e.token).Ok?
  }

  ghost predicate Merged(s: Sys, e: Event) {
    e.Apply? && ApplyMergeTx(s.repo, s.now, e.merge).Ok?
  }

  /** The lease a granting step writes. */
  function LeaseOf(s: Sys, e: Event): Lease
    requires e.Acquire?
  {
    Lease(e.lease.subject, e.token, e.lease.source, e.lease.target, e.lease.base, s.now + e.lease.duration)
  }

  /** The token was issued, and wherever it still stands in the lease table it stands for `lease` on `branch`. */
  ghost predicate TokenMeans(s: Sys, token: string, branch: string, lease: Lease) {
    && token in s.issued
    && forall b :: b in s.repo.leases && s.repo.leases[b].token == token ==> b == branch && s.repo.leases[b] == lease
  }

  ghost predicate TokenSpent(s: Sys, token: string) {
    token in s.issued && forall b :: b in s.repo.leases ==> s.repo.leases[b].token != token
  }

  /** The lease table changes only by acquiring with a fresh token, releasing, or consuming. */
  lemma LeaseTableStep(s: Sys, e: Event, s': Sys, b: string)
    requires Step(s, e, s') && b in s'.repo.leases
    ensures s.issued <= s'.issued
    ensures (b in s.repo.leases && s'.repo.leases[b] == s.repo.leases[b])
            || (Granted(s, e) && b == e.lease.branch && s'.repo.leases[b] == LeaseOf(s, e) && e.token !in s.issued)
  {
    hide Reaches;
    hide GraphOf;
    hide PutAllTx;
    hide Chain;
  }

  lemma IssuedGrows(s: Sys, e: Event, s': Sys)
    requires Step(s, e, s')
    ensures s.issued <= s'.issued
  {
    hide Reaches;
    hide GraphOf;
    hide PutAllTx;
    hide Chain;
  }

  lemma {:induction false} TokenKeepsMeaning(states: seq<Sys>, events: seq<Event>, i: nat, j: nat, token: string,
                                             branch: string, lease: Lease)
    requires Run(states, events) && i <= j < |states| && TokenMeans(states[i], token, branch, lease)
    ensures TokenMeans(states[j], token, branch, lease)
    decreases j
  {
    hide Step;
    hide Inv;
    if i < j {
      TokenKeepsMeaning(states, events, i, j - 1, token, branch, lease);
      assert Step(states[j - 1], events[j - 1], states[j]);
      IssuedGrows(states[j - 1], events[j - 1], states[j]);
      forall b | b in states[j].repo.leases && states[j].repo.leases[b].token == token
        ensures b == branch && states[j].repo.leases[b] == lease
      {
        LeaseTableStep(states[j - 1], events[j - 1], states[j], b);
      }
    }
  }

  lemma {:induction false} TokenStaysSpent(states: seq<Sys>, events: seq<Event>, i: nat, j: nat, token: string)
    requires Run(states, events) && i <= j < |states| && TokenSpent(states[i], token)
    ensures TokenSpent(states[j], token)
    decreases j
  {
    hide Step;
    hide Inv;
    if i < j {
      TokenStaysSpent(states, events, i, j - 1, token);
      assert Step(states[j - 1], events[j - 1], states[j]);
      IssuedGrows(states[j - 1], events[j - 1], states[j]);
      forall b | b in states[j].repo.leases ensures states[j].repo.leases[b].token != token {
        LeaseTableStep(states[j - 1], events[j - 1], states[j], b);
      }
    }
  }

  /** What a committed merge relies on and what it writes. */
  lemma MergeFacts(s: Sys, e: Event, s': Sys)
    requires Inv(s) && Step(s, e, s') && Merged(s, e)
    ensures e.merge.branch in s.repo.branches && HeadOf(s, e.merge.branch) == e.merge.target
    ensures e.merge.branch in s.repo.leases && s.repo.leases[e.merge.branch].token == e.merge.token
    ensures s.repo.leases[e.merge.branch].source == e.merge.source
            && s.repo.leases[e.merge.branch].target == e.merge.target
    ensures TokenSpent(s', e.merge.token)
    ensures e.merge.result in s'.repo.commits
            && s'.repo.commits[e.merge.result].parents == [e.merge.target, e.merge.source]
    ensures e.merge.branch in s'.repo.branches && HeadOf(s', e.merge.branch) == e.merge.result
            && e.merge.result !in s.repo.commits
  {
    hide Reaches;
    hide Acyclic;
    hide GraphOf;
    hide FlightOk;
  }

  /** Each lease token authorises at most one merge in any run. */
  lemma TokenMergesOnce(states: seq<Sys>, events: seq<Event>, i: nat, k: nat)
    requires Run(states, events) && i < k < |events|
    requires Merged(states[i], events[i]) && Merged(states[k], events[k])
    ensures events[i].merge.token != events[k].merge.token
  {
    hide Step;
    hide Inv;
    hide ApplyMergeTx;
    hide TokenSpent;
    RunKeeps(states, events, i, i);
    RunKeeps(states, events, k, k);
    assert Step(states[i], events[i], states[i + 1]) && Step(states[k], events[k], states[k + 1]);
    MergeFacts(states[i], events[i], states[i + 1]);
    MergeFacts(states[k], events[k], states[k + 1]);
    TokenStaysSpent(states, events, i + 1, k, events[i].merge.token);
    SpentNotHeld(states[k], events[i].merge.token, events[k].merge.branch);
  }

  lemma SpentNotHeld(s: Sys, token: string, branch: string)
    requires TokenSpent(s, token) && branch in s.repo.leases
    ensures s.repo.leases[branch].token != token
  {}

  lemma ClockStep(s: Sys, e: Event, s': Sys)
    requires Step(s, e, s')
    ensures s.now <= s'.now
  {
    hide Reaches;
    hide GraphOf;
    hide PutAllTx;
    hide Chain;
  }

  /** Every lease of a run that starts without leases was granted in it, with exactly these contents, and has stood
      unchanged since; the clock never runs back. */
  lemma {:induction false} LeaseWasGranted(states: seq<Sys>, events: seq<Event>, k: nat, b: string) returns (i: nat)
    requires Run(states, events) && k < |states| && states[0].repo.leases == map[] && b in states[k].repo.leases
    ensures i < k && Granted(states[i], events[i]) && events[i].lease.branch == b
            && LeaseOf(states[i], events[i]) == states[k].repo.leases[b]
    ensures forall j :: i < j <= k ==> b in states[j].repo.leases
                                       && states[j].repo.leases[b] == states[k].repo.leases[b]
                                       && states[j].now <= states[k].now
    decreases k
  {
    hide Step;
    hide Inv;
    hide Granted;
    assert k > 0;
    assert Step(states[k - 1], events[k - 1], states[k]);
    ClockStep(states[k - 1], events[k - 1], states[k]);
    LeaseTableStep(states[k - 1], events[k - 1], states[k], b);
    if b in states[k - 1].repo.leases && states[k].repo.leases[b] == states[k - 1].repo.leases[b] {
      i := LeaseWasGranted(states, events, k - 1, b);
    } else {
      i := k - 1;
    }
  }

  lemma GrantFacts(s: Sys, e: Event, s': Sys)
    requires Inv(s) && Step(s, e, s') && Granted(s, e)
    ensures e.lease.branch in s'.repo.branches && HeadOf(s', e.lease.branch) == e.lease.target
    ensures TokenMeans(s', e.token, e.lease.branch, LeaseOf(s, e))
  {
    hide Reaches;
    hide Acyclic;
    hide GraphOf;
    hide FlightOk;
  }

  // ----- which steps move a leased head -------------------------------------------------

  ghost predicate FreshPublish(s: Sys, e: Event, b: string) {
    e.Publish? && e.pub.branch == b && PublishTx(s.repo, e.pub).Ok? && !PublishTx(s.repo, e.pub).value.1.alreadyApplied
  }

  lemma PublishMovesHead(s: Sys, e: Event, s': Sys, b: string)
    requires Inv(s) && Step(s, e, s') && FreshPublish(s, e, b)
    ensures b in s.repo.branches && b in s'.repo.branches && HeadOf(s', b) != HeadOf(s, b)
  {
    hide Reaches;
    hide Acyclic;
    hide GraphOf;
    hide FlightOk;
    hide LeasesOk;
    var pub := e.pub;
    var commits := s'.repo.commits;
    PutAllGrows(s.repo.commits, pub.commits);
    var first := pub.commits[0];
    assert Continues(pub.base, pub.commits, 0);
    assert first.id in commits && commits[first.id] == first.row;
    if pub.target == pub.base {
      LaterDescends(commits, pub.base, pub.commits, pub.target, |pub.commits| - 1);
      ReachesSelf(GraphOf(commits), first.id);
      GraphParents(commits, first.id);
      ReachesParent(GraphOf(commits), first.id, first.id, pub.base);
      ReachesAntisymmetric(GraphOf(commits), first.id, pub.base);
    }
  }

  lemma GraphParents(commits: map<Id, CommitRow>, id: Id)
    requires id in commits
    ensures GraphOf(commits)[id] == commits[id].parents
  {}

  /** In a stored chain every record descends from the first one. */
  lemma {:induction false} LaterDescends(commits: map<Id, CommitRow>, base: Id, records: seq<Record>, target: Id,
                                         n: nat)
    requires Chain(base, records, target) && Stored(commits, records, |records|) && n < |records|
    ensures Reaches(GraphOf(commits), records[n].id, records[0].id)
    decreases n
  {
    hide Reaches;
    var g := GraphOf(commits);
    var c := records[n].id;
    ReachesSelf(g, c);
    if n > 0 {
      assert Continues(base, records, n);
      ReachesParent(g, c, c, records[n - 1].id);
      LaterDescends(commits, base, records, target, n - 1);
      ReachesTransitive(g, c, records[n - 1].id, records[0].id);
    }
  }

  /** The steps that can move a head at all. */
  lemma HeadMovers(s: Sys, e: Event, s': Sys, b: string)
    requires Step(s, e, s') && b in s.repo.branches
    ensures b in s'.repo.branches
    ensures HeadOf(s', b) != HeadOf(s, b) ==>
              (Merged(s, e) && e.merge.branch == b) || FreshPublish(s, e, b)
                || (e.Swap? && !LeaseHeld(s.repo, s.now, b))
  {
    hide Reaches;
    hide GraphOf;
    hide PutAllTx;
    hide Chain;
    hide Accepted;
  }

  /** Exactly two kinds of steps move a leased head: the merge that consumes its lease, and a fresh native publish. */
  lemma LeasedHeadMoves(s: Sys, e: Event, s': Sys, b: string)
    requires Inv(s) && Step(s, e, s') && b in s.repo.branches && LeaseHeld(s.repo, s.now, b)
    ensures b in s'.repo.branches
    ensures HeadOf(s', b) != HeadOf(s, b) <==>
            (Merged(s, e) && e.merge.branch == b && s.repo.leases[b].token == e.merge.token) || FreshPublish(s, e, b)
  {
    hide Step;
    hide ApplyMergeTx;
    hide FreshPublish;
    hide Acyclic;
    hide FlightOk;
    hide LeasesOk;
    hide GraphOf;
    HeadMovers(s, e, s', b);
    if FreshPublish(s, e, b) {
      PublishMovesHead(s, e, s', b);
    } else if Merged(s, e) {
      MergeFacts(s, e, s');
      assert HeadOf(s, e.merge.branch) in s.repo.commits;
    }
  }

  // ----- no lost update -----------------------------------------------------------------

  /** While a branch is leased its head only moves forward: no swap reaches it, linked or not. */
  lemma LeasedStepForward(s: Sys, e: Event, s': Sys, b: string)
    requires Inv(s) && Step(s, e, s') && b in s.repo.branches && LeaseHeld(s.repo, s.now, b)
    ensures Inv(s') && b in s'.repo.branches && Reaches(Dag(s'), HeadOf(s', b), HeadOf(s, b))
  {
    hide Step;
    hide Inv;
    hide LeaseHeld;
    hide Reaches;
    hide Rewinds;
    StepKeeps(s, e, s');
    if e.Swap? {
      HeadMovers(s, e, s', b);
      ReachesSelf(Dag(s'), HeadOf(s, b));
    } else {
      OnlySwapsRewind(s, e);
    }
  }

  lemma {:induction false} LeasedForward(states: seq<Sys>, events: seq<Event>, i: nat, j: nat, b: string)
    requires Run(states, events) && i <= j < |states| && b in states[i].repo.branches
    requires forall l :: i <= l < j ==> LeaseHeld(states[l].repo, states[l].now, b)
    ensures b in states[j].repo.branches && Reaches(Dag(states[j]), HeadOf(states[j], b), HeadOf(states[i], b))
    decreases j
  {
    hide Step;
    hide Inv;
    hide LeaseHeld;
    hide Reaches;
    if i == j {
      ReachesSelf(Dag(states[i]), HeadOf(states[i], b));
    } else {
      LeasedForward(states, events, i, j - 1, b);
      RunKeeps(states, events, j - 1, j);
      assert Step(states[j - 1], events[j - 1], states[j]);
      LeasedStepForward(states[j - 1], events[j - 1], states[j], b);
      GraphExtends(states[j - 1].repo.commits, states[j].repo.commits);
      ReachesExtend(Dag(states[j - 1]), Dag(states[j]), HeadOf(states[j - 1], b), HeadOf(states[i], b));
      ReachesTransitive(Dag(states[j]), HeadOf(states[j], b), HeadOf(states[j - 1], b), HeadOf(states[i], b));
    }
  }

  /** A leased head that is the same at two moments never changed in between, whatever else is pushed. */
  lemma LeasedNoAba(states: seq<Sys>, events: seq<Event>, i: nat, j: nat, k: nat, b: string)
    requires Run(states, events) && i <= j <= k < |states| && b in states[i].repo.branches
    requires forall l :: i <= l < k ==> LeaseHeld(states[l].repo, states[l].now, b)
    ensures b in states[j].repo.branches && b in states[k].repo.branches
    ensures HeadOf(states[i], b) == HeadOf(states[k], b) ==> HeadOf(states[j], b) == HeadOf(states[i], b)
  {
    hide Reaches;
    hide Acyclic;
    hide GraphOf;
    hide Step;
    hide LeaseHeld;
    LeasedForward(states, events, i, j, b);
    LeasedForward(states, events, j, k, b);
    RunKeeps(states, events, j, k);
    if HeadOf(states[i], b) == HeadOf(states[k], b) {
      GraphExtends(states[j].repo.commits, states[k].repo.commits);
      ReachesExtend(Dag(states[j]), Dag(states[k]), HeadOf(states[j], b), HeadOf(states[i], b));
      ReachesAntisymmetric(Dag(states[k]), HeadOf(states[k], b), HeadOf(states[j], b));
    }
  }

  /** A lease that a merge consumes was unexpired from its grant on. */
  lemma LeaseStillHeld(s: Sys, t: Sys, e: Event)
    requires Merged(t, e) && e.merge.branch in s.repo.leases && e.merge.branch in t.repo.leases
    requires s.repo.leases[e.merge.branch] == t.repo.leases[e.merge.branch] && s.now <= t.now
    ensures LeaseHeld(s.repo, s.now, e.merge.branch)
  {}

  /** No lost update: in every run, whatever is pushed in between, a committed merge replaces exactly the head its
      lease was granted on; that head never left the branch since, native publishes included; the merge commit's
      parents are that head and then the leased source. */
  lemma NoLostUpdate(states: seq<Sys>, events: seq<Event>, k: nat) returns (i: nat)
    requires Run(states, events) && states[0].repo.leases == map[] && k < |events| && Merged(states[k], events[k])
    ensures i < k && Granted(states[i], events[i])
    ensures var merge, lease := events[k].merge, events[i].lease;
            && events[i].token == merge.token && lease.branch == merge.branch
            && lease.target == merge.target && lease.source == merge.source
            && (forall j :: i < j <= k ==>
                            merge.branch in states[j].repo.branches && HeadOf(states[j], merge.branch) == lease.target)
            && merge.branch in states[k + 1].repo.branches && HeadOf(states[k + 1], merge.branch) == merge.result
            && merge.result in states[k + 1].repo.commits
            && states[k + 1].repo.commits[merge.result].parents == [lease.target, lease.source]
  {
    hide Step;
    hide Inv;
    hide ApplyMergeTx;
    hide AcquireLeaseTx;
    hide LeaseHeld;
    RunKeeps(states, events, k, k + 1);
    assert Step(states[k], events[k], states[k + 1]);
    MergeFacts(states[k], events[k], states[k + 1]);
    var merge := events[k].merge;
    i := LeaseWasGranted(states, events, k, merge.branch);
    RunKeeps(states, events, i, i + 1);
    assert Step(states[i], events[i], states[i + 1]);
    GrantFacts(states[i], events[i], states[i + 1]);
    forall l | i < l <= k ensures LeaseHeld(states[l].repo, states[l].now, merge.branch) {
      LeaseStillHeld(states[l], states[k], events[k]);
    }
    forall j | i < j <= k
      ensures merge.branch in states[j].repo.branches && HeadOf(states[j], merge.branch) == events[i].lease.target
    {
      LeasedNoAba(states, events, i + 1, j, k, merge.branch);
    }
  }

  // ----- a publish past a lease ---------------------------------------------------------

  const LEASED_REPO := Repo(map["a" := CommitRow("snapshot", [], "author", "message", 0, 3)],
                            map["main" := Branch("a", false)], Some("main"),
                            map["main" := Lease("subject", "token", "a", "a", "a", 10)], map[], map[])
  const CHILD_OF_A := CommitRow("snapshot", ["a"], "author", "message", 0, 3)
  const CHILD_PUSH := Publication("main", "key", "a", "b", [Record("b", CHILD_OF_A)])

  lemma LeasedInv()
    ensures Inv(Sys(LEASED_REPO, 0, {"token"}, map[]))
  {
    var rank: map<Id, nat> := map["a" := 0];
    assert Ranked(GraphOf(LEASED_REPO.commits), rank);
  }

  lemma ChildPublished()
    ensures PublishTx(LEASED_REPO, CHILD_PUSH).Ok?
    ensures PublishTx(LEASED_REPO, CHILD_PUSH).value.0.branches == map["main" := Branch("b", false)]
    ensures Chain("a", CHILD_PUSH.commits, "b")
  {
    var commits := LEASED_REPO.commits;
    assert Continues("a", CHILD_PUSH.commits, 0);
    assert PutAllTx(commits, CHILD_PUSH.commits[..0]) == Ok(commits) by { assert CHILD_PUSH.commits[..0] == []; }
    assert PutCommitTx(commits, "b", CHILD_OF_A).Ok?;
  }

  /** A concrete native publish that moves a head while its merge lease is held. */
  lemma PublishIgnoresLease() returns (s: Sys, e: Event, s': Sys)
    ensures Inv(s) && Step(s, e, s') && e.Publish?
    ensures LeaseHeld(s.repo, s.now, "main") && "main" in s.repo.branches && "main" in s'.repo.branches
    ensures HeadOf(s, "main") == "a" && HeadOf(s', "main") == "b"
  {
    hide Inv;
    hide Chain;
    hide PublishTx;
    LeasedInv();
    ChildPublished();
    s := Sys(LEASED_REPO, 0, {"token"}, map[]);
    e := Publish(CHILD_PUSH);
    s' := AfterPublish(s, PublishTx(s.repo, CHILD_PUSH));
  }
}
