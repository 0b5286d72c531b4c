// What holds of the metadata store over whole runs: a held lease is exclusive, pack rows never change, the default
// branch stays, and deleted names stay taken.
module StoreLaws {
  import opened Wrappers
  import opened CommitGraph
  import opened RackStore
  import opened RackRuns
  import PullRuns

  // ----- leases -------------------------------------------------------------------------

  /** The branch has a lease that has not expired. */
  predicate Leased(s: Sys, b: string) {
    b in s.repo.leases && s.now < s.repo.leases[b].expires
  }

  /** The step releases this lease, in its subject's name and with its token. */
  predicate Releases(e: Event, b: string, lease: Lease) {
    e == Release(b, lease.subject, lease.token)
  }

  /** The step commits the merge that this lease was granted for, in its subject's name and with its token. */
  ghost predicate Consumes(e: Event, s': Sys, b: string, lease: Lease) {
    && e.Apply? && e.merge.branch == b
    && lease == Lease(e.merge.subject, e.merge.token, e.merge.source, e.merge.target, e.merge.base, lease.expires)
    && b in s'.repo.branches && s'.repo.branches[b].head == e.merge.result && e.merge.result in s'.repo.commits
  }

  /** A held lease is exclusive: no step changes or removes it but its own release and its own merge. */
  lemma LeaseExclusive(s: Sys, e: Event, s': Sys, b: string)
    requires Step(s, e, s') && Leased(s, b)
    ensures var lease := s.repo.leases[b];
            || (b in s'.repo.leases && s'.repo.leases[b] == lease)
            || (b !in s'.repo.leases && (Releases(e, b, lease) || Consumes(e, s', b, lease)))
  {
    if e.Apply? {
      MergeConsumes(s, e, s', b);
    } else {
      hide Reaches;
      hide GraphOf;
      hide PutAllTx;
      hide Chain;
      hide Accepted;
      hide PutCommitTx;
      hide PutPackRangeTx;
      hide ApplyMergeTx;
    }
  }

  lemma MergeConsumes(s: Sys, e: Event, s': Sys, b: string)
    requires Step(s, e, s') && b in s.repo.leases && e.Apply?
    ensures var lease := s.repo.leases[b];
            || (b in s'.repo.leases && s'.repo.leases[b] == lease)
            || (b !in s'.repo.leases && Consumes(e, s', b, lease))
  {
    hide Reaches;
    hide GraphOf;
    if ApplyMergeTx(s.repo, s.now, e.merge).Ok? {
      ApplyFrame(s, e, s');
    }
  }

  /** So over any run a lease stands, unchanged, until it expires or its holder gives it up. */
  lemma {:induction false} LeaseStands(states: seq<Sys>, events: seq<Event>, i: nat, k: nat, b: string)
    requires Run(states, events) && i <= k < |states| && b in states[i].repo.leases
    requires forall j :: i <= j < k ==> states[j].now < states[i].repo.leases[b].expires
    requires forall j :: i <= j < k ==> !Releases(events[j], b, states[i].repo.leases[b])
                                        && !Consumes(events[j], states[j + 1], b, states[i].repo.leases[b])
    ensures b in states[k].repo.leases && states[k].repo.leases[b] == states[i].repo.leases[b]
    decreases k
  {
    hide Step;
    hide Inv;
    hide Consumes;
    if i < k {
      LeaseStands(states, events, i, k - 1, b);
      assert Step(states[k - 1], events[k - 1], states[k]);
      LeaseExclusive(states[k - 1], events[k - 1], states[k], b);
    }
  }

  /** The request is complete, names the branch's current head as its target and recorded commits, and nobody else
      holds the branch. */
  predicate Grantable(s: Sys, req: LeaseRequest) {
    && req.branch != "" && req.subject != "" && req.duration > 0
    && req.source != "" && req.target != "" && req.base != ""
    && req.branch in s.repo.branches && s.repo.branches[req.branch].head == req.target
    && req.source in s.repo.commits && req.target in s.repo.commits && req.base in s.repo.commits
    && !Leased(s, req.branch)
  }

  /** Acquiring writes exactly this row, exactly if the request can be granted. */
  lemma LeaseGrantedExactly(s: Sys, e: Event, s': Sys)
    requires Inv(s) && Step(s, e, s') && e.Acquire?
    ensures var req := e.lease;
            && s'.repo == (if !Grantable(s, req) then s.repo
                           else s.repo.(leases := s.repo.leases[req.branch :=
                             Lease(req.subject, e.token, req.source, req.target, req.base, s.now + req.duration)]))
            && (Grantable(s, req) <==> exists b :: b in s'.repo.leases && s'.repo.leases[b].token == e.token)
  {
    hide Reaches;
    hide GraphOf;
    hide Acyclic;
    hide FlightOk;
    if Grantable(s, e.lease) {
      assert e.lease.branch in s'.repo.leases && s'.repo.leases[e.lease.branch].token == e.token;
    }
  }

  // ----- registering commits ------------------------------------------------------------

  /** What the `i`-th record of a batch needs: the same row under its id wherever that occurs before, and parents that
      are registered or are the commit itself or an earlier one of the batch. */
  predicate Fits(commits: map<Id, CommitRow>, records: seq<Record>, i: nat)
    requires i < |records|
  {
    if records[i].id in commits then commits[records[i].id] == records[i].row
    else
      && (forall j :: 0 <= j < i && records[j].id == records[i].id ==> records[j].row == records[i].row)
      && (forall p :: p in records[i].row.parents ==>
                      p in commits || exists j :: 0 <= j <= i && records[j].id == p)
  }

  /** `c` is what there was together with the records. */
  ghost predicate Joined(commits: map<Id, CommitRow>, records: seq<Record>, c: map<Id, CommitRow>) {
    && (forall id :: id in c <==> id in commits || exists i :: 0 <= i < |records| && records[i].id == id)
    && (forall id :: id in commits ==> c[id] == commits[id])
    && (forall i :: 0 <= i < |records| ==> records[i].id in c && c[records[i].id] == records[i].row)
  }

  /** A batch is registered exactly if each of its records fits, and then its records join the rows there are. */
  lemma {:induction false} RegisteredExactly(commits: map<Id, CommitRow>, records: seq<Record>)
    ensures PutAllTx(commits, records).Ok? <==> forall i :: 0 <= i < |records| ==> Fits(commits, records, i)
    ensures PutAllTx(commits, records).Ok? ==> Joined(commits, records, PutAllTx(commits, records).value)
    decreases |records|
  {
    if records == [] {
      assert PutAllTx(commits, records) == Ok(commits);
    } else {
      hide Fits;
      hide Joined;
      hide PutCommitTx;
      var n := |records| - 1;
      var front := records[..n];
      RegisteredExactly(commits, front);
      forall i | 0 <= i < n ensures Fits(commits, front, i) <==> Fits(commits, records, i) {
        FitsBefore(commits, records, i, n);
      }
      if PutAllTx(commits, front).Ok? {
        LastRegistered(commits, records, PutAllTx(commits, front).value);
      }
    }
  }

  lemma FitsBefore(commits: map<Id, CommitRow>, records: seq<Record>, i: nat, n: nat)
    requires i < n <= |records|
    ensures Fits(commits, records[..n], i) <==> Fits(commits, records, i)
  {
    var front := records[..n];
    assert forall j :: 0 <= j <= i ==> front[j] == records[j];
  }

  /** The last record is registered over the others exactly if it fits. */
  lemma LastRegistered(commits: map<Id, CommitRow>, records: seq<Record>, c: map<Id, CommitRow>)
    requires |records| > 0 && Joined(commits, records[..|records| - 1], c)
    requires forall i :: 0 <= i < |records| - 1 ==> Fits(commits, records, i)
    ensures var last := records[|records| - 1];
            && (PutCommitTx(c, last.id, last.row).Ok? <==> Fits(commits, records, |records| - 1))
            && (PutCommitTx(c, last.id, last.row).Ok? ==>
                  Joined(commits, records, PutCommitTx(c, last.id, last.row).value))
  {
    var n := |records| - 1;
    var front := records[..n];
    var id, row := records[n].id, records[n].row;
    assert forall i :: 0 <= i < n ==> front[i] == records[i];
    if id in c && id !in commits {
      var j :| 0 <= j < n && front[j].id == id;
      assert Fits(commits, records, j);
    }
    if PutCommitTx(c, id, row).Ok? {
      assert PutCommitTx(c, id, row).value == c[id := row];
      GrowsByOne(commits, records, c);
    }
  }

  lemma GrowsByOne(commits: map<Id, CommitRow>, records: seq<Record>, c: map<Id, CommitRow>)
    requires |records| > 0 && Joined(commits, records[..|records| - 1], c)
    requires var last := records[|records| - 1]; last.id in c ==> c[last.id] == last.row
    ensures Joined(commits, records, c[records[|records| - 1].id := records[|records| - 1].row])
  {
    var front := records[..|records| - 1];
    assert forall i :: 0 <= i < |front| ==> front[i] == records[i];
  }

  /** A fresh publication is carried out exactly if it is complete, starts at the branch's head, and its commits can be
      registered and include the new head, unless that was registered before. */
  lemma PublishedExactly(r: Repo, pub: Publication)
    requires pub.key !in r.pushes
    ensures PublishTx(r, pub).Ok? <==>
              && pub.branch != "" && pub.key != "" && pub.base != "" && pub.target != "" && pub.commits != []
              && pub.branch in r.branches && r.branches[pub.branch].head == pub.base
              && (forall i :: 0 <= i < |pub.commits| ==> Fits(r.commits, pub.commits, i))
              && (pub.target in r.commits || exists i :: 0 <= i < |pub.commits| && pub.commits[i].id == pub.target)
  {
    hide PutAllTx;
    hide Fits;
    RegisteredExactly(r.commits, pub.commits);
  }

  // ----- pack rows ----------------------------------------------------------------------

  lemma RangesStay(s: Sys, e: Event, s': Sys)
    requires Step(s, e, s')
    ensures forall h :: h in s.repo.ranges ==> h in s'.repo.ranges && s'.repo.ranges[h] == s.repo.ranges[h]
  {
    hide Step;
    hide ApplyMergeTx;
    hide PutPackRangeTx;
    if e.PutRange? {
      PullRuns.PutRangeFrame(s, e, s');
      var push := s.flights[e.f].push;
      if PutPackRangeTx(s.repo, push.hash, RangeOf(push)).Ok? {
        PullRuns.PutRangeAdds(s.repo, push.hash, RangeOf(push));
      }
    } else if e.Apply? {
      if ApplyMergeTx(s.repo, s.now, e.merge).Ok? {
        PullRuns.ApplyAdds(s, e, s');
      } else {
        ApplyRefused(s, e, s');
      }
    } else {
      PullRuns.RangesFrame(s, e, s');
    }
  }

  /** A stored pack row never changes or disappears. */
  lemma {:induction false} PackRowsImmutable(states: seq<Sys>, events: seq<Event>, i: nat, j: nat, h: string)
    requires Run(states, events) && i <= j < |states| && h in states[i].repo.ranges
    ensures h in states[j].repo.ranges && states[j].repo.ranges[h] == states[i].repo.ranges[h]
    decreases j
  {
    hide Step;
    hide Inv;
    if i < j {
      PackRowsImmutable(states, events, i, j - 1, h);
      assert Step(states[j - 1], events[j - 1], states[j]);
      RangesStay(states[j - 1], events[j - 1], states[j]);
    }
  }

  // ----- branches -----------------------------------------------------------------------

  /** A repository has a default branch as soon as it has branches, and that one is not deleted. */
  predicate DefaultLive(r: Repo) {
    match r.defaultBranch
    case None => r.branches == map[]
    case Some(b) => b in r.branches && !r.branches[b].deleted
  }

  /** What one step does to the names of branches. */
  lemma BranchNamesStep(s: Sys, e: Event, s': Sys)
    requires Step(s, e, s')
    ensures forall b :: b in s.repo.branches && s.repo.branches[b].deleted ==>
                        b in s'.repo.branches && s'.repo.branches[b].deleted
    ensures DefaultLive(s.repo) ==> DefaultLive(s'.repo)
    ensures s.repo.defaultBranch.Some? ==> s'.repo.defaultBranch == s.repo.defaultBranch
  {
    if e.Create? || e.Delete? {
      hide Reaches;
      hide GraphOf;
    } else {
      NamesUntouched(s, e, s');
    }
  }

  /** No other step touches names, deletions or the default branch. */
  lemma NamesUntouched(s: Sys, e: Event, s': Sys)
    requires Step(s, e, s') && !e.Create? && !e.Delete?
    ensures s'.repo.defaultBranch == s.repo.defaultBranch && s'.repo.branches.Keys == s.repo.branches.Keys
    ensures forall b :: b in s.repo.branches ==> s'.repo.branches[b].deleted == s.repo.branches[b].deleted
  {
    hide Reaches;
    hide GraphOf;
    hide PutAllTx;
    hide Chain;
    hide Accepted;
    hide PutCommitTx;
    hide MergeCommit;
    hide CheckLease;
  }

  /** Once a repository has a default branch it keeps it, undeleted, and a deleted branch stays deleted. */
  lemma {:induction false} BranchesKept(states: seq<Sys>, events: seq<Event>, i: nat, j: nat)
    requires Run(states, events) && i <= j < |states| && DefaultLive(states[i].repo)
    ensures DefaultLive(states[j].repo)
    ensures states[i].repo.defaultBranch.Some? ==> states[j].repo.defaultBranch == states[i].repo.defaultBranch
    ensures forall b :: b in states[i].repo.branches && states[i].repo.branches[b].deleted ==>
                        b in states[j].repo.branches && states[j].repo.branches[b].deleted
    decreases j
  {
    hide Step;
    hide Inv;
    hide DefaultLive;
    if i < j {
      BranchesKept(states, events, i, j - 1);
      assert Step(states[j - 1], events[j - 1], states[j]);
      BranchNamesStep(states[j - 1], events[j - 1], states[j]);
    }
  }
}
