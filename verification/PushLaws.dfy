// Repeating a push, and what decides at the head (internal/server/sync/push.go).
module PushLaws {
  import opened Wrappers
  import opened Wire
  import opened CommitGraph
  import opened Framing
  import opened RackStore
  import opened RackRuns
  import opened PushEngine

  /** What a push has to be to pass the checks: complete, of an admitted format, over a registered base of the current
      format; its bytes have the announced hash and decode to a valid frame with the announced range and commits. */
  lemma CheckedMeans(k: Contract, snapshotOk: Id -> bool, commits: map<Id, CommitRow>, minFormat: nat,
                     req: PushRequest)
    requires Checked(k, snapshotOk, commits, minFormat, req)
    ensures "" !in {req.branch, req.target, req.packHash}
    ensures minFormat <= (if req.packFormat == 0 then 2 else req.packFormat) <= 3
    ensures req.base != "" ==> req.base in commits && commits[req.base].format == 2
    ensures k.contentId(req.data) == req.packHash && |req.data| <= 64 * 1024 * 1024
    ensures k.frames.decode(req.data).Some?
    ensures var f := k.frames.decode(req.data).value;
            && k.frames.encode(f) == req.data && f.base.id == req.base && f.target.id == req.target
            && f.version == (if req.packFormat == 3 then 3 else 2) && (req.base != "" ==> f.base.format == 2)
            && |f.commits| == |req.records| > 0
            && forall i :: 0 <= i < |f.commits| ==> RecordIs(k, snapshotOk, f.commits[i], req.records[i])
    ensures req.packFormat == 3 ==> forall i, p :: 0 <= i < |req.records| && p in req.records[i].row.parents ==>
                                                   || p in commits || p == req.base
                                                   || exists j :: 0 <= j < i && req.records[j].id == p
  {
    hide Identity;
    hide RecordIs;
    var f :| Matches(k, snapshotOk, req, f);
    FrameMeans(k, FrameFormat(req.packFormat), req.data, f);
    forall i | 0 <= i < |f.commits| ensures RecordIs(k, snapshotOk, f.commits[i], req.records[i]) {
      MatchedRecordIs(k, snapshotOk, req, f, i);
    }
    hide Unframe;
    hide RecordsOf;
  }

  /** The record registers this commit: its identity, its parents in order, and everything else it says. */
  ghost predicate RecordIs(k: Contract, snapshotOk: Id -> bool, c: CommitFrame, r: Record) {
    && Identity(k, c) == Some(CommitIdentity(2, r.id)) && snapshotOk(c.snapshotRoot)
    && r.row == CommitRow(c.snapshotRoot, r.row.parents, c.author, c.message, c.time, 2)
    && |r.row.parents| == |c.parents| && forall n :: 0 <= n < |c.parents| ==> r.row.parents[n] == c.parents[n].id
  }

  lemma MatchedRecordIs(k: Contract, snapshotOk: Id -> bool, req: PushRequest, f: PackFrame, i: nat)
    requires Matches(k, snapshotOk, req, f) && i < |f.commits|
    ensures |req.records| == |f.commits| && RecordIs(k, snapshotOk, f.commits[i], req.records[i])
  {
    hide Identity;
    hide Unframe;
    assert req.records[i] == RecordsOf(k, f)[i];
    assert Identity(k, f.commits[i]).value.format == COMMIT_FORMAT_V2;
  }

  /** And each such push passes them. */
  lemma ChecksPass(k: Contract, snapshotOk: Id -> bool, commits: map<Id, CommitRow>, minFormat: nat,
                   req: PushRequest, f: PackFrame)
    requires "" !in {req.branch, req.target, req.packHash}
    requires minFormat <= (if req.packFormat == 0 then 2 else req.packFormat) <= 3
    requires req.base != "" ==> req.base in commits && commits[req.base].format == 2 && f.base.format == 2
    requires k.contentId(req.data) == req.packHash
    requires Unframe(k, if req.packFormat == 3 then 3 else 2, req.data) == Some(f)
    requires f.base.id == req.base && f.target.id == req.target && |f.commits| == |req.records|
    requires forall i :: 0 <= i < |f.commits| ==> RecordIs(k, snapshotOk, f.commits[i], req.records[i])
    requires req.packFormat == 3 ==> forall i, p :: 0 <= i < |req.records| && p in req.records[i].row.parents ==>
                                                    || p in commits || (req.base != "" && p == req.base)
                                                    || exists j :: 0 <= j < i && req.records[j].id == p
    ensures Checked(k, snapshotOk, commits, minFormat, req)
  {
    hide *;
    FormatsAgree(req.packFormat);
    AllMatch(k, snapshotOk, req, f);
    ParentsStand(commits, req);
    Assemble(k, snapshotOk, commits, minFormat, req, f);
  }

  lemma FormatsAgree(format: nat)
    ensures FrameFormat(format) == (if format == 3 then 3 else 2)
    ensures NormalizePackFormat(format) == (if format == 0 then 2 else format) && PACK_FORMAT_V3 == 3
  {}

  lemma ParentsStand(commits: map<Id, CommitRow>, req: PushRequest)
    ensures (forall i, p :: 0 <= i < |req.records| && p in req.records[i].row.parents ==>
                            || p in commits || (req.base != "" && p == req.base)
                            || exists j :: 0 <= j < i && req.records[j].id == p)
            <==> AllParentsKnown(commits, req.base, req.records)
  {}

  lemma Assemble(k: Contract, snapshotOk: Id -> bool, commits: map<Id, CommitRow>, minFormat: nat,
                 req: PushRequest, f: PackFrame)
    requires req.branch != "" && req.target != "" && req.packHash != "" && Matches(k, snapshotOk, req, f)
    requires minFormat <= NormalizePackFormat(req.packFormat) <= PACK_FORMAT_V3
    requires req.base != "" ==> req.base in commits && commits[req.base].format == 2 && f.base.format == 2
    requires NormalizePackFormat(req.packFormat) == PACK_FORMAT_V3 ==> AllParentsKnown(commits, req.base, req.records)
    ensures Checked(k, snapshotOk, commits, minFormat, req)
  {
    hide Matches;
    hide AllParentsKnown;
  }

  lemma AllMatch(k: Contract, snapshotOk: Id -> bool, req: PushRequest, f: PackFrame)
    requires k.contentId(req.data) == req.packHash
    requires Unframe(k, FrameFormat(req.packFormat), req.data) == Some(f)
    requires f.base.id == req.base && f.target.id == req.target && |f.commits| == |req.records|
    requires forall i :: 0 <= i < |f.commits| ==> RecordIs(k, snapshotOk, f.commits[i], req.records[i])
    ensures Matches(k, snapshotOk, req, f)
  {
    hide Identity;
    hide Unframe;
    hide RecordIs;
    forall i | 0 <= i < |f.commits|
      ensures snapshotOk(f.commits[i].snapshotRoot) && Identity(k, f.commits[i]).Some?
              && req.records[i] == RecordOf(k, f.commits[i])
    {
      RecordMatches(k, snapshotOk, f.commits[i], req.records[i]);
    }
    assert req.records == RecordsOf(k, f);
  }

  function RecordOf(k: Contract, c: CommitFrame): Record
    requires Identity(k, c).Some?
  {
    Record(Identity(k, c).value.id, CommitRow(c.snapshotRoot, ParentIds(c), c.author, c.message, c.time, 2))
  }

  lemma RecordMatches(k: Contract, snapshotOk: Id -> bool, c: CommitFrame, r: Record)
    requires RecordIs(k, snapshotOk, c, r)
    ensures snapshotOk(c.snapshotRoot) && Identity(k, c) == Some(CommitIdentity(2, r.id))
    ensures r == RecordOf(k, c)
  {
    hide Identity;
    assert r.row.parents == ParentIds(c);
  }

  /** Registering stored commits once more changes nothing. */
  lemma {:induction false} PutAllAgain(commits: map<Id, CommitRow>, records: seq<Record>)
    requires Stored(commits, records, |records|)
    ensures PutAllTx(commits, records) == Ok(commits)
    decreases |records|
  {
    if records != [] {
      var n := |records| - 1;
      PutAllAgain(commits, records[..n]);
      assert records[n].id in commits && commits[records[n].id] == records[n].row;
    }
  }

  /** A push whose commits and pack row are all stored goes straight to the head. */
  lemma RepeatedPush(r: Repo, now: nat, req: PushRequest)
    requires Stored(r.commits, req.records, |req.records|) && req.packHash in r.ranges
    requires r.ranges[req.packHash] == RangeRow(req.base, req.target, NormalizePackFormat(req.packFormat))
    ensures PushTx(r, now, req) == HeadTx(r, now, req)
  {
    hide HeadTx;
    PutAllAgain(r.commits, req.records);
    assert r.(commits := r.commits) == r;
  }

  /** A pack whose hash stands for another row is refused. */
  lemma OtherRowRefused(r: Repo, now: nat, req: PushRequest)
    requires Stored(r.commits, req.records, |req.records|) && req.packHash in r.ranges
    requires r.ranges[req.packHash] != RangeRow(req.base, req.target, NormalizePackFormat(req.packFormat))
    ensures PushTx(r, now, req) == Err(StoreFailure(ImmutableMetadataMismatch))
  {
    hide HeadTx;
    PutAllAgain(r.commits, req.records);
  }

  /** The repository still has what `r` has: commits and pack rows. */
  ghost predicate Keeps(r: Repo, q: Repo) {
    && Grows(r.commits, q.commits)
    && forall h :: h in r.ranges ==> h in q.ranges && q.ranges[h] == r.ranges[h]
  }

  /** The push got as far as the head: its commits and its row are stored. */
  ghost predicate ReachedHead(r: Repo, req: PushRequest) {
    && PutAllTx(r.commits, req.records).Ok?
    && PutPackRangeTx(r.(commits := PutAllTx(r.commits, req.records).value), req.packHash, RangeOf(AsPush(req))).Ok?
  }

  /** Growing the history never spoils a check. */
  lemma CheckedStays(k: Contract, snapshotOk: Id -> bool, c: map<Id, CommitRow>, d: map<Id, CommitRow>, minFormat: nat,
                     req: PushRequest)
    requires Checked(k, snapshotOk, c, minFormat, req) && Grows(c, d)
    ensures Checked(k, snapshotOk, d, minFormat, req)
  {
    hide Matches;
  }

  /** A push that was refused at the head can be repeated: whatever was registered since, it passes its checks again,
      and its outcome is that of the head step, so it succeeds as soon as that does. */
  lemma RetriedPush(k: Contract, snapshotOk: Id -> bool, r: Repo, minFormat: nat, req: PushRequest, q: Repo, later: nat)
    requires Checked(k, snapshotOk, r.commits, minFormat, req) && NoSelfParents(k)
    requires Acyclic(GraphOf(r.commits)) && "" !in r.commits && ReachedHead(r, req)
    requires Keeps(Written(r, PutAllTx(r.commits, req.records).value, req), q)
    ensures Checked(k, snapshotOk, q.commits, minFormat, req)
    ensures PushTx(q, later, req) == HeadTx(q, later, req)
  {
    hide Matches;
    hide HeadTx;
    hide PushTx;
    hide Reaches;
    CheckedPushBegins(k, snapshotOk, r.commits, minFormat, req);
    AcceptedNamed(r.commits, AsPush(req));
    hide Accepted;
    hide Checked;
    hide NoSelfParents;
    PutAllGrows(r.commits, req.records);
    hide Acyclic;
    hide GraphOf;
    var commits := PutAllTx(r.commits, req.records).value;
    RangeFrame(r.(commits := commits), req.packHash, RangeOf(AsPush(req)));
    CheckedStays(k, snapshotOk, r.commits, q.commits, minFormat, req);
    RepeatedPush(q, later, req);
  }

  /** The branch has an unexpired lease. */
  predicate LeasedAt(r: Repo, now: nat, b: string) {
    b in r.leases && now < r.leases[b].expires
  }

  /** When the head step succeeds: a new branch without a base; nothing to do; or a branch without a lease that stands
      at the base or, for a push without a base, at an ancestor of the target. */
  lemma HeadStepSucceeds(r: Repo, now: nat, req: PushRequest)
    requires req.target in r.commits && req.target != "" && "" !in r.commits && HeadsIn(r.branches, r.commits)
    ensures HeadTx(r, now, req).Ok? <==>
              if req.branch !in r.branches then req.base == ""
              else
                var head := r.branches[req.branch].head;
                || (req.base == "" && head == req.target)
                || (!LeasedAt(r, now, req.branch)
                    && (head == req.base || (req.base == "" && Reaches(GraphOf(r.commits), req.target, head))))
  {
    hide Reaches;
    hide GraphOf;
  }

  /** Why it fails otherwise: the branch is missing; or it stands elsewhere, and the answer names its head; or a lease
      is the reason, and the push may be repeated later. */
  lemma HeadStepFails(r: Repo, now: nat, req: PushRequest)
    requires req.target in r.commits && req.target != "" && "" !in r.commits && HeadsIn(r.branches, r.commits)
    requires HeadTx(r, now, req).Err?
    ensures HeadTx(r, now, req).error == (
              if req.branch !in r.branches then StoreFailure(BranchNotFound)
              else
                var head := r.branches[req.branch].head;
                if head == req.base || (req.base == "" && Reaches(GraphOf(r.commits), req.target, head)) then
                  StoreFailure(MergeLeaseHeld)
                else NonFastForwardPush(head))
  {
    hide Reaches;
    hide GraphOf;
  }

  /** A branch at the base moves unless it is leased. */
  lemma HeadStepLeased(r: Repo, now: nat, req: PushRequest)
    requires req.target in r.commits && req.branch in r.branches && r.branches[req.branch].head == req.base
    ensures HeadTx(r, now, req) == (if LeasedAt(r, now, req.branch) then Err(StoreFailure(MergeLeaseHeld))
                                    else Ok(MoveHead(r, req.branch, req.target)))
  {}
}
