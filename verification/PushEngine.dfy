// The push pipelines: HandlePush (internal/server/sync/push.go) and the commit checks of native pushes
// (internal/server/nativepush/nativepush.go).
module PushEngine {
  import opened Wrappers
  import opened Wire
  import opened CommitGraph
  import opened Framing
  import opened RackStore
  import opened RackRuns
  import Ancestry

  /** The metadata rows of a frame's commits, in frame order. */
  function RecordsOf(k: Contract, f: PackFrame): (records: seq<Record>)
    requires forall i :: 0 <= i < |f.commits| ==> Identity(k, f.commits[i]).Some?
    ensures |records| == |f.commits|
  {
    seq(|f.commits|, i requires 0 <= i < |f.commits| =>
      var c := f.commits[i];
      Record(Identity(k, c).value.id,
             CommitRow(c.snapshotRoot, ParentIds(c), c.author, c.message, c.time, COMMIT_FORMAT_V2)))
  }

  /** Content addressing: no commit hash occurs among the parents hashed into it, and none is empty. */
  ghost predicate NoSelfParents(k: Contract) {
    forall f: CommitFrame :: Identity(k, f).Some? ==>
                             Identity(k, f).value.id !in ParentIds(f) && Identity(k, f).value.id != ""
  }

  /** The records of the frame are a first-parent chain from its base to its target. */
  ghost predicate RecordsChain(k: Contract, f: PackFrame) {
    && (forall i :: 0 <= i < |f.commits| ==> Identity(k, f.commits[i]).Some?)
    && Chain(f.base.id, RecordsOf(k, f), f.target.id)
  }

  /** A valid V2 frame carries such a chain. */
  lemma V2FrameIsChain(k: Contract, f: PackFrame)
    requires WellFramedV2(k, f) && NoSelfParents(k)
    ensures RecordsChain(k, f)
  {
    hide *;
    FrameEnds(k, f);
    FrameRecords(k, f);
    ChainOfRecords(k, f);
  }

  lemma ChainOfRecords(k: Contract, f: PackFrame)
    requires forall i :: 0 <= i < |f.commits| ==> Identity(k, f.commits[i]).Some?
    requires |f.commits| > 0 && RecordsOf(k, f)[|f.commits| - 1].id == f.target.id
    requires forall i :: 0 <= i < |f.commits| ==> Continues(f.base.id, RecordsOf(k, f), i)
    requires forall i :: 0 <= i < |f.commits| ==>
                         RecordsOf(k, f)[i].id !in RecordsOf(k, f)[i].row.parents && RecordsOf(k, f)[i].id != ""
    ensures RecordsChain(k, f)
  {
    hide Identity;
    hide RecordsOf;
    hide Continues;
  }

  lemma FrameRecords(k: Contract, f: PackFrame)
    requires NoSelfParents(k) && Chained(k, f, |f.commits|) && (f.base == NO_COMMIT || f.base.id != "")
    ensures forall i :: 0 <= i < |f.commits| ==> Continues(f.base.id, RecordsOf(k, f), i)
    ensures forall i :: 0 <= i < |f.commits| ==>
                        RecordsOf(k, f)[i].id !in RecordsOf(k, f)[i].row.parents && RecordsOf(k, f)[i].id != ""
  {
    hide NoSelfParents;
    hide Continues;
    hide Identity;
    forall i | 0 <= i < |f.commits|
      ensures Continues(f.base.id, RecordsOf(k, f), i)
      ensures RecordsOf(k, f)[i].id !in RecordsOf(k, f)[i].row.parents && RecordsOf(k, f)[i].id != ""
    {
      FrameRecord(k, f, i);
    }
  }

  lemma FrameEnds(k: Contract, f: PackFrame)
    requires WellFramedV2(k, f)
    ensures Chained(k, f, |f.commits|) && (forall i :: 0 <= i < |f.commits| ==> Identity(k, f.commits[i]).Some?)
    ensures f.base == NO_COMMIT || f.base.id != ""
    ensures |f.commits| > 0 && RecordsOf(k, f)[|f.commits| - 1].id == f.target.id
  {
    hide Identity;
    hide ObjectsValid;
    hide SnapshotsPresent;
  }

  lemma FrameRecord(k: Contract, f: PackFrame, i: nat)
    requires NoSelfParents(k) && Chained(k, f, |f.commits|) && i < |f.commits|
             && (f.base == NO_COMMIT || f.base.id != "")
    ensures Continues(f.base.id, RecordsOf(k, f), i)
    ensures RecordsOf(k, f)[i].id !in RecordsOf(k, f)[i].row.parents && RecordsOf(k, f)[i].id != ""
  {
    hide Identity;
    var c := f.commits[i];
    assert Identity(k, c).Some?;
    if c.parents != [] {
      assert c.parents[0] in c.parents && c.parents[0] == Previous(k, f, i);
      IdentityParents(k, c);
    }
  }

  lemma IdentityParents(k: Contract, c: CommitFrame)
    requires Identity(k, c).Some?
    ensures forall p :: p in c.parents ==> p.id != ""
  {}

  // ----- native pushes ------------------------------------------------------------------

  /** Every merge parent is an earlier commit of the push or already registered. */
  ghost predicate MergeParentsKnown(commits: map<Id, CommitRow>, records: seq<Record>, n: nat)
    requires n <= |records|
  {
    forall i, j :: 0 <= i < n && 1 <= j < |records[i].row.parents| ==>
      records[i].row.parents[j] in commits || exists l :: 0 <= l < i && records[l].id == records[i].row.parents[j]
  }

  function PreviousId(base: Id, records: seq<Record>, i: nat): Id
    requires i <= |records|
  {
    if i == 0 then base else records[i - 1].id
  }

  ghost predicate Follows(base: Id, records: seq<Record>, i: nat)
    requires i < |records|
  {
    records[i].row.parents != [] && records[i].row.parents[0] == PreviousId(base, records, i)
  }

  /** The first `n` commits are a first-parent chain that starts at the base. */
  ghost predicate FirstParents(base: Id, records: seq<Record>, n: nat)
    requires n <= |records|
  {
    forall i :: 0 <= i < n ==> Follows(base, records, i)
  }

  /** What the two conditions say of each commit: it has a first parent, and that is the commit before it or the base;
      and its other parents are registered or earlier commits of the push. */
  lemma DagMeans(commits: map<Id, CommitRow>, base: Id, records: seq<Record>)
    ensures FirstParents(base, records, |records|) && MergeParentsKnown(commits, records, |records|) <==>
              && (forall i :: 0 <= i < |records| ==>
                    records[i].row.parents != []
                      && records[i].row.parents[0] == if i == 0 then base else records[i - 1].id)
              && (forall i, n :: 0 <= i < |records| && 1 <= n < |records[i].row.parents| ==>
                    var p := records[i].row.parents[n];
                    p in commits || exists j :: 0 <= j < i && records[j].id == p)
  {
    if FirstParents(base, records, |records|) {
      forall i | 0 <= i < |records|
        ensures records[i].row.parents != []
                && records[i].row.parents[0] == if i == 0 then base else records[i - 1].id
      {
        assert Follows(base, records, i);
      }
    }
  }

  /** verifyCommitDAG; `snapshotOk` says whether a snapshot object is present and valid. */
  method VerifyCommitDAG(commits: map<Id, CommitRow>, base: Id, records: seq<Record>, snapshotOk: Id -> bool)
    returns (ok: bool)
    ensures ok <==> FirstParents(base, records, |records|) && MergeParentsKnown(commits, records, |records|)
                    && forall i :: 0 <= i < |records| ==> snapshotOk(records[i].row.snapshot)
  {
    var previous := base;
    var known: set<Id> := {};
    for i := 0 to |records|
      invariant previous == PreviousId(base, records, i)
      invariant FirstParents(base, records, i) && MergeParentsKnown(commits, records, i)
      invariant forall l :: 0 <= l < i ==> snapshotOk(records[l].row.snapshot)
      invariant forall id :: id in known <==> exists l :: 0 <= l < i && records[l].id == id
    {
      var parents := records[i].row.parents;
      assert Follows(base, records, i) <==> parents != [] && parents[0] == previous;
      if |parents| == 0 || parents[0] != previous {
        return false;
      }
      for j := 1 to |parents|
        invariant forall l :: 1 <= l < j ==> parents[l] in commits || parents[l] in known
      {
        if parents[j] !in known && parents[j] !in commits {
          assert records[i].row.parents[j] == parents[j];
          return false;
        }
      }
      if !snapshotOk(records[i].row.snapshot) {
        return false;
      }
      known := known + {records[i].id};
      previous := records[i].id;
    }
    return true;
  }

  /** A native push that passes its checks is a chain, so its publication advances the branch. */
  lemma VerifiedPushIsChain(base: Id, records: seq<Record>, target: Id)
    requires base != "" && |records| > 0 && records[|records| - 1].id == target
    requires FirstParents(base, records, |records|)
    requires forall i :: 0 <= i < |records| ==> records[i].id !in records[i].row.parents && records[i].id != ""
    ensures Chain(base, records, target)
  {
    forall i | 0 <= i < |records| ensures Continues(base, records, i) {
      assert Follows(base, records, i);
    }
  }

  // ----- HandlePush ---------------------------------------------------------------------

  datatype PushRequest = PushRequest(
    branch: string, base: Id, target: Id, packHash: string, packFormat: nat, data: Bytes, records: seq<Record>)

  datatype PushError =
    InvalidRequest | InvalidPack | UnknownParent | StoreFailure(cause: StoreError) | NonFastForwardPush(head: Id)

  function NormalizePackFormat(format: nat): nat { if format == 0 then PACK_FORMAT_V2 else format }

  /** Only V3 packs have their own frame; every older format is read as V2. */
  function FrameFormat(format: nat): nat {
    if NormalizePackFormat(format) == PACK_FORMAT_V3 then PACK_FORMAT_V3 else PACK_FORMAT_V2
  }

  /** What a pack must be for its request to go on: its bytes carry a valid frame with the request's range and
      commits, all of whose snapshots are valid. */
  ghost predicate Matches(k: Contract, snapshotOk: Id -> bool, req: PushRequest, f: PackFrame) {
    && k.contentId(req.data) == req.packHash && Unframe(k, FrameFormat(req.packFormat), req.data) == Some(f)
    && f.base.id == req.base && f.target.id == req.target
    && (forall i :: 0 <= i < |f.commits| ==> Identity(k, f.commits[i]).Some?)
    && req.records == RecordsOf(k, f)
    && (forall i :: 0 <= i < |f.commits| ==> snapshotOk(f.commits[i].snapshotRoot))
  }

  /** writePack without its CAS writes; `snapshotOk` is the verdict on a snapshot and the assets it names. */
  method AcceptPack(k: Contract, snapshotOk: Id -> bool, req: PushRequest) returns (r: Option<PackFrame>)
    ensures r.Some? ==> Matches(k, snapshotOk, req, r.value)
    ensures r.None? ==> forall f :: !Matches(k, snapshotOk, req, f)
  {
    hide Identity;
    hide ValidIdentity;
    if k.contentId(req.data) != req.packHash {
      return None;
    }
    var frame := UnmarshalPackFrame(k, FrameFormat(req.packFormat), req.data);
    if frame.None? || frame.value.base.id != req.base || frame.value.target.id != req.target {
      return None;
    }
    if req.records != RecordsOf(k, frame.value) {
      return None;
    }
    if exists i | 0 <= i < |frame.value.commits| :: !snapshotOk(frame.value.commits[i].snapshotRoot) {
      return None;
    }
    return frame;
  }

  /** What the condition says of each parent by its position. */
  lemma KnownMeans(commits: map<Id, CommitRow>, base: Id, records: seq<Record>)
    ensures AllParentsKnown(commits, base, records) <==>
            forall i, n :: 0 <= i < |records| && 0 <= n < |records[i].row.parents| ==>
                           var p := records[i].row.parents[n];
                           || p in commits || (p == base && base != "")
                           || exists j :: 0 <= j < i && records[j].id == p
  {
    if AllParentsKnown(commits, base, records) {
      forall i, n | 0 <= i < |records| && 0 <= n < |records[i].row.parents|
        ensures var p := records[i].row.parents[n];
                || p in commits || (p == base && base != "") || exists j :: 0 <= j < i && records[j].id == p
      {
        assert records[i].row.parents[n] in records[i].row.parents;
      }
    }
  }

  /** The V3 loop over parents: each is an earlier commit of the push, the base, or registered. */
  method ParentsKnown(commits: map<Id, CommitRow>, base: Id, records: seq<Record>) returns (ok: bool)
    ensures ok <==> AllParentsKnown(commits, base, records)
  {
    var known: set<Id> := if base != "" then {base} else {};
    for i := 0 to |records|
      invariant forall id :: id in known ==>
                             (base != "" && id == base) || id in commits
                             || exists l :: 0 <= l < i && records[l].id == id
      invariant forall l :: 0 <= l < i ==> records[l].id in known
      invariant base != "" ==> base in known
      invariant forall a, p :: 0 <= a < i && p in records[a].row.parents ==>
                  (base != "" && p == base) || p in commits || exists l :: 0 <= l < a && records[l].id == p
    {
      var parents := records[i].row.parents;
      for j := 0 to |parents|
        invariant forall id :: id in known ==>
                               (base != "" && id == base) || id in commits
                               || exists l :: 0 <= l < i && records[l].id == id
        invariant forall l :: 0 <= l < i ==> records[l].id in known
        invariant base != "" ==> base in known
        invariant forall a :: 0 <= a < j ==>
                    (base != "" && parents[a] == base) || parents[a] in commits
                      || exists l :: 0 <= l < i && records[l].id == parents[a]
      {
        if parents[j] !in known {
          if parents[j] !in commits {
            assert parents[j] in records[i].row.parents;
            return false;
          }
          known := known + {parents[j]};
        }
      }
      known := known + {records[i].id};
    }
    return true;
  }

  /** Registers the commits one transaction at a time; a failure keeps the ones already stored. */
  method PutCommits(store: Store, records: seq<Record>) returns (o: Outcome)
    requires Acyclic(GraphOf(store.commits)) && "" !in store.commits
    requires forall i :: 0 <= i < |records| ==> NamedRecord(records[i])
    modifies store`commits
    ensures Acyclic(GraphOf(store.commits)) && "" !in store.commits && Grows(old(store.commits), store.commits)
    ensures match PutAllTx(old(store.commits), records)
            case Ok(c) => o == Ok(()) && store.commits == c
            case Err(e) => o == Err(e)
    ensures o.Ok? ==> Stored(store.commits, records, |records|)
  {
    hide Acyclic;
    hide GraphOf;
    assert records[..0] == [];
    for i := 0 to |records|
      invariant Acyclic(GraphOf(store.commits)) && "" !in store.commits && Grows(old(store.commits), store.commits)
      invariant Stored(store.commits, records, i)
      invariant PutAllTx(old(store.commits), records[..i]) == Ok(store.commits)
    {
      ghost var before := store.commits;
      assert records[..i + 1][..i] == records[..i];
      var put := store.PutCommit(records[i].id, records[i].row);
      if put.Err? {
        PutAllFails(old(store.commits), records, i, put.error);
        return put;
      }
      PutCommitGrows(before, records[i].id, records[i].row);
    }
    assert records[..|records|] == records;
    return Ok(());
  }

  lemma MatchedFrame(k: Contract, snapshotOk: Id -> bool, req: PushRequest, f: PackFrame)
    requires Matches(k, snapshotOk, req, f)
    ensures WellFramed(k, FrameFormat(req.packFormat), f) && f.base.id == req.base && f.target.id == req.target
    ensures forall i :: 0 <= i < |f.commits| ==> Identity(k, f.commits[i]).Some?
    ensures req.records == RecordsOf(k, f)
  {
    hide Identity;
    hide WellFramed;
    hide RecordsOf;
  }

  lemma MatchedEnds(k: Contract, req: PushRequest, f: PackFrame)
    requires WellFramed(k, FrameFormat(req.packFormat), f) && f.target.id == req.target
    requires (forall i :: 0 <= i < |f.commits| ==> Identity(k, f.commits[i]).Some?) && req.records == RecordsOf(k, f)
    ensures |req.records| > 0 && req.records[|req.records| - 1].id == req.target
  {
    hide Identity;
    hide ObjectsValid;
    hide SnapshotsPresent;
    hide Chained;
  }

  lemma MatchedRecord(k: Contract, f: PackFrame, i: nat)
    requires forall j :: 0 <= j < |f.commits| ==> Identity(k, f.commits[j]).Some?
    requires NoSelfParents(k) && i < |f.commits|
    ensures NamedRecord(RecordsOf(k, f)[i])
  {
    hide Identity;
    var c := f.commits[i];
    assert Identity(k, c).Some?;
  }

  /** The records of a valid V3 frame: distinct, none of them the base, none a root above a base. */
  lemma MatchedV3(k: Contract, f: PackFrame)
    requires WellFramedV3(k, f) && NoSelfParents(k)
    requires forall i :: 0 <= i < |f.commits| ==> Identity(k, f.commits[i]).Some?
    ensures var records := RecordsOf(k, f);
            && (forall i :: 0 <= i < |records| ==> records[i].id != f.base.id)
            && (forall i, j :: 0 <= i < j < |records| ==> records[i].id != records[j].id)
            && (f.base.id != "" ==> forall i :: 0 <= i < |records| ==> records[i].row.parents != [])
  {
    hide Identity;
    hide ObjectsValid;
    hide SnapshotsPresent;
    hide Enveloped;
    forall i | 0 <= i < |f.commits| ensures RecordsOf(k, f)[i].id != f.base.id {
      MatchedRecord(k, f, i);
    }
  }

  function AsPush(req: PushRequest): Push {
    Push(req.branch, req.base, req.target, req.records, req.packHash, NormalizePackFormat(req.packFormat))
  }

  /** Everything HandlePush has checked when it starts to write. */
  ghost predicate Checked(k: Contract, snapshotOk: Id -> bool, commits: map<Id, CommitRow>, minFormat: nat,
                          req: PushRequest)
  {
    && req.branch != "" && req.target != "" && req.packHash != ""
    && minFormat <= NormalizePackFormat(req.packFormat) <= PACK_FORMAT_V3
    && (exists f :: Matches(k, snapshotOk, req, f) && (req.base != "" ==> f.base.format == COMMIT_FORMAT_V2))
    && (req.base != "" ==> req.base in commits && commits[req.base].format == COMMIT_FORMAT_V2)
    && (NormalizePackFormat(req.packFormat) == PACK_FORMAT_V3 ==> AllParentsKnown(commits, req.base, req.records))
  }

  /** A checked push is one that the runs of the metadata store let begin. */
  lemma CheckedPushBegins(k: Contract, snapshotOk: Id -> bool, commits: map<Id, CommitRow>, minFormat: nat,
                          req: PushRequest)
    requires Checked(k, snapshotOk, commits, minFormat, req) && NoSelfParents(k)
    ensures Accepted(commits, AsPush(req))
    ensures FrameFormat(req.packFormat) == PACK_FORMAT_V2 ==>
              Chain(req.base, req.records, req.target) && PushLinked(commits, AsPush(req))
  {
    hide LinkedAt;
    hide Identity;
    hide WellFramedV2;
    hide WellFramedV3;
    hide RecordsOf;
    hide Chain;
    hide Unframe;
    hide AllParentsKnown;
    hide NoSelfParents;
    var f :| Matches(k, snapshotOk, req, f);
    MatchedFrame(k, snapshotOk, req, f);
    hide Matches;
    MatchedEnds(k, req, f);
    forall i | 0 <= i < |req.records| ensures NamedRecord(req.records[i]) {
      MatchedRecord(k, f, i);
    }
    hide NamedRecord;
    if FrameFormat(req.packFormat) == PACK_FORMAT_V2 {
      V2FrameIsChain(k, f);
      if req.base != "" {
        ChainLinked(commits, req.base, req.records, req.target, |req.records| - 1);
      }
    } else {
      MatchedV3(k, f);
    }
  }

  lemma ChecksPassed(k: Contract, snapshotOk: Id -> bool, commits: map<Id, CommitRow>, minFormat: nat,
                     req: PushRequest, f: PackFrame)
    requires Matches(k, snapshotOk, req, f)
    ensures Checked(k, snapshotOk, commits, minFormat, req) <==>
              && req.branch != "" && req.target != "" && req.packHash != ""
              && minFormat <= NormalizePackFormat(req.packFormat) <= PACK_FORMAT_V3
              && (req.base != "" ==> f.base.format == COMMIT_FORMAT_V2
                                     && req.base in commits && commits[req.base].format == COMMIT_FORMAT_V2)
              && (NormalizePackFormat(req.packFormat) == PACK_FORMAT_V3 ==>
                AllParentsKnown(commits, req.base, req.records))
  {
    hide Unframe;
    hide Identity;
    hide RecordsOf;
    hide AllParentsKnown;
    hide NormalizePackFormat;
    assert forall g :: Matches(k, snapshotOk, req, g) ==> g == f;
  }

  lemma ChecksFailed(k: Contract, snapshotOk: Id -> bool, commits: map<Id, CommitRow>, minFormat: nat, req: PushRequest)
    requires req.branch == "" || req.target == "" || req.packHash == ""
             || NormalizePackFormat(req.packFormat) < minFormat || NormalizePackFormat(req.packFormat) > PACK_FORMAT_V3
             || forall f :: !Matches(k, snapshotOk, req, f)
    ensures !Checked(k, snapshotOk, commits, minFormat, req)
  {
    hide Matches;
    hide AllParentsKnown;
    hide NormalizePackFormat;
  }

  // ----- what HandlePush writes ---------------------------------------------------------

  function Swapped(r: Repo, now: nat, branch: string, expected: Id, target: Id): Result<Repo, PushError> {
    match CompareAndSwapTx(r, now, branch, expected, target)
    case Ok(s) => Ok(s)
    case Err(NonFastForward(head)) => Err(NonFastForwardPush(expected))
    case Err(e) => Err(StoreFailure(e))
  }

  /** What becomes of the branch once commits and pack are stored: created without a base, swapped from the base,
      or swapped from a head that a push without a base has in its history. */
  ghost function HeadTx(r: Repo, now: nat, req: PushRequest): Result<Repo, PushError> {
    if req.branch !in r.branches then
      if req.base != "" then Err(StoreFailure(BranchNotFound))
      else
        match CreateBranchTx(r, req.branch, req.target)
        case Ok(s) => Ok(s)
        case Err(e) => Err(StoreFailure(e))
    else
      var head := r.branches[req.branch].head;
      if head == req.base then Swapped(r, now, req.branch, head, req.target)
      else if req.base != "" then Err(NonFastForwardPush(head))
      else if head == req.target then Ok(r)
      else if req.target in r.commits
        && Reaches(GraphOf(r.commits), req.target, head) then Swapped(r, now, req.branch, head, req.target)
      else Err(NonFastForwardPush(head))
  }

  /** The writes of a checked push, in their order; each is a transaction of its own. */
  ghost function PushTx(r: Repo, now: nat, req: PushRequest): Result<Repo, PushError> {
    match PutAllTx(r.commits, req.records)
    case Err(e) => Err(StoreFailure(e))
    case Ok(commits) =>
      match PutPackRangeTx(r.(commits := commits), req.packHash, RangeOf(AsPush(req)))
      case Err(e) => Err(StoreFailure(e))
      case Ok(s) => HeadTx(s, now, req)
  }

  /** What a push leaves whose commits are all stored, but which goes no further: also its pack range, if the table
      takes it. */
  function Written(r: Repo, commits: map<Id, CommitRow>, req: PushRequest): Repo {
    match PutPackRangeTx(r.(commits := commits), req.packHash, RangeOf(AsPush(req)))
    case Ok(s) => s
    case Err(_) => r.(commits := commits)
  }

  ghost predicate HeadsIn(branches: map<string, Branch>, commits: map<Id, CommitRow>) {
    forall b :: b in branches ==> branches[b].head in commits
  }

  lemma HeadsStay(branches: map<string, Branch>, c: map<Id, CommitRow>, d: map<Id, CommitRow>)
    requires HeadsIn(branches, c) && Grows(c, d)
    ensures HeadsIn(branches, d)
  {}

  /** The last part of HandlePush: read the head, then create the branch or compare-and-swap it. */
  method AdvanceHead(store: Store, now: nat, req: PushRequest) returns (o: Result<(), PushError>)
    requires HeadsIn(store.branches, store.commits)
    modifies store`branches, store`defaultBranch
    ensures match HeadTx(old(store.State()), now, req)
            case Ok(s) => o == Ok(()) && store.State() == s
            case Err(e) => o == Err(e) && store.State() == old(store.State())
  {
    hide Reaches;
    var g := GraphOf(store.commits);
    if req.branch !in store.branches {
      if req.base != "" {
        return Err(StoreFailure(BranchNotFound));
      }
      var created := store.CreateBranch(req.branch, req.target);
      return if created.Ok? then Ok(()) else Err(StoreFailure(created.error));
    }
    var actual := store.branches[req.branch].head;
    var expected := req.base;
    if actual != req.base {
      if req.base != "" {
        return Err(NonFastForwardPush(actual));
      }
      if actual == req.target {
        return Ok(());
      }
      var isAncestor := Ancestry.IsAncestor(g, actual, req.target);
      if !isAncestor {
        return Err(NonFastForwardPush(actual));
      }
      expected := actual;
    }
    var swapped := store.CompareAndSwapBranchRef(now, req.branch, expected, req.target);
    if swapped.Err? {
      return Err(if swapped.error.NonFastForward? then NonFastForwardPush(actual) else StoreFailure(swapped.error));
    }
    return Ok(());
  }

  lemma SwapFacts(r: Repo, now: nat, branch: string, expected: Id, target: Id)
    ensures Swapped(r, now, branch, expected, target).Ok? ==>
              && branch in r.branches && r.branches[branch].head == expected
              && Swapped(r, now, branch, expected, target).value == MoveHead(r, branch, target)
  {}

  /** What HeadTx leaves, given what it found. */
  lemma HeadTxFacts(r: Repo, now: nat, req: PushRequest, s: Repo)
    requires HeadTx(r, now, req) == Ok(s) && HeadsIn(r.branches, r.commits) && "" !in r.commits
             && req.target in r.commits
    ensures HeadsIn(s.branches, s.commits) && s == r.(branches := s.branches, defaultBranch := s.defaultBranch)
    ensures req.branch in s.branches && s.branches[req.branch].head == req.target
    ensures forall b :: b != req.branch ==>
              (b in r.branches <==> b in s.branches) && (b in r.branches ==> s.branches[b] == r.branches[b])
    ensures req.branch in r.branches && req.base != "" ==> r.branches[req.branch].head == req.base
    ensures req.branch in r.branches && req.base == "" ==>
            Reaches(GraphOf(r.commits), req.target, r.branches[req.branch].head)
    ensures req.branch !in r.branches ==> req.base == ""
  {
    hide Reaches;
    hide GraphOf;
    hide Swapped;
    ReachesSelf(GraphOf(r.commits), req.target);
    if req.branch in r.branches {
      SwapFacts(r, now, req.branch, r.branches[req.branch].head, req.target);
    }
  }

  lemma PushTxSteps(r: Repo, now: nat, req: PushRequest, commits: map<Id, CommitRow>)
    requires PutAllTx(r.commits, req.records) == Ok(commits)
    ensures PushTx(r, now, req) ==
              match PutPackRangeTx(r.(commits := commits), req.packHash, RangeOf(AsPush(req)))
              case Err(e) => Err(StoreFailure(e))
              case Ok(s) => HeadTx(s, now, req)
  {}

  lemma PushTxFails(r: Repo, now: nat, req: PushRequest)
    requires PutAllTx(r.commits, req.records).Err?
    ensures PushTx(r, now, req) == Err(StoreFailure(PutAllTx(r.commits, req.records).error))
  {}

  lemma RangeFrame(r: Repo, hash: string, row: RangeRow)
    ensures match PutPackRangeTx(r, hash, row)
            case Ok(s) => s == r.(ranges := r.ranges[hash := row])
            case Err(e) => !e.NonFastForward?
  {
    if hash in r.ranges && r.ranges[hash] == row {
      assert r.ranges[hash := row] == r.ranges;
    }
  }

  lemma GrowsSelf(c: map<Id, CommitRow>)
    ensures Grows(c, c)
  {}

  lemma StoredTarget(commits: map<Id, CommitRow>, push: Push)
    requires Named(push) && Stored(commits, push.records, |push.records|)
    ensures push.target in commits
  {
    assert push.records[|push.records| - 1].id in commits;
  }

  lemma AcceptedNamed(commits: map<Id, CommitRow>, push: Push)
    requires Accepted(commits, push)
    ensures Named(push) && forall i :: 0 <= i < |push.records| ==> NamedRecord(push.records[i])
  {}

  /** What a push that took effect did to the branch it was for: the old head is in the new history exactly if the
      push has no base or was linked to it by what was registered before. */
  ghost predicate MovedAsLinked(before: Repo, after: Repo, req: PushRequest) {
    && req.branch in after.branches && after.branches[req.branch].head == req.target && req.target in after.commits
    && Stored(after.commits, req.records, |req.records|)
    && after.ranges == before.ranges[req.packHash := RangeOf(AsPush(req))]
    && (forall b :: b != req.branch ==>
          (b in before.branches <==> b in after.branches)
            && (b in before.branches ==> after.branches[b] == before.branches[b]))
    && (req.branch in before.branches ==>
          && (req.base != "" ==> before.branches[req.branch].head == req.base)
          && (Reaches(GraphOf(after.commits), req.target, before.branches[req.branch].head) <==>
                PushLinked(before.commits, AsPush(req))))
  }

  lemma MovedAsLinkedHolds(before: Repo, stored: map<Id, CommitRow>, now: nat, req: PushRequest, after: Repo)
    requires Accepted(before.commits, AsPush(req)) && Closed(GraphOf(before.commits)) && "" !in stored
    requires HeadsIn(before.branches, stored) && Grows(before.commits, stored)
             && Stored(stored, req.records, |req.records|)
    requires req.target in stored
    requires HeadTx(before.(commits := stored, ranges := before.ranges[req.packHash := RangeOf(AsPush(req))]), now,
                    req) == Ok(after)
    ensures HeadsIn(after.branches, after.commits) && after.commits == stored && MovedAsLinked(before, after, req)
    ensures after.leases == before.leases && after.pushes == before.pushes
  {
    hide Reaches;
    hide Stored;
    hide Closed;
    hide Accepted;
    hide HeadTx;
    hide GraphOf;
    hide LinkedAt;
    HeadTxFacts(before.(commits := stored, ranges := before.ranges[req.packHash := RangeOf(AsPush(req))]), now, req,
                after);
    if req.base != "" {
      AcceptedPushLinked(before.commits, stored, AsPush(req));
    }
  }

  /** The writes of HandlePush: commits, then the pack range, and only then the head. */
  method StorePush(store: Store, now: nat, req: PushRequest) returns (o: Result<(), PushError>)
    requires Accepted(store.commits, AsPush(req))
    requires Acyclic(GraphOf(store.commits)) && "" !in store.commits && HeadsIn(store.branches, store.commits)
    modifies store
    ensures Acyclic(GraphOf(store.commits)) && "" !in store.commits && Grows(old(store.commits), store.commits)
    ensures HeadsIn(store.branches, store.commits)
    ensures store.leases == old(store.leases) && store.pushes == old(store.pushes)
    ensures o.Err? ==> store.branches == old(store.branches) && store.defaultBranch == old(store.defaultBranch)
    ensures o.Err? ==> o.error.StoreFailure? || o.error.NonFastForwardPush?
    ensures match PushTx(old(store.State()), now, req)
            case Ok(s) => o == Ok(()) && store.State() == s
            case Err(e) => o == Err(e)
    ensures o.Err? && PutAllTx(old(store.commits), req.records).Ok? ==>
              store.State() == Written(old(store.State()), PutAllTx(old(store.commits), req.records).value, req)
    ensures o.Ok? ==> MovedAsLinked(old(store.State()), store.State(), req)
  {
    hide Accepted;
    hide PutAllTx;
    hide PutPackRangeTx;
    hide PushTx;
    hide HeadTx;
    hide MovedAsLinked;
    hide Acyclic;
    hide GraphOf;
    hide Closed;
    hide Stored;
    hide Grows;
    hide HeadsIn;
    hide NamedRecord;
    ghost var before := store.State();
    AcceptedNamed(before.commits, AsPush(req));
    AcyclicClosed(GraphOf(before.commits));
    hide Named;
    var put := PutCommits(store, req.records);
    HeadsStay(before.branches, before.commits, store.commits);
    if put.Err? {
      PushTxFails(before, now, req);
      return Err(StoreFailure(put.error));
    }
    ghost var stored := store.commits;
    PushTxSteps(before, now, req, stored);
    StoredTarget(stored, AsPush(req));
    RangeFrame(store.State(), req.packHash, RangeOf(AsPush(req)));
    var ranged := store.PutPackRange(req.packHash, RangeOf(AsPush(req)));
    if ranged.Err? {
      return Err(StoreFailure(ranged.error));
    }
    HeadTxErrors(store.State(), now, req);
    o := AdvanceHead(store, now, req);
    if o.Ok? {
      MovedAsLinkedHolds(before, stored, now, req, store.State());
    }
  }

  lemma HeadTxErrors(r: Repo, now: nat, req: PushRequest)
    ensures HeadTx(r, now, req).Err? ==>
            HeadTx(r, now, req).error.StoreFailure? || HeadTx(r, now, req).error.NonFastForwardPush?
  {
    hide Reaches;
    hide GraphOf;
  }

  lemma FormatMeans(format: nat)
    ensures NormalizePackFormat(format) == (if format == 0 then 2 else format) && PACK_FORMAT_V3 == 3
  {}

  /** HandlePush: it fails before any write exactly if a check fails, and otherwise does what the writes say. */
  method HandlePush(store: Store, k: Contract, snapshotOk: Id -> bool, now: nat, minFormat: nat, req: PushRequest)
    returns (o: Result<(), PushError>)
    requires NoSelfParents(k) && Acyclic(GraphOf(store.commits)) && "" !in store.commits
             && HeadsIn(store.branches, store.commits)
    modifies store
    ensures Acyclic(GraphOf(store.commits)) && "" !in store.commits && Grows(old(store.commits), store.commits)
    ensures HeadsIn(store.branches, store.commits)
    ensures store.leases == old(store.leases) && store.pushes == old(store.pushes)
    ensures o.Err? ==> store.branches == old(store.branches) && store.defaultBranch == old(store.defaultBranch)
    ensures !Checked(k, snapshotOk, old(store.commits), minFormat, req) <==>
            o.Err? && (o.error.InvalidRequest? || o.error.InvalidPack? || o.error.UnknownParent?)
    ensures !Checked(k, snapshotOk, old(store.commits), minFormat, req) ==> store.State() == old(store.State())
    ensures o == Err(InvalidRequest) <==> || req.branch == "" || req.target == "" || req.packHash == ""
                                          || (if req.packFormat == 0 then 2 else req.packFormat) < minFormat
                                          || req.packFormat > 3
    ensures Checked(k, snapshotOk, old(store.commits), minFormat, req) ==>
              match PushTx(old(store.State()), now, req)
              case Ok(s) => o == Ok(()) && store.State() == s
              case Err(e) => o == Err(e)
    ensures Checked(k, snapshotOk, old(store.commits), minFormat, req) && o.Err?
            && PutAllTx(old(store.commits), req.records).Ok? ==>
              store.State() == Written(old(store.State()), PutAllTx(old(store.commits), req.records).value, req)
    ensures o.Ok? ==> MovedAsLinked(old(store.State()), store.State(), req)
    ensures o.Ok? && FrameFormat(req.packFormat) == PACK_FORMAT_V2 ==> PushLinked(old(store.commits), AsPush(req))
  {
    hide *;
    ghost var commits := store.commits;
    GrowsSelf(commits);
    FormatMeans(req.packFormat);
    var format := NormalizePackFormat(req.packFormat);
    if req.branch == "" || req.target == "" || req.packHash == "" || format < minFormat || format > PACK_FORMAT_V3 {
      ChecksFailed(k, snapshotOk, commits, minFormat, req);
      return Err(InvalidRequest);
    }
    var frame := AcceptPack(k, snapshotOk, req);
    if frame.None? {
      ChecksFailed(k, snapshotOk, commits, minFormat, req);
      return Err(InvalidPack);
    }
    ChecksPassed(k, snapshotOk, commits, minFormat, req, frame.value);
    if req.base != "" {
      if frame.value.base.format != COMMIT_FORMAT_V2 || req.base !in store.commits
        || store.commits[req.base].format != COMMIT_FORMAT_V2 {
        return Err(InvalidPack);
      }
    }
    if format == PACK_FORMAT_V3 {
      var known := ParentsKnown(store.commits, req.base, req.records);
      if !known {
        return Err(UnknownParent);
      }
    }
    CheckedPushBegins(k, snapshotOk, commits, minFormat, req);
    o := StorePush(store, now, req);
  }
}
