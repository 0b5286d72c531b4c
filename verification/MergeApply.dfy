// The lease-fenced merge pipeline: PreviewMerge (internal/server/review/engine.go) and Apply
// (internal/server/review/finalize.go). CAS content is a map from snapshot roots to decoded snapshots.
module MergeApply {
  import opened Wrappers
  import opened Wire
  import opened CommitGraph
  import opened RackStore
  import opened ThreeWayMerge
  import opened Resolution
  import Ordering
  import Framing
  import Ancestry

  /** Hashing, encoding, decoding and validation done by libraries. */
  datatype Tools = Tools(
    contract: Framing.Contract, snapshotBytes: Snapshot -> Option<Bytes>, decoder: Decoder,
    validate: Snapshot -> Validation, valid: Snapshot -> bool)

  datatype ApplyRequest = ApplyRequest(
    sourceBranch: string, targetBranch: string, subject: string, leaseToken: string, choices: seq<Choice>,
    author: string, message: string, time: int)

  datatype ApplyError =
    | InvalidMergeRequest | SnapshotUnavailable | LeaseMismatch
    | HistoryFailure(history: Ancestry.HistoryError) | StoreFailure(store: StoreError)
    | ResolutionFailure(merge: MergeError)

  datatype ApplyResult = ApplyResult(head: Id, fastForward: bool)

  /** What a preview is computed from. */
  datatype Inputs = Inputs(canFastForward: bool, baseId: Id, sourceId: Id, targetId: Id, base: Snapshot,
                           source: Snapshot, target: Snapshot)

  predicate SnapshotAt(commits: map<Id, CommitRow>, objects: map<Id, Snapshot>, id: Id, s: Snapshot) {
    id in commits && commits[id].snapshot in objects && objects[commits[id].snapshot] == s
  }

  /** The inputs are those of the two branches' current heads, over the target if it can be fast-forwarded and over
      the merge base otherwise. */
  ghost predicate InputsFor(r: Repo, objects: map<Id, Snapshot>, req: ApplyRequest, i: Inputs) {
    && req.sourceBranch in r.branches && r.branches[req.sourceBranch].head == i.sourceId
    && req.targetBranch in r.branches && r.branches[req.targetBranch].head == i.targetId
    && (i.canFastForward <==> i.sourceId in r.commits && i.targetId in r.commits
                              && Reaches(GraphOf(r.commits), i.sourceId, i.targetId))
    && (if i.canFastForward then i.baseId == i.targetId
      else Ancestry.MergeBase(GraphOf(r.commits), i.sourceId, i.targetId, i.baseId))
    && SnapshotAt(r.commits, objects, i.baseId, i.base)
    && SnapshotAt(r.commits, objects, i.sourceId, i.source) && SnapshotAt(r.commits, objects, i.targetId, i.target)
  }

  /** There is something to preview: inputs exist, and a merge base can be computed where one is needed. */
  ghost predicate CanLoad(r: Repo, objects: map<Id, Snapshot>, req: ApplyRequest, i: Inputs) {
    && InputsFor(r, objects, req, i)
    && (i.canFastForward || Ancestry.WithinCap(GraphOf(r.commits), i.sourceId, i.targetId))
  }

  /** PreviewMerge up to loading the snapshots. */
  method LoadInputs(store: Store, objects: map<Id, Snapshot>, req: ApplyRequest) returns (r: Result<Inputs, ApplyError>)
    ensures r.Ok? ==> InputsFor(store.State(), objects, req, r.value)
    ensures Closed(GraphOf(store.commits)) ==>
              if r.Ok? then CanLoad(store.State(), objects, req, r.value)
                else forall i :: !CanLoad(store.State(), objects, req, i)
  {
    hide Reaches;
    hide Ancestry.MergeBase;
    hide Ancestry.WithinCap;
    hide Closed;
    if req.sourceBranch !in store.branches || req.targetBranch !in store.branches {
      return Err(StoreFailure(BranchNotFound));
    }
    var sourceId, targetId := store.branches[req.sourceBranch].head, store.branches[req.targetBranch].head;
    var g := GraphOf(store.commits);
    var canFastForward := Ancestry.IsAncestor(g, targetId, sourceId);
    var baseId := targetId;
    if !canFastForward {
      var lowest := Ancestry.FindLowestCommonAncestor(g, sourceId, targetId);
      if lowest.Err? {
        if Closed(g) && Ancestry.WithinCap(g, sourceId, targetId) {
          NoBase(g, sourceId, targetId);
        }
        return Err(HistoryFailure(lowest.error));
      }
      baseId := lowest.value;
      forall b | Ancestry.MergeBase(g, sourceId, targetId, b) ensures b == baseId {
        Ancestry.MergeBaseUnique(g, sourceId, targetId, baseId, b);
      }
    }
    var base := Load(store, objects, baseId);
    var source := Load(store, objects, sourceId);
    var target := Load(store, objects, targetId);
    if base.None? || source.None? || target.None? {
      return Err(SnapshotUnavailable);
    }
    return Ok(Inputs(canFastForward, baseId, sourceId, targetId, base.value, source.value, target.value));
  }

  lemma NoBase(g: Graph, s: Id, t: Id)
    requires forall a :: !(Reaches(g, s, a) && Reaches(g, t, a))
    ensures forall a :: !Ancestry.MergeBase(g, s, t, a)
  {
    hide Reaches;
    hide Ancestry.MergeBase;
    forall a ensures !Ancestry.MergeBase(g, s, t, a) {
      if Ancestry.MergeBase(g, s, t, a) { Ancestry.MergeBaseReached(g, s, t, a); }
    }
  }

  method Load(store: Store, objects: map<Id, Snapshot>, id: Id) returns (s: Option<Snapshot>)
    ensures s.Some? ==> SnapshotAt(store.commits, objects, id, s.value)
    ensures s.None? ==> forall x :: !SnapshotAt(store.commits, objects, id, x)
  {
    if id !in store.commits || store.commits[id].snapshot !in objects {
      return None;
    }
    return Some(objects[store.commits[id].snapshot]);
  }

  // ----- the merge commit and its pack --------------------------------------------------

  function MergeFrame(req: ApplyRequest, i: Inputs, root: Id): Framing.CommitFrame {
    Framing.CommitFrame(Framing.COMMIT_FORMAT_V2, [Framing.V2(i.targetId), Framing.V2(i.sourceId)], root, req.author,
                        req.message, req.time)
  }

  function MergePack(i: Inputs, frame: Framing.CommitFrame, commit: Framing.CommitIdentity, root: Id,
                     data: Bytes): Framing.PackFrame
  {
    Framing.PackFrame(Framing.PACK_FORMAT_V2, Framing.V2(i.targetId), commit, [frame], [Framing.PackObject(root, data)])
  }

  /** What a merge publishes: the merged snapshot, the commit on it, and the pack that carries both. */
  datatype Framed = Framed(merged: Snapshot, root: Id, commit: Id, packHash: Id, packData: Bytes)

  /** `f` frames `merged` as a commit whose parents are the target head and then the source head. */
  ghost predicate FramesMerge(tools: Tools, req: ApplyRequest, i: Inputs, f: Framed) {
    && tools.snapshotBytes(f.merged).Some? && f.root == tools.contract.contentId(tools.snapshotBytes(f.merged).value)
    && var frame := MergeFrame(req, i, f.root);
       && Framing.Identity(tools.contract, frame) == Some(Framing.V2(f.commit))
       && var pack := MergePack(i, frame, Framing.V2(f.commit), f.root, tools.snapshotBytes(f.merged).value);
          && Framing.WellFramedV2(tools.contract, pack)
          && f.packData == tools.contract.frames.encode(pack) && |f.packData| <= Framing.MAX_V2_PACK_BYTES
          && f.packHash == tools.contract.contentId(f.packData)
  }

  ghost predicate BothV2(formats: map<Id, nat>, i: Inputs) {
    && i.targetId in formats && formats[i.targetId] == Framing.COMMIT_FORMAT_V2
    && i.sourceId in formats && formats[i.sourceId] == Framing.COMMIT_FORMAT_V2
  }

  /** Encoding the merged snapshot, framing the commit, and MarshalPackFrameV2. */
  method FrameMerge(tools: Tools, req: ApplyRequest, i: Inputs, formats: map<Id, nat>, merged: Snapshot)
    returns (r: Option<Framed>)
    requires i.targetId in formats && i.sourceId in formats
    ensures r.Some? ==> r.value.merged == merged && FramesMerge(tools, req, i, r.value) && BothV2(formats, i)
    ensures r.None? ==> !BothV2(formats, i) || forall f: Framed :: f.merged == merged ==> !FramesMerge(tools, req, i, f)
  {
    hide Framing.WellFramedV2;
    hide Framing.Identity;
    var data := tools.snapshotBytes(merged);
    if data.None? {
      return None;
    }
    var root := tools.contract.contentId(data.value);
    forall f: Framed | f.merged == merged && FramesMerge(tools, req, i, f)
      ensures Framing.ValidIdentity(Framing.V2(i.targetId)) && Framing.ValidIdentity(Framing.V2(i.sourceId))
    {
      ParentsValid(tools, req, i, f);
    }
    if formats[i.targetId] != Framing.COMMIT_FORMAT_V2 || !Framing.ValidIdentity(Framing.V2(i.targetId))
       || formats[i.sourceId] != Framing.COMMIT_FORMAT_V2 || !Framing.ValidIdentity(Framing.V2(i.sourceId)) {
      return None;
    }
    var frame := MergeFrame(req, i, root);
    var commit := Framing.Identity(tools.contract, frame);
    if commit.None? {
      return None;
    }
    assert commit.value == Framing.V2(commit.value.id);
    var pack := MergePack(i, frame, commit.value, root, data.value);
    var valid := Framing.ValidateV2(tools.contract, pack);
    if !valid {
      return None;
    }
    var packData := tools.contract.frames.encode(pack);
    if |packData| > Framing.MAX_V2_PACK_BYTES {
      return None;
    }
    return Some(Framed(merged, root, commit.value.id, tools.contract.contentId(packData), packData));
  }

  lemma ParentsValid(tools: Tools, req: ApplyRequest, i: Inputs, f: Framed)
    requires FramesMerge(tools, req, i, f)
    ensures Framing.ValidIdentity(Framing.V2(i.targetId)) && Framing.ValidIdentity(Framing.V2(i.sourceId))
  {
    hide Framing.WellFramedV2;
    var frame := MergeFrame(req, i, f.root);
    assert frame.parents[0] in frame.parents && frame.parents[1] in frame.parents;
  }

  /** The pack of a merge is accepted by the V2 decoder: it continues the target's history by one commit. */
  lemma MergePackReadable(tools: Tools, req: ApplyRequest, i: Inputs, f: Framed)
    requires FramesMerge(tools, req, i, f) && Framing.Lawful(tools.contract.frames)
    ensures Framing.Unframe(tools.contract, Framing.PACK_FORMAT_V2, f.packData).Some?
    ensures var pack := Framing.Unframe(tools.contract, Framing.PACK_FORMAT_V2, f.packData).value;
            pack.base == Framing.V2(i.targetId) && pack.target == Framing.V2(f.commit)
            && Framing.ParentIds(pack.commits[0]) == [i.targetId, i.sourceId]
  {
    hide Framing.WellFramedV2;
    hide Framing.Identity;
    var pack := MergePack(i, MergeFrame(req, i, f.root), Framing.V2(f.commit), f.root,
                          tools.snapshotBytes(f.merged).value);
    Framing.FramesAreCanonical(tools.contract, Framing.PACK_FORMAT_V2, pack, f.packData);
  }

  // ----- Apply --------------------------------------------------------------------------

  function StoreRequest(req: ApplyRequest, i: Inputs, f: Framed): MergeRequest {
    MergeRequest(req.targetBranch, req.subject, req.leaseToken, i.sourceId, i.targetId, i.baseId, f.commit, f.root,
                 req.author, req.message, req.time, f.packHash, Framing.COMMIT_FORMAT_V2, Framing.PACK_FORMAT_V2)
  }

  /** The merged snapshot is the three-way merge with the caller's choices applied, and those answer every conflict. */
  ghost predicate Resolves(tools: Tools, req: ApplyRequest, i: Inputs, merged: Snapshot) {
    exists cs :: ListsConflicts(tools, i, cs) && Answers(cs, req.choices)
                 && Materialized(tools.decoder, i.base, i.source, i.target, tools.valid, cs, req.choices) == Ok(merged)
  }

  ghost predicate ListsConflicts(tools: Tools, i: Inputs, cs: seq<Conflict>) {
    cs == Ordering.SortBy(ListedConflicts(i.base, i.source, i.target, tools.validate), TokenOf)
  }

  /** Preview, validateResolutions and materializeMerge. */
  method Resolve(tools: Tools, req: ApplyRequest, i: Inputs) returns (r: Result<Snapshot, ApplyError>)
    ensures r.Ok? ==> Resolves(tools, req, i, r.value)
    ensures forall merged :: Resolves(tools, req, i, merged) ==> r == Ok(merged)
  {
    hide Answers;
    hide Materialized;
    hide ListedConflicts;
    hide Ordering.SortBy;
    var preview := MergeSnapshots(i.base, i.source, i.target, tools.validate);
    var answered := ValidateResolutions(preview.conflicts, req.choices);
    if !answered {
      return Err(InvalidMergeRequest);
    }
    var merged := MaterializeMerge(tools.decoder, i.base, i.source, i.target, tools.valid, preview.conflicts,
                                   req.choices);
    if merged.Err? {
      return Err(ResolutionFailure(merged.error));
    }
    assert ListsConflicts(tools, i, preview.conflicts);
    return Ok(merged.value);
  }

  /** A fast-forward: the head moves to the source head, which has the old head as an ancestor; nothing else changes. */
  ghost predicate FastForwarded(before: Repo, after: Repo, req: ApplyRequest, i: Inputs) {
    && req.choices == [] && req.leaseToken == "" && req.targetBranch in before.branches
    && Reaches(GraphOf(before.commits), i.sourceId, i.targetId)
    && after == MoveHead(before, req.targetBranch, i.sourceId)
  }

  /** A three-way merge: the caller's lease on exactly these commits is consumed, and the head moves to a new commit on
      the resolved snapshot whose parents are the old head and then the source head. */
  ghost predicate Merged3(before: Repo, after: Repo, now: nat, tools: Tools, req: ApplyRequest, i: Inputs, f: Framed) {
    && Resolves(tools, req, i, f.merged) && FramesMerge(tools, req, i, f)
    && LeaseHeld(before, now, req.targetBranch) && before.leases[req.targetBranch].token == req.leaseToken
    && before.leases[req.targetBranch].subject == req.subject
    && req.targetBranch in before.branches && before.branches[req.targetBranch].head == i.targetId
    && f.commit !in before.commits && f.packHash !in before.ranges
    && after.commits == before.commits[f.commit :=
      CommitRow(f.root, [i.targetId, i.sourceId], req.author, req.message, req.time, Framing.COMMIT_FORMAT_V2)]
    && after.ranges == before.ranges[f.packHash := RangeRow(i.targetId, f.commit, Framing.PACK_FORMAT_V2)]
    && after.leases == before.leases - {req.targetBranch}
    && after.branches == before.branches[req.targetBranch := before.branches[req.targetBranch].(head := f.commit)]
    && after.pushes == before.pushes && after.defaultBranch == before.defaultBranch
  }

  lemma ApplyMergeFacts(before: Repo, after: Repo, now: nat, tools: Tools, req: ApplyRequest, i: Inputs, f: Framed)
    requires ApplyMergeTx(before, now, StoreRequest(req, i, f)) == Ok(after)
    requires Resolves(tools, req, i, f.merged) && FramesMerge(tools, req, i, f)
    ensures Merged3(before, after, now, tools, req, i, f)
  {
    hide Resolves;
    hide FramesMerge;
  }

  lemma SwapFacts(before: Repo, after: Repo, now: nat, objects: map<Id, Snapshot>, req: ApplyRequest, i: Inputs)
    requires CompareAndSwapTx(before, now, req.targetBranch, i.targetId, i.sourceId) == Ok(after)
    requires InputsFor(before, objects, req, i) && i.canFastForward && req.choices == [] && req.leaseToken == ""
    ensures FastForwarded(before, after, req, i)
  {
    hide Reaches;
    hide Ancestry.MergeBase;
  }

  /** What Apply needs: complete fields, inputs, and then either a head that may be fast-forwarded with nothing to
      resolve, or choices that resolve the merge, a framable commit of two V2 parents,
        and a lease under which the store takes it. */
  ghost predicate CanApply(r: Repo, tools: Tools, objects: map<Id, Snapshot>, now: nat, req: ApplyRequest, i: Inputs) {
    && req.sourceBranch != "" && req.targetBranch != "" && req.subject != "" && req.author != "" && req.message != ""
    && CanLoad(r, objects, req, i)
    && if i.canFastForward then
         req.choices == [] && req.leaseToken == ""
         && CompareAndSwapTx(r, now, req.targetBranch, i.targetId, i.sourceId).Ok?
       else
         req.leaseToken != "" && BothV2(FormatsOf(r.commits), i) && exists f :: CanMerge(r, tools, now, req, i, f)
  }

  ghost predicate CanMerge(r: Repo, tools: Tools, now: nat, req: ApplyRequest, i: Inputs, f: Framed) {
    && Resolves(tools, req, i, f.merged) && FramesMerge(tools, req, i, f)
    && ApplyMergeTx(r, now, StoreRequest(req, i, f)).Ok?
  }

  function FormatsOf(commits: map<Id, CommitRow>): map<Id, nat> {
    map c | c in commits :: commits[c].format
  }

  /** Inputs are determined by the heads. */
  lemma InputsUnique(r: Repo, objects: map<Id, Snapshot>, req: ApplyRequest, i: Inputs, j: Inputs)
    requires InputsFor(r, objects, req, i) && InputsFor(r, objects, req, j)
    ensures i == j
  {
    hide Reaches;
    hide Ancestry.MergeBase;
    if !i.canFastForward {
      Ancestry.MergeBaseUnique(GraphOf(r.commits), i.sourceId, i.targetId, i.baseId, j.baseId);
    }
  }

  /** With these inputs the request cannot be applied, so it cannot be applied at all. */
  lemma CannotApply(r: Repo, tools: Tools, objects: map<Id, Snapshot>, now: nat, req: ApplyRequest, i: Inputs)
    requires InputsFor(r, objects, req, i) && !CanApply(r, tools, objects, now, req, i)
    ensures forall j :: !CanApply(r, tools, objects, now, req, j)
  {
    hide InputsFor;
    hide CanMerge;
    forall j | InputsFor(r, objects, req, j) ensures j == i {
      InputsUnique(r, objects, req, i, j);
    }
  }

  /** The store takes a merge only under the caller's lease on its inputs. */
  lemma MergeLeased(r: Repo, now: nat, req: ApplyRequest, i: Inputs, f: Framed)
    requires ApplyMergeTx(r, now, StoreRequest(req, i, f)).Ok?
    ensures req.targetBranch in r.leases
    ensures var lease := r.leases[req.targetBranch];
            && lease.subject == req.subject && lease.token == req.leaseToken && LeaseHeld(r, now, req.targetBranch)
            && lease.source == i.sourceId && lease.target == i.targetId && lease.base == i.baseId
  {}

  /** Two framings of one snapshot are the same. */
  lemma FramedUnique(tools: Tools, req: ApplyRequest, i: Inputs, f: Framed, g: Framed)
    requires FramesMerge(tools, req, i, f) && FramesMerge(tools, req, i, g) && f.merged == g.merged
    ensures f == g
  {
    hide Framing.Identity;
    hide Framing.WellFramedV2;
    assert Framing.V2(f.commit) == Framing.V2(g.commit);
  }

  lemma NoMerge(r: Repo, tools: Tools, objects: map<Id, Snapshot>, now: nat, req: ApplyRequest, i: Inputs)
    requires InputsFor(r, objects, req, i) && !i.canFastForward
    requires !BothV2(FormatsOf(r.commits), i) || forall f :: !CanMerge(r, tools, now, req, i, f)
    ensures forall j :: !CanApply(r, tools, objects, now, req, j)
  {
    hide InputsFor;
    hide CanMerge;
    hide BothV2;
    hide CanLoad;
    CannotApply(r, tools, objects, now, req, i);
  }

  /** Apply: the outcome is a fast-forward or a leased three-way merge of the current heads, exactly if the request can
      be applied; otherwise nothing changed. */
  method Apply(store: Store, tools: Tools, objects: map<Id, Snapshot>, now: nat, req: ApplyRequest)
    returns (r: Result<ApplyResult, ApplyError>, ghost i: Inputs, ghost f: Framed)
    modifies store
    ensures r.Err? ==> store.State() == old(store.State())
    ensures r.Ok? ==> InputsFor(old(store.State()), objects, req, i) && r.value.fastForward == i.canFastForward
    ensures r.Ok? && i.canFastForward ==>
            r.value.head == i.sourceId && FastForwarded(old(store.State()), store.State(), req, i)
    ensures r.Ok? && !i.canFastForward ==>
            r.value.head == f.commit && Merged3(old(store.State()), store.State(), now, tools, req, i, f)
    ensures Closed(GraphOf(old(store.commits))) ==>
            (r.Ok? <==> exists j :: CanApply(old(store.State()), tools, objects, now, req, j))
  {
    hide *;
    i, f := *, *;
    ghost var before := store.State();
    StateCommits(store);
    if req.sourceBranch == "" || req.targetBranch == "" || req.subject == "" || req.author == "" || req.message == "" {
      FieldsMissing(before, tools, objects, now, req);
      return Err(InvalidMergeRequest), i, f;
    }
    var loaded := LoadInputs(store, objects, req);
    assert store.State() == before;
    if loaded.Err? {
      if Closed(GraphOf(store.commits)) { NothingLoads(before, tools, objects, now, req); }
      return Err(loaded.error), i, f;
    }
    var inputs := loaded.value;
    i := inputs;
    if inputs.canFastForward {
      FastForwardExactly(before, tools, objects, now, req, inputs);
      if |req.choices| != 0 || req.leaseToken != "" {
        return Err(InvalidMergeRequest), i, f;
      }
      var swapped := store.CompareAndSwapBranchRef(now, req.targetBranch, inputs.targetId, inputs.sourceId);
      if swapped.Err? {
        return Err(StoreFailure(swapped.error)), i, f;
      }
      SwapFacts(before, store.State(), now, objects, req, inputs);
      return Ok(ApplyResult(inputs.sourceId, true)), i, f;
    }
    if req.leaseToken == "" {
      TokenMissing(before, tools, objects, now, req, inputs);
      return Err(InvalidMergeRequest), i, f;
    }
    var lease := store.ValidateMergeLease(now, req.targetBranch, req.subject, req.leaseToken);
    LeaseRefused(before, tools, objects, now, req, inputs);
    StateLeases(store);
    if lease.Err? {
      return Err(StoreFailure(lease.error)), i, f;
    }
    if lease.value.source != inputs.sourceId || lease.value.target != inputs.targetId
      || lease.value.base != inputs.baseId {
      return Err(LeaseMismatch), i, f;
    }
    var r', f' := ApplyLeased(store, tools, objects, now, req, inputs);
    f := f';
    return r', i, f;
  }

  /** The part of Apply that has found a matching lease. */
  method ApplyLeased(store: Store, tools: Tools, objects: map<Id, Snapshot>, now: nat, req: ApplyRequest, i: Inputs)
    returns (r: Result<ApplyResult, ApplyError>, ghost f: Framed)
    requires InputsFor(store.State(), objects, req, i) && !i.canFastForward && req.leaseToken != ""
    requires req.sourceBranch != "" && req.targetBranch != "" && req.subject != "" && req.author != ""
             && req.message != ""
    modifies store
    ensures r.Err? ==> store.State() == old(store.State())
                       && forall j :: !CanApply(old(store.State()), tools, objects, now, req, j)
    ensures r.Ok? ==> r.value.head == f.commit && !r.value.fastForward
                      && Merged3(old(store.State()), store.State(), now, tools, req, i, f)
    ensures r.Ok? && CanLoad(old(store.State()), objects, req, i) ==>
            CanApply(old(store.State()), tools, objects, now, req, i)
  {
    hide *;
    f := *;
    ghost var before := store.State();
    StateCommits(store);
    var merged := Resolve(tools, req, i);
    if merged.Err? {
      NoResolution(before, tools, objects, now, req, i);
      return Err(merged.error), f;
    }
    var formats := FormatsOf(store.commits);
    InputsRecorded(before, objects, req, i);
    FormatsNamed(store.commits);
    var framed := FrameMerge(tools, req, i, formats, merged.value);
    if framed.None? {
      NoFrame(before, tools, objects, now, req, i, merged.value);
      return Err(InvalidMergeRequest), f;
    }
    f := framed.value;
    var applied := store.ApplyMerge(now, StoreRequest(req, i, framed.value));
    if applied.Err? {
      StoreRefuses(before, tools, objects, now, req, i, framed.value);
      return Err(StoreFailure(applied.error)), f;
    }
    ApplyMergeFacts(before, store.State(), now, tools, req, i, framed.value);
    Applicable(before, tools, objects, now, req, i, framed.value);
    return Ok(ApplyResult(framed.value.commit, false)), f;
  }

  lemma FieldsMissing(r: Repo, tools: Tools, objects: map<Id, Snapshot>, now: nat, req: ApplyRequest)
    requires req.sourceBranch == "" || req.targetBranch == "" || req.subject == "" || req.author == ""
             || req.message == ""
    ensures forall j :: !CanApply(r, tools, objects, now, req, j)
  {
    hide CanLoad;
    hide CanMerge;
  }

  lemma NothingLoads(r: Repo, tools: Tools, objects: map<Id, Snapshot>, now: nat, req: ApplyRequest)
    requires forall i :: !CanLoad(r, objects, req, i)
    ensures forall j :: !CanApply(r, tools, objects, now, req, j)
  {
    hide CanLoad;
    hide CanMerge;
  }

  lemma FastForwardExactly(r: Repo, tools: Tools, objects: map<Id, Snapshot>, now: nat, req: ApplyRequest, i: Inputs)
    requires InputsFor(r, objects, req, i) && i.canFastForward
    requires req.sourceBranch != "" && req.targetBranch != "" && req.subject != "" && req.author != ""
             && req.message != ""
    ensures (exists j :: CanApply(r, tools, objects, now, req, j)) <==>
              req.choices == [] && req.leaseToken == ""
                && CompareAndSwapTx(r, now, req.targetBranch, i.targetId, i.sourceId).Ok?
  {
    hide InputsFor;
    hide CompareAndSwapTx;
    if !CanApply(r, tools, objects, now, req, i) {
      CannotApply(r, tools, objects, now, req, i);
    }
  }

  lemma TokenMissing(r: Repo, tools: Tools, objects: map<Id, Snapshot>, now: nat, req: ApplyRequest, i: Inputs)
    requires InputsFor(r, objects, req, i) && !i.canFastForward && req.leaseToken == ""
    ensures forall j :: !CanApply(r, tools, objects, now, req, j)
  {
    hide InputsFor;
    hide CanMerge;
    CannotApply(r, tools, objects, now, req, i);
  }

  /** Without a matching lease the request cannot be applied. */
  lemma LeaseRefused(r: Repo, tools: Tools, objects: map<Id, Snapshot>, now: nat, req: ApplyRequest, i: Inputs)
    requires InputsFor(r, objects, req, i) && !i.canFastForward
    ensures (exists j :: CanApply(r, tools, objects, now, req, j)) ==>
              && req.targetBranch in r.leases
              && var lease := r.leases[req.targetBranch];
                 && lease.subject == req.subject && lease.token == req.leaseToken && LeaseHeld(r, now, req.targetBranch)
                 && lease.source == i.sourceId && lease.target == i.targetId && lease.base == i.baseId
  {
    hide InputsFor;
    hide ApplyMergeTx;
    hide Resolves;
    hide FramesMerge;
    if CanApply(r, tools, objects, now, req, i) {
      var f :| CanMerge(r, tools, now, req, i, f);
      MergeLeased(r, now, req, i, f);
    } else {
      CannotApply(r, tools, objects, now, req, i);
    }
  }

  lemma NoResolution(r: Repo, tools: Tools, objects: map<Id, Snapshot>, now: nat, req: ApplyRequest, i: Inputs)
    requires InputsFor(r, objects, req, i) && !i.canFastForward && forall merged :: !Resolves(tools, req, i, merged)
    ensures forall j :: !CanApply(r, tools, objects, now, req, j)
  {
    hide InputsFor;
    hide Resolves;
    hide FramesMerge;
    hide ApplyMergeTx;
    NoMerge(r, tools, objects, now, req, i);
  }

  lemma NoFrame(r: Repo, tools: Tools, objects: map<Id, Snapshot>, now: nat, req: ApplyRequest, i: Inputs,
                merged: Snapshot)
    requires InputsFor(r, objects, req, i) && !i.canFastForward
    requires forall other :: Resolves(tools, req, i, other) ==> other == merged
    requires BothV2(FormatsOf(r.commits), i) ==>
               forall f: Framed :: f.merged == merged ==> !FramesMerge(tools, req, i, f)
    ensures forall j :: !CanApply(r, tools, objects, now, req, j)
  {
    hide InputsFor;
    hide Resolves;
    hide FramesMerge;
    hide ApplyMergeTx;
    hide BothV2;
    NoMerge(r, tools, objects, now, req, i);
  }

  lemma StoreRefuses(r: Repo, tools: Tools, objects: map<Id, Snapshot>, now: nat, req: ApplyRequest, i: Inputs,
                     f: Framed)
    requires InputsFor(r, objects, req, i) && !i.canFastForward && FramesMerge(tools, req, i, f)
    requires forall other :: Resolves(tools, req, i, other) ==> other == f.merged
    requires ApplyMergeTx(r, now, StoreRequest(req, i, f)).Err?
    ensures forall j :: !CanApply(r, tools, objects, now, req, j)
  {
    hide InputsFor;
    hide Resolves;
    hide FramesMerge;
    hide ApplyMergeTx;
    forall g | CanMerge(r, tools, now, req, i, g) ensures g == f {
      FramedUnique(tools, req, i, f, g);
    }
    NoMerge(r, tools, objects, now, req, i);
  }

  lemma Applicable(r: Repo, tools: Tools, objects: map<Id, Snapshot>, now: nat, req: ApplyRequest, i: Inputs, f: Framed)
    requires !i.canFastForward && req.leaseToken != "" && BothV2(FormatsOf(r.commits), i)
    requires req.sourceBranch != "" && req.targetBranch != "" && req.subject != "" && req.author != ""
             && req.message != ""
    requires Resolves(tools, req, i, f.merged) && FramesMerge(tools, req, i, f)
    requires ApplyMergeTx(r, now, StoreRequest(req, i, f)).Ok?
    ensures CanLoad(r, objects, req, i) ==> CanApply(r, tools, objects, now, req, i)
  {
    hide CanLoad;
    hide Resolves;
    hide FramesMerge;
    hide ApplyMergeTx;
    hide BothV2;
    assert CanMerge(r, tools, now, req, i, f);
  }

  lemma FormatsNamed(commits: map<Id, CommitRow>)
    ensures FormatsOf(commits).Keys == commits.Keys
  {}

  lemma StateLeases(store: Store)
    ensures store.State().leases == store.leases
  {}

  lemma StateCommits(store: Store)
    ensures store.State().commits == store.commits
  {}

  lemma InputsRecorded(r: Repo, objects: map<Id, Snapshot>, req: ApplyRequest, i: Inputs)
    requires InputsFor(r, objects, req, i)
    ensures i.targetId in r.commits && i.sourceId in r.commits
  {}
}
