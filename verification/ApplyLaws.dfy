// What applying a merge asks for and produces, in terms of heads, leases and bytes alone.
module ApplyLaws {
  import opened Wrappers
  import opened Wire
  import opened CommitGraph
  import opened RackStore
  import opened ThreeWayMerge
  import opened MergeApply
  import Framing
  import Ancestry

  // ----- inputs -------------------------------------------------------------------------

  /** A merge previews the heads of its two branches over a common ancestor of both. That is the target head whenever
      the source descends from it, even if some other common ancestor is nearer, and otherwise the merge base. */
  lemma InputsMean(r: Repo, objects: map<Id, Snapshot>, req: ApplyRequest, i: Inputs)
    requires InputsFor(r, objects, req, i)
    ensures req.sourceBranch in r.branches && i.sourceId == r.branches[req.sourceBranch].head
    ensures req.targetBranch in r.branches && i.targetId == r.branches[req.targetBranch].head
    ensures {i.sourceId, i.targetId, i.baseId} <= r.commits.Keys
    ensures var g := GraphOf(r.commits);
            && Reaches(g, i.sourceId, i.baseId) && Reaches(g, i.targetId, i.baseId)
            && (i.canFastForward <==> Reaches(g, i.sourceId, i.targetId))
            && (Reaches(g, i.sourceId, i.targetId) <==> i.baseId == i.targetId)
            && (i.baseId != i.targetId ==> Ancestry.MergeBase(g, i.sourceId, i.targetId, i.baseId))
    ensures forall id, s :: (id, s) in {(i.sourceId, i.source), (i.targetId, i.target), (i.baseId, i.base)} ==>
                            r.commits[id].snapshot in objects && objects[r.commits[id].snapshot] == s
  {
    var g := GraphOf(r.commits);
    assert i.targetId in g;
    ReachesSelf(g, i.targetId);
    hide Reaches;
    if !i.canFastForward {
      Ancestry.MergeBaseReached(g, i.sourceId, i.targetId, i.baseId);
    }
    hide Ancestry.MergeBase;
  }

  // ----- the merge commit ---------------------------------------------------------------

  /** The commit of a merge, and the pack that carries it. */
  function CommitOf(req: ApplyRequest, i: Inputs, root: Id): Framing.Commit {
    Framing.Commit(root, [i.targetId, i.sourceId], req.author, req.message, req.time)
  }

  function PackOf(req: ApplyRequest, i: Inputs, root: Id, data: Bytes, id: Id): Framing.PackFrame {
    var two := (parent: Id) => Framing.CommitIdentity(2, parent);
    Framing.PackFrame(2, two(i.targetId), two(id),
                      [Framing.CommitFrame(2, [two(i.targetId), two(i.sourceId)], root, req.author, req.message,
                                           req.time)],
                      [Framing.PackObject(root, data)])
  }

  /** `f` is the merged snapshot's bytes under their content id, the commit's canonical record under its content id, and
      the encoded pack under its content id, within the size limit; the two parents and these ids are content ids. */
  ghost predicate Frames(tools: Tools, req: ApplyRequest, i: Inputs, f: Framed) {
    var k, bytes := tools.contract, tools.snapshotBytes(f.merged);
    && bytes.Some? && f.root == k.contentId(bytes.value)
    && var record := k.commitBytes(CommitOf(req, i, f.root));
       && record.Some? && f.commit == k.contentId(record.value)
       && f.packData == k.frames.encode(PackOf(req, i, f.root, bytes.value, f.commit))
       && |f.packData| <= 64 * 1024 * 1024 && f.packHash == k.contentId(f.packData)
       && forall id :: id in {i.targetId, i.sourceId, f.root, f.commit} ==> Framing.ValidContentID(id)
  }

  /** The frame of the merge commit is identified by the commit's canonical record. */
  lemma MergeIdentity(k: Framing.Contract, req: ApplyRequest, i: Inputs, root: Id, id: Id)
    ensures var record := k.commitBytes(CommitOf(req, i, root));
            Framing.Identity(k, MergeFrame(req, i, root)) == Some(Framing.V2(id)) <==>
              && record.Some? && id == k.contentId(record.value)
              && Framing.ValidIdentity(Framing.V2(i.targetId)) && Framing.ValidIdentity(Framing.V2(i.sourceId))
  {
    hide Framing.ValidIdentity;
    var f := MergeFrame(req, i, root);
    assert f.parents[0] == Framing.V2(i.targetId) && f.parents[1] == Framing.V2(i.sourceId);
    assert f.parents[0] in f.parents && f.parents[1] in f.parents;
    assert Framing.ParentIds(f) == [i.targetId, i.sourceId];
  }

  lemma ContentIdentity(id: Id)
    ensures Framing.ValidIdentity(Framing.V2(id)) <==> Framing.ValidContentID(id)
  {}

  /** The pack of the merge commit is well framed exactly if its ids are content ids. */
  lemma MergeFramed(k: Framing.Contract, req: ApplyRequest, i: Inputs, root: Id, data: Bytes, id: Id)
    requires Framing.Identity(k, MergeFrame(req, i, root)) == Some(Framing.V2(id)) && k.contentId(data) == root
    ensures Framing.WellFramedV2(k, PackOf(req, i, root, data, id)) <==>
              Framing.ValidContentID(root) && Framing.ValidContentID(id) && Framing.ValidContentID(i.targetId)
  {
    hide Framing.Identity;
    hide Framing.ValidContentID;
    ContentIdentity(i.targetId);
    ContentIdentity(id);
    var f := PackOf(req, i, root, data, id);
    assert f.commits[0] == MergeFrame(req, i, root) && f.commits[0].parents[0] == Framing.V2(i.targetId);
    assert f.objects[0] in f.objects && f.objects[0] == Framing.PackObject(root, data);
    assert Framing.Chained(k, f, 1);
    assert Framing.SnapshotsPresent(f);
    assert Framing.ObjectsValid(k, f.objects) <==> Framing.ValidContentID(root);
  }

  /** What FrameMerge yields is exactly that. */
  lemma FramesMean(tools: Tools, req: ApplyRequest, i: Inputs, f: Framed)
    ensures FramesMerge(tools, req, i, f) <==> Frames(tools, req, i, f)
  {
    hide Framing.Identity;
    hide Framing.WellFramedV2;
    hide Framing.ValidContentID;
    hide Framing.ValidIdentity;
    ContentIdentity(i.targetId);
    ContentIdentity(i.sourceId);
    MergeIdentity(tools.contract, req, i, f.root, f.commit);
    var bytes := tools.snapshotBytes(f.merged);
    if bytes.Some? && f.root == tools.contract.contentId(bytes.value) {
      SamePack(req, i, f.root, bytes.value, f.commit);
      if Framing.Identity(tools.contract, MergeFrame(req, i, f.root)) == Some(Framing.V2(f.commit)) {
        MergeFramed(tools.contract, req, i, f.root, bytes.value, f.commit);
      }
    }
  }

  lemma SamePack(req: ApplyRequest, i: Inputs, root: Id, data: Bytes, id: Id)
    ensures MergePack(i, MergeFrame(req, i, root), Framing.V2(id), root, data) == PackOf(req, i, root, data, id)
  {}

  // ----- when a merge can be applied ----------------------------------------------------

  predicate Named(req: ApplyRequest) {
    "" !in {req.sourceBranch, req.targetBranch, req.subject, req.author, req.message}
  }

  predicate Leased(r: Repo, now: nat, b: string) {
    b in r.leases && now < r.leases[b].expires
  }

  /** A fast-forward takes no choices and no token, and nobody may hold a lease on the target branch. */
  lemma FastForwardApplies(r: Repo, tools: Tools, objects: map<Id, Snapshot>, now: nat, req: ApplyRequest, i: Inputs)
    requires CanLoad(r, objects, req, i) && Reaches(GraphOf(r.commits), i.sourceId, i.targetId)
    ensures CanApply(r, tools, objects, now, req, i) <==>
              Named(req) && req.choices == [] && req.leaseToken == "" && !Leased(r, now, req.targetBranch)
  {
    hide Reaches;
    hide GraphOf;
    hide Ancestry.MergeBase;
    hide Ancestry.WithinCap;
    hide CanMerge;
  }

  /** The caller holds the target branch's lease, for exactly these three commits. */
  predicate LeaseFits(r: Repo, now: nat, req: ApplyRequest, i: Inputs) {
    && Leased(r, now, req.targetBranch)
    && r.leases[req.targetBranch] == Lease(req.subject, req.leaseToken, i.sourceId, i.targetId, i.baseId,
                                           r.leases[req.targetBranch].expires)
  }

  /** Neither the commit nor its pack is stored, and the pack has a hash. */
  predicate Fresh(r: Repo, f: Framed) {
    && f.commit !in r.commits && f.packHash !in r.ranges && f.packHash != ""
    && forall h :: h in r.ranges ==> r.ranges[h].target != f.commit
  }

  lemma NotEmpty(tools: Tools, req: ApplyRequest, i: Inputs, f: Framed)
    requires Frames(tools, req, i, f)
    ensures "" !in {i.targetId, i.sourceId, f.root, f.commit}
  {
    hide Framing.ValidContentID;
    ContentIdentity(i.targetId);
    ContentIdentity(i.sourceId);
    ContentIdentity(f.root);
    ContentIdentity(f.commit);
  }

  /** The store takes a framed merge exactly if the request is complete, the lease fits and the merge is fresh. */
  lemma StoreTakes(r: Repo, tools: Tools, objects: map<Id, Snapshot>, now: nat, req: ApplyRequest, i: Inputs, f: Framed)
    requires InputsFor(r, objects, req, i) && Frames(tools, req, i, f) && Named(req)
    ensures ApplyMergeTx(r, now, StoreRequest(req, i, f)).Ok? <==>
              req.leaseToken != "" && i.baseId != "" && LeaseFits(r, now, req, i) && Fresh(r, f)
  {
    hide Reaches;
    hide GraphOf;
    hide Ancestry.MergeBase;
    NotEmpty(tools, req, i, f);
    hide Frames;
    hide Framing.ValidContentID;
    assert i.targetId in r.commits && i.sourceId in r.commits;
    assert r.branches[req.targetBranch].head == i.targetId;
  }

  /** Any other merge needs the caller's unexpired lease for exactly these three commits, two parents of the current
      format, choices that resolve it, and a commit and a pack that are not there yet. */
  lemma MergeApplies(r: Repo, tools: Tools, objects: map<Id, Snapshot>, now: nat, req: ApplyRequest, i: Inputs)
    requires CanLoad(r, objects, req, i) && !Reaches(GraphOf(r.commits), i.sourceId, i.targetId)
    ensures {i.sourceId, i.targetId} <= r.commits.Keys
    ensures CanApply(r, tools, objects, now, req, i) <==>
              && Named(req) && req.leaseToken != "" && i.baseId != "" && LeaseFits(r, now, req, i)
              && r.commits[i.sourceId].format == 2 && r.commits[i.targetId].format == 2
              && exists f: Framed :: Resolves(tools, req, i, f.merged) && Frames(tools, req, i, f) && Fresh(r, f)
  {
    hide *;
    InputsLoaded(r, objects, req, i);
    InputsMean(r, objects, req, i);
    Unfolded(r, tools, objects, now, req, i);
    if Named(req) {
      forall f: Framed
        ensures CanMerge(r, tools, now, req, i, f) <==>
                  && Resolves(tools, req, i, f.merged) && Frames(tools, req, i, f)
                  && req.leaseToken != "" && i.baseId != "" && LeaseFits(r, now, req, i) && Fresh(r, f)
      {
        MergesExactly(r, tools, now, req, i, f);
        if Frames(tools, req, i, f) {
          StoreTakes(r, tools, objects, now, req, i, f);
        }
      }
    }
  }

  lemma InputsLoaded(r: Repo, objects: map<Id, Snapshot>, req: ApplyRequest, i: Inputs)
    requires CanLoad(r, objects, req, i)
    ensures InputsFor(r, objects, req, i)
  {}

  lemma MergesExactly(r: Repo, tools: Tools, now: nat, req: ApplyRequest, i: Inputs, f: Framed)
    ensures CanMerge(r, tools, now, req, i, f) <==>
              Resolves(tools, req, i, f.merged) && Frames(tools, req, i, f)
                && ApplyMergeTx(r, now, StoreRequest(req, i, f)).Ok?
  {
    hide Resolves;
    hide FramesMerge;
    hide Frames;
    hide ApplyMergeTx;
    FramesMean(tools, req, i, f);
  }

  lemma Unfolded(r: Repo, tools: Tools, objects: map<Id, Snapshot>, now: nat, req: ApplyRequest, i: Inputs)
    requires CanLoad(r, objects, req, i) && !i.canFastForward && {i.sourceId, i.targetId} <= r.commits.Keys
    ensures CanApply(r, tools, objects, now, req, i) <==>
              && Named(req) && req.leaseToken != ""
              && r.commits[i.sourceId].format == 2 && r.commits[i.targetId].format == 2
              && exists f :: CanMerge(r, tools, now, req, i, f)
  {
    hide CanLoad;
    hide CanMerge;
  }
}
