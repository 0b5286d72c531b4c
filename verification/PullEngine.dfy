// A whole pull (internal/server/sync/pull.go): negotiate, build the manifest, stream, and decode again.
module PullEngine {
  import opened Wrappers
  import opened Wire
  import opened CommitGraph
  import opened Framing
  import opened PullPlan
  import opened PullClosure
  import opened PullPlanner
  import opened PullEnvelope
  import Ordering
  import Ancestry
  import PullHealth

  datatype Plan = Plan(head: Id, ranges: seq<PackRange>)

  ghost predicate IsAncestorOf(store: PullStore, ancestor: Id, commit: Id) {
    commit in store.commits && ancestor in store.commits && Reaches(store.commits, commit, ancestor)
  }

  /** The request names a branch whose head the client lacks, and a commit of its history or none. */
  ghost predicate Negotiated(store: PullStore, branch: string, known: Id) {
    && branch != "" && branch in store.heads && store.heads[branch] != known
    && (known == "" || IsAncestorOf(store, known, store.heads[branch]))
  }

  /** The rows that lead from the branch head to the known commit. */
  ghost function FirstRows(store: PullStore, branch: string, known: Id): set<Id>
    requires branch in store.heads
  {
    ChainSet(store, store.heads[branch], known)
  }

  ghost predicate HeadChainComplete(store: PullStore, branch: string, known: Id)
    requires branch in store.heads
  {
    ChainComplete(store, store.heads[branch], known)
  }

  /** PreparePull: the order of the checks is the source's. A negotiated pull succeeds exactly if the head's chain is
      complete and the pull plannable; otherwise the reported error is the one that the stored packs determine. */
  method PreparePull(k: Contract, store: PullStore, branch: string, known: Id) returns (r: Result<Plan, PullError>)
    requires RangesValid(store) && ChainsEnd(store)
    ensures r == Err(BranchRequired) <==> branch == ""
    ensures r == Err(BranchNotFound) <==> branch != "" && branch !in store.heads
    ensures r == Err(UpToDate) <==> branch != "" && branch in store.heads && store.heads[branch] == known
    ensures r.Err? && r.error.Diverged? <==>
              branch != "" && branch in store.heads && store.heads[branch] != known && known != ""
              && !IsAncestorOf(store, known, store.heads[branch])
    ensures r.Err? && r.error.Diverged? ==> r.error.head == store.heads[branch]
    ensures r.Ok? <==> Negotiated(store, branch, known) && HeadChainComplete(store, branch, known)
                       && Plannable(k, store, known, FirstRows(store, branch, known))
    ensures Negotiated(store, branch, known) && !HeadChainComplete(store, branch, known) ==> r == Err(IncompleteChain)
    ensures Negotiated(store, branch, known) && HeadChainComplete(store, branch, known) && r.Err? ==>
              Fails(k, store, known, FirstRows(store, branch, known), r.error)
    ensures Negotiated(store, branch, known) && HeadChainComplete(store, branch, known) ==>
              forall e :: Fails(k, store, known, FirstRows(store, branch, known), e) ==> r.Err? && SameFault(r.error, e)
    ensures r.Ok? ==> r.value.head == store.heads[branch] && PlanOk(k, store, r.value.head, known, r.value.ranges)
    ensures r.Ok? ==> var all := Closure(k, store, known, FirstRows(store, branch, known));
                      PlansExactly(r.value.ranges, all)
                      && (r.value.ranges[|r.value.ranges| - 1].target == r.value.head <==>
                        HeadOnTop(k, store, r.value.head, all))
  {
    NegotiatedMeans(store, branch, known);
    hide *;
    if branch == "" {
      return Err(BranchRequired);
    }
    if branch !in store.heads {
      return Err(BranchNotFound);
    }
    var head := store.heads[branch];
    if known == head {
      return Err(UpToDate);
    }
    if known != "" {
      var isAncestor := Ancestry.IsAncestor(store.commits, known, head);
      AncestorMeans(store, known, head);
      if !isAncestor {
        return Err(Diverged(head));
      }
    }
    HeadChainEnds(store, head, known);
    var ranges := GetPackRanges(store, head, known);
    ChainValid(store, head, known, ranges);
    var chained := ValidatePackChain(ranges, head, known);
    if !chained {
      return Err(IncompleteChain);
    }
    var plan, rounds, expanded := PlanPullDAG(k, store, head, known, ranges);
    forall e | Fails(k, store, known, ChainSet(store, head, known), e) ensures plan.Err? && SameFault(plan.error, e) {
      OneFault(k, store, known, ChainSet(store, head, known), plan, e);
    }
    if plan.Err? {
      PlanningErrors(k, store, known, ChainSet(store, head, known), plan.error);
      return Err(plan.error);
    }
    return Ok(Plan(head, plan.value));
  }

  lemma OneFault(k: Contract, store: PullStore, known: Id, s: set<Id>, plan: Result<seq<PackRange>, PullError>,
                 e: PullError)
    requires plan.Ok? <==> Plannable(k, store, known, s)
    requires plan.Err? ==> Fails(k, store, known, s, plan.error)
    requires Fails(k, store, known, s, e)
    ensures plan.Err? && SameFault(plan.error, e)
  {
    hide Fails;
    hide Plannable;
    FailsOnce(k, store, known, s, e, e);
    FailsOnce(k, store, known, s, plan.error, e);
  }

  /** The planner has errors of its own. */
  lemma {:induction false} PlanningErrors(k: Contract, store: PullStore, known: Id, s: set<Id>, e: PullError)
    requires Fails(k, store, known, s, e)
    ensures e in {InvalidPack, CommitInTwoPacks, MergeParentNotV2, IncompleteChain, DependencyCycle}
    decreases store.ranges.Keys - s
  {
    hide Readable;
    hide Disjoint;
    hide MergesV2;
    hide Fetchable;
    hide NextRound;
    hide RowDeps;
    var next := NextRound(k, store, known, s);
    if s < next && Fails(k, store, known, next, e) {
      PlanningErrors(k, store, known, next, e);
    }
  }

  lemma HeadChainEnds(store: PullStore, head: Id, known: Id)
    requires ChainsEnd(store)
    ensures ChainEnds(store, head, known)
  {
    hide ChainEnds;
    MissingChainEnds(store, head);
    ChainEndsEarlier(store, head, known);
  }

  lemma NegotiatedMeans(store: PullStore, branch: string, known: Id)
    ensures Negotiated(store, branch, known) <==>
              && branch != "" && branch in store.heads && store.heads[branch] != known
              && (known == "" || IsAncestorOf(store, known, store.heads[branch]))
    ensures branch in store.heads ==>
              && FirstRows(store, branch, known) == ChainSet(store, store.heads[branch], known)
              && (HeadChainComplete(store, branch, known) <==> ChainComplete(store, store.heads[branch], known))
  {}

  lemma AncestorMeans(store: PullStore, ancestor: Id, commit: Id)
    ensures IsAncestorOf(store, ancestor, commit) <==>
            commit in store.commits && ancestor in store.commits && Reaches(store.commits, commit, ancestor)
  {}

  // ----- manifest and stream ------------------------------------------------------------

  ghost predicate Servable(k: Contract, store: PullStore, row: PackRange) {
    && (row.format == PACK_FORMAT_V2 || row.format == PACK_FORMAT_V3) && ValidContentID(row.hash)
      && row.hash in store.blobs
    && k.contentId(store.blobs[row.hash]) == row.hash && |store.blobs[row.hash]| <= MAX_V2_PACK_BYTES
  }

  ghost predicate ManifestOf(store: PullStore, plan: Plan, m: PullManifest) {
    && m.version == PULL_ENVELOPE_FORMAT_V2 && m.head == plan.head && |m.packs| == |plan.ranges|
    && forall i :: 0 <= i < |m.packs| ==>
         plan.ranges[i].hash in store.blobs
         && m.packs[i] == PackManifest(plan.ranges[i].hash, plan.ranges[i].format, |store.blobs[plan.ranges[i].hash]|)
  }

  /** BuildPullManifest. */
  method BuildPullManifest(k: Contract, store: PullStore, plan: Plan) returns (r: Option<PullManifest>)
    ensures r.Some? <==> |plan.ranges| > 0 && ValidContentID(plan.head)
                         && forall i :: 0 <= i < |plan.ranges| ==> Servable(k, store, plan.ranges[i])
    ensures r.Some? ==> ManifestOf(store, plan, r.value) && ValidManifest(r.value)
  {
    hide ValidContentID;
    var packs: seq<PackManifest> := [];
    for i := 0 to |plan.ranges|
      invariant |packs| == i
      invariant forall j :: 0 <= j < i ==>
                  Servable(k, store, plan.ranges[j])
                  && packs[j] == PackManifest(plan.ranges[j].hash, plan.ranges[j].format,
                                              |store.blobs[plan.ranges[j].hash]|)
    {
      var row := plan.ranges[i];
      if (row.format != PACK_FORMAT_V2 && row.format != PACK_FORMAT_V3) || !ValidContentID(row.hash)
        || row.hash !in store.blobs {
        return None;
      }
      var pack := store.blobs[row.hash];
      if k.contentId(pack) != row.hash || |pack| > MAX_V2_PACK_BYTES {
        return None;
      }
      packs := packs + [PackManifest(row.hash, row.format, |pack|)];
    }
    var manifest := PullManifest(PULL_ENVELOPE_FORMAT_V2, plan.head, packs);
    if !ValidManifest(manifest) {
      return None;
    }
    return Some(manifest);
  }

  function BlobsOf(store: PullStore, ranges: seq<PackRange>): (blobs: seq<Bytes>)
    requires forall i :: 0 <= i < |ranges| ==> ranges[i].hash in store.blobs
    ensures |blobs| == |ranges|
  {
    seq(|ranges|, i requires 0 <= i < |ranges| => store.blobs[ranges[i].hash])
  }

  /** StreamPullWithManifest: header, manifest, then each pack re-checked while it is written. */
  method StreamPull(k: Contract, mc: ManifestCodec, store: PullStore, plan: Plan, m: PullManifest)
    returns (r: Option<Bytes>)
    ensures r.Some? ==> ManifestOf(store, plan, m)
                        && r.value == Envelope(PULL_MAGIC, PULL_ENVELOPE_FORMAT_V2, mc.encode(m),
                                               BlobsOf(store, plan.ranges))
    ensures ManifestOf(store, plan, m) && ValidManifest(m) && r.None? ==>
              exists i :: 0 <= i < |plan.ranges| && !Servable(k, store, plan.ranges[i])
  {
    hide BigEndian;
    hide Concat;
    if !ValidManifest(m) || m.head != plan.head || |m.packs| != |plan.ranges| {
      return None;
    }
    if exists i | 0 <= i < |m.packs| :: m.packs[i].hash != plan.ranges[i].hash
                                        || m.packs[i].format != plan.ranges[i].format
         || (plan.ranges[i].format != PACK_FORMAT_V2 && plan.ranges[i].format != PACK_FORMAT_V3) {
      return None;
    }
    var body := mc.encode(m);
    var out := WriteHeader(PULL_MAGIC, PULL_ENVELOPE_FORMAT_V2, |body|);
    out := out + body;
    ghost var prefix := out;
    ghost var sent: seq<Bytes> := [];
    assert Concat(sent) == [] by { NoPacks(); }
    for i := 0 to |m.packs|
      invariant |sent| == i && out == prefix + Concat(sent)
      invariant forall j :: 0 <= j < i ==>
                  plan.ranges[j].hash in store.blobs && sent[j] == store.blobs[plan.ranges[j].hash]
                  && |sent[j]| == m.packs[j].length
    {
      var hash := plan.ranges[i].hash;
      if hash !in store.blobs {
        return None;
      }
      var pack := store.blobs[hash];
      if |pack| != m.packs[i].length || k.contentId(pack) != m.packs[i].hash {
        return None;
      }
      ConcatAppend(sent, pack);
      sent := sent + [pack];
      out := out + pack;
    }
    assert sent == BlobsOf(store, plan.ranges);
    return Some(out);
  }

  lemma NoPacks()
    ensures Concat([]) == []
  {}

  // ----- end to end ---------------------------------------------------------------------

  ghost function PlanFrames(k: Contract, store: PullStore, ranges: seq<PackRange>): (frames: seq<PackFrame>)
    requires forall i :: 0 <= i < |ranges| ==> Read(k, store, ranges[i]).Some?
    ensures |frames| == |ranges| && forall i :: 0 <= i < |ranges| ==> frames[i] == Read(k, store, ranges[i]).value
  {
    seq(|ranges|, i requires 0 <= i < |ranges| && Read(k, store, ranges[i]).Some? => Read(k, store, ranges[i]).value)
  }

  lemma FrameIdsMembers(k: Contract, f: PackFrame)
    requires forall i :: 0 <= i < |f.commits| ==> Identity(k, f.commits[i]).Some?
    ensures forall id :: id in FrameIds(k, f) <==> id in Ids(k, f)
  {
    hide Identity;
    forall id ensures id in FrameIds(k, f) <==> id in Ids(k, f) {
      if id in Ids(k, f) {
        var i :| 0 <= i < |f.commits| && Identity(k, f.commits[i]).Some? && Identity(k, f.commits[i]).value == id;
        assert FrameIds(k, f)[i] == id;
      }
    }
  }

  /** Each commit of the frame is recorded with the commit before it among its parents. */
  ghost predicate RecordedChain(k: Contract, g: Graph, f: PackFrame) {
    && (forall i :: 0 <= i < |f.commits| ==> Identity(k, f.commits[i]).Some?)
    && (forall j :: 0 < j < |f.commits| ==>
                    CommitIdAt(k, f, j) in g && CommitIdAt(k, f, j - 1) in g[CommitIdAt(k, f, j)])
  }

  lemma ChainRecorded(k: Contract, g: Graph, f: PackFrame)
    requires Recorded(k, g, f) && Chained(k, f, |f.commits|)
    ensures RecordedChain(k, g, f)
  {
    hide Identity;
    hide Reaches;
    forall j | 0 < j < |f.commits|
      ensures CommitIdAt(k, f, j) in g && CommitIdAt(k, f, j - 1) in g[CommitIdAt(k, f, j)] {
      assert f.commits[j].parents[0] == Previous(k, f, j);
      ParentRecorded(k, g, f, j, f.commits[j].parents[0]);
    }
  }

  lemma {:induction false} ChainRanks(k: Contract, g: Graph, rank: map<Id, nat>, f: PackFrame, i: nat, j: nat)
    requires RecordedChain(k, g, f) && Ranked(g, rank) && i < j < |f.commits|
    ensures CommitIdAt(k, f, i) in rank && CommitIdAt(k, f, j) in rank
    ensures rank[CommitIdAt(k, f, i)] < rank[CommitIdAt(k, f, j)]
    decreases j
  {
    hide Identity;
    hide Ranked;
    PullHealth.ParentRank(g, rank, CommitIdAt(k, f, j), CommitIdAt(k, f, j - 1));
    if i < j - 1 {
      ChainRanks(k, g, rank, f, i, j - 1);
    }
  }

  /** No commit is repeated inside one pack: V3 checks it, V2 packs could only repeat one through a cycle. */
  lemma FrameIdsDistinct(k: Contract, g: Graph, rank: map<Id, nat>, format: nat, f: PackFrame)
    requires WellFramed(k, format, f) && Recorded(k, g, f) && Ranked(g, rank)
    ensures Ordering.Distinct(FrameIds(k, f))
  {
    hide Identity;
    forall i, j | 0 <= i < j < |f.commits| ensures FrameIds(k, f)[i] != FrameIds(k, f)[j] {
      if format == PACK_FORMAT_V3 {
        assert Identity(k, f.commits[i]).value.id != Identity(k, f.commits[j]).value.id;
      } else {
        ChainRecorded(k, g, f);
        ChainRanks(k, g, rank, f, i, j);
      }
    }
  }

  lemma {:induction false} FlatIdsMembers(k: Contract, frames: seq<PackFrame>, id: CommitIdentity)
    requires forall i, j :: 0 <= i < |frames| && 0 <= j < |frames[i].commits| ==>
                            Identity(k, frames[i].commits[j]).Some?
    ensures id in FlatIds(k, frames) <==> exists i :: 0 <= i < |frames| && id in Ids(k, frames[i])
    decreases |frames|
  {
    hide Identity;
    hide Ids;
    hide FrameIds;
    if frames != [] {
      var last := |frames| - 1;
      FlatIdsMembers(k, frames[..last], id);
      FrameIdsMembers(k, frames[last]);
      assert forall i :: 0 <= i < last ==> frames[..last][i] == frames[i];
      if id in FlatIds(k, frames[..last]) {
        var i :| 0 <= i < last && id in Ids(k, frames[..last][i]);
        assert id in Ids(k, frames[i]);
      }
      if i :| 0 <= i < |frames| && id in Ids(k, frames[i]) {
        if i < last { assert id in Ids(k, frames[..last][i]); }
      }
    }
  }

  lemma {:induction false} FlatIdsDistinct(k: Contract, frames: seq<PackFrame>)
    requires forall i, j :: 0 <= i < |frames| && 0 <= j < |frames[i].commits| ==>
                            Identity(k, frames[i].commits[j]).Some?
    requires forall i :: 0 <= i < |frames| ==> Ordering.Distinct(FrameIds(k, frames[i]))
    requires forall i, j, id :: 0 <= i < |frames| && 0 <= j < |frames| && i != j && id in Ids(k, frames[i]) ==>
                                id !in Ids(k, frames[j])
    ensures Ordering.Distinct(FlatIds(k, frames))
    decreases |frames|
  {
    hide Identity;
    hide Ids;
    hide FrameIds;
    if frames != [] {
      var last := |frames| - 1;
      var front := frames[..last];
      assert forall i :: 0 <= i < last ==> front[i] == frames[i];
      FlatIdsDistinct(k, front);
      FrameIdsMembers(k, frames[last]);
      forall id | id in FlatIds(k, front) ensures id !in FrameIds(k, frames[last]) {
        FlatIdsMembers(k, front, id);
        var i :| 0 <= i < |front| && id in Ids(k, front[i]);
        assert id in Ids(k, frames[i]);
      }
      DistinctAppend(FlatIds(k, front), FrameIds(k, frames[last]));
    } else {
      assert FlatIds(k, frames) == [];
    }
  }

  lemma DistinctAppend(a: seq<CommitIdentity>, b: seq<CommitIdentity>)
    requires Ordering.Distinct(a) && Ordering.Distinct(b) && forall x :: x in a ==> x !in b
    ensures Ordering.Distinct(a + b)
  {
    assert forall i :: 0 <= i < |a| ==> a[i] in a;
    assert forall i :: 0 <= i < |b| ==> b[i] in b;
  }

  /** A plan for an empty client passes every global check of the decoder exactly when the head's pack is last. */
  lemma PlanFramesAccepted(k: Contract, store: PullStore, rank: map<Id, nat>, head: Id, ranges: seq<PackRange>)
    requires PlanOk(k, store, head, "", ranges) && AllRecorded(k, store) && Ranked(store.commits, rank)
    ensures FramesAccepted(k, head, PlanFrames(k, store, ranges)) <==> ranges[|ranges| - 1].target == head
  {
    hide Identity;
    hide Read;
    hide Ids;
    hide FrameIds;
    hide FlatIds;
    hide MergeParents;
    hide AllParents;
    hide Recorded;
    hide Ranked;
    var frames := PlanFrames(k, store, ranges);
    PlanFramesIdentified(k, store, rank, head, ranges);
    FlatIdsDistinct(k, frames);
    forall i, j | 0 <= i < j < |frames| ensures !(HeadAt(head, frames, i) && HeadAt(head, frames, j)) {
      ReadFacts(k, store, ranges[i]);
      ReadFacts(k, store, ranges[j]);
      assert V2(ranges[i].target) in Ids(k, frames[i]) && V2(ranges[j].target) in Ids(k, frames[j]);
    }
    forall i, p | 0 <= i < |frames| && p in MergeParents(frames[i]) ensures p in FlatIds(k, frames) {
      MergeParentCarried(k, store, head, ranges, i, p);
      FlatIdsMembers(k, frames, p);
      var j :| 0 <= j < |ranges| && Read(k, store, ranges[j]).Some? && p in Ids(k, Read(k, store, ranges[j]).value);
      assert p in Ids(k, frames[j]);
    }
    ReadFacts(k, store, ranges[|ranges| - 1]);
  }

  lemma PlanFramesIdentified(k: Contract, store: PullStore, rank: map<Id, nat>, head: Id, ranges: seq<PackRange>)
    requires PlanOk(k, store, head, "", ranges) && AllRecorded(k, store) && Ranked(store.commits, rank)
    ensures |ranges| > 0
    ensures var frames := PlanFrames(k, store, ranges);
            && (forall i, j :: 0 <= i < |frames| && 0 <= j < |frames[i].commits| ==>
                               Identity(k, frames[i].commits[j]).Some?)
            && (forall i :: 0 <= i < |frames| ==> Ordering.Distinct(FrameIds(k, frames[i])))
  {
    hide Identity;
    hide Recorded;
    hide Ranked;
    hide FrameIds;
    hide Unframe;
    var frames := PlanFrames(k, store, ranges);
    forall i | 0 <= i < |frames|
      ensures Ordering.Distinct(FrameIds(k, frames[i]))
      ensures forall j :: 0 <= j < |frames[i].commits| ==> Identity(k, frames[i].commits[j]).Some?
    {
      assert IsRow(store, ranges[i]);
      ReadFacts(k, store, ranges[i]);
      assert Recorded(k, store.commits, frames[i]);
      FrameIdsDistinct(k, store.commits, rank, ranges[i].format, frames[i]);
    }
  }

  /** With nothing known to the client, every merge parent of a planned pack is carried by the plan. */
  lemma MergeParentCarried(k: Contract, store: PullStore, head: Id, ranges: seq<PackRange>, i: nat, p: CommitIdentity)
    requires PlanOk(k, store, head, "", ranges) && i < |ranges|
    requires Read(k, store, ranges[i]).Some? && p in MergeParents(Read(k, store, ranges[i]).value)
    ensures Carried(k, store, ranges, p)
  {
    hide Read;
    hide Identity;
    var f := Read(k, store, ranges[i]).value;
    ReadFacts(k, store, ranges[i]);
    var a, j :| 0 <= a < |f.commits| && 1 <= j < |f.commits[a].parents| && f.commits[a].parents[j] == p;
    assert Identity(k, f.commits[a]).Some?;
    assert p in f.commits[a].parents;
    BaseNamed(p);
  }

  /** Whatever a streamed envelope decodes to is what was streamed. */
  lemma StreamedParsesBack(k: Contract, mc: ManifestCodec, m: PullManifest, packs: seq<Bytes>, m': PullManifest,
                           packs': seq<Bytes>)
    requires Lawful(mc) && |packs| == |m.packs| && forall i :: 0 <= i < |packs| ==> |packs[i]| == m.packs[i].length
    requires |Envelope(PULL_MAGIC, PULL_ENVELOPE_FORMAT_V2, mc.encode(m), packs)| < Pow256(8)
    requires Accepts(k, mc, Envelope(PULL_MAGIC, PULL_ENVELOPE_FORMAT_V2, mc.encode(m), packs), m', packs')
    ensures m' == m && packs' == packs
  {
    hide FramesAccepted;
    hide BigEndian;
    hide Concat;
    hide Pow256;
    hide Accepts;
    hide ParseHeader;
    var body := mc.encode(m);
    var data := Envelope(PULL_MAGIC, PULL_ENVELOPE_FORMAT_V2, body, packs);
    var end := HEADER_SIZE + |body|;
    VersionFits();
    AcceptedLayout(k, mc, data, m', packs');
    AcceptedLengths(k, mc, data, m', packs');
    assert data == Header(PULL_MAGIC, PULL_ENVELOPE_FORMAT_V2, |body|) + body + Concat(packs);
    assert data[..HEADER_SIZE] == Header(PULL_MAGIC, PULL_ENVELOPE_FORMAT_V2, |body|);
    HeaderExact(data, PULL_MAGIC, PULL_ENVELOPE_FORMAT_V2, end);
    assert data[HEADER_SIZE..end] == body && data[end..] == Concat(packs);
    assert mc.encode(m') == body;
    assert mc.decode(body) == Some(m') == Some(m);
    ConcatUnique(packs', packs);
  }

  /** What is streamed for a plan is accepted back exactly when the head's pack was planned last. */
  lemma StreamAccepted(k: Contract, mc: ManifestCodec, store: PullStore, rank: map<Id, nat>, plan: Plan,
                       m: PullManifest, data: Bytes)
    requires |plan.ranges| > 0 && forall i :: 0 <= i < |plan.ranges| ==> plan.ranges[i].hash in store.blobs
    requires PlanOk(k, store, plan.head, "", plan.ranges) && AllRecorded(k, store) && Ranked(store.commits, rank)
    requires ManifestOf(store, plan, m) && ValidManifest(m)
    requires data == Envelope(PULL_MAGIC, PULL_ENVELOPE_FORMAT_V2, mc.encode(m), BlobsOf(store, plan.ranges))
    ensures Accepts(k, mc, data, m, BlobsOf(store, plan.ranges)) <==> plan.ranges[|plan.ranges| - 1].target == plan.head
  {
    hide *;
    var blobs := BlobsOf(store, plan.ranges);
    PlanFramesAccepted(k, store, rank, plan.head, plan.ranges);
    PlanRowsServed(k, store, plan, m);
    StreamedFrames(k, store, plan, m);
    AcceptsByFrames(k, mc, data, m, blobs);
  }

  /** The streamed packs stand for the planned frames. */
  lemma StreamedFrames(k: Contract, store: PullStore, plan: Plan, m: PullManifest)
    requires PlanOk(k, store, plan.head, "", plan.ranges) && ManifestOf(store, plan, m)
    requires forall i :: 0 <= i < |plan.ranges| ==> Read(k, store, plan.ranges[i]).Some?
    requires var blobs := BlobsOf(store, plan.ranges);
             forall i :: 0 <= i < |blobs| ==> Unframe(k, m.packs[i].format, blobs[i]) == Read(k, store, plan.ranges[i])
    ensures |BlobsOf(store, plan.ranges)| == |m.packs| && m.head == plan.head
    ensures FramesOf(k, m, BlobsOf(store, plan.ranges)) == PlanFrames(k, store, plan.ranges)
  {
    hide PlanOk;
    hide Read;
    hide Unframe;
    var blobs := BlobsOf(store, plan.ranges);
    assert forall i :: 0 <= i < |blobs| ==> FramesOf(k, m, blobs)[i] == PlanFrames(k, store, plan.ranges)[i];
  }

  lemma AcceptsByFrames(k: Contract, mc: ManifestCodec, data: Bytes, m: PullManifest, blobs: seq<Bytes>)
    requires ValidManifest(m) && |blobs| == |m.packs|
    requires data == Envelope(PULL_MAGIC, PULL_ENVELOPE_FORMAT_V2, mc.encode(m), blobs)
    requires forall i :: 0 <= i < |blobs| ==>
                         PackAccepted(k, m.packs[i], blobs[i]) && Unframe(k, m.packs[i].format, blobs[i]).Some?
    ensures Accepts(k, mc, data, m, blobs) <==> FramesAccepted(k, m.head, FramesOf(k, m, blobs))
  {
    hide FramesAccepted;
    hide Envelope;
    hide Unframe;
    hide PackAccepted;
    hide FramesOf;
  }

  lemma PlanRowsServed(k: Contract, store: PullStore, plan: Plan, m: PullManifest)
    requires PlanOk(k, store, plan.head, "", plan.ranges) && ManifestOf(store, plan, m)
    ensures forall i :: 0 <= i < |plan.ranges| ==> Read(k, store, plan.ranges[i]).Some?
    ensures var blobs := BlobsOf(store, plan.ranges);
            forall i :: 0 <= i < |blobs| ==>
              && PackAccepted(k, m.packs[i], blobs[i])
                && Unframe(k, m.packs[i].format, blobs[i]) == Read(k, store, plan.ranges[i])
  {
    hide Unframe;
    hide Identity;
    hide MergeParents;
    hide AllParents;
    hide Ids;
    forall i | 0 <= i < |plan.ranges|
      ensures PackAccepted(k, m.packs[i], store.blobs[plan.ranges[i].hash])
              && Unframe(k, m.packs[i].format, store.blobs[plan.ranges[i].hash]) == Read(k, store, plan.ranges[i])
    {
      assert Read(k, store, plan.ranges[i]).Some?;
    }
  }

  /** BLAKE3 content IDs have the form every validator asks for. */
  ghost predicate ContentIdsValid(k: Contract) {
    forall data :: ValidContentID(k.contentId(data))
  }

  lemma PlanServable(k: Contract, store: PullStore, plan: Plan)
    requires PlanOk(k, store, plan.head, "", plan.ranges) && ContentIdsValid(k)
    ensures |plan.ranges| > 0 && ValidContentID(plan.head)
    ensures forall i :: 0 <= i < |plan.ranges| ==> Servable(k, store, plan.ranges[i])
  {
    PlanHasHead(k, store, plan.head, "", plan.ranges);
    hide PlanOk;
    var i :| 0 <= i < |plan.ranges| && plan.ranges[i].target == plan.head;
    forall j | 0 <= j < |plan.ranges| ensures Read(k, store, plan.ranges[j]).Some? {
      PlanReads(k, store, plan, j);
    }
    hide Read;
    hide ValidContentID;
    hide Servable;
    forall j | 0 <= j < |plan.ranges| ensures Servable(k, store, plan.ranges[j]) {
      ReadServable(k, store, plan.ranges[j]);
    }
    HeadIdValid(k, store, plan.ranges[i]);
  }

  lemma PlanReads(k: Contract, store: PullStore, plan: Plan, i: nat)
    requires PlanOk(k, store, plan.head, "", plan.ranges) && i < |plan.ranges|
    ensures Read(k, store, plan.ranges[i]).Some?
  {
    hide Read;
  }

  lemma ReadServable(k: Contract, store: PullStore, row: PackRange)
    requires Read(k, store, row).Some? && ContentIdsValid(k)
    ensures Servable(k, store, row)
  {
    hide Unframe;
    hide ValidContentID;
    assert ValidContentID(k.contentId(store.blobs[row.hash]));
  }

  lemma HeadIdValid(k: Contract, store: PullStore, row: PackRange)
    requires Read(k, store, row).Some?
    ensures ValidContentID(row.target)
  {
    hide Identity;
    ReadFacts(k, store, row);
    assert ValidIdentity(Read(k, store, row).value.target);
  }

  /** A full pull by a client that knows nothing, and the client's decoding of what it receives. It is planned exactly
      if the pull is plannable, and then decoded exactly if the head's pack is on top of the packs that are needed. */
  method FullPull(k: Contract, mc: ManifestCodec, store: PullStore, branch: string)
    returns (plan: Result<Plan, PullError>, sent: Option<(PullManifest, Bytes)>,
             received: Option<(PullManifest, seq<Bytes>)>)
    requires Lawful(mc) && ContentIdsValid(k)
    requires RangesValid(store) && ChainsEnd(store) && Acyclic(store.commits) && AllRecorded(k, store)
    ensures plan.Ok? <==> Negotiated(store, branch, "") && HeadChainComplete(store, branch, "")
                          && Plannable(k, store, "", FirstRows(store, branch, ""))
    ensures Negotiated(store, branch, "") && HeadChainComplete(store, branch, "") && plan.Err? ==>
              Fails(k, store, "", FirstRows(store, branch, ""), plan.error)
    ensures plan.Ok? ==> var all := Closure(k, store, "", FirstRows(store, branch, ""));
                         && plan.value.head == store.heads[branch] && |plan.value.ranges| > 0
                         && PlanOk(k, store, plan.value.head, "", plan.value.ranges)
                           && PlansExactly(plan.value.ranges, all)
    ensures plan.Ok? <==> sent.Some?
    ensures plan.Ok? ==> && ManifestOf(store, plan.value, sent.value.0)
                         && sent.value.1 == Envelope(PULL_MAGIC, PULL_ENVELOPE_FORMAT_V2, mc.encode(sent.value.0),
                                                     BlobsOf(store, plan.value.ranges))
    ensures sent.Some? && |sent.value.1| < Pow256(8) ==>
              match received
              case Some(r) => Accepts(k, mc, sent.value.1, r.0, r.1)
              case None => forall m, packs :: !Accepts(k, mc, sent.value.1, m, packs)
    ensures sent.Some? && |sent.value.1| < Pow256(8) ==>
              (received.Some? <==>
                 HeadOnTop(k, store, store.heads[branch], Closure(k, store, "", FirstRows(store, branch, ""))))
    ensures sent.Some? && |sent.value.1| < Pow256(8) && LinkedStore(k, store) ==> received.Some?
    ensures sent.Some? && |sent.value.1| < Pow256(8) && received.Some? ==>
              && received.value.0 == sent.value.0
              && |received.value.1| == |plan.value.ranges|
              && forall i :: 0 <= i < |plan.value.ranges| ==>
                   plan.value.ranges[i].hash in store.blobs
                     && received.value.1[i] == store.blobs[plan.value.ranges[i].hash]
  {
    hide *;
    plan := PreparePull(k, store, branch, "");
    if plan.Err? {
      return plan, None, None;
    }
    var manifest, data := Serve(k, mc, store, plan.value);
    sent := Some((manifest, data));
    if |data| >= Pow256(8) {
      return plan, sent, None;
    }
    ServedAccepted(k, mc, store, plan.value, manifest, data);
    received := Decode(k, mc, manifest, data, BlobsOf(store, plan.value.ranges));
  }

  /** What the client's checks say about a served plan. */
  lemma ServedAccepted(k: Contract, mc: ManifestCodec, store: PullStore, plan: Plan, m: PullManifest, data: Bytes)
    requires |plan.ranges| > 0 && forall i :: 0 <= i < |plan.ranges| ==> plan.ranges[i].hash in store.blobs
    requires PlanOk(k, store, plan.head, "", plan.ranges) && AllRecorded(k, store) && Acyclic(store.commits)
    requires ManifestOf(store, plan, m) && ValidManifest(m)
    requires data == Envelope(PULL_MAGIC, PULL_ENVELOPE_FORMAT_V2, mc.encode(m), BlobsOf(store, plan.ranges))
    ensures var blobs := BlobsOf(store, plan.ranges);
            && |blobs| == |m.packs| == |plan.ranges|
            && (forall i :: 0 <= i < |blobs| ==>
                            |blobs[i]| == m.packs[i].length && blobs[i] == store.blobs[plan.ranges[i].hash])
            && (Accepts(k, mc, data, m, blobs) <==> plan.ranges[|plan.ranges| - 1].target == plan.head)
    ensures LinkedStore(k, store) ==> plan.ranges[|plan.ranges| - 1].target == plan.head
  {
    var rank: map<Id, nat> :| Ranked(store.commits, rank);
    hide *;
    ManifestLengths(k, store, plan, m);
    StreamAccepted(k, mc, store, rank, plan, m, data);
    PlanEnds(k, store, plan);
  }

  /** A plan can always be served: manifest, then stream. */
  method Serve(k: Contract, mc: ManifestCodec, store: PullStore, plan: Plan) returns (m: PullManifest, data: Bytes)
    requires Lawful(mc) && ContentIdsValid(k) && PlanOk(k, store, plan.head, "", plan.ranges)
    ensures |plan.ranges| > 0 && forall i :: 0 <= i < |plan.ranges| ==> plan.ranges[i].hash in store.blobs
    ensures ManifestOf(store, plan, m) && ValidManifest(m)
    ensures data == Envelope(PULL_MAGIC, PULL_ENVELOPE_FORMAT_V2, mc.encode(m), BlobsOf(store, plan.ranges))
  {
    hide *;
    PlanServable(k, store, plan);
    var manifest := BuildPullManifest(k, store, plan);
    assert manifest.Some?;
    m := manifest.value;
    var streamed := StreamPull(k, mc, store, plan, m);
    assert streamed.Some?;
    data := streamed.value;
    ManifestLengths(k, store, plan, m);
  }

  /** The client's side: what it decodes is what was streamed, and it decodes exactly what its checks accept. */
  method Decode(k: Contract, mc: ManifestCodec, ghost m: PullManifest, data: Bytes, ghost blobs: seq<Bytes>)
    returns (received: Option<(PullManifest, seq<Bytes>)>)
    requires Lawful(mc) && |data| < Pow256(8) && |blobs| == |m.packs|
    requires forall i :: 0 <= i < |blobs| ==> |blobs[i]| == m.packs[i].length
    requires data == Envelope(PULL_MAGIC, PULL_ENVELOPE_FORMAT_V2, mc.encode(m), blobs)
    ensures received.Some? <==> Accepts(k, mc, data, m, blobs)
    ensures received.Some? ==> received.value == (m, blobs)
    ensures received.None? ==> forall m', packs' :: !Accepts(k, mc, data, m', packs')
  {
    hide *;
    var decoded := UnmarshalPullEnvelope(k, mc, data);
    if decoded.Ok? {
      StreamedParsesBack(k, mc, m, blobs, decoded.value.0, decoded.value.1);
      return Some(decoded.value);
    }
    return None;
  }

  /** In a healthy repository every full pull of a branch whose head is a pack's target is planned, and decoded
      again. */
  lemma HealthyPulls(k: Contract, store: PullStore, branch: string)
    requires PullHealth.Healthy(k, store) && branch != "" && branch in store.heads && store.heads[branch] != ""
    requires store.heads[branch] in store.ranges
    ensures Negotiated(store, branch, "") && HeadChainComplete(store, branch, "")
    ensures Plannable(k, store, "", FirstRows(store, branch, "")) && LinkedStore(k, store)
  {
    hide Plannable;
    hide LinkedStore;
    PullHealth.CompleteChain(store, store.heads[branch]);
    PullHealth.HealthyPlannable(k, store, "", FirstRows(store, branch, ""));
    V2StoreLinked(k, store);
  }

  lemma PlanEnds(k: Contract, store: PullStore, plan: Plan)
    requires PlanOk(k, store, plan.head, "", plan.ranges)
    ensures LinkedStore(k, store) ==> plan.ranges[|plan.ranges| - 1].target == plan.head
  {
    hide Read;
    hide LinkedStore;
  }

  lemma ManifestLengths(k: Contract, store: PullStore, plan: Plan, m: PullManifest)
    requires ManifestOf(store, plan, m)
    ensures var blobs := BlobsOf(store, plan.ranges);
            && |blobs| == |m.packs| == |plan.ranges|
            && (forall i :: 0 <= i < |blobs| ==> |blobs[i]| == m.packs[i].length)
            && (forall i :: 0 <= i < |blobs| ==>
                            plan.ranges[i].hash in store.blobs && blobs[i] == store.blobs[plan.ranges[i].hash])
  {}

  /** V2 packs always contain their base as a parent, so a repository of V2 packs is linked. */
  lemma V2StoreLinked(k: Contract, store: PullStore)
    requires AllV2(store)
    ensures LinkedStore(k, store)
  {
    hide Read;
    forall t | t in store.ranges
      ensures match Read(k, store, store.ranges[t]) case None => true case Some(f) => Linked(f)
    {
      if Read(k, store, store.ranges[t]).Some? {
        ReadFacts(k, store, store.ranges[t]);
      }
    }
  }
}
