// Reachability garbage collection of native packs (internal/server/retention/retention.go) over the tables of
// internal/server/storage/postgres/store.go.
module Retention {
  import opened Wrappers
  import opened Ordering
  import opened CommitGraph
  import Ancestry

  const MAX_RETENTION_ANCESTRY_COMMITS: nat := 200000

  /** A native_packs row; `objects` are the ids of the objects its blob carries. An empty commit stands for NULL. */
  datatype PackRow = PackRow(hash: string, commit: Id, objects: set<string>)

  /** A retention root: an active transaction or an audit record. Empty fields stand for NULL. */
  datatype Anchor = Anchor(commit: Id, obj: string)

  datatype Tables = Tables(
    graph: Graph, heads: map<string, Id>, anchors: map<string, Anchor>, audits: seq<Anchor>,
    packs: map<string, PackRow>, locations: map<string, string>, blobs: set<string>)

  datatype Collected = Collected(pack: string, blobCollected: bool)
  datatype Report = Report(retained: seq<string>, collected: seq<Collected>)

  datatype RetentionError =
    | HistoryUnreadable(cause: Ancestry.HistoryError)
    | DeleteFailed(pack: string)
    | BlobDeleteFailed(hash: string)

  /** Deletions that fail, if any. */
  datatype Faults = Faults(packs: set<string>, hashes: set<string>)

  // ----- what is retained ---------------------------------------------------------------

  /** A commit id that heads, active transactions or audit records name. Deleted branches count. */
  ghost predicate RootCommit(t: Tables, c: Id) {
    c != "" && ((exists b :: b in t.heads && t.heads[b] == c)
                || (exists a :: a in t.anchors && t.anchors[a].commit == c)
                || (exists r :: r in t.audits && r.commit == c))
  }

  ghost predicate RootObject(t: Tables, o: string) {
    o != "" && ((exists a :: a in t.anchors && t.anchors[a].obj == o) || (exists r :: r in t.audits && r.obj == o))
  }

  /** An ancestor of a root commit; an unregistered root is its own only ancestor. */
  ghost predicate RetainedCommit(t: Tables, c: Id) {
    exists r :: RootCommit(t, r) && Reaches(t.graph, r, c)
  }

  ghost predicate Keep(t: Tables, p: string)
    requires p in t.packs
  {
    || (t.packs[p].commit != "" && RetainedCommit(t, t.packs[p].commit))
    || (exists o :: RootObject(t, o) && o in t.locations && t.locations[o] == p)
  }

  ghost function Kept(t: Tables): set<string> {
    set p | p in t.packs && Keep(t, p)
  }

  ghost function KeptHashes(t: Tables): set<string> {
    set p | p in Kept(t) :: t.packs[p].hash
  }

  ghost function HashesOf(t: Tables, ps: set<string>): set<string> {
    set p | p in ps && p in t.packs :: t.packs[p].hash
  }

  /** The tables without the packs in `gone`; the blobs of their hashes go too unless a kept pack has the same one. */
  ghost function Without(t: Tables, gone: set<string>, canDelete: bool): Tables
    requires gone <= t.packs.Keys
  {
    t.(packs := t.packs - gone,
       locations := map o | o in t.locations && t.locations[o] !in gone :: t.locations[o],
       blobs := if canDelete then t.blobs - (HashesOf(t, gone) - KeptHashes(t)) else t.blobs)
  }

  /** The report for a state: all kept packs, all others, and each reclaimable blob at the first pack that used it. */
  ghost predicate Reports(t: Tables, canDelete: bool, r: Report) {
    && r.retained == SortedList(Kept(t))
    && CollectedFrom(t, canDelete, SortedList(t.packs.Keys - Kept(t)), r.collected)
  }

  ghost predicate CollectedFrom(t: Tables, canDelete: bool, candidates: seq<string>, cs: seq<Collected>)
    requires forall p :: p in candidates ==> p in t.packs
  {
    && |cs| == |candidates|
    && forall i :: 0 <= i < |cs| ==>
                   cs[i].pack == candidates[i] && (cs[i].blobCollected <==> canDelete && FirstUse(t, candidates, i))
  }

  /** No kept pack and no earlier candidate has the hash of candidate `i`. */
  ghost predicate FirstUse(t: Tables, candidates: seq<string>, i: nat)
    requires i < |candidates| && forall p :: p in candidates ==> p in t.packs
  {
    && t.packs[candidates[i]].hash !in KeptHashes(t)
    && forall j :: 0 <= j < i ==> t.packs[candidates[j]].hash != t.packs[candidates[i]].hash
  }

  // ----- collecting ---------------------------------------------------------------------

  /** The ids added so far are the ancestors of the root ids handled so far. */
  ghost predicate Expanded(g: Graph, roots: set<Id>, retained: set<Id>) {
    forall c :: c in retained <==> exists r :: r in roots && r != "" && Reaches(g, r, c)
  }

  lemma ExpandedMore(g: Graph, roots: set<Id>, retained: set<Id>, r: Id, more: set<Id>)
    requires Expanded(g, roots, retained) && r != "" && forall c :: c in more <==> Reaches(g, r, c)
    ensures Expanded(g, roots + {r}, retained + more)
  {
    hide Reaches;
    forall c ensures c in retained + more <==> exists x :: x in roots + {r} && x != "" && Reaches(g, x, c) {
      if Reaches(g, r, c) { assert r in roots + {r}; }
      if x :| x in roots && x != "" && Reaches(g, x, c) { assert x in roots + {r}; }
    }
  }

  function Members(ids: seq<string>): set<string> { set id | id in ids }

  /** addCommitRoot, for a list of roots in order. */
  method AddCommitRoots(g: Graph, ghost roots: set<Id>, retained0: set<Id>, ids: seq<Id>)
    returns (r: Result<set<Id>, RetentionError>)
    requires Expanded(g, roots, retained0)
    ensures r.Ok? ==> Expanded(g, roots + Members(ids), r.value)
    ensures r.Err? ==> r.error.HistoryUnreadable?
    ensures Closed(g) && (forall c :: c in g ==> |Ancestry.Ancestors(g, c)| <= MAX_RETENTION_ANCESTRY_COMMITS) ==> r.Ok?
  {
    hide Reaches;
    hide Expanded;
    hide Ancestry.Ancestors;
    var retained := retained0;
    assert roots + Members(ids[..0]) == roots;
    for n := 0 to |ids|
      invariant Expanded(g, roots + Members(ids[..n]), retained)
    {
      ghost var done := roots + Members(ids[..n]);
      var commitID := ids[n];
      assert ids[..n + 1] == ids[..n] + [commitID];
      assert roots + Members(ids[..n + 1]) == done + {commitID};
      if commitID == "" {
        EmptyRoot(g, done, retained);
      } else {
        var ancestry := Ancestry.CommitAncestryIDs(g, commitID, MAX_RETENTION_ANCESTRY_COMMITS);
        if ancestry == Err(Ancestry.CommitNotFound) {
          OnlyItself(g, commitID);
          ExpandedMore(g, done, retained, commitID, {commitID});
          retained := retained + {commitID};
        } else if ancestry.Err? {
          return Err(HistoryUnreadable(ancestry.error));
        } else {
          var more := set id | id in ancestry.value;
          ReachesSelf(g, commitID);
          ExpandedMore(g, done, retained, commitID, more + {commitID});
          retained := retained + (more + {commitID});
        }
      }
    }
    assert ids[..|ids|] == ids;
    return Ok(retained);
  }

  lemma EmptyRoot(g: Graph, roots: set<Id>, retained: set<Id>)
    requires Expanded(g, roots, retained)
    ensures Expanded(g, roots + {""}, retained)
  {
    hide Reaches;
  }

  lemma OnlyItself(g: Graph, c: Id)
    requires c !in g
    ensures forall a :: Reaches(g, c, a) <==> a == c
  {
    hide Reaches;
    forall a ensures Reaches(g, c, a) <==> a == c {
      Ancestry.NothingFrom(g, c, a);
      ReachesSelf(g, c);
    }
  }

  function AnchorCommits(anchors: seq<Anchor>): (ids: seq<Id>)
    ensures |ids| == |anchors|
  {
    seq(|anchors|, i requires 0 <= i < |anchors| => anchors[i].commit)
  }

  function AnchorObjects(anchors: seq<Anchor>): (ids: seq<string>)
    ensures |ids| == |anchors|
  {
    seq(|anchors|, i requires 0 <= i < |anchors| => anchors[i].obj)
  }

  /** The rows of a table in key order, as the List methods return them. */
  method ListRows<V>(m: map<string, V>) returns (rows: seq<V>)
    ensures forall v :: v in rows <==> exists k :: k in m && m[k] == v
  {
    var keys := ToSortedSeq(m.Keys);
    rows := seq(|keys|, i requires 0 <= i < |keys| => assert keys[i] in keys; m[keys[i]]);
    forall v | exists k :: k in m && m[k] == v ensures v in rows {
      var k :| k in m && m[k] == v;
      var i :| 0 <= i < |keys| && keys[i] == k;
      assert rows[i] == v;
    }
    forall v | v in rows ensures exists k :: k in m && m[k] == v {
      var i :| 0 <= i < |rows| && rows[i] == v;
      assert keys[i] in keys;
      assert keys[i] in m && m[keys[i]] == v;
    }
  }

  /** The root commit ids are those of the three lists. */
  lemma RootsListed(t: Tables, heads: seq<Id>, anchors: seq<Anchor>, c: Id)
    requires forall v :: v in heads <==> exists k :: k in t.heads && t.heads[k] == v
    requires forall v :: v in anchors <==> exists k :: k in t.anchors && t.anchors[k] == v
    ensures RootCommit(t, c) <==> c != ""
                                  && c in Members(heads) + Members(AnchorCommits(anchors))
                                  + Members(AnchorCommits(t.audits))
  {
    AnchorCommitIn(anchors, c);
    AnchorCommitIn(t.audits, c);
  }

  lemma AnchorCommitIn(anchors: seq<Anchor>, c: Id)
    ensures c in AnchorCommits(anchors) <==> exists r :: r in anchors && r.commit == c
  {
    if c in AnchorCommits(anchors) {
      var i :| 0 <= i < |anchors| && AnchorCommits(anchors)[i] == c;
      assert anchors[i] in anchors;
    }
    if r :| r in anchors && r.commit == c {
      var i :| 0 <= i < |anchors| && anchors[i] == r;
      assert AnchorCommits(anchors)[i] == c;
    }
  }

  lemma AnchorObjectIn(anchors: seq<Anchor>, o: string)
    ensures o in AnchorObjects(anchors) <==> exists r :: r in anchors && r.obj == o
  {
    if o in AnchorObjects(anchors) {
      var i :| 0 <= i < |anchors| && AnchorObjects(anchors)[i] == o;
      assert anchors[i] in anchors;
    }
    if r :| r in anchors && r.obj == o {
      var i :| 0 <= i < |anchors| && anchors[i] == r;
      assert AnchorObjects(anchors)[i] == o;
    }
  }

  lemma ObjectsListed(t: Tables, anchors: seq<Anchor>, o: string)
    requires forall v :: v in anchors <==> exists k :: k in t.anchors && t.anchors[k] == v
    ensures RootObject(t, o) <==> o != "" && o in Members(AnchorObjects(anchors)) + Members(AnchorObjects(t.audits))
  {
    AnchorObjectIn(anchors, o);
    AnchorObjectIn(t.audits, o);
  }

  /** The objects named by anchors, in the loops over active transactions and audit records. */
  method AddObjectRoots(rooted0: set<string>, anchors: seq<Anchor>) returns (rooted: set<string>)
    ensures forall o :: o in rooted <==> o in rooted0 || (o != "" && o in AnchorObjects(anchors))
  {
    rooted := rooted0;
    for i := 0 to |anchors|
      invariant forall o :: o in rooted <==> o in rooted0 || (o != "" && o in AnchorObjects(anchors)[..i])
    {
      assert AnchorObjects(anchors)[..i + 1] == AnchorObjects(anchors)[..i] + [anchors[i].obj];
      if anchors[i].obj != "" {
        rooted := rooted + {anchors[i].obj};
      }
    }
    assert AnchorObjects(anchors)[..|anchors|] == AnchorObjects(anchors);
  }

  /** Every recorded history is complete and within the traversal bound. */
  ghost predicate Readable(g: Graph) {
    Closed(g) && forall c :: c in g ==> |Ancestry.Ancestors(g, c)| <= MAX_RETENTION_ANCESTRY_COMMITS
  }

  /** The reading half of Collect: which packs are reachable. */
  method FindKept(t: Tables) returns (r: Result<set<string>, RetentionError>)
    ensures r.Ok? ==> r.value == Kept(t)
    ensures r.Err? ==> r.error.HistoryUnreadable?
    ensures Readable(t.graph) ==> r.Ok?
  {
    hide Reaches;
    hide RootCommit;
    hide RootObject;
    hide Members;
    hide Ancestry.Ancestors;
    var heads := ListRows(t.heads);
    var txns := ListRows(t.anchors);
    var fromHeads := AddCommitRoots(t.graph, {}, {}, heads);
    if fromHeads.Err? { return Err(fromHeads.error); }
    var fromTxns := AddCommitRoots(t.graph, {} + Members(heads), fromHeads.value, AnchorCommits(txns));
    if fromTxns.Err? { return Err(fromTxns.error); }
    var fromAudits := AddCommitRoots(t.graph, {} + Members(heads) + Members(AnchorCommits(txns)), fromTxns.value,
                                     AnchorCommits(t.audits));
    if fromAudits.Err? { return Err(fromAudits.error); }
    var retained := fromAudits.value;
    assert forall c :: c in retained <==> RetainedCommit(t, c) by {
      forall c ensures RootCommit(t, c) <==>
        c != "" && c in {} + Members(heads) + Members(AnchorCommits(txns)) + Members(AnchorCommits(t.audits)) {
        RootsListed(t, heads, txns, c);
      }
    }
    var rootedObjects := AddObjectRoots({}, txns);
    rootedObjects := AddObjectRoots(rootedObjects, t.audits);
    assert forall o :: o in rootedObjects <==> RootObject(t, o) by {
      forall o ensures o in rootedObjects <==> RootObject(t, o) { RootedObject(t, txns, o); }
    }
    var rootedPacks := set o | o in rootedObjects && o in t.locations :: t.locations[o];
    var kept := set p | p in t.packs
      && ((t.packs[p].commit != "" && t.packs[p].commit in retained) || p in rootedPacks);
    KeptIs(t, retained, rootedObjects, rootedPacks, kept);
    return Ok(kept);
  }

  lemma RootedObject(t: Tables, anchors: seq<Anchor>, o: string)
    requires forall v :: v in anchors <==> exists k :: k in t.anchors && t.anchors[k] == v
    ensures RootObject(t, o) <==> o != "" && (o in AnchorObjects(anchors) || o in AnchorObjects(t.audits))
  {
    ObjectsListed(t, anchors, o);
  }

  lemma KeptIs(t: Tables, retained: set<Id>, rootedObjects: set<string>, rootedPacks: set<string>, kept: set<string>)
    requires forall c :: c in retained <==> RetainedCommit(t, c)
    requires forall o :: o in rootedObjects <==> RootObject(t, o)
    requires rootedPacks == set o | o in rootedObjects && o in t.locations :: t.locations[o]
    requires kept == set p | p in t.packs
             && ((t.packs[p].commit != "" && t.packs[p].commit in retained) || p in rootedPacks)
    ensures kept == Kept(t)
  {
    hide RetainedCommit;
    hide RootObject;
    forall p | p in t.packs ensures p in kept <==> Keep(t, p) {
      if p in rootedPacks {
        var o :| o in rootedObjects && o in t.locations && t.locations[o] == p;
        assert RootObject(t, o);
      }
      if o :| RootObject(t, o) && o in t.locations && t.locations[o] == p {
        assert o in rootedObjects;
      }
    }
  }

  // ----- deleting -----------------------------------------------------------------------

  /** A state that a run of deletions may leave behind: packs outside `gone` and everything they need are intact. */
  ghost predicate Shrunk(t: Tables, u: Tables, gone: set<string>) {
    && gone <= t.packs.Keys - Kept(t)
    && u.packs == t.packs - gone
    && u.locations == (map o | o in t.locations && t.locations[o] !in gone :: t.locations[o])
    && u.blobs <= t.blobs && t.blobs * KeptHashes(t) <= u.blobs
    && u.graph == t.graph && u.heads == t.heads && u.anchors == t.anchors && u.audits == t.audits
  }

  /** The tables of one repository and its CAS packs. */
  class Vault {
    var graph: Graph
    var heads: map<string, Id>
    var anchors: map<string, Anchor>
    var audits: seq<Anchor>
    var packs: map<string, PackRow>
    var locations: map<string, string>
    var blobs: set<string>

    function State(): Tables
      reads this
    {
      Tables(graph, heads, anchors, audits, packs, locations, blobs)
    }

    /** DeleteNativePack: object locations first, then the row. */
    method DeleteNativePack(packID: string)
      modifies this`packs, this`locations
      ensures packs == old(packs) - {packID}
      ensures locations == map o | o in old(locations) && old(locations)[o] != packID :: old(locations)[o]
    {
      locations := map o | o in locations && locations[o] != packID :: locations[o];
      packs := packs - {packID};
    }

    /** The packs in id order, split into the reachable ones and the candidates for deletion. */
    method SplitPacks(kept: set<string>)
      returns (retained: seq<string>, candidates: seq<string>, retainedHashes: set<string>)
      requires kept <= packs.Keys
      ensures retained == SortedList(kept) && candidates == SortedList(packs.Keys - kept)
      ensures retainedHashes == set p | p in kept :: packs[p].hash
    {
      var ids := ToSortedSeq(packs.Keys);
      retained, candidates, retainedHashes := [], [], {};
      for i := 0 to |ids|
        invariant StrictlySorted(retained) && StrictlySorted(candidates)
        invariant forall p :: p in retained <==> p in ids[..i] && p in kept
        invariant forall p :: p in candidates <==> p in ids[..i] && p !in kept
        invariant retainedHashes == set p | p in kept && p in ids[..i] :: packs[p].hash
      {
        var p := ids[i];
        assert p in ids;
        assert ids[..i + 1] == ids[..i] + [p];
        AppendGreater(ids, i, retained);
        AppendGreater(ids, i, candidates);
        if p in kept {
          retained := retained + [p];
          retainedHashes := retainedHashes + {packs[p].hash};
        } else {
          candidates := candidates + [p];
        }
      }
      assert ids[..|ids|] == ids;
      StrictlySortedUnique(retained, SortedList(kept));
      StrictlySortedUnique(candidates, SortedList(packs.Keys - kept));
    }

    /** Deletes one candidate, and its blob if `reclaim` says so. */
    method CollectOne(ghost t: Tables, ghost candidates: seq<string>, ghost i: nat, canDelete: bool, faults: Faults,
                      p: string, hash: string, reclaim: bool)
      returns (r: Result<(), RetentionError>)
      requires i < |candidates| && candidates[i] == p && p in t.packs && hash == t.packs[p].hash
      requires Members(candidates) <= t.packs.Keys - Kept(t) && StrictlySorted(candidates)
      requires Members(candidates[..i]) <= t.packs.Keys && State() == Without(t, Members(candidates[..i]), canDelete)
      requires reclaim ==> canDelete && hash !in KeptHashes(t)
      requires canDelete && !reclaim ==> hash in KeptHashes(t) || hash !in blobs
      modifies this`packs, this`locations, this`blobs
      ensures Members(candidates[..i + 1]) <= t.packs.Keys
      ensures r.Ok? ==> State() == Without(t, Members(candidates[..i + 1]), canDelete)
      ensures r.Err? ==> !r.error.HistoryUnreadable? && (faults.packs != {} || faults.hashes != {})
                         && exists gone :: Shrunk(t, State(), gone)
      ensures !reclaim ==> blobs == old(blobs)
    {
      hide Kept;
      hide KeptHashes;
      hide Shrunk;
      hide StrictlySorted;
      WithoutNext(t, candidates, i, canDelete);
      assert Members(candidates[..i]) <= Members(candidates);
      WithoutShrunk(t, Members(candidates[..i]), canDelete);
      hide Members;
      if p in faults.packs {
        return Err(DeleteFailed(p));
      }
      DeleteNativePack(p);
      DeletedShrunk(t, candidates, i, canDelete, State());
      if reclaim {
        if hash in faults.hashes {
          return Err(BlobDeleteFailed(hash));
        }
        blobs := blobs - {hash};
      }
      assert State() == Without(t, Members(candidates[..i + 1]), canDelete);
      return Ok(());
    }

    /** Collect. A dry run and a real one give the same report; deletions stop at the first one that fails. */
    method Collect(canDelete: bool, dryRun: bool, faults: Faults) returns (r: Result<Report, RetentionError>)
      modifies this`packs, this`locations, this`blobs
      ensures r.Ok? ==> Reports(old(State()), canDelete, r.value)
      ensures r.Ok? && !dryRun ==> State() ==
                                   Without(old(State()), old(State()).packs.Keys - Kept(old(State())), canDelete)
      ensures dryRun || (r.Err? && r.error.HistoryUnreadable?) ==> State() == old(State())
      ensures r.Err? ==> exists gone :: Shrunk(old(State()), State(), gone)
      ensures Readable(old(graph)) && (dryRun || (faults.packs == {} && faults.hashes == {})) ==> r.Ok?
      ensures !canDelete ==> blobs == old(blobs)
    {
      hide Kept;
      hide KeptHashes;
      hide Shrunk;
      hide StrictlySorted;
      hide Members;
      hide Without;
      hide Progress;
      hide Readable;
      ghost var t := State();
      var found := FindKept(State());
      if found.Err? {
        NothingShrunk(t);
        return Err(found.error);
      }
      KeptIndexed(t);
      var retained, candidates, retainedHashes := SplitPacks(found.value);
      HashesRetained(t);
      var rows := packs;
      var handled: set<string> := {};
      var collected: seq<Collected> := [];
      CandidatesFacts(t, found.value, candidates);
      WithoutNothing(t, canDelete);
      ProgressNone(t, candidates, canDelete);
      for i := 0 to |candidates|
        invariant Progress(t, candidates, i, canDelete, collected, handled)
        invariant State() == if dryRun then t else Without(t, Members(candidates[..i]), canDelete)
        invariant !canDelete ==> blobs == t.blobs
      {
        var p := candidates[i];
        assert p in candidates;
        var hash := rows[p].hash;
        ProgressNext(t, candidates, i, canDelete, collected, handled);
        ProgressHandled(t, candidates, i, canDelete, collected, handled, hash);
        var first := hash !in retainedHashes && hash !in handled;
        if !dryRun {
          var done := CollectOne(t, candidates, i, canDelete, faults, p, hash, canDelete && first);
          if done.Err? {
            return Err(done.error);
          }
        }
        if first {
          handled := handled + {hash};
        }
        collected := collected + [Collected(p, canDelete && first)];
      }
      ProgressDone(t, candidates, canDelete, collected, handled);
      return Ok(Report(retained, collected));
    }
  }

  lemma KeptIndexed(t: Tables)
    ensures Kept(t) <= t.packs.Keys
  {}

  lemma HashesRetained(t: Tables)
    ensures (set p | p in Kept(t) :: t.packs[p].hash) == KeptHashes(t)
  {}

  lemma ProgressNone(t: Tables, candidates: seq<string>, canDelete: bool)
    requires forall p :: p in candidates ==> p in t.packs
    ensures Progress(t, candidates, 0, canDelete, [], {}) && Members(candidates[..0]) == {}
  {}

  /** A hash that an earlier candidate had is gone already, unless a kept pack has it. */
  lemma ProgressHandled(t: Tables, candidates: seq<string>, i: nat, canDelete: bool, collected: seq<Collected>,
                        handled: set<string>, hash: string)
    requires i < |candidates| && forall p :: p in candidates ==> p in t.packs
    requires Progress(t, candidates, i, canDelete, collected, handled) && Members(candidates[..i]) <= t.packs.Keys
    ensures canDelete && hash in handled ==> hash !in Without(t, Members(candidates[..i]), canDelete).blobs
  {
    if canDelete && hash in handled {
      HandledGone(t, candidates, i, hash);
    }
  }

  lemma ProgressDone(t: Tables, candidates: seq<string>, canDelete: bool, collected: seq<Collected>,
                     handled: set<string>)
    requires candidates == SortedList(t.packs.Keys - Kept(t)) && forall p :: p in candidates ==> p in t.packs
    requires Progress(t, candidates, |candidates|, canDelete, collected, handled)
    ensures CollectedFrom(t, canDelete, SortedList(t.packs.Keys - Kept(t)), collected)
    ensures Members(candidates[..|candidates|]) == t.packs.Keys - Kept(t)
  {
    hide Kept;
    hide CollectedFrom;
    assert candidates[..|candidates|] == candidates;
  }

  /** The report and the handled hashes after the first `n` candidates. */
  ghost predicate Progress(t: Tables, candidates: seq<string>, n: nat, canDelete: bool, collected: seq<Collected>,
                           handled: set<string>)
    requires n <= |candidates| && forall p :: p in candidates ==> p in t.packs
  {
    && CollectedFrom(t, canDelete, candidates[..n], collected)
    && (forall h :: h in handled <==> h !in KeptHashes(t) && exists j :: 0 <= j < n && t.packs[candidates[j]].hash == h)
  }

  lemma ProgressNext(t: Tables, candidates: seq<string>, i: nat, canDelete: bool, collected: seq<Collected>,
                     handled: set<string>)
    requires i < |candidates| && forall p :: p in candidates ==> p in t.packs
    requires Progress(t, candidates, i, canDelete, collected, handled)
    ensures var hash := t.packs[candidates[i]].hash;
            var first := hash !in KeptHashes(t) && hash !in handled;
            Progress(t, candidates, i + 1, canDelete, collected + [Collected(candidates[i], canDelete && first)],
                     if first then handled + {hash} else handled)
  {
    hide KeptHashes;
    var hash := t.packs[candidates[i]].hash;
    var first := hash !in KeptHashes(t) && hash !in handled;
    var more := collected + [Collected(candidates[i], canDelete && first)];
    forall j | 0 <= j < |more|
      ensures more[j].pack == candidates[..i + 1][j]
              && (more[j].blobCollected <==> canDelete && FirstUse(t, candidates[..i + 1], j))
    {
      assert candidates[..i + 1][j] == candidates[j];
      if j < i {
        assert candidates[..i][j] == candidates[j];
        assert collected[j].blobCollected <==> canDelete && FirstUse(t, candidates[..i], j);
        assert FirstUse(t, candidates[..i], j) <==> FirstUse(t, candidates[..i + 1], j);
      }
    }
  }

  lemma CandidatesFacts(t: Tables, kept: set<string>, candidates: seq<string>)
    requires kept == Kept(t) && candidates == SortedList(t.packs.Keys - kept)
    ensures StrictlySorted(candidates) && forall p :: p in candidates <==> p in t.packs.Keys - Kept(t)
    ensures Members(candidates) == t.packs.Keys - Kept(t)
    ensures forall i :: 0 <= i <= |candidates| ==> Members(candidates[..i]) <= t.packs.Keys - Kept(t)
  {
    hide Keep;
  }

  lemma WithoutNothing(t: Tables, canDelete: bool)
    ensures Without(t, {}, canDelete) == t
  {
    hide KeptHashes;
    assert t.packs - {} == t.packs;
    assert (map o | o in t.locations && t.locations[o] !in {} :: t.locations[o]) == t.locations;
    assert HashesOf(t, {}) - KeptHashes(t) == {};
  }

  /** One more candidate removed. */
  lemma WithoutNext(t: Tables, candidates: seq<string>, i: nat, canDelete: bool)
    requires i < |candidates| && Members(candidates) <= t.packs.Keys && StrictlySorted(candidates)
    ensures Members(candidates[..i]) <= t.packs.Keys && Members(candidates[..i + 1]) <= t.packs.Keys
    ensures candidates[i] in Without(t, Members(candidates[..i]), canDelete).packs
    ensures var (u, v) := (Without(t, Members(candidates[..i]), canDelete),
                           Without(t, Members(candidates[..i + 1]), canDelete));
            var hash := t.packs[candidates[i]].hash;
            && v.packs == u.packs - {candidates[i]}
            && v.locations == (map o | o in u.locations && u.locations[o] != candidates[i] :: u.locations[o])
            && v.blobs == (if canDelete && hash !in KeptHashes(t) then u.blobs - {hash} else u.blobs)
  {
    hide KeptHashes;
    assert candidates[..i + 1] == candidates[..i] + [candidates[i]];
    var (before, after) := (Members(candidates[..i]), Members(candidates[..i + 1]));
    assert after == before + {candidates[i]};
    assert candidates[i] in candidates;
    assert candidates[i] !in before by {
      forall j | 0 <= j < i ensures candidates[j] != candidates[i] { LessAsymmetric(candidates[j], candidates[i]); }
    }
    HashesNext(t, before, candidates[i]);
  }

  lemma HashesNext(t: Tables, before: set<string>, p: string)
    requires before <= t.packs.Keys && p in t.packs
    ensures HashesOf(t, before + {p}) == HashesOf(t, before) + {t.packs[p].hash}
  {
    forall h ensures h in HashesOf(t, before + {p}) <==> h in HashesOf(t, before) || h == t.packs[p].hash {
      assert p in before + {p};
    }
  }

  /** A hash that was handled is gone already. */
  lemma HandledGone(t: Tables, candidates: seq<string>, i: nat, hash: string)
    requires i < |candidates| && Members(candidates[..i]) <= t.packs.Keys
    requires hash !in KeptHashes(t) && exists j :: 0 <= j < i && candidates[j] in t.packs
                                                   && t.packs[candidates[j]].hash == hash
    ensures hash !in Without(t, Members(candidates[..i]), true).blobs
  {
    hide KeptHashes;
    var j :| 0 <= j < i && candidates[j] in t.packs && t.packs[candidates[j]].hash == hash;
    assert candidates[..i][j] == candidates[j];
    assert candidates[j] in Members(candidates[..i]);
  }

  lemma WithoutShrunk(t: Tables, gone: set<string>, canDelete: bool)
    requires gone <= t.packs.Keys - Kept(t)
    ensures Shrunk(t, Without(t, gone, canDelete), gone)
  {
    hide KeptHashes;
    hide Kept;
  }

  /** A row deleted while its blob is still there. */
  lemma DeletedShrunk(t: Tables, candidates: seq<string>, i: nat, canDelete: bool, u: Tables)
    requires i < |candidates| && Members(candidates) <= t.packs.Keys - Kept(t) && StrictlySorted(candidates)
    requires Members(candidates[..i]) <= t.packs.Keys
    requires var before := Without(t, Members(candidates[..i]), canDelete);
             u == before.(packs := before.packs - {candidates[i]},
                          locations := map o | o in before.locations
                            && before.locations[o] != candidates[i] :: before.locations[o])
    ensures Shrunk(t, u, Members(candidates[..i + 1]))
  {
    WithoutNext(t, candidates, i, canDelete);
    assert Members(candidates[..i + 1]) <= Members(candidates);
    WithoutShrunk(t, Members(candidates[..i]), canDelete);
    WithoutShrunk(t, Members(candidates[..i + 1]), canDelete);
    hide KeptHashes;
    hide Kept;
    hide Without;
  }

  lemma AppendGreater(ids: seq<string>, i: nat, part: seq<string>)
    requires i < |ids| && StrictlySorted(ids) && StrictlySorted(part) && forall p :: p in part ==> p in ids[..i]
    ensures StrictlySorted(part + [ids[i]])
  {
    forall j | 0 <= j < |part| ensures Less(part[j], ids[i]) {
      assert part[j] in ids[..i];
    }
  }

  /** What a collection leaves: the kept packs with the locations in them, and all blobs but those of collected packs
      that no kept pack has. */
  lemma CollectedMeans(t: Tables, canDelete: bool)
    ensures var u := Without(t, t.packs.Keys - Kept(t), canDelete);
            && (forall p :: p in u.packs <==> p in t.packs && Keep(t, p))
            && (forall p :: p in u.packs ==> u.packs[p] == t.packs[p])
            && (forall o :: o in u.locations <==>
                            o in t.locations && (t.locations[o] in t.packs ==> Keep(t, t.locations[o])))
            && (forall o :: o in u.locations ==> u.locations[o] == t.locations[o])
            && (forall h :: h in u.blobs <==>
                            h in t.blobs && (!canDelete || KeptHash(t, h)
                                             || forall p :: p in t.packs ==> t.packs[p].hash != h))
            && u.graph == t.graph && u.heads == t.heads && u.anchors == t.anchors && u.audits == t.audits
  {
    hide Keep;
    var gone := t.packs.Keys - Kept(t);
    KeptHashesMean(t);
    forall h ensures h in HashesOf(t, gone) <==> exists p :: p in t.packs && !Keep(t, p) && t.packs[p].hash == h {
      if p :| p in t.packs && !Keep(t, p) && t.packs[p].hash == h { assert p in gone; }
    }
    hide KeptHashes;
    hide HashesOf;
  }

  /** Histories of up to 200000 commits can be read. */
  lemma ReadableMeans(g: Graph)
    ensures Readable(g) <==> Closed(g) && forall c :: c in g ==> |Ancestry.Ancestors(g, c)| <= 200000
  {}

  lemma KeptHashesMean(t: Tables)
    ensures forall h :: h in KeptHashes(t) <==> KeptHash(t, h)
  {
    hide Keep;
    forall h ensures h in KeptHashes(t) <==> KeptHash(t, h) {
      if p :| p in t.packs && Keep(t, p) && t.packs[p].hash == h { assert p in Kept(t); }
    }
  }

  /** Which packs a report names: the kept ones, and every other one, each once. */
  lemma ReportedPacks(t: Tables, canDelete: bool, r: Report)
    requires Reports(t, canDelete, r)
    ensures forall p :: p in r.retained <==> p in t.packs && Keep(t, p)
    ensures forall p :: (exists i :: 0 <= i < |r.collected| && r.collected[i].pack == p) <==>
                        p in t.packs && !Keep(t, p)
    ensures forall i, j :: 0 <= i < j < |r.collected| ==> r.collected[i].pack != r.collected[j].pack
  {
    hide Keep;
    hide FirstUse;
    var gone := SortedList(t.packs.Keys - Kept(t));
    forall i, j | 0 <= i < j < |r.collected| ensures r.collected[i].pack != r.collected[j].pack {
      LessAsymmetric(gone[i], gone[j]);
    }
    forall p | p in t.packs && !Keep(t, p) ensures exists i :: 0 <= i < |r.collected| && r.collected[i].pack == p {
      assert p in gone;
      var n :| 0 <= n < |gone| && gone[n] == p;
      assert r.collected[n].pack == p;
    }
    forall i | 0 <= i < |r.collected| ensures r.collected[i].pack in t.packs && !Keep(t, r.collected[i].pack) {
      assert gone[i] in gone;
    }
  }

  /** Which blobs a report names: each one that a collected pack and no kept pack has, once. */
  lemma ReportedBlobs(t: Tables, canDelete: bool, r: Report)
    requires Reports(t, canDelete, r)
    ensures forall i :: 0 <= i < |r.collected| && r.collected[i].blobCollected ==>
                        canDelete && r.collected[i].pack in t.packs
                        && !KeptHash(t, t.packs[r.collected[i].pack].hash)
    ensures forall i, j, h :: i < j && BlobReported(t, r, i, h) ==> !BlobReported(t, r, j, h)
    ensures canDelete ==> forall p :: p in t.packs && !Keep(t, p) && !KeptHash(t, t.packs[p].hash) ==>
                                      exists i :: BlobReported(t, r, i, t.packs[p].hash)
  {
    hide Keep;
    KeptHashesMean(t);
    hide KeptHash;
    hide KeptHashes;
    var gone := SortedList(t.packs.Keys - Kept(t));
    forall i | 0 <= i < |r.collected| && r.collected[i].blobCollected
      ensures canDelete && FirstUse(t, gone, i) && r.collected[i].pack == gone[i] && gone[i] in gone
    {}
    forall p | canDelete && p in t.packs && !Keep(t, p) && !KeptHash(t, t.packs[p].hash)
      ensures exists i :: BlobReported(t, r, i, t.packs[p].hash)
    {
      assert p in gone;
      var n :| 0 <= n < |gone| && gone[n] == p;
      var i := FirstWith(t, gone, n);
      assert FirstUse(t, gone, i);
      assert BlobReported(t, r, i, t.packs[p].hash);
    }
  }

  /** A kept pack has this hash. */
  ghost predicate KeptHash(t: Tables, h: string) {
    exists p :: p in t.packs && Keep(t, p) && t.packs[p].hash == h
  }

  /** Entry `i` says that the blob with this hash went. */
  ghost predicate BlobReported(t: Tables, r: Report, i: nat, h: string) {
    && i < |r.collected| && r.collected[i].blobCollected
    && r.collected[i].pack in t.packs && t.packs[r.collected[i].pack].hash == h
  }

  /** The first candidate with the hash of candidate `n`. */
  lemma {:induction false} FirstWith(t: Tables, candidates: seq<string>, n: nat) returns (i: nat)
    requires n < |candidates| && forall p :: p in candidates ==> p in t.packs
    ensures i <= n && t.packs[candidates[i]].hash == t.packs[candidates[n]].hash
    ensures forall j :: 0 <= j < i ==> t.packs[candidates[j]].hash != t.packs[candidates[n]].hash
    decreases n
  {
    if j :| 0 <= j < n && t.packs[candidates[j]].hash == t.packs[candidates[n]].hash {
      i := FirstWith(t, candidates, j);
    } else {
      i := n;
    }
  }

  lemma NothingShrunk(t: Tables)
    ensures Shrunk(t, t, {})
  {}
}
