// Garbage collection against in-flight pushes: indexing, anchoring, publishing and collecting interleave.
module RetentionRuns {
  import opened Wrappers
  import opened CommitGraph
  import opened Retention
  import RackStore
  import RackRuns

  datatype Event =
    | IndexPack(pack: string, row: PackRow)         // WritePack and PutNativePack
    | PutAnchor(id: string, anchor: Anchor)
    | DropAnchor(id: string)
    | Audit(anchor: Anchor)
    | History(graph: Graph, heads: map<string, Id>) // commits are recorded, heads move anywhere, branches appear
    | Collect(canDelete: bool)

  /** PutNativePack: a known pack must be registered unchanged, and an object keeps its first location. */
  function Indexed(t: Tables, pack: string, row: PackRow): Tables {
    var blobs := t.blobs + {row.hash};
    if pack in t.packs && (t.packs[pack].hash != row.hash || t.packs[pack].commit != row.commit
                           || |t.packs[pack].objects| != |row.objects|) then
      t.(blobs := blobs)
    else
      t.(packs := if pack in t.packs then t.packs else t.packs[pack := row],
         locations := (map o | o in row.objects :: pack) + t.locations,
         blobs := blobs)
  }

  /** History only grows, branches stay, and heads are recorded commits: what RackRuns proves of every store
      transaction. */
  ghost predicate Grows(t: Tables, graph: Graph, heads: map<string, Id>) {
    && Extends(t.graph, graph) && Closed(graph) && "" !in graph
    && (forall b :: b in t.heads ==> b in heads) && forall b :: b in heads ==> heads[b] in graph
  }

  /** Heads only advance, which the swap of an unlinked push breaks. */
  ghost predicate HeadsAdvance(t: Tables, graph: Graph, heads: map<string, Id>) {
    forall b :: b in t.heads && b in heads ==> Reaches(graph, heads[b], t.heads[b])
  }

  ghost predicate Step(t: Tables, e: Event, u: Tables) {
    match e
    case IndexPack(pack, row) => u == Indexed(t, pack, row)
    case PutAnchor(id, anchor) => id != "" && (anchor.commit != "" || anchor.obj != "")
      && u == t.(anchors := t.anchors[id := anchor])
    case DropAnchor(id) => u == t.(anchors := t.anchors - {id})
    case Audit(anchor) => u == t.(audits := t.audits + [anchor])
    case History(graph, heads) => Grows(t, graph, heads) && u == t.(graph := graph, heads := heads)
    case Collect(canDelete) => u == Without(t, t.packs.Keys - Kept(t), canDelete)
  }

  ghost predicate Run(states: seq<Tables>, events: seq<Event>) {
    && |states| == |events| + 1
    && forall i :: 0 <= i < |events| ==> Step(states[i], events[i], states[i + 1])
  }

  /** Every step of the metadata store grows the history that retention sees, and it advances all heads unless it is
      the swap of an unlinked push. */
  lemma RackStepAdvances(s: RackRuns.Sys, e: RackRuns.Event, s': RackRuns.Sys, t: Tables)
    requires RackRuns.Inv(s) && RackRuns.Step(s, e, s')
    requires t.graph == RackRuns.Dag(s) && t.heads == map b | b in s.repo.branches :: s.repo.branches[b].head
    ensures var heads := map b | b in s'.repo.branches :: s'.repo.branches[b].head;
            && Grows(t, RackRuns.Dag(s'), heads)
            && (HeadsAdvance(t, RackRuns.Dag(s'), heads) <==> !RackRuns.Rewinds(s, e))
  {
    hide Reaches;
    hide RackRuns.Step;
    hide RackRuns.Rewinds;
    hide RackRuns.Inv;
    RackRuns.StepKeeps(s, e, s');
    RackAcyclic(s');
    RackRuns.GraphExtends(s.repo.commits, s'.repo.commits);
    AcyclicClosed(RackRuns.Dag(s'));
    RackBranchesStay(s, e, s');
    RackHeads(s');
    hide RackStore.GraphOf;
    hide Acyclic;
    hide Closed;
    var heads := map b | b in s'.repo.branches :: s'.repo.branches[b].head;
    if HeadsAdvance(t, RackRuns.Dag(s'), heads) {
      forall b | b in s.repo.branches
        ensures Reaches(RackRuns.Dag(s'), s'.repo.branches[b].head, s.repo.branches[b].head)
      {
        assert b in t.heads && b in heads;
      }
    }
  }

  lemma RackAcyclic(s: RackRuns.Sys)
    requires RackRuns.Inv(s)
    ensures Acyclic(RackRuns.Dag(s))
  {}

  lemma RackHeads(s: RackRuns.Sys)
    requires RackRuns.Inv(s)
    ensures "" !in RackRuns.Dag(s)
    ensures forall b :: b in s.repo.branches ==> s.repo.branches[b].head in RackRuns.Dag(s)
  {}

  lemma RackBranchesStay(s: RackRuns.Sys, e: RackRuns.Event, s': RackRuns.Sys)
    requires RackRuns.Step(s, e, s')
    ensures forall b :: b in s.repo.branches ==> b in s'.repo.branches
  {
    hide RackRuns.Step;
    forall b | b in s.repo.branches ensures b in s'.repo.branches {
      RackRuns.HeadMovers(s, e, s', b);
    }
  }

  /** Collecting removes no kept pack and no location in one. */
  lemma CollectKeeps(t: Tables, canDelete: bool, p: string)
    requires p in t.packs && Keep(t, p)
    ensures var u := Without(t, t.packs.Keys - Kept(t), canDelete);
            && p in u.packs && u.packs[p] == t.packs[p]
            && (forall o :: o in t.locations && t.locations[o] == p ==> o in u.locations && u.locations[o] == p)
            && (t.packs[p].hash in t.blobs ==> t.packs[p].hash in u.blobs)
  {
    hide Keep;
    assert p in Kept(t);
  }

  /** Outside a collection nothing removes packs, locations or blobs. */
  lemma OthersKeep(t: Tables, e: Event, u: Tables)
    requires Step(t, e, u) && !e.Collect?
    ensures forall p :: p in t.packs ==> p in u.packs && u.packs[p] == t.packs[p]
    ensures forall o :: o in t.locations ==> o in u.locations && u.locations[o] == t.locations[o]
    ensures t.blobs <= u.blobs
  {}

  /** The pack is indexed with this row and everything located in it still is. */
  ghost predicate Intact(t: Tables, u: Tables, p: string)
    requires p in t.packs
  {
    && p in u.packs && u.packs[p] == t.packs[p]
    && (forall o :: o in t.locations && t.locations[o] == p ==> o in u.locations && u.locations[o] == p)
  }

  // ----- anchored packs -----------------------------------------------------------------

  /** An active transaction names an object whose recorded location is the pack. */
  ghost predicate Anchored(t: Tables, id: string, o: string, p: string) {
    && id in t.anchors && t.anchors[id].obj == o && o != ""
    && o in t.locations && t.locations[o] == p && p in t.packs
  }

  predicate TouchesAnchor(e: Event, id: string) {
    (e.PutAnchor? && e.id == id) || (e.DropAnchor? && e.id == id)
  }

  lemma AnchorStep(t: Tables, e: Event, u: Tables, id: string, o: string, p: string)
    requires Step(t, e, u) && Anchored(t, id, o, p) && !TouchesAnchor(e, id)
    ensures Anchored(u, id, o, p) && Intact(t, u, p)
  {
    if e.Collect? {
      assert RootObject(t, o);
      assert Keep(t, p);
      CollectKeeps(t, e.canDelete, p);
    } else {
      OthersKeep(t, e, u);
    }
  }

  /** As long as its anchor stands, a pack stays indexed together with its locations, through any collections. */
  lemma {:induction false} AnchorProtects(states: seq<Tables>, events: seq<Event>, i: nat, k: nat, id: string,
                                          o: string, p: string)
    requires Run(states, events) && i <= k < |states| && Anchored(states[i], id, o, p)
    requires forall j :: i <= j < k ==> !TouchesAnchor(events[j], id)
    ensures Anchored(states[k], id, o, p) && Intact(states[i], states[k], p)
    decreases k
  {
    hide Step;
    if i < k {
      AnchorProtects(states, events, i, k - 1, id, o, p);
      assert Step(states[k - 1], events[k - 1], states[k]);
      AnchorStep(states[k - 1], events[k - 1], states[k], id, o, p);
    }
  }

  /** A commit with the pack's commit in its history. */
  ghost predicate Above(t: Tables, c: Id, p: string) {
    p in t.packs && t.packs[p].commit != "" && c != "" && Reaches(t.graph, c, t.packs[p].commit)
  }

  /** An active transaction names a commit with the pack's commit in its history. */
  ghost predicate CommitAnchored(t: Tables, id: string, p: string) {
    id in t.anchors && Above(t, t.anchors[id].commit, p)
  }

  /** An audit record names a commit with the pack's commit in its history, or an object recorded in the pack. */
  ghost predicate Audited(t: Tables, r: Anchor, p: string) {
    r in t.audits && p in t.packs && (Above(t, r.commit, p)
                                      || (r.obj != "" && r.obj in t.locations && t.locations[r.obj] == p))
  }

  lemma AboveStep(t: Tables, e: Event, u: Tables, c: Id, p: string)
    requires Step(t, e, u) && Above(t, c, p) && p in u.packs && u.packs[p] == t.packs[p]
    ensures Above(u, c, p)
  {
    hide Reaches;
    if e.History? { ReachesExtend(t.graph, u.graph, c, t.packs[p].commit); }
  }

  lemma KeptStep(t: Tables, e: Event, u: Tables, p: string)
    requires Step(t, e, u) && p in t.packs && Keep(t, p)
    ensures Intact(t, u, p)
  {
    hide Keep;
    if e.Collect? { CollectKeeps(t, e.canDelete, p); } else { OthersKeep(t, e, u); }
  }

  /** While a transaction anchors a commit, the packs of its whole history stay. */
  lemma {:induction false} CommitAnchorProtects(states: seq<Tables>, events: seq<Event>, i: nat, k: nat, id: string,
                                                p: string)
    requires Run(states, events) && i <= k < |states| && CommitAnchored(states[i], id, p)
    requires forall j :: i <= j < k ==> !TouchesAnchor(events[j], id)
    ensures CommitAnchored(states[k], id, p) && Intact(states[i], states[k], p)
    decreases k
  {
    hide Step;
    hide Reaches;
    hide Keep;
    if i < k {
      CommitAnchorProtects(states, events, i, k - 1, id, p);
      assert Step(states[k - 1], events[k - 1], states[k]);
      CommitAnchorKeeps(states[k - 1], id, p);
      KeptStep(states[k - 1], events[k - 1], states[k], p);
      AboveStep(states[k - 1], events[k - 1], states[k], states[k - 1].anchors[id].commit, p);
      AnchorStays(states[k - 1], events[k - 1], states[k], id);
    }
  }

  lemma CommitAnchorKeeps(t: Tables, id: string, p: string)
    requires CommitAnchored(t, id, p)
    ensures Keep(t, p)
  {
    hide Reaches;
    assert RootCommit(t, t.anchors[id].commit);
  }

  lemma AnchorStays(t: Tables, e: Event, u: Tables, id: string)
    requires Step(t, e, u) && id in t.anchors && !TouchesAnchor(e, id)
    ensures id in u.anchors && u.anchors[id] == t.anchors[id]
  {
    hide Kept;
  }

  lemma AuditsStay(t: Tables, e: Event, u: Tables, r: Anchor)
    requires Step(t, e, u) && r in t.audits
    ensures r in u.audits
  {
    hide Kept;
  }

  lemma AuditKeeps(t: Tables, r: Anchor, p: string)
    requires Audited(t, r, p)
    ensures Keep(t, p)
  {
    hide Reaches;
    if Above(t, r.commit, p) {
      assert RootCommit(t, r.commit);
    } else {
      assert RootObject(t, r.obj);
    }
  }

  /** What an audit record names is retained for ever, wherever heads move: the packs of the commit's whole history, and
      the pack that its object is recorded in. */
  lemma {:induction false} AuditedForever(states: seq<Tables>, events: seq<Event>, i: nat, k: nat, r: Anchor,
                                          p: string)
    requires Run(states, events) && i <= k < |states| && Audited(states[i], r, p)
    ensures Audited(states[k], r, p) && Intact(states[i], states[k], p)
    decreases k
  {
    hide Step;
    hide Above;
    hide Keep;
    if i < k {
      AuditedForever(states, events, i, k - 1, r, p);
      assert Step(states[k - 1], events[k - 1], states[k]);
      AuditKeeps(states[k - 1], r, p);
      KeptStep(states[k - 1], events[k - 1], states[k], p);
      AuditsStay(states[k - 1], events[k - 1], states[k], r);
      if Above(states[k - 1], r.commit, p) {
        AboveStep(states[k - 1], events[k - 1], states[k], r.commit, p);
      }
    }
  }

  // ----- published packs ----------------------------------------------------------------

  /** The pack's commit is part of some branch's history. */
  ghost predicate Published(t: Tables, p: string) {
    && p in t.packs && t.packs[p].commit != ""
    && exists b :: b in t.heads && t.heads[b] != "" && Reaches(t.graph, t.heads[b], t.packs[p].commit)
  }

  lemma PublishedKept(t: Tables, p: string)
    requires Published(t, p)
    ensures Keep(t, p)
  {
    hide Reaches;
    var b :| b in t.heads && t.heads[b] != "" && Reaches(t.graph, t.heads[b], t.packs[p].commit);
    assert RootCommit(t, t.heads[b]);
  }

  /** Heads are recorded commits, so none is empty. */
  ghost predicate HeadsNamed(t: Tables) {
    forall b :: b in t.heads ==> t.heads[b] != ""
  }

  lemma {:induction false} HeadsStayNamed(states: seq<Tables>, events: seq<Event>, k: nat)
    requires Run(states, events) && k < |states| && HeadsNamed(states[0])
    ensures HeadsNamed(states[k])
    decreases k
  {
    if k > 0 {
      HeadsStayNamed(states, events, k - 1);
      assert Step(states[k - 1], events[k - 1], states[k]);
      hide Keep;
      hide Closed;
    }
  }

  /** From `i` up to `k` no head moves back. */
  ghost predicate OnlyAdvance(states: seq<Tables>, events: seq<Event>, i: nat, k: nat)
    requires k <= |events| <= |states|
  {
    forall j :: i <= j < k && events[j].History? ==> HeadsAdvance(states[j], events[j].graph, events[j].heads)
  }

  lemma PublishedStep(t: Tables, e: Event, u: Tables, p: string)
    requires Step(t, e, u) && Published(t, p) && HeadsNamed(u) && (e.History? ==> HeadsAdvance(t, e.graph, e.heads))
    ensures Published(u, p) && Intact(t, u, p)
  {
    hide Reaches;
    var b :| b in t.heads && t.heads[b] != "" && Reaches(t.graph, t.heads[b], t.packs[p].commit);
    if e.Collect? {
      PublishedKept(t, p);
      hide Kept;
      hide Keep;
      CollectKeeps(t, e.canDelete, p);
    } else {
      OthersKeep(t, e, u);
      if e.History? {
        ReachesExtend(t.graph, u.graph, t.heads[b], t.packs[p].commit);
        ReachesTransitive(u.graph, u.heads[b], t.heads[b], t.packs[p].commit);
      }
    }
    assert b in u.heads && Reaches(u.graph, u.heads[b], t.packs[p].commit);
  }

  /** Once its commit is in a branch's history a pack stays indexed as long as no head moves back, whatever happens to
      anchors and however often a collection runs. */
  lemma {:induction false} PublishedForever(states: seq<Tables>, events: seq<Event>, i: nat, k: nat, p: string)
    requires Run(states, events) && i <= k < |states| && Published(states[i], p) && HeadsNamed(states[0])
    requires OnlyAdvance(states, events, i, k)
    ensures Published(states[k], p) && Intact(states[i], states[k], p)
    decreases k
  {
    hide Step;
    hide Published;
    if i < k {
      PublishedForever(states, events, i, k - 1, p);
      assert Step(states[k - 1], events[k - 1], states[k]);
      PublishedIndexed(states[k - 1], p);
      HeadsStayNamed(states, events, k);
      PublishedStep(states[k - 1], events[k - 1], states[k], p);
    } else {
      PublishedIndexed(states[i], p);
    }
  }

  lemma PublishedIndexed(t: Tables, p: string)
    requires Published(t, p)
    ensures p in t.packs
  {}

  // ----- blobs --------------------------------------------------------------------------

  /** Every indexed pack has its blob. */
  ghost predicate BlobsPresent(t: Tables) {
    forall p :: p in t.packs ==> t.packs[p].hash in t.blobs
  }

  lemma BlobStep(t: Tables, e: Event, u: Tables)
    requires Step(t, e, u) && BlobsPresent(t)
    ensures BlobsPresent(u)
  {
    if e.Collect? {
      hide Keep;
      forall p | p in u.packs ensures u.packs[p].hash in u.blobs {
        assert p in Kept(t);
      }
    }
  }

  lemma {:induction false} BlobsStay(states: seq<Tables>, events: seq<Event>, k: nat)
    requires Run(states, events) && k < |states| && BlobsPresent(states[0])
    ensures BlobsPresent(states[k])
    decreases k
  {
    hide Step;
    if k > 0 {
      BlobsStay(states, events, k - 1);
      assert Step(states[k - 1], events[k - 1], states[k]);
      BlobStep(states[k - 1], events[k - 1], states[k]);
    }
  }

  /** A push whose target is published before its anchor is released does not lose its pack: not while in flight,
      whatever heads do, and not afterwards, as long as no head moves back. Its row, its blob and the locations recorded
      in it survive every collection. */
  lemma PushSurvives(states: seq<Tables>, events: seq<Event>, i: nat, j: nat, k: nat, id: string, o: string, p: string)
    requires Run(states, events) && i <= j < |states| && i <= k < |states| && BlobsPresent(states[0])
    requires HeadsNamed(states[0]) && OnlyAdvance(states, events, j, k)
    requires Anchored(states[i], id, o, p) && forall l :: i <= l < j ==> !TouchesAnchor(events[l], id)
    requires Published(states[j], p)
    ensures Intact(states[i], states[k], p) && states[k].packs[p].hash in states[k].blobs
  {
    hide Run;
    hide Published;
    hide BlobsPresent;
    if k <= j {
      AnchorProtects(states, events, i, k, id, o, p);
    } else {
      AnchorProtects(states, events, i, j, id, o, p);
      PublishedForever(states, events, j, k, p);
    }
    BlobsStay(states, events, k);
    BlobOf(states[k], p);
  }

  lemma BlobOf(t: Tables, p: string)
    requires BlobsPresent(t) && p in t.packs
    ensures t.packs[p].hash in t.blobs
  {}

  // ----- what a collection can lose -----------------------------------------------------

  /** The exact condition, for any run: an indexed pack stays with everything located in it if and only if every
      collection finds it kept. */
  lemma {:induction false} IntactExactly(states: seq<Tables>, events: seq<Event>, i: nat, k: nat, p: string)
    requires Run(states, events) && i <= k < |states| && p in states[i].packs
    ensures (forall j :: i <= j <= k ==> Intact(states[i], states[j], p)) <==>
            forall j :: i <= j < k && events[j].Collect? ==> p in states[j].packs && Keep(states[j], p)
    decreases k
  {
    hide Step;
    hide Keep;
    if i < k {
      var n := k - 1;
      IntactExactly(states, events, i, n, p);
      assert Step(states[n], events[n], states[k]);
      if Intact(states[i], states[n], p) {
        IntactStep(states[i], states[n], events[n], states[k], p);
      }
    }
  }

  lemma IntactStep(s: Tables, t: Tables, e: Event, u: Tables, p: string)
    requires Step(t, e, u) && p in s.packs && Intact(s, t, p)
    ensures Intact(s, u, p) <==> e.Collect? ==> Keep(t, p)
  {
    hide Keep;
    if e.Collect? {
      assert p in u.packs <==> p in Kept(t);
      if Keep(t, p) { CollectKeeps(t, e.canDelete, p); }
    } else {
      OthersKeep(t, e, u);
    }
  }

  /** Every object that some indexed pack carries can be located. */
  ghost predicate Located(t: Tables) {
    forall p, o :: p in t.packs && o in t.packs[p].objects ==> o in t.locations
  }

  /** Every object of a kept pack is recorded in a kept pack. */
  ghost predicate RecordedInKept(t: Tables) {
    forall p, o :: p in Kept(t) && o in t.packs[p].objects ==> o in t.locations && t.locations[o] in Kept(t)
  }

  /** Locations only point into indexed packs (the foreign key of native_pack_objects). */
  ghost predicate LocationsIndexed(t: Tables) {
    forall o :: o in t.locations ==> t.locations[o] in t.packs
  }

  /** A collection keeps all objects of the packs it retains locatable exactly when each of them is recorded in a
      retained pack: being carried by one is not enough. */
  lemma CollectKeepsLocated(t: Tables, canDelete: bool)
    requires LocationsIndexed(t)
    ensures Located(Without(t, t.packs.Keys - Kept(t), canDelete)) <==> RecordedInKept(t)
  {
    hide Keep;
    var u := Without(t, t.packs.Keys - Kept(t), canDelete);
    assert forall p :: p in u.packs <==> p in Kept(t);
    assert forall o :: o in u.locations <==> o in t.locations && t.locations[o] in Kept(t);
  }

  /** A concrete loss: an object carried by a published pack, but first indexed with the pack of a registered commit
      that no root reaches, loses its location. */
  lemma LocationLost() returns (t: Tables, u: Tables)
    ensures Located(t) && LocationsIndexed(t) && BlobsPresent(t) && Step(t, Collect(true), u)
    ensures Closed(t.graph) && forall p :: p in t.packs ==> t.packs[p].commit in t.graph
    ensures "p2" in u.packs && Published(u, "p2") && "o" in u.packs["p2"].objects && "o" !in u.locations
  {
    var g: Graph := map["c" := [], "x" := []];
    t := Tables(g, map["main" := "c"], map[], [],
                map["p1" := PackRow("h1", "x", {"o"}), "p2" := PackRow("h2", "c", {"o"})],
                map["o" := "p1"], {"h1", "h2"});
    u := Without(t, t.packs.Keys - Kept(t), true);
    ReachesSelf(g, "c");
    assert "main" in t.heads && t.heads["main"] == "c";
    assert Published(t, "p2");
    PublishedKept(t, "p2");
    OnlyRoot(t);
    assert "p2" in Kept(t) && "p1" !in Kept(t);
  }

  lemma OnlyRoot(t: Tables)
    requires "c" in t.graph && t.graph["c"] == []
    requires t.heads == map["main" := "c"] && t.anchors == map[] && t.audits == []
    requires "p1" in t.packs && t.packs["p1"].commit == "x"
    ensures !Keep(t, "p1")
  {
    assert forall o :: !RootObject(t, o);
    forall r | RootCommit(t, r) ensures !Reaches(t.graph, r, "x") {
      assert r == "c";
      RootCommitAlone(t.graph, "c", "x");
    }
  }

  lemma RootCommitAlone(g: Graph, c: Id, a: Id)
    requires c in g && g[c] == []
    ensures Reaches(g, c, a) ==> a == c
  {
    if Reaches(g, c, a) {
      var n: nat :| StepsTo(g, c, a, n);
      if n > 0 {
        var p := FirstStep(g, c, a, n);
        assert false;
      }
    }
  }
}
