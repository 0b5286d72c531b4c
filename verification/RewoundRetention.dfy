// What garbage collection takes after a push that moves a branch back.
module RewoundRetention {
  import opened Wrappers
  import opened CommitGraph
  import opened Framing
  import opened RackStore
  import opened Worlds
  import opened UnlinkedPush
  import opened PullExamples
  import opened Retention
  import opened RetentionRuns

  function HeadsOf(r: Repo): map<string, Id> { map b | b in r.branches :: r.branches[b].head }

  /** What retention sees of a repository with one native pack, for the commit `c`. */
  function Seen(g: Graph, heads: map<string, Id>, c: Id): Tables {
    Tables(g, heads, map[], [], map["p" := PackRow("h", c, {"o"})], map["o" := "p"], {"h"})
  }

  /** Without anchors and audits the pack is kept exactly if some head has its commit in its history. */
  lemma KeptByHeads(g: Graph, heads: map<string, Id>, c: Id)
    requires forall b :: b in heads ==> heads[b] != ""
    ensures Keep(Seen(g, heads, c), "p") <==> c != "" && exists b :: b in heads && Reaches(g, heads[b], c)
  {
    hide Reaches;
    var t := Seen(g, heads, c);
    assert forall o :: !RootObject(t, o);
    forall b | b in heads ensures RootCommit(t, heads[b]) {}
  }

  /** A collection that finds the pack unreachable takes its row, its object's location and its blob. */
  lemma Collected(t: Tables, g: Graph, heads: map<string, Id>, c: Id) returns (v: Tables)
    requires t == Seen(g, heads, c) && !Keep(t, "p")
    ensures Step(t, Collect(true), v) && "p" !in v.packs && "o" !in v.locations && "h" !in v.blobs
  {
    hide Keep;
    v := Without(t, t.packs.Keys - Kept(t), true);
    assert "p" !in Kept(t) && Kept(t) == {} && KeptHashes(t) == {};
    assert "p" in t.packs.Keys - Kept(t) && "h" in HashesOf(t, t.packs.Keys - Kept(t));
  }

  /** Where the heads are two roots, and then a child of the second root and that root. */
  lemma RewoundHeads(g: Graph, a: Id, b: Id, c: Id)
    requires a != "" && a != b && a != c && b in g && g[b] == [] && c in g && g[c] == [b]
    ensures !Reaches(g, b, a) && !Reaches(g, c, a)
  {
    forall n: nat ensures !StepsTo(g, b, a, n) && !StepsTo(g, c, a, n) {
      if StepsTo(g, b, a, n) { RootAlone(g, b, a, n); }
      if StepsTo(g, c, a, n) { BelowChild(g, c, b, a, n); }
    }
  }

  lemma RewoundTables()
    ensures HeadsOf(TWO_ROOTS) == map["main" := C(0), "side" := C(1)]
    ensures HeadsOf(REWOUND) == map["main" := C(2), "side" := C(1)]
    ensures GraphOf(TWO_ROOTS.commits) == map[C(0) := [], C(1) := []]
    ensures GraphOf(REWOUND.commits) == map[C(0) := [], C(1) := [], C(2) := [C(1)]]
  {
    RewoundRepo();
    RewoundGraph();
    RootsCommits();
    Repositories();
    hide C;
    hide P;
    hide ValidContentID;
    hide WithPack;
    hide Parents;
    hide RowOf;
  }

  lemma RootsCommits()
    ensures C(0) != C(1) && TWO_ROOTS.commits.Keys == {C(0), C(1)} && REWOUND.commits.Keys == {C(0), C(1), C(2)}
    ensures TWO_ROOTS.commits[C(0)].parents == [] && TWO_ROOTS.commits[C(1)].parents == []
  {
    Names();
    Repositories();
    hide C;
    hide P;
    hide ValidContentID;
    hide WithPack;
  }

  lemma RewindGrows(a: Id, b: Id, c: Id)
    requires a != "" && b != "" && c != "" && a != b && a != c && b != c
    ensures Grows(Seen(map[a := [], b := []], map["main" := a, "side" := b], a), map[a := [], b := [], c := [b]],
                  map["main" := c, "side" := b])
  {}

  /** A concrete loss of a published pack. A native pack is published at the head of "main". An accepted push moves the
      branch to a commit without that head in its history, and the next collection takes the pack. */
  lemma PublishedLost(codec: Codec<PackFrame>) returns (t: Tables, u: Tables, v: Tables)
    requires Encodes(UNLINKED, codec)
    ensures |UNLINKED.packs| == 3 && Pushes(UNLINKED, codec, TWO_ROOTS, 2, "main", REWOUND)
    ensures t.graph == GraphOf(TWO_ROOTS.commits) && t.heads == HeadsOf(TWO_ROOTS)
    ensures "main" in t.heads && "p" in t.packs && t.packs["p"].commit == t.heads["main"] && Published(t, "p")
    ensures Step(t, History(GraphOf(REWOUND.commits), HeadsOf(REWOUND)), u) && Step(u, Collect(true), v)
    ensures "p" !in v.packs && forall o :: o in t.locations && t.locations[o] == "p" ==> o !in v.locations
    ensures t.packs["p"].hash in t.blobs && t.packs["p"].hash !in v.blobs
  {
    hide *;
    Names();
    RewoundTables();
    UnlinkedPacks();
    PushesAccepted(codec);
    var a, b, c := C(0), C(1), C(2);
    t, u, v := Lost(a, b, c);
  }

  /** The same for any three commits. */
  lemma Lost(a: Id, b: Id, c: Id) returns (t: Tables, u: Tables, v: Tables)
    requires a != "" && b != "" && c != "" && a != b && a != c && b != c
    ensures t.graph == map[a := [], b := []] && t.heads == map["main" := a, "side" := b]
    ensures "p" in t.packs && t.packs["p"].commit == a && Published(t, "p")
    ensures Step(t, History(map[a := [], b := [], c := [b]], map["main" := c, "side" := b]), u)
            && Step(u, Collect(true), v)
    ensures "p" !in v.packs && forall o :: o in t.locations && t.locations[o] == "p" ==> o !in v.locations
    ensures t.packs["p"].hash in t.blobs && t.packs["p"].hash !in v.blobs
  {
    var g, h: Graph := map[a := [], b := []], map[a := [], b := [], c := [b]];
    var before, after := map["main" := a, "side" := b], map["main" := c, "side" := b];
    t, u := Seen(g, before, a), Seen(h, after, a);
    RewindGrows(a, b, c);
    RewoundHeads(h, a, b, c);
    KeptByHeads(h, after, a);
    ReachesSelf(g, a);
    hide Reaches;
    hide Grows;
    hide Keep;
    assert "main" in before && before["main"] == a;
    v := Collected(u, h, after, a);
    hide Kept;
  }
}
