// Repositories, each built by accepted pushes, at which a pull goes wrong.
module PullExamples {
  import opened Wrappers
  import opened Wire
  import opened CommitGraph
  import opened Framing
  import opened RackStore
  import opened RackRuns
  import opened PushEngine
  import opened Worlds
  import opened PullPlan
  import opened PullClosure
  import opened PackOrder
  import opened PullPlanner
  import opened PullEngine
  import opened UnlinkedPush
  import PullEnvelope
  import PullRuns
  import Ordering

  // ----- reading a world's packs --------------------------------------------------------

  ghost predicate Held(w: World, codec: Codec<PackFrame>, store: PullStore, t: Id, j: nat)
    requires j < |w.packs|
  {
    && t in store.ranges && store.ranges[t] == RangeAt(w, j)
    && P(j) in store.blobs && store.blobs[P(j)] == codec.encode(PackAt(w, j))
  }

  /** `store` is what pulls read of the repository `r`: its tables, and the bytes of the pushed packs. */
  ghost predicate Shows(w: World, codec: Codec<PackFrame>, r: Repo, store: PullStore) {
    && PullRuns.Views(r, store)
    && forall j :: 0 <= j < |w.packs| ==> P(j) in store.blobs && store.blobs[P(j)] == codec.encode(PackAt(w, j))
  }

  function SpecIds(spec: PackSpec): set<CommitIdentity> {
    set n | 0 <= n < |spec.commits| :: V2(C(spec.commits[n]))
  }

  function SpecParents(w: World, spec: PackSpec): set<CommitIdentity> {
    set n, m | 0 <= n < |spec.commits| && 0 <= m < |Parents(w, spec.commits[n])| :: V2(Parents(w, spec.commits[n])[m])
  }

  function SpecMerges(w: World, spec: PackSpec): set<CommitIdentity> {
    set n, m | 0 <= n < |spec.commits| && 1 <= m < |Parents(w, spec.commits[n])| :: V2(Parents(w, spec.commits[n])[m])
  }

  function IdentitySet(ids: seq<Id>): set<CommitIdentity> {
    set m | 0 <= m < |ids| :: V2(ids[m])
  }

  lemma IdentitySets(x: Id, y: Id)
    ensures IdentitySet([]) == {} && IdentitySet([x]) == {V2(x)} && IdentitySet([x, y]) == {V2(x), V2(y)}
    ensures [x][1..] == [] && [x, y][1..] == [y]
  {
    assert [x][0] == x && [x, y][0] == x && [x, y][1] == y;
  }

  function Tail(ids: seq<Id>): seq<Id> { if ids == [] then [] else ids[1..] }

  lemma SpecOfOne(w: World, spec: PackSpec, c: nat)
    requires spec.commits == [c]
    ensures SpecIds(spec) == {V2(C(c))}
    ensures SpecParents(w, spec) == IdentitySet(Parents(w, c))
            && SpecMerges(w, spec) == IdentitySet(Tail(Parents(w, c)))
  {
    hide C;
    assert spec.commits[0] == c;
    var ids := Parents(w, c);
    assert forall m :: 1 <= m < |ids| ==> Tail(ids)[m - 1] == ids[m];
    assert forall m :: 0 <= m < |Tail(ids)| ==> Tail(ids)[m] == ids[m + 1];
  }

  lemma SpecOfTwo(w: World, spec: PackSpec, c: nat, d: nat)
    requires spec.commits == [c, d]
    ensures SpecIds(spec) == {V2(C(c)), V2(C(d))}
    ensures SpecParents(w, spec) == IdentitySet(Parents(w, c)) + IdentitySet(Parents(w, d))
    ensures SpecMerges(w, spec) == IdentitySet(Tail(Parents(w, c))) + IdentitySet(Tail(Parents(w, d)))
  {
    hide C;
    assert spec.commits[0] == c && spec.commits[1] == d;
    var ids, jds := Parents(w, c), Parents(w, d);
    assert forall m :: 1 <= m < |ids| ==> Tail(ids)[m - 1] == ids[m];
    assert forall m :: 0 <= m < |Tail(ids)| ==> Tail(ids)[m] == ids[m + 1];
    assert forall m :: 1 <= m < |jds| ==> Tail(jds)[m - 1] == jds[m];
    assert forall m :: 0 <= m < |Tail(jds)| ==> Tail(jds)[m] == jds[m + 1];
  }

  lemma HeldRow(w: World, codec: Codec<PackFrame>, store: PullStore, t: Id, j: nat)
    requires Valid(w, codec) && j < |w.packs| && Held(w, codec, store, t, j)
    ensures var k, spec := ContractOf(w, codec), w.packs[j];
            && RowFrame(k, store, t) == Some(PackAt(w, j)) && HashOf(store, t) == P(j)
            && RowIds(k, store, t) == SpecIds(spec) && RowParents(k, store, t) == SpecParents(w, spec)
            && RowMerges(k, store, t) == SpecMerges(w, spec)
  {
    RangeReads(w, codec, store, j);
    PackContents(w, codec, j);
    hide Identity;
    hide Read;
    hide C;
    hide P;
    hide ContractOf;
    hide Valid;
    hide Ids;
    hide AllParents;
    hide MergeParents;
  }

  lemma PackRecorded(w: World, codec: Codec<PackFrame>, g: Graph, j: nat)
    requires Valid(w, codec) && j < |w.packs|
    requires forall n :: 0 <= n < |w.packs[j].commits| ==>
               var c := w.packs[j].commits[n]; C(c) in g && g[C(c)] == Parents(w, c)
    ensures Recorded(ContractOf(w, codec), g, PackAt(w, j))
  {
    PackCommits(w, codec, j);
    hide Identity;
    hide ContractOf;
    hide Encodes;
    hide C;
  }

  // ----- short chains -------------------------------------------------------------------

  lemma ChainOfOne(store: PullStore, t: Id)
    requires t in store.ranges && store.ranges[t].target == t && store.ranges[t].base == ""
    ensures ChainEnds(store, t, "") && ChainSet(store, t, "") == {t} && ChainComplete(store, t, "")
  {
    var rows := [store.ranges[t]];
    assert ChainRows(store, t, "", rows);
    ChainTargets(store, t, "", rows);
    assert rows[0].target == t;
    ChainValid(store, t, "", rows);
  }

  lemma ChainOfTwo(store: PullStore, t: Id, u: Id)
    requires t in store.ranges && store.ranges[t].target == t && store.ranges[t].base == u && u != ""
    requires u in store.ranges && store.ranges[u].target == u && store.ranges[u].base == ""
    ensures ChainEnds(store, t, "") && ChainSet(store, t, "") == {t, u} && ChainComplete(store, t, "")
  {
    var rows := [store.ranges[t], store.ranges[u]];
    assert ChainRows(store, t, "", rows);
    ChainTargets(store, t, "", rows);
    assert rows[0].target == t && rows[1].target == u;
    ChainValid(store, t, "", rows);
  }

  /** A walk that stops at a base which is no row's target does not arrive at the start of history. */
  lemma ChainBroken(store: PullStore, t: Id)
    requires t in store.ranges && store.ranges[t].target == t && store.ranges[t].base !in store.ranges
    requires store.ranges[t].base != ""
    ensures ChainEnds(store, t, "") && !ChainComplete(store, t, "")
  {
    var rows := [store.ranges[t]];
    assert ChainRows(store, t, "", rows);
    ChainValid(store, t, "", rows);
  }

  lemma NoChain(store: PullStore, t: Id)
    requires t !in store.ranges
    ensures !ChainComplete(store, t, "")
  {
    assert ChainRows(store, t, "", []);
    ChainValid(store, t, "", []);
  }

  // ----- a V3 pack without its base -----------------------------------------------------

  /** What pulls read after the three pushes that rewind "main". */
  function RewoundStore(codec: Codec<PackFrame>): PullStore {
    PullStore(map["main" := C(2), "side" := C(1)], GraphOf(REWOUND.commits), REWOUND_RANGES,
              map[P(0) := codec.encode(PackAt(UNLINKED, 0)), P(1) := codec.encode(PackAt(UNLINKED, 1)),
                  P(2) := codec.encode(PackAt(UNLINKED, 2))])
  }

  const REWOUND_RANGES: map<Id, PackRange> :=
    map[C(0) := PackRange(P(0), "", C(0), PACK_FORMAT_V2), C(1) := PackRange(P(1), "", C(1), PACK_FORMAT_V2),
        C(2) := PackRange(P(2), C(0), C(2), PACK_FORMAT_V3)]

  lemma RewoundRanges()
    ensures RangeAt(UNLINKED, 0) == PackRange(P(0), "", C(0), PACK_FORMAT_V2)
    ensures RangeAt(UNLINKED, 1) == PackRange(P(1), "", C(1), PACK_FORMAT_V2)
    ensures RangeAt(UNLINKED, 2) == PackRange(P(2), C(0), C(2), PACK_FORMAT_V3)
  {
    hide C;
    hide P;
  }

  lemma RewoundHeld(codec: Codec<PackFrame>)
    ensures Held(UNLINKED, codec, RewoundStore(codec), C(0), 0) && Held(UNLINKED, codec, RewoundStore(codec), C(1), 1)
    ensures Held(UNLINKED, codec, RewoundStore(codec), C(2), 2)
  {
    Names();
    RewoundRanges();
    hide C;
    hide P;
    hide PackAt;
    hide RangeAt;
    hide ValidContentID;
    hide GraphOf;
  }

  /** Two packs with different hashes and targets, as the repository and as pulls list them. */
  lemma TwoRowsViewed(r: Repo, store: PullStore, f: Hash, g: Hash, x: RangeRow, y: RangeRow)
    requires store.commits == GraphOf(r.commits) && store.heads == (map b | b in r.branches :: r.branches[b].head)
    requires r.ranges == map[f := x, g := y] && f != g && x.target != y.target
    requires store.ranges == map[x.target := PullRuns.RowOf(f, x), y.target := PullRuns.RowOf(g, y)]
    ensures PullRuns.Views(r, store)
  {
    hide GraphOf;
    forall q | q in r.ranges
      ensures r.ranges[q].target in store.ranges && store.ranges[r.ranges[q].target] == PullRuns.RowOf(q, r.ranges[q])
    {
      assert if q == f then r.ranges[q] == x else q == g && r.ranges[q] == y;
    }
    forall t | t in store.ranges
      ensures store.ranges[t].hash in r.ranges && r.ranges[store.ranges[t].hash].target == t
    {
      assert if t == x.target then store.ranges[t].hash == f else t == y.target && store.ranges[t].hash == g;
    }
  }

  /** Three packs with different hashes and targets, as the repository and as pulls list them. */
  lemma ThreeRowsViewed(r: Repo, store: PullStore, f: Hash, g: Hash, h: Hash, x: RangeRow, y: RangeRow, z: RangeRow)
    requires store.commits == GraphOf(r.commits) && store.heads == (map b | b in r.branches :: r.branches[b].head)
    requires r.ranges == map[f := x, g := y, h := z] && f != g && g != h && f != h
    requires store.ranges == map[x.target := PullRuns.RowOf(f, x), y.target := PullRuns.RowOf(g, y), z.target :=
             PullRuns.RowOf(h, z)]
    requires x.target != y.target && y.target != z.target && x.target != z.target
    ensures PullRuns.Views(r, store)
  {
    hide GraphOf;
    hide PullRuns.RowOf;
    forall q | q in r.ranges
      ensures r.ranges[q].target in store.ranges && store.ranges[r.ranges[q].target] == PullRuns.RowOf(q, r.ranges[q])
    {
      if q == f {
        assert r.ranges[q] == x && store.ranges[x.target] == PullRuns.RowOf(f, x);
      } else if q == g {
        assert r.ranges[q] == y && store.ranges[y.target] == PullRuns.RowOf(g, y);
      } else {
        assert q == h && r.ranges[q] == z && store.ranges[z.target] == PullRuns.RowOf(h, z);
      }
    }
    forall t | t in store.ranges ensures store.ranges[t].hash in r.ranges
      && r.ranges[store.ranges[t].hash].target == t {
      ThreeTargets(store, f, g, h, x, y, z, t);
    }
  }

  lemma ThreeTargets(store: PullStore, f: Hash, g: Hash, h: Hash, x: RangeRow, y: RangeRow, z: RangeRow, t: Id)
    requires store.ranges == map[x.target := PullRuns.RowOf(f, x), y.target := PullRuns.RowOf(g, y), z.target :=
             PullRuns.RowOf(h, z)]
    requires x.target != y.target && y.target != z.target && x.target != z.target && t in store.ranges
    ensures var q := store.ranges[t].hash;
            (q == f && t == x.target) || (q == g && t == y.target) || (q == h && t == z.target)
  {}

  /** The tables of the rewound repository, written out. */
  lemma RewoundRepo()
    ensures REWOUND.ranges == map[P(0) := RangeRow("", C(0), PACK_FORMAT_V2), P(1) :=
            RangeRow("", C(1), PACK_FORMAT_V2),
                                  P(2) := RangeRow(C(0), C(2), PACK_FORMAT_V3)]
    ensures (map b | b in REWOUND.branches :: REWOUND.branches[b].head) == map["main" := C(2), "side" := C(1)]
  {
    Repositories();
    hide C;
    hide P;
    hide WithPack;
    hide RowOf;
  }

  lemma RewoundViewed(codec: Codec<PackFrame>)
    ensures Shows(UNLINKED, codec, REWOUND, RewoundStore(codec))
  {
    Names();
    RewoundRepo();
    RewoundRanged(codec);
    RewoundBlobs(codec);
    hide PullRuns.Views;
    hide C;
    hide P;
    hide GraphOf;
    hide RewoundStore;
    hide WithPack;
    hide PullRuns.RowOf;
    ThreeRowsViewed(REWOUND, RewoundStore(codec), P(0), P(1), P(2), RangeRow("", C(0), PACK_FORMAT_V2),
                    RangeRow("", C(1), PACK_FORMAT_V2), RangeRow(C(0), C(2), PACK_FORMAT_V3));
  }

  lemma RewoundRanged(codec: Codec<PackFrame>)
    ensures var store := RewoundStore(codec);
            && store.commits == GraphOf(REWOUND.commits) && store.heads == map["main" := C(2), "side" := C(1)]
            && store.ranges == map[C(0) := PullRuns.RowOf(P(0), RangeRow("", C(0), PACK_FORMAT_V2)),
                                   C(1) := PullRuns.RowOf(P(1), RangeRow("", C(1), PACK_FORMAT_V2)),
                                   C(2) := PullRuns.RowOf(P(2), RangeRow(C(0), C(2), PACK_FORMAT_V3))]
  {
    hide C;
    hide P;
    hide PackAt;
    hide GraphOf;
  }

  lemma RewoundBlobs(codec: Codec<PackFrame>)
    ensures |UNLINKED.packs| == 3
    ensures forall j :: 0 <= j < |UNLINKED.packs| ==>
              P(j) in RewoundStore(codec).blobs
              && RewoundStore(codec).blobs[P(j)] == codec.encode(PackAt(UNLINKED, j))
  {
    Names();
    hide C;
    hide P;
    hide PackAt;
    hide GraphOf;
    hide ValidContentID;
  }

  lemma RewoundChains(store: PullStore)
    requires store.ranges == REWOUND_RANGES
    ensures RangesValid(store) && ChainsEnd(store)
    ensures ChainSet(store, C(2), "") == {C(2), C(0)} && ChainComplete(store, C(2), "")
  {
    Names();
    hide C;
    hide P;
    hide ValidContentID;
    hide ChainEnds;
    hide ChainSet;
    hide ChainComplete;
    ChainOfOne(store, C(0));
    ChainOfOne(store, C(1));
    ChainOfTwo(store, C(2), C(0));
  }

  lemma RewoundAcyclic(codec: Codec<PackFrame>)
    ensures Acyclic(RewoundStore(codec).commits)
  {
    Names();
    Repositories();
    hide C;
    hide P;
    var rank: map<Id, nat> := map[C(0) := 0, C(1) := 0, C(2) := 1];
    assert Ranked(GraphOf(REWOUND.commits), rank);
  }

  lemma RewoundGraph()
    ensures var g := GraphOf(REWOUND.commits);
            && C(0) in g && g[C(0)] == [] && C(1) in g && g[C(1)] == [] && C(2) in g && g[C(2)] == [C(1)]
    ensures Parents(UNLINKED, 0) == [] && Parents(UNLINKED, 1) == [] && Parents(UNLINKED, 2) == [C(1)]
  {
    Names();
    Repositories();
    hide C;
    hide P;
    hide ValidContentID;
    hide WithPack;
  }

  lemma RewoundRecorded(codec: Codec<PackFrame>)
    requires Encodes(UNLINKED, codec)
    ensures AllRecorded(ContractOf(UNLINKED, codec), RewoundStore(codec))
  {
    var k, store := ContractOf(UNLINKED, codec), RewoundStore(codec);
    var g := GraphOf(REWOUND.commits);
    UnlinkedValid(codec);
    RewoundHeld(codec);
    RewoundGraph();
    hide C;
    hide P;
    hide PackAt;
    hide ContractOf;
    hide Recorded;
    hide Read;
    hide Valid;
    hide Held;
    hide Parents;
    hide RowIds;
    hide RowParents;
    hide RowMerges;
    hide SpecIds;
    hide SpecParents;
    hide SpecMerges;
    PackRecorded(UNLINKED, codec, g, 0);
    PackRecorded(UNLINKED, codec, g, 1);
    PackRecorded(UNLINKED, codec, g, 2);
    HeldRow(UNLINKED, codec, store, C(0), 0);
    HeldRow(UNLINKED, codec, store, C(1), 1);
    HeldRow(UNLINKED, codec, store, C(2), 2);
    hide GraphOf;
  }

  /** No pack of these rows needs another one. */
  lemma NoDependencies(k: Contract, store: PullStore, s: set<Id>, head: Id)
    requires RangesValid(store) && s <= store.ranges.Keys && head in s
    requires forall t, u :: t in s && u in s ==> !Uses(k, store, t, u)
    ensures !HasCycle(RowDeps(k, store, s))
    ensures HeadOnTop(k, store, head, s) <==> forall t :: t in s ==> Ordering.Leq(HashOf(store, t), HashOf(store, head))
  {
    hide Uses;
    var deps := RowDeps(k, store, s);
    forall h | h in deps ensures deps[h] == {} {}
    forall walk: seq<Hash> ensures !Cycle(deps, walk) {
      if Walk(deps, walk) { ShortWalk(deps, walk); }
    }
    assert deps.Keys == Hashes(store, s);
    var m := LargestOf(Hashes(store, s)) by { assert HashOf(store, head) in Hashes(store, s); }
    forall h, x | Below(deps, h, x) ensures x == h {
      var walk :| WalkTo(deps, h, x, walk);
      ShortWalk(deps, walk);
    }
    assert Above(deps, Hashes(store, s), m) == {};
    ClimbStep(deps, Hashes(store, s), m, HashOf(store, head));
    assert HashOf(store, head) in Hashes(store, s);
    if HashOf(store, head) != m { LargestIsNot(store, s, head, m); }
  }

  lemma ShortWalk(deps: Dependencies, walk: seq<Hash>)
    requires Walk(deps, walk) && forall h :: h in deps ==> deps[h] == {}
    ensures |walk| <= 1
  {
    if |walk| > 1 { WalkStep(deps, walk, 0); }
  }

  lemma WalkStep(deps: Dependencies, walk: seq<Hash>, i: nat)
    requires Walk(deps, walk) && i < |walk| - 1
    ensures walk[i] in deps && walk[i + 1] in deps[walk[i]]
  {}

  lemma LargestIsNot(store: PullStore, s: set<Id>, head: Id, m: Hash)
    requires head in s && m in Hashes(store, s) && Largest(Hashes(store, s), m) && HashOf(store, head) != m
    ensures exists t :: t in s && !Ordering.Leq(HashOf(store, t), HashOf(store, head))
  {
    var t :| t in s && HashOf(store, t) == m;
    assert HashOf(store, head) in Hashes(store, s);
    Ordering.LessAsymmetric(HashOf(store, head), m);
  }

  /** The pull of "main" can be planned, but the head's pack is not on top: it needs no other pack, and the pack of
      its base has the larger hash. */
  lemma RewoundPlanned(codec: Codec<PackFrame>)
    requires Encodes(UNLINKED, codec)
    ensures var k, store, rows := ContractOf(UNLINKED, codec), RewoundStore(codec), {C(2), C(0)};
            Plannable(k, store, "", rows) && Closure(k, store, "", rows) == rows && !HeadOnTop(k, store, C(2), rows)
  {
    hide *;
    UnlinkedValid(codec);
    RewoundHeld(codec);
    RewoundTable(codec);
    PackNamesDescend(0, 2);
    var k, store, rows := ContractOf(UNLINKED, codec), RewoundStore(codec), {C(2), C(0)};
    UnlinkedPacks();
    HeldRow(UNLINKED, codec, store, C(0), 0);
    HeldRow(UNLINKED, codec, store, C(2), 2);
    RewoundSpecs();
    RewoundRows(k, store);
    NoDependencies(k, store, rows, C(2));
    Ordering.LessAsymmetric(P(2), P(0));
    HigherHash(store);
    LastRound(k, store, "", rows);
  }

  lemma HigherHash(store: PullStore)
    requires HashOf(store, C(0)) == P(0) && HashOf(store, C(2)) == P(2) && !Ordering.Less(P(0), P(2)) && P(0) != P(2)
    ensures C(0) in {C(2), C(0)} && !Ordering.Leq(HashOf(store, C(0)), HashOf(store, C(2)))
  {
    hide C;
    hide P;
    hide HashOf;
    hide Ordering.Less;
  }

  lemma UnlinkedPacks()
    ensures |UNLINKED.packs| == 3
  {}

  lemma RewoundTable(codec: Codec<PackFrame>)
    ensures var store := RewoundStore(codec);
            && RangesValid(store) && ChainsEnd(store) && {C(2), C(0)} <= store.ranges.Keys
            && ChainSet(store, C(2), "") == {C(2), C(0)} && ChainComplete(store, C(2), "")
            && "main" in store.heads && store.heads["main"] == C(2) && C(2) != ""
  {
    RewoundChains(RewoundStore(codec));
    Names();
    hide C;
    hide P;
    hide ValidContentID;
    hide ChainsEnd;
    hide ChainSet;
    hide ChainComplete;
  }

  /** What the packs of the two rows carry and name as parents. */
  lemma RewoundSpecs()
    ensures SpecIds(UNLINKED.packs[0]) == {V2(C(0))} && SpecIds(UNLINKED.packs[2]) == {V2(C(2))}
    ensures SpecParents(UNLINKED, UNLINKED.packs[0]) == {} && SpecParents(UNLINKED, UNLINKED.packs[2]) == {V2(C(1))}
    ensures SpecMerges(UNLINKED, UNLINKED.packs[0]) == {} && SpecMerges(UNLINKED, UNLINKED.packs[2]) == {}
    ensures C(0) != C(1) && C(1) != C(2) && C(0) != C(2)
  {
    Names();
    hide C;
    hide P;
    hide ValidContentID;
    hide SpecIds;
    hide SpecParents;
    hide SpecMerges;
    SpecOfOne(UNLINKED, UNLINKED.packs[0], 0);
    SpecOfOne(UNLINKED, UNLINKED.packs[2], 2);
    assert Parents(UNLINKED, 0) == [] && Parents(UNLINKED, 2) == [C(1)];
    IdentitySets(C(1), C(1));
  }

  lemma RewoundRows(k: Contract, store: PullStore)
    requires RowFrame(k, store, C(0)).Some? && RowFrame(k, store, C(2)).Some?
    requires RowIds(k, store, C(0)) == {V2(C(0))} && RowIds(k, store, C(2)) == {V2(C(2))}
    requires RowParents(k, store, C(0)) == {} && RowParents(k, store, C(2)) == {V2(C(1))}
    requires RowMerges(k, store, C(0)) == {} && RowMerges(k, store, C(2)) == {}
    requires C(0) != C(1) && C(1) != C(2) && C(0) != C(2)
    ensures var rows := {C(2), C(0)};
            && Readable(k, store, rows) && Disjoint(k, store, rows) && MergesV2(k, store, rows)
              && Missing(k, store, "", rows) == {}
            && forall t, u :: t in rows && u in rows ==> !Uses(k, store, t, u)
  {
    hide C;
    hide P;
    hide RowFrame;
    hide RowIds;
    hide RowParents;
    hide RowMerges;
    hide WillHave;
  }

  /** Three accepted pushes to an empty repository, and then a client that knows nothing pulls "main": a plan over what
      the pushes left is found and streamed, and the decoder takes the streamed bytes for no pull at all. */
  method UndecodablePull(codec: Codec<PackFrame>, mc: PullEnvelope.ManifestCodec)
    returns (plan: Result<Plan, PullError>, sent: Option<(PullEnvelope.PullManifest, Bytes)>,
             received: Option<(PullEnvelope.PullManifest, seq<Bytes>)>)
    requires Encodes(UNLINKED, codec) && Lawful(mc)
    ensures Pushes(UNLINKED, codec, EMPTY, 0, "main", ONE_ROOT)
            && Pushes(UNLINKED, codec, ONE_ROOT, 1, "side", TWO_ROOTS)
            && Pushes(UNLINKED, codec, TWO_ROOTS, 2, "main", REWOUND)
    ensures Shows(UNLINKED, codec, REWOUND, RewoundStore(codec))
    ensures "main" in RewoundStore(codec).heads && plan.Ok? && plan.value.head == RewoundStore(codec).heads["main"]
    ensures PlanOk(ContractOf(UNLINKED, codec), RewoundStore(codec), plan.value.head, "", plan.value.ranges)
    ensures sent.Some? && ManifestOf(RewoundStore(codec), plan.value, sent.value.0)
    ensures sent.value.1 == Envelope(PullEnvelope.PULL_MAGIC, PullEnvelope.PULL_ENVELOPE_FORMAT_V2,
                                     mc.encode(sent.value.0), BlobsOf(RewoundStore(codec), plan.value.ranges))
    ensures |sent.value.1| < Pow256(8) ==>
              && received.None?
              && forall m, packs ::
                   !PullEnvelope.Accepts(ContractOf(UNLINKED, codec), mc, sent.value.1, m, packs)
  {
    hide *;
    var k, store := ContractOf(UNLINKED, codec), RewoundStore(codec);
    UnlinkedPacks();
    PushesAccepted(codec);
    RewoundViewed(codec);
    RewoundTable(codec);
    RewoundAcyclic(codec);
    RewoundRecorded(codec);
    RewoundPlanned(codec);
    UnlinkedValid(codec);
    ContractIdsValid(UNLINKED, codec);
    NegotiatedMeans(store, "main", "");
    plan, sent, received := FullPull(k, mc, store, "main");
  }

  lemma ContractIdsValid(w: World, codec: Codec<PackFrame>)
    requires Valid(w, codec)
    ensures ContentIdsValid(ContractOf(w, codec))
  {
    Names();
    hide C;
    hide P;
    hide ValidContentID;
  }
}
