// Three repositories of V2 packs, each built by accepted pushes, in which a branch cannot be pulled.
module V2Examples {
  import opened Wrappers
  import opened CommitGraph
  import opened Framing
  import opened RackStore
  import opened RackRuns
  import opened PushEngine
  import opened Worlds
  import opened PullPlan
  import opened PullClosure
  import opened PullEngine
  import opened PullExamples
  import opened UnlinkedPush
  import PullRuns

  // ----- a merge parent inside a pack ---------------------------------------------------

  /** The second pack merges the first commit of the first pack. */
  const INSIDE: World := World([[], [C(0)], [], [C(2), C(0)]],
                               [PackSpec(PACK_FORMAT_V2, "", [0, 1]), PackSpec(PACK_FORMAT_V2, "", [2, 3])])
  const INSIDE_MAIN: Repo := WithPack(INSIDE, EMPTY, 0, "main")
  const INSIDE_SIDE: Repo := WithPack(INSIDE, INSIDE_MAIN, 1, "side")
  const INSIDE_RANGES: map<Id, PackRange> :=
    map[C(1) := PackRange(P(0), "", C(1), PACK_FORMAT_V2), C(3) := PackRange(P(1), "", C(3), PACK_FORMAT_V2)]

  function InsideStore(codec: Codec<PackFrame>): PullStore {
    PullStore(map["main" := C(1), "side" := C(3)], GraphOf(INSIDE_SIDE.commits), INSIDE_RANGES,
              map[P(0) := codec.encode(PackAt(INSIDE, 0)), P(1) := codec.encode(PackAt(INSIDE, 1))])
  }

  lemma InsideValid(codec: Codec<PackFrame>)
    requires Encodes(INSIDE, codec)
    ensures Valid(INSIDE, codec) && |INSIDE.packs| == 2
  {
    Names();
    hide Encodes;
    hide C;
    hide ValidContentID;
    hide PacksDiffer;
    TargetsTell(INSIDE);
    assert FollowsSpec(INSIDE, INSIDE.packs[0], 0) && FollowsSpec(INSIDE, INSIDE.packs[0], 1);
    assert FollowsSpec(INSIDE, INSIDE.packs[1], 0) && FollowsSpec(INSIDE, INSIDE.packs[1], 1);
  }

  lemma InsideFirst()
    ensures Pushable(INSIDE, EMPTY, 0, "main")
  {
    Names();
    hide C;
    hide P;
    hide ValidContentID;
    hide AddRows;
    hide WithPack;
    hide AllParentsKnown;
    assert RegistrableAt(INSIDE, EMPTY.commits, [0, 1], 0) && RegistrableAt(INSIDE, EMPTY.commits, [0, 1], 1);
  }

  /** The repository before the second push. */
  lemma InsideSecondState()
    ensures INSIDE_MAIN.commits.Keys == {C(0), C(1)} && INSIDE_MAIN.branches == map["main" := Branch(C(1), false)]
    ensures INSIDE_MAIN.leases == map[] && INSIDE_MAIN.ranges == map[P(0) := RangeRow("", C(1), PACK_FORMAT_V2)]
  {
    WithPackOf(INSIDE, EMPTY, 0, "main");
    hide C;
    hide P;
    hide WithPack;
    hide RowOf;
  }

  lemma InsideSecond()
    ensures Pushable(INSIDE, INSIDE_MAIN, 1, "side")
  {
    Names();
    InsideSecondState();
    hide C;
    hide P;
    hide ValidContentID;
    hide AddRows;
    hide WithPack;
    hide AllParentsKnown;
    assert RegistrableAt(INSIDE, INSIDE_MAIN.commits, [2, 3], 0)
      && RegistrableAt(INSIDE, INSIDE_MAIN.commits, [2, 3], 1);
  }

  lemma InsidePushed(codec: Codec<PackFrame>)
    requires Encodes(INSIDE, codec)
    ensures |INSIDE.packs| == 2
    ensures Pushes(INSIDE, codec, EMPTY, 0, "main", INSIDE_MAIN)
            && Pushes(INSIDE, codec, INSIDE_MAIN, 1, "side", INSIDE_SIDE)
  {
    InsideValid(codec);
    InsideFirst();
    InsideSecond();
    hide Valid;
    hide Pushable;
    hide Pushes;
    hide WithPack;
    PushAccepted(INSIDE, codec, EMPTY, 0, "main");
    PushAccepted(INSIDE, codec, INSIDE_MAIN, 1, "side");
  }

  lemma InsideChains(store: PullStore)
    requires store.ranges == INSIDE_RANGES
    ensures RangesValid(store) && ChainsEnd(store)
    ensures ChainSet(store, C(3), "") == {C(3)} && ChainComplete(store, C(3), "") && !ChainComplete(store, C(0), "")
  {
    Names();
    hide C;
    hide P;
    hide ValidContentID;
    hide ChainEnds;
    hide ChainSet;
    hide ChainComplete;
    ChainOfOne(store, C(1));
    ChainOfOne(store, C(3));
    NoChain(store, C(0));
  }

  lemma InsideHeld(codec: Codec<PackFrame>)
    ensures |INSIDE.packs| == 2 && Held(INSIDE, codec, InsideStore(codec), C(3), 1)
  {
    Names();
    hide C;
    hide P;
    hide PackAt;
    hide ValidContentID;
    hide GraphOf;
  }

  lemma InsideSpecs()
    ensures |INSIDE.packs| == 2
    ensures SpecIds(INSIDE.packs[1]) == {V2(C(2)), V2(C(3))} && SpecMerges(INSIDE, INSIDE.packs[1]) == {V2(C(0))}
    ensures C(0) != "" && C(0) != C(2) && C(0) != C(3)
  {
    Names();
    hide C;
    hide ValidContentID;
    hide SpecIds;
    hide SpecParents;
    hide SpecMerges;
    SpecOfTwo(INSIDE, INSIDE.packs[1], 2, 3);
    assert Parents(INSIDE, 2) == [] && Parents(INSIDE, 3) == [C(2), C(0)];
    IdentitySets(C(0), C(0));
    IdentitySets(C(2), C(0));
  }

  /** A row whose only merge parent is a commit that no row ends at. */
  lemma MissingChain(k: Contract, store: PullStore, t: Id, m: Id)
    requires RowFrame(k, store, t).Some? && RowMerges(k, store, t) == {V2(m)} && V2(m) !in RowIds(k, store, t)
    requires m != "" && !ChainComplete(store, m, "")
    ensures Fails(k, store, "", {t}, IncompleteChain)
  {
    hide RowFrame;
    hide RowMerges;
    hide RowIds;
    hide ChainComplete;
    assert V2(m) in Missing(k, store, "", {t});
    assert V2(m).id == m;
    assert !Fetchable(k, store, "", {t});
    hide Missing;
    hide NextRound;
  }

  lemma InsideFails(codec: Codec<PackFrame>)
    requires Encodes(INSIDE, codec)
    ensures var k, store := ContractOf(INSIDE, codec), InsideStore(codec);
            && RangesValid(store) && ChainsEnd(store) && Negotiated(store, "side", "")
              && HeadChainComplete(store, "side", "")
            && Fails(k, store, "", FirstRows(store, "side", ""), IncompleteChain)
  {
    hide *;
    var k, store := ContractOf(INSIDE, codec), InsideStore(codec);
    InsideReads(codec);
    InsideChains(store);
    InsideFaulty(codec);
    NegotiatedMeans(store, "side", "");
  }

  lemma InsideViewed(codec: Codec<PackFrame>)
    ensures Shows(INSIDE, codec, INSIDE_SIDE, InsideStore(codec))
  {
    Names();
    InsideRepo();
    InsideBlobs(codec);
    hide C;
    hide P;
    hide PackAt;
    hide GraphOf;
    hide WithPack;
    hide ValidContentID;
    hide PullRuns.Views;
    TwoRowsViewed(INSIDE_SIDE, InsideStore(codec), P(0), P(1), RangeRow("", C(1), PACK_FORMAT_V2),
                  RangeRow("", C(3), PACK_FORMAT_V2));
  }

  lemma InsideRepo()
    ensures INSIDE_SIDE.ranges ==
            map[P(0) := RangeRow("", C(1), PACK_FORMAT_V2), P(1) := RangeRow("", C(3), PACK_FORMAT_V2)]
    ensures (map b | b in INSIDE_SIDE.branches :: INSIDE_SIDE.branches[b].head) == map["main" := C(1), "side" := C(3)]
  {
    InsideSecondState();
    WithPackOf(INSIDE, INSIDE_MAIN, 1, "side");
    hide C;
    hide P;
    hide WithPack;
    hide RowOf;
  }

  lemma InsideBlobs(codec: Codec<PackFrame>)
    ensures |INSIDE.packs| == 2
    ensures forall j :: 0 <= j < |INSIDE.packs| ==>
              P(j) in InsideStore(codec).blobs && InsideStore(codec).blobs[P(j)] == codec.encode(PackAt(INSIDE, j))
  {
    Names();
    hide C;
    hide P;
    hide PackAt;
    hide GraphOf;
    hide ValidContentID;
  }

  lemma InsideReads(codec: Codec<PackFrame>)
    ensures var store := InsideStore(codec);
            store.ranges == INSIDE_RANGES && "side" in store.heads && store.heads["side"] == C(3) && C(3) != ""
  {
    Names();
    hide C;
    hide P;
    hide PackAt;
    hide ValidContentID;
    hide GraphOf;
  }

  lemma InsideFaulty(codec: Codec<PackFrame>)
    requires Encodes(INSIDE, codec)
    ensures Fails(ContractOf(INSIDE, codec), InsideStore(codec), "", {C(3)}, IncompleteChain)
  {
    hide *;
    var k, store := ContractOf(INSIDE, codec), InsideStore(codec);
    InsideReads(codec);
    InsideValid(codec);
    InsideChains(store);
    InsideHeld(codec);
    InsideSpecs();
    HeldRow(INSIDE, codec, store, C(3), 1);
    OtherIdentity(C(0), C(2), C(3));
    MissingChain(k, store, C(3), C(0));
  }

  /** Two V2 pushes to an empty repository, after which the second branch cannot be pulled: its merge parent lies inside
      the first pack, so no pack chain ends at it. */
  method MergeParentInside(codec: Codec<PackFrame>) returns (r: Result<Plan, PullError>)
    requires Encodes(INSIDE, codec)
    ensures |INSIDE.packs| == 2
    ensures Pushes(INSIDE, codec, EMPTY, 0, "main", INSIDE_MAIN)
            && Pushes(INSIDE, codec, INSIDE_MAIN, 1, "side", INSIDE_SIDE)
    ensures Shows(INSIDE, codec, INSIDE_SIDE, InsideStore(codec))
    ensures Negotiated(InsideStore(codec), "side", "") && HeadChainComplete(InsideStore(codec), "side", "")
    ensures Fails(ContractOf(INSIDE, codec), InsideStore(codec), "", FirstRows(InsideStore(codec), "side", ""),
                  IncompleteChain)
    ensures r == Err(IncompleteChain)
  {
    hide *;
    var k, store := ContractOf(INSIDE, codec), InsideStore(codec);
    InsidePushed(codec);
    InsideViewed(codec);
    InsideFails(codec);
    r := PreparePull(k, store, "side", "");
    SameIncomplete(r);
  }

  lemma OtherIdentity(a: Id, b: Id, c: Id)
    requires a != b && a != c
    ensures V2(a) !in {V2(b), V2(c)}
  {}

  lemma SameIncomplete(r: Result<Plan, PullError>)
    requires r.Err? && SameFault(r.error, IncompleteChain)
    ensures r == Err(IncompleteChain)
  {}

  // ----- a branch inside a pack ---------------------------------------------------------

  /** The second pack continues the first commit of the first pack. */
  const FORKED: World := World([[], [C(0)], [C(0)]],
                               [PackSpec(PACK_FORMAT_V2, "", [0, 1]), PackSpec(PACK_FORMAT_V2, C(0), [2])])
  const FORKED_MAIN: Repo := WithPack(FORKED, EMPTY, 0, "main")
  const FORKED_BRANCH: Repo := FORKED_MAIN.(branches := FORKED_MAIN.branches["side" := Branch(C(0), false)])
  const FORKED_SIDE: Repo := WithPack(FORKED, FORKED_BRANCH, 1, "side")
  const FORKED_RANGES: map<Id, PackRange> :=
    map[C(1) := PackRange(P(0), "", C(1), PACK_FORMAT_V2), C(2) := PackRange(P(1), C(0), C(2), PACK_FORMAT_V2)]

  function ForkedStore(codec: Codec<PackFrame>): PullStore {
    PullStore(map["main" := C(1), "side" := C(2)], GraphOf(FORKED_SIDE.commits), FORKED_RANGES,
              map[P(0) := codec.encode(PackAt(FORKED, 0)), P(1) := codec.encode(PackAt(FORKED, 1))])
  }

  lemma ForkedValid(codec: Codec<PackFrame>)
    requires Encodes(FORKED, codec)
    ensures Valid(FORKED, codec) && |FORKED.packs| == 2
  {
    Names();
    hide Encodes;
    hide C;
    hide ValidContentID;
    hide PacksDiffer;
    TargetsTell(FORKED);
    assert FollowsSpec(FORKED, FORKED.packs[0], 0) && FollowsSpec(FORKED, FORKED.packs[0], 1);
    assert FollowsSpec(FORKED, FORKED.packs[1], 0);
  }

  lemma ForkedFirst()
    ensures Pushable(FORKED, EMPTY, 0, "main")
  {
    Names();
    hide C;
    hide P;
    hide ValidContentID;
    hide AddRows;
    hide WithPack;
    hide AllParentsKnown;
    assert RegistrableAt(FORKED, EMPTY.commits, [0, 1], 0) && RegistrableAt(FORKED, EMPTY.commits, [0, 1], 1);
  }

  /** The repository before the branch is created. */
  lemma ForkedState()
    ensures FORKED_MAIN.commits == map[C(0) := RowOf(FORKED, 0), C(1) := RowOf(FORKED, 1)]
    ensures FORKED_MAIN.branches == map["main" := Branch(C(1), false)] && FORKED_MAIN.defaultBranch == Some("main")
    ensures FORKED_MAIN.leases == map[] && FORKED_MAIN.ranges == map[P(0) := RangeRow("", C(1), PACK_FORMAT_V2)]
  {
    WithPackOf(FORKED, EMPTY, 0, "main");
    hide C;
    hide P;
    hide WithPack;
    hide RowOf;
  }

  lemma ForkedSecond()
    ensures Pushable(FORKED, FORKED_BRANCH, 1, "side") && CreateBranchTx(FORKED_MAIN, "side", C(0)) == Ok(FORKED_BRANCH)
  {
    Names();
    ForkedState();
    hide C;
    hide P;
    hide ValidContentID;
    hide AddRows;
    hide WithPack;
    hide AllParentsKnown;
    assert RegistrableAt(FORKED, FORKED_BRANCH.commits, [2], 0);
  }

  lemma ForkedPushed(codec: Codec<PackFrame>)
    requires Encodes(FORKED, codec)
    ensures |FORKED.packs| == 2
    ensures Pushes(FORKED, codec, EMPTY, 0, "main", FORKED_MAIN)
            && Pushes(FORKED, codec, FORKED_BRANCH, 1, "side", FORKED_SIDE)
  {
    ForkedValid(codec);
    ForkedFirst();
    ForkedSecond();
    hide Valid;
    hide Pushable;
    hide Pushes;
    hide WithPack;
    PushAccepted(FORKED, codec, EMPTY, 0, "main");
    PushAccepted(FORKED, codec, FORKED_BRANCH, 1, "side");
  }

  lemma ForkedChains(store: PullStore)
    requires store.ranges == FORKED_RANGES
    ensures RangesValid(store) && ChainsEnd(store) && !ChainComplete(store, C(2), "")
  {
    Names();
    hide C;
    hide P;
    hide ValidContentID;
    hide ChainEnds;
    hide ChainSet;
    hide ChainComplete;
    ChainOfOne(store, C(1));
    ChainBroken(store, C(2));
  }

  lemma ForkedViewed(codec: Codec<PackFrame>)
    ensures Shows(FORKED, codec, FORKED_SIDE, ForkedStore(codec))
  {
    Names();
    ForkedRepo();
    ForkedBlobs(codec);
    hide C;
    hide P;
    hide PackAt;
    hide GraphOf;
    hide WithPack;
    hide ValidContentID;
    hide PullRuns.Views;
    TwoRowsViewed(FORKED_SIDE, ForkedStore(codec), P(0), P(1), RangeRow("", C(1), PACK_FORMAT_V2),
                  RangeRow(C(0), C(2), PACK_FORMAT_V2));
  }

  lemma ForkedRepo()
    ensures FORKED_SIDE.ranges ==
            map[P(0) := RangeRow("", C(1), PACK_FORMAT_V2), P(1) := RangeRow(C(0), C(2), PACK_FORMAT_V2)]
    ensures (map b | b in FORKED_SIDE.branches :: FORKED_SIDE.branches[b].head) == map["main" := C(1), "side" := C(2)]
  {
    ForkedState();
    WithPackOf(FORKED, FORKED_BRANCH, 1, "side");
    hide C;
    hide P;
    hide WithPack;
    hide RowOf;
  }

  lemma ForkedBlobs(codec: Codec<PackFrame>)
    ensures |FORKED.packs| == 2
    ensures forall j :: 0 <= j < |FORKED.packs| ==>
              P(j) in ForkedStore(codec).blobs && ForkedStore(codec).blobs[P(j)] == codec.encode(PackAt(FORKED, j))
  {
    Names();
    hide C;
    hide P;
    hide PackAt;
    hide GraphOf;
    hide ValidContentID;
  }

  /** Two V2 pushes with a branch created in between at a commit inside the first pack. The second pack's base is no
      row's target, so the new branch cannot be pulled. */
  method BranchInside(codec: Codec<PackFrame>) returns (r: Result<Plan, PullError>)
    requires Encodes(FORKED, codec)
    ensures |FORKED.packs| == 2
    ensures Pushes(FORKED, codec, EMPTY, 0, "main", FORKED_MAIN)
    ensures CreateBranchTx(FORKED_MAIN, "side", C(0)) == Ok(FORKED_BRANCH)
    ensures Pushes(FORKED, codec, FORKED_BRANCH, 1, "side", FORKED_SIDE)
    ensures Shows(FORKED, codec, FORKED_SIDE, ForkedStore(codec))
    ensures Negotiated(ForkedStore(codec), "side", "") && !HeadChainComplete(ForkedStore(codec), "side", "")
    ensures r == Err(IncompleteChain)
  {
    var k, store := ContractOf(FORKED, codec), ForkedStore(codec);
    assert store.ranges == FORKED_RANGES && "side" in store.heads && store.heads["side"] == C(2);
    assert C(2) != "" by { Names(); }
    hide *;
    ForkedPushed(codec);
    ForkedViewed(codec);
    ForkedSecond();
    ForkedChains(store);
    NegotiatedMeans(store, "side", "");
    r := PreparePull(k, store, "side", "");
  }

  // ----- commits pushed twice -----------------------------------------------------------

  /** The second pack repeats the first commit of the first one, and the third merges the second's target. */
  const REPEATED: World := World([[], [C(0)], [C(0)], [C(1), C(2)]],
                                 [PackSpec(PACK_FORMAT_V2, "", [0, 1]), PackSpec(PACK_FORMAT_V2, "", [0, 2]),
                                   PackSpec(PACK_FORMAT_V2, C(1), [3])])
  const REPEATED_MAIN: Repo := WithPack(REPEATED, EMPTY, 0, "main")
  const REPEATED_SIDE: Repo := WithPack(REPEATED, REPEATED_MAIN, 1, "side")
  const REPEATED_MERGED: Repo := WithPack(REPEATED, REPEATED_SIDE, 2, "main")
  const REPEATED_RANGES: map<Id, PackRange> :=
    map[C(1) := PackRange(P(0), "", C(1), PACK_FORMAT_V2), C(2) := PackRange(P(1), "", C(2), PACK_FORMAT_V2),
        C(3) := PackRange(P(2), C(1), C(3), PACK_FORMAT_V2)]

  function RepeatedStore(codec: Codec<PackFrame>): PullStore {
    PullStore(map["main" := C(3), "side" := C(2)], GraphOf(REPEATED_MERGED.commits), REPEATED_RANGES,
              map[P(0) := codec.encode(PackAt(REPEATED, 0)), P(1) := codec.encode(PackAt(REPEATED, 1)),
                  P(2) := codec.encode(PackAt(REPEATED, 2))])
  }

  lemma RepeatedValid(codec: Codec<PackFrame>)
    requires Encodes(REPEATED, codec)
    ensures Valid(REPEATED, codec) && |REPEATED.packs| == 3
  {
    Names();
    hide Encodes;
    hide C;
    hide ValidContentID;
    hide PacksDiffer;
    TargetsTell(REPEATED);
    assert FollowsSpec(REPEATED, REPEATED.packs[0], 0) && FollowsSpec(REPEATED, REPEATED.packs[0], 1);
    assert FollowsSpec(REPEATED, REPEATED.packs[1], 0) && FollowsSpec(REPEATED, REPEATED.packs[1], 1);
    assert FollowsSpec(REPEATED, REPEATED.packs[2], 0);
  }

  lemma RepeatedFirst()
    ensures Pushable(REPEATED, EMPTY, 0, "main")
  {
    Names();
    hide C;
    hide P;
    hide ValidContentID;
    hide AddRows;
    hide WithPack;
    hide AllParentsKnown;
    assert RegistrableAt(REPEATED, EMPTY.commits, [0, 1], 0) && RegistrableAt(REPEATED, EMPTY.commits, [0, 1], 1);
  }

  lemma RepeatedSecond()
    ensures Pushable(REPEATED, REPEATED_MAIN, 1, "side")
  {
    Names();
    WithPackOf(REPEATED, EMPTY, 0, "main");
    hide C;
    hide P;
    hide ValidContentID;
    hide AddRows;
    hide WithPack;
    hide AllParentsKnown;
    assert RegistrableAt(REPEATED, REPEATED_MAIN.commits, [0, 2], 0)
      && RegistrableAt(REPEATED, REPEATED_MAIN.commits, [0, 2], 1);
  }

  /** The repository before the third push. */
  lemma RepeatedThirdState()
    ensures REPEATED_SIDE.commits.Keys == {C(0), C(1), C(2)} && REPEATED_SIDE.commits[C(1)] == RowOf(REPEATED, 1)
    ensures REPEATED_SIDE.branches == map["main" := Branch(C(1), false), "side" := Branch(C(2), false)]
    ensures REPEATED_SIDE.defaultBranch.Some? && REPEATED_SIDE.leases == map[]
    ensures REPEATED_SIDE.ranges ==
            map[P(0) := RangeRow("", C(1), PACK_FORMAT_V2), P(1) := RangeRow("", C(2), PACK_FORMAT_V2)]
  {
    Names();
    WithPackOf(REPEATED, EMPTY, 0, "main");
    WithPackOf(REPEATED, REPEATED_MAIN, 1, "side");
    hide C;
    hide P;
    hide ValidContentID;
    hide WithPack;
    hide RowOf;
  }

  lemma RepeatedThird()
    ensures Pushable(REPEATED, REPEATED_SIDE, 2, "main")
  {
    Names();
    RepeatedThirdState();
    hide C;
    hide P;
    hide ValidContentID;
    hide AddRows;
    hide WithPack;
    hide AllParentsKnown;
    assert RegistrableAt(REPEATED, REPEATED_SIDE.commits, [3], 0);
  }

  lemma RepeatedPushed(codec: Codec<PackFrame>)
    requires Encodes(REPEATED, codec)
    ensures |REPEATED.packs| == 3
    ensures Pushes(REPEATED, codec, EMPTY, 0, "main", REPEATED_MAIN)
            && Pushes(REPEATED, codec, REPEATED_MAIN, 1, "side", REPEATED_SIDE)
    ensures Pushes(REPEATED, codec, REPEATED_SIDE, 2, "main", REPEATED_MERGED)
  {
    RepeatedValid(codec);
    RepeatedFirst();
    RepeatedSecond();
    RepeatedThird();
    hide Valid;
    hide Pushable;
    hide Pushes;
    hide WithPack;
    PushAccepted(REPEATED, codec, EMPTY, 0, "main");
    PushAccepted(REPEATED, codec, REPEATED_MAIN, 1, "side");
    PushAccepted(REPEATED, codec, REPEATED_SIDE, 2, "main");
  }

  lemma RepeatedChains(store: PullStore)
    requires store.ranges == REPEATED_RANGES
    ensures RangesValid(store) && ChainsEnd(store) && ChainComplete(store, C(3), "") && ChainComplete(store, C(2), "")
    ensures ChainSet(store, C(3), "") == {C(3), C(1)} && ChainSet(store, C(2), "") == {C(2)}
  {
    Names();
    hide C;
    hide P;
    hide ValidContentID;
    hide ChainEnds;
    hide ChainSet;
    hide ChainComplete;
    ChainOfOne(store, C(1));
    ChainOfOne(store, C(2));
    ChainOfTwo(store, C(3), C(1));
  }

  lemma RepeatedHeld(codec: Codec<PackFrame>)
    ensures |REPEATED.packs| == 3 && Held(REPEATED, codec, RepeatedStore(codec), C(1), 0)
    ensures Held(REPEATED, codec, RepeatedStore(codec), C(2), 1) && Held(REPEATED, codec, RepeatedStore(codec), C(3), 2)
  {
    Names();
    hide C;
    hide P;
    hide PackAt;
    hide ValidContentID;
    hide GraphOf;
  }

  lemma RepeatedSpecs()
    ensures |REPEATED.packs| == 3
    ensures SpecIds(REPEATED.packs[0]) == {V2(C(0)), V2(C(1))} && SpecMerges(REPEATED, REPEATED.packs[0]) == {}
    ensures SpecIds(REPEATED.packs[1]) == {V2(C(0)), V2(C(2))}
    ensures SpecIds(REPEATED.packs[2]) == {V2(C(3))} && SpecMerges(REPEATED, REPEATED.packs[2]) == {V2(C(2))}
    ensures C(2) != "" && C(0) != C(2) && C(1) != C(2) && C(3) != C(2) && C(0) != C(3) && C(1) != C(3) && C(0) != C(1)
  {
    Names();
    hide C;
    hide ValidContentID;
    hide SpecIds;
    hide SpecParents;
    hide SpecMerges;
    SpecOfTwo(REPEATED, REPEATED.packs[0], 0, 1);
    SpecOfTwo(REPEATED, REPEATED.packs[1], 0, 2);
    SpecOfOne(REPEATED, REPEATED.packs[2], 3);
    assert Parents(REPEATED, 0) == [] && Parents(REPEATED, 1) == [C(0)] && Parents(REPEATED, 3) == [C(1), C(2)];
    IdentitySets(C(0), C(0));
    IdentitySets(C(1), C(2));
    IdentitySets(C(2), C(2));
  }

  /** The first round is clean and lacks one merge parent; the second round has a commit in two packs. */
  lemma RepeatedFails(k: Contract, store: PullStore, e: PullError)
    requires RowFrame(k, store, C(1)).Some? && RowFrame(k, store, C(2)).Some? && RowFrame(k, store, C(3)).Some?
    requires RowIds(k, store, C(1)) == {V2(C(0)), V2(C(1))} && RowMerges(k, store, C(1)) == {}
    requires RowIds(k, store, C(2)) == {V2(C(0)), V2(C(2))}
    requires RowIds(k, store, C(3)) == {V2(C(3))} && RowMerges(k, store, C(3)) == {V2(C(2))}
    requires C(2) != "" && C(0) != C(2) && C(1) != C(2) && C(3) != C(2) && C(0) != C(3) && C(1) != C(3) && C(0) != C(1)
    requires RangesValid(store) && ChainComplete(store, C(2), "") && ChainSet(store, C(2), "") == {C(2)}
    ensures Fails(k, store, "", {C(3), C(1)}, e) <==> e == CommitInTwoPacks
  {
    hide C;
    hide RowFrame;
    hide RowIds;
    hide RowMerges;
    hide ChainComplete;
    hide ChainSet;
    hide Fails;
    var s, next := {C(3), C(1)}, {C(3), C(1), C(2)};
    assert Supplied(k, store, s) == {V2(C(3)), V2(C(0)), V2(C(1))};
    assert Missing(k, store, "", s) == {V2(C(2))};
    assert V2(C(2)).id == C(2);
    assert ChainsOf(store, {V2(C(2))}) == {C(2)};
    assert NextRound(k, store, "", s) == next;
    assert Readable(k, store, s) && Disjoint(k, store, s) && MergesV2(k, store, s) && Fetchable(k, store, "", s);
    assert Readable(k, store, next);
    assert V2(C(0)) in RowIds(k, store, C(1)) && V2(C(0)) in RowIds(k, store, C(2));
    assert !Disjoint(k, store, next);
    hide Supplied;
    hide Missing;
    hide ChainsOf;
    hide NextRound;
    hide Readable;
    hide Disjoint;
    hide MergesV2;
    hide Fetchable;
    RoundFails(k, store, "", s, e);
    FaultOfSharing(k, store, next, e);
  }

  lemma FaultOfSharing(k: Contract, store: PullStore, s: set<Id>, e: PullError)
    requires Readable(k, store, s) && !Disjoint(k, store, s)
    ensures Fails(k, store, "", s, e) <==> e == CommitInTwoPacks
  {
    hide Readable;
    hide Disjoint;
    hide MergesV2;
    hide Fetchable;
    hide NextRound;
  }

  lemma RepeatedViewed(codec: Codec<PackFrame>)
    ensures Shows(REPEATED, codec, REPEATED_MERGED, RepeatedStore(codec))
  {
    Names();
    RepeatedRepo();
    RepeatedBlobs(codec);
    hide C;
    hide P;
    hide PackAt;
    hide GraphOf;
    hide WithPack;
    hide ValidContentID;
    hide PullRuns.Views;
    ThreeRowsViewed(REPEATED_MERGED, RepeatedStore(codec), P(0), P(1), P(2), RangeRow("", C(1), PACK_FORMAT_V2),
                    RangeRow("", C(2), PACK_FORMAT_V2), RangeRow(C(1), C(3), PACK_FORMAT_V2));
  }

  lemma RepeatedRepo()
    ensures REPEATED_MERGED.ranges ==
            map[P(0) := RangeRow("", C(1), PACK_FORMAT_V2), P(1) := RangeRow("", C(2), PACK_FORMAT_V2),
                P(2) := RangeRow(C(1), C(3), PACK_FORMAT_V2)]
    ensures (map b | b in REPEATED_MERGED.branches :: REPEATED_MERGED.branches[b].head)
            == map["main" := C(3), "side" := C(2)]
  {
    RepeatedThirdState();
    WithPackOf(REPEATED, REPEATED_SIDE, 2, "main");
    hide C;
    hide P;
    hide WithPack;
    hide RowOf;
  }

  lemma RepeatedBlobs(codec: Codec<PackFrame>)
    ensures |REPEATED.packs| == 3
    ensures forall j :: 0 <= j < |REPEATED.packs| ==>
              P(j) in RepeatedStore(codec).blobs
              && RepeatedStore(codec).blobs[P(j)] == codec.encode(PackAt(REPEATED, j))
  {
    Names();
    hide C;
    hide P;
    hide PackAt;
    hide GraphOf;
    hide ValidContentID;
  }

  /** Three V2 pushes, the second without a base and repeating a commit of the first. The branch that merges both
      cannot be pulled: the repeated commit is in two of its packs. */
  method CommitsRepeated(codec: Codec<PackFrame>) returns (r: Result<Plan, PullError>)
    requires Encodes(REPEATED, codec)
    ensures |REPEATED.packs| == 3
    ensures Pushes(REPEATED, codec, EMPTY, 0, "main", REPEATED_MAIN)
            && Pushes(REPEATED, codec, REPEATED_MAIN, 1, "side", REPEATED_SIDE)
    ensures Pushes(REPEATED, codec, REPEATED_SIDE, 2, "main", REPEATED_MERGED)
    ensures Shows(REPEATED, codec, REPEATED_MERGED, RepeatedStore(codec))
    ensures Negotiated(RepeatedStore(codec), "main", "") && HeadChainComplete(RepeatedStore(codec), "main", "")
    ensures Fails(ContractOf(REPEATED, codec), RepeatedStore(codec), "", FirstRows(RepeatedStore(codec), "main", ""),
                  CommitInTwoPacks)
    ensures r == Err(CommitInTwoPacks)
  {
    var k, store := ContractOf(REPEATED, codec), RepeatedStore(codec);
    assert store.ranges == REPEATED_RANGES && "main" in store.heads && store.heads["main"] == C(3);
    assert C(3) != "" by { Names(); }
    hide *;
    RepeatedPushed(codec);
    RepeatedViewed(codec);
    RepeatedValid(codec);
    RepeatedChains(store);
    RepeatedHeld(codec);
    RepeatedSpecs();
    HeldRow(REPEATED, codec, store, C(1), 0);
    HeldRow(REPEATED, codec, store, C(2), 1);
    HeldRow(REPEATED, codec, store, C(3), 2);
    NegotiatedMeans(store, "main", "");
    RepeatedFails(k, store, CommitInTwoPacks);
    r := PreparePull(k, store, "main", "");
    if r.Err? {
      RepeatedFails(k, store, r.error);
    }
  }
}
