// Two V3 pushes that close a loop in the pack table: the recursive query for a pull of that branch has no last row.
module LoopingRanges {
  import opened Wrappers
  import opened CommitGraph
  import opened Framing
  import opened RackStore
  import opened RackRuns
  import opened PushEngine
  import opened Worlds
  import opened PullPlan
  import opened UnlinkedPush
  import PullRuns

  /** Two V2 packs register commits 1 and 2 on the way; the V3 packs lead from 2 to 1 and from 1 to 2. */
  const LOOP: World := World([[], [C(0)], [C(0)], [C(1)], [C(2)]],
                             [PackSpec(PACK_FORMAT_V2, "", [0, 1, 3]), PackSpec(PACK_FORMAT_V2, "", [0, 2, 4]),
                              PackSpec(PACK_FORMAT_V3, C(2), [1]), PackSpec(PACK_FORMAT_V3, C(1), [2])])
  const LOOP_MAIN: Repo := WithPack(LOOP, EMPTY, 0, "main")
  const LOOP_SIDE: Repo := WithPack(LOOP, LOOP_MAIN, 1, "side")
  const LOOP_FORKED: Repo := LOOP_SIDE.(branches := LOOP_SIDE.branches["x" := Branch(C(2), false)])
  const LOOP_BRANCHES: Repo := LOOP_FORKED.(branches := LOOP_FORKED.branches["y" := Branch(C(1), false)])
  const LOOP_HALF: Repo := WithPack(LOOP, LOOP_BRANCHES, 2, "x")
  const LOOP_CLOSED: Repo := WithPack(LOOP, LOOP_HALF, 3, "y")

  lemma LoopValid(codec: Codec<PackFrame>)
    requires Encodes(LOOP, codec)
    ensures Valid(LOOP, codec) && |LOOP.packs| == 4
  {
    Names();
    hide Encodes;
    hide C;
    hide ValidContentID;
    hide PacksDiffer;
    TargetsTell(LOOP);
    assert FollowsSpec(LOOP, LOOP.packs[0], 0) && FollowsSpec(LOOP, LOOP.packs[0], 1)
      && FollowsSpec(LOOP, LOOP.packs[0], 2);
    assert FollowsSpec(LOOP, LOOP.packs[1], 0) && FollowsSpec(LOOP, LOOP.packs[1], 1)
      && FollowsSpec(LOOP, LOOP.packs[1], 2);
  }

  lemma LoopFirst()
    ensures Pushable(LOOP, EMPTY, 0, "main")
  {
    Names();
    hide C;
    hide P;
    hide ValidContentID;
    hide AddRows;
    hide WithPack;
    hide AllParentsKnown;
    assert RegistrableAt(LOOP, EMPTY.commits, [0, 1, 3], 0) && RegistrableAt(LOOP, EMPTY.commits, [0, 1, 3], 1);
    assert RegistrableAt(LOOP, EMPTY.commits, [0, 1, 3], 2);
  }

  lemma LoopSecondState()
    ensures LOOP_MAIN.commits == map[C(0) := RowOf(LOOP, 0), C(1) := RowOf(LOOP, 1), C(3) := RowOf(LOOP, 3)]
    ensures LOOP_MAIN.branches == map["main" := Branch(C(3), false)] && LOOP_MAIN.defaultBranch == Some("main")
    ensures LOOP_MAIN.leases == map[] && LOOP_MAIN.ranges == map[P(0) := RangeRow("", C(3), PACK_FORMAT_V2)]
  {
    WithPackOf(LOOP, EMPTY, 0, "main");
    hide C;
    hide P;
    hide WithPack;
    hide RowOf;
  }

  lemma LoopSecond()
    ensures Pushable(LOOP, LOOP_MAIN, 1, "side")
  {
    Names();
    LoopSecondState();
    hide C;
    hide P;
    hide ValidContentID;
    hide AddRows;
    hide WithPack;
    hide AllParentsKnown;
    assert RegistrableAt(LOOP, LOOP_MAIN.commits, [0, 2, 4], 0) && RegistrableAt(LOOP, LOOP_MAIN.commits, [0, 2, 4], 1);
    assert RegistrableAt(LOOP, LOOP_MAIN.commits, [0, 2, 4], 2);
  }

  /** The commits that the V3 packs name, and the tables, before them. */
  lemma LoopThirdState()
    ensures var r := LOOP_BRANCHES;
            && C(0) in r.commits && C(1) in r.commits && C(2) in r.commits
            && r.commits[C(1)] == RowOf(LOOP, 1) && r.commits[C(2)] == RowOf(LOOP, 2)
            && "x" in r.branches && r.branches["x"] == Branch(C(2), false) && "y" in r.branches
              && r.branches["y"] == Branch(C(1), false)
            && r.defaultBranch.Some? && r.leases == map[]
            && r.ranges == map[P(0) := RangeRow("", C(3), PACK_FORMAT_V2), P(1) := RangeRow("", C(4), PACK_FORMAT_V2)]
  {
    Names();
    LoopSecondState();
    WithPackOf(LOOP, LOOP_MAIN, 1, "side");
    hide C;
    hide P;
    hide WithPack;
    hide RowOf;
    hide ValidContentID;
  }

  /** Pushing a pack of registered commits changes only its branch and the pack table. */
  lemma Repushed(r: Repo, j: nat, i: nat, branch: string)
    requires j < |LOOP.packs| && LOOP.packs[j].commits == [i] && C(i) in r.commits && r.commits[C(i)] == RowOf(LOOP, i)
    requires r.defaultBranch.Some?
    ensures WithPack(LOOP, r, j, branch) ==
              r.(branches := r.branches[branch := Branch(C(i), false)],
                 ranges := r.ranges[P(j) := RangeRow(LOOP.packs[j].base, C(i), LOOP.packs[j].format)])
  {
    WithPackOf(LOOP, r, j, branch);
    hide C;
    hide P;
    hide RowOf;
    hide WithPack;
    assert r.commits[C(i) := RowOf(LOOP, i)] == r.commits;
  }

  lemma LoopRecords(j: nat, i: nat)
    requires j < |LOOP.packs| && LOOP.packs[j].commits == [i]
    ensures RecordsAt(LOOP, j) == [Record(C(i), RowOf(LOOP, i))]
  {
    hide C;
  }

  lemma LoopThird()
    ensures |LOOP.packs| == 4 && Pushable(LOOP, LOOP_BRANCHES, 2, "x")
  {
    Names();
    LoopThirdState();
    LoopRecords(2, 1);
    hide C;
    hide P;
    hide ValidContentID;
    hide AddRows;
    hide WithPack;
    hide RecordsAt;
    assert RegistrableAt(LOOP, LOOP_BRANCHES.commits, [1], 0);
    assert Parents(LOOP, 1) == [C(0)];
  }

  lemma LoopFourthState()
    ensures LOOP_HALF == LOOP_BRANCHES.(branches := LOOP_BRANCHES.branches["x" := Branch(C(1), false)],
                                        ranges := LOOP_BRANCHES.ranges[P(2) := RangeRow(C(2), C(1), PACK_FORMAT_V3)])
  {
    LoopThirdState();
    hide C;
    hide P;
    hide WithPack;
    hide RowOf;
    Repushed(LOOP_BRANCHES, 2, 1, "x");
  }

  lemma LoopFourth()
    ensures |LOOP.packs| == 4 && Pushable(LOOP, LOOP_HALF, 3, "y")
  {
    Names();
    LoopThirdState();
    LoopFourthState();
    LoopRecords(3, 2);
    hide C;
    hide P;
    hide ValidContentID;
    hide AddRows;
    hide WithPack;
    hide RecordsAt;
    assert RegistrableAt(LOOP, LOOP_HALF.commits, [2], 0);
    assert Parents(LOOP, 2) == [C(0)];
  }

  lemma LoopEnd()
    ensures LOOP_CLOSED == LOOP_HALF.(branches := LOOP_HALF.branches["y" := Branch(C(2), false)],
                                      ranges := LOOP_HALF.ranges[P(3) := RangeRow(C(1), C(2), PACK_FORMAT_V3)])
  {
    LoopThirdState();
    LoopFourthState();
    hide C;
    hide P;
    hide WithPack;
    hide RowOf;
    Repushed(LOOP_HALF, 3, 2, "y");
  }

  lemma BranchesCreated()
    ensures CreateBranchTx(LOOP_SIDE, "x", C(2)) == Ok(LOOP_FORKED)
    ensures CreateBranchTx(LOOP_FORKED, "y", C(1)) == Ok(LOOP_BRANCHES)
  {
    Names();
    LoopThirdState();
    LoopSecondState();
    WithPackOf(LOOP, LOOP_MAIN, 1, "side");
    hide C;
    hide P;
    hide WithPack;
    hide RowOf;
    hide ValidContentID;
  }

  /** HandlePush accepts all four pushes; the two branches are created in between. */
  lemma LoopPushed(codec: Codec<PackFrame>)
    requires Encodes(LOOP, codec)
    ensures |LOOP.packs| == 4
    ensures Pushes(LOOP, codec, EMPTY, 0, "main", LOOP_MAIN) && Pushes(LOOP, codec, LOOP_MAIN, 1, "side", LOOP_SIDE)
    ensures Pushes(LOOP, codec, LOOP_BRANCHES, 2, "x", LOOP_HALF) && Pushes(LOOP, codec, LOOP_HALF, 3, "y", LOOP_CLOSED)
  {
    LoopValid(codec);
    LoopFirst();
    LoopSecond();
    LoopThird();
    LoopFourth();
    hide Valid;
    hide Pushable;
    hide Pushes;
    hide WithPack;
    PushAccepted(LOOP, codec, EMPTY, 0, "main");
    PushAccepted(LOOP, codec, LOOP_MAIN, 1, "side");
    PushAccepted(LOOP, codec, LOOP_BRANCHES, 2, "x");
    PushAccepted(LOOP, codec, LOOP_HALF, 3, "y");
  }

  /** A walk that goes round between two rows has no last row. */
  lemma {:induction false} RoundAndRound(store: PullStore, a: Id, b: Id, rows: seq<PackRange>, i: nat)
    requires a in store.ranges && b in store.ranges && store.ranges[a].base == b && store.ranges[b].base == a
    requires ChainRows(store, a, "", rows) && i < |rows|
    ensures rows[i].base == a || rows[i].base == b
    decreases i
  {
    assert IsRow(store, rows[i]);
    if i > 0 {
      RoundAndRound(store, a, b, rows, i - 1);
      assert rows[i - 1 + 1].target == rows[i - 1].base;
    }
  }

  lemma NeverEnds(store: PullStore, a: Id, b: Id)
    requires a in store.ranges && b in store.ranges && store.ranges[a].base == b && store.ranges[b].base == a
    requires a != "" && b != ""
    ensures !ChainEnds(store, a, "")
  {
    forall rows: seq<PackRange> ensures !ChainRows(store, a, "", rows) {
      if ChainRows(store, a, "", rows) {
        assert rows != [];
        RoundAndRound(store, a, b, rows, |rows| - 1);
      }
    }
  }

  lemma LoopSeen()
    ensures exists store :: PullRuns.Views(LOOP_CLOSED, store)
  {
    Names();
    LoopThirdState();
    LoopFourthState();
    LoopEnd();
    hide C;
    hide P;
    hide WithPack;
    hide ValidContentID;
    hide PullRuns.Views;
    PullRuns.ViewExists(LOOP_CLOSED);
  }

  /** Two pushes, two branches created inside their packs, and two more pushes, all accepted one after the other from an
      empty repository. Then a pull of branch "x", whose head is commit 1, asks for a walk that never ends. */
  lemma LoopNeverEnds(codec: Codec<PackFrame>)
    requires Encodes(LOOP, codec)
    ensures |LOOP.packs| == 4
    ensures Pushes(LOOP, codec, EMPTY, 0, "main", LOOP_MAIN) && Pushes(LOOP, codec, LOOP_MAIN, 1, "side", LOOP_SIDE)
    ensures CreateBranchTx(LOOP_SIDE, "x", C(2)) == Ok(LOOP_FORKED)
            && CreateBranchTx(LOOP_FORKED, "y", C(1)) == Ok(LOOP_BRANCHES)
    ensures Pushes(LOOP, codec, LOOP_BRANCHES, 2, "x", LOOP_HALF) && Pushes(LOOP, codec, LOOP_HALF, 3, "y", LOOP_CLOSED)
    ensures exists store :: PullRuns.Views(LOOP_CLOSED, store)
    ensures forall store :: PullRuns.Views(LOOP_CLOSED, store) ==>
                            "x" in store.heads && store.heads["x"] == C(1) && !ChainEnds(store, C(1), "")
  {
    LoopPushed(codec);
    BranchesCreated();
    LoopSeen();
    Names();
    hide C;
    hide P;
    hide Pushes;
    hide WithPack;
    hide PullRuns.Views;
    hide ChainEnds;
    hide CreateBranchTx;
    forall store | PullRuns.Views(LOOP_CLOSED, store)
      ensures "x" in store.heads && store.heads["x"] == C(1) && !ChainEnds(store, C(1), "")
    {
      LoopRanges(store);
      NeverEnds(store, C(1), C(2));
    }
  }

  lemma LoopRanges(store: PullStore)
    requires PullRuns.Views(LOOP_CLOSED, store)
    ensures "x" in store.heads && store.heads["x"] == C(1)
    ensures C(1) in store.ranges && store.ranges[C(1)].base == C(2) && C(2) in store.ranges
            && store.ranges[C(2)].base == C(1)
  {
    Names();
    LoopFourthState();
    LoopEnd();
    hide C;
    hide P;
    hide WithPack;
    hide ValidContentID;
    assert P(2) in LOOP_CLOSED.ranges && LOOP_CLOSED.ranges[P(2)] == RangeRow(C(2), C(1), PACK_FORMAT_V3);
    assert P(3) in LOOP_CLOSED.ranges && LOOP_CLOSED.ranges[P(3)] == RangeRow(C(1), C(2), PACK_FORMAT_V3);
  }
}
