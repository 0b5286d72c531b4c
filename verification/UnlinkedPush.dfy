// A run of three pushes in which a V3 pack moves a branch to a commit without the old head in its history, and after
// which the branch can be planned but not decoded by a client that knows nothing.
module UnlinkedPush {
  import opened Wrappers
  import opened Wire
  import opened CommitGraph
  import opened Framing
  import opened RackStore
  import opened RackRuns
  import opened PushEngine
  import opened Worlds

  /** Two roots in packs of their own, and a child of the second root in a V3 pack whose base is the first. */
  const UNLINKED: World := World([[], [], [C(1)]],
                                 [PackSpec(PACK_FORMAT_V2, "", [0]), PackSpec(PACK_FORMAT_V2, "", [1]),
                                   PackSpec(PACK_FORMAT_V3, C(0), [2])])

  const EMPTY: Repo := Repo(map[], map[], None, map[], map[], map[])
  const ONE_ROOT: Repo := WithPack(UNLINKED, EMPTY, 0, "main")
  const TWO_ROOTS: Repo := WithPack(UNLINKED, ONE_ROOT, 1, "side")
  const REWOUND: Repo := WithPack(UNLINKED, TWO_ROOTS, 2, "main")

  lemma UnlinkedValid(codec: Codec<PackFrame>)
    requires Encodes(UNLINKED, codec)
    ensures Valid(UNLINKED, codec)
  {
    Names();
    hide Encodes;
    hide C;
    hide ValidContentID;
    hide PacksDiffer;
    TargetsTell(UNLINKED);
    assert FollowsSpec(UNLINKED, UNLINKED.packs[0], 0) && FollowsSpec(UNLINKED, UNLINKED.packs[1], 0);
  }

  /** The repository after each push, written out. */
  lemma Repositories()
    ensures ONE_ROOT == Repo(map[C(0) := RowOf(UNLINKED, 0)], map["main" := Branch(C(0), false)], Some("main"), map[],
                             map[],
                             map[P(0) := RangeRow("", C(0), PACK_FORMAT_V2)])
    ensures TWO_ROOTS == ONE_ROOT.(commits := ONE_ROOT.commits[C(1) := RowOf(UNLINKED, 1)],
                                   branches := ONE_ROOT.branches["side" := Branch(C(1), false)],
                                   ranges := ONE_ROOT.ranges[P(1) := RangeRow("", C(1), PACK_FORMAT_V2)])
    ensures REWOUND == TWO_ROOTS.(commits := TWO_ROOTS.commits[C(2) := RowOf(UNLINKED, 2)],
                                  branches := TWO_ROOTS.branches["main" := Branch(C(2), false)],
                                  ranges := TWO_ROOTS.ranges[P(2) := RangeRow(C(0), C(2), PACK_FORMAT_V3)])
  {
    WithPackOf(UNLINKED, EMPTY, 0, "main");
    WithPackOf(UNLINKED, ONE_ROOT, 1, "side");
    WithPackOf(UNLINKED, TWO_ROOTS, 2, "main");
    hide C;
    hide P;
    hide RowOf;
    hide WithPack;
  }

  lemma UnlinkedRecords(j: nat)
    requires j < 3
    ensures RecordsAt(UNLINKED, j) == [Record(C(j), RowOf(UNLINKED, j))] && TargetOf(UNLINKED.packs[j]) == C(j)
  {}

  /** HandlePush accepts the three pushes one after the other. */
  lemma PushesAccepted(codec: Codec<PackFrame>)
    requires Encodes(UNLINKED, codec)
    ensures Pushes(UNLINKED, codec, EMPTY, 0, "main", ONE_ROOT)
    ensures Pushes(UNLINKED, codec, ONE_ROOT, 1, "side", TWO_ROOTS)
    ensures Pushes(UNLINKED, codec, TWO_ROOTS, 2, "main", REWOUND)
  {
    UnlinkedValid(codec);
    AllPushable();
    hide *;
    PushAccepted(UNLINKED, codec, EMPTY, 0, "main");
    PushAccepted(UNLINKED, codec, ONE_ROOT, 1, "side");
    PushAccepted(UNLINKED, codec, TWO_ROOTS, 2, "main");
    SameRepositories();
  }

  lemma SameRepositories()
    ensures ONE_ROOT == WithPack(UNLINKED, EMPTY, 0, "main") && TWO_ROOTS == WithPack(UNLINKED, ONE_ROOT, 1, "side")
    ensures REWOUND == WithPack(UNLINKED, TWO_ROOTS, 2, "main") && |UNLINKED.packs| == 3
  {}

  lemma AllPushable()
    ensures |UNLINKED.packs| == 3
    ensures Pushable(UNLINKED, EMPTY, 0, "main") && Pushable(UNLINKED, ONE_ROOT, 1, "side")
    ensures Pushable(UNLINKED, TWO_ROOTS, 2, "main")
  {
    Names();
    Repositories();
    UnlinkedRecords(2);
    hide C;
    hide P;
    hide ValidContentID;
    hide AddRows;
  }

  /** Below a commit with one root parent there are only these two. */
  lemma {:induction false} BelowChild(g: Graph, c: Id, x: Id, a: Id, n: nat)
    requires c in g && g[c] == [x] && x in g && g[x] == [] && StepsTo(g, c, a, n)
    ensures a == c || a == x
    decreases n
  {
    if n > 0 {
      var y :| StepsTo(g, c, y, n - 1) && y in g && a in g[y];
      BelowChild(g, c, x, y, n - 1);
    }
  }

  lemma NotInHistory()
    ensures C(0) in TWO_ROOTS.commits && C(2) in REWOUND.commits
    ensures !Reaches(GraphOf(REWOUND.commits), C(2), C(0))
    ensures !PushLinked(TWO_ROOTS.commits,
                        Push("main", C(0), C(2), [Record(C(2), RowOf(UNLINKED, 2))], P(2), PACK_FORMAT_V3))
  {
    Names();
    Repositories();
    hide C;
    hide P;
    var g, h := GraphOf(REWOUND.commits), GraphOf(TWO_ROOTS.commits);
    forall n: nat ensures !StepsTo(g, C(2), C(0), n) {
      if StepsTo(g, C(2), C(0), n) { BelowChild(g, C(2), C(1), C(0), n); }
    }
    forall n: nat ensures !StepsTo(h, C(1), C(0), n) {
      if StepsTo(h, C(1), C(0), n) { RootAlone(h, C(1), C(0), n); }
    }
  }

  lemma RootAlone(g: Graph, c: Id, a: Id, n: nat)
    requires c in g && g[c] == [] && StepsTo(g, c, a, n)
    ensures a == c
  {
    if n > 0 {
      var p := FirstStep(g, c, a, n);
    }
  }

  /** HandlePush runs three times from an empty repository. The last push passes every check and succeeds, although its
      pack is not linked to its base, and the head it leaves does not have the old head in its history. */
  method RewindByPush(codec: Codec<PackFrame>, now: nat) returns (store: Store)
    requires Encodes(UNLINKED, codec)
    ensures fresh(store) && store.State() == REWOUND
    ensures "main" in TWO_ROOTS.branches && TWO_ROOTS.branches["main"].head == C(0)
    ensures "main" in store.branches && store.branches["main"].head == C(2)
    ensures !Reaches(GraphOf(store.commits), C(2), C(0))
  {
    var k := ContractOf(UNLINKED, codec);
    assert NoSelfParents(k) by {
      UnlinkedValid(codec);
      PushMatches(UNLINKED, codec, 0, "main");
    }
    store := new Store();
    assert store.State() == EMPTY;
    EmptyStart();
    PushesAccepted(codec);
    NotInHistory();
    Repositories();
    Names();
    hide C;
    hide P;
    hide ContractOf;
    hide NoSelfParents;
    hide Checked;
    hide PushTx;
    hide MovedAsLinked;
    hide Acyclic;
    hide GraphOf;
    hide Reaches;
    hide PushLinked;
    hide FrameFormat;
    hide Grows;
    hide WithPack;
    var first := HandlePush(store, k, AnySnapshot(), now, PACK_FORMAT_V2, PushOf(UNLINKED, codec, 0, "main"));
    assert store.State() == ONE_ROOT;
    var second := HandlePush(store, k, AnySnapshot(), now, PACK_FORMAT_V2, PushOf(UNLINKED, codec, 1, "side"));
    assert store.State() == TWO_ROOTS;
    var third := HandlePush(store, k, AnySnapshot(), now, PACK_FORMAT_V2, PushOf(UNLINKED, codec, 2, "main"));
    assert store.State() == REWOUND;
  }

  lemma EmptyStart()
    ensures Acyclic(GraphOf(EMPTY.commits))
  {
    var rank: map<Id, nat> := map[];
    assert Ranked(GraphOf(EMPTY.commits), rank);
  }

  /** The same as a statement about the last push alone. */
  lemma UnlinkedPushAccepted(codec: Codec<PackFrame>, now: nat)
    requires Encodes(UNLINKED, codec)
    ensures var req := PushOf(UNLINKED, codec, 2, "main");
            && Checked(ContractOf(UNLINKED, codec), AnySnapshot(), TWO_ROOTS.commits, PACK_FORMAT_V2, req)
            && PushTx(TWO_ROOTS, now, req) == Ok(REWOUND)
            && "main" in TWO_ROOTS.branches && TWO_ROOTS.branches["main"].head == req.base
            && "main" in REWOUND.branches && REWOUND.branches["main"].head == req.target
            && !PushLinked(TWO_ROOTS.commits, AsPush(req))
            && !Reaches(GraphOf(REWOUND.commits), req.target, req.base)
  {
    PushesAccepted(codec);
    NotInHistory();
    UnlinkedRecords(2);
    Repositories();
    hide C;
    hide P;
    hide Reaches;
    hide Checked;
    hide PushTx;
    hide GraphOf;
    hide LinkedAt;
    hide WithPack;
  }
}
