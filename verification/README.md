# Spool Rack verification

Spool Rack is a multi-tenant version-control server for graphs. This project models its four hardest pieces in Dafny and
proves what they promise:

- **Pull** (`CommitGraph`, `Ancestry`, `Wire`, `Framing`, `PullPlan`, `PullClosure`, `PackOrder`, `PullPlanner`,
  `PullHealth`, `PullEnvelope`, `PullEngine`, `PullRuns`, `PackRuns`): choosing the packs of a pull, ordering them,
  streaming them, the strict decoder on the other side, and the pack table as pushes and merges build it.
- **The metadata store** (`RackStore`, `RackRuns`, `PublishProtocol`, `PushEngine`, `MergeApply`): each transaction as a
  method of a class over its tables, every interleaving of transactions as a transition system, and the idempotent native
  publish once more, statement by statement, under PostgreSQL's row locks.
- **Merging** (`ThreeWayMerge`, `MergeLaws`, `PreviewLists`, `ConflictTokens`, `Resolution`, `ResolutionLaws`): the
  three-way merge preview, its conflicts and clean changes, and the application of resolutions.
- **Retention and native framing** (`Retention`, `RetentionRuns`, `NativeEnvelope`): reachability garbage collection,
  collection against in-flight pushes, and the native multi-pack envelope.

`Wrappers` and `Ordering` hold what all of them share: result types, Go's order on strings, `sort.Strings`, `sort.Slice`.
`StoreLaws`, `PushLaws`, `ApplyLaws`, `EnvelopeLaws`, `PreviewOrder` and `ResolutionSuccess` say what the operations
mean in terms of tables, bytes and snapshots alone, and `PushRuns` that a push handled alone is a run of its stages.
`UnlinkedPush`, `PullExamples`, `V2Examples`, `LoopingRanges` and `RewoundRetention` are about concrete repositories,
each built by pushes that `HandlePush` accepts; `Worlds` describes such small repositories over any frame codec that
decodes what it encodes.

One repository of one tenant is modelled. Content hashing, canonical encodings and the graph contract's checks are
parameters (`Framing.Contract`, `NativeEnvelope.Contract`, `MergeApply.Tools`); the only law assumed of an encoding is
that decoding an encoded value returns it. What makes accepted bytes canonical is the server's own comparison with a
re-encoding, and that comparison is modelled. Each store method is one transaction that commits all of its writes or
none. Clock readings and lease tokens are parameters; a granted token is fresh. Commit ids are not empty, and no commit
names itself as a parent, because ids are hashes of content that includes the parents.

Code that works by changing state is a method, on a class where the source has one, proved against a specification
function or predicate; the theorems are about those. Where a property that the code, its comments or its design suggest
is false, there is a concrete counterexample and the exact condition under which it holds.

Verify with `dafny verify dfyconfig.toml`.

## Findings

- `CompareAndSwapBranchRef`'s comment says that only `ApplyMerge` can advance a leased branch
  (internal/server/storage/postgres/store.go:1456-1459). A native publish also can, because it does not look at leases:
  `RackRuns.PublishIgnoresLease` is a concrete run, `RackRuns.LeasedHeadMoves` says exactly which steps move a leased
  head. A merge under the overtaken lease still cannot lose the update, in any run and whatever is pushed
  (`RackRuns.NoLostUpdate`): while a branch is leased no swap reaches it (`RackRuns.LeasedNoAba`).
- V3 validation does not tie a pack's target to its base. `UnlinkedPush.RewindByPush` runs three pushes from an empty
  repository; the last one, a V3 push, passes every check and moves "main" to a commit that does not have the old head
  in its history. Exactly the linked pushes move a branch forward: some parent of the target was registered before and
  has the base in its history, or is an earlier commit of the push of which the same holds (`RackRuns.LinkedAt`,
  `RackRuns.AcceptedPushLinked`, `PushEngine.HandlePush`). V2 pushes are always linked (`PushEngine.CheckedPushBegins`).
  The runs admit every accepted push; their forward theorems are about runs in which each push is linked when it begins
  (`RackRuns.RunForward`), and `RackRuns.SwapDecidedAtBegin` says that nothing else decides. The old head's native pack
  may then be collected although it was published (`RewoundRetention.PublishedLost`); in every run a pack survives
  exactly if each collection finds it kept (`RetentionRuns.IntactExactly`).
- A planned pull need not be decodable: the decoder wants the head's pack last, and the planner never looks at it. After
  the pushes above a full pull of "main" is planned, streamed and rejected (`PullExamples.UndecodablePull`). Every
  dependency order ends with the head's pack if and only if all other packs are below it (`PackOrder.TopAlwaysLast`), as
  linked packs, and so V2 packs, always are. The order that the planner picks ends with it if and only if the climb from
  the largest hash ends there: the pack with the largest hash, then the largest one that depends on it, and so on
  (`PackOrder.LeastOrderEnds`). `PullEngine.FullPull` states acceptance by that condition on the stored packs.
- V2 pushes do not make every branch pullable. Planning fails if a merge parent lies inside a pack instead of ending one
  (`V2Examples.MergeParentInside`), if a branch was created inside a pack and pushed to (`V2Examples.BranchInside`), and
  if a push repeats commits and both packs are needed (`V2Examples.CommitsRepeated`). It succeeds exactly on the pulls of
  `PullClosure.Plannable`: bases and missing merge parents are targets of packs, and the packs needed are readable,
  disjoint, merge V2 commits only and have no dependency cycle (`PullPlanner.PlanPullDAG`, `PullEngine.PreparePull`).
- Two V3 pushes can close a loop in the pack table, and then the recursive query for a pull of that branch never ends
  (`LoopingRanges.LoopNeverEnds`). A query ends exactly if its walk never comes back to a row
  (`PullPlan.ChainEndsExactly`), and in every run of linked pushes all of them end (`PullRuns.RunTableValid`).
- The merge base is nearest by summed distance, not lowest: `Ancestry.MergeBaseNotLowest` is a history with shortcut
  merges where another common ancestor descends from it. The lowest common ancestors are the tips of the common history,
  those without a child in it (`Ancestry.LowestIsTip`). The merge base is one of them if and only if every commit of the
  common history that shortcuts make nearer than all its children there is still farther away than some tip
  (`Ancestry.MergeBaseLowestExactly`). So it is lowest wherever distances grow from every commit to its proper ancestors
  (`Ancestry.NoShortcutBaseIsLowest`); that is not necessary (`Ancestry.ShortcutsMayNotMatter`), because a shortcut
  elsewhere in the history does no harm.
- Conflict tokens are joined with colons and identify their conflicts exactly when no node id is another node id followed
  by a colon and more, and no edge id another edge id (`ConflictTokens.TokensUnambiguous`). Conflicts that share a token
  share one entry of the preview (`ResolutionLaws.SharedTokenDrops`); `ResolutionLaws.ConflictDropped` is a merge of two
  nodes where that loses one.
- An element that the base lacks is listed as "updated" exactly if both sides added it with the same shape, and as
  "added" exactly if one side did (`PreviewLists.NewElementListed`); `PreviewLists.AddedOnBothSides` is such a merge.
- An object keeps the location of the first pack that carried it. If that pack is collected, the object's location goes
  even though a retained pack carries the object too (`RetentionRuns.LocationLost`, exact condition in
  `RetentionRuns.CollectKeepsLocated`).
- The foreign key from native packs to commits (internal/server/storage/postgres/migrations/0001_baseline.sql:216-218)
  contradicts the push pipeline, which indexes a pack under its target commit before that commit is registered
  (internal/server/nativepush/nativepush.go:171). The model follows the Go code and has no such key.

## Model

| member | source | states |
|---|---|---|
| CommitGraph.AncestryFrozen | internal/server/storage/postgres/store.go:778-855 | recording more commits never changes the ancestors of a recorded commit |
| CommitGraph.ReachesAntisymmetric | internal/server/storage/postgres/store.go:785-855 | because parents exist before their children, two commits that are ancestors of each other are the same commit |
| CommitGraph.AcyclicInsert | internal/server/storage/postgres/store.go:785-855 | a new commit over recorded parents keeps the history acyclic and only adds to it |
| Ancestry.CollectMergeAncestry | internal/server/storage/postgres/store.go:1341-1384 | the search returns exactly the ancestors with their shortest parent distance, and on complete histories succeeds if and only if there are at most `cap` of them |
| Ancestry.CommitAncestryIDs | internal/server/storage/postgres/store.go:1845-1899 | returns exactly the ancestors in increasing order, with the same bound condition and the error for an unknown commit |
| Ancestry.IsAncestor | internal/server/storage/postgres/store.go:1205-1235 | the expansion of simple paths terminates and answers true exactly for recorded ancestors of a recorded commit |
| Ancestry.EnginesAgree | internal/server/storage/postgres/store.go:1205-1899 | on every parent-closed history the path expansion and the bounded search are both exact, and give the same answer within the bound |
| Ancestry.FindLowestCommonAncestor | internal/server/storage/postgres/store.go:1240-1284 | returns the common ancestor that is least by summed distance, then by greater distance, then by id, compared on the distances themselves and whatever the map order; reports none only if there is none |
| Ancestry.MergeBaseExactly | internal/server/storage/postgres/store.go:1257-1277 | the merge base is the common ancestor such that no other has a smaller sum of distances, none of equal sum a smaller greater distance, and none equal in both a smaller id |
| Ancestry.MergeBaseUnique | internal/server/storage/postgres/store.go:1257-1277 | that minimum is unique |
| Ancestry.MergeBaseSymmetric | internal/server/storage/postgres/store.go:1257-1277 | it does not depend on which side is called source |
| Ancestry.MergeBaseOrderFree | internal/server/storage/postgres/store.go:1240-1284 | two calls with source and target swapped return merge bases of the two sides, and the same commit |
| Ancestry.LinearMergeBaseIsLowest | internal/server/storage/postgres/store.go:1240-1284 | on single-parent histories every common ancestor is an ancestor of the merge base |
| Ancestry.MergeBaseNotLowest | internal/server/storage/postgres/store.go:1257-1277 | a concrete acyclic history where a common ancestor descends from the merge base, and where that condition fails |
| Ancestry.LowestIsTip | internal/server/storage/postgres/store.go:1257-1277 | a common ancestor is lowest if and only if no other common ancestor names it as a parent |
| Ancestry.MergeBaseLowestExactly | internal/server/storage/postgres/store.go:1257-1277 | a merge base is lowest if and only if every commit of the common history that is nearer than all its children there is farther away than some childless one |
| Ancestry.NoShortcutBaseIsLowest | internal/server/storage/postgres/store.go:1240-1284 | where distances from both sides grow from each commit to its proper ancestors, the merge base is lowest |
| Ancestry.ShortcutsMayNotMatter | internal/server/storage/postgres/store.go:1257-1277 | a concrete history with a shortcut whose merge base is lowest all the same |
| Wire.PutBigEndian | internal/server/nativepull/framing.go:256-259 | fills exactly the named bytes of the header buffer with the big-endian number and no others |
| Wire.ReadWritten | internal/server/nativepull/framing.go:258-292 | a number that fits is read back unchanged |
| Wire.WriteRead | internal/server/nativepull/framing.go:258-292 | every byte string is the encoding of the number read from it |
| Wire.HeaderExact | internal/server/nativepull/framing.go:286-296 | a header passes the checks if and only if it is the one the encoder writes for that manifest length |
| Wire.ConcatUnique | internal/server/sync/pull.go:148-187 | declared lengths cut a pack stream in only one way |
| Framing.ValidateV2 | internal/server/sync/framing.go:181-247 | accepts exactly the frames whose commits are a first-parent chain from base to target, with valid distinct objects and every snapshot present |
| Framing.ValidateV3 | internal/server/sync/framing.go:296-366 | accepts exactly the frames with distinct commits other than the base, the target last, valid distinct objects and every snapshot present |
| Framing.UnmarshalPackFrame | internal/server/sync/framing.go:163-179 | decodes exactly the canonical encodings of valid frames within the size limit |
| Framing.FramesAreCanonical | internal/server/sync/framing.go:147-179 | a byte string is accepted as a frame if and only if it is that frame's encoding, the frame is valid and the size fits |
| Framing.FrameMeans | internal/server/sync/framing.go:181-366 | an accepted frame is the canonical encoding, within 64 MiB, of commits that can be identified, the last of them the target, with objects under the ids of their bytes, each once, and every snapshot among them |
| Framing.FrameAccepted | internal/server/sync/framing.go:181-366 | and every such encoding is accepted: as V2 if each commit's first parent is the commit before it or the base, as V3 if its commits are distinct and, above a base, neither the base nor roots |
| Framing.LinksOfV2 | internal/server/sync/framing.go:196-223 | each commit of an accepted V2 frame has the commit before it, or the base, as its first parent |
| Framing.CommitsOfV3 | internal/server/sync/framing.go:296-366 | an accepted V3 frame has each commit once |
| Framing.BaseOfV3 | internal/server/sync/framing.go:296-366 | above a base, an accepted V3 frame has neither the base itself nor a root |
| Framing.ContentIDMeans | internal/server/sync/framing.go:369-380 | content ids are 64 lower-case hexadecimal digits |
| Framing.IdentityMeans | internal/server/sync/framing.go:93-130 | a commit is identified by the content id of its canonical record, and only if all of its parents are named validly |
| Framing.ChainDescends | internal/server/sync/framing.go:196-223 | in an accepted V2 frame every commit descends from all commits before it |
| Framing.V2TargetDescendsFromBase | internal/server/sync/framing.go:196-223 | the target of an accepted V2 frame has its base as an ancestor |
| PullPlan.GetPackRanges | internal/server/storage/postgres/store.go:1412-1454 | follows bases from the head's pack until the known commit, an empty base or a missing row, whenever that walk ends |
| PullPlan.ChainEndsExactly | internal/server/storage/postgres/store.go:1419-1431 | the recursive query ends if and only if its walk never comes back to a row |
| PullPlan.ValidatePackChain | internal/server/sync/pull.go:615-630 | accepts exactly the non-empty chains that start at the head, link target to base, and end at the known commit or an empty base |
| PullPlan.ReadV2PackFrame | internal/server/sync/pull.go:529-571 | yields the row's frame exactly if the blob has the row's hash and is a canonical frame with the row's base and target |
| PullPlanner.Drain | internal/server/sync/pull.go:446-468 | every queued pack ends up selected and indexed by its commits and nothing else does, or one of these packs is unreadable or shares a commit with another |
| PullPlanner.FindMissing | internal/server/sync/pull.go:470-495 | collects exactly the merge parents of selected packs that no selected pack carries and the known commit does not contain |
| PullPlanner.FoundMissing | internal/server/sync/pull.go:470-495 | what the scan collects are the missing merge parents of the rows at hand, by the stored packs alone |
| PullPlanner.Expand | internal/server/sync/pull.go:499-523 | queues exactly the rows of the pack chains of all missing merge parents if these chains are complete, and fails only if one is not |
| PullPlanner.ExpandedSupplied | internal/server/sync/pull.go:504-514 | after its chain was expanded a merge parent is always supplied, so that error is unreachable |
| PullPlanner.PlanPullDAG | internal/server/sync/pull.go:438-527 | terminates; succeeds if and only if the pull is plannable, and fails for the reason of the first faulty round; plans exactly the rows of the closure, disjoint and ordered; the rounds are at most one more than the distinct stored merge parents it expanded, on errors too |
| PullClosure.FailsOnce | internal/server/sync/pull.go:438-527 | a pull that cannot be planned fails for one reason, up to the choice between an unreadable pack and a shared commit found in the same round |
| PullClosure.ClosureSettled | internal/server/sync/pull.go:470-498 | the rows of a plannable pull lack no merge parent |
| PullClosure.ClosureLeast | internal/server/sync/pull.go:470-523 | no row is planned that bases and merge parents the client lacks do not lead to |
| PullHealth.HealthyPlannable | internal/server/sync/pull.go:438-613 | over a complete, disjoint, recorded table of V2 packs whose merge parents all end packs, every pull can be planned |
| PackOrder.TopologicalOrder | internal/server/sync/pull.go:573-613 | returns the lexicographically least order by hash in which every pack follows its dependencies, and fails if and only if the dependencies have a cycle |
| PackOrder.GreedyIsLeast | internal/server/sync/pull.go:573-613 | always emitting the smallest ready hash gives the least of all dependency orders |
| PackOrder.TopIsLast | internal/server/sync/pull.go:573-613 | a pack that depends, directly or not, on all others is last in every dependency order |
| PackOrder.TopAlwaysLast | internal/server/sync/pull.go:573-613 | a pack is last in every dependency order if and only if all others are below it |
| PackOrder.ClimbIsLast | internal/server/sync/pull.go:594-609 | at every point of the loop, the pack emitted last is the one where the climb over the remaining packs ends: from the largest hash to the largest among the packs above it, and so on |
| PackOrder.LeastOrderEnds | internal/server/sync/pull.go:573-613 | the order by smallest ready hash ends with a pack if and only if the climb from the largest hash does |
| PackOrder.RankedHasNoCycle | internal/server/sync/pull.go:573-613 | dependencies that always lead to a smaller rank have no cycle |
| PullPlanner.OrderPullPacks | internal/server/sync/pull.go:573-613 | the planned ranges are the selected packs in that least order |
| PullPlanner.HeadEmittedLast | internal/server/sync/pull.go:573-613 | the head's pack is emitted last although the loop never mentions the head |
| PullPlanner.PlanDeliversHistory | internal/server/sync/pull.go:438-527 | over V2 packs every ancestor of the head is carried by a planned pack or is an ancestor of the known commit |
| PullEngine.PreparePull | internal/server/sync/pull.go:240-283 | the exact condition of success and of every error, read off the request and the stored packs; where both an unreadable pack and a shared commit turn up in one round, either is reported |
| PullEngine.BuildPullManifest | internal/server/sync/pull.go:303-343 | builds the plan's manifest exactly if every planned pack can be served |
| PullEngine.StreamPull | internal/server/sync/pull.go:358-411 | writes exactly header, manifest and the planned packs' bytes in order |
| PullEngine.StreamAccepted | internal/server/sync/pull.go:123-411 | what is streamed for a full plan is an acceptable envelope if and only if the plan ends with the head's pack |
| PullEngine.StreamedParsesBack | internal/server/sync/pull.go:123-411 | whatever a streamed envelope decodes to is the manifest and the packs that were streamed |
| PullEngine.V2StoreLinked | internal/server/sync/framing.go:196-223 | in a repository of V2 packs every pack's base is a parent inside the pack |
| PullEngine.FullPull | internal/server/sync/pull.go:123-613 | end to end: a pull by a client that knows nothing is planned if and only if it is plannable, over exactly the rows it needs; what is sent is the plan's manifest and packs, what is received is what the decoder makes of these bytes, and it is the same manifest and packs if and only if the climb over the needed packs ends at the head's, and nothing otherwise; linked packs always are |
| PullEngine.HealthyPulls | internal/server/sync/pull.go:123-613 | a healthy table of V2 packs meets both conditions for every branch whose head ends a pack |
| PullRuns.RunRanges | internal/server/storage/postgres/store.go:870-917 | in every run pack rows name recorded commits and have different targets, and in runs of linked pushes each leads from its base to a proper descendant |
| PullRuns.RunTableValid | internal/server/storage/postgres/store.go:870-1161 | at every moment of a run of linked pushes the table that pulls read has unique hashes and targets, and every walk through it ends |
| PackRuns.CheckedUploaded | internal/server/sync/push.go:248-316 | the bytes of a push that passed all checks are a pack of exactly the commits it registers |
| PackRuns.FramedUploaded | internal/server/review/finalize.go:205-231 | the pack of a merge carries exactly the merge commit |
| PackRuns.RunPacksRecorded | internal/server/sync/push.go:118-230 | at every moment of any run of such pushes and merges, the commits of every pack that is still served are recorded with the parents in its frame |
| PackRuns.RunMeetsPull | internal/server/sync/push.go:118-230 | so a run of linked pushes always meets what the end-to-end pull above asks of the tables |
| UnlinkedPush.RewindByPush | internal/server/sync/push.go:118-230 | three pushes run from an empty repository, the last of which moves a branch to a commit without the old head in its history |
| UnlinkedPush.UnlinkedPushAccepted | internal/server/sync/framing.go:296-366 | that V3 push passes every check although its target is not linked to its base |
| PullExamples.RewoundPlanned | internal/server/sync/pull.go:573-613 | after it the pull of the branch can be planned, and the climb does not end at the head's pack |
| PullExamples.UndecodablePull | internal/server/sync/pull.go:123-613 | a pull of the branch so rewound is planned and streamed over what the pushes left, and the decoder takes the streamed bytes for no pull |
| V2Examples.MergeParentInside | internal/server/sync/pull.go:499-523 | two V2 pushes after which a pull of the second branch fails although its own chain is complete, because a merge parent lies inside a pack |
| V2Examples.BranchInside | internal/server/sync/pull.go:266-272 | two V2 pushes, with a branch created in between inside the first pack, after which that branch's pack chain is incomplete and it cannot be pulled |
| V2Examples.CommitsRepeated | internal/server/sync/pull.go:457-467 | three V2 pushes after which a pull of the first branch fails although its own chain is complete, because two needed packs share a commit |
| LoopingRanges.LoopNeverEnds | internal/server/storage/postgres/store.go:1419-1431 | two accepted pushes, two branches created inside their packs, and two more accepted pushes, after which the query for a branch never ends, in every view of the tables |
| PullEnvelope.UnmarshalPullEnvelope | internal/server/sync/pull.go:123-212 | accepts exactly the well-formed envelopes with the head packed once and last, no commit in two packs and every merge parent supplied |
| PullEnvelope.AcceptsUnique | internal/server/sync/pull.go:123-212 | an envelope stands for at most one manifest and one list of packs |
| EnvelopeLaws.PacksMean | internal/server/sync/pull.go:123-212 | every pack of an accepted envelope is a valid frame of its declared format, length and hash |
| EnvelopeLaws.HeaderMeans | internal/server/sync/pull.go:358-411 | an envelope starts with "SRPL", version 2 and the manifest length, most significant bytes first |
| EnvelopeLaws.CommitsOnce | internal/server/sync/pull.go:178-187 | no commit comes twice in an accepted envelope, in one pack or in two |
| EnvelopeLaws.HeadLast | internal/server/sync/pull.go:172-199 | the head is the target of the last pack and of no other |
| EnvelopeLaws.MergeParentsThere | internal/server/sync/pull.go:200-212 | every merge parent of a decoded commit is a decoded commit |
| RackStore.Store.PutCommit | internal/server/storage/postgres/store.go:785-855 | inserts a commit over recorded parents, confirms an identical one, and otherwise changes nothing |
| RackStore.Store.PutPackRange | internal/server/storage/postgres/store.go:870-917 | inserts a row over recorded commits for a new pack and target, confirms an identical row, refuses any other under the same hash, and otherwise changes nothing |
| RackStore.Store.CreateBranch | internal/server/storage/postgres/store.go:709-747 | the new branch row, and the default branch if it is the first; names of deleted branches stay taken |
| RackStore.Store.DeleteBranch | internal/server/storage/postgres/store.go:1727-1761 | a soft delete that keeps row and head, refused for the default branch |
| RackStore.Store.CompareAndSwapBranchRef | internal/server/storage/postgres/store.go:1460-1505 | moves a head only from the expected commit and only without an unexpired lease |
| RackStore.Store.AcquireMergeLease | internal/server/storage/postgres/store.go:923-981 | writes the lease row exactly if the request is complete, its target is the branch head, its commits are recorded and no unexpired lease stands; otherwise changes nothing |
| RackStore.Store.ValidateMergeLease | internal/server/storage/postgres/store.go:986-1017 | succeeds exactly for the owner of an unexpired lease, with the exact error otherwise |
| RackStore.Store.ReleaseMergeLease | internal/server/storage/postgres/store.go:1022-1061 | removes the lease, expired or not, exactly for its subject and token |
| RackStore.Store.ApplyMerge | internal/server/storage/postgres/store.go:1065-1161 | inserts commit and range, moves the head and consumes the lease together, or changes nothing |
| RackStore.Store.PublishNativePush | internal/server/storage/postgres/store.go:1530-1615 | registers all commits, moves the head and records the key together, answers a repeated key from its row, or changes nothing |
| RackRuns.StepKeeps | internal/server/storage/postgres/store.go:785-1615 | every transaction keeps the history acyclic, parent-closed and immutable and heads recorded, and moves heads only to descendants if and only if it is no swap of an unlinked push |
| RackRuns.RunForward | internal/server/sync/push.go:118-230 | over any interleaving of linked pushes and all other transactions, between any two moments, history only grows, branches stay, and each later head has the earlier one as an ancestor |
| RackRuns.EmptyRepositoryInv | internal/server/storage/postgres/store.go:574-598 | a new repository starts in a consistent state |
| RackRuns.LinkedExactly | internal/server/sync/framing.go:296-366 | with known parents, a stored commit of a push has the base in its history if and only if it is linked by what was registered before |
| RackRuns.AcceptedPushLinked | internal/server/sync/push.go:118-230 | the target of an accepted push, V2 or V3, has its base in its history if and only if the push was linked |
| RackRuns.V2RunLinked | internal/server/sync/framing.go:196-223 | in a run whose pushes are first-parent chains every push is linked |
| RackRuns.LinkDecidedAtBegin | internal/server/sync/push.go:118-230 | whatever interleaves, the link that a push has when it begins decides whether its target descends from its base once stored |
| RackRuns.SwapDecidedAtBegin | internal/server/sync/push.go:118-230 | and whether its swap moves the branch forward |
| RackRuns.NoAba | internal/server/storage/postgres/store.go:1065-1161 | in a run of linked pushes a head that is the same at two moments never changed in between |
| RackRuns.TokenMergesOnce | internal/server/storage/postgres/store.go:923-1161 | each lease token authorises at most one merge in any run |
| RackRuns.LeaseWasGranted | internal/server/storage/postgres/store.go:923-981 | in a run that starts without leases every lease was granted in it, with exactly these contents, and has stood unchanged since; the clock never runs back |
| StoreLaws.LeaseExclusive | internal/server/storage/postgres/store.go:923-1161 | no step of any run changes or removes an unexpired lease but its release, in its subject's name and with its token, and the committed merge it was granted for |
| StoreLaws.LeaseStands | internal/server/storage/postgres/store.go:923-1161 | so a lease stands until it expires or its holder gives it up or merges |
| StoreLaws.LeaseGrantedExactly | internal/server/storage/postgres/store.go:923-981 | acquiring writes exactly this row, exactly if the request can be granted |
| StoreLaws.RegisteredExactly | internal/server/storage/postgres/store.go:785-868 | a batch of commits is registered exactly if each one agrees with the row under its id, stored or earlier in the batch, and has its parents stored, earlier in the batch, or itself; the result is the old rows and these |
| StoreLaws.PublishedExactly | internal/server/storage/postgres/store.go:1530-1615 | a fresh native publish is carried out exactly if it is complete, starts at the branch's head, and its commits can be registered and include the new head, unless that was registered before |
| StoreLaws.PackRowsImmutable | internal/server/storage/postgres/store.go:870-917 | over any run a stored pack row never changes or disappears |
| StoreLaws.BranchesKept | internal/server/storage/postgres/store.go:709-1761 | over any run the default branch stays the same and undeleted, and a deleted branch stays deleted |
| RackRuns.LeasedNoAba | internal/server/storage/postgres/store.go:1456-1505 | over any run, a head that is the same at two moments between which its branch is leased throughout never changed in between |
| RackRuns.NoLostUpdate | internal/server/storage/postgres/store.go:1065-1161 | in every run that starts without leases, whatever pushes it holds, a committed merge replaces the head its lease was granted on, that head never left the branch in between, and the merge's parents are that head and then the leased source |
| RackRuns.LeasedHeadMoves | internal/server/storage/postgres/store.go:1456-1615 | a leased head moves if and only if the merge with its token commits or a fresh native publish does |
| RackRuns.PublishIgnoresLease | internal/server/storage/postgres/store.go:1575-1599 | a concrete native publish that moves a leased head |
| PublishProtocol.StepKeeps | internal/server/storage/postgres/store.go:1507-1615 | every statement keeps keys, branch rows and new commit ids exclusive to one open transaction and keeps each one's view valid |
| PublishProtocol.FreshStartRun | internal/server/storage/postgres/store.go:1507-1529 | a server that comes up with no transaction open is consistent in every state it reaches |
| PublishProtocol.AnswersAreAtomic | internal/server/storage/postgres/store.go:1530-1615 | every answer is that of the atomic transaction at that instant, every other statement and every abandoned attempt leaves the tables alone, and the unexpected-status error never occurs |
| PublishProtocol.KeyStaysForever | internal/server/storage/postgres/store.go:1541-1547 | a committed idempotency row never changes or disappears |
| PublishProtocol.KeyPublishedOnce | internal/server/storage/postgres/store.go:1507-1529 | over any interleaving a key gets at most one fresh result, hence at most one head move |
| PublishProtocol.RetriesAgree | internal/server/storage/postgres/store.go:1552-1572 | after a publish every later answer under its key returns the original target to an identical request and a conflict to any other |
| PublishProtocol.OthersPermitted | internal/server/storage/postgres/store.go:1163-1177 | every other transaction of the store may interleave where the row locks allow it |
| PublishProtocol.AnswerIsRackStep | internal/server/storage/postgres/store.go:1530-1615 | an answered publish of a verified chain is one publishing step of the runs above |
| PushEngine.V2FrameIsChain | internal/server/sync/framing.go:196-223 | the records of a valid V2 frame are a first-parent chain from its base to its target |
| PushEngine.VerifyCommitDAG | internal/server/nativepush/nativepush.go:338-369 | accepts exactly the pushes whose first parents chain from the base, whose merge parents are known and whose snapshots are valid |
| PushEngine.DagMeans | internal/server/nativepush/nativepush.go:338-369 | what that check says of each commit and each parent by its position |
| PushEngine.VerifiedPushIsChain | internal/server/nativepush/nativepush.go:338-369 | such a push is a first-parent chain, so publishing it advances the branch |
| PushEngine.ParentsKnown | internal/server/sync/push.go:143-164 | accepts exactly if each parent is the base, registered, or an earlier commit of the push |
| PushEngine.KnownMeans | internal/server/sync/push.go:143-164 | what that check says of each parent by its position |
| PushEngine.AcceptPack | internal/server/sync/push.go:248-316 | yields the frame of a pack exactly if its bytes have the requested hash and carry a valid frame with the request's range and commits and valid snapshots |
| PushEngine.CheckedPushBegins | internal/server/sync/push.go:118-165 | a push that passed all checks is one the runs above let begin, and a V2 push is linked |
| PushEngine.HandlePush | internal/server/sync/push.go:118-230 | a push that fails a check writes nothing and moves no branch; every other push does exactly what its transactions in turn do, and leaves its stored commits and pack range if it fails at the head; after a successful push the old head is in the new head's history if and only if the push has no base or is linked |
| PushRuns.PushIsRun | internal/server/sync/push.go:118-230 | a push that succeeds alone is a run: it begins, stores its commits one by one and its row, reads the head, and creates or swaps the branch; so the theorems about all runs hold of it |
| PushLaws.CheckedMeans | internal/server/sync/push.go:118-316 | a push that passes the checks is complete, of an admitted format and over a registered base; its bytes have the announced hash and decode to a frame of the announced range, and each record is its commit's identity, parents and contents |
| PushLaws.ChecksPass | internal/server/sync/push.go:118-316 | and every such push passes them |
| PushLaws.RepeatedPush | internal/server/sync/push.go:118-230 | a push whose commits and pack row are stored goes straight to the head |
| PushLaws.OtherRowRefused | internal/server/storage/postgres/store.go:890-910 | a pack hash that stands for another row is refused |
| PushLaws.RetriedPush | internal/server/sync/push.go:118-230 | a push refused at the head passes its checks again, whatever was registered since, and succeeds as soon as the head step does |
| PushLaws.HeadStepSucceeds | internal/server/sync/push.go:188-230 | the exact condition of the head step: a new branch without a base, nothing to do, or an unleased branch at the base or, without a base, at an ancestor of the target |
| PushLaws.HeadStepFails | internal/server/sync/push.go:188-230 | and otherwise fails for a missing branch, for a branch elsewhere with its head named, or for a lease |
| PushLaws.HeadStepLeased | internal/server/sync/push.go:188-230 | a branch at the base moves unless it is leased |
| MergeApply.LoadInputs | internal/server/review/engine.go:136-199 | the preview is over the two current heads, with the target as base exactly if it is an ancestor of the source, and the merge base otherwise; it fails only if there are no such inputs |
| MergeApply.Apply | internal/server/review/finalize.go:142-248 | the exact condition of success; the outcome is then a fast-forward to a descendant, or a leased merge commit on the resolved snapshot with parents target then source, and no change otherwise |
| ApplyLaws.InputsMean | internal/server/review/engine.go:136-199 | the base of a preview is an ancestor of both heads: the target head if and only if the source descends from it, and otherwise the merge base; all three snapshots are those of the commits' rows |
| ApplyLaws.FramesMean | internal/server/review/finalize.go:186-233 | a merge commit is the canonical record of the merged snapshot with parents target then source, and its pack is the encoding of exactly that commit and snapshot over the target, all under their content ids |
| ApplyLaws.FastForwardApplies | internal/server/review/finalize.go:142-180 | a fast-forward is applied exactly without choices, without a token, and while nobody holds the target branch |
| ApplyLaws.MergeApplies | internal/server/review/finalize.go:142-248 | any other merge is applied exactly under the caller's unexpired lease for these three commits, with two parents of the current format, choices that resolve it, and a commit and a pack not stored yet |
| MergeApply.MergePackReadable | internal/server/review/finalize.go:205-231 | the pack a merge publishes is accepted by the V2 decoder and continues the target by one commit |
| ThreeWayMerge.MergeValue | internal/server/review/engine.go:333-361 | conflicts exactly if both sides changed differently, otherwise the side that changed wins, and the branch names it |
| ThreeWayMerge.MergeSnapshots | internal/server/review/engine.go:216-235 | the preview lists exactly the clean changes and the deduplicated conflicts, sorted, with one requirement per conflict |
| ThreeWayMerge.MergeElements | internal/server/review/engine.go:258-270 | the merged map and what was added to the two lists |
| ThreeWayMerge.MergeElement | internal/server/review/engine.go:272-311 | the merged element and what was added to the two lists, in every branch |
| ThreeWayMerge.MergeProperties | internal/server/review/engine.go:313-331 | the merged properties and what was added to the two lists |
| ThreeWayMerge.Preview.AddConflict | internal/server/review/engine.go:377-393 | a conflict is listed once per token, together with exactly one requirement |
| ThreeWayMerge.ValidateMergedSchema | internal/server/review/engine.go:237-256 | adds one conflict about the schema exactly if validation rejects the merge, and its violation codes |
| MergeLaws.MergePointwise | internal/server/review/engine.go:258-357 | at the schema, every shape and every property that is not in conflict, the merge holds the value of the side that changed it |
| MergeLaws.ConflictKeepsTarget | internal/server/review/engine.go:219-322 | a conflict site provisionally holds the target's content |
| MergeLaws.MergeIdentities | internal/server/review/engine.go:258-357 | merging with an unchanged side gives the other, merging equal sides gives that side, and none of these conflicts |
| MergeLaws.MergeSwap | internal/server/review/engine.go:258-357 | swapping source and target keeps all conflicts and a conflict-free result |
| PreviewLists.ConflictListExact | internal/server/review/engine.go:216-235 | a preview lists exactly the tokens of the conflict sites, or what validation found if there is none |
| PreviewOrder.ValidationListed | internal/server/review/engine.go:237-256 | a merge without conflict sites lists nothing if validation accepts it, one cardinality conflict if every violation code contains that word, and one schema conflict otherwise |
| PreviewOrder.MixedViolations | internal/server/review/engine.go:248-255 | two codes of which one is about something else make a schema conflict |
| PreviewOrder.PropertyTokenSpelled | internal/server/review/engine.go:377-393 | the text of a property conflict's token |
| PreviewOrder.ElementTokenSpelled | internal/server/review/engine.go:377-393 | the text of the tokens of element conflicts |
| PreviewLists.SwapListsSameTokens | internal/server/review/engine.go:216-235 | swapping source and target lists the same tokens in the same order |
| PreviewLists.ChangesAreReal | internal/server/review/engine.go:216-331 | every listed change names a place where base and merge differ, with an operation and a branch that are true of it |
| PreviewLists.DifferencesAreListed | internal/server/review/engine.go:216-331 | every unconflicted place where base and merge differ is covered by a listed change |
| PreviewOrder.ChangesOnce | internal/server/review/engine.go:216-331 | no two listed changes are about the same place |
| PreviewOrder.ChangesInOrder | internal/server/review/engine.go:395-402 | changes are listed by kind, then edges before nodes, then by id and by property name |
| PreviewLists.NewElementListed | internal/server/review/engine.go:287-310 | an element the base lacks is listed as updated exactly if both sides added it with the same shape, and as added exactly if one side did |
| PreviewLists.AddedOnBothSides | internal/server/review/engine.go:304-309 | a concrete merge whose preview lists an added node as updated |
| ConflictTokens.TokensUnambiguous | internal/server/review/engine.go:377-393 | tokens identify conflicts if and only if no id is another id of its kind followed by a colon and more |
| Resolution.ValidateResolutions | internal/server/review/finalize.go:281-310 | accepts exactly the lists that answer each required token once, in a well-formed way |
| Resolution.Draft.ApplyResolution | internal/server/review/finalize.go:368-405 | what one choice does to the merged snapshot, or the error and no change |
| Resolution.Draft.SetProperty | internal/server/review/finalize.go:496-526 | replaces or removes one property of an element, and fails exactly if the element is gone |
| Resolution.MaterializeMerge | internal/server/review/finalize.go:312-350 | whole-element choices, then property choices, applied to the clean merge; a sole cardinality conflict is resolved by a whole snapshot; for every list of choices, accepted or not |
| ResolutionLaws.MaterializedOrderFree | internal/server/review/finalize.go:331-345 | every ordering of the same choices is accepted and gives the same result |
| ResolutionLaws.ChoicesWin | internal/server/review/finalize.go:312-405 | every conflict site holds what was chosen for it: the chosen side's content, or the decoded manual value; a whole-element choice decides all properties that are not conflicts themselves; a manual element has its conflict's id, and null leaves none |
| ResolutionLaws.UnusableFails | internal/server/review/finalize.go:368-494 | one manual value that does not decode, or is an element with another id, makes the resolution fail |
| ResolutionSuccess.ResolutionSucceedsExactly | internal/server/review/finalize.go:312-526 | the accepted choices of a conflicted merge can be carried out if and only if every manual value can be used and no manual null removes an element with a conflicting property; then only the result's validity decides |
| ResolutionLaws.SettledSitesStayClean | internal/server/review/finalize.go:312-405 | every site outside a conflicted element keeps its clean three-way value, also when the only conflict is one that validation found, except for the schema that this conflict is about |
| ResolutionLaws.CardinalityReplacesMerge | internal/server/review/finalize.go:313-325 | where every violation is about cardinality the one choice is the whole result: a side as it stands, or the decoded snapshot if it is valid, and an error otherwise |
| ResolutionLaws.RejectedSchemaChosen | internal/server/review/finalize.go:368-383 | where validation rejects the merge for another reason, the one choice decides its schema and nothing else |
| ResolutionLaws.SharedTokenDrops | internal/server/review/engine.go:385-389 | of two conflict sites with one token the preview lists at most one |
| ResolutionLaws.ConflictDropped | internal/server/review/engine.go:377-393 | a concrete merge of two nodes in which that happens |
| ResolutionLaws.SideChosen | internal/server/review/finalize.go:407-469 | choosing source or target puts that side's content at the site |
| ResolutionLaws.PreviewCoherent | internal/server/review/engine.go:377-393 | the conflicts of a preview are about different sites, all of them conflict sites |
| Retention.FindKept | internal/server/retention/retention.go:138-230 | the kept packs are exactly those linked to an ancestor of a root commit or recorded as the location of a rooted object |
| Retention.AddCommitRoots | internal/server/retention/retention.go:138-200 | adds exactly the ancestors of the roots, an unregistered root standing for itself |
| Retention.Vault.Collect | internal/server/retention/retention.go:113-262 | exactly the unreachable packs go, with each blob no kept pack uses, reported once; a dry run reports the same and changes nothing; a failed read deletes nothing; after a failed deletion all kept packs, locations and blobs are intact |
| Retention.CollectedMeans | internal/server/retention/retention.go:113-262 | a collection leaves exactly the kept packs, the locations in them, and all blobs but those only collected packs have |
| Retention.ReportedPacks | internal/server/retention/retention.go:202-262 | a report names every kept pack and every other pack, each once |
| Retention.ReportedBlobs | internal/server/retention/retention.go:202-262 | a report says of each blob that only collected packs have that it went, once, and of no other |
| RetentionRuns.RackStepAdvances | internal/server/storage/postgres/store.go:785-1615 | every transaction of the metadata store is a history step that retention admits, and it moves all heads forward if and only if it is no swap of an unlinked push |
| RetentionRuns.AnchorProtects | internal/server/nativepush/nativepush.go:180-202 | in any run, while an anchor names an object recorded in a pack, the pack stays indexed with its locations through any collections, wherever heads move |
| RetentionRuns.CommitAnchorProtects | internal/server/retention/retention.go:176-187 | while a transaction anchors a commit, the packs of its whole history stay |
| RetentionRuns.AuditedForever | internal/server/retention/retention.go:189-200 | what an audit record names stays for ever, wherever heads move: the packs of the commit's history, and the pack its object is recorded in |
| RetentionRuns.PublishedForever | internal/server/retention/retention.go:161-172 | a pack whose commit is in a branch's history stays indexed as long as no head moves back, branch deletions included |
| RetentionRuns.PushSurvives | internal/server/nativepush/nativepush.go:161-257 | a push published before its anchor is released keeps its row, its blob and its locations: while anchored in any run, and after publication as long as no head moves back |
| RetentionRuns.IntactExactly | internal/server/retention/retention.go:138-262 | in any run a pack stays indexed with its locations if and only if each collection finds it kept |
| RetentionRuns.CollectKeepsLocated | internal/server/storage/postgres/store.go:1660-1672 | a collection keeps all objects of retained packs locatable if and only if each is recorded in a retained pack |
| RetentionRuns.LocationLost | internal/server/storage/postgres/store.go:1660-1672 | a concrete collection, of a pack whose registered commit no root reaches, after which an object of a published pack has no location |
| RewoundRetention.PublishedLost | internal/server/retention/retention.go:161-172 | a concrete push that moves a branch back, after which a collection takes the published native pack of the old head |
| NativeEnvelope.ValidateFrame | internal/server/nativepull/framing.go:155-208 | accepts exactly the valid pack frames, duplicates among the entries excluded |
| NativeEnvelope.ValidateManifest | internal/server/nativepull/framing.go:121-153 | accepts exactly the manifests with valid frames, distinct packs and commits, and the head last |
| NativeEnvelope.UnmarshalManifest | internal/server/nativepull/framing.go:106-119 | accepts exactly the canonical encodings of valid manifests |
| NativeEnvelope.EncodeNativePullResponse | internal/server/nativepull/framing.go:226-266 | writes the envelope of a pull exactly if the pull is valid |
| NativeEnvelope.DecodeNativePullResponse | internal/server/nativepull/framing.go:285-332 | returns the pull that the bytes carry and fails only if they carry none; all offsets stay in range |
| NativeEnvelope.CarriesUnique | internal/server/nativepull/framing.go:285-332 | an envelope carries at most one pull |
| NativeEnvelope.CarriedMeans | internal/server/nativepull/framing.go:121-332 | bytes are an accepted envelope of a pull if and only if it has 1 to 4096 packs of different ids and commits, the head's last, each not empty, within the size limit, with as many entries as its header declares, no object in two of them, and an index that lists it with that count, and the bytes are the magic, the version, the pull's manifest and the packs |
| NativeEnvelope.EncodeThenDecode | internal/server/nativepull/framing.go:226-332 | a valid pull is sent as its envelope, these bytes carry that pull alone, and decoding them yields the same head and packs |
| NativeEnvelope.DecodeThenEncode | internal/server/nativepull/framing.go:226-332 | bytes are decoded exactly if they carry a pull, and re-encoding it reproduces them |
| NativeEnvelope.PrefixFree | internal/server/nativepull/framing.go:285-332 | no accepted envelope is a proper prefix of another one |

## Left out

- PullEngine.FullPull: states end-to-end acceptance for a client that knows no commit, because a delta plan may omit merge parents the client already has while the decoder asks for all of them.
- PullPlanner.PlanPullDAG: where one round has both an unreadable pack and a commit in two packs, which of the two errors comes first depends on the order of the queue and is not stated.
- PullExamples.UndecodablePull: like the other examples, takes a frame codec whose encodings of the packs at hand are longer than one byte and within the size limit, and content ids that are told apart by table.
- PushEngine.HandlePush: does not model CAS writes; whether a snapshot and the assets it names are valid is a parameter. The method runs in one piece; its interleavings with other requests are runs of the stages in `RackRuns`, and `PushRuns.PushIsRun` says that a push alone is such a run.
- MergeApply.Apply: does not model the CAS writes of snapshot and pack; the exact condition of success is stated for parent-closed histories; its store calls interleave in `RackRuns`.
- Retention.Vault.Collect: reads and deletes as one step, because the code gives no guarantee for writes between its separate reads; indexing a pack is one step too, so the gap between writing a blob and anchoring its pack is not covered.
- ThreeWayMerge.MergeSnapshots: does not distinguish nil from empty maps and label lists, which Go's DeepEqual does; ties of the change order need NUL characters in ids and are not specified.
- PullPlan.GetPackRanges: requires that the walk it follows ends, because the recursive query of the source has no guard against rows that form a loop; the planner asks this of every walk, and `PullRuns.RunTableValid` derives it for runs of linked pushes.
- HTTP handlers, roles, tenants, workspaces, assets, quotas, audit logging, configuration and migrations: plumbing or single-branch facts.
- CBOR, zstd, BLAKE3, CRC32 and the internals of the graph contract: library code; see the parameters above.
- SQL text, row-level security, pooling, the file layout of the CAS, wall clocks and token randomness.
- Error texts and the guidance wording of non-fast-forward errors.
