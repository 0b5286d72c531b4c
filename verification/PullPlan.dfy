// Pull planning (internal/server/sync/pull.go): which packs a pull needs, and in which order.
module PullPlan {
  import opened Wrappers
  import opened Wire
  import opened CommitGraph
  import opened Framing
  import Ordering
  import Ancestry
  import PackOrder

  type Hash = string

  datatype PackRange = PackRange(hash: Hash, base: Id, target: Id, format: nat)

  /** What a pull reads: branch heads, the commit DAG, pack ranges by (unique) target, and CAS blobs. */
  datatype PullStore = PullStore(heads: map<string, Id>, commits: Graph, ranges: map<Id, PackRange>, blobs: map<Hash,
                                 Bytes>)

  datatype PullError =
    | BranchRequired | BranchNotFound | UpToDate | Diverged(head: Id)
    | IncompleteChain | InvalidPack | CommitInTwoPacks | MergeParentNotV2 | DependencyCycle

  datatype Planned = Planned(range: PackRange, frame: PackFrame)

  // ----- the pack range table -----------------------------------------------------------

  /** pack_ranges: pack hashes and targets are both unique. */
  ghost predicate RangesValid(store: PullStore) {
    && (forall t :: t in store.ranges ==> store.ranges[t].target == t)
    && (forall t, u :: t in store.ranges && u in store.ranges && store.ranges[t].hash == store.ranges[u].hash ==>
                       t == u)
  }

  predicate IsRow(store: PullStore, row: PackRange) {
    row.target in store.ranges && store.ranges[row.target] == row
  }

  /** `rows` walks the table from `head` down, stopping at the known commit or where the table ends. */
  ghost predicate ChainRows(store: PullStore, head: Id, known: Id, rows: seq<PackRange>) {
    && (forall i :: 0 <= i < |rows| ==> IsRow(store, rows[i]))
    && (rows == [] <==> head !in store.ranges)
    && (|rows| > 0 ==> rows[0].target == head)
    && (forall i :: 0 <= i < |rows| - 1 ==>
                    rows[i + 1].target == rows[i].base && rows[i].base != "" && rows[i].base != known)
    && (|rows| > 0 ==> var last := rows[|rows| - 1].base; last == "" || last == known || last !in store.ranges)
  }

  /** The part of the walk already followed. */
  ghost predicate Followed(store: PullStore, head: Id, known: Id, rows: seq<PackRange>) {
    && |rows| > 0 && rows[0].target == head
    && (forall i :: 0 <= i < |rows| ==> IsRow(store, rows[i]))
    && (forall i :: 0 <= i < |rows| - 1 ==>
                    rows[i + 1].target == rows[i].base && rows[i].base != "" && rows[i].base != known)
  }

  lemma FollowedGrows(store: PullStore, head: Id, known: Id, rows: seq<PackRange>, row: PackRange)
    requires Followed(store, head, known, rows) && IsRow(store, row)
    requires var last := rows[|rows| - 1].base; last != "" && last != known && row.target == last
    ensures Followed(store, head, known, rows + [row])
  {
    var all := rows + [row];
    forall i | 0 <= i < |all| ensures IsRow(store, all[i]) {}
  }

  /** The walk from `head` comes to an end. The recursive query has no other guard against rows that form a loop. */
  ghost predicate ChainEnds(store: PullStore, head: Id, known: Id) {
    exists rows :: ChainRows(store, head, known, rows)
  }

  /** Every walk through the table ends, wherever it starts. */
  ghost predicate ChainsEnd(store: PullStore) {
    forall t :: t in store.ranges ==> ChainEnds(store, t, "")
  }

  /** Whatever has been followed is the beginning of the whole walk. */
  lemma {:induction false} FollowedPrefix(store: PullStore, head: Id, known: Id, rows: seq<PackRange>,
                                          full: seq<PackRange>)
    requires Followed(store, head, known, rows) && ChainRows(store, head, known, full)
    ensures |rows| <= |full| && rows == full[..|rows|]
    decreases |rows|
  {
    var n := |rows| - 1;
    assert IsRow(store, rows[n]);
    if n > 0 {
      FollowedPrefix(store, head, known, rows[..n], full);
      assert rows[n - 1] == full[n - 1];
      if n < |full| {
        assert IsRow(store, full[n]) && full[n - 1 + 1].target == full[n - 1].base;
      }
    } else {
      assert IsRow(store, full[0]);
    }
  }

  /** The walk from `head` never comes back to a row. */
  ghost predicate LoopFree(store: PullStore, head: Id, known: Id) {
    forall rows: seq<PackRange>, i, j :: Followed(store, head, known, rows) && 0 <= i < j < |rows| ==>
                                         rows[i] != rows[j]
  }

  /** After a repeated row the walk repeats itself. */
  lemma {:induction false} Repeats(store: PullStore, head: Id, known: Id, rows: seq<PackRange>, i: nat, j: nat, n: nat)
    requires ChainRows(store, head, known, rows) && i < j && j + n < |rows| && rows[i] == rows[j]
    ensures rows[i + n] == rows[j + n]
  {
    if n > 0 {
      Repeats(store, head, known, rows, i, j, n - 1);
      assert rows[i + n - 1 + 1].target == rows[i + n - 1].base && rows[j + n - 1 + 1].target == rows[j + n - 1].base;
      assert IsRow(store, rows[i + n]) && IsRow(store, rows[j + n]);
    }
  }

  /** The last row of a walk ends it, and no earlier one does. */
  lemma LastRowOnce(store: PullStore, head: Id, known: Id, rows: seq<PackRange>, n: nat)
    requires ChainRows(store, head, known, rows) && n < |rows| - 1
    ensures rows[n] != rows[|rows| - 1]
  {
    assert rows[n + 1].target == rows[n].base && IsRow(store, rows[n + 1]);
  }

  lemma EndedWalkIsLoopFree(store: PullStore, head: Id, known: Id, full: seq<PackRange>)
    requires ChainRows(store, head, known, full)
    ensures LoopFree(store, head, known)
  {
    forall rows: seq<PackRange>, i, j | Followed(store, head, known, rows) && 0 <= i < j < |rows|
      ensures rows[i] != rows[j]
    {
      FollowedPrefix(store, head, known, rows, full);
      assert full[i] == rows[i] && full[j] == rows[j];
      if full[i] == full[j] {
        var n := |full| - 1 - j;
        Repeats(store, head, known, full, i, j, n);
        LastRowOnce(store, head, known, full, i + n);
      }
    }
  }

  /** A walk without a repeated row is no longer than the table. */
  lemma WalkLength(store: PullStore, head: Id, known: Id, rows: seq<PackRange>)
    requires LoopFree(store, head, known) && Followed(store, head, known, rows)
    ensures |rows| <= |store.ranges.Keys|
  {
    var targets := seq(|rows|, i requires 0 <= i < |rows| => rows[i].target);
    forall i, j | 0 <= i < j < |targets| ensures targets[i] != targets[j] {
      assert rows[i] != rows[j] && IsRow(store, rows[i]) && IsRow(store, rows[j]);
    }
    forall t | t in PackOrder.Elements(targets) ensures t in store.ranges {
      var i :| 0 <= i < |targets| && targets[i] == t;
      assert IsRow(store, rows[i]);
    }
    PackOrder.DistinctSize(targets);
    Ordering.SubsetSize(PackOrder.Elements(targets), store.ranges.Keys);
  }

  /** The query for a pull ends if and only if its walk never comes back to a row. */
  lemma ChainEndsExactly(store: PullStore, head: Id, known: Id)
    requires RangesValid(store)
    ensures ChainEnds(store, head, known) <==> LoopFree(store, head, known)
  {
    hide LoopFree;
    hide Followed;
    if ChainEnds(store, head, known) {
      var full: seq<PackRange> :| ChainRows(store, head, known, full);
      EndedWalkIsLoopFree(store, head, known, full);
    }
    if LoopFree(store, head, known) {
      if head !in store.ranges {
        assert ChainRows(store, head, known, []);
      } else {
        var row := store.ranges[head];
        var rows := [row];
        FollowedStarts(store, head, known);
        while row.base != "" && row.base != known && row.base in store.ranges
          invariant |rows| > 0 && row == rows[|rows| - 1] && IsRow(store, row)
          invariant Followed(store, head, known, rows)
          decreases |store.ranges.Keys| - |rows|
        {
          var next := store.ranges[row.base];
          FollowedGrows(store, head, known, rows, next);
          row := next;
          rows := rows + [row];
          WalkLength(store, head, known, rows);
        }
        FollowedEnds(store, head, known, rows);
      }
    }
  }

  /** A table whose rows can be numbered so that bases come before targets has no endless walk. */
  lemma {:induction false} RankedChainEnds(store: PullStore, rank: map<Id, nat>, t: Id, known: Id, n: nat)
    requires RangesValid(store) && forall u :: u in store.ranges ==> u in rank
    requires forall u :: u in store.ranges && store.ranges[u].base in store.ranges ==>
                         rank[store.ranges[u].base] < rank[u]
    requires t in store.ranges && rank[t] <= n
    ensures ChainEnds(store, t, known)
    decreases n
  {
    var row := store.ranges[t];
    if row.base == "" || row.base == known || row.base !in store.ranges {
      assert ChainRows(store, t, known, [row]);
    } else {
      RankedChainEnds(store, rank, row.base, known, n - 1);
      var rest: seq<PackRange> :| ChainRows(store, row.base, known, rest);
      var rows := [row] + rest;
      assert forall i :: 0 < i < |rows| ==> rows[i] == rest[i - 1];
      forall i | 0 <= i < |rows| ensures IsRow(store, rows[i]) {
        if i > 0 { assert IsRow(store, rest[i - 1]); }
      }
      assert rows[|rows| - 1] == rest[|rest| - 1];
      assert ChainRows(store, t, known, rows);
    }
  }

  /** A walk that ends also ends when it may stop earlier. */
  lemma ChainEndsEarlier(store: PullStore, head: Id, known: Id)
    requires ChainEnds(store, head, "")
    ensures ChainEnds(store, head, known)
  {
    var rows: seq<PackRange> :| ChainRows(store, head, "", rows);
    if rows == [] {
      assert ChainRows(store, head, known, []);
    } else {
      var n := 0;
      while n < |rows| - 1 && rows[n].base != known
        invariant n < |rows| && forall i :: 0 <= i < n ==> rows[i].base != known
      {
        n := n + 1;
      }
      assert IsRow(store, rows[0]);
      assert ChainRows(store, head, known, rows[..n + 1]);
    }
  }

  /** GetPackRanges: the recursive query, followed row by row. */
  method GetPackRanges(store: PullStore, head: Id, known: Id) returns (rows: seq<PackRange>)
    requires RangesValid(store) && ChainEnds(store, head, known)
    ensures ChainRows(store, head, known, rows)
  {
    hide Followed;
    if head !in store.ranges {
      return [];
    }
    ghost var full: seq<PackRange> :| ChainRows(store, head, known, full);
    var row := store.ranges[head];
    rows := [row];
    FollowedStarts(store, head, known);
    while row.base != "" && row.base != known && row.base in store.ranges
      invariant |rows| > 0 && row == rows[|rows| - 1] && IsRow(store, row)
      invariant Followed(store, head, known, rows)
      decreases |full| - |rows|
    {
      FollowedPrefix(store, head, known, rows, full);
      var next := store.ranges[row.base];
      FollowedGrows(store, head, known, rows, next);
      row := next;
      rows := rows + [row];
      FollowedPrefix(store, head, known, rows, full);
    }
    FollowedEnds(store, head, known, rows);
  }

  lemma FollowedStarts(store: PullStore, head: Id, known: Id)
    requires head in store.ranges && store.ranges[head].target == head
    ensures Followed(store, head, known, [store.ranges[head]])
  {}

  lemma FollowedEnds(store: PullStore, head: Id, known: Id, rows: seq<PackRange>)
    requires Followed(store, head, known, rows)
    requires var last := rows[|rows| - 1].base; last == "" || last == known || last !in store.ranges
    ensures ChainRows(store, head, known, rows)
  {
    assert IsRow(store, rows[0]);
  }

  ghost predicate ValidChain(rows: seq<PackRange>, head: Id, known: Id) {
    && |rows| > 0 && rows[0].target == head
    && (forall i :: 0 <= i < |rows| - 1 ==> rows[i + 1].target == rows[i].base)
    && rows[|rows| - 1].base == known
  }

  method ValidatePackChain(rows: seq<PackRange>, head: Id, known: Id) returns (ok: bool)
    ensures ok <==> ValidChain(rows, head, known)
  {
    if |rows| == 0 {
      return false;
    }
    var expectedTarget := head;
    for i := 0 to |rows|
      invariant expectedTarget == if i == 0 then head else rows[i - 1].base
      invariant i > 0 ==> rows[0].target == head
      invariant forall j :: 0 <= j < i - 1 ==> rows[j + 1].target == rows[j].base
    {
      if rows[i].target != expectedTarget {
        return false;
      }
      expectedTarget := rows[i].base;
    }
    return expectedTarget == known;
  }

  // ----- reading packs ------------------------------------------------------------------

  /** The frame readV2PackFrame yields for a row. */
  ghost function Read(k: Contract, store: PullStore, row: PackRange): (r: Option<PackFrame>) {
    if (row.format != PACK_FORMAT_V2 && row.format != PACK_FORMAT_V3) || row.hash !in store.blobs
       || |store.blobs[row.hash]| > MAX_V2_PACK_BYTES || k.contentId(store.blobs[row.hash]) != row.hash then None
    else
      match Unframe(k, row.format, store.blobs[row.hash])
      case None => None
      case Some(f) =>
        if f.base.id != row.base || f.target.id != row.target || (f.base.id != "" && f.base.format != COMMIT_FORMAT_V2)
        then None else Some(f)
  }

  method ReadV2PackFrame(k: Contract, store: PullStore, row: PackRange) returns (r: Option<PackFrame>)
    ensures r == Read(k, store, row)
  {
    if (row.format != PACK_FORMAT_V2 && row.format != PACK_FORMAT_V3) || row.hash !in store.blobs {
      return None;
    }
    var data := store.blobs[row.hash];
    if |data| > MAX_V2_PACK_BYTES || k.contentId(data) != row.hash {
      return None;
    }
    var frame := UnmarshalPackFrame(k, row.format, data);
    if frame.None? {
      return None;
    }
    var f := frame.value;
    if f.base.id != row.base || f.target.id != row.target || (f.base.id != "" && f.base.format != COMMIT_FORMAT_V2) {
      return None;
    }
    return frame;
  }

  ghost function Ids(k: Contract, f: PackFrame): set<CommitIdentity> {
    set i | 0 <= i < |f.commits| && Identity(k, f.commits[i]).Some? :: Identity(k, f.commits[i]).value
  }

  function AllParents(f: PackFrame): set<CommitIdentity> {
    set i, j | 0 <= i < |f.commits| && 0 <= j < |f.commits[i].parents| :: f.commits[i].parents[j]
  }

  function MergeParents(f: PackFrame): (s: set<CommitIdentity>)
    ensures s <= AllParents(f)
  {
    set i, j | 0 <= i < |f.commits| && 1 <= j < |f.commits[i].parents| :: f.commits[i].parents[j]
  }

  /** Some commit of the pack has the pack's base as a parent; validation guarantees it for V2 only. */
  ghost predicate Linked(f: PackFrame) {
    f.base == NO_COMMIT || f.base in AllParents(f)
  }

  ghost predicate LinkedStore(k: Contract, store: PullStore) {
    forall t :: t in store.ranges ==>
      match Read(k, store, store.ranges[t]) case None => true case Some(f) => Linked(f)
  }

  /** What a readable row tells about its frame. */
  lemma ReadFacts(k: Contract, store: PullStore, row: PackRange)
    requires Read(k, store, row).Some?
    ensures var f := Read(k, store, row).value;
            && f.target == V2(row.target) && V2(row.target) in Ids(k, f)
            && f.base == (if row.base == "" then NO_COMMIT else V2(row.base))
            && (forall i :: 0 <= i < |f.commits| ==> Identity(k, f.commits[i]).Some?)
            && (row.format == PACK_FORMAT_V2 ==> WellFramedV2(k, f) && Linked(f))
  {
    hide Identity;
    var f := Read(k, store, row).value;
    var last := Identity(k, f.commits[|f.commits| - 1]).value;
    assert last in Ids(k, f);
    if row.format == PACK_FORMAT_V2 {
      V2Linked(k, f);
    }
  }

  lemma V2Linked(k: Contract, f: PackFrame)
    requires WellFramedV2(k, f)
    ensures Linked(f)
  {
    hide Identity;
    if f.base != NO_COMMIT {
      assert f.commits[0].parents[0] == Previous(k, f, 0) == f.base;
    }
  }
}
