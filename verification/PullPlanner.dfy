// planPullDAG (internal/server/sync/pull.go): a fixpoint that adds the pack chains of missing merge parents.
module PullPlanner {
  import opened Wrappers
  import opened CommitGraph
  import opened Framing
  import opened PullPlan
  import opened PullClosure
  import opened PackOrder
  import Ordering
  import Ancestry

  type Selection = map<Hash, Planned>
  type CommitPacks = map<CommitIdentity, Hash>

  // ----- invariants of the fixpoint -----------------------------------------------------

  ghost predicate SelectedRows(k: Contract, store: PullStore, selected: Selection) {
    forall h :: h in selected ==>
      selected[h].range.hash == h && IsRow(store, selected[h].range)
        && Read(k, store, selected[h].range) == Some(selected[h].frame)
  }

  /** commitPacks maps exactly the commits of the selected packs, each to the one pack that carries it. */
  ghost predicate Indexed(k: Contract, selected: Selection, commitPacks: CommitPacks) {
    && (forall h, id :: h in selected && id in Ids(k, selected[h].frame) ==> id in commitPacks && commitPacks[id] == h)
    && (forall id :: id in commitPacks ==> commitPacks[id] in selected && id in Ids(k, selected[commitPacks[id]].frame))
  }

  /** Pack `q` has a commit with the target of pack `h` as a parent. */
  ghost predicate Needs(selected: Selection, q: Hash, h: Hash)
    requires q in selected && h in selected
  {
    q != h && V2(selected[h].range.target) in AllParents(selected[q].frame)
  }

  ghost predicate NeedWalk(selected: Selection, walk: seq<Hash>) {
    && (forall i :: 0 <= i < |walk| ==> walk[i] in selected)
    && (forall i :: 0 <= i < |walk| - 1 ==> Needs(selected, walk[i], walk[i + 1]))
  }

  ghost predicate Reached(selected: Selection, top: Hash, h: Hash) {
    exists walk :: NeedWalk(selected, walk) && |walk| > 0 && walk[0] == top && walk[|walk| - 1] == h
  }

  /** Every selected pack is a transitive dependency of the head's pack. */
  ghost predicate Spanned(selected: Selection, top: Hash) {
    forall h :: h in selected ==> Reached(selected, top, h)
  }

  ghost predicate NeededBySelected(selected: Selection, target: Id) {
    exists q :: q in selected && V2(target) in AllParents(selected[q].frame)
  }

  /** What asks for a queued row: a selected commit, the row before it, or the head itself. */
  ghost predicate Justified(selected: Selection, pending: seq<PackRange>, head: Id, i: nat)
    requires i < |pending|
  {
    || NeededBySelected(selected, pending[i].target)
    || (i > 0 && pending[i - 1].base == pending[i].target && pending[i].target != "")
    || pending[i].target == head
  }

  ghost predicate AllJustified(selected: Selection, pending: seq<PackRange>, head: Id) {
    forall i :: 0 <= i < |pending| ==> Justified(selected, pending, head, i)
  }

  ghost predicate HasTarget(selected: Selection, t: Id) {
    exists h :: h in selected && selected[h].range.target == t
  }

  ghost predicate QueuedTarget(pending: seq<PackRange>, t: Id) {
    exists i :: 0 <= i < |pending| && pending[i].target == t
  }

  ghost predicate BaseCovered(selected: Selection, pending: seq<PackRange>, known: Id, b: Id) {
    b == "" || b == known || HasTarget(selected, b) || QueuedTarget(pending, b)
  }

  /** A base is absent, known to the client, or the target of a selected or queued pack. */
  ghost predicate BasesCovered(selected: Selection, pending: seq<PackRange>, known: Id) {
    && (forall h :: h in selected ==> BaseCovered(selected, pending, known, selected[h].range.base))
    && (forall i :: 0 <= i < |pending| ==> Continues(pending, known, i))
  }

  /** The base of a queued row is absent, known, or the target of the next queued row. */
  ghost predicate Continues(pending: seq<PackRange>, known: Id, i: nat)
    requires i < |pending|
  {
    var b := pending[i].base;
    b == "" || b == known || (i + 1 < |pending| && pending[i + 1].target == b)
  }

  lemma WalkGrows(selected: Selection, grown: Selection, top: Hash, h: Hash)
    requires Reached(selected, top, h)
    requires forall x :: x in selected ==> x in grown && grown[x] == selected[x]
    ensures Reached(grown, top, h)
  {
    var walk :| NeedWalk(selected, walk) && |walk| > 0 && walk[0] == top && walk[|walk| - 1] == h;
    assert forall i :: 0 <= i < |walk| - 1 ==> Needs(selected, walk[i], walk[i + 1]);
    assert NeedWalk(grown, walk);
  }

  lemma WalkExtends(selected: Selection, top: Hash, q: Hash, h: Hash)
    requires Reached(selected, top, q) && q in selected && h in selected && Needs(selected, q, h)
    ensures Reached(selected, top, h)
  {
    var walk :| NeedWalk(selected, walk) && |walk| > 0 && walk[0] == top && walk[|walk| - 1] == q;
    var longer := walk + [h];
    assert forall i :: 0 <= i < |longer| - 1 ==> Needs(selected, longer[i], longer[i + 1]);
    assert NeedWalk(selected, longer);
  }

  /** Selecting a new row keeps every selected pack below the head's pack. */
  lemma SelectionStaysSpanned(selected: Selection, row: PackRange, frame: PackFrame, top: Hash)
    requires Spanned(selected, top) && row.hash !in selected
    requires NeededBySelected(selected, row.target) || (row.hash == top && selected == map[])
    ensures Spanned(selected[row.hash := Planned(row, frame)], top)
  {
    var grown := selected[row.hash := Planned(row, frame)];
    forall h | h in grown ensures Reached(grown, top, h) {
      if h in selected {
        WalkGrows(selected, grown, top, h);
      } else if NeededBySelected(selected, row.target) {
        var q :| q in selected && V2(row.target) in AllParents(selected[q].frame);
        WalkGrows(selected, grown, top, q);
        assert Needs(grown, q, h);
        WalkExtends(grown, top, q, h);
      } else {
        assert NeedWalk(grown, [top]);
      }
    }
  }

  lemma JustifiedTail(selected: Selection, pending: seq<PackRange>, head: Id, grown: Selection)
    requires |pending| > 0 && AllJustified(selected, pending, head)
    requires forall x :: x in selected ==> x in grown && grown[x] == selected[x]
    requires pending[0].base != "" ==> NeededBySelected(grown, pending[0].base)
    ensures AllJustified(grown, pending[1..], head)
  {
    var rest := pending[1..];
    forall i | 0 <= i < |rest| ensures Justified(grown, rest, head, i) {
      assert Justified(selected, pending, head, i + 1);
      assert rest[i] == pending[i + 1];
      if NeededBySelected(selected, rest[i].target) {
        NeededGrows(selected, grown, rest[i].target);
      } else if rest[i].target != head {
        assert pending[i].base == rest[i].target && rest[i].target != "";
        if i > 0 {
          assert rest[i - 1] == pending[i];
        } else {
          assert NeededBySelected(grown, rest[0].target);
        }
      }
    }
  }

  lemma NeededGrows(selected: Selection, grown: Selection, target: Id)
    requires NeededBySelected(selected, target)
    requires forall x :: x in selected ==> x in grown && grown[x] == selected[x]
    ensures NeededBySelected(grown, target)
  {
    var q :| q in selected && V2(target) in AllParents(selected[q].frame);
    assert q in grown && V2(target) in AllParents(grown[q].frame);
  }

  lemma BasesTail(selected: Selection, pending: seq<PackRange>, known: Id, grown: Selection)
    requires |pending| > 0 && BasesCovered(selected, pending, known)
    requires forall x :: x in selected ==> x in grown && grown[x] == selected[x]
    requires forall x :: x in grown ==> x in selected || grown[x].range == pending[0]
    requires HasTarget(grown, pending[0].target)
    ensures BasesCovered(grown, pending[1..], known)
  {
    var rest := pending[1..];
    assert forall i :: 0 <= i < |rest| ==> rest[i] == pending[i + 1];
    forall h | h in grown ensures BaseCovered(grown, rest, known, grown[h].range.base) {
      if h in selected {
        BaseStaysCovered(selected, pending, known, grown, grown[h].range.base);
      } else {
        assert Continues(pending, known, 0);
        if |pending| > 1 { assert rest[0] == pending[1]; }
      }
    }
    forall i | 0 <= i < |rest| ensures Continues(rest, known, i) {
      assert Continues(pending, known, i + 1);
      if i + 1 < |rest| { assert rest[i + 1] == pending[i + 2]; }
    }
  }

  lemma BaseStaysCovered(selected: Selection, pending: seq<PackRange>, known: Id, grown: Selection, b: Id)
    requires |pending| > 0 && BaseCovered(selected, pending, known, b)
    requires forall x :: x in selected ==> x in grown && grown[x] == selected[x]
    requires HasTarget(grown, pending[0].target)
    ensures BaseCovered(grown, pending[1..], known, b)
  {
    if b != "" && b != known {
      if HasTarget(selected, b) {
        var x :| x in selected && selected[x].range.target == b;
        assert x in grown && grown[x].range.target == b;
      } else {
        var i :| 0 <= i < |pending| && pending[i].target == b;
        if i > 0 { assert pending[1..][i - 1].target == b; }
      }
    }
  }

  ghost predicate SamePrefix(selected: Selection, grown: Selection) {
    forall x :: x in selected ==> x in grown && grown[x] == selected[x]
  }

  ghost predicate Drained(selected: Selection, pending: seq<PackRange>) {
    forall i :: 0 <= i < |pending| ==> pending[i].hash in selected && selected[pending[i].hash].range == pending[i]
  }

  /** Everything the fixpoint keeps between its steps. */
  ghost predicate Planning(k: Contract, store: PullStore, head: Id, known: Id, selected: Selection,
                           commitPacks: CommitPacks, pending: seq<PackRange>)
  {
    && head in store.ranges
    && SelectedRows(k, store, selected)
    && Indexed(k, selected, commitPacks)
    && (forall i :: 0 <= i < |pending| ==> IsRow(store, pending[i]))
    && BasesCovered(selected, pending, known)
    && (selected == map[] ==> |pending| > 0 && pending[0].target == head)
    && (selected != map[] ==> store.ranges[head].hash in selected)
    && (LinkedStore(k, store) ==> Spanned(selected, store.ranges[head].hash) && AllJustified(selected, pending, head))
  }

  /** A queued row whose pack is already selected is dropped. */
  lemma SkipSelected(k: Contract, store: PullStore, head: Id, known: Id, selected: Selection, commitPacks: CommitPacks,
                     pending: seq<PackRange>)
    requires RangesValid(store) && Planning(k, store, head, known, selected, commitPacks, pending)
    requires |pending| > 0 && pending[0].hash in selected
    ensures selected[pending[0].hash].range == pending[0]
    ensures Planning(k, store, head, known, selected, commitPacks, pending[1..])
  {
    hide Identity;
    hide Read;
    var row := pending[0];
    assert IsRow(store, selected[row.hash].range) && IsRow(store, row);
    assert selected[row.hash].range == row;
    ReadFacts(k, store, row);
    assert HasTarget(selected, row.target);
    BasesTail(selected, pending, known, selected);
    if LinkedStore(k, store) {
      LinkedRow(k, store, row);
      if row.base != "" {
        assert V2(row.base) in AllParents(selected[row.hash].frame);
        assert NeededBySelected(selected, row.base);
      }
      JustifiedTail(selected, pending, head, selected);
    }
  }

  lemma LinkedRow(k: Contract, store: PullStore, row: PackRange)
    requires LinkedStore(k, store) && IsRow(store, row) && Read(k, store, row).Some?
    ensures Linked(Read(k, store, row).value)
  {
    hide Read;
    assert store.ranges[row.target] == row;
  }

  /** A queued row whose pack is new is selected with all its commits. */
  lemma SelectNew(k: Contract, store: PullStore, head: Id, known: Id, selected: Selection, commitPacks: CommitPacks,
                  pending: seq<PackRange>,
                  frame: PackFrame, commitPacks': CommitPacks)
    requires RangesValid(store) && Planning(k, store, head, known, selected, commitPacks, pending)
    requires |pending| > 0 && pending[0].hash !in selected && Read(k, store, pending[0]) == Some(frame)
    requires Indexed(k, selected[pending[0].hash := Planned(pending[0], frame)], commitPacks')
    ensures Planning(k, store, head, known, selected[pending[0].hash := Planned(pending[0], frame)], commitPacks',
                     pending[1..])
  {
    hide Identity;
    hide Read;
    hide Indexed;
    var row := pending[0];
    var grown := selected[row.hash := Planned(row, frame)];
    ReadFacts(k, store, row);
    assert grown[row.hash].range.target == row.target;
    assert HasTarget(grown, row.target);
    BasesTail(selected, pending, known, grown);
    assert IsRow(store, row);
    if LinkedStore(k, store) {
      LinkedRow(k, store, row);
      if row.base != "" {
        assert V2(row.base) in AllParents(grown[row.hash].frame);
        assert NeededBySelected(grown, row.base);
      }
      JustifiedTail(selected, pending, head, grown);
      assert Justified(selected, pending, head, 0);
      SelectionStaysSpanned(selected, row, frame, store.ranges[head].hash);
    }
  }

  // ----- the inner loop: selecting queued packs -----------------------------------------

  /** A commit of `frame` is already carried by a different pack. */
  ghost predicate Clashes(k: Contract, commitPacks: CommitPacks, frame: PackFrame, hash: Hash) {
    exists id :: id in Ids(k, frame) && id in commitPacks && commitPacks[id] != hash
  }

  /** Records every commit of a newly selected frame; fails when another pack carries one of them. */
  method IndexCommits(k: Contract, commitPacks: CommitPacks, frame: PackFrame, hash: Hash)
    returns (r: Option<CommitPacks>)
    requires forall i :: 0 <= i < |frame.commits| ==> Identity(k, frame.commits[i]).Some?
    ensures r.None? <==> Clashes(k, commitPacks, frame, hash)
    ensures r.Some? ==> r.value.Keys == commitPacks.Keys + Ids(k, frame)
    ensures r.Some? ==> forall id :: id in r.value ==>
                                     r.value[id] == if id in Ids(k, frame) then hash else commitPacks[id]
  {
    hide Identity;
    var index := commitPacks;
    for i := 0 to |frame.commits|
      invariant forall id :: id in index ==> id in commitPacks || id in Ids(k, frame)
      invariant forall id :: id in commitPacks ==> id in index && index[id] == commitPacks[id]
      invariant forall id :: id in index && id !in commitPacks ==> index[id] == hash
      invariant forall j :: 0 <= j < i ==>
                            var id := Identity(k, frame.commits[j]).value; id in index && index[id] == hash
    {
      var identity := Identity(k, frame.commits[i]).value;
      assert identity in Ids(k, frame);
      if identity in index && index[identity] != hash {
        return None;
      }
      index := index[identity := hash];
    }
    return Some(index);
  }

  lemma IndexGrows(k: Contract, selected: Selection, commitPacks: CommitPacks, row: PackRange, frame: PackFrame,
                   index: CommitPacks)
    requires Indexed(k, selected, commitPacks) && row.hash !in selected && !Clashes(k, commitPacks, frame, row.hash)
    requires index.Keys == commitPacks.Keys + Ids(k, frame)
    requires forall id :: id in index ==> index[id] == if id in Ids(k, frame) then row.hash else commitPacks[id]
    ensures Indexed(k, selected[row.hash := Planned(row, frame)], index)
  {
    hide Ids;
    var grown := selected[row.hash := Planned(row, frame)];
    forall h, id | h in grown && id in Ids(k, grown[h].frame) ensures id in index && index[id] == h {
      if h != row.hash {
        assert id in commitPacks && commitPacks[id] == h;
      }
    }
  }

  /** The rows of the selected packs, and of the queued ones, by target. */
  ghost function SelectedTargets(selected: Selection): set<Id> {
    set h | h in selected :: selected[h].range.target
  }

  ghost function QueuedTargets(pending: seq<PackRange>): set<Id> {
    set i | 0 <= i < |pending| :: pending[i].target
  }

  lemma ClashIsShared(k: Contract, store: PullStore, selected: Selection, commitPacks: CommitPacks, row: PackRange,
                      frame: PackFrame, s: set<Id>)
    requires SelectedRows(k, store, selected) && Indexed(k, selected, commitPacks)
    requires IsRow(store, row) && row.hash !in selected && Read(k, store, row) == Some(frame)
    requires Clashes(k, commitPacks, frame, row.hash) && SelectedTargets(selected) <= s && row.target in s
    ensures !Disjoint(k, store, s)
  {
    hide Ids;
    hide Read;
    var id :| id in Ids(k, frame) && id in commitPacks && commitPacks[id] != row.hash;
    var other := selected[commitPacks[id]];
    assert RowFrame(k, store, row.target) == Some(frame) && RowFrame(k, store, other.range.target) == Some(other.frame);
    assert id in RowIds(k, store, row.target) && id in RowIds(k, store, other.range.target);
    assert other.range.target in SelectedTargets(selected);
    assert other.range.target != row.target;
  }

  /** A consistent selection is readable and disjoint, and the index names exactly what it supplies. */
  lemma SelectionFacts(k: Contract, store: PullStore, selected: Selection, commitPacks: CommitPacks)
    requires RangesValid(store) && SelectedRows(k, store, selected) && Indexed(k, selected, commitPacks)
    ensures var s := SelectedTargets(selected);
            && Readable(k, store, s) && Disjoint(k, store, s) && s <= store.ranges.Keys
            && Supplied(k, store, s) == commitPacks.Keys
  {
    hide Ids;
    hide Read;
    hide RowIds;
    hide Indexed;
    hide SelectedRows;
    var s := SelectedTargets(selected);
    forall t | t in s ensures t in store.ranges && RowFrame(k, store, t).Some? {
      var h := SelectedHash(k, store, selected, t);
    }
    forall t, u, id | t in s && u in s && id in RowIds(k, store, t) && id in RowIds(k, store, u) ensures t == u {
      SelectedOnce(k, store, selected, commitPacks, t, u, id);
    }
    forall id ensures id in Supplied(k, store, s) <==> id in commitPacks {
      SelectedSupply(k, store, selected, commitPacks, id);
    }
  }

  /** A selected row's commits are those of its frame. */
  lemma SelectedIds(k: Contract, store: PullStore, selected: Selection, t: Id) returns (h: Hash)
    requires SelectedRows(k, store, selected) && t in SelectedTargets(selected)
    ensures h in selected && selected[h].range.target == t && RowIds(k, store, t) == Ids(k, selected[h].frame)
  {
    hide Ids;
    hide Read;
    hide SelectedRows;
    h := SelectedHash(k, store, selected, t);
  }

  lemma SelectedOnce(k: Contract, store: PullStore, selected: Selection, commitPacks: CommitPacks, t: Id, u: Id,
                     id: CommitIdentity)
    requires SelectedRows(k, store, selected) && Indexed(k, selected, commitPacks)
    requires t in SelectedTargets(selected) && u in SelectedTargets(selected)
    requires id in RowIds(k, store, t) && id in RowIds(k, store, u)
    ensures t == u
  {
    hide Ids;
    hide RowIds;
    hide SelectedRows;
    var h := SelectedIds(k, store, selected, t);
    var g := SelectedIds(k, store, selected, u);
    assert commitPacks[id] == h == g;
  }

  lemma SelectedSupply(k: Contract, store: PullStore, selected: Selection, commitPacks: CommitPacks, id: CommitIdentity)
    requires SelectedRows(k, store, selected) && Indexed(k, selected, commitPacks)
    ensures id in Supplied(k, store, SelectedTargets(selected)) <==> id in commitPacks
  {
    hide Ids;
    hide RowIds;
    hide SelectedRows;
    hide SelectedTargets;
    var s := SelectedTargets(selected);
    if id in commitPacks {
      SelectedRow(k, store, selected, commitPacks[id]);
    }
    if t :| t in s && id in RowIds(k, store, t) {
      var h := SelectedIds(k, store, selected, t);
    }
  }

  lemma SelectedRow(k: Contract, store: PullStore, selected: Selection, h: Hash)
    requires SelectedRows(k, store, selected) && h in selected
    ensures selected[h].range.target in SelectedTargets(selected)
    ensures RowIds(k, store, selected[h].range.target) == Ids(k, selected[h].frame)
  {
    hide Ids;
    hide Read;
  }

  lemma SelectedHash(k: Contract, store: PullStore, selected: Selection, t: Id) returns (h: Hash)
    requires SelectedRows(k, store, selected) && t in SelectedTargets(selected)
    ensures h in selected && selected[h].range.target == t && t in store.ranges && store.ranges[t] == selected[h].range
    ensures HashOf(store, t) == h && RowFrame(k, store, t) == Some(selected[h].frame)
  {
    hide Read;
    h :| h in selected && selected[h].range.target == t;
  }

  ghost function Unselected(store: PullStore, selected: Selection): set<Id> {
    set t | t in store.ranges && store.ranges[t].hash !in selected
  }

  lemma NothingDrained(selected: Selection, pending: seq<PackRange>)
    ensures SamePrefix(selected, selected) && Drained(selected, pending[..0]) && QueuedTargets(pending[..0]) == {}
  {}

  lemma QueuedSplit(pending: seq<PackRange>, n: nat)
    requires n < |pending|
    ensures QueuedTargets(pending[..n + 1]) == QueuedTargets(pending[..n]) + {pending[n].target}
    ensures QueuedTargets(pending[..n + 1]) <= QueuedTargets(pending)
  {
    forall t | t in QueuedTargets(pending[..n + 1])
      ensures t in QueuedTargets(pending[..n]) + {pending[n].target} && t in QueuedTargets(pending) {
      var i :| 0 <= i < n + 1 && pending[..n + 1][i].target == t;
      assert pending[i].target == t;
      if i < n { assert pending[..n][i].target == t; }
    }
    forall t | t in QueuedTargets(pending[..n]) ensures t in QueuedTargets(pending[..n + 1]) {
      var i :| 0 <= i < n && pending[..n][i].target == t;
      assert pending[..n + 1][i].target == t;
    }
    assert pending[..n + 1][n].target == pending[n].target;
  }

  lemma TargetSelected(selected: Selection, row: PackRange)
    requires row.hash in selected && selected[row.hash].range == row
    ensures row.target in SelectedTargets(selected)
  {}

  lemma TargetAdded(selected: Selection, row: PackRange, frame: PackFrame)
    requires row.hash !in selected
    ensures SelectedTargets(selected[row.hash := Planned(row, frame)]) == SelectedTargets(selected) + {row.target}
  {
    var grown := selected[row.hash := Planned(row, frame)];
    assert grown[row.hash].range.target == row.target;
    forall t | t in SelectedTargets(selected) ensures t in SelectedTargets(grown) {
      var h :| h in selected && selected[h].range.target == t;
      assert grown[h].range.target == t;
    }
  }

  lemma DrainedMore(selected0: Selection, selected: Selection, grown: Selection, pending: seq<PackRange>, n: nat)
    requires SamePrefix(selected0, selected) && n < |pending| && Drained(selected, pending[..n])
    requires pending[n].hash in grown && grown[pending[n].hash].range == pending[n]
    requires forall x :: x in selected ==> x in grown && grown[x] == selected[x]
    ensures SamePrefix(selected0, grown) && Drained(grown, pending[..n + 1])
  {
    var more := pending[..n + 1];
    forall i | 0 <= i < |more| ensures more[i].hash in grown && grown[more[i].hash].range == more[i] {
      if i < n { assert pending[..n][i] == more[i]; }
    }
  }

  /** The parts of the invariant that the loop body needs by itself. */
  lemma PlanningParts(k: Contract, store: PullStore, head: Id, known: Id, selected: Selection,
                      commitPacks: CommitPacks, pending: seq<PackRange>)
    requires Planning(k, store, head, known, selected, commitPacks, pending)
    ensures SelectedRows(k, store, selected) && Indexed(k, selected, commitPacks)
            && BasesCovered(selected, pending, known)
    ensures |pending| > 0 ==> IsRow(store, pending[0])
  {
    hide SelectedRows;
    hide Indexed;
    hide BasesCovered;
  }

  lemma Unreadable(k: Contract, store: PullStore, row: PackRange, s: set<Id>)
    requires IsRow(store, row) && Read(k, store, row).None? && row.target in s
    ensures !Readable(k, store, s)
  {
    hide Read;
    assert RowFrame(k, store, row.target).None?;
  }

  /** The loop over `pending`: every queued pack ends up selected, unless one is unreadable or clashes. */
  method Drain(k: Contract, store: PullStore, ghost head: Id, ghost known: Id,
               selected0: Selection, commitPacks0: CommitPacks, pending0: seq<PackRange>)
    returns (r: Result<(Selection, CommitPacks), PullError>)
    requires RangesValid(store) && Planning(k, store, head, known, selected0, commitPacks0, pending0)
    ensures r.Err? ==> r.error == InvalidPack || r.error == CommitInTwoPacks
    ensures r == Err(InvalidPack) ==> !Readable(k, store, SelectedTargets(selected0) + QueuedTargets(pending0))
    ensures r == Err(CommitInTwoPacks) ==> !Disjoint(k, store, SelectedTargets(selected0) + QueuedTargets(pending0))
    ensures r.Ok? ==> Planning(k, store, head, known, r.value.0, r.value.1, []) && SamePrefix(selected0, r.value.0)
    ensures r.Ok? ==> Drained(r.value.0, pending0)
    ensures r.Ok? ==> SelectedTargets(r.value.0) == SelectedTargets(selected0) + QueuedTargets(pending0)
  {
    hide Identity;
    hide Read;
    hide Indexed;
    hide Readable;
    hide Disjoint;
    hide BasesCovered;
    hide AllJustified;
    hide Spanned;
    hide LinkedStore;
    hide Planning;
    hide RangesValid;
    hide SelectedRows;
    hide Drained;
    hide SamePrefix;
    hide Clashes;
    hide SelectedTargets;
    hide QueuedTargets;
    NothingDrained(selected0, pending0);
    ghost var wanted := SelectedTargets(selected0) + QueuedTargets(pending0);
    var selected, commitPacks, pending := selected0, commitPacks0, pending0;
    ghost var done: nat := 0;
    while |pending| > 0
      invariant done + |pending| == |pending0| && pending == pending0[done..]
      invariant Planning(k, store, head, known, selected, commitPacks, pending)
      invariant SamePrefix(selected0, selected)
      invariant Drained(selected, pending0[..done])
      invariant SelectedTargets(selected) == SelectedTargets(selected0) + QueuedTargets(pending0[..done])
      decreases |pending|
    {
      var row := pending[0];
      QueuedSplit(pending0, done);
      assert pending0[..done + 1] == pending0[..done] + [row];
      assert pending[1..] == pending0[done + 1..];
      PlanningParts(k, store, head, known, selected, commitPacks, pending);
      if row.hash in selected {
        SkipSelected(k, store, head, known, selected, commitPacks, pending);
        TargetSelected(selected, row);
        DrainedMore(selected0, selected, selected, pending0, done);
        pending, done := pending[1..], done + 1;
        continue;
      }
      var frame := ReadV2PackFrame(k, store, row);
      if frame.None? {
        Unreadable(k, store, row, wanted);
        return Err(InvalidPack);
      }
      ReadFacts(k, store, row);
      var index := IndexCommits(k, commitPacks, frame.value, row.hash);
      if index.None? {
        ClashIsShared(k, store, selected, commitPacks, row, frame.value, wanted);
        return Err(CommitInTwoPacks);
      }
      IndexGrows(k, selected, commitPacks, row, frame.value, index.value);
      SelectNew(k, store, head, known, selected, commitPacks, pending, frame.value, index.value);
      DrainedMore(selected0, selected, selected[row.hash := Planned(row, frame.value)], pending0, done);
      TargetAdded(selected, row, frame.value);
      selected := selected[row.hash := Planned(row, frame.value)];
      commitPacks := index.value;
      pending, done := pending[1..], done + 1;
    }
    assert pending == [] && pending0[..done] == pending0;
    return Ok((selected, commitPacks));
  }

  // ----- missing merge parents ----------------------------------------------------------

  /** A merge parent the client will have: supplied by a selected pack, or part of the known history. */
  ghost predicate Met(store: PullStore, commitPacks: CommitPacks, known: Id, m: CommitIdentity) {
    m.format == COMMIT_FORMAT_V2 && (m in commitPacks || m.id == known || KnownHas(store, known, m.id))
  }

  /** The missing merge parents of one frame, added to `missing0`. */
  method FrameMissing(store: PullStore, commitPacks: CommitPacks, known: Id, f: PackFrame,
                      missing0: set<CommitIdentity>)
    returns (r: Option<set<CommitIdentity>>)
    ensures r.None? ==> exists m :: m in MergeParents(f) && m.format != COMMIT_FORMAT_V2
    ensures r.Some? ==> missing0 <= r.value
    ensures r.Some? ==> forall m :: m in MergeParents(f) ==> Met(store, commitPacks, known, m) || m in r.value
    ensures r.Some? ==> forall m :: m in r.value ==>
              m in missing0 || (m in MergeParents(f) && m.format == COMMIT_FORMAT_V2
                                && !Met(store, commitPacks, known, m))
  {
    hide Reaches;
    var missing := missing0;
    for i := 0 to |f.commits|
      invariant missing0 <= missing
      invariant forall a, j :: 0 <= a < i && 1 <= j < |f.commits[a].parents| ==>
                  Met(store, commitPacks, known, f.commits[a].parents[j]) || f.commits[a].parents[j] in missing
      invariant forall m :: m in missing ==>
                  m in missing0 || (m in MergeParents(f) && m.format == COMMIT_FORMAT_V2
                                    && !Met(store, commitPacks, known, m))
    {
      var parents := f.commits[i].parents;
      if |parents| < 2 { continue; }
      for j := 1 to |parents|
        invariant missing0 <= missing
        invariant forall a, b :: 0 <= a < i && 1 <= b < |f.commits[a].parents| ==>
                    Met(store, commitPacks, known, f.commits[a].parents[b]) || f.commits[a].parents[b] in missing
        invariant forall b :: 1 <= b < j ==> Met(store, commitPacks, known, parents[b]) || parents[b] in missing
        invariant forall m :: m in missing ==>
                    m in missing0 || (m in MergeParents(f) && m.format == COMMIT_FORMAT_V2
                                      && !Met(store, commitPacks, known, m))
      {
        var parent := parents[j];
        assert f.commits[i].parents[j] in MergeParents(f);
        if parent.format != COMMIT_FORMAT_V2 {
          return None;
        }
        if parent in commitPacks || parent.id == known {
          continue;
        }
        if known != "" {
          var contained := Ancestry.IsAncestor(store.commits, parent.id, known);
          if contained {
            continue;
          }
        }
        missing := missing + {parent};
      }
    }
    return Some(missing);
  }

  /** Each of these merge parents of selected packs is a V2 commit that no selected pack supplies. */
  ghost predicate AskedFor(selected: Selection, commitPacks: CommitPacks, missing: set<CommitIdentity>) {
    forall m :: m in missing ==>
      m.format == COMMIT_FORMAT_V2 && m !in commitPacks
        && exists h :: h in selected && m in MergeParents(selected[h].frame)
  }

  /** The scan over all selected frames, in arbitrary map order. */
  method FindMissing(ghost k: Contract, store: PullStore, selected: Selection, commitPacks: CommitPacks, known: Id)
    returns (r: Result<set<CommitIdentity>, PullError>)
    requires SelectedRows(k, store, selected)
    ensures r.Err? ==> r.error == MergeParentNotV2 && !MergesV2(k, store, SelectedTargets(selected))
    ensures r.Ok? ==> forall h, m :: h in selected && m in MergeParents(selected[h].frame) ==>
              Met(store, commitPacks, known, m) || m in r.value
    ensures r.Ok? ==>
            AskedFor(selected, commitPacks, r.value) && forall m :: m in r.value ==> !Met(store, commitPacks, known, m)
  {
    hide Read;
    hide Reaches;
    var missing: set<CommitIdentity> := {};
    var hashes := selected.Keys;
    while hashes != {}
      invariant hashes <= selected.Keys
      invariant forall h, m :: h in selected && h !in hashes && m in MergeParents(selected[h].frame) ==>
                  Met(store, commitPacks, known, m) || m in missing
      invariant AskedFor(selected, commitPacks, missing)
      invariant forall m :: m in missing ==> !Met(store, commitPacks, known, m)
      decreases hashes
    {
      var h :| h in hashes;
      hashes := hashes - {h};
      var more := FrameMissing(store, commitPacks, known, selected[h].frame, missing);
      if more.None? {
        var m :| m in MergeParents(selected[h].frame) && m.format != COMMIT_FORMAT_V2;
        assert RowFrame(k, store, selected[h].range.target) == Some(selected[h].frame);
        assert m in RowMerges(k, store, selected[h].range.target);
        return Err(MergeParentNotV2);
      }
      missing := more.value;
    }
    return Ok(missing);
  }

  /** The scan finds exactly the merge parents that the round lacks. */
  lemma FoundMissing(k: Contract, store: PullStore, selected: Selection, commitPacks: CommitPacks, known: Id,
                     missing: set<CommitIdentity>)
    requires RangesValid(store) && SelectedRows(k, store, selected) && Indexed(k, selected, commitPacks)
    requires forall h, m :: h in selected && m in MergeParents(selected[h].frame) ==>
               Met(store, commitPacks, known, m) || m in missing
    requires AskedFor(selected, commitPacks, missing) && forall m :: m in missing ==> !Met(store, commitPacks, known, m)
    ensures MergesV2(k, store, SelectedTargets(selected))
    ensures missing == Missing(k, store, known, SelectedTargets(selected))
  {
    hide Ids;
    hide Read;
    hide KnownHas;
    hide MergeParents;
    SelectionFacts(k, store, selected, commitPacks);
    hide Indexed;
    hide Supplied;
    hide RowIds;
    hide Readable;
    hide Disjoint;
    var s := SelectedTargets(selected);
    forall t, m | t in s && m in RowMerges(k, store, t)
      ensures m.format == COMMIT_FORMAT_V2 && (WillHave(k, store, known, s, m) || m in missing)
    {
      var h := SelectedHash(k, store, selected, t);
      assert m in MergeParents(selected[h].frame);
    }
    forall m | m in missing ensures m in Missing(k, store, known, s) {
      var h :| h in selected && m in MergeParents(selected[h].frame);
      assert m in RowMerges(k, store, selected[h].range.target);
    }
  }

  /** Rows that may be appended to the queue: whole chains, each starting at a missing merge parent. */
  ghost predicate Chains(store: PullStore, missing: set<CommitIdentity>, rows: seq<PackRange>) {
    forall i :: 0 <= i < |rows| ==> ChainRow(store, missing, rows, i)
  }

  ghost predicate ChainRow(store: PullStore, missing: set<CommitIdentity>, rows: seq<PackRange>, i: nat)
    requires i < |rows|
  {
    && IsRow(store, rows[i])
    && (V2(rows[i].target) in missing || (i > 0 && rows[i - 1].base == rows[i].target && rows[i].target != ""))
    && (rows[i].base == "" || (i + 1 < |rows| && rows[i + 1].target == rows[i].base))
  }

  lemma ChainsAppend(store: PullStore, missing: set<CommitIdentity>, rows: seq<PackRange>, head: Id,
                     more: seq<PackRange>)
    requires Chains(store, missing, rows) && V2(head) in missing
    requires ChainRows(store, head, "", more) && ValidChain(more, head, "")
    ensures Chains(store, missing, rows + more)
  {
    var all := rows + more;
    assert forall i :: 0 <= i < |more| ==> all[|rows| + i] == more[i];
    forall i | 0 <= i < |all| ensures ChainRow(store, missing, all, i) {
      if i < |rows| {
        assert ChainRow(store, missing, rows, i);
      } else {
        assert IsRow(store, more[i - |rows|]);
      }
    }
  }

  /** The rows of the chains below these commits. */
  ghost function ChainUnion(store: PullStore, ids: seq<Id>): set<Id> {
    set j, t | 0 <= j < |ids| && t in ChainSet(store, ids[j], "") :: t
  }

  lemma UnionGrows(store: PullStore, ids: seq<Id>, i: nat)
    requires i < |ids|
    ensures ChainUnion(store, ids[..i + 1]) == ChainUnion(store, ids[..i]) + ChainSet(store, ids[i], "")
  {
    hide ChainSet;
    var more, some := ids[..i + 1], ids[..i];
    assert more[i] == ids[i];
    forall t | t in ChainUnion(store, some) ensures t in ChainUnion(store, more) {
      var j :| 0 <= j < i && t in ChainSet(store, some[j], "");
      assert more[j] == some[j];
    }
    forall t | t in ChainUnion(store, more) ensures t in ChainUnion(store, some) + ChainSet(store, ids[i], "") {
      var j :| 0 <= j < i + 1 && t in ChainSet(store, more[j], "");
      if j < i { assert some[j] == more[j]; }
    }
  }

  /** The list of ids stands for the missing merge parents. */
  ghost predicate Lists(ids: seq<Id>, missing: set<CommitIdentity>) {
    && (forall m :: m in missing ==> m.format == COMMIT_FORMAT_V2)
    && (forall id :: id in ids <==> exists m :: m in missing && m.id == id)
  }

  lemma Listed(ids: seq<Id>, missing: set<CommitIdentity>, i: nat)
    requires Lists(ids, missing) && i < |ids|
    ensures V2(ids[i]) in missing && V2(ids[i]).id == ids[i]
  {
    assert ids[i] in ids;
    var m :| m in missing && m.id == ids[i];
    assert m == V2(ids[i]);
  }

  /** The chains of the first ids are complete and queued. */
  ghost predicate Queued(store: PullStore, missing: set<CommitIdentity>, ids: seq<Id>, pending: seq<PackRange>) {
    && Chains(store, missing, pending) && QueuedTargets(pending) == ChainUnion(store, ids)
    && forall j :: 0 <= j < |ids| ==> ChainComplete(store, ids[j], "") && ids[j] in QueuedTargets(pending)
  }

  lemma QueuedMore(store: PullStore, missing: set<CommitIdentity>, ids: seq<Id>, i: nat, pending: seq<PackRange>,
                   rows: seq<PackRange>)
    requires i < |ids| && Queued(store, missing, ids[..i], pending) && V2(ids[i]) in missing
    requires ChainRows(store, ids[i], "", rows) && ValidChain(rows, ids[i], "")
    ensures Queued(store, missing, ids[..i + 1], pending + rows)
  {
    hide *;
    QueuedParts(store, missing, ids[..i], pending);
    UnionGrows(store, ids, i);
    ChainTargetsQueued(store, ids[i], "", rows);
    ChainValid(store, ids[i], "", rows);
    ChainsAppend(store, missing, pending, ids[i], rows);
    QueuedConcat(pending, rows);
    var more := ids[..i + 1];
    forall j | 0 <= j < |more| ensures ChainComplete(store, more[j], "") && more[j] in QueuedTargets(pending + rows) {
      if j < i {
        assert ids[..i][j] == more[j];
      }
    }
    QueuedFrom(store, missing, more, pending + rows);
  }

  lemma QueuedParts(store: PullStore, missing: set<CommitIdentity>, ids: seq<Id>, pending: seq<PackRange>)
    requires Queued(store, missing, ids, pending)
    ensures Chains(store, missing, pending) && QueuedTargets(pending) == ChainUnion(store, ids)
    ensures forall j :: 0 <= j < |ids| ==> ChainComplete(store, ids[j], "") && ids[j] in QueuedTargets(pending)
  {
    hide Chains;
    hide QueuedTargets;
    hide ChainUnion;
    hide ChainComplete;
  }

  lemma QueuedFrom(store: PullStore, missing: set<CommitIdentity>, ids: seq<Id>, pending: seq<PackRange>)
    requires Chains(store, missing, pending) && QueuedTargets(pending) == ChainUnion(store, ids)
    requires forall j :: 0 <= j < |ids| ==> ChainComplete(store, ids[j], "") && ids[j] in QueuedTargets(pending)
    ensures Queued(store, missing, ids, pending)
  {
    hide Chains;
    hide QueuedTargets;
    hide ChainUnion;
    hide ChainComplete;
  }

  /** Queues the whole first-parent chain of every missing merge parent, in id order. */
  method Expand(store: PullStore, missing: set<CommitIdentity>) returns (r: Result<seq<PackRange>, PullError>)
    requires RangesValid(store) && ChainsEnd(store) && forall m :: m in missing ==> m.format == COMMIT_FORMAT_V2
    ensures r.Err? ==> r.error == IncompleteChain && exists m :: m in missing && !ChainComplete(store, m.id, "")
    ensures r.Ok? ==> (forall m :: m in missing ==> ChainComplete(store, m.id, "")) && Chains(store, missing, r.value)
    ensures r.Ok? ==> QueuedTargets(r.value) == ChainsOf(store, missing)
    ensures r.Ok? ==> forall m :: m in missing ==> exists i :: 0 <= i < |r.value| && r.value[i].target == m.id
  {
    var parentIDs := Ordering.ToSortedSeq(set m | m in missing :: m.id);
    assert Lists(parentIDs, missing);
    hide *;
    var pending: seq<PackRange> := [];
    NothingQueued(store, missing);
    assert parentIDs[..0] == [];
    for i := 0 to |parentIDs|
      invariant Queued(store, missing, parentIDs[..i], pending)
    {
      var parentID := parentIDs[i];
      Listed(parentIDs, missing, i);
      MissingChainEnds(store, parentID);
      var rows := GetPackRanges(store, parentID, "");
      ChainValid(store, parentID, "", rows);
      var ok := ValidatePackChain(rows, parentID, "");
      if !ok {
        return Err(IncompleteChain);
      }
      QueuedMore(store, missing, parentIDs, i, pending, rows);
      pending := pending + rows;
    }
    assert parentIDs[..|parentIDs|] == parentIDs;
    QueuedParts(store, missing, parentIDs, pending);
    ExpansionComplete(store, missing, parentIDs, pending);
    return Ok(pending);
  }

  lemma ExpansionComplete(store: PullStore, missing: set<CommitIdentity>, ids: seq<Id>, pending: seq<PackRange>)
    requires Lists(ids, missing) && QueuedTargets(pending) == ChainUnion(store, ids)
    requires forall j :: 0 <= j < |ids| ==> ChainComplete(store, ids[j], "") && ids[j] in QueuedTargets(pending)
    ensures forall m :: m in missing ==> ChainComplete(store, m.id, "")
    ensures QueuedTargets(pending) == ChainsOf(store, missing)
    ensures forall m :: m in missing ==> exists i :: 0 <= i < |pending| && pending[i].target == m.id
  {
    hide ChainSet;
    hide ChainComplete;
    forall m | m in missing
      ensures ChainComplete(store, m.id, "") && exists i :: 0 <= i < |pending| && pending[i].target == m.id
    {
      assert m.id in ids;
    }
    forall t ensures t in ChainUnion(store, ids) <==> t in ChainsOf(store, missing) {
      if m :| m in missing && t in ChainSet(store, m.id, "") {
        assert m.id in ids;
      }
      if j :| 0 <= j < |ids| && t in ChainSet(store, ids[j], "") {
        Listed(ids, missing, j);
      }
    }
  }

  lemma NothingQueued(store: PullStore, missing: set<CommitIdentity>)
    ensures Queued(store, missing, [], [])
  {}

  lemma MissingChainEnds(store: PullStore, head: Id)
    requires ChainsEnd(store)
    ensures ChainEnds(store, head, "")
  {
    if head !in store.ranges {
      assert ChainRows(store, head, "", []);
    }
  }

  lemma ChainTargetsQueued(store: PullStore, head: Id, stop: Id, rows: seq<PackRange>)
    requires ChainRows(store, head, stop, rows)
    ensures QueuedTargets(rows) == ChainSet(store, head, stop)
    ensures ValidChain(rows, head, stop) ==> head in QueuedTargets(rows)
  {
    hide ChainSet;
    hide ChainRows;
    ChainTargets(store, head, stop, rows);
  }

  lemma QueuedConcat(a: seq<PackRange>, b: seq<PackRange>)
    ensures QueuedTargets(a + b) == QueuedTargets(a) + QueuedTargets(b)
  {
    forall t | t in QueuedTargets(a) ensures t in QueuedTargets(a + b) {
      var i :| 0 <= i < |a| && a[i].target == t;
      assert (a + b)[i].target == t;
    }
    forall t | t in QueuedTargets(b) ensures t in QueuedTargets(a + b) {
      var i :| 0 <= i < |b| && b[i].target == t;
      assert (a + b)[|a| + i].target == t;
    }
  }

  /** The queue of the next round: the selected packs stay covered and the new rows are justified. */
  lemma QueueReady(k: Contract, store: PullStore, head: Id, known: Id, selected: Selection, commitPacks: CommitPacks,
                  missing: set<CommitIdentity>, pending: seq<PackRange>)
    requires Planning(k, store, head, known, selected, commitPacks, [])
    requires AskedFor(selected, commitPacks, missing)
    requires Chains(store, missing, pending)
    ensures Planning(k, store, head, known, selected, commitPacks, pending)
  {
    hide Indexed;
    hide Read;
    forall i | 0 <= i < |pending| ensures Justified(selected, pending, head, i) {
      var m := V2(pending[i].target);
      assert ChainRow(store, missing, pending, i);
      if m in missing {
        var h :| h in selected && m in MergeParents(selected[h].frame);
        assert m in AllParents(selected[h].frame);
        assert NeededBySelected(selected, pending[i].target);
      }
    }
    BasesFromChains(store, known, selected, missing, pending);
    forall i | 0 <= i < |pending| ensures IsRow(store, pending[i]) {
      assert ChainRow(store, missing, pending, i);
    }
  }

  lemma BasesFromChains(store: PullStore, known: Id, selected: Selection, missing: set<CommitIdentity>,
                        pending: seq<PackRange>)
    requires BasesCovered(selected, [], known) && Chains(store, missing, pending)
    ensures BasesCovered(selected, pending, known)
  {
    assert forall h :: h in selected ==> BaseCovered(selected, [], known, selected[h].range.base);
    forall i | 0 <= i < |pending| ensures Continues(pending, known, i) {
      assert ChainRow(store, missing, pending, i);
    }
  }

  /** A pack chain that starts at a missing merge parent starts with a pack not selected yet. */
  lemma ExpansionSelectsMore(k: Contract, store: PullStore, selected: Selection, commitPacks: CommitPacks,
                             m: CommitIdentity, row: PackRange)
    requires RangesValid(store) && SelectedRows(k, store, selected) && Indexed(k, selected, commitPacks)
    requires m.format == COMMIT_FORMAT_V2 && m !in commitPacks && IsRow(store, row) && row.target == m.id
    ensures row.hash !in selected
  {
    hide Identity;
    hide Read;
    assert m == V2(row.target);
    if row.hash in selected {
      assert selected[row.hash].range == row;
      ReadFacts(k, store, row);
    }
  }

  /** Once a row is selected its target is supplied. */
  lemma SelectedSupplies(k: Contract, store: PullStore, selected: Selection, commitPacks: CommitPacks, row: PackRange)
    requires SelectedRows(k, store, selected) && Indexed(k, selected, commitPacks)
    requires row.hash in selected && selected[row.hash].range == row
    ensures V2(row.target) in commitPacks
  {
    hide Identity;
    hide Read;
    ReadFacts(k, store, row);
  }

  // ----- ordering -----------------------------------------------------------------------

  /** A pack depends on the other selected packs that carry parents of its commits. */
  function PackDeps(selected: Selection, commitPacks: CommitPacks): Dependencies {
    map h | h in selected ::
      set p | p in AllParents(selected[h].frame) && p in commitPacks && commitPacks[p] != h :: commitPacks[p]
  }

  /** A plan: which rows are sent, what they supply, and that every parent pack precedes its child. */
  ghost predicate PlanOk(k: Contract, store: PullStore, head: Id, known: Id, plan: seq<PackRange>) {
    && (forall i :: 0 <= i < |plan| ==> IsRow(store, plan[i]) && Read(k, store, plan[i]).Some?)
    && (forall i, j :: 0 <= i < j < |plan| ==> plan[i].hash != plan[j].hash)
    && (forall i, j, id :: 0 <= i < |plan| && 0 <= j < |plan| && i != j
                           && id in Ids(k, Read(k, store, plan[i]).value) ==>
          id !in Ids(k, Read(k, store, plan[j]).value))
    && (forall i, m :: 0 <= i < |plan| && m in MergeParents(Read(k, store, plan[i]).value) ==>
          m.format == COMMIT_FORMAT_V2 && (Carried(k, store, plan, m) || m.id == known || KnownHas(store, known, m.id)))
    && (forall i :: 0 <= i < |plan| ==> plan[i].base == "" || plan[i].base == known || PlanTargets(plan, plan[i].base))
    && (forall i, j, p :: 0 <= i < |plan| && 0 <= j < |plan| && i != j &&
                          p in AllParents(Read(k, store, plan[i]).value)
                            && p in Ids(k, Read(k, store, plan[j]).value) ==>
          j < i)
    && PlanTargets(plan, head)
    && (LinkedStore(k, store) ==> plan[|plan| - 1].target == head)
  }

  ghost predicate PlanTargets(plan: seq<PackRange>, t: Id) {
    exists i :: 0 <= i < |plan| && plan[i].target == t
  }

  ghost predicate Carried(k: Contract, store: PullStore, plan: seq<PackRange>, id: CommitIdentity) {
    exists i :: 0 <= i < |plan| && Read(k, store, plan[i]).Some? && id in Ids(k, Read(k, store, plan[i]).value)
  }

  /** The fixpoint has been reached: all merge parents of selected packs are met. */
  ghost predicate Saturated(store: PullStore, known: Id, selected: Selection, commitPacks: CommitPacks) {
    forall h, m :: h in selected && m in MergeParents(selected[h].frame) ==> Met(store, commitPacks, known, m)
  }

  ghost predicate PlanFor(selected: Selection, order: seq<Hash>, plan: seq<PackRange>) {
    |plan| == |order| && forall i :: 0 <= i < |order| ==> order[i] in selected && plan[i] == selected[order[i]].range
  }

  lemma DepsWellFormed(k: Contract, selected: Selection, commitPacks: CommitPacks)
    requires Indexed(k, selected, commitPacks)
    ensures WellFormed(PackDeps(selected, commitPacks))
  {}

  /** Needed packs are dependencies, so the head's pack is emitted last. */
  lemma HeadEmittedLast(k: Contract, store: PullStore, selected: Selection, commitPacks: CommitPacks, order: seq<Hash>,
                        top: Hash)
    requires SelectedRows(k, store, selected) && Indexed(k, selected, commitPacks) && Spanned(selected, top)
             && top in selected
    requires Topological(PackDeps(selected, commitPacks), order)
    ensures |order| > 0 && order[|order| - 1] == top
  {
    hide Identity;
    hide Read;
    var deps := PackDeps(selected, commitPacks);
    forall h | h in deps ensures Below(deps, top, h) {
      assert Reached(selected, top, h);
      var walk :| NeedWalk(selected, walk) && |walk| > 0 && walk[0] == top && walk[|walk| - 1] == h;
      forall i | 0 <= i < |walk| - 1 ensures walk[i + 1] in deps[walk[i]] {
        assert Needs(selected, walk[i], walk[i + 1]);
        NeedIsDependency(k, store, selected, commitPacks, walk[i], walk[i + 1]);
      }
      assert WalkTo(deps, top, h, walk);
    }
    TopIsLast(deps, order, top);
  }

  lemma NeedIsDependency(k: Contract, store: PullStore, selected: Selection, commitPacks: CommitPacks, q: Hash, h: Hash)
    requires SelectedRows(k, store, selected) && Indexed(k, selected, commitPacks)
    requires q in selected && h in selected && Needs(selected, q, h)
    ensures h in PackDeps(selected, commitPacks)[q]
  {
    hide Identity;
    hide Read;
    var target := V2(selected[h].range.target);
    ReadFacts(k, store, selected[h].range);
    assert target in commitPacks && commitPacks[target] == h;
  }

  lemma HeadRowSelected(k: Contract, store: PullStore, selected: Selection, head: Id)
    requires RangesValid(store) && SelectedRows(k, store, selected)
    requires head in store.ranges && store.ranges[head].hash in selected
    ensures selected[store.ranges[head].hash].range == store.ranges[head]
  {
    hide Read;
    assert IsRow(store, selected[store.ranges[head].hash].range);
  }

  lemma PlanPosition(selected: Selection, commitPacks: CommitPacks, order: seq<Hash>, h: Hash) returns (i: nat)
    requires Topological(PackDeps(selected, commitPacks), order) && h in selected
    ensures i < |order| && order[i] == h
  {
    assert h in PackDeps(selected, commitPacks);
    assert h in Elements(order);
    i :| 0 <= i < |order| && order[i] == h;
  }

  lemma PlanSupplies(k: Contract, store: PullStore, known: Id, selected: Selection, commitPacks: CommitPacks,
                     order: seq<Hash>, plan: seq<PackRange>, i: nat, m: CommitIdentity)
    requires SelectedRows(k, store, selected) && Indexed(k, selected, commitPacks)
             && Saturated(store, known, selected, commitPacks)
    requires Topological(PackDeps(selected, commitPacks), order) && PlanFor(selected, order, plan)
    requires i < |plan| && m in MergeParents(selected[order[i]].frame)
    ensures m.format == COMMIT_FORMAT_V2
            && (Carried(k, store, plan, m) || m.id == known || KnownHas(store, known, m.id))
  {
    hide Ids;
    hide Read;
    hide Topological;
    assert Met(store, commitPacks, known, m);
    if m in commitPacks {
      var j := PlanPosition(selected, commitPacks, order, commitPacks[m]);
      assert Read(k, store, plan[j]) == Some(selected[order[j]].frame);
      assert m in Ids(k, Read(k, store, plan[j]).value);
    }
  }

  lemma PlanBase(k: Contract, store: PullStore, known: Id, selected: Selection, commitPacks: CommitPacks,
                 order: seq<Hash>, plan: seq<PackRange>, i: nat)
    requires BasesCovered(selected, [], known)
    requires Topological(PackDeps(selected, commitPacks), order) && PlanFor(selected, order, plan) && i < |plan|
    ensures plan[i].base == "" || plan[i].base == known || PlanTargets(plan, plan[i].base)
  {
    hide Topological;
    var b := selected[order[i]].range.base;
    if b != "" && b != known {
      var h :| h in selected && selected[h].range.target == b;
      var j := PlanPosition(selected, commitPacks, order, h);
      assert plan[j].target == b;
    }
  }

  lemma PlanParentsFirst(k: Contract, selected: Selection, commitPacks: CommitPacks, order: seq<Hash>, i: nat, j: nat,
                         p: CommitIdentity)
    requires Indexed(k, selected, commitPacks) && Topological(PackDeps(selected, commitPacks), order)
    requires i < |order| && j < |order| && i != j && order[i] in selected && order[j] in selected
    requires p in AllParents(selected[order[i]].frame) && p in Ids(k, selected[order[j]].frame)
    ensures j < i
  {
    hide Ids;
    assert commitPacks[p] == order[j];
    assert order[j] in PackDeps(selected, commitPacks)[order[i]];
    assert order[j] in Elements(order[..i]);
  }

  lemma PlanRows(k: Contract, store: PullStore, selected: Selection, commitPacks: CommitPacks, order: seq<Hash>,
                 plan: seq<PackRange>)
    requires SelectedRows(k, store, selected) && Topological(PackDeps(selected, commitPacks), order)
             && PlanFor(selected, order, plan)
    ensures |plan| == |order| && forall i :: 0 <= i < |plan| ==> order[i] in selected
    ensures forall i :: 0 <= i < |plan| ==>
                        IsRow(store, plan[i]) && Read(k, store, plan[i]) == Some(selected[order[i]].frame)
    ensures forall i, j :: 0 <= i < j < |plan| ==> plan[i].hash != plan[j].hash
    ensures forall i, j :: 0 <= i < j < |plan| ==> order[i] != order[j]
  {
    hide Read;
    hide PackDeps;
  }

  lemma PlanDisjoint(k: Contract, selected: Selection, commitPacks: CommitPacks, order: seq<Hash>, i: nat, j: nat,
                     id: CommitIdentity)
    requires Indexed(k, selected, commitPacks) && i < |order| && j < |order| && order[i] != order[j]
    requires order[i] in selected && order[j] in selected && id in Ids(k, selected[order[i]].frame)
    ensures id !in Ids(k, selected[order[j]].frame)
  {
    hide Ids;
    assert commitPacks[id] == order[i];
  }

  lemma PlanFromOrder(k: Contract, store: PullStore, head: Id, known: Id, selected: Selection,
                      commitPacks: CommitPacks, order: seq<Hash>, plan: seq<PackRange>)
    requires RangesValid(store)
    requires Planning(k, store, head, known, selected, commitPacks, [])
             && Saturated(store, known, selected, commitPacks)
    requires Topological(PackDeps(selected, commitPacks), order) && PlanFor(selected, order, plan)
    ensures PlanOk(k, store, head, known, plan)
  {
    hide *;
    PlanningParts(k, store, head, known, selected, commitPacks, []);
    PlanRows(k, store, selected, commitPacks, order, plan);
    forall i, j, id | 0 <= i < |plan| && 0 <= j < |plan| && i != j && id in Ids(k, Read(k, store, plan[i]).value)
      ensures id !in Ids(k, Read(k, store, plan[j]).value)
    {
      PlanDisjoint(k, selected, commitPacks, order, i, j, id);
    }
    forall i, m | 0 <= i < |plan| && m in MergeParents(Read(k, store, plan[i]).value)
      ensures m.format == COMMIT_FORMAT_V2
              && (Carried(k, store, plan, m) || m.id == known || KnownHas(store, known, m.id))
    {
      PlanSupplies(k, store, known, selected, commitPacks, order, plan, i, m);
    }
    forall i | 0 <= i < |plan| ensures plan[i].base == "" || plan[i].base == known || PlanTargets(plan, plan[i].base) {
      PlanBase(k, store, known, selected, commitPacks, order, plan, i);
    }
    forall i, j, p | 0 <= i < |plan| && 0 <= j < |plan| && i != j
        && p in AllParents(Read(k, store, plan[i]).value) && p in Ids(k, Read(k, store, plan[j]).value)
      ensures j < i
    {
      PlanParentsFirst(k, selected, commitPacks, order, i, j, p);
    }
    PlanHead(k, store, head, known, selected, commitPacks, order, plan);
    PlanAssembled(k, store, head, known, plan);
  }

  lemma PlanAssembled(k: Contract, store: PullStore, head: Id, known: Id, plan: seq<PackRange>)
    requires forall i :: 0 <= i < |plan| ==> IsRow(store, plan[i]) && Read(k, store, plan[i]).Some?
    requires forall i, j :: 0 <= i < j < |plan| ==> plan[i].hash != plan[j].hash
    requires forall i, j, id :: 0 <= i < |plan| && 0 <= j < |plan| && i != j
                                && id in Ids(k, Read(k, store, plan[i]).value) ==>
               id !in Ids(k, Read(k, store, plan[j]).value)
    requires forall i, m :: 0 <= i < |plan| && m in MergeParents(Read(k, store, plan[i]).value) ==>
               m.format == COMMIT_FORMAT_V2 && (Carried(k, store, plan, m) || m.id == known
                                                || KnownHas(store, known, m.id))
    requires forall i :: 0 <= i < |plan| ==>
                         plan[i].base == "" || plan[i].base == known || PlanTargets(plan, plan[i].base)
    requires forall i, j, p :: 0 <= i < |plan| && 0 <= j < |plan| && i != j &&
                               p in AllParents(Read(k, store, plan[i]).value)
                                 && p in Ids(k, Read(k, store, plan[j]).value) ==>
               j < i
    requires PlanTargets(plan, head) && (LinkedStore(k, store) ==> |plan| > 0 && plan[|plan| - 1].target == head)
    ensures PlanOk(k, store, head, known, plan)
  {
    hide IsRow;
    hide Read;
    hide Ids;
    hide MergeParents;
    hide AllParents;
    hide Carried;
    hide KnownHas;
    hide PlanTargets;
    hide LinkedStore;
  }

  lemma PlanHead(k: Contract, store: PullStore, head: Id, known: Id, selected: Selection, commitPacks: CommitPacks,
                 order: seq<Hash>, plan: seq<PackRange>)
    requires RangesValid(store) && Planning(k, store, head, known, selected, commitPacks, [])
    requires Topological(PackDeps(selected, commitPacks), order) && PlanFor(selected, order, plan)
    ensures PlanTargets(plan, head) && |plan| > 0
    ensures LinkedStore(k, store) ==> plan[|plan| - 1].target == head
  {
    hide Identity;
    hide Read;
    hide Topological;
    hide Indexed;
    hide BasesCovered;
    hide AllJustified;
    hide Spanned;
    hide LinkedStore;
    hide PackDeps;
    hide SelectedRows;
    var top := store.ranges[head].hash;
    assert top in selected;
    HeadRowSelected(k, store, selected, head);
    var t := PlanPosition(selected, commitPacks, order, top);
    assert plan[t] == store.ranges[head];
    if LinkedStore(k, store) {
      HeadEmittedLast(k, store, selected, commitPacks, order, top);
    }
  }

  /** orderPullPacks on the selected packs; the emitted order is the least one by hash. */
  method OrderPullPacks(ghost k: Contract, selected: Selection, commitPacks: CommitPacks)
    returns (r: Option<seq<PackRange>>, ghost order: seq<Hash>)
    requires Indexed(k, selected, commitPacks)
    ensures r.None? <==> HasCycle(PackDeps(selected, commitPacks))
    ensures r.Some? ==> Topological(PackDeps(selected, commitPacks), order)
                        && Greedy(PackDeps(selected, commitPacks), order)
    ensures r.Some? ==> PlanFor(selected, order, r.value)
    ensures r.Some? ==> forall other :: Topological(PackDeps(selected, commitPacks), other) ==> LexLeq(order, other)
  {
    DepsWellFormed(k, selected, commitPacks);
    var deps := PackDeps(selected, commitPacks);
    var sorted := TopologicalOrder(deps);
    if sorted.None? {
      order := [];
      return None, order;
    }
    order := sorted.value;
    var plan: seq<PackRange> := [];
    for i := 0 to |sorted.value|
      invariant |plan| == i
      invariant forall j :: 0 <= j < i ==> order[j] in selected && plan[j] == selected[order[j]].range
    {
      plan := plan + [selected[sorted.value[i]].range];
    }
    r := Some(plan);
  }

  // ----- the whole planner --------------------------------------------------------------

  /** Each expanded merge parent is supplied, or its chain is queued. */
  ghost predicate Expanding(selected: Selection, commitPacks: CommitPacks, expanded: set<CommitIdentity>,
                            pending: seq<PackRange>)
  {
    && (forall m :: m in expanded ==> m.format == COMMIT_FORMAT_V2)
    && (forall m :: m in expanded ==> m in commitPacks || exists i :: 0 <= i < |pending| && pending[i].target == m.id)
    && (forall m :: m in expanded ==> exists h :: h in selected && m in MergeParents(selected[h].frame))
  }

  /** After the queue is drained every expanded merge parent is supplied. */
  lemma ExpandedSupplied(k: Contract, store: PullStore, selected0: Selection, commitPacks0: CommitPacks,
                         pending0: seq<PackRange>,
                         selected: Selection, commitPacks: CommitPacks, expanded: set<CommitIdentity>)
    requires Expanding(selected0, commitPacks0, expanded, pending0)
    requires Indexed(k, selected0, commitPacks0)
    requires SelectedRows(k, store, selected) && Indexed(k, selected, commitPacks)
    requires SamePrefix(selected0, selected) && Drained(selected, pending0)
    ensures Expanding(selected, commitPacks, expanded, []) && forall m :: m in expanded ==> m in commitPacks
  {
    hide Read;
    hide Ids;
    forall m | m in expanded ensures m in commitPacks {
      if m in commitPacks0 {
        assert m in Ids(k, selected0[commitPacks0[m]].frame);
        assert m in Ids(k, selected[commitPacks0[m]].frame);
      } else {
        var i :| 0 <= i < |pending0| && pending0[i].target == m.id;
        SelectedSupplies(k, store, selected, commitPacks, pending0[i]);
        assert m == V2(pending0[i].target);
      }
    }
    forall m | m in expanded ensures exists h :: h in selected && m in MergeParents(selected[h].frame) {
      var h :| h in selected0 && m in MergeParents(selected0[h].frame);
      assert h in selected && m in MergeParents(selected[h].frame);
    }
  }

  ghost predicate MoreToSelect(store: PullStore, selected: Selection, pending: seq<PackRange>) {
    exists i :: 0 <= i < |pending| && IsRow(store, pending[i]) && pending[i].hash !in selected
  }

  lemma DrainProgress(store: PullStore, selected0: Selection, pending0: seq<PackRange>, selected: Selection)
    requires MoreToSelect(store, selected0, pending0) && SamePrefix(selected0, selected) && Drained(selected, pending0)
    ensures Unselected(store, selected) < Unselected(store, selected0)
  {
    var i :| 0 <= i < |pending0| && IsRow(store, pending0[i]) && pending0[i].hash !in selected0;
    assert pending0[i].target in Unselected(store, selected0);
    assert pending0[i].target !in Unselected(store, selected);
  }

  datatype Round =
    | Settled(selected: Selection, commitPacks: CommitPacks)
    | Another(selected: Selection, commitPacks: CommitPacks, missing: set<CommitIdentity>, pending: seq<PackRange>)

  /** What one round of the planner leaves: the fixpoint, or a queue that will select more packs. */
  ghost predicate RoundOk(k: Contract, store: PullStore, head: Id, known: Id, selected0: Selection,
                          expanded: set<CommitIdentity>, r: Round)
  {
    && Unselected(store, r.selected) < Unselected(store, selected0)
    && match r
       case Settled(selected, commitPacks) =>
         && Planning(k, store, head, known, selected, commitPacks, [])
         && Saturated(store, known, selected, commitPacks) && Expanding(selected, commitPacks, expanded, [])
       case Another(selected, commitPacks, missing, pending) =>
         && Planning(k, store, head, known, selected, commitPacks, pending)
         && Expanding(selected, commitPacks, expanded + missing, pending) && MoreToSelect(store, selected, pending)
         && missing != {} && missing * expanded == {}
  }

  /** A round over the rows `s` ends with all of them selected; it settles exactly if they lack no merge parent. */
  ghost predicate RoundTracks(k: Contract, store: PullStore, known: Id, s: set<Id>, r: Round) {
    && SelectedTargets(r.selected) == s
    && Readable(k, store, s) && Disjoint(k, store, s) && MergesV2(k, store, s)
    && match r
       case Settled(_, _) => Missing(k, store, known, s) == {}
       case Another(selected, _, _, pending) =>
         && Fetchable(k, store, known, s) && Missing(k, store, known, s) != {}
         && s + QueuedTargets(pending) == NextRound(k, store, known, s)
  }

  /** What the first round with a fault reports. */
  ghost predicate RoundFault(k: Contract, store: PullStore, known: Id, s: set<Id>, e: PullError) {
    || (e == InvalidPack && !Readable(k, store, s))
    || (e == CommitInTwoPacks && !Disjoint(k, store, s))
    || (e == MergeParentNotV2 && Readable(k, store, s) && Disjoint(k, store, s) && !MergesV2(k, store, s))
    || (e == IncompleteChain && Readable(k, store, s) && Disjoint(k, store, s) && MergesV2(k, store, s)
        && !Fetchable(k, store, known, s))
  }

  lemma FaultFails(k: Contract, store: PullStore, known: Id, s: set<Id>, e: PullError)
    requires RoundFault(k, store, known, s, e)
    ensures Fails(k, store, known, s, e)
  {
    hide Readable;
    hide Disjoint;
    hide MergesV2;
    hide Fetchable;
    hide NextRound;
  }

  /** One round: drain the queue, look for missing merge parents, queue their chains. The source's
      "not supplied by its history packs" error is the dead branch: an expanded parent is always supplied. */
  method PlanRound(k: Contract, store: PullStore, ghost head: Id, known: Id,
                   selected0: Selection, commitPacks0: CommitPacks, pending0: seq<PackRange>,
                     expanded: set<CommitIdentity>)
    returns (r: Result<Round, PullError>)
    requires RangesValid(store) && ChainsEnd(store)
    requires Planning(k, store, head, known, selected0, commitPacks0, pending0)
    requires Expanding(selected0, commitPacks0, expanded, pending0) && MoreToSelect(store, selected0, pending0)
    ensures r.Ok? ==> RoundOk(k, store, head, known, selected0, expanded, r.value)
    ensures r.Ok? ==> RoundTracks(k, store, known, SelectedTargets(selected0) + QueuedTargets(pending0), r.value)
    ensures r.Err? ==> RoundFault(k, store, known, SelectedTargets(selected0) + QueuedTargets(pending0), r.error)
  {
    hide *;
    ghost var s := SelectedTargets(selected0) + QueuedTargets(pending0);
    PlanningIndexed(k, store, head, known, selected0, commitPacks0, pending0);
    var drained := Drain(k, store, head, known, selected0, commitPacks0, pending0);
    if drained.Err? {
      PackFault(k, store, known, s, drained.error);
      return Err(drained.error);
    }
    var selected, commitPacks := drained.value.0, drained.value.1;
    PlanningIndexed(k, store, head, known, selected, commitPacks, []);
    SelectionFacts(k, store, selected, commitPacks);
    DrainProgress(store, selected0, pending0, selected);
    ExpandedSupplied(k, store, selected0, commitPacks0, pending0, selected, commitPacks, expanded);
    var found := FindMissing(k, store, selected, commitPacks, known);
    if found.Err? {
      MergeFault(k, store, known, s);
      return Err(found.error);
    }
    var missing := found.value;
    FoundMissing(k, store, selected, commitPacks, known, missing);
    if missing == {} {
      NothingMissing(store, known, selected, commitPacks, missing);
      SettledOk(k, store, head, known, selected0, selected, commitPacks, expanded);
      SettledTracks(k, store, known, s, selected, commitPacks);
      return Ok(Settled(selected, commitPacks));
    }
    NewlyMissing(selected, commitPacks, missing, expanded);
    if missing * expanded != {} {
      assert false;
    }
    var queued := Expand(store, missing);
    if queued.Err? {
      ChainFault(k, store, known, s);
      return Err(queued.error);
    }
    QueueReady(k, store, head, known, selected, commitPacks, missing, queued.value);
    ExpansionQueued(k, store, selected, commitPacks, missing, expanded, queued.value);
    AnotherOk(k, store, head, known, selected0, selected, commitPacks, expanded, missing, queued.value);
    AnotherTracks(k, store, known, s, selected, commitPacks, missing, queued.value);
    return Ok(Another(selected, commitPacks, missing, queued.value));
  }

  lemma PackFault(k: Contract, store: PullStore, known: Id, s: set<Id>, e: PullError)
    requires (e == InvalidPack && !Readable(k, store, s)) || (e == CommitInTwoPacks && !Disjoint(k, store, s))
    ensures RoundFault(k, store, known, s, e)
  {
    hide Readable;
    hide Disjoint;
    hide MergesV2;
    hide Fetchable;
  }

  lemma MergeFault(k: Contract, store: PullStore, known: Id, s: set<Id>)
    requires Readable(k, store, s) && Disjoint(k, store, s) && !MergesV2(k, store, s)
    ensures RoundFault(k, store, known, s, MergeParentNotV2)
  {
    hide Readable;
    hide Disjoint;
    hide MergesV2;
    hide Fetchable;
  }

  lemma ChainFault(k: Contract, store: PullStore, known: Id, s: set<Id>)
    requires Readable(k, store, s) && Disjoint(k, store, s) && MergesV2(k, store, s)
    requires exists m :: m in Missing(k, store, known, s) && !ChainComplete(store, m.id, "")
    ensures RoundFault(k, store, known, s, IncompleteChain)
  {
    hide Readable;
    hide Disjoint;
    hide MergesV2;
    hide Missing;
    hide ChainComplete;
  }

  lemma SettledTracks(k: Contract, store: PullStore, known: Id, s: set<Id>, selected: Selection,
                      commitPacks: CommitPacks)
    requires SelectedTargets(selected) == s && Readable(k, store, s) && Disjoint(k, store, s) && MergesV2(k, store, s)
    requires Missing(k, store, known, s) == {}
    ensures RoundTracks(k, store, known, s, Settled(selected, commitPacks))
  {
    hide Readable;
    hide Disjoint;
    hide MergesV2;
    hide Missing;
    hide SelectedTargets;
  }

  lemma AnotherTracks(k: Contract, store: PullStore, known: Id, s: set<Id>, selected: Selection,
                      commitPacks: CommitPacks,
                      missing: set<CommitIdentity>, pending: seq<PackRange>)
    requires SelectedTargets(selected) == s && Readable(k, store, s) && Disjoint(k, store, s) && MergesV2(k, store, s)
    requires missing == Missing(k, store, known, s) && missing != {}
    requires forall m :: m in missing ==> ChainComplete(store, m.id, "")
    requires QueuedTargets(pending) == ChainsOf(store, missing)
    ensures RoundTracks(k, store, known, s, Another(selected, commitPacks, missing, pending))
  {
    hide Readable;
    hide Disjoint;
    hide MergesV2;
    hide Missing;
    hide SelectedTargets;
    hide QueuedTargets;
    hide ChainComplete;
    hide ChainsOf;
  }

  lemma PlanningIndexed(k: Contract, store: PullStore, head: Id, known: Id, selected: Selection,
                        commitPacks: CommitPacks, pending: seq<PackRange>)
    requires Planning(k, store, head, known, selected, commitPacks, pending)
    ensures SelectedRows(k, store, selected) && Indexed(k, selected, commitPacks)
  {}

  lemma SettledOk(k: Contract, store: PullStore, head: Id, known: Id, selected0: Selection, selected: Selection,
                  commitPacks: CommitPacks, expanded: set<CommitIdentity>)
    requires Unselected(store, selected) < Unselected(store, selected0)
    requires Planning(k, store, head, known, selected, commitPacks, [])
    requires Saturated(store, known, selected, commitPacks) && Expanding(selected, commitPacks, expanded, [])
    ensures RoundOk(k, store, head, known, selected0, expanded, Settled(selected, commitPacks))
  {
    hide Planning;
    hide Expanding;
    hide Saturated;
    hide Unselected;
  }

  lemma AnotherOk(k: Contract, store: PullStore, head: Id, known: Id, selected0: Selection, selected: Selection,
                  commitPacks: CommitPacks,
                  expanded: set<CommitIdentity>, missing: set<CommitIdentity>, pending: seq<PackRange>)
    requires Unselected(store, selected) < Unselected(store, selected0)
    requires Planning(k, store, head, known, selected, commitPacks, pending)
    requires Expanding(selected, commitPacks, expanded + missing, pending) && MoreToSelect(store, selected, pending)
    requires missing != {} && missing * expanded == {}
    ensures RoundOk(k, store, head, known, selected0, expanded, Another(selected, commitPacks, missing, pending))
  {
    hide Planning;
    hide Expanding;
    hide MoreToSelect;
    hide Unselected;
  }

  /** Every one of these is a merge parent of a stored pack's commit. */
  ghost predicate StoredMergeParents(k: Contract, store: PullStore, parents: set<CommitIdentity>) {
    forall m :: m in parents ==> exists t :: t in store.ranges && m in RowMerges(k, store, t)
  }

  lemma ExpandedAreStored(k: Contract, store: PullStore, selected: Selection, commitPacks: CommitPacks,
                          expanded: set<CommitIdentity>, pending: seq<PackRange>)
    requires SelectedRows(k, store, selected) && Expanding(selected, commitPacks, expanded, pending)
    ensures StoredMergeParents(k, store, expanded)
  {
    hide Read;
    hide MergeParents;
    forall m | m in expanded ensures exists t :: t in store.ranges && m in RowMerges(k, store, t) {
      var h :| h in selected && m in MergeParents(selected[h].frame);
      var t := selected[h].range.target;
      assert RowFrame(k, store, t) == Some(selected[h].frame);
      assert m in RowMerges(k, store, t);
    }
  }

  /** The plan sends exactly these rows. */
  ghost predicate PlansExactly(plan: seq<PackRange>, s: set<Id>) {
    forall t :: t in s <==> PlanTargets(plan, t)
  }

  /** The head's pack is the one where the climb over the dependencies of the rows ends. */
  ghost predicate HeadOnTop(k: Contract, store: PullStore, head: Id, s: set<Id>) {
    ClimbsTo(RowDeps(k, store, s), Hashes(store, s), HashOf(store, head))
  }

  /** planPullDAG: it succeeds exactly if the pull is plannable, fails for the reason that the first faulty round gives,
      and plans exactly the rows of the closure. Every round but the last expands new merge parents of stored packs,
      so their number bounds the rounds. */
  method PlanPullDAG(k: Contract, store: PullStore, ghost head: Id, known: Id, initial: seq<PackRange>)
    returns (r: Result<seq<PackRange>, PullError>, ghost rounds: nat, ghost expandedParents: set<CommitIdentity>)
    requires RangesValid(store) && ChainsEnd(store)
    requires ChainRows(store, head, known, initial) && ValidChain(initial, head, known)
    ensures r.Ok? <==> Plannable(k, store, known, ChainSet(store, head, known))
    ensures r.Err? ==> Fails(k, store, known, ChainSet(store, head, known), r.error)
    ensures r.Ok? ==> PlanOk(k, store, head, known, r.value)
    ensures r.Ok? ==> var all := Closure(k, store, known, ChainSet(store, head, known));
                      PlansExactly(r.value, all)
                      && (r.value[|r.value| - 1].target == head <==> HeadOnTop(k, store, head, all))
    ensures rounds <= |expandedParents| + 1 && StoredMergeParents(k, store, expandedParents)
  {
    hide *;
    var selected: Selection := map[];
    var commitPacks: CommitPacks := map[];
    var pending := initial;
    var expanded: set<CommitIdentity> := {};
    rounds, expandedParents := 0, {};
    PlanningStarts(k, store, head, known, initial);
    ghost var first := ChainSet(store, head, known);
    ghost var rows := first;
    OutcomeSelf(k, store, known, first);
    ChainTargetsQueued(store, head, known, initial);
    NothingSelected();
    while true
      invariant Planning(k, store, head, known, selected, commitPacks, pending)
      invariant Expanding(selected, commitPacks, expanded, pending)
      invariant MoreToSelect(store, selected, pending)
      invariant rows == SelectedTargets(selected) + QueuedTargets(pending) && SameOutcome(k, store, known, first, rows)
      invariant rounds <= |expanded| && expandedParents == expanded
      decreases Unselected(store, selected)
    {
      rounds := rounds + 1;
      PlanningIndexed(k, store, head, known, selected, commitPacks, pending);
      ExpandedAreStored(k, store, selected, commitPacks, expanded, pending);
      var round := PlanRound(k, store, head, known, selected, commitPacks, pending, expanded);
      if round.Err? {
        FaultFails(k, store, known, rows, round.error);
        OutcomeFails(k, store, known, first, rows, round.error);
        return Err(round.error), rounds, expanded;
      }
      RoundFacts(k, store, head, known, selected, expanded, round.value);
      TrackedRows(k, store, known, rows, round.value);
      selected, commitPacks := round.value.selected, round.value.commitPacks;
      if round.value.Settled? {
        break;
      }
      OutcomeRound(k, store, known, first, rows);
      rows := NextRound(k, store, known, rows);
      expanded := expanded + round.value.missing;
      expandedParents := expanded;
      pending := round.value.pending;
    }
    PlanningIndexed(k, store, head, known, selected, commitPacks, []);
    ExpandedAreStored(k, store, selected, commitPacks, expanded, []);
    DepsOfRows(k, store, selected, commitPacks);
    LastRound(k, store, known, rows);
    OutcomeEnds(k, store, known, first, rows);
    var plan, order := OrderPullPacks(k, selected, commitPacks);
    if plan.None? {
      OutcomeFails(k, store, known, first, rows, DependencyCycle);
      return Err(DependencyCycle), rounds, expanded;
    }
    PlanFromOrder(k, store, head, known, selected, commitPacks, order, plan.value);
    PlanRowsExactly(k, store, selected, commitPacks, order, plan.value);
    PlanEndsOnTop(k, store, head, known, selected, commitPacks, order, plan.value);
    return Ok(plan.value), rounds, expanded;
  }

  lemma NothingSelected()
    ensures SelectedTargets(map[]) == {}
  {}

  lemma OutcomeSelf(k: Contract, store: PullStore, known: Id, s: set<Id>)
    ensures SameOutcome(k, store, known, s, s)
  {
    hide Closure;
    hide Plannable;
    hide Fails;
  }

  /** A round that fails decides the whole plan. */
  lemma OutcomeFails(k: Contract, store: PullStore, known: Id, first: set<Id>, s: set<Id>, e: PullError)
    requires SameOutcome(k, store, known, first, s) && Fails(k, store, known, s, e)
    ensures Fails(k, store, known, first, e) && !Plannable(k, store, known, first)
  {
    hide Closure;
    hide Plannable;
    hide Fails;
    FailsOnce(k, store, known, s, e, e);
  }

  lemma OutcomeRound(k: Contract, store: PullStore, known: Id, first: set<Id>, s: set<Id>)
    requires SameOutcome(k, store, known, first, s)
    requires Readable(k, store, s) && Disjoint(k, store, s) && MergesV2(k, store, s)
    requires Fetchable(k, store, known, s) && Missing(k, store, known, s) != {}
    ensures SameOutcome(k, store, known, first, NextRound(k, store, known, s))
  {
    hide Closure;
    hide Plannable;
    hide Fails;
    hide Readable;
    hide Disjoint;
    hide MergesV2;
    hide Fetchable;
    hide Missing;
    hide NextRound;
    RoundOutcome(k, store, known, s);
  }

  lemma OutcomeEnds(k: Contract, store: PullStore, known: Id, first: set<Id>, s: set<Id>)
    requires SameOutcome(k, store, known, first, s)
    ensures Closure(k, store, known, s) == Closure(k, store, known, first)
    ensures Plannable(k, store, known, s) <==> Plannable(k, store, known, first)
  {
    hide Closure;
    hide Plannable;
    hide Fails;
  }

  lemma TrackedRows(k: Contract, store: PullStore, known: Id, s: set<Id>, r: Round)
    requires RoundTracks(k, store, known, s, r)
    ensures SelectedTargets(r.selected) == s
    ensures Readable(k, store, s) && Disjoint(k, store, s) && MergesV2(k, store, s)
    ensures r.Settled? ==> Missing(k, store, known, s) == {}
    ensures r.Another? ==> Fetchable(k, store, known, s) && Missing(k, store, known, s) != {}
                           && NextRound(k, store, known, s) == SelectedTargets(r.selected) + QueuedTargets(r.pending)
  {
    hide Readable;
    hide Disjoint;
    hide MergesV2;
    hide Fetchable;
    hide Missing;
    hide NextRound;
    hide SelectedTargets;
    hide QueuedTargets;
  }

  /** The dependencies that orderPullPacks computes are those of the selected rows. */
  lemma DepsOfRows(k: Contract, store: PullStore, selected: Selection, commitPacks: CommitPacks)
    requires RangesValid(store) && SelectedRows(k, store, selected) && Indexed(k, selected, commitPacks)
    ensures PackDeps(selected, commitPacks) == RowDeps(k, store, SelectedTargets(selected))
    ensures PackDeps(selected, commitPacks).Keys == Hashes(store, SelectedTargets(selected))
  {
    hide Ids;
    hide AllParents;
    hide Read;
    hide Indexed;
    hide SelectedTargets;
    var s := SelectedTargets(selected);
    forall h ensures h in selected <==> h in Hashes(store, s) {
      if h in selected {
        SelectedHashes(k, store, selected, h);
      }
      if t :| t in s && HashOf(store, t) == h {
        var g := SelectedHash(k, store, selected, t);
      }
    }
    forall h | h in selected ensures PackDeps(selected, commitPacks)[h] == RowDeps(k, store, s)[h] {
      RowDepsOf(k, store, selected, commitPacks, h);
    }
  }

  lemma SelectedHashes(k: Contract, store: PullStore, selected: Selection, h: Hash)
    requires SelectedRows(k, store, selected) && h in selected
    ensures selected[h].range.target in SelectedTargets(selected) && HashOf(store, selected[h].range.target) == h
    ensures RowFrame(k, store, selected[h].range.target) == Some(selected[h].frame)
  {
    hide Read;
  }

  lemma RowDepsOf(k: Contract, store: PullStore, selected: Selection, commitPacks: CommitPacks, h: Hash)
    requires RangesValid(store) && SelectedRows(k, store, selected) && Indexed(k, selected, commitPacks)
             && h in selected
    requires h in Hashes(store, SelectedTargets(selected))
    ensures PackDeps(selected, commitPacks)[h] == RowDeps(k, store, SelectedTargets(selected))[h]
  {
    hide Ids;
    hide AllParents;
    hide Read;
    hide SelectedTargets;
    hide RowFrame;
    var s := SelectedTargets(selected);
    SelectedHashes(k, store, selected, h);
    var t := selected[h].range.target;
    forall d ensures d in PackDeps(selected, commitPacks)[h] <==> d in RowDeps(k, store, s)[h] {
      if d in PackDeps(selected, commitPacks)[h] {
        var p :| p in AllParents(selected[h].frame) && p in commitPacks && commitPacks[p] != h && commitPacks[p] == d;
        SelectedHashes(k, store, selected, d);
        var u := selected[d].range.target;
        assert p in RowParents(k, store, t) && p in RowIds(k, store, u);
        assert Uses(k, store, t, u) && HashOf(store, u) == d;
      }
      if d in RowDeps(k, store, s)[h] {
        var x, u :| x in s && u in s && HashOf(store, x) == h && Uses(k, store, x, u) && HashOf(store, u) == d;
        UsedPack(k, store, selected, commitPacks, h, x, u);
      }
    }
  }

  lemma UsedPack(k: Contract, store: PullStore, selected: Selection, commitPacks: CommitPacks, h: Hash, x: Id, u: Id)
    requires RangesValid(store) && SelectedRows(k, store, selected) && Indexed(k, selected, commitPacks)
             && h in selected
    requires x in SelectedTargets(selected) && u in SelectedTargets(selected) && HashOf(store, x) == h
             && Uses(k, store, x, u)
    ensures HashOf(store, u) in PackDeps(selected, commitPacks)[h]
  {
    hide Ids;
    hide AllParents;
    hide Read;
    hide SelectedTargets;
    var hx := SelectedHash(k, store, selected, x);
    var hu := SelectedHash(k, store, selected, u);
    assert hx == h;
    var p :| p in RowParents(k, store, x) && p in RowIds(k, store, u);
    assert p in AllParents(selected[h].frame) && p in Ids(k, selected[hu].frame);
    assert commitPacks[p] == hu;
    assert hu != h;
  }

  /** Every selected row is planned once, and nothing else is. */
  lemma PlanRowsExactly(k: Contract, store: PullStore, selected: Selection, commitPacks: CommitPacks, order: seq<Hash>,
                        plan: seq<PackRange>)
    requires Topological(PackDeps(selected, commitPacks), order) && PlanFor(selected, order, plan)
    ensures PlansExactly(plan, SelectedTargets(selected))
  {
    hide Topological;
    forall t ensures t in SelectedTargets(selected) <==> PlanTargets(plan, t) {
      if t in SelectedTargets(selected) {
        var h :| h in selected && selected[h].range.target == t;
        var i := PlanPosition(selected, commitPacks, order, h);
        assert plan[i].target == t;
      }
    }
  }

  /** Where the least-hash order puts the head's pack. */
  lemma PlanEndsOnTop(k: Contract, store: PullStore, head: Id, known: Id, selected: Selection,
                      commitPacks: CommitPacks, order: seq<Hash>, plan: seq<PackRange>)
    requires RangesValid(store) && Planning(k, store, head, known, selected, commitPacks, [])
    requires Topological(PackDeps(selected, commitPacks), order) && Greedy(PackDeps(selected, commitPacks), order)
    requires PlanFor(selected, order, plan)
    ensures |plan| > 0
    ensures plan[|plan| - 1].target == head <==> HeadOnTop(k, store, head, SelectedTargets(selected))
  {
    hide Identity;
    hide Read;
    hide Topological;
    hide Greedy;
    hide Indexed;
    hide BasesCovered;
    hide AllJustified;
    hide Spanned;
    hide LinkedStore;
    hide PackDeps;
    hide SelectedRows;
    hide RowDeps;
    hide ClimbsTo;
    hide Hashes;
    hide SelectedTargets;
    var top := store.ranges[head].hash;
    HeadRowSelected(k, store, selected, head);
    var t := PlanPosition(selected, commitPacks, order, top);
    DepsOfRows(k, store, selected, commitPacks);
    DepsWellFormed(k, selected, commitPacks);
    DepsHaveSelected(selected, commitPacks, top);
    LeastOrderEnds(PackDeps(selected, commitPacks), order, top);
    LastIsHead(k, store, selected, order, plan, head);
  }

  lemma DepsHaveSelected(selected: Selection, commitPacks: CommitPacks, h: Hash)
    requires h in selected
    ensures h in PackDeps(selected, commitPacks)
  {}

  lemma LastIsHead(k: Contract, store: PullStore, selected: Selection, order: seq<Hash>, plan: seq<PackRange>, head: Id)
    requires RangesValid(store) && SelectedRows(k, store, selected) && head in store.ranges && |order| > 0
    requires PlanFor(selected, order, plan)
    ensures plan[|plan| - 1].target == head <==> EndsWith(order, store.ranges[head].hash)
  {
    hide Read;
    var h := order[|order| - 1];
    assert IsRow(store, selected[h].range);
  }

  lemma DisjointUnionSize(a: set<CommitIdentity>, b: set<CommitIdentity>)
    requires b * a == {} && b != {}
    ensures |a + b| >= |a| + 1
  {
    assert |a + b| + |a * b| == |a| + |b|;
    assert a * b == {};
  }

  lemma RoundFacts(k: Contract, store: PullStore, head: Id, known: Id, selected0: Selection,
                   expanded: set<CommitIdentity>, r: Round)
    requires RoundOk(k, store, head, known, selected0, expanded, r)
    ensures Unselected(store, r.selected) < Unselected(store, selected0)
    ensures r.Settled? ==> Planning(k, store, head, known, r.selected, r.commitPacks, [])
                           && Saturated(store, known, r.selected, r.commitPacks)
                             && Expanding(r.selected, r.commitPacks, expanded, [])
    ensures r.Another? ==> Planning(k, store, head, known, r.selected, r.commitPacks, r.pending)
                           && Expanding(r.selected, r.commitPacks, expanded + r.missing, r.pending)
                           && MoreToSelect(store, r.selected, r.pending)
                           && |expanded + r.missing| >= |expanded| + 1
  {
    hide Planning;
    hide Expanding;
    hide MoreToSelect;
    hide Saturated;
    hide Unselected;
    if r.Another? {
      DisjointUnionSize(expanded, r.missing);
    }
  }

  lemma PlanningStarts(k: Contract, store: PullStore, head: Id, known: Id, initial: seq<PackRange>)
    requires ChainRows(store, head, known, initial) && ValidChain(initial, head, known)
    ensures Planning(k, store, head, known, map[], map[], initial)
    ensures Expanding(map[], map[], {}, initial) && MoreToSelect(store, map[], initial)
  {
    assert IsRow(store, initial[0]);
    forall i | 0 <= i < |initial| ensures Continues(initial, known, i) {
      if i + 1 < |initial| { assert initial[i + 1].target == initial[i].base; }
    }
    forall i | 0 <= i < |initial| ensures Justified(map[], initial, head, i) {
      if i > 0 { assert initial[i - 1 + 1].target == initial[i - 1].base; }
    }
  }

  lemma NothingMissing(store: PullStore, known: Id, selected: Selection, commitPacks: CommitPacks,
                       missing: set<CommitIdentity>)
    requires missing == {}
    requires forall h, m :: h in selected && m in MergeParents(selected[h].frame) ==>
                            Met(store, commitPacks, known, m) || m in missing
    ensures Saturated(store, known, selected, commitPacks)
  {
    hide Met;
    hide MergeParents;
  }

  lemma NewlyMissing(selected: Selection, commitPacks: CommitPacks, missing: set<CommitIdentity>,
                     expanded: set<CommitIdentity>)
    requires AskedFor(selected, commitPacks, missing) && forall m :: m in expanded ==> m in commitPacks
    ensures forall m :: m in missing ==> m.format == COMMIT_FORMAT_V2
    ensures missing * expanded == {} && |missing + expanded| == |missing| + |expanded|
  {}

  lemma ExpansionQueued(k: Contract, store: PullStore, selected: Selection, commitPacks: CommitPacks,
                        missing: set<CommitIdentity>, expanded: set<CommitIdentity>, queued: seq<PackRange>)
    requires RangesValid(store) && SelectedRows(k, store, selected) && Indexed(k, selected, commitPacks)
    requires AskedFor(selected, commitPacks, missing) && missing != {} && Chains(store, missing, queued)
    requires Expanding(selected, commitPacks, expanded, [])
    requires forall m :: m in missing ==> exists i :: 0 <= i < |queued| && queued[i].target == m.id
    ensures Expanding(selected, commitPacks, expanded + missing, queued) && MoreToSelect(store, selected, queued)
  {
    hide Indexed;
    hide SelectedRows;
    var m :| m in missing;
    var i :| 0 <= i < |queued| && queued[i].target == m.id;
    assert ChainRow(store, missing, queued, i);
    ExpansionSelectsMore(k, store, selected, commitPacks, m, queued[i]);
  }

  // ----- what a plan gives the client ---------------------------------------------------

  /** A parent of a V2 pack's commit is inside the pack, is its base, or is a merge parent. */
  lemma ParentKinds(k: Contract, f: PackFrame, p: CommitIdentity) returns (i: nat)
    requires WellFramedV2(k, f) && p in AllParents(f)
    ensures i < |f.commits| && p in f.commits[i].parents && ValidIdentity(p)
    ensures p in Ids(k, f) || p == f.base || p in MergeParents(f)
  {
    hide Identity;
    var a, j :| 0 <= a < |f.commits| && 0 <= j < |f.commits[a].parents| && f.commits[a].parents[j] == p;
    i := a;
    assert Identity(k, f.commits[i]).Some?;
    if j == 0 {
      assert p == Previous(k, f, i);
      if i > 0 {
        assert Identity(k, f.commits[i - 1]).value in Ids(k, f);
      }
    }
  }

  /** The metadata store records every stored pack's commits with the parents their frames name. */
  ghost predicate AllRecorded(k: Contract, store: PullStore) {
    forall t :: t in store.ranges && Read(k, store, store.ranges[t]).Some? ==>
      Recorded(k, store.commits, Read(k, store, store.ranges[t]).value)
  }

  ghost predicate AllV2(store: PullStore) {
    forall t :: t in store.ranges ==> store.ranges[t].format == PACK_FORMAT_V2
  }

  /** A commit the client has after the pull: carried by the plan, or in the history it already knew. */
  ghost predicate Delivered(k: Contract, store: PullStore, known: Id, plan: seq<PackRange>, id: Id) {
    || Carried(k, store, plan, V2(id))
    || (known != "" && Reaches(store.commits, known, id))
  }

  lemma PlanRow(k: Contract, store: PullStore, head: Id, known: Id, plan: seq<PackRange>, i: nat)
    requires PlanOk(k, store, head, known, plan) && i < |plan| && AllV2(store) && AllRecorded(k, store)
    ensures Read(k, store, plan[i]).Some?
    ensures var f := Read(k, store, plan[i]).value;
            WellFramedV2(k, f) && Recorded(k, store.commits, f)
            && f.base == (if plan[i].base == "" then NO_COMMIT else V2(plan[i].base))
    ensures V2(plan[i].target) in Ids(k, Read(k, store, plan[i]).value)
    ensures plan[i].base == "" || plan[i].base == known || PlanTargets(plan, plan[i].base)
  {
    hide Identity;
    hide Read;
    hide Recorded;
    hide WellFramedV2;
    assert IsRow(store, plan[i]);
    ReadFacts(k, store, plan[i]);
  }

  lemma TargetCarried(k: Contract, store: PullStore, head: Id, known: Id, plan: seq<PackRange>, t: Id)
    requires PlanOk(k, store, head, known, plan) && AllV2(store) && AllRecorded(k, store) && PlanTargets(plan, t)
    ensures Carried(k, store, plan, V2(t))
  {
    hide PlanOk;
    hide Read;
    hide Identity;
    var i :| 0 <= i < |plan| && plan[i].target == t;
    PlanRow(k, store, head, known, plan, i);
  }

  lemma MergeParentDelivered(k: Contract, store: PullStore, head: Id, known: Id, plan: seq<PackRange>, i: nat,
                             m: CommitIdentity)
    requires PlanOk(k, store, head, known, plan) && i < |plan|
    requires Read(k, store, plan[i]).Some? && m in MergeParents(Read(k, store, plan[i]).value) && ValidIdentity(m)
    ensures Delivered(k, store, known, plan, m.id)
  {
    hide Identity;
    hide Read;
    hide Reaches;
    hide MergeParents;
    ReachesSelf(store.commits, known);
    assert m.format == COMMIT_FORMAT_V2
      && (Carried(k, store, plan, m) || m.id == known || KnownHas(store, known, m.id));
    assert m == V2(m.id);
  }

  /** The parents of a carried commit are delivered too. */
  lemma ParentDelivered(k: Contract, store: PullStore, head: Id, known: Id, plan: seq<PackRange>, c: Id, a: Id)
    requires PlanOk(k, store, head, known, plan) && AllV2(store) && AllRecorded(k, store)
    requires Carried(k, store, plan, V2(c)) && c in store.commits && a in store.commits[c]
    ensures Delivered(k, store, known, plan, a)
  {
    hide PlanOk;
    hide Read;
    hide Identity;
    hide Reaches;
    hide MergeParents;
    hide WellFramedV2;
    hide ValidIdentity;
    var i :| 0 <= i < |plan| && Read(k, store, plan[i]).Some? && V2(c) in Ids(k, Read(k, store, plan[i]).value);
    var f := Read(k, store, plan[i]).value;
    PlanRow(k, store, head, known, plan, i);
    var n :| 0 <= n < |f.commits| && Identity(k, f.commits[n]).Some? && Identity(k, f.commits[n]).value == V2(c);
    var j :| 0 <= j < |ParentIds(f.commits[n])| && ParentIds(f.commits[n])[j] == a;
    var p := f.commits[n].parents[j];
    assert p in AllParents(f);
    var l := ParentKinds(k, f, p);
    ReachesSelf(store.commits, known);
    if p in Ids(k, f) {
      IdsAreV2(k, f, p);
    } else if p == f.base {
      if plan[i].base != known {
        assert plan[i].base != "" by { BaseNamed(p); }
        TargetCarried(k, store, head, known, plan, plan[i].base);
      } else {
        BaseNamed(p);
      }
    } else {
      MergeParentDelivered(k, store, head, known, plan, i, p);
    }
  }

  lemma IdsAreV2(k: Contract, f: PackFrame, p: CommitIdentity)
    requires p in Ids(k, f)
    ensures p == V2(p.id)
  {
    hide Identity;
  }

  lemma BaseNamed(p: CommitIdentity)
    requires ValidIdentity(p)
    ensures p != NO_COMMIT && p.id != ""
  {}

  /** Closure: after a successful plan over V2 packs the client has every ancestor of the head. */
  lemma {:induction false} PlanDeliversHistory(k: Contract, store: PullStore, head: Id, known: Id,
                                               plan: seq<PackRange>, a: Id, n: nat)
    requires PlanOk(k, store, head, known, plan) && AllV2(store) && AllRecorded(k, store)
    requires StepsTo(store.commits, head, a, n)
    ensures Delivered(k, store, known, plan, a)
    decreases n
  {
    hide PlanOk;
    hide Reaches;
    if n == 0 {
      assert PlanTargets(plan, head) by { PlanHasHead(k, store, head, known, plan); }
      TargetCarried(k, store, head, known, plan, head);
    } else {
      var y :| StepsTo(store.commits, head, y, n - 1) && y in store.commits && a in store.commits[y];
      PlanDeliversHistory(k, store, head, known, plan, y, n - 1);
      if Carried(k, store, plan, V2(y)) {
        ParentDelivered(k, store, head, known, plan, y, a);
      } else {
        ReachesParent(store.commits, known, y, a);
      }
    }
  }

  lemma PlanHasHead(k: Contract, store: PullStore, head: Id, known: Id, plan: seq<PackRange>)
    requires PlanOk(k, store, head, known, plan)
    ensures PlanTargets(plan, head)
  {
    hide Read;
  }
}
