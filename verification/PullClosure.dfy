// What a pull needs, read off the stored packs: the rows reached from the head through pack bases and missing merge
// parents. Rounds matter only for what counts as missing: a parent carried by a row of the round is not.
module PullClosure {
  import opened Wrappers
  import opened CommitGraph
  import opened Framing
  import opened PullPlan
  import opened PackOrder

  // ----- chains -------------------------------------------------------------------------

  ghost predicate InChain(store: PullStore, head: Id, stop: Id, t: Id) {
    exists rows: seq<PackRange> :: Followed(store, head, stop, rows) && rows[|rows| - 1].target == t
  }

  /** The rows that the walk from `head` passes before it stops. */
  ghost function ChainSet(store: PullStore, head: Id, stop: Id): (s: set<Id>)
    ensures s <= store.ranges.Keys
  {
    set t | t in store.ranges && InChain(store, head, stop, t)
  }

  /** The walk from `head` arrives at `stop`: every base on the way is a row's target. */
  ghost predicate ChainComplete(store: PullStore, head: Id, stop: Id) {
    exists rows: seq<PackRange> :: Followed(store, head, stop, rows) && rows[|rows| - 1].base == stop
  }

  lemma ChainTargets(store: PullStore, head: Id, stop: Id, rows: seq<PackRange>)
    requires ChainRows(store, head, stop, rows)
    ensures forall t :: t in ChainSet(store, head, stop) <==> exists i :: 0 <= i < |rows| && rows[i].target == t
  {
    hide ChainRows;
    forall t ensures t in ChainSet(store, head, stop) <==> exists i :: 0 <= i < |rows| && rows[i].target == t {
      if i :| 0 <= i < |rows| && rows[i].target == t {
        ChainPart(store, head, stop, rows, i);
        assert rows[..i + 1][i].target == t;
      }
      if t in ChainSet(store, head, stop) {
        var walked: seq<PackRange> :| Followed(store, head, stop, walked) && walked[|walked| - 1].target == t;
        FollowedPrefix(store, head, stop, walked, rows);
        assert rows[|walked| - 1].target == t;
      }
    }
  }

  lemma ChainPart(store: PullStore, head: Id, stop: Id, rows: seq<PackRange>, i: nat)
    requires ChainRows(store, head, stop, rows) && i < |rows|
    ensures Followed(store, head, stop, rows[..i + 1]) && rows[i].target in store.ranges
  {
    assert IsRow(store, rows[i]);
  }

  /** validatePackChain accepts exactly the complete walks. */
  lemma ChainValid(store: PullStore, head: Id, stop: Id, rows: seq<PackRange>)
    requires ChainRows(store, head, stop, rows)
    ensures ValidChain(rows, head, stop) <==> ChainComplete(store, head, stop)
  {
    if ValidChain(rows, head, stop) {
      assert Followed(store, head, stop, rows);
    }
    if ChainComplete(store, head, stop) {
      var walked: seq<PackRange> :| Followed(store, head, stop, walked) && walked[|walked| - 1].base == stop;
      FollowedPrefix(store, head, stop, walked, rows);
      assert rows[|walked| - 1].base == stop;
    }
  }

  // ----- sets of rows -------------------------------------------------------------------

  ghost function RowFrame(k: Contract, store: PullStore, t: Id): Option<PackFrame> {
    if t in store.ranges then Read(k, store, store.ranges[t]) else None
  }

  ghost function RowIds(k: Contract, store: PullStore, t: Id): set<CommitIdentity> {
    match RowFrame(k, store, t) case None => {} case Some(f) => Ids(k, f)
  }

  ghost function RowMerges(k: Contract, store: PullStore, t: Id): set<CommitIdentity> {
    match RowFrame(k, store, t) case None => {} case Some(f) => MergeParents(f)
  }

  ghost function RowParents(k: Contract, store: PullStore, t: Id): set<CommitIdentity> {
    match RowFrame(k, store, t) case None => {} case Some(f) => AllParents(f)
  }

  ghost predicate Readable(k: Contract, store: PullStore, s: set<Id>) {
    forall t :: t in s ==> RowFrame(k, store, t).Some?
  }

  /** No commit is carried by two packs. */
  ghost predicate Disjoint(k: Contract, store: PullStore, s: set<Id>) {
    forall t, u, id :: t in s && u in s && id in RowIds(k, store, t) && id in RowIds(k, store, u) ==> t == u
  }

  ghost predicate MergesV2(k: Contract, store: PullStore, s: set<Id>) {
    forall t, m :: t in s && m in RowMerges(k, store, t) ==> m.format == COMMIT_FORMAT_V2
  }

  ghost predicate KnownHas(store: PullStore, known: Id, id: Id) {
    known != "" && known in store.commits && id in store.commits && Reaches(store.commits, known, id)
  }

  ghost function Supplied(k: Contract, store: PullStore, s: set<Id>): set<CommitIdentity> {
    set t, id | t in s && id in RowIds(k, store, t) :: id
  }

  /** The client will have this commit: a pack of `s` carries it, or it is part of the history the client knows. */
  ghost predicate WillHave(k: Contract, store: PullStore, known: Id, s: set<Id>, m: CommitIdentity) {
    m in Supplied(k, store, s) || m.id == known || KnownHas(store, known, m.id)
  }

  /** The merge parents of the packs of `s` that the client would lack. */
  ghost function Missing(k: Contract, store: PullStore, known: Id, s: set<Id>): set<CommitIdentity> {
    set t, m | t in s && m in RowMerges(k, store, t) && m.format == COMMIT_FORMAT_V2
      && !WillHave(k, store, known, s, m) :: m
  }

  ghost function ChainsOf(store: PullStore, missing: set<CommitIdentity>): (r: set<Id>)
    ensures r <= store.ranges.Keys
  {
    set m, t | m in missing && t in ChainSet(store, m.id, "") :: t
  }

  /** The rows of the next round: the chains of all missing merge parents are added. */
  ghost function NextRound(k: Contract, store: PullStore, known: Id, s: set<Id>): (r: set<Id>)
    ensures s <= r && r - s <= store.ranges.Keys
  {
    s + ChainsOf(store, Missing(k, store, known, s))
  }

  ghost predicate Fetchable(k: Contract, store: PullStore, known: Id, s: set<Id>) {
    forall m :: m in Missing(k, store, known, s) ==> ChainComplete(store, m.id, "")
  }

  /** `h` needs another pack of `s` that carries a parent of one of its commits. */
  ghost predicate Uses(k: Contract, store: PullStore, t: Id, u: Id) {
    t != u && exists p :: p in RowParents(k, store, t) && p in RowIds(k, store, u)
  }

  ghost function HashOf(store: PullStore, t: Id): Hash {
    if t in store.ranges then store.ranges[t].hash else ""
  }

  ghost function Hashes(store: PullStore, s: set<Id>): set<Hash> {
    set t | t in s :: HashOf(store, t)
  }

  /** The dependencies among the packs of `s`, by pack hash. */
  ghost function RowDeps(k: Contract, store: PullStore, s: set<Id>): Dependencies {
    map h | h in Hashes(store, s) :: set t, u | t in s && u in s && HashOf(store, t) == h
                                     && Uses(k, store, t, u) :: HashOf(store, u)
  }

  // ----- when a pull can be planned -----------------------------------------------------

  /** All rows a pull needs. */
  ghost function Closure(k: Contract, store: PullStore, known: Id, s: set<Id>): (r: set<Id>)
    ensures s <= r
    decreases store.ranges.Keys - s
  {
    var next := NextRound(k, store, known, s);
    if s < next then Closure(k, store, known, next) else s
  }

  /** In every round the missing merge parents are row targets, and so are all bases below them. */
  ghost predicate RoundsComplete(k: Contract, store: PullStore, known: Id, s: set<Id>)
    decreases store.ranges.Keys - s
  {
    var next := NextRound(k, store, known, s);
    Fetchable(k, store, known, s) && (s < next ==> RoundsComplete(k, store, known, next))
  }

  /** The exact condition of a plan: every base and missing merge parent is a row's target, and over all rows needed,
      packs are readable and disjoint, merge parents are V2 commits, and dependencies form no cycle. */
  ghost predicate Plannable(k: Contract, store: PullStore, known: Id, s: set<Id>) {
    && RoundsComplete(k, store, known, s)
    && var all := Closure(k, store, known, s);
       Readable(k, store, all) && Disjoint(k, store, all) && MergesV2(k, store, all)
         && !HasCycle(RowDeps(k, store, all))
  }

  /** Why a plan fails: the first round with a fault decides. If a round has unreadable packs and shared commits, either
      may be reported. */
  ghost predicate Fails(k: Contract, store: PullStore, known: Id, s: set<Id>, e: PullError)
    decreases store.ranges.Keys - s
  {
    var next := NextRound(k, store, known, s);
    if !Readable(k, store, s) || !Disjoint(k, store, s) then
      (e == InvalidPack && !Readable(k, store, s)) || (e == CommitInTwoPacks && !Disjoint(k, store, s))
    else if !MergesV2(k, store, s) then e == MergeParentNotV2
    else if !Fetchable(k, store, known, s) then e == IncompleteChain
    else if s < next then Fails(k, store, known, next, e)
    else e == DependencyCycle && HasCycle(RowDeps(k, store, s))
  }

  /** Two reasons that cannot be told apart from the set of rows alone. */
  ghost predicate SameFault(e: PullError, f: PullError) {
    e == f || (e in {InvalidPack, CommitInTwoPacks} && f in {InvalidPack, CommitInTwoPacks})
  }

  /** A plan fails for one reason, and only if the pull is not plannable. */
  lemma {:induction false} FailsOnce(k: Contract, store: PullStore, known: Id, s: set<Id>, e: PullError, f: PullError)
    requires Fails(k, store, known, s, e)
    ensures !Plannable(k, store, known, s)
    ensures Fails(k, store, known, s, f) ==> SameFault(e, f)
    decreases store.ranges.Keys - s
  {
    hide Readable;
    hide Disjoint;
    hide MergesV2;
    hide RowDeps;
    hide HasCycle;
    hide Fetchable;
    hide NextRound;
    var next := NextRound(k, store, known, s);
    var all := Closure(k, store, known, s);
    Monotone(k, store, s, all);
    if Readable(k, store, s) && Disjoint(k, store, s) && MergesV2(k, store, s) && Fetchable(k, store, known, s)
      && s < next {
      FailsOnce(k, store, known, next, e, f);
    }
  }

  lemma Monotone(k: Contract, store: PullStore, s: set<Id>, all: set<Id>)
    requires s <= all
    ensures Readable(k, store, all) ==> Readable(k, store, s)
    ensures Disjoint(k, store, all) ==> Disjoint(k, store, s)
    ensures MergesV2(k, store, all) ==> MergesV2(k, store, s)
  {
    hide RowFrame;
    hide RowIds;
    hide RowMerges;
  }

  /** What the closure of a plannable pull satisfies: nothing is missing any more. */
  lemma {:induction false} ClosureSettled(k: Contract, store: PullStore, known: Id, s: set<Id>)
    requires Plannable(k, store, known, s)
    ensures Missing(k, store, known, Closure(k, store, known, s)) == {}
    decreases store.ranges.Keys - s
  {
    hide Readable;
    hide Disjoint;
    hide MergesV2;
    hide RowDeps;
    hide HasCycle;
    hide Missing;
    Monotone(k, store, s, Closure(k, store, known, s));
    if Missing(k, store, known, s) != {} {
      RoundGrows(k, store, known, s);
    }
    hide Fetchable;
    hide NextRound;
    var next := NextRound(k, store, known, s);
    if s < next {
      ClosureSettled(k, store, known, next);
    }
  }

  /** The closure is least: it lies inside every set of rows that contains the first ones and, with each pack, the whole
      chains of the merge parents that the client does not know. */
  lemma {:induction false} ClosureLeast(k: Contract, store: PullStore, known: Id, s: set<Id>, r: set<Id>)
    requires s <= r
    requires forall t, m :: t in r && m in RowMerges(k, store, t) && m.id != known && !KnownHas(store, known, m.id) ==>
               ChainSet(store, m.id, "") <= r
    ensures Closure(k, store, known, s) <= r
    decreases store.ranges.Keys - s
  {
    hide RowMerges;
    hide KnownHas;
    hide ChainSet;
    var next := NextRound(k, store, known, s);
    if s < next {
      assert next <= r;
      ClosureLeast(k, store, known, next, r);
    }
  }

  /** A row's pack carries the row's target, so a missing merge parent is not the target of a row at hand. */
  lemma RoundGrows(k: Contract, store: PullStore, known: Id, s: set<Id>)
    requires Readable(k, store, s) && Fetchable(k, store, known, s) && Missing(k, store, known, s) != {}
    ensures s < NextRound(k, store, known, s)
  {
    hide Identity;
    hide Read;
    hide KnownHas;
    hide Ids;
    var m :| m in Missing(k, store, known, s);
    var rows: seq<PackRange> :| Followed(store, m.id, "", rows) && rows[|rows| - 1].base == "";
    assert IsRow(store, rows[0]);
    assert Followed(store, m.id, "", rows[..1]);
    assert rows[..1][0].target == m.id;
    assert m.id in ChainSet(store, m.id, "");
    assert m.id in ChainsOf(store, Missing(k, store, known, s));
    assert m == V2(m.id);
    TargetSupplied(k, store, s, m.id);
  }

  lemma TargetSupplied(k: Contract, store: PullStore, s: set<Id>, t: Id)
    requires Readable(k, store, s) && (t in store.ranges ==> store.ranges[t].target == t)
    ensures t in s ==> V2(t) in RowIds(k, store, t) && V2(t) in Supplied(k, store, s)
  {
    hide Identity;
    hide Read;
    hide Ids;
    if t in s {
      ReadFacts(k, store, store.ranges[t]);
    }
  }

  /** One round on: the outcome is the outcome from the next round. */
  ghost predicate SameOutcome(k: Contract, store: PullStore, known: Id, s: set<Id>, r: set<Id>) {
    && Closure(k, store, known, s) == Closure(k, store, known, r)
    && (Plannable(k, store, known, s) <==> Plannable(k, store, known, r))
    && forall e :: Fails(k, store, known, s, e) <==> Fails(k, store, known, r, e)
  }

  lemma RoundOutcome(k: Contract, store: PullStore, known: Id, s: set<Id>)
    requires Readable(k, store, s) && Disjoint(k, store, s) && MergesV2(k, store, s)
    requires Fetchable(k, store, known, s) && Missing(k, store, known, s) != {}
    ensures s < NextRound(k, store, known, s)
    ensures SameOutcome(k, store, known, s, NextRound(k, store, known, s))
  {
    hide *;
    RoundGrows(k, store, known, s);
    var next := NextRound(k, store, known, s);
    RoundPlans(k, store, known, s);
    forall e ensures Fails(k, store, known, s, e) <==> Fails(k, store, known, next, e) {
      RoundFails(k, store, known, s, e);
    }
    OutcomeFrom(k, store, known, s, next);
  }

  lemma OutcomeFrom(k: Contract, store: PullStore, known: Id, s: set<Id>, r: set<Id>)
    requires Closure(k, store, known, s) == Closure(k, store, known, r)
    requires Plannable(k, store, known, s) <==> Plannable(k, store, known, r)
    requires forall e :: Fails(k, store, known, s, e) <==> Fails(k, store, known, r, e)
    ensures SameOutcome(k, store, known, s, r)
  {
    hide Closure;
    hide Plannable;
    hide Fails;
  }

  lemma RoundPlans(k: Contract, store: PullStore, known: Id, s: set<Id>)
    requires Fetchable(k, store, known, s) && s < NextRound(k, store, known, s)
    ensures var next := NextRound(k, store, known, s);
            && Closure(k, store, known, s) == Closure(k, store, known, next)
            && (Plannable(k, store, known, s) <==> Plannable(k, store, known, next))
  {
    hide Readable;
    hide Disjoint;
    hide MergesV2;
    hide RowDeps;
    hide HasCycle;
    hide Fetchable;
    hide NextRound;
  }

  lemma RoundFails(k: Contract, store: PullStore, known: Id, s: set<Id>, e: PullError)
    requires Readable(k, store, s) && Disjoint(k, store, s) && MergesV2(k, store, s)
    requires Fetchable(k, store, known, s) && s < NextRound(k, store, known, s)
    ensures Fails(k, store, known, s, e) <==> Fails(k, store, known, NextRound(k, store, known, s), e)
  {
    hide Readable;
    hide Disjoint;
    hide MergesV2;
    hide RowDeps;
    hide HasCycle;
    hide Fetchable;
    hide NextRound;
  }

  /** The last round decides by itself. */
  lemma LastRound(k: Contract, store: PullStore, known: Id, s: set<Id>)
    requires Readable(k, store, s) && Disjoint(k, store, s) && MergesV2(k, store, s)
             && Missing(k, store, known, s) == {}
    ensures Closure(k, store, known, s) == s
    ensures Plannable(k, store, known, s) <==> !HasCycle(RowDeps(k, store, s))
    ensures HasCycle(RowDeps(k, store, s)) ==> Fails(k, store, known, s, DependencyCycle)
  {
    hide Readable;
    hide Disjoint;
    hide MergesV2;
    hide RowDeps;
    hide HasCycle;
    assert ChainsOf(store, {}) == {};
    hide Missing;
    assert NextRound(k, store, known, s) == s;
  }
}
