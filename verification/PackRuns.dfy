// What pulls rely on of the stored packs, as runs of pushes and merges establish it: every readable pack's commits are
// recorded with the parents that its frame names.
module PackRuns {
  import opened Wrappers
  import opened Wire
  import opened CommitGraph
  import opened Framing
  import opened RackStore
  import opened RackRuns
  import opened PushEngine
  import opened PullPlan
  import opened PullPlanner
  import MergeApply
  import PullRuns

  /** The bytes are a pack of this format with these commits. */
  ghost predicate Packs(k: Contract, format: nat, data: Bytes, records: seq<Record>) {
    exists f :: Unframe(k, FrameFormat(format), data) == Some(f) && FrameRecorded(k, f, records)
  }

  ghost predicate FrameRecorded(k: Contract, f: PackFrame, records: seq<Record>) {
    (forall i :: 0 <= i < |f.commits| ==> Identity(k, f.commits[i]).Some?) && records == RecordsOf(k, f)
  }

  /** What the object store holds under the hash of a push, if anything, is the pack that was pushed. */
  ghost predicate Uploaded(k: Contract, blobs: map<Hash, Bytes>, push: Push) {
    push.hash in blobs ==> Packs(k, push.format, blobs[push.hash], push.records)
  }

  ghost predicate MergeUploaded(k: Contract, blobs: map<Hash, Bytes>, merge: MergeRequest) {
    merge.packHash in blobs ==> Packs(k, NormalizeFormat(merge.packFormat), blobs[merge.packHash],
                                      [Record(merge.result, MergeCommit(merge))])
  }

  /** HandlePush has checked that the pushed bytes are such a pack. */
  lemma CheckedUploaded(k: Contract, snapshotOk: Id -> bool, commits: map<Id, CommitRow>, minFormat: nat,
                        req: PushRequest, blobs: map<Hash, Bytes>)
    requires Checked(k, snapshotOk, commits, minFormat, req)
    requires req.packHash in blobs ==> blobs[req.packHash] == req.data
    ensures Uploaded(k, blobs, AsPush(req))
  {
    hide Identity;
    hide Unframe;
    hide RecordsOf;
    var f :| Matches(k, snapshotOk, req, f);
    assert FrameRecorded(k, f, req.records);
  }

  /** And a merge frames its commit as such a pack. */
  lemma FramedUploaded(tools: MergeApply.Tools, req: MergeApply.ApplyRequest, i: MergeApply.Inputs,
                       f: MergeApply.Framed, blobs: map<Hash, Bytes>)
    requires MergeApply.FramesMerge(tools, req, i, f) && Lawful(tools.contract.frames)
    requires f.packHash in blobs ==> blobs[f.packHash] == f.packData
    ensures MergeUploaded(tools.contract, blobs, MergeApply.StoreRequest(req, i, f))
  {
    hide Identity;
    hide WellFramedV2;
    var k := tools.contract;
    var frame := MergeApply.MergeFrame(req, i, f.root);
    var pack := MergeApply.MergePack(i, frame, V2(f.commit), f.root, tools.snapshotBytes(f.merged).value);
    FramesAreCanonical(k, PACK_FORMAT_V2, pack, f.packData);
    assert ParentIds(frame) == [i.targetId, i.sourceId];
    assert RecordsOf(k, pack) == [Record(f.commit, MergeCommit(MergeApply.StoreRequest(req, i, f)))];
    assert FrameRecorded(k, pack, RecordsOf(k, pack));
  }

  // ----- over runs ----------------------------------------------------------------------

  /** Whatever pack the hash of a row stands for, its commits are recorded with the parents in its frame. */
  ghost predicate RowBacked(k: Contract, blobs: map<Hash, Bytes>, commits: map<Id, CommitRow>, h: string, row: RangeRow)
  {
    h in blobs ==>
      match Unframe(k, FrameFormat(row.format), blobs[h])
      case None => true
      case Some(f) => Recorded(k, GraphOf(commits), f)
  }

  ghost predicate RowsBacked(k: Contract, blobs: map<Hash, Bytes>, r: Repo) {
    forall h :: h in r.ranges ==> RowBacked(k, blobs, r.commits, h, r.ranges[h])
  }

  ghost predicate FlightUploaded(k: Contract, blobs: map<Hash, Bytes>, flight: Flight) {
    match flight
    case Storing(push, _) => Uploaded(k, blobs, push)
    case Ranged(push) => Uploaded(k, blobs, push)
    case Checking(_, _, _) => true
    case Swapping(_, _, _) => true
  }

  ghost predicate FlightsUploaded(k: Contract, blobs: map<Hash, Bytes>, s: Sys) {
    forall f :: f in s.flights ==> FlightUploaded(k, blobs, s.flights[f])
  }

  /** The event uploads what it announces. */
  ghost predicate Uploads(k: Contract, blobs: map<Hash, Bytes>, e: Event) {
    && (e.BeginPush? ==> Uploaded(k, blobs, e.push))
    && (e.Apply? ==> MergeUploaded(k, blobs, e.merge))
  }

  lemma RecordedStays(k: Contract, f: PackFrame, c: map<Id, CommitRow>, d: map<Id, CommitRow>)
    requires Recorded(k, GraphOf(c), f) && Grows(c, d)
    ensures Recorded(k, GraphOf(d), f)
  {
    hide Identity;
  }

  lemma BackedStays(k: Contract, blobs: map<Hash, Bytes>, r: Repo, q: Repo)
    requires RowsBacked(k, blobs, r) && Grows(r.commits, q.commits)
    ensures forall h :: h in r.ranges ==> RowBacked(k, blobs, q.commits, h, r.ranges[h])
  {
    hide Recorded;
    hide Unframe;
    hide GraphOf;
    hide Grows;
    forall h | h in r.ranges ensures RowBacked(k, blobs, q.commits, h, r.ranges[h]) {
      assert RowBacked(k, blobs, r.commits, h, r.ranges[h]);
      if h in blobs && Unframe(k, FrameFormat(r.ranges[h].format), blobs[h]).Some? {
        RecordedStays(k, Unframe(k, FrameFormat(r.ranges[h].format), blobs[h]).value, r.commits, q.commits);
      }
    }
  }

  /** A pack whose records are stored is backed. */
  lemma StoredBacked(k: Contract, blobs: map<Hash, Bytes>, commits: map<Id, CommitRow>, h: string, row: RangeRow,
                     records: seq<Record>)
    requires h in blobs ==> Packs(k, row.format, blobs[h], records)
    requires Stored(commits, records, |records|)
    ensures RowBacked(k, blobs, commits, h, row)
  {
    hide Identity;
    hide Unframe;
    if h in blobs {
      var f :| Unframe(k, FrameFormat(row.format), blobs[h]) == Some(f) && FrameRecorded(k, f, records);
      forall i | 0 <= i < |f.commits|
        ensures Identity(k, f.commits[i]).value.id in commits
        ensures commits[Identity(k, f.commits[i]).value.id].parents == ParentIds(f.commits[i])
      {
        assert records[i].id == Identity(k, f.commits[i]).value.id;
      }
    }
  }

  /** A request that carries a push has carried it before, or begins now. */
  lemma PushInFlight(s: Sys, e: Event, s': Sys, f: string)
    requires Step(s, e, s') && f in s'.flights && (s'.flights[f].Storing? || s'.flights[f].Ranged?)
    ensures (f in s.flights && (s.flights[f].Storing? || s.flights[f].Ranged?)
             && s.flights[f].push == s'.flights[f].push)
            || (e.BeginPush? && e.push == s'.flights[f].push)
  {
    hide Reaches;
    hide GraphOf;
    hide Accepted;
    hide PutAllTx;
    hide Chain;
  }

  lemma FlightsStayUploaded(k: Contract, blobs: map<Hash, Bytes>, s: Sys, e: Event, s': Sys)
    requires Step(s, e, s') && FlightsUploaded(k, blobs, s) && Uploads(k, blobs, e)
    ensures FlightsUploaded(k, blobs, s')
  {
    hide Step;
    hide Uploaded;
    hide MergeUploaded;
    forall f | f in s'.flights ensures FlightUploaded(k, blobs, s'.flights[f]) {
      if s'.flights[f].Storing? || s'.flights[f].Ranged? {
        PushInFlight(s, e, s', f);
        if f in s.flights { assert FlightUploaded(k, blobs, s.flights[f]); }
      }
    }
  }

  lemma BackedAdds(k: Contract, blobs: map<Hash, Bytes>, r: Repo, q: Repo, h: string, row: RangeRow)
    requires RowsBacked(k, blobs, r) && Grows(r.commits, q.commits) && q.ranges == r.ranges[h := row]
    requires RowBacked(k, blobs, q.commits, h, row)
    ensures RowsBacked(k, blobs, q)
  {
    hide RowBacked;
    hide Grows;
    BackedStays(k, blobs, r, q);
  }

  lemma PutRangeBacked(k: Contract, blobs: map<Hash, Bytes>, s: Sys, e: Event, s': Sys)
    requires Inv(s) && Step(s, e, s') && e.PutRange? && RowsBacked(k, blobs, s.repo) && FlightsUploaded(k, blobs, s)
    requires Grows(s.repo.commits, s'.repo.commits)
    ensures RowsBacked(k, blobs, s'.repo)
  {
    PullRuns.PutRangeFrame(s, e, s');
    var push := s.flights[e.f].push;
    assert FlightOk(s.repo.commits, s.flights[e.f]) && FlightUploaded(k, blobs, s.flights[e.f]);
    hide Step;
    hide Inv;
    hide PutPackRangeTx;
    hide Stored;
    hide Packs;
    hide RowBacked;
    hide RowsBacked;
    hide FlightsUploaded;
    if PutPackRangeTx(s.repo, push.hash, RangeOf(push)).Ok? {
      PullRuns.PutRangeAdds(s.repo, push.hash, RangeOf(push));
      StoredBacked(k, blobs, s'.repo.commits, push.hash, RangeOf(push), push.records);
      BackedAdds(k, blobs, s.repo, s'.repo, push.hash, RangeOf(push));
    }
  }

  lemma ApplyBacked(k: Contract, blobs: map<Hash, Bytes>, s: Sys, e: Event, s': Sys)
    requires Step(s, e, s') && e.Apply? && RowsBacked(k, blobs, s.repo) && MergeUploaded(k, blobs, e.merge)
    requires Grows(s.repo.commits, s'.repo.commits)
    ensures RowsBacked(k, blobs, s'.repo)
  {
    hide Step;
    hide Packs;
    hide RowBacked;
    hide RowsBacked;
    hide ApplyMergeTx;
    hide MergeCommit;
    hide NormalizeFormat;
    hide Grows;
    if ApplyMergeTx(s.repo, s.now, e.merge).Ok? {
      ApplyFrame(s, e, s');
      PullRuns.ApplyAdds(s, e, s');
      var row := RangeRow(e.merge.target, e.merge.result, NormalizeFormat(e.merge.packFormat));
      StoredBacked(k, blobs, s'.repo.commits, e.merge.packHash, row, [Record(e.merge.result, MergeCommit(e.merge))]);
      BackedAdds(k, blobs, s.repo, s'.repo, e.merge.packHash, row);
    } else {
      ApplyRefused(s, e, s');
    }
  }

  lemma StepBacked(k: Contract, blobs: map<Hash, Bytes>, s: Sys, e: Event, s': Sys)
    requires Inv(s) && Step(s, e, s') && RowsBacked(k, blobs, s.repo) && FlightsUploaded(k, blobs, s)
    requires Uploads(k, blobs, e)
    ensures RowsBacked(k, blobs, s'.repo) && FlightsUploaded(k, blobs, s')
  {
    hide Step;
    hide Inv;
    hide RowBacked;
    hide MergeUploaded;
    hide Uploaded;
    hide FlightsUploaded;
    hide Grows;
    StepKeeps(s, e, s');
    FlightsStayUploaded(k, blobs, s, e, s');
    if e.PutRange? {
      PutRangeBacked(k, blobs, s, e, s');
    } else if e.Apply? {
      ApplyBacked(k, blobs, s, e, s');
    } else {
      PullRuns.RangesFrame(s, e, s');
      BackedStays(k, blobs, s.repo, s'.repo);
    }
  }

  lemma {:induction false} RunBacked(k: Contract, blobs: map<Hash, Bytes>, states: seq<Sys>, events: seq<Event>, j: nat)
    requires Run(states, events) && j < |states|
    requires RowsBacked(k, blobs, states[0].repo) && FlightsUploaded(k, blobs, states[0])
    requires forall i :: 0 <= i < j ==> Uploads(k, blobs, events[i])
    ensures RowsBacked(k, blobs, states[j].repo) && FlightsUploaded(k, blobs, states[j])
    decreases j
  {
    hide Inv;
    hide Step;
    hide RowsBacked;
    hide FlightsUploaded;
    hide Uploads;
    if j > 0 {
      RunBacked(k, blobs, states, events, j - 1);
      RunKeeps(states, events, j - 1, j - 1);
      assert Step(states[j - 1], events[j - 1], states[j]);
      StepBacked(k, blobs, states[j - 1], events[j - 1], states[j]);
    }
  }

  /** At every moment of a run that starts with an empty pack table, whatever packs the object store still serves,
      their commits are recorded as their frames say. */
  lemma RunPacksRecorded(k: Contract, states: seq<Sys>, events: seq<Event>, j: nat, store: PullStore)
    requires Run(states, events) && j < |states| && states[0].repo.ranges == map[] && states[0].flights == map[]
    requires forall i :: 0 <= i < j ==> Uploads(k, store.blobs, events[i])
    requires PullRuns.Views(states[j].repo, store)
    ensures AllRecorded(k, store)
  {
    hide Inv;
    hide Step;
    hide Uploads;
    hide RowBacked;
    hide Recorded;
    hide Read;
    hide PullRuns.Views;
    RunBacked(k, store.blobs, states, events, j);
    hide Run;
    forall t | t in store.ranges && Read(k, store, store.ranges[t]).Some?
      ensures Recorded(k, store.commits, Read(k, store, store.ranges[t]).value)
    {
      var h := PullRuns.ViewedRow(states[j].repo, store, t);
      ReadBacked(k, states[j].repo, store, t, h);
    }
  }

  /** So at every moment of a run of linked pushes the repository meets everything that `PullEngine.FullPull` asks. */
  lemma RunMeetsPull(k: Contract, states: seq<Sys>, events: seq<Event>, j: nat, store: PullStore)
    requires LinkedRun(states, events) && j < |states|
    requires states[0].repo.ranges == map[] && states[0].flights == map[]
    requires forall i :: 0 <= i < j ==> Uploads(k, store.blobs, events[i])
    requires PullRuns.Views(states[j].repo, store)
    ensures RangesValid(store) && ChainsEnd(store) && Acyclic(store.commits) && AllRecorded(k, store)
  {
    hide *;
    RunOfLinked(states, events);
    PullRuns.RunTableValid(states, events, j, store);
    RunPacksRecorded(k, states, events, j, store);
  }

  lemma RunOfLinked(states: seq<Sys>, events: seq<Event>)
    requires LinkedRun(states, events)
    ensures Run(states, events)
  {}

  lemma ReadBacked(k: Contract, r: Repo, store: PullStore, t: Id, h: string)
    requires h in r.ranges && RowBacked(k, store.blobs, r.commits, h, r.ranges[h])
    requires t in store.ranges && store.ranges[t] == PullRuns.RowOf(h, r.ranges[h]) && PullRuns.Views(r, store)
    requires Read(k, store, store.ranges[t]).Some?
    ensures Recorded(k, store.commits, Read(k, store, store.ranges[t]).value)
  {
    hide Recorded;
    hide Unframe;
    hide GraphOf;
  }
}
