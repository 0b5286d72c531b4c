// A push that HandlePush carries out alone is one run of the stages that interleave when it is not alone.
module PushRuns {
  import opened Wrappers
  import opened CommitGraph
  import opened RackStore
  import opened RackRuns
  import opened PushEngine
  import opened PushLaws

  /** One run after another. */
  ghost predicate Leads(s: Sys, events: seq<Event>, t: Sys)
    decreases |events|
  {
    if events == [] then s == t
    else exists mid :: Step(s, events[0], mid) && Leads(mid, events[1..], t)
  }

  lemma {:induction false} LeadsJoin(s: Sys, a: seq<Event>, t: Sys, b: seq<Event>, u: Sys)
    requires Leads(s, a, t) && Leads(t, b, u)
    ensures Leads(s, a + b, u)
    decreases |a|
  {
    hide Step;
    if a == [] {
      assert a + b == b;
    } else {
      var mid :| Step(s, a[0], mid) && Leads(mid, a[1..], t);
      LeadsJoin(mid, a[1..], t, b, u);
      assert (a + b)[1..] == a[1..] + b && (a + b)[0] == a[0];
    }
  }

  lemma OneLeads(s: Sys, e: Event, t: Sys)
    requires Step(s, e, t)
    ensures Leads(s, [e], t)
  {
    hide Step;
    assert [e][1..] == [] && Leads(t, [], t);
  }

  /** A chain of steps from a consistent state is a run. */
  lemma {:induction false} LeadsRuns(s: Sys, events: seq<Event>, t: Sys) returns (states: seq<Sys>)
    requires Inv(s) && Leads(s, events, t)
    ensures Run(states, events) && states[0] == s && states[|events|] == t
    decreases |events|
  {
    hide Step;
    hide Inv;
    if events == [] {
      states := [s];
    } else {
      var mid :| Step(s, events[0], mid) && Leads(mid, events[1..], t);
      StepKeeps(s, events[0], mid);
      var rest := LeadsRuns(mid, events[1..], t);
      states := [s] + rest;
      forall i | 0 <= i < |events| ensures Step(states[i], events[i], states[i + 1]) {
        if i > 0 { assert events[i] == events[1..][i - 1]; }
      }
    }
  }

  function Flying(s: Sys, repo: Repo, f: string, flight: Flight): Sys {
    s.(repo := repo, flights := s.flights[f := flight])
  }

  /** Storing the commits one after the other. */
  lemma {:induction false} StoringLeads(s: Sys, f: string, push: Push, n: nat) returns (events: seq<Event>)
    requires n <= |push.records| && PutAllTx(s.repo.commits, push.records[..n]).Ok?
    ensures Leads(Flying(s, s.repo, f, Storing(push, 0)), events,
                  Flying(s, s.repo.(commits := PutAllTx(s.repo.commits, push.records[..n]).value), f,
                         Storing(push, n)))
    decreases n
  {
    hide Step;
    if n == 0 {
      events := [];
      assert push.records[..0] == [];
      assert s.repo.(commits := s.repo.commits) == s.repo;
    } else {
      assert push.records[..n][..n - 1] == push.records[..n - 1];
      var front := StoringLeads(s, f, push, n - 1);
      StoreOne(s, f, push, n);
      var mid := Flying(s, s.repo.(commits := PutAllTx(s.repo.commits, push.records[..n - 1]).value), f,
                        Storing(push, n - 1));
      var last := Flying(s, s.repo.(commits := PutAllTx(s.repo.commits, push.records[..n]).value), f,
                         Storing(push, n));
      OneLeads(mid, StoreNext(f), last);
      LeadsJoin(Flying(s, s.repo, f, Storing(push, 0)), front, mid, [StoreNext(f)], last);
      events := front + [StoreNext(f)];
    }
  }

  lemma StoreOne(s: Sys, f: string, push: Push, n: nat)
    requires 0 < n <= |push.records| && PutAllTx(s.repo.commits, push.records[..n]).Ok?
    ensures PutAllTx(s.repo.commits, push.records[..n - 1]).Ok?
    ensures Step(Flying(s, s.repo.(commits := PutAllTx(s.repo.commits, push.records[..n - 1]).value), f,
                        Storing(push, n - 1)), StoreNext(f),
                 Flying(s, s.repo.(commits := PutAllTx(s.repo.commits, push.records[..n]).value), f,
                        Storing(push, n)))
  {
    hide PutCommitTx;
    hide Reaches;
    hide GraphOf;
    assert push.records[..n][..n - 1] == push.records[..n - 1];
    var before := Flying(s, s.repo.(commits := PutAllTx(s.repo.commits, push.records[..n - 1]).value), f,
                         Storing(push, n - 1));
    var after := Flying(s, s.repo.(commits := PutAllTx(s.repo.commits, push.records[..n]).value), f,
                        Storing(push, n));
    assert after.flights == before.flights[f := Storing(push, n)];
    hide PutAllTx;
  }

  /** What is left to do once commits and pack row are stored. */
  lemma HeadLeads(s: Sys, f: string, req: PushRequest, r: Repo) returns (events: seq<Event>)
    requires f !in s.flights && HeadTx(s.repo, s.now, req) == Ok(r)
    ensures Leads(Flying(s, s.repo, f, Ranged(AsPush(req))), events, s.(repo := r))
  {
    hide Reaches;
    hide GraphOf;
    var push := AsPush(req);
    var a := Flying(s, s.repo, f, Ranged(push));
    assert s.flights[f := Ranged(push)] - {f} == s.flights;
    if req.branch !in s.repo.branches {
      assert Step(a, ReadHead(f), s);
      assert Step(s, Create(req.branch, req.target), s.(repo := r));
      hide Step;
      OneLeads(a, ReadHead(f), s);
      OneLeads(s, Create(req.branch, req.target), s.(repo := r));
      LeadsJoin(a, [ReadHead(f)], s, [Create(req.branch, req.target)], s.(repo := r));
      events := [ReadHead(f)] + [Create(req.branch, req.target)];
    } else {
      var head := s.repo.branches[req.branch].head;
      var swapping := Flying(s, s.repo, f, Swapping(req.branch, head, req.target));
      if head == req.base {
        SwapLeads(s, f, req.branch, head, req.target, r);
        assert a.flights[f := Swapping(req.branch, head, req.target)] == swapping.flights;
        assert Step(a, ReadHead(f), swapping);
        hide Step;
        OneLeads(a, ReadHead(f), swapping);
        LeadsJoin(a, [ReadHead(f)], swapping, [Swap(f)], s.(repo := r));
        events := [ReadHead(f)] + [Swap(f)];
      } else if head == req.target {
        assert Step(a, ReadHead(f), s);
        hide Step;
        OneLeads(a, ReadHead(f), s);
        events := [ReadHead(f)];
      } else {
        var checking := Flying(s, s.repo, f, Checking(req.branch, head, req.target));
        SwapLeads(s, f, req.branch, head, req.target, r);
        assert a.flights[f := Checking(req.branch, head, req.target)] == checking.flights;
        assert checking.flights[f := Swapping(req.branch, head, req.target)] == swapping.flights;
        assert Step(a, ReadHead(f), checking);
        assert Step(checking, CheckAncestor(f), swapping);
        hide Step;
        OneLeads(a, ReadHead(f), checking);
        OneLeads(checking, CheckAncestor(f), swapping);
        LeadsJoin(a, [ReadHead(f)], checking, [CheckAncestor(f)], swapping);
        LeadsJoin(a, [ReadHead(f)] + [CheckAncestor(f)], swapping, [Swap(f)], s.(repo := r));
        events := [ReadHead(f)] + [CheckAncestor(f)] + [Swap(f)];
      }
    }
  }

  lemma SwapLeads(s: Sys, f: string, branch: string, expected: Id, target: Id, r: Repo)
    requires f !in s.flights && CompareAndSwapTx(s.repo, s.now, branch, expected, target) == Ok(r)
    ensures Leads(Flying(s, s.repo, f, Swapping(branch, expected, target)), [Swap(f)], s.(repo := r))
  {
    hide Reaches;
    hide GraphOf;
    var a := Flying(s, s.repo, f, Swapping(branch, expected, target));
    assert a.flights - {f} == s.flights;
    assert Step(a, Swap(f), s.(repo := r));
    hide Step;
    OneLeads(a, Swap(f), s.(repo := r));
  }

  lemma RangeLeads(s: Sys, f: string, push: Push, r: Repo)
    requires PutPackRangeTx(s.repo, push.hash, RangeOf(push)) == Ok(r)
    ensures Leads(Flying(s, s.repo, f, Storing(push, |push.records|)), [PutRange(f)], Flying(s, r, f, Ranged(push)))
  {
    hide Reaches;
    hide GraphOf;
    hide PutPackRangeTx;
    var a := Flying(s, s.repo, f, Storing(push, |push.records|));
    assert a.flights[f := Ranged(push)] == s.flights[f := Ranged(push)];
    assert Step(a, PutRange(f), Flying(s, r, f, Ranged(push)));
    hide Step;
    OneLeads(a, PutRange(f), Flying(s, r, f, Ranged(push)));
  }

  lemma BeginLeads(s: Sys, f: string, push: Push)
    requires Accepted(s.repo.commits, push)
    ensures Leads(s, [BeginPush(f, push)], Flying(s, s.repo, f, Storing(push, 0)))
  {
    hide Reaches;
    hide GraphOf;
    hide Accepted;
    assert Step(s, BeginPush(f, push), Flying(s, s.repo, f, Storing(push, 0)));
    hide Step;
    OneLeads(s, BeginPush(f, push), Flying(s, s.repo, f, Storing(push, 0)));
  }

  /** A push that passes its checks and succeeds alone is a run: it begins, stores its commits one by one and its row,
      reads the head, and creates or swaps the branch. Everything proved of all runs is proved of it. */
  lemma PushIsRun(s: Sys, f: string, req: PushRequest, r: Repo) returns (states: seq<Sys>, events: seq<Event>)
    requires Inv(s) && f !in s.flights && Accepted(s.repo.commits, AsPush(req))
    requires PushTx(s.repo, s.now, req) == Ok(r)
    ensures Run(states, events) && states[0] == s && states[|events|] == s.(repo := r)
    ensures |events| > 0 && events[0] == BeginPush(f, AsPush(req))
  {
    hide Inv;
    hide Accepted;
    hide HeadTx;
    hide PutAllTx;
    hide PutPackRangeTx;
    hide Leads;
    var push := AsPush(req);
    var commits := PutAllTx(s.repo.commits, req.records).value;
    var stored := s.(repo := s.repo.(commits := commits));
    var ranged := PutPackRangeTx(stored.repo, push.hash, RangeOf(push)).value;
    assert push.records[..|push.records|] == push.records;
    BeginLeads(s, f, push);
    var storing := StoringLeads(s, f, push, |push.records|);
    RangeLeads(stored, f, push, ranged);
    var heading := HeadLeads(s.(repo := ranged), f, req, r);
    var begun := Flying(s, s.repo, f, Storing(push, 0));
    var full := Flying(s, stored.repo, f, Storing(push, |push.records|));
    var rowed := Flying(s, ranged, f, Ranged(push));
    LeadsJoin(s, [BeginPush(f, push)], begun, storing, full);
    LeadsJoin(s, [BeginPush(f, push)] + storing, full, [PutRange(f)], rowed);
    LeadsJoin(s, [BeginPush(f, push)] + storing + [PutRange(f)], rowed, heading, s.(repo := r));
    events := [BeginPush(f, push)] + storing + [PutRange(f)] + heading;
    states := LeadsRuns(s, events, s.(repo := r));
  }
}
