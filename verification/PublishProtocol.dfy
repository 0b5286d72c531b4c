// PublishNativePush statement by statement: open transactions of concurrent callers interleave with each
// other and with every other writer. PostgreSQL makes an insert of a key that another open transaction has
// inserted wait, and holds a branch row that was selected FOR UPDATE until the transaction ends.
module PublishProtocol {
  import opened Wrappers
  import opened CommitGraph
  import opened RackStore
  import RackRuns

  /** How far an open transaction has come. Its writes are invisible to everyone else. */
  datatype Tx =
    | Opened(pub: Publication)
    | Conflicted(pub: Publication)                                            // the claim found a committed row
    | Claimed(pub: Publication)                                               // owns the pending row
    | Locked(pub: Publication, next: nat, writes: map<Id, CommitRow>)         // owns the branch row too
    | Advanced(pub: Publication, writes: map<Id, CommitRow>)                  // head and status written

  /** The committed tables and the open transactions. */
  datatype Server = Server(repo: Repo, txs: map<nat, Tx>)

  type Answer = Result<PublishResult, StoreError>

  datatype Event =
    | Begin(t: nat, pub: Publication)
    | Claim(t: nat)
    | ReadExisting(t: nat)
    | LockBranch(t: nat)
    | WriteNext(t: nat)
    | AdvanceHead(t: nat)
    | Commit(t: nat)
    | Abort(t: nat)          // cancelled, crashed, or chosen as a deadlock victim
    | Other(repo: Repo)      // any other writer commits

  datatype Moved = Moved(server: Server, answer: Option<Answer>)

  predicate HoldsKey(tx: Tx, key: string) {
    (tx.Claimed? || tx.Locked? || tx.Advanced?) && tx.pub.key == key
  }

  predicate HoldsBranch(tx: Tx, branch: string) {
    (tx.Locked? || tx.Advanced?) && tx.pub.branch == branch
  }

  predicate HoldsCommit(tx: Tx, id: Id) {
    (tx.Locked? || tx.Advanced?) && id in tx.writes
  }

  ghost predicate SameBranch(r: Repo, q: Repo, b: string) {
    (b in q.branches <==> b in r.branches) && (b in r.branches ==> q.branches[b] == r.branches[b])
  }

  /** Another writer's transaction: history and idempotency rows survive, branch rows held by an open
      transaction stay, and no commit id inserted by an open transaction is taken. */
  ghost predicate Permitted(s: Server, repo: Repo) {
    && repo.pushes == s.repo.pushes
    && (forall id :: id in s.repo.commits ==> id in repo.commits && repo.commits[id] == s.repo.commits[id])
    && (forall t, b :: t in s.txs && HoldsBranch(s.txs[t], b) ==> SameBranch(s.repo, repo, b))
    && (forall t, id :: t in s.txs && HoldsCommit(s.txs[t], id) && id in repo.commits ==> id in s.repo.commits)
  }

  ghost predicate Enabled(s: Server, e: Event) {
    match e
    case Begin(t, _) => t !in s.txs
    case Claim(t) =>
      t in s.txs && s.txs[t].Opened? && forall u :: u in s.txs && u != t ==> !HoldsKey(s.txs[u], s.txs[t].pub.key)
    case ReadExisting(t) => t in s.txs && s.txs[t].Conflicted?
    case LockBranch(t) =>
      t in s.txs && s.txs[t].Claimed? && forall u :: u in s.txs && u != t ==>
                                                     !HoldsBranch(s.txs[u], s.txs[t].pub.branch)
    case WriteNext(t) =>
      && t in s.txs && s.txs[t].Locked? && s.txs[t].next < |s.txs[t].pub.commits|
      && forall u :: u in s.txs && u != t ==> !HoldsCommit(s.txs[u], s.txs[t].pub.commits[s.txs[t].next].id)
    case AdvanceHead(t) => t in s.txs && s.txs[t].Locked? && s.txs[t].next == |s.txs[t].pub.commits|
    case Commit(t) => t in s.txs && s.txs[t].Advanced?
    case Abort(t) => t in s.txs
    case Other(repo) => Permitted(s, repo)
  }

  predicate Complete(pub: Publication) {
    pub.branch != "" && pub.key != "" && pub.base != "" && pub.target != "" && pub.commits != []
  }

  function Keep(s: Server, t: nat, tx: Tx): Moved { Moved(s.(txs := s.txs[t := tx]), None) }

  /** The transaction ends without a trace. */
  function Close(s: Server, t: nat, answer: Option<Answer>): Moved { Moved(s.(txs := s.txs - {t}), answer) }

  function Fail(s: Server, t: nat, e: StoreError): Moved { Close(s, t, Some(Err(e))) }

  /** The SELECT after a lost claim. */
  function Existing(s: Server, t: nat, pub: Publication): Moved {
    if pub.key !in s.repo.pushes then Fail(s, t, UnexpectedStatus)
    else
      var row := s.repo.pushes[pub.key];
      if row.branch != pub.branch || row.base != pub.base
        || row.target != pub.target then Fail(s, t, IdempotencyConflict)
      else if !row.committed then Fail(s, t, UnexpectedStatus)
      else Close(s, t, Some(Ok(PublishResult(true, row.target))))
  }

  /** SELECT ... FOR UPDATE and the comparison with the base. */
  function Lock(s: Server, t: nat, pub: Publication): Moved {
    if pub.branch !in s.repo.branches then Fail(s, t, BranchNotFound)
    else if s.repo.branches[pub.branch].head != pub.base
      then Fail(s, t, NonFastForward(s.repo.branches[pub.branch].head))
    else Keep(s, t, Locked(pub, 0, map[]))
  }

  /** putCommitTx sees the committed rows and the transaction's own. */
  function Write(s: Server, t: nat, pub: Publication, next: nat, writes: map<Id, CommitRow>): Moved
    requires next < |pub.commits|
  {
    var record := pub.commits[next];
    match PutCommitTx(s.repo.commits + writes, record.id, record.row)
    case Err(e) => Fail(s, t, e)
    case Ok(_) => Keep(s, t, Locked(pub, next + 1, if record.id in s.repo.commits then writes
      else writes[record.id := record.row]))
  }

  /** UPDATE branches ... WHERE head_commit_id = base, with its foreign key. */
  function Advance(s: Server, t: nat, pub: Publication, writes: map<Id, CommitRow>): Moved {
    if pub.target !in s.repo.commits + writes then Fail(s, t, ForeignKeyViolation)
    else if pub.branch !in s.repo.branches
      || s.repo.branches[pub.branch].head != pub.base then Fail(s, t, NonFastForward(pub.base))
    else Keep(s, t, Advanced(pub, writes))
  }

  /** COMMIT makes the commits, the head and the committed row visible at once. */
  function Publish(repo: Repo, pub: Publication, writes: map<Id, CommitRow>): Repo
    requires pub.branch in repo.branches
  {
    MoveHead(repo.(commits := repo.commits + writes, pushes :=
      repo.pushes[pub.key := PushRow(pub.branch, pub.base, pub.target, true)]),
             pub.branch, pub.target)
  }

  function After(s: Server, e: Event): Moved
    requires Enabled(s, e)
    requires e.Commit? ==> s.txs[e.t].pub.branch in s.repo.branches
  {
    match e
    case Begin(t, pub) => if Complete(pub) then Keep(s, t, Opened(pub)) else Moved(s, Some(Err(InvalidPublication)))
    case Claim(t) =>
      var pub := s.txs[t].pub;
      Keep(s, t, if pub.key in s.repo.pushes then Conflicted(pub) else Claimed(pub))
    case ReadExisting(t) => Existing(s, t, s.txs[t].pub)
    case LockBranch(t) => Lock(s, t, s.txs[t].pub)
    case WriteNext(t) => Write(s, t, s.txs[t].pub, s.txs[t].next, s.txs[t].writes)
    case AdvanceHead(t) => Advance(s, t, s.txs[t].pub, s.txs[t].writes)
    case Commit(t) =>
      var tx := s.txs[t];
      Moved(Server(Publish(s.repo, tx.pub, tx.writes), s.txs - {t}), Some(Ok(PublishResult(false, tx.pub.target))))
    case Abort(t) => Close(s, t, None)
    case Other(repo) => Moved(s.(repo := repo), None)
  }

  // ----- the invariant ------------------------------------------------------------------

  /** What an open transaction may rely on, whatever the others do. */
  ghost predicate TxOk(repo: Repo, tx: Tx) {
    && Complete(tx.pub)
    && (tx.Conflicted? ==> tx.pub.key in repo.pushes)
    && ((tx.Claimed? || tx.Locked? || tx.Advanced?) ==> tx.pub.key !in repo.pushes)
    && ((tx.Locked? || tx.Advanced?) ==>
         && tx.pub.branch in repo.branches && repo.branches[tx.pub.branch].head == tx.pub.base
         && tx.writes.Keys !! repo.commits.Keys)
    && (tx.Locked? ==> tx.next <= |tx.pub.commits|
                       && PutAllTx(repo.commits, tx.pub.commits[..tx.next]) == Ok(repo.commits + tx.writes))
    && (tx.Advanced? ==> PutAllTx(repo.commits, tx.pub.commits) == Ok(repo.commits + tx.writes)
                         && tx.pub.target in repo.commits + tx.writes)
  }

  /** Keys, branch rows and new commit ids are each held by at most one open transaction. */
  ghost predicate Exclusive(txs: map<nat, Tx>) {
    && (forall t, u, key :: t in txs && u in txs && HoldsKey(txs[t], key) && HoldsKey(txs[u], key) ==> t == u)
    && (forall t, u, b :: t in txs && u in txs && HoldsBranch(txs[t], b) && HoldsBranch(txs[u], b) ==> t == u)
    && (forall t, u, id :: t in txs && u in txs && HoldsCommit(txs[t], id) && HoldsCommit(txs[u], id) ==> t == u)
  }

  ghost predicate AllCommitted(repo: Repo) {
    forall key :: key in repo.pushes ==> repo.pushes[key].committed
  }

  ghost predicate Inv(s: Server) {
    && AllCommitted(s.repo) && Exclusive(s.txs)
    && forall t :: t in s.txs ==> TxOk(s.repo, s.txs[t])
  }

  // ----- registering commits in a growing table -----------------------------------------

  lemma {:induction false} PutAllSplits(c: map<Id, CommitRow>, records: seq<Record>) returns (w: map<Id, CommitRow>)
    requires PutAllTx(c, records).Ok?
    ensures PutAllTx(c, records) == Ok(c + w) && w.Keys !! c.Keys
    decreases |records|
  {
    if records == [] {
      w := map[];
      assert c + w == c;
    } else {
      var last := records[|records| - 1];
      var w0 := PutAllSplits(c, records[..|records| - 1]);
      w := if last.id in c + w0 then w0 else w0[last.id := last.row];
      assert PutCommitTx(c + w0, last.id, last.row).Ok?;
      assert last.id !in c + w0 ==> (c + w0)[last.id := last.row] == c + w;
    }
  }

  /** Registering the same records over a table that others have extended inserts the same new rows. */
  lemma {:induction false} PutAllGrown(c: map<Id, CommitRow>, d: map<Id, CommitRow>, w: map<Id, CommitRow>,
                                       records: seq<Record>)
    requires PutAllTx(c, records) == Ok(c + w) && w.Keys !! c.Keys && w.Keys !! d.Keys
    requires forall id :: id in c ==> id in d && d[id] == c[id]
    ensures PutAllTx(d, records) == Ok(d + w)
    decreases |records|
  {
    if records == [] {
      assert w == map[] by {
        forall id ensures id !in w {
          assert id in w ==> id in c + w;
        }
      }
      assert d + w == d;
    } else {
      var last := records[|records| - 1];
      var w0 := PutAllSplits(c, records[..|records| - 1]);
      assert PutCommitTx(c + w0, last.id, last.row) == Ok(c + w);
      SplitStep(c, w0, w, last);
      PutAllGrown(c, d, w0, records[..|records| - 1]);
      PutGrown(c, d, w0, w, last);
    }
  }

  lemma SplitStep(c: map<Id, CommitRow>, w0: map<Id, CommitRow>, w: map<Id, CommitRow>, r: Record)
    requires PutCommitTx(c + w0, r.id, r.row) == Ok(c + w) && w0.Keys !! c.Keys && w.Keys !! c.Keys
    ensures w == if r.id in c + w0 then w0 else w0[r.id := r.row]
  {
    var w1 := if r.id in c + w0 then w0 else w0[r.id := r.row];
    assert c + w == c + w1;
    forall id ensures (id in w <==> id in w1) && (id in w ==> w[id] == w1[id]) {
      assert id in c + w <==> id in c + w1;
      if id in w { assert (c + w)[id] == w[id] && (c + w1)[id] == (c + w)[id]; }
    }
  }

  lemma PutGrown(c: map<Id, CommitRow>, d: map<Id, CommitRow>, w0: map<Id, CommitRow>, w: map<Id, CommitRow>, r: Record)
    requires PutCommitTx(c + w0, r.id, r.row) == Ok(c + w)
    requires w == if r.id in c + w0 then w0 else w0[r.id := r.row]
    requires w0.Keys !! c.Keys && w0.Keys !! d.Keys && w.Keys !! d.Keys
    requires forall id :: id in c ==> id in d && d[id] == c[id]
    ensures PutCommitTx(d + w0, r.id, r.row) == Ok(d + w)
  {
    if r.id !in c + w0 {
      assert (d + w0)[r.id := r.row] == d + w;
      forall p | p in r.row.parents && p !in d + w0 ensures p == r.id {
        assert p !in c + w0;
      }
    } else {
      assert (c + w0)[r.id] == (d + w0)[r.id];
    }
  }

  // ----- every step keeps the invariant -------------------------------------------------

  /** What a change of the committed tables must leave alone for `tx` to go on. */
  lemma StillOk(repo: Repo, repo': Repo, tx: Tx)
    requires TxOk(repo, tx)
    requires tx.Conflicted? && tx.pub.key in repo.pushes ==> tx.pub.key in repo'.pushes
    requires HoldsKey(tx, tx.pub.key) ==> tx.pub.key !in repo'.pushes
    requires HoldsBranch(tx, tx.pub.branch) ==> SameBranch(repo, repo', tx.pub.branch)
    requires forall id :: id in repo.commits ==> id in repo'.commits && repo'.commits[id] == repo.commits[id]
    requires forall id :: HoldsCommit(tx, id) && id in repo'.commits ==> id in repo.commits
    ensures TxOk(repo', tx)
  {
    hide PutAllTx;
    if tx.Locked? || tx.Advanced? {
      assert tx.writes.Keys !! repo'.commits.Keys by {
        forall id | id in tx.writes.Keys ensures id !in repo'.commits.Keys {
          assert HoldsCommit(tx, id) && id !in repo.commits.Keys;
        }
      }
      PutAllGrown(repo.commits, repo'.commits, tx.writes, if tx.Locked? then tx.pub.commits[..tx.next]
        else tx.pub.commits);
    }
  }

  /** A transaction that keeps the repository and whose own entry is fine keeps the invariant. */
  lemma KeepOk(s: Server, t: nat, tx: Tx)
    requires Inv(s) && t in s.txs && TxOk(s.repo, tx)
    requires forall key :: HoldsKey(tx, key) && !HoldsKey(s.txs[t], key) ==>
                           forall u :: u in s.txs && u != t ==> !HoldsKey(s.txs[u], key)
    requires forall b :: HoldsBranch(tx, b) && !HoldsBranch(s.txs[t], b) ==>
                         forall u :: u in s.txs && u != t ==> !HoldsBranch(s.txs[u], b)
    requires forall id :: HoldsCommit(tx, id) && !HoldsCommit(s.txs[t], id) ==>
                          forall u :: u in s.txs && u != t ==> !HoldsCommit(s.txs[u], id)
    ensures Inv(s.(txs := s.txs[t := tx]))
  {
    hide TxOk;
    hide HoldsKey;
    hide HoldsBranch;
    hide HoldsCommit;
  }

  lemma BeginStep(s: Server, e: Event)
    requires Inv(s) && Enabled(s, e) && e.Begin?
    ensures Inv(After(s, e).server)
  {}

  lemma ClaimStep(s: Server, e: Event)
    requires Inv(s) && Enabled(s, e) && e.Claim?
    ensures Inv(After(s, e).server)
  {
    var pub := s.txs[e.t].pub;
    KeepOk(s, e.t, if pub.key in s.repo.pushes then Conflicted(pub) else Claimed(pub));
  }

  lemma CloseOk(s: Server, t: nat)
    requires Inv(s)
    ensures Inv(s.(txs := s.txs - {t}))
  {
    hide TxOk;
    hide HoldsKey;
    hide HoldsBranch;
    hide HoldsCommit;
  }

  lemma LockStep(s: Server, e: Event)
    requires Inv(s) && Enabled(s, e) && e.LockBranch?
    ensures Inv(After(s, e).server)
  {
    var pub := s.txs[e.t].pub;
    CloseOk(s, e.t);
    assert TxOk(s.repo, s.txs[e.t]);
    if pub.branch in s.repo.branches && s.repo.branches[pub.branch].head == pub.base {
      assert s.repo.commits + map[] == s.repo.commits;
      KeepOk(s, e.t, Locked(pub, 0, map[]));
    }
  }

  /** One more record of the registration loop. */
  lemma PutAllNext(c: map<Id, CommitRow>, w: map<Id, CommitRow>, records: seq<Record>, n: nat)
    requires n < |records| && w.Keys !! c.Keys && PutAllTx(c, records[..n]) == Ok(c + w)
    ensures PutAllTx(c, records[..n + 1]) == PutCommitTx(c + w, records[n].id, records[n].row)
    ensures PutCommitTx(c + w, records[n].id, records[n].row).Ok? ==>
              var v := if records[n].id in c then w else w[records[n].id := records[n].row];
              v.Keys !! c.Keys && PutAllTx(c, records[..n + 1]) == Ok(c + v)
  {
    var r := records[n];
    assert records[..n + 1][..n] == records[..n];
    if r.id !in c {
      assert (c + w)[r.id := r.row] == c + w[r.id := r.row];
      assert r.id in w ==> (c + w)[r.id] == w[r.id];
    }
  }

  lemma WriteStep(s: Server, e: Event)
    requires Inv(s) && Enabled(s, e) && e.WriteNext?
    ensures Inv(After(s, e).server)
  {
    hide PutCommitTx;
    hide TxOk;
    hide Exclusive;
    hide AllCommitted;
    var tx := s.txs[e.t];
    var record := tx.pub.commits[tx.next];
    CloseOk(s, e.t);
    if PutCommitTx(s.repo.commits + tx.writes, record.id, record.row).Ok? {
      var writes := if record.id in s.repo.commits then tx.writes else tx.writes[record.id := record.row];
      WrittenOk(s.repo, tx);
      KeepOk(s, e.t, Locked(tx.pub, tx.next + 1, writes));
    }
  }

  /** One more commit written inside the transaction. */
  lemma WrittenOk(repo: Repo, tx: Tx)
    requires TxOk(repo, tx) && tx.Locked? && tx.next < |tx.pub.commits|
    requires var record := tx.pub.commits[tx.next];
             PutCommitTx(repo.commits + tx.writes, record.id, record.row).Ok?
    ensures var record := tx.pub.commits[tx.next];
            TxOk(repo, Locked(tx.pub, tx.next + 1, if record.id in repo.commits then tx.writes
                                                   else tx.writes[record.id := record.row]))
  {
    hide PutAllTx;
    hide PutCommitTx;
    hide Complete;
    PutAllNext(repo.commits, tx.writes, tx.pub.commits, tx.next);
  }

  lemma AdvanceStep(s: Server, e: Event)
    requires Inv(s) && Enabled(s, e) && e.AdvanceHead?
    ensures Inv(After(s, e).server)
  {
    hide PutAllTx;
    var tx := s.txs[e.t];
    CloseOk(s, e.t);
    assert TxOk(s.repo, tx);
    assert tx.pub.commits[..|tx.pub.commits|] == tx.pub.commits;
    if tx.pub.target in s.repo.commits + tx.writes {
      KeepOk(s, e.t, Advanced(tx.pub, tx.writes));
    }
  }

  lemma CommitStep(s: Server, e: Event)
    requires Inv(s) && Enabled(s, e) && e.Commit?
    ensures s.txs[e.t].pub.branch in s.repo.branches && Inv(After(s, e).server)
  {
    hide PutAllTx;
    var tx := s.txs[e.t];
    assert TxOk(s.repo, tx);
    var s' := After(s, e).server;
    CloseOk(s, e.t);
    forall u | u in s'.txs ensures TxOk(s'.repo, s'.txs[u]) {
      CommitKeepsTx(s, e, u);
    }
    hide TxOk;
    hide HoldsKey;
    hide HoldsBranch;
    hide HoldsCommit;
  }

  lemma CommitKeepsTx(s: Server, e: Event, u: nat)
    requires Inv(s) && Enabled(s, e) && e.Commit? && u in After(s, e).server.txs
    ensures TxOk(After(s, e).server.repo, After(s, e).server.txs[u])
  {
    hide PutAllTx;
    var tx, other := s.txs[e.t], s.txs[u];
    assert TxOk(s.repo, tx);
    assert HoldsKey(tx, tx.pub.key) && HoldsBranch(tx, tx.pub.branch);
    assert HoldsKey(other, other.pub.key) ==> other.pub.key != tx.pub.key;
    assert HoldsBranch(other, other.pub.branch) ==> other.pub.branch != tx.pub.branch;
    StillOk(s.repo, After(s, e).server.repo, other);
  }

  lemma OtherStep(s: Server, e: Event)
    requires Inv(s) && Enabled(s, e) && e.Other?
    ensures Inv(After(s, e).server)
  {
    forall u | u in s.txs ensures TxOk(e.repo, s.txs[u]) {
      StillOk(s.repo, e.repo, s.txs[u]);
    }
  }

  /** The invariant holds throughout, so a commit always finds its branch. */
  lemma StepKeeps(s: Server, e: Event)
    requires Inv(s) && Enabled(s, e)
    ensures e.Commit? ==> s.txs[e.t].pub.branch in s.repo.branches
    ensures Inv(After(s, e).server)
  {
    hide Inv;
    hide PutAllTx;
    match e
    case Begin(_, _) => BeginStep(s, e);
    case Claim(_) => ClaimStep(s, e);
    case ReadExisting(t) => CloseOk(s, t);
    case LockBranch(_) => LockStep(s, e);
    case WriteNext(_) => WriteStep(s, e);
    case AdvanceHead(_) => AdvanceStep(s, e);
    case Commit(_) => CommitStep(s, e);
    case Abort(t) => CloseOk(s, t);
    case Other(_) => OtherStep(s, e);
  }

  // ----- each answer is one atomic publication ------------------------------------------

  /** The publication an event works on. */
  function PubOf(s: Server, e: Event): Publication
    requires Enabled(s, e) && !e.Abort? && !e.Other?
  {
    if e.Begin? then e.pub else s.txs[e.t].pub
  }

  /** `m` answers `pub` exactly as the atomic transaction would on the tables as they stand now. */
  ghost predicate AsAtomic(repo: Repo, pub: Publication, m: Moved)
    requires m.answer.Some?
  {
    match PublishTx(repo, pub)
    case Ok((r, result)) => m.answer.value == Ok(result) && m.server.repo == r
    case Err(e) => m.answer.value == Err(e) && m.server.repo == repo
  }

  lemma WriteAnswer(s: Server, e: Event)
    requires Inv(s) && Enabled(s, e) && e.WriteNext? && After(s, e).answer.Some?
    ensures AsAtomic(s.repo, PubOf(s, e), After(s, e))
  {
    hide PutAllTx;
    hide PutCommitTx;
    var tx := s.txs[e.t];
    var record := tx.pub.commits[tx.next];
    assert TxOk(s.repo, tx);
    PutAllNext(s.repo.commits, tx.writes, tx.pub.commits, tx.next);
    PutAllFails(s.repo.commits, tx.pub.commits, tx.next,
                PutCommitTx(s.repo.commits + tx.writes, record.id, record.row).error);
  }

  lemma AdvanceAnswer(s: Server, e: Event)
    requires Inv(s) && Enabled(s, e) && e.AdvanceHead? && After(s, e).answer.Some?
    ensures AsAtomic(s.repo, PubOf(s, e), After(s, e))
  {
    hide PutAllTx;
    var tx := s.txs[e.t];
    assert TxOk(s.repo, tx);
    assert tx.pub.commits[..|tx.pub.commits|] == tx.pub.commits;
  }

  lemma CommitAnswer(s: Server, e: Event)
    requires Inv(s) && Enabled(s, e) && e.Commit?
    ensures s.txs[e.t].pub.branch in s.repo.branches && AsAtomic(s.repo, PubOf(s, e), After(s, e))
  {
    hide PutAllTx;
    assert TxOk(s.repo, s.txs[e.t]);
  }

  lemma EarlyAnswer(s: Server, e: Event)
    requires Inv(s) && Enabled(s, e) && After(s, e).answer.Some?
    requires e.Begin? || e.Claim? || e.ReadExisting? || e.LockBranch?
    ensures AsAtomic(s.repo, PubOf(s, e), After(s, e))
  {
    hide PutAllTx;
    if !e.Begin? {
      assert TxOk(s.repo, s.txs[e.t]);
    }
  }

  /** Linearizability: whenever a caller is answered, the answer and the new tables are those of the atomic
      transaction executed at that instant; every other statement, and every abandoned attempt, leaves the
      tables alone. The unexpected-status error never occurs. */
  lemma AnswersAreAtomic(s: Server, e: Event)
    requires Inv(s) && Enabled(s, e)
    ensures e.Commit? ==> s.txs[e.t].pub.branch in s.repo.branches
    ensures !e.Other? && After(s, e).answer.None? ==> After(s, e).server.repo == s.repo
    ensures After(s, e).answer.Some? ==> !e.Abort? && !e.Other? && AsAtomic(s.repo, PubOf(s, e), After(s, e))
    ensures After(s, e).answer != Some(Err(UnexpectedStatus))
  {
    hide AsAtomic;
    hide PutAllTx;
    hide PublishTx;
    StepKeeps(s, e);
    if e.Commit? {
      CommitAnswer(s, e);
    } else if After(s, e).answer.Some? {
      if e.WriteNext? {
        WriteAnswer(s, e);
      } else if e.AdvanceHead? {
        AdvanceAnswer(s, e);
      } else {
        EarlyAnswer(s, e);
        assert e.ReadExisting? ==> TxOk(s.repo, s.txs[e.t]);
      }
    }
  }

  // ----- whole runs ---------------------------------------------------------------------

  ghost predicate Advances(s: Server, e: Event, s': Server) {
    && Enabled(s, e) && (e.Commit? ==> s.txs[e.t].pub.branch in s.repo.branches)
    && s' == After(s, e).server
  }

  /** Any interleaving of statements from a consistent state. */
  ghost predicate Run(states: seq<Server>, events: seq<Event>) {
    && |states| == |events| + 1 && Inv(states[0])
    && forall i :: 0 <= i < |events| ==> Advances(states[i], events[i], states[i + 1])
  }

  /** A run that starts with no transaction open and only committed keys: what a server finds when it comes up. */
  lemma FreshStartRun(states: seq<Server>, events: seq<Event>)
    requires |states| == |events| + 1 && states[0].txs == map[] && AllCommitted(states[0].repo)
    requires forall i :: 0 <= i < |events| ==> Advances(states[i], events[i], states[i + 1])
    ensures Run(states, events) && forall j :: 0 <= j < |states| ==> Inv(states[j])
  {
    hide Enabled;
    hide After;
    assert Inv(states[0]);
    hide Inv;
    forall j | 0 <= j < |states| ensures Inv(states[j]) {
      RunInv(states, events, j);
    }
  }

  lemma {:induction false} RunInv(states: seq<Server>, events: seq<Event>, j: nat)
    requires Run(states, events) && j < |states|
    ensures Inv(states[j])
    decreases j
  {
    hide Inv;
    hide Enabled;
    hide After;
    if j > 0 {
      RunInv(states, events, j - 1);
      assert Advances(states[j - 1], events[j - 1], states[j]);
      StepKeeps(states[j - 1], events[j - 1]);
    }
  }

  lemma KeyStays(s: Server, e: Event, s': Server, key: string)
    requires Inv(s) && Advances(s, e, s') && key in s.repo.pushes
    ensures key in s'.repo.pushes && s'.repo.pushes[key] == s.repo.pushes[key]
  {
    hide PutAllTx;
    hide PutCommitTx;
    if e.Commit? {
      assert TxOk(s.repo, s.txs[e.t]);
    }
  }

  /** A committed idempotency row never changes and never goes away. */
  lemma {:induction false} KeyStaysForever(states: seq<Server>, events: seq<Event>, i: nat, j: nat, key: string)
    requires Run(states, events) && i <= j < |states| && key in states[i].repo.pushes
    ensures key in states[j].repo.pushes && states[j].repo.pushes[key] == states[i].repo.pushes[key]
    decreases j
  {
    hide Inv;
    hide Enabled;
    hide After;
    if i < j {
      KeyStaysForever(states, events, i, j - 1, key);
      RunInv(states, events, j - 1);
      assert Advances(states[j - 1], events[j - 1], states[j]);
      KeyStays(states[j - 1], events[j - 1], states[j], key);
    }
  }

  /** The caller of `pub` gets a fresh result in this step. */
  ghost predicate Fresh(s: Server, e: Event, pub: Publication) {
    e.Commit? && e.t in s.txs && s.txs[e.t].pub == pub
  }

  lemma FreshWrites(s: Server, e: Event, s': Server, pub: Publication)
    requires Inv(s) && Advances(s, e, s') && Fresh(s, e, pub)
    ensures pub.key !in s.repo.pushes && pub.branch in s.repo.branches && s.repo.branches[pub.branch].head == pub.base
    ensures pub.key in s'.repo.pushes && s'.repo.pushes[pub.key] == PushRow(pub.branch, pub.base, pub.target, true)
    ensures s'.repo.branches == s.repo.branches[pub.branch := s.repo.branches[pub.branch].(head := pub.target)]
  {
    hide PutAllTx;
    assert TxOk(s.repo, s.txs[e.t]);
  }

  /** Over any interleaving an idempotency key is published, and moves a head, at most once. */
  lemma KeyPublishedOnce(states: seq<Server>, events: seq<Event>, i: nat, k: nat, pub: Publication, other: Publication)
    requires Run(states, events) && i < k < |events|
    requires Fresh(states[i], events[i], pub) && Fresh(states[k], events[k], other)
    ensures pub.key != other.key
  {
    hide Inv;
    hide Enabled;
    hide After;
    RunInv(states, events, i);
    RunInv(states, events, k);
    assert Advances(states[i], events[i], states[i + 1]) && Advances(states[k], events[k], states[k + 1]);
    FreshWrites(states[i], events[i], states[i + 1], pub);
    FreshWrites(states[k], events[k], states[k + 1], other);
    if pub.key == other.key {
      KeyStaysForever(states, events, i + 1, k, pub.key);
      assert false;
    }
  }

  /** Once `pub` has been published, every later answer under its key repeats the original target to an identical
      request and refuses any other one, wherever the branch has moved since. */
  lemma RetriesAgree(states: seq<Server>, events: seq<Event>, i: nat, k: nat, pub: Publication)
    requires Run(states, events) && i < k < |events| && Fresh(states[i], events[i], pub)
    requires Enabled(states[k], events[k]) && !events[k].Commit? && After(states[k], events[k]).answer.Some?
    requires !events[k].Abort? && !events[k].Other?
    requires Complete(PubOf(states[k], events[k])) && PubOf(states[k], events[k]).key == pub.key
    ensures var retry := PubOf(states[k], events[k]);
            After(states[k], events[k]).answer.value ==
              if retry.branch == pub.branch && retry.base == pub.base && retry.target == pub.target
              then Ok(PublishResult(true, pub.target)) else Err(IdempotencyConflict)
  {
    hide Inv;
    hide PutAllTx;
    hide Enabled;
    hide After;
    RunInv(states, events, i);
    RunInv(states, events, k);
    assert Advances(states[i], events[i], states[i + 1]) && Advances(states[k], events[k], states[k + 1]);
    FreshWrites(states[i], events[i], states[i + 1], pub);
    KeyStaysForever(states, events, i + 1, k, pub.key);
    AnswersAreAtomic(states[k], events[k]);
  }

  // ----- the other writers --------------------------------------------------------------

  /** The rows a step of RackRuns writes are not held by an open publication. */
  ghost predicate Unheld(s: Server, sys: RackRuns.Sys, e: RackRuns.Event) {
    forall t :: t in s.txs ==>
      match e
      case PutCommit(id, _) => !HoldsCommit(s.txs[t], id)
      case StoreNext(f) =>
        f in sys.flights && sys.flights[f].Storing? && sys.flights[f].next < |sys.flights[f].push.records| ==>
          !HoldsCommit(s.txs[t], sys.flights[f].push.records[sys.flights[f].next].id)
      case Swap(f) => f in sys.flights && sys.flights[f].Swapping? ==> !HoldsBranch(s.txs[t], sys.flights[f].branch)
      case Apply(merge) => !HoldsBranch(s.txs[t], merge.branch) && !HoldsCommit(s.txs[t], merge.result)
      case Create(branch, _) => !HoldsBranch(s.txs[t], branch)
      case Delete(branch) => !HoldsBranch(s.txs[t], branch)
      case _ => true
  }

  lemma PushRowsKept(sys: RackRuns.Sys, e: RackRuns.Event, sys': RackRuns.Sys)
    requires RackRuns.Step(sys, e, sys') && !e.Publish?
    ensures sys'.repo.pushes == sys.repo.pushes
  {
    hide CommitGraph.Reaches;
    hide GraphOf;
    hide PutCommitTx;
    hide RackRuns.Accepted;
  }

  /** Only these steps write commits. */
  lemma CommitsKept(sys: RackRuns.Sys, e: RackRuns.Event, sys': RackRuns.Sys)
    requires RackRuns.Step(sys, e, sys') && !e.Publish? && !e.PutCommit? && !e.StoreNext? && !e.Apply?
    ensures sys'.repo.commits == sys.repo.commits
  {
    hide CommitGraph.Reaches;
    hide GraphOf;
    hide RackRuns.Accepted;
  }

  lemma CommitAdded(sys: RackRuns.Sys, e: RackRuns.Event, sys': RackRuns.Sys)
    requires RackRuns.Step(sys, e, sys') && (e.PutCommit? || e.StoreNext? || e.Apply?)
    ensures RackRuns.Grows(sys.repo.commits, sys'.repo.commits)
  {
    hide CommitGraph.Reaches;
    hide GraphOf;
  }

  lemma HistoryKept(sys: RackRuns.Sys, e: RackRuns.Event, sys': RackRuns.Sys)
    requires RackRuns.Step(sys, e, sys') && !e.Publish?
    ensures sys'.repo.pushes == sys.repo.pushes
    ensures forall id :: id in sys.repo.commits ==>
              id in sys'.repo.commits && sys'.repo.commits[id] == sys.repo.commits[id]
  {
    hide RackRuns.Step;
    PushRowsKept(sys, e, sys');
    if e.PutCommit? || e.StoreNext? || e.Apply? {
      CommitAdded(sys, e, sys');
    } else {
      CommitsKept(sys, e, sys');
    }
  }

  lemma BranchKept(s: Server, sys: RackRuns.Sys, e: RackRuns.Event, sys': RackRuns.Sys, t: nat, b: string)
    requires sys.repo == s.repo && RackRuns.Step(sys, e, sys') && !e.Publish? && Unheld(s, sys, e)
    requires t in s.txs && HoldsBranch(s.txs[t], b)
    ensures SameBranch(s.repo, sys'.repo, b)
  {
    hide CommitGraph.Reaches;
    hide GraphOf;
    hide RackRuns.Accepted;
    hide HoldsCommit;
  }

  lemma CommitNotTaken(s: Server, sys: RackRuns.Sys, e: RackRuns.Event, sys': RackRuns.Sys, t: nat, id: Id)
    requires sys.repo == s.repo && RackRuns.Step(sys, e, sys') && !e.Publish? && Unheld(s, sys, e)
    requires t in s.txs && HoldsCommit(s.txs[t], id) && id in sys'.repo.commits
    ensures id in s.repo.commits
  {
    hide CommitGraph.Reaches;
    hide GraphOf;
    hide RackRuns.Accepted;
    hide HoldsBranch;
  }

  /** All other transactions of the store may run in between, as far as the row locks let them. */
  lemma OthersPermitted(s: Server, sys: RackRuns.Sys, e: RackRuns.Event, sys': RackRuns.Sys)
    requires sys.repo == s.repo && RackRuns.Step(sys, e, sys') && !e.Publish? && Unheld(s, sys, e)
    ensures Permitted(s, sys'.repo)
  {
    hide *;
    PermittedIf(s, sys'.repo) by {
      HistoryKept(sys, e, sys');
      forall t, b | t in s.txs && HoldsBranch(s.txs[t], b) ensures SameBranch(s.repo, sys'.repo, b) {
        BranchKept(s, sys, e, sys', t, b);
      }
      forall t, id | t in s.txs && HoldsCommit(s.txs[t], id) && id in sys'.repo.commits ensures id in s.repo.commits {
        CommitNotTaken(s, sys, e, sys', t, id);
      }
    }
  }

  lemma PermittedIf(s: Server, repo: Repo)
    requires repo.pushes == s.repo.pushes
    requires forall id :: id in s.repo.commits ==> id in repo.commits && repo.commits[id] == s.repo.commits[id]
    requires forall t, b :: t in s.txs && HoldsBranch(s.txs[t], b) ==> SameBranch(s.repo, repo, b)
    requires forall t, id :: t in s.txs && HoldsCommit(s.txs[t], id) && id in repo.commits ==> id in s.repo.commits
    ensures Permitted(s, repo)
  {
    hide HoldsBranch;
    hide HoldsCommit;
    hide SameBranch;
  }

  /** An answered publication of a verified chain is a publishing step of those runs. */
  lemma AnswerIsRackStep(s: Server, e: Event, sys: RackRuns.Sys)
    requires Inv(s) && Enabled(s, e) && sys.repo == s.repo && !e.Abort? && !e.Other?
    requires e.Commit? ==> s.txs[e.t].pub.branch in s.repo.branches
    requires After(s, e).answer.Some?
    requires var pub := PubOf(s, e); pub.base != "" ==> RackRuns.Chain(pub.base, pub.commits, pub.target)
    ensures RackRuns.Step(sys, RackRuns.Publish(PubOf(s, e)), sys.(repo := After(s, e).server.repo))
  {
    hide PutAllTx;
    hide Inv;
    hide After;
    hide Enabled;
    AnswersAreAtomic(s, e);
  }
}
