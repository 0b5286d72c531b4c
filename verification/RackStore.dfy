// The metadata store (internal/server/storage/postgres/store.go): tables as maps, one transaction per call.
module RackStore {
  import opened Wrappers
  import opened CommitGraph

  datatype CommitRow = CommitRow(snapshot: Id, parents: seq<Id>, author: string, message: string, time: int,
                                 format: nat)
  datatype Branch = Branch(head: Id, deleted: bool)
  datatype Lease = Lease(subject: string, token: string, source: Id, target: Id, base: Id, expires: nat)
  datatype PushRow = PushRow(branch: string, base: Id, target: Id, committed: bool)
  datatype RangeRow = RangeRow(base: Id, target: Id, format: nat)

  datatype Repo = Repo(
    commits: map<Id, CommitRow>, branches: map<string, Branch>, defaultBranch: Option<string>,
    leases: map<string, Lease>, pushes: map<string, PushRow>, ranges: map<string, RangeRow>)

  datatype StoreError =
    | BranchNotFound | BranchAlreadyExists | CommitNotFound | DefaultBranchProtected
    | NonFastForward(head: Id)
    | InvalidMergeLease | MergeLeaseHeld | MergeLeaseNotFound
    | MergeLeaseOwnership | MergeLeaseExpired | MergeLeaseMismatch
    | ImmutableMetadataMismatch | ForeignKeyViolation | UniqueViolation
    | InvalidPublication | IdempotencyConflict | UnexpectedStatus

  type Outcome = Result<(), StoreError>

  datatype LeaseRequest = LeaseRequest(branch: string, subject: string, source: Id, target: Id, base: Id, duration: nat)
  datatype MergeRequest = MergeRequest(
    branch: string, subject: string, token: string, source: Id, target: Id, base: Id,
    result: Id, snapshot: Id, author: string, message: string, time: int, packHash: string, commitFormat: nat,
      packFormat: nat)
  datatype Record = Record(id: Id, row: CommitRow)
  datatype Publication = Publication(branch: string, key: string, base: Id, target: Id, commits: seq<Record>)
  datatype PublishResult = PublishResult(alreadyApplied: bool, head: Id)

  /** The commit DAG of the commits and commit_parents tables. */
  function GraphOf(commits: map<Id, CommitRow>): (g: Graph)
    ensures g.Keys == commits.Keys
  {
    map c | c in commits :: commits[c].parents
  }

  // ----- what each transaction does -----------------------------------------------------

  /** putCommitTx: insert, or verify that the existing row is identical. The foreign key on parents
      is checked after the commit's own row is in place. */
  function PutCommitTx(commits: map<Id, CommitRow>, id: Id, row: CommitRow): (r: Result<map<Id, CommitRow>, StoreError>)
    ensures r.Ok? ==> r.value == commits[id := row] && (id in commits ==> r.value == commits)
    ensures r.Ok? ==> forall p :: p in row.parents && id !in commits ==> p in commits || p == id
  {
    if id in commits then
      if commits[id] == row then Ok(commits) else Err(ImmutableMetadataMismatch)
    else if exists p | p in row.parents :: p !in commits && p != id then Err(ForeignKeyViolation)
    else Ok(commits[id := row])
  }

  /** The registration loop of PublishNativePush. */
  function PutAllTx(commits: map<Id, CommitRow>, records: seq<Record>): Result<map<Id, CommitRow>, StoreError> {
    if records == [] then Ok(commits)
    else
      match PutAllTx(commits, records[..|records| - 1])
      case Err(e) => Err(e)
      case Ok(c) => PutCommitTx(c, records[|records| - 1].id, records[|records| - 1].row)
  }

  function PutPackRangeTx(r: Repo, hash: string, row: RangeRow): Result<Repo, StoreError> {
    if hash in r.ranges then
      if r.ranges[hash] == row then Ok(r) else Err(ImmutableMetadataMismatch)
    else if exists h | h in r.ranges :: r.ranges[h].target == row.target then Err(UniqueViolation)
    else if row.target !in r.commits || (row.base != "" && row.base !in r.commits) then Err(ForeignKeyViolation)
    else Ok(r.(ranges := r.ranges[hash := row]))
  }

  function CreateBranchTx(r: Repo, name: string, head: Id): Result<Repo, StoreError> {
    if name in r.branches then Err(BranchAlreadyExists)
    else if head !in r.commits then Err(CommitNotFound)
    else Ok(r.(branches := r.branches[name := Branch(head, false)],
               defaultBranch := if r.defaultBranch.None? then Some(name) else r.defaultBranch))
  }

  /** A soft delete: the row and its head stay. */
  function DeleteBranchTx(r: Repo, name: string): Result<Repo, StoreError> {
    if r.defaultBranch == Some(name) then Err(DefaultBranchProtected)
    else if name !in r.branches || r.branches[name].deleted then Err(BranchNotFound)
    else Ok(r.(branches := r.branches[name := r.branches[name].(deleted := true)]))
  }

  predicate LeaseHeld(r: Repo, now: nat, branch: string) {
    branch in r.leases && r.leases[branch].expires > now
  }

  function MoveHead(r: Repo, branch: string, head: Id): Repo
    requires branch in r.branches
  {
    r.(branches := r.branches[branch := r.branches[branch].(head := head)])
  }

  function CompareAndSwapTx(r: Repo, now: nat, branch: string, expected: Id, new_: Id): Result<Repo, StoreError> {
    if branch !in r.branches then Err(BranchNotFound)
    else if r.branches[branch].head != expected then Err(NonFastForward(r.branches[branch].head))
    else if LeaseHeld(r, now, branch) then Err(MergeLeaseHeld)
    else if new_ !in r.commits then Err(ForeignKeyViolation)
    else Ok(MoveHead(r, branch, new_))
  }

  function AcquireLeaseTx(r: Repo, now: nat, req: LeaseRequest, token: string): Result<Repo, StoreError> {
    if req.branch == "" || req.subject == "" || req.source == "" || req.target == "" || req.base == ""
      || req.duration == 0 then
      Err(InvalidMergeLease)
    else if req.branch !in r.branches then Err(BranchNotFound)
    else if r.branches[req.branch].head != req.target then Err(NonFastForward(r.branches[req.branch].head))
    else if LeaseHeld(r, now, req.branch) then Err(MergeLeaseHeld)
    else if req.source !in r.commits || req.target !in r.commits || req.base !in r.commits then Err(ForeignKeyViolation)
    else Ok(r.(leases := r.leases[req.branch :=
      Lease(req.subject, token, req.source, req.target, req.base, now + req.duration)]))
  }

  /** An expired lease may be released too. */
  function ReleaseLeaseTx(r: Repo, branch: string, subject: string, token: string): Result<Repo, StoreError> {
    if branch !in r.leases then Err(MergeLeaseNotFound)
    else if r.leases[branch].subject != subject || r.leases[branch].token != token then Err(MergeLeaseOwnership)
    else Ok(r.(leases := r.leases - {branch}))
  }

  predicate ValidObjectFormat(format: nat) { format <= 3 }

  function NormalizeFormat(format: nat): nat { if format == 0 then 1 else format }

  function MergeCommit(req: MergeRequest): CommitRow {
    CommitRow(req.snapshot, [req.target, req.source], req.author, req.message, req.time,
              NormalizeFormat(req.commitFormat))
  }

  predicate MergeRequestComplete(req: MergeRequest) {
    && req.branch != "" && req.subject != "" && req.token != "" && req.source != "" && req.target != ""
      && req.base != ""
    && req.result != "" && req.snapshot != "" && req.author != "" && req.message != "" && req.packHash != ""
    && ValidObjectFormat(req.commitFormat) && ValidObjectFormat(req.packFormat)
  }

  /** The lease checks of ApplyMerge, in its order. */
  function CheckLease(r: Repo, now: nat, req: MergeRequest): (o: Outcome)
    ensures o.Ok? ==> req.branch in r.leases && r.leases[req.branch].token == req.token
                      && r.leases[req.branch].source == req.source && r.leases[req.branch].target == req.target
  {
    if req.branch !in r.leases then Err(MergeLeaseNotFound)
    else
      var lease := r.leases[req.branch];
      if lease.subject != req.subject || lease.token != req.token then Err(MergeLeaseOwnership)
      else if lease.expires <= now then Err(MergeLeaseExpired)
      else if lease.source != req.source || lease.target != req.target
        || lease.base != req.base then Err(MergeLeaseMismatch)
      else Ok(())
  }

  function ApplyMergeTx(r: Repo, now: nat, req: MergeRequest): Result<Repo, StoreError> {
    if !MergeRequestComplete(req) then Err(InvalidMergeLease)
    else if req.branch !in r.branches then Err(BranchNotFound)
    else if r.branches[req.branch].head != req.target then Err(NonFastForward(r.branches[req.branch].head))
    else
      match CheckLease(r, now, req)
      case Err(e) => Err(e)
      case Ok(_) =>
        if req.result in r.commits then Err(UniqueViolation)
        else if (req.target !in r.commits && req.target != req.result)
          || (req.source !in r.commits && req.source != req.result) then Err(ForeignKeyViolation)
        else if req.packHash in r.ranges
          || exists h | h in r.ranges :: r.ranges[h].target == req.result then Err(UniqueViolation)
        else
          Ok(MoveHead(r.(commits := r.commits[req.result := MergeCommit(req)],
                         ranges := r.ranges[req.packHash :=
                           RangeRow(req.target, req.result, NormalizeFormat(req.packFormat))],
                         leases := r.leases - {req.branch}),
                      req.branch, req.result))
  }

  /** PublishNativePush as one atomic transaction; it does not look at leases. */
  function PublishTx(r: Repo, pub: Publication): Result<(Repo, PublishResult), StoreError> {
    if pub.branch == "" || pub.key == "" || pub.base == "" || pub.target == ""
      || pub.commits == [] then Err(InvalidPublication)
    else if pub.key in r.pushes then
      var existing := r.pushes[pub.key];
      if existing.branch != pub.branch || existing.base != pub.base
        || existing.target != pub.target then Err(IdempotencyConflict)
      else if !existing.committed then Err(UnexpectedStatus)
      else Ok((r, PublishResult(true, existing.target)))
    else if pub.branch !in r.branches then Err(BranchNotFound)
    else if r.branches[pub.branch].head != pub.base then Err(NonFastForward(r.branches[pub.branch].head))
    else
      match PutAllTx(r.commits, pub.commits)
      case Err(e) => Err(e)
      case Ok(commits) =>
        if pub.target !in commits then Err(ForeignKeyViolation)
        else
          Ok((MoveHead(r.(commits := commits, pushes :=
            r.pushes[pub.key := PushRow(pub.branch, pub.base, pub.target, true)]),
                       pub.branch, pub.target),
              PublishResult(false, pub.target)))
  }

  // ----- the store ----------------------------------------------------------------------

  /** PGStore for one repository. Fields are tables; every method is one transaction that either
      commits all its writes or leaves every table as it was. */
  class Store {
    var commits: map<Id, CommitRow>
    var branches: map<string, Branch>
    var defaultBranch: Option<string>
    var leases: map<string, Lease>
    var pushes: map<string, PushRow>
    var ranges: map<string, RangeRow>

    constructor ()
      ensures State() == Repo(map[], map[], None, map[], map[], map[])
    {
      commits, branches, defaultBranch := map[], map[], None;
      leases, pushes, ranges := map[], map[], map[];
    }

    ghost function State(): Repo
      reads this
    {
      Repo(commits, branches, defaultBranch, leases, pushes, ranges)
    }

    method PutCommit(id: Id, row: CommitRow) returns (o: Outcome)
      modifies this`commits
      ensures match PutCommitTx(old(commits), id, row)
              case Ok(c) => o == Ok(()) && commits == c
              case Err(e) => o == Err(e) && commits == old(commits)
      ensures o == (if id in old(commits) then
                      if old(commits)[id] == row then Ok(()) else Err(ImmutableMetadataMismatch)
                    else if forall p :: p in row.parents ==> p in old(commits) || p == id then Ok(())
                    else Err(ForeignKeyViolation))
      ensures commits == if o.Ok? then old(commits)[id := row] else old(commits)
    {
      var existingCommit := id in commits;
      if existingCommit {
        if commits[id] != row {
          return Err(ImmutableMetadataMismatch);
        }
        return Ok(());
      }
      var before := commits;
      commits := commits[id := row];
      if exists p | p in row.parents :: p !in commits {
        commits := before;
        return Err(ForeignKeyViolation);
      }
      return Ok(());
    }

    method PutPackRange(hash: string, row: RangeRow) returns (o: Outcome)
      modifies this`ranges
      ensures match PutPackRangeTx(old(State()), hash, row)
              case Ok(r) => o == Ok(()) && State() == r
              case Err(e) => o == Err(e) && State() == old(State())
      ensures hash in old(ranges) ==>
                o == (if old(ranges)[hash] == row then Ok(()) else Err(ImmutableMetadataMismatch))
      ensures hash !in old(ranges) ==>
                (o.Ok? <==> && (forall h :: h in old(ranges) ==> old(ranges)[h].target != row.target)
                            && row.target in commits && (row.base == "" || row.base in commits))
      ensures ranges == if o.Ok? then old(ranges)[hash := row] else old(ranges)
    {
      if hash in ranges {
        return if ranges[hash] == row then Ok(()) else Err(ImmutableMetadataMismatch);
      }
      if exists h | h in ranges :: ranges[h].target == row.target {
        return Err(UniqueViolation);
      }
      if row.target !in commits || (row.base != "" && row.base !in commits) {
        return Err(ForeignKeyViolation);
      }
      ranges := ranges[hash := row];
      return Ok(());
    }

    method CreateBranch(name: string, head: Id) returns (o: Outcome)
      modifies this`branches, this`defaultBranch
      ensures match CreateBranchTx(old(State()), name, head)
              case Ok(r) => o == Ok(()) && State() == r
              case Err(e) => o == Err(e) && State() == old(State())
      ensures o == (if name in old(branches) then Err(BranchAlreadyExists)
                    else if head in commits then Ok(()) else Err(CommitNotFound))
      ensures branches == if o.Ok? then old(branches)[name := Branch(head, false)] else old(branches)
      ensures defaultBranch == if o.Ok? && old(defaultBranch).None? then Some(name) else old(defaultBranch)
    {
      if name in branches {
        return Err(BranchAlreadyExists);
      }
      if head !in commits {
        return Err(CommitNotFound);
      }
      branches := branches[name := Branch(head, false)];
      if defaultBranch.None? {
        defaultBranch := Some(name);
      }
      return Ok(());
    }

    method DeleteBranch(name: string) returns (o: Outcome)
      modifies this`branches
      ensures match DeleteBranchTx(old(State()), name)
              case Ok(r) => o == Ok(()) && State() == r
              case Err(e) => o == Err(e) && State() == old(State())
      ensures o.Ok? <==> name in old(branches) && !old(branches)[name].deleted && defaultBranch != Some(name)
      ensures o.Err? ==> o.error == if defaultBranch == Some(name) then DefaultBranchProtected else BranchNotFound
      ensures branches == if o.Ok? then old(branches)[name := Branch(old(branches)[name].head, true)] else old(branches)
    {
      if defaultBranch == Some(name) {
        return Err(DefaultBranchProtected);
      }
      if name !in branches || branches[name].deleted {
        return Err(BranchNotFound);
      }
      branches := branches[name := branches[name].(deleted := true)];
      return Ok(());
    }

    method CompareAndSwapBranchRef(now: nat, branch: string, expected: Id, new_: Id) returns (o: Outcome)
      modifies this`branches
      ensures match CompareAndSwapTx(old(State()), now, branch, expected, new_)
              case Ok(r) => o == Ok(()) && State() == r
              case Err(e) => o == Err(e) && State() == old(State())
      ensures o.Ok? <==> && branch in old(branches) && old(branches)[branch].head == expected && new_ in commits
                         && !(branch in leases && now < leases[branch].expires)
      ensures branch in old(branches) && o.Err? ==>
                o.error == if old(branches)[branch].head != expected then NonFastForward(old(branches)[branch].head)
                  else if branch in leases && now < leases[branch].expires then MergeLeaseHeld
                  else ForeignKeyViolation
      ensures branches == if o.Ok? then old(branches)[branch := Branch(new_, old(branches)[branch].deleted)]
                else old(branches)
    {
      if branch !in branches {
        return Err(BranchNotFound);
      }
      if branches[branch].head != expected {
        return Err(NonFastForward(branches[branch].head));
      }
      if branch in leases && leases[branch].expires > now {
        return Err(MergeLeaseHeld);
      }
      if new_ !in commits {
        return Err(ForeignKeyViolation);
      }
      branches := branches[branch := branches[branch].(head := new_)];
      return Ok(());
    }

    method AcquireMergeLease(now: nat, req: LeaseRequest, token: string) returns (o: Outcome)
      modifies this`leases
      ensures match AcquireLeaseTx(old(State()), now, req, token)
              case Ok(r) => o == Ok(()) && State() == r
              case Err(e) => o == Err(e) && State() == old(State())
      ensures o.Ok? <==>
              && req.subject != "" && req.branch != "" && req.duration > 0 && "" !in {req.source, req.target, req.base}
              && req.branch in branches && branches[req.branch].head == req.target
              && req.source in commits && req.target in commits && req.base in commits
              && !(req.branch in old(leases) && now < old(leases)[req.branch].expires)
      ensures o == Err(MergeLeaseHeld) ==> req.branch in old(leases) && now < old(leases)[req.branch].expires
      ensures o.Err? && o.error.NonFastForward? ==> branches[req.branch].head == o.error.head != req.target
      ensures leases == if o.Err? then old(leases) else
                old(leases)[req.branch := Lease(req.subject, token, req.source, req.target, req.base,
                                                now + req.duration)]
    {
      if req.branch == "" || req.subject == "" || req.source == "" || req.target == "" || req.base == ""
        || req.duration == 0 {
        return Err(InvalidMergeLease);
      }
      if req.branch !in branches {
        return Err(BranchNotFound);
      }
      if branches[req.branch].head != req.target {
        return Err(NonFastForward(branches[req.branch].head));
      }
      if req.branch in leases && leases[req.branch].expires > now {
        return Err(MergeLeaseHeld);
      }
      if req.source !in commits || req.target !in commits || req.base !in commits {
        return Err(ForeignKeyViolation);
      }
      leases := leases[req.branch := Lease(req.subject, token, req.source, req.target, req.base, now + req.duration)];
      return Ok(());
    }

    /** Reads the lease without locking it; ApplyMerge repeats the checks. */
    method ValidateMergeLease(now: nat, branch: string, subject: string, token: string)
      returns (r: Result<Lease, StoreError>)
      ensures r.Ok? <==> branch in leases && leases[branch].subject == subject && leases[branch].token == token
                         && LeaseHeld(State(), now, branch)
      ensures r.Ok? ==> r.value == leases[branch]
      ensures r.Err? ==> r.error == (if branch !in leases then MergeLeaseNotFound
                                     else if leases[branch].subject != subject
                                       || leases[branch].token != token then MergeLeaseOwnership
                                     else MergeLeaseExpired)
    {
      if branch !in leases {
        return Err(MergeLeaseNotFound);
      }
      var lease := leases[branch];
      if lease.subject != subject || lease.token != token {
        return Err(MergeLeaseOwnership);
      }
      if lease.expires <= now {
        return Err(MergeLeaseExpired);
      }
      return Ok(lease);
    }

    method ReleaseMergeLease(branch: string, subject: string, token: string) returns (o: Outcome)
      modifies this`leases
      ensures match ReleaseLeaseTx(old(State()), branch, subject, token)
              case Ok(r) => o == Ok(()) && State() == r
              case Err(e) => o == Err(e) && State() == old(State())
      ensures o == (if branch !in old(leases) then Err(MergeLeaseNotFound)
                    else if old(leases)[branch].subject == subject && old(leases)[branch].token == token then Ok(())
                    else Err(MergeLeaseOwnership))
      ensures leases == if o.Ok? then old(leases) - {branch} else old(leases)
    {
      if branch !in leases {
        return Err(MergeLeaseNotFound);
      }
      if leases[branch].subject != subject || leases[branch].token != token {
        return Err(MergeLeaseOwnership);
      }
      leases := leases - {branch};
      return Ok(());
    }

    method ApplyMerge(now: nat, req: MergeRequest) returns (o: Outcome)
      modifies this
      ensures match ApplyMergeTx(old(State()), now, req)
              case Ok(r) => o == Ok(()) && State() == r
              case Err(e) => o == Err(e) && State() == old(State())
      ensures o.Ok? <==>
              && "" !in {req.branch, req.subject, req.token, req.source, req.target, req.base, req.result, req.snapshot,
                         req.author, req.message, req.packHash}
              && req.commitFormat <= 3 && req.packFormat <= 3
              && req.branch in old(branches) && old(branches)[req.branch].head == req.target
              && req.branch in old(leases) && now < old(leases)[req.branch].expires
              && old(leases)[req.branch] == Lease(req.subject, req.token, req.source, req.target, req.base,
                                                  old(leases)[req.branch].expires)
              && req.result !in old(commits) && {req.source, req.target} <= old(commits).Keys + {req.result}
              && req.packHash !in old(ranges) && forall h :: h in old(ranges) ==> old(ranges)[h].target != req.result
      ensures o.Ok? ==> && commits == old(commits)[req.result :=
                             CommitRow(req.snapshot, [req.target, req.source], req.author, req.message, req.time,
                                       if req.commitFormat == 0 then 1 else req.commitFormat)]
                        && ranges == old(ranges)[req.packHash :=
                             RangeRow(req.target, req.result, if req.packFormat == 0 then 1 else req.packFormat)]
                        && branches == old(branches)[req.branch := old(branches)[req.branch].(head := req.result)]
                        && leases == old(leases) - {req.branch}
      ensures o == Err(MergeLeaseExpired) ==> req.branch in old(leases) && old(leases)[req.branch].expires <= now
      ensures o == Err(MergeLeaseNotFound) ==> req.branch !in old(leases)
      ensures o == Err(MergeLeaseOwnership) ==>
                req.branch in old(leases)
                && (old(leases)[req.branch].subject != req.subject || old(leases)[req.branch].token != req.token)
    {
      if !MergeRequestComplete(req) {
        return Err(InvalidMergeLease);
      }
      if req.branch !in branches {
        return Err(BranchNotFound);
      }
      if branches[req.branch].head != req.target {
        return Err(NonFastForward(branches[req.branch].head));
      }
      if req.branch !in leases {
        return Err(MergeLeaseNotFound);
      }
      var lease := leases[req.branch];
      if lease.subject != req.subject || lease.token != req.token {
        return Err(MergeLeaseOwnership);
      }
      if lease.expires <= now {
        return Err(MergeLeaseExpired);
      }
      if lease.source != req.source || lease.target != req.target || lease.base != req.base {
        return Err(MergeLeaseMismatch);
      }
      if req.result in commits {
        return Err(UniqueViolation);
      }
      var before := commits;
      commits := commits[req.result := MergeCommit(req)];
      if req.target !in commits || req.source !in commits {
        commits := before;
        return Err(ForeignKeyViolation);
      }
      if req.packHash in ranges || exists h | h in ranges :: ranges[h].target == req.result {
        commits := before;
        return Err(UniqueViolation);
      }
      ranges := ranges[req.packHash := RangeRow(req.target, req.result, NormalizeFormat(req.packFormat))];
      branches := branches[req.branch := branches[req.branch].(head := req.result)];
      leases := leases - {req.branch};
      return Ok(());
    }

    /** The claim is written as a pending row first; every error path rolls all tables back. */
    method PublishNativePush(pub: Publication) returns (r: Result<PublishResult, StoreError>)
      modifies this
      ensures match PublishTx(old(State()), pub)
              case Ok((s, result)) => r == Ok(result) && State() == s
              case Err(e) => r == Err(e) && State() == old(State())
      ensures r.Ok? ==> r.value.head == pub.target && "" !in {pub.branch, pub.key, pub.base, pub.target}
      ensures pub.key in old(pushes) ==>
                && State() == old(State())
                && (r.Ok? <==> && old(pushes)[pub.key] == PushRow(pub.branch, pub.base, pub.target, true)
                               && "" !in {pub.branch, pub.key, pub.base, pub.target} && pub.commits != [])
                && (r.Ok? ==> r.value.alreadyApplied)
      ensures pub.key !in old(pushes) ==>
                (r.Ok? <==> && "" !in {pub.branch, pub.key, pub.base, pub.target} && pub.commits != []
                            && pub.branch in old(branches) && old(branches)[pub.branch].head == pub.base
                            && PutAllTx(old(commits), pub.commits).Ok?
                            && pub.target in PutAllTx(old(commits), pub.commits).value)
      ensures pub.key !in old(pushes) && r.Ok? ==>
                && !r.value.alreadyApplied && PutAllTx(old(commits), pub.commits) == Ok(commits)
                && pub.branch in old(branches) && old(branches)[pub.branch].head == pub.base
                && branches == old(branches)[pub.branch := old(branches)[pub.branch].(head := pub.target)]
                && pushes == old(pushes)[pub.key := PushRow(pub.branch, pub.base, pub.target, true)]
                && pub.target in commits && ranges == old(ranges) && leases == old(leases)
    {
      hide PutCommitTx;
      hide PutAllTx;
      if pub.branch == "" || pub.key == "" || pub.base == "" || pub.target == "" || |pub.commits| == 0 {
        return Err(InvalidPublication);
      }
      var commits0, branches0, pushes0 := commits, branches, pushes;
      if pub.key in pushes {
        var existing := pushes[pub.key];
        if existing.branch != pub.branch || existing.base != pub.base || existing.target != pub.target {
          return Err(IdempotencyConflict);
        }
        if !existing.committed {
          return Err(UnexpectedStatus);
        }
        return Ok(PublishResult(true, existing.target));
      }
      pushes := pushes[pub.key := PushRow(pub.branch, pub.base, pub.target, false)];
      if pub.branch !in branches {
        pushes := pushes0;
        return Err(BranchNotFound);
      }
      if branches[pub.branch].head != pub.base {
        pushes := pushes0;
        return Err(NonFastForward(branches[pub.branch].head));
      }
      PutNothing(commits0, pub.commits);
      for i := 0 to |pub.commits|
        invariant PutAllTx(commits0, pub.commits[..i]) == Ok(commits)
        invariant branches == branches0
                  && pushes == pushes0[pub.key := PushRow(pub.branch, pub.base, pub.target, false)]
        invariant unchanged(this`defaultBranch) && unchanged(this`leases) && unchanged(this`ranges)
      {
        PutOneMore(commits0, pub.commits, i, commits);
        var put := PutCommit(pub.commits[i].id, pub.commits[i].row);
        if put.Err? {
          PutAllFails(commits0, pub.commits, i, put.error);
          commits, pushes := commits0, pushes0;
          return Err(put.error);
        }
      }
      assert pub.commits[..|pub.commits|] == pub.commits;
      if pub.target !in commits {
        commits, pushes := commits0, pushes0;
        return Err(ForeignKeyViolation);
      }
      branches := branches[pub.branch := branches[pub.branch].(head := pub.target)];
      pushes := pushes[pub.key := pushes[pub.key].(committed := true)];
      return Ok(PublishResult(false, pub.target));
    }
  }

  lemma PutNothing(commits: map<Id, CommitRow>, records: seq<Record>)
    ensures PutAllTx(commits, records[..0]) == Ok(commits)
  {}

  lemma PutOneMore(commits: map<Id, CommitRow>, records: seq<Record>, i: nat, c: map<Id, CommitRow>)
    requires i < |records| && PutAllTx(commits, records[..i]) == Ok(c)
    ensures PutAllTx(commits, records[..i + 1]) == PutCommitTx(c, records[i].id, records[i].row)
  {
    hide PutCommitTx;
    assert records[..i + 1][..i] == records[..i];
  }

  /** The first failing record decides the outcome of the whole registration. */
  lemma {:induction false} PutAllFails(commits: map<Id, CommitRow>, records: seq<Record>, i: nat, e: StoreError)
    requires i < |records| && PutAllTx(commits, records[..i + 1]) == Err(e)
    ensures PutAllTx(commits, records) == Err(e)
    decreases |records|
  {
    if i + 1 < |records| {
      var front := records[..|records| - 1];
      assert front[..i + 1] == records[..i + 1];
      PutAllFails(commits, front, i, e);
    } else {
      assert records[..i + 1] == records;
    }
  }
}
