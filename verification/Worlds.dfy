// Small concrete repositories: up to six commits with one snapshot, packed as told, over any lawful frame codec.
module Worlds {
  import opened Wrappers
  import opened Wire
  import opened CommitGraph
  import opened Framing
  import opened RackStore
  import opened RackRuns
  import opened PushEngine
  import opened PullPlan
  import Ordering

  const COMMIT_DIGITS: string := "abcdef"
  const PACK_DIGITS: string := "654321"
  const SNAPSHOT_DATA: Bytes := [255]

  /** A content id made of one hexadecimal digit. */
  function Name(digit: char): Id { seq(64, _ => digit) }

  function C(i: nat): Id { if i < 6 then Name(COMMIT_DIGITS[i]) else "" }

  /** Pack hashes descend: later packs of a world have smaller hashes. */
  function P(j: nat): Id { if j < 6 then Name(PACK_DIGITS[j]) else "" }

  function Snapshot(): Id { Name('0') }

  lemma NameFacts(digit: char)
    requires '0' <= digit <= '9' || 'a' <= digit <= 'f'
    ensures ValidContentID(Name(digit)) && Name(digit) != "" && Name(digit)[0] == digit
  {}

  lemma Names()
    ensures forall i :: 0 <= i < 6 ==> ValidContentID(C(i)) && C(i) != ""
    ensures forall i, j :: 0 <= i < 6 && 0 <= j < 6 && C(i) == C(j) ==> i == j
    ensures forall i :: 0 <= i < 6 ==> ValidContentID(P(i)) && P(i) != ""
    ensures forall i, j :: 0 <= i < 6 && 0 <= j < 6 && P(i) == P(j) ==> i == j
    ensures ValidContentID(Snapshot())
  {
    forall i | 0 <= i < 6 ensures ValidContentID(C(i)) && C(i) != "" && C(i)[0] == COMMIT_DIGITS[i] {
      NameFacts(COMMIT_DIGITS[i]);
    }
    forall i | 0 <= i < 6 ensures ValidContentID(P(i)) && P(i) != "" && P(i)[0] == PACK_DIGITS[i] {
      NameFacts(PACK_DIGITS[i]);
    }
    NameFacts('0');
  }

  lemma PackNamesDescend(i: nat, j: nat)
    requires i < j < 6
    ensures Ordering.Less(P(j), P(i)) && P(i) != P(j)
  {
    NameFacts(PACK_DIGITS[i]);
    NameFacts(PACK_DIGITS[j]);
  }

  /** A pack by its format, its base and its commits. */
  datatype PackSpec = PackSpec(format: nat, base: Id, commits: seq<nat>)

  /** Commit `i` has the parents `parents[i]`; packs are named in order. */
  datatype World = World(parents: seq<seq<Id>>, packs: seq<PackSpec>)

  predicate Sized(w: World) {
    && |w.parents| <= 6 && |w.packs| <= 6
    && (forall j :: 0 <= j < |w.packs| ==> |w.packs[j].commits| > 0)
    && (forall j, n :: 0 <= j < |w.packs| && 0 <= n < |w.packs[j].commits| ==> w.packs[j].commits[n] < |w.parents|)
  }

  function Parents(w: World, i: nat): seq<Id> { if i < |w.parents| then w.parents[i] else [] }

  function CommitOf(w: World, i: nat): Commit {
    Commit(Snapshot(), Parents(w, i), "author", "message", i)
  }

  function Identities(ids: seq<Id>): (r: seq<CommitIdentity>)
    ensures |r| == |ids| && forall i :: 0 <= i < |ids| ==> r[i] == V2(ids[i])
  {
    seq(|ids|, i requires 0 <= i < |ids| => V2(ids[i]))
  }

  function FrameOf(w: World, i: nat): CommitFrame {
    CommitFrame(2, Identities(Parents(w, i)), Snapshot(), "author", "message", i)
  }

  function RowOf(w: World, i: nat): CommitRow {
    CommitRow(Snapshot(), Parents(w, i), "author", "message", i, COMMIT_FORMAT_V2)
  }

  function BaseOf(base: Id): CommitIdentity { if base == "" then NO_COMMIT else V2(base) }

  function TargetOf(spec: PackSpec): Id { if spec.commits == [] then "" else C(spec.commits[|spec.commits| - 1]) }

  function FrameOfSpec(w: World, spec: PackSpec): PackFrame {
    PackFrame(spec.format, BaseOf(spec.base), V2(TargetOf(spec)),
              seq(|spec.commits|, n requires 0 <= n < |spec.commits| => FrameOf(w, spec.commits[n])),
              [PackObject(Snapshot(), SNAPSHOT_DATA)])
  }

  function PackAt(w: World, j: nat): PackFrame
    requires j < |w.packs|
  {
    FrameOfSpec(w, w.packs[j])
  }

  // ----- content ids --------------------------------------------------------------------

  /** The number of the pack these bytes encode. */
  function PackIndex(w: World, codec: Codec<PackFrame>, data: Bytes, n: nat): (r: Option<nat>)
    requires n <= |w.packs|
    ensures r.Some? ==> r.value < n && codec.encode(PackAt(w, r.value)) == data
    ensures r.None? ==> forall j :: 0 <= j < n ==> codec.encode(PackAt(w, j)) != data
  {
    if n == 0 then None
    else if codec.encode(PackAt(w, n - 1)) == data then Some(n - 1)
    else PackIndex(w, codec, data, n - 1)
  }

  function ContentIdOf(w: World, codec: Codec<PackFrame>, data: Bytes): Id {
    match PackIndex(w, codec, data, |w.packs|)
    case Some(j) => P(j)
    case None => if |data| == 1 && data[0] < |w.parents| then C(data[0]) else Snapshot()
  }

  function CommitBytes(w: World, commit: Commit): Option<Bytes> {
    if 0 <= commit.time < |w.parents| && commit.time < 6 && commit == CommitOf(w, commit.time) then Some([commit.time])
      else None
  }

  /** A contract that knows exactly the commits of the world. */
  function ContractOf(w: World, codec: Codec<PackFrame>): Contract {
    Contract(data => ContentIdOf(w, codec, data), commit => CommitBytes(w, commit), codec)
  }

  /** Encodings of packs fit the size limit and are longer than the one byte that stands for a commit here. */
  ghost predicate Encodes(w: World, codec: Codec<PackFrame>) {
    && Lawful(codec)
    && (forall j :: 0 <= j < |w.packs| ==> 1 < |codec.encode(PackAt(w, j))| <= MAX_V2_PACK_BYTES)
  }

  ghost predicate ParentsNamed(w: World) {
    forall i: nat, p :: p in Parents(w, i) ==> ValidContentID(p) && p != C(i)
  }

  /** All packs of the world are different. */
  ghost predicate PacksDiffer(w: World) {
    forall i, j :: 0 <= i < |w.packs| && 0 <= j < |w.packs| && PackAt(w, i) == PackAt(w, j) ==> i == j
  }

  lemma CommitIdentified(w: World, codec: Codec<PackFrame>, i: nat)
    requires Sized(w) && Encodes(w, codec) && ParentsNamed(w) && i < |w.parents|
    ensures Identity(ContractOf(w, codec), FrameOf(w, i)) == Some(V2(C(i)))
    ensures ParentIds(FrameOf(w, i)) == Parents(w, i)
  {
    var f := FrameOf(w, i);
    assert ParentIds(f) == Parents(w, i);
    forall p | p in f.parents ensures ValidIdentity(p) {
      var n :| 0 <= n < |f.parents| && f.parents[n] == p;
      assert Parents(w, i)[n] in Parents(w, i);
      assert p == V2(Parents(w, i)[n]) && ValidContentID(p.id);
    }
    assert Commit(f.snapshotRoot, ParentIds(f), f.author, f.message, f.time) == CommitOf(w, i);
    assert PackIndex(w, codec, [i], |w.packs|).None?;
  }

  lemma PackNamed(w: World, codec: Codec<PackFrame>, j: nat)
    requires Sized(w) && Encodes(w, codec) && PacksDiffer(w) && j < |w.packs|
    ensures ContentIdOf(w, codec, codec.encode(PackAt(w, j))) == P(j)
  {
    var data := codec.encode(PackAt(w, j));
    var r := PackIndex(w, codec, data, |w.packs|);
    assert codec.decode(data) == Some(PackAt(w, j));
    if r.Some? {
      assert codec.decode(codec.encode(PackAt(w, r.value))) == Some(PackAt(w, r.value));
    }
  }

  lemma SnapshotNamed(w: World, codec: Codec<PackFrame>)
    requires Sized(w) && Encodes(w, codec)
    ensures ContentIdOf(w, codec, SNAPSHOT_DATA) == Snapshot()
  {
    assert PackIndex(w, codec, SNAPSHOT_DATA, |w.packs|).None?;
  }

  lemma NoCommitNamesItself(w: World, codec: Codec<PackFrame>)
    requires Sized(w) && Encodes(w, codec) && ParentsNamed(w)
    ensures NoSelfParents(ContractOf(w, codec))
  {
    var k := ContractOf(w, codec);
    Names();
    hide C;
    forall f: CommitFrame | Identity(k, f).Some?
      ensures Identity(k, f).value.id !in ParentIds(f) && Identity(k, f).value.id != ""
    {
      var commit := Commit(f.snapshotRoot, ParentIds(f), f.author, f.message, f.time);
      assert commit == CommitOf(w, f.time);
      assert PackIndex(w, codec, [f.time], |w.packs|).None?;
    }
  }

  // ----- valid packs --------------------------------------------------------------------

  /** A first-parent chain from its base. */
  predicate ChainSpec(w: World, spec: PackSpec) {
    && spec.format == PACK_FORMAT_V2
    && forall n :: 0 <= n < |spec.commits| ==> FollowsSpec(w, spec, n)
  }

  /** The first parent of the pack's `n`-th commit is the commit before it, or the base. */
  predicate FollowsSpec(w: World, spec: PackSpec, n: nat)
    requires n < |spec.commits|
  {
    var parents := Parents(w, spec.commits[n]);
    if n == 0 && spec.base == "" then parents == []
    else |parents| > 0 && parents[0] == if n == 0 then spec.base else C(spec.commits[n - 1])
  }

  /** Distinct commits other than the base, with parents if there is a base. */
  predicate DagSpec(w: World, spec: PackSpec) {
    && spec.format == PACK_FORMAT_V3
    && (forall n :: 0 <= n < |spec.commits| ==> C(spec.commits[n]) != spec.base)
    && (forall n, m :: 0 <= n < m < |spec.commits| ==> spec.commits[n] != spec.commits[m])
    && (spec.base != "" ==> forall n :: 0 <= n < |spec.commits| ==> Parents(w, spec.commits[n]) != [])
  }

  predicate SpecValid(w: World, spec: PackSpec) {
    (spec.base == "" || ValidContentID(spec.base)) && (ChainSpec(w, spec) || DagSpec(w, spec))
  }

  lemma PackCommits(w: World, codec: Codec<PackFrame>, j: nat)
    requires Sized(w) && Encodes(w, codec) && ParentsNamed(w) && j < |w.packs|
    ensures var k, f, spec := ContractOf(w, codec), PackAt(w, j), w.packs[j];
            && |f.commits| == |spec.commits|
            && forall n :: 0 <= n < |f.commits| ==>
                 && f.commits[n] == FrameOf(w, spec.commits[n])
                 && Identity(k, f.commits[n]) == Some(V2(C(spec.commits[n])))
                 && ParentIds(f.commits[n]) == Parents(w, spec.commits[n])
  {
    hide Identity;
    hide ContractOf;
    hide Encodes;
    hide ParentsNamed;
    hide C;
    var spec := w.packs[j];
    forall n | 0 <= n < |spec.commits|
      ensures PackAt(w, j).commits[n] == FrameOf(w, spec.commits[n])
      ensures Identity(ContractOf(w, codec), PackAt(w, j).commits[n]) == Some(V2(C(spec.commits[n])))
      ensures ParentIds(PackAt(w, j).commits[n]) == Parents(w, spec.commits[n])
    {
      CommitIdentified(w, codec, spec.commits[n]);
    }
  }

  lemma SnapshotPacked(w: World, codec: Codec<PackFrame>, j: nat)
    requires Sized(w) && Encodes(w, codec) && j < |w.packs|
    ensures ObjectsValid(ContractOf(w, codec), PackAt(w, j).objects) && SnapshotsPresent(PackAt(w, j))
  {
    Names();
    SnapshotNamed(w, codec);
    var f := PackAt(w, j);
    assert f.objects[0] in f.objects && f.objects[0].id == Snapshot();
    forall n | 0 <= n < |f.commits| ensures Carries(f.objects, f.commits[n].snapshotRoot) {
    }
  }

  lemma PackEnveloped(w: World, codec: Codec<PackFrame>, j: nat)
    requires Sized(w) && Encodes(w, codec) && ParentsNamed(w) && j < |w.packs| && SpecValid(w, w.packs[j])
    ensures var k, f := ContractOf(w, codec), PackAt(w, j);
            && Enveloped(f) && f.version == w.packs[j].format
            && (forall n :: 0 <= n < |f.commits| ==> Identity(k, f.commits[n]).Some?)
            && |f.commits| > 0 && Identity(k, f.commits[|f.commits| - 1]).value == f.target
  {
    Names();
    PackCommits(w, codec, j);
    hide Identity;
    hide ContractOf;
    hide C;
    hide Encodes;
    hide ParentsNamed;
  }

  /** What PackCommits says of one commit. */
  ghost predicate CommitPacked(w: World, codec: Codec<PackFrame>, j: nat, n: nat)
    requires j < |w.packs| && n < |w.packs[j].commits|
  {
    var k, f, spec := ContractOf(w, codec), PackAt(w, j), w.packs[j];
    && |f.commits| == |spec.commits|
    && f.commits[n].parents == Identities(Parents(w, spec.commits[n]))
    && Identity(k, f.commits[n]) == Some(V2(C(spec.commits[n])))
  }

  lemma CommitsPacked(w: World, codec: Codec<PackFrame>, j: nat, n: nat)
    requires Sized(w) && Encodes(w, codec) && ParentsNamed(w) && j < |w.packs| && n < |w.packs[j].commits|
    ensures CommitPacked(w, codec, j, n) && |PackAt(w, j).commits| == |w.packs[j].commits|
  {
    hide Identity;
    hide ContractOf;
    hide C;
    hide Encodes;
    hide ParentsNamed;
    PackCommits(w, codec, j);
  }

  lemma PackChainedAt(w: World, codec: Codec<PackFrame>, j: nat, i: nat)
    requires Sized(w) && Encodes(w, codec) && ParentsNamed(w) && j < |w.packs| && ChainSpec(w, w.packs[j])
    requires i < |PackAt(w, j).commits| == |w.packs[j].commits|
    requires forall n :: 0 <= n < |PackAt(w, j).commits| ==>
                         Identity(ContractOf(w, codec), PackAt(w, j).commits[n]).Some?
    ensures var k, f := ContractOf(w, codec), PackAt(w, j);
            if f.commits[i].parents == [] then i == 0 && f.base == NO_COMMIT
            else f.commits[i].parents[0] == Previous(k, f, i)
  {
    CommitsPacked(w, codec, j, i);
    if i > 0 { CommitsPacked(w, codec, j, i - 1); }
    ChainAt(w, w.packs[j], i);
    assert PackAt(w, j).base == BaseOf(w.packs[j].base);
    hide PackAt;
    hide Identity;
    hide ContractOf;
    hide C;
    hide Encodes;
    hide ParentsNamed;
    hide Parents;
    hide Sized;
    hide ChainSpec;
    hide BaseOf;
  }

  lemma PackIdentified(w: World, codec: Codec<PackFrame>, j: nat)
    requires Sized(w) && Encodes(w, codec) && ParentsNamed(w) && j < |w.packs|
    ensures |PackAt(w, j).commits| == |w.packs[j].commits|
    ensures forall n :: 0 <= n < |PackAt(w, j).commits| ==>
                        Identity(ContractOf(w, codec), PackAt(w, j).commits[n]).Some?
  {
    hide *;
    PackLength(w, j);
    forall n | 0 <= n < |PackAt(w, j).commits| ensures Identity(ContractOf(w, codec), PackAt(w, j).commits[n]).Some? {
      CommitsPacked(w, codec, j, n);
      PackedIdentity(w, codec, j, n);
    }
  }

  lemma PackLength(w: World, j: nat)
    requires j < |w.packs|
    ensures |PackAt(w, j).commits| == |w.packs[j].commits|
  {}

  lemma PackedIdentity(w: World, codec: Codec<PackFrame>, j: nat, n: nat)
    requires j < |w.packs| && n < |w.packs[j].commits| && CommitPacked(w, codec, j, n)
    ensures n < |PackAt(w, j).commits|
            && Identity(ContractOf(w, codec), PackAt(w, j).commits[n]) == Some(V2(C(w.packs[j].commits[n])))
  {
    hide Identity;
    hide ContractOf;
    hide C;
  }

  lemma PackChained(w: World, codec: Codec<PackFrame>, j: nat)
    requires Sized(w) && Encodes(w, codec) && ParentsNamed(w) && j < |w.packs| && ChainSpec(w, w.packs[j])
    ensures Chained(ContractOf(w, codec), PackAt(w, j), |PackAt(w, j).commits|)
  {
    hide *;
    PackIdentified(w, codec, j);
    var k, f := ContractOf(w, codec), PackAt(w, j);
    NothingChained(k, f);
    for i := 0 to |f.commits|
      invariant Chained(k, f, i)
    {
      PackChainedAt(w, codec, j, i);
      ChainStep(k, f, i);
    }
  }

  lemma ChainAt(w: World, spec: PackSpec, n: nat)
    requires ChainSpec(w, spec) && n < |spec.commits|
    ensures var parents := Parents(w, spec.commits[n]);
            if parents == [] then n == 0 && BaseOf(spec.base) == NO_COMMIT
            else Identities(parents)[0] == if n == 0 then BaseOf(spec.base) else V2(C(spec.commits[n - 1]))
  {
    assert FollowsSpec(w, spec, n);
  }

  lemma PackDag(w: World, codec: Codec<PackFrame>, j: nat)
    requires Sized(w) && Encodes(w, codec) && ParentsNamed(w) && j < |w.packs| && DagSpec(w, w.packs[j])
    ensures var k, f := ContractOf(w, codec), PackAt(w, j);
            && (forall i :: 0 <= i < |f.commits| ==> Identity(k, f.commits[i]).Some?)
            && (forall i :: 0 <= i < |f.commits| ==> f.base.id != "" ==>
                                                     Identity(k, f.commits[i]).value.id != f.base.id)
            && (forall i, l :: 0 <= i < l < |f.commits| ==>
                               Identity(k, f.commits[i]).value.id != Identity(k, f.commits[l]).value.id)
            && (f.base.id != "" ==> forall i :: 0 <= i < |f.commits| ==> f.commits[i].parents != [])
  {
    Names();
    PackCommits(w, codec, j);
    hide Identity;
    hide ContractOf;
    hide C;
    hide Encodes;
    hide ParentsNamed;
    hide Parents;
    var f, spec := PackAt(w, j), w.packs[j];
    forall i | 0 <= i < |f.commits| ensures f.base.id != "" ==> f.commits[i].parents != [] {
      assert |f.commits[i].parents| == |Parents(w, spec.commits[i])|;
    }
  }

  lemma PackFramed(w: World, codec: Codec<PackFrame>, j: nat)
    requires Sized(w) && Encodes(w, codec) && ParentsNamed(w) && j < |w.packs| && SpecValid(w, w.packs[j])
    ensures WellFramed(ContractOf(w, codec), w.packs[j].format, PackAt(w, j))
    ensures w.packs[j].format == PACK_FORMAT_V2 || w.packs[j].format == PACK_FORMAT_V3
  {
    PackEnveloped(w, codec, j);
    SnapshotPacked(w, codec, j);
    if ChainSpec(w, w.packs[j]) { PackChained(w, codec, j); } else { PackDag(w, codec, j); }
    hide Identity;
    hide ContractOf;
    hide ObjectsValid;
    hide SnapshotsPresent;
    hide C;
    hide Encodes;
    hide ParentsNamed;
    hide Parents;
    hide Enveloped;
    hide Chained;
    hide PackAt;
    hide Sized;
  }

  /** Packs with different targets are different. */
  lemma TargetsTell(w: World)
    requires forall i, j :: 0 <= i < j < |w.packs| ==> TargetOf(w.packs[i]) != TargetOf(w.packs[j])
    ensures PacksDiffer(w)
  {
    hide C;
    forall i, j | 0 <= i < |w.packs| && 0 <= j < |w.packs| && PackAt(w, i) == PackAt(w, j) ensures i == j {
      assert PackAt(w, i).target.id == TargetOf(w.packs[i]) && PackAt(w, j).target.id == TargetOf(w.packs[j]);
    }
  }

  // ----- pushes -------------------------------------------------------------------------

  function RecordsAt(w: World, j: nat): (records: seq<Record>)
    requires j < |w.packs|
    ensures |records| == |w.packs[j].commits|
  {
    var spec := w.packs[j];
    seq(|spec.commits|, n requires 0 <= n < |spec.commits| =>
      Record(C(spec.commits[n]), RowOf(w, spec.commits[n])))
  }

  /** The push of pack `j` to a branch. */
  function PushOf(w: World, codec: Codec<PackFrame>, j: nat, branch: string): PushRequest
    requires j < |w.packs|
  {
    var spec := w.packs[j];
    PushRequest(branch, spec.base, TargetOf(spec), P(j), spec.format, codec.encode(PackAt(w, j)), RecordsAt(w, j))
  }

  function AnySnapshot(): Id -> bool { id => true }

  ghost predicate Valid(w: World, codec: Codec<PackFrame>) {
    && Sized(w) && Encodes(w, codec) && ParentsNamed(w) && PacksDiffer(w)
    && forall j :: 0 <= j < |w.packs| ==> SpecValid(w, w.packs[j])
  }

  lemma PackRecords(w: World, codec: Codec<PackFrame>, j: nat)
    requires Valid(w, codec) && j < |w.packs|
    ensures var k, f := ContractOf(w, codec), PackAt(w, j);
            && (forall n :: 0 <= n < |f.commits| ==> Identity(k, f.commits[n]).Some?)
            && RecordsOf(k, f) == RecordsAt(w, j)
  {
    hide Identity;
    hide ContractOf;
    hide C;
    var k, f := ContractOf(w, codec), PackAt(w, j);
    PackCommits(w, codec, j);
    forall n | 0 <= n < |f.commits| ensures RecordsOf(k, f)[n] == RecordsAt(w, j)[n] {
    }
  }

  lemma PackUnframed(w: World, codec: Codec<PackFrame>, j: nat)
    requires Valid(w, codec) && j < |w.packs|
    ensures Unframe(ContractOf(w, codec), w.packs[j].format, codec.encode(PackAt(w, j))) == Some(PackAt(w, j))
    ensures |codec.encode(PackAt(w, j))| <= MAX_V2_PACK_BYTES
    ensures ContractOf(w, codec).contentId(codec.encode(PackAt(w, j))) == P(j)
    ensures w.packs[j].format == PACK_FORMAT_V2 || w.packs[j].format == PACK_FORMAT_V3
  {
    hide Identity;
    hide C;
    hide P;
    hide WellFramed;
    hide ParentsNamed;
    hide PacksDiffer;
    hide SpecValid;
    assert SpecValid(w, w.packs[j]);
    PackFramed(w, codec, j);
    PackNamed(w, codec, j);
    FramesAreCanonical(ContractOf(w, codec), w.packs[j].format, PackAt(w, j), codec.encode(PackAt(w, j)));
  }

  /** The pack of a push passes every check of writePack. */
  lemma PushMatches(w: World, codec: Codec<PackFrame>, j: nat, branch: string)
    requires Valid(w, codec) && j < |w.packs|
    ensures Matches(ContractOf(w, codec), AnySnapshot(), PushOf(w, codec, j, branch), PackAt(w, j))
    ensures NoSelfParents(ContractOf(w, codec))
  {
    hide Identity;
    hide C;
    hide P;
    hide Unframe;
    hide RecordsOf;
    hide NoSelfParents;
    NoCommitNamesItself(w, codec);
    PackRecords(w, codec, j);
    PackUnframed(w, codec, j);
    hide ContractOf;
    hide Valid;
    hide Encodes;
  }

  /** What the store must hold for the push to pass the remaining checks. */
  ghost predicate Welcome(w: World, commits: map<Id, CommitRow>, j: nat)
    requires j < |w.packs|
  {
    var spec := w.packs[j];
    && (spec.base != "" ==> spec.base in commits && commits[spec.base].format == COMMIT_FORMAT_V2)
    && (spec.format == PACK_FORMAT_V3 ==> AllParentsKnown(commits, spec.base, RecordsAt(w, j)))
  }

  lemma PushChecked(w: World, codec: Codec<PackFrame>, j: nat, branch: string, commits: map<Id, CommitRow>)
    requires Valid(w, codec) && j < |w.packs| && branch != "" && Welcome(w, commits, j)
    ensures Checked(ContractOf(w, codec), AnySnapshot(), commits, PACK_FORMAT_V2, PushOf(w, codec, j, branch))
  {
    Names();
    PushMatches(w, codec, j, branch);
    PackUnframed(w, codec, j);
    hide Identity;
    hide ContractOf;
    hide Unframe;
    hide RecordsOf;
    hide Encodes;
    hide C;
    hide P;
    hide Matches;
    hide AllParentsKnown;
    assert PackAt(w, j).base == BaseOf(w.packs[j].base);
  }

  /** The first `n` of these commits are added. */
  function AddRows(commits: map<Id, CommitRow>, w: World, ids: seq<nat>, n: nat): map<Id, CommitRow>
    requires n <= |ids|
  {
    if n == 0 then commits else AddRows(commits, w, ids, n - 1)[C(ids[n - 1]) := RowOf(w, ids[n - 1])]
  }

  /** Each commit is new or registered unchanged, and its parents are registered or come before it. */
  ghost predicate Registrable(w: World, commits: map<Id, CommitRow>, ids: seq<nat>) {
    forall n :: 0 <= n < |ids| ==> RegistrableAt(w, commits, ids, n)
  }

  ghost predicate RegistrableAt(w: World, commits: map<Id, CommitRow>, ids: seq<nat>, n: nat)
    requires n < |ids|
  {
    && (C(ids[n]) in commits ==> commits[C(ids[n])] == RowOf(w, ids[n]))
    && (forall m :: 0 <= m < n ==> C(ids[m]) != C(ids[n]))
    && (forall p :: p in Parents(w, ids[n]) ==> p in commits || exists m :: 0 <= m < n && C(ids[m]) == p)
  }

  lemma {:induction false} AddedRows(w: World, commits: map<Id, CommitRow>, ids: seq<nat>, n: nat)
    requires n <= |ids|
    ensures var c := AddRows(commits, w, ids, n);
            && (forall x :: x in c <==> x in commits || exists m :: 0 <= m < n && C(ids[m]) == x)
            && (forall x :: x in commits && (forall m :: 0 <= m < n ==> C(ids[m]) != x) ==> c[x] == commits[x])
  {
    hide C;
    if n > 0 {
      AddedRows(w, commits, ids, n - 1);
    }
  }

  /** Registering the commits of a pack succeeds and adds exactly them. */
  lemma {:induction false} PutPack(w: World, commits: map<Id, CommitRow>, j: nat, n: nat)
    requires j < |w.packs| && n <= |w.packs[j].commits| && Registrable(w, commits, w.packs[j].commits)
    ensures PutAllTx(commits, RecordsAt(w, j)[..n]) == Ok(AddRows(commits, w, w.packs[j].commits, n))
    decreases n
  {
    hide C;
    var ids, records := w.packs[j].commits, RecordsAt(w, j);
    if n == 0 {
      assert records[..0] == [];
    } else {
      PutPack(w, commits, j, n - 1);
      AddedRows(w, commits, ids, n - 1);
      assert records[..n][..n - 1] == records[..n - 1];
      assert records[..n][n - 1] == Record(C(ids[n - 1]), RowOf(w, ids[n - 1]));
      assert RegistrableAt(w, commits, ids, n - 1);
      var c := AddRows(commits, w, ids, n - 1);
      if C(ids[n - 1]) in c {
        assert c[C(ids[n - 1])] == RowOf(w, ids[n - 1]);
        assert c[C(ids[n - 1]) := RowOf(w, ids[n - 1])] == c;
      }
    }
  }

  /** The pack of the push is new to the table. */
  ghost predicate NewPack(r: Repo, req: PushRequest) {
    req.packHash !in r.ranges && forall h :: h in r.ranges ==> r.ranges[h].target != req.target
  }

  function Registered(r: Repo, commits: map<Id, CommitRow>, req: PushRequest): Repo {
    r.(commits := commits, ranges := r.ranges[req.packHash := RangeOf(AsPush(req))])
  }

  /** A first push creates its branch. */
  lemma FirstPush(r: Repo, now: nat, req: PushRequest, commits: map<Id, CommitRow>)
    requires PutAllTx(r.commits, req.records) == Ok(commits) && NewPack(r, req) && req.target in commits
    requires req.base == "" && req.branch !in r.branches
    ensures PushTx(r, now, req) == Ok(Registered(r, commits, req).(
              branches := r.branches[req.branch := Branch(req.target, false)],
              defaultBranch := if r.defaultBranch.None? then Some(req.branch) else r.defaultBranch))
  {
    hide PutAllTx;
    hide Reaches;
    hide GraphOf;
  }

  /** A push from the head of an unleased branch moves it. */
  lemma NextPush(r: Repo, now: nat, req: PushRequest, commits: map<Id, CommitRow>)
    requires PutAllTx(r.commits, req.records) == Ok(commits) && NewPack(r, req) && req.target in commits
    requires req.base != "" && req.base in commits && req.branch in r.branches
             && r.branches[req.branch].head == req.base
    requires r.leases == map[]
    ensures PushTx(r, now, req) == Ok(Registered(r, commits, req).(
              branches := r.branches[req.branch := r.branches[req.branch].(head := req.target)]))
  {
    hide PutAllTx;
    hide Reaches;
    hide GraphOf;
  }

  /** The repository after the push of pack `j` to a branch. */
  function WithPack(w: World, r: Repo, j: nat, branch: string): Repo
    requires j < |w.packs|
  {
    var spec := w.packs[j];
    r.(commits := AddRows(r.commits, w, spec.commits, |spec.commits|),
       branches := r.branches[branch := Branch(TargetOf(spec), false)],
       defaultBranch := if r.defaultBranch.None? then Some(branch) else r.defaultBranch,
       ranges := r.ranges[P(j) := RangeRow(spec.base, TargetOf(spec), spec.format)])
  }

  /** The repository after a pack of up to three commits, written out. */
  lemma WithPackOf(w: World, r: Repo, j: nat, branch: string)
    requires j < |w.packs| && 1 <= |w.packs[j].commits| <= 3
    ensures var spec := w.packs[j]; var n := |spec.commits|;
            var one := r.commits[C(spec.commits[0]) := RowOf(w, spec.commits[0])];
            var two := if n == 1 then one else one[C(spec.commits[1]) := RowOf(w, spec.commits[1])];
            WithPack(w, r, j, branch) == Repo(
              if n <= 2 then two else two[C(spec.commits[2]) := RowOf(w, spec.commits[2])],
              r.branches[branch := Branch(C(spec.commits[n - 1]), false)],
              if r.defaultBranch.None? then Some(branch) else r.defaultBranch,
              r.leases, r.pushes, r.ranges[P(j) := RangeRow(spec.base, C(spec.commits[n - 1]), spec.format)])
  {
    hide C;
    hide P;
    hide RowOf;
    var ids := w.packs[j].commits;
    assert AddRows(r.commits, w, ids, 1) == r.commits[C(ids[0]) := RowOf(w, ids[0])];
    if |ids| > 1 {
      assert AddRows(r.commits, w, ids, 2) == AddRows(r.commits, w, ids, 1)[C(ids[1]) := RowOf(w, ids[1])];
    }
  }

  /** Pack `j` can be pushed to a branch: to a new one without a base, or to one whose head is the base. */
  ghost predicate Pushable(w: World, r: Repo, j: nat, branch: string)
    requires j < |w.packs|
  {
    var spec := w.packs[j];
    && branch != "" && Welcome(w, r.commits, j) && Registrable(w, r.commits, spec.commits) && r.leases == map[]
    && P(j) !in r.ranges && (forall h :: h in r.ranges ==> r.ranges[h].target != TargetOf(spec))
    && (if spec.base == "" then branch !in r.branches
        else branch in r.branches && r.branches[branch] == Branch(spec.base, false) && r.defaultBranch.Some?)
  }

  /** HandlePush accepts the push and leaves the repository `s`. */
  ghost predicate Pushes(w: World, codec: Codec<PackFrame>, r: Repo, j: nat, branch: string, s: Repo)
    requires j < |w.packs|
  {
    && Checked(ContractOf(w, codec), AnySnapshot(), r.commits, PACK_FORMAT_V2, PushOf(w, codec, j, branch))
    && forall now: nat :: PushTx(r, now, PushOf(w, codec, j, branch)) == Ok(s)
  }

  lemma PushAccepted(w: World, codec: Codec<PackFrame>, r: Repo, j: nat, branch: string)
    requires Valid(w, codec) && j < |w.packs| && Pushable(w, r, j, branch)
    ensures Pushes(w, codec, r, j, branch, WithPack(w, r, j, branch))
  {
    var spec := w.packs[j];
    var req := PushOf(w, codec, j, branch);
    PushChecked(w, codec, j, branch, r.commits);
    PackUnframed(w, codec, j);
    var n := |spec.commits|;
    PutPack(w, r.commits, j, n);
    assert RecordsAt(w, j)[..n] == RecordsAt(w, j);
    AddedRows(w, r.commits, spec.commits, n);
    assert C(spec.commits[n - 1]) == TargetOf(spec);
    var commits := AddRows(r.commits, w, spec.commits, n);
    hide C;
    hide P;
    hide Checked;
    hide Registrable;
    hide AddRows;
    hide PutAllTx;
    hide PushTx;
    hide Encodes;
    hide Unframe;
    forall now: nat ensures PushTx(r, now, req) == Ok(WithPack(w, r, j, branch)) {
      if spec.base == "" { FirstPush(r, now, req, commits); } else { NextPush(r, now, req, commits); }
    }
  }

  // ----- packs as pulls read them -------------------------------------------------------

  function RangeAt(w: World, j: nat): PackRange
    requires j < |w.packs|
  {
    PackRange(P(j), w.packs[j].base, TargetOf(w.packs[j]), w.packs[j].format)
  }

  /** The row of pack `j` reads back as its frame. */
  lemma RangeReads(w: World, codec: Codec<PackFrame>, store: PullStore, j: nat)
    requires Valid(w, codec) && j < |w.packs| && P(j) in store.blobs && store.blobs[P(j)] == codec.encode(PackAt(w, j))
    ensures Read(ContractOf(w, codec), store, RangeAt(w, j)) == Some(PackAt(w, j))
  {
    Names();
    PackUnframed(w, codec, j);
    hide Identity;
    hide ContractOf;
    hide Unframe;
    hide Encodes;
    hide C;
    hide P;
    assert PackAt(w, j).base == BaseOf(w.packs[j].base);
  }

  /** The commits of pack `j` and the parents they name. */
  lemma PackContents(w: World, codec: Codec<PackFrame>, j: nat)
    requires Valid(w, codec) && j < |w.packs|
    ensures var k, f, spec := ContractOf(w, codec), PackAt(w, j), w.packs[j];
            && Ids(k, f) == (set n | 0 <= n < |spec.commits| :: V2(C(spec.commits[n])))
            && AllParents(f) == (set n, m | 0 <= n < |spec.commits|
                                 && 0 <= m < |Parents(w, spec.commits[n])| :: V2(Parents(w, spec.commits[n])[m]))
            && MergeParents(f) == (set n, m | 0 <= n < |spec.commits|
                                   && 1 <= m < |Parents(w, spec.commits[n])| :: V2(Parents(w, spec.commits[n])[m]))
  {
    hide Identity;
    hide ContractOf;
    hide Encodes;
    hide C;
    hide P;
    var k, f, spec := ContractOf(w, codec), PackAt(w, j), w.packs[j];
    PackCommits(w, codec, j);
    forall n | 0 <= n < |spec.commits| ensures f.commits[n].parents == Identities(Parents(w, spec.commits[n])) {}
  }
}
