// Commit and pack frames (internal/server/sync/framing.go). The CBOR library, BLAKE3 and the
// graph contract are parameters: a codec, a content-ID function and a commit encoder.
module Framing {
  import opened Wrappers
  import opened Wire
  import opened CommitGraph

  const MAX_V2_PACK_BYTES: nat := 64 * 1024 * 1024
  const COMMIT_FORMAT_LEGACY: nat := 1
  const COMMIT_FORMAT_V2: nat := 2
  const PACK_FORMAT_V2: nat := 2
  const PACK_FORMAT_V3: nat := 3

  datatype CommitIdentity = CommitIdentity(format: nat, id: Id)

  const NO_COMMIT := CommitIdentity(0, "")

  /** graphcontract.Commit: parents carry no framing format. */
  datatype Commit = Commit(snapshot: Id, parents: seq<Id>, author: string, message: string, time: int)

  datatype CommitFrame = CommitFrame(
    version: nat, parents: seq<CommitIdentity>, snapshotRoot: Id, author: string, message: string, time: int)

  datatype PackObject = PackObject(id: Id, data: Bytes)

  /** PackFrameV2 and PackFrameV3 have the same fields and differ in their validation. */
  datatype PackFrame = PackFrame(
    version: nat, base: CommitIdentity, target: CommitIdentity, commits: seq<CommitFrame>, objects: seq<PackObject>)

  /** A canonical encoding together with its strict decoder. */
  datatype Codec<!T> = Codec(encode: T -> Bytes, decode: Bytes -> Option<T>)

  ghost predicate Lawful<T(!new)>(codec: Codec<T>) {
    forall m: T :: codec.decode(codec.encode(m)) == Some(m)
  }

  /** Content addressing: BLAKE3 over bytes, and MarshalCommit (None: rejected by the contract). */
  datatype Contract = Contract(
    contentId: Bytes -> Id, commitBytes: Commit -> Option<Bytes>, frames: Codec<PackFrame>)

  predicate ValidContentID(id: Id) {
    |id| == 64 && forall c | c in id :: '0' <= c <= '9' || 'a' <= c <= 'f'
  }

  function V2(id: Id): CommitIdentity { CommitIdentity(COMMIT_FORMAT_V2, id) }

  /** CommitIdentity.Validate. */
  predicate ValidIdentity(identity: CommitIdentity) {
    && identity.id != ""
    && (identity.format == COMMIT_FORMAT_LEGACY || identity.format == COMMIT_FORMAT_V2)
    && (identity.format == COMMIT_FORMAT_V2 ==> ValidContentID(identity.id))
  }

  function ParentIds(f: CommitFrame): (ids: seq<Id>)
    ensures |ids| == |f.parents|
  {
    seq(|f.parents|, i requires 0 <= i < |f.parents| => f.parents[i].id)
  }

  /** CommitFrameV2.Identity: derived from the contract's record, so parent formats do not enter it. */
  function Identity(k: Contract, f: CommitFrame): (r: Option<CommitIdentity>)
    ensures r.Some? ==> r.value.format == COMMIT_FORMAT_V2
    ensures r.Some? ==> forall p :: p in f.parents ==> ValidIdentity(p)
  {
    if exists p | p in f.parents :: !ValidIdentity(p) then None
    else
      match k.commitBytes(Commit(f.snapshotRoot, ParentIds(f), f.author, f.message, f.time))
      case None => None
      case Some(data) => Some(V2(k.contentId(data)))
  }

  // ----- what a valid frame is ----------------------------------------------------------

  /** What the `i`-th commit of a first-parent chain has to continue. */
  ghost function Previous(k: Contract, f: PackFrame, i: nat): (p: CommitIdentity)
    requires i <= |f.commits|
    requires forall j :: 0 <= j < i ==> Identity(k, f.commits[j]).Some?
  {
    if i == 0 then f.base else Identity(k, f.commits[i - 1]).value
  }

  /** The first `n` commits form a first-parent chain that starts at the base. */
  ghost predicate Chained(k: Contract, f: PackFrame, n: nat)
    requires n <= |f.commits|
  {
    && (forall i :: 0 <= i < n ==> Identity(k, f.commits[i]).Some?)
    && (forall i :: 0 <= i < n ==>
          if f.commits[i].parents == [] then i == 0 && f.base == NO_COMMIT
          else f.commits[i].parents[0] == Previous(k, f, i))
  }

  ghost predicate ObjectsValid(k: Contract, objects: seq<PackObject>) {
    && (forall i :: 0 <= i < |objects| ==>
                    ValidContentID(objects[i].id) && k.contentId(objects[i].data) == objects[i].id)
    && (forall i, j :: 0 <= i < j < |objects| ==> objects[i].id != objects[j].id)
  }

  ghost predicate Carries(objects: seq<PackObject>, id: Id) {
    exists o :: o in objects && o.id == id
  }

  ghost predicate SnapshotsPresent(f: PackFrame) {
    forall i :: 0 <= i < |f.commits| ==> Carries(f.objects, f.commits[i].snapshotRoot)
  }

  ghost predicate Enveloped(f: PackFrame) {
    (f.base == NO_COMMIT || ValidIdentity(f.base)) && ValidIdentity(f.target) && |f.commits| > 0
  }

  ghost predicate WellFramedV2(k: Contract, f: PackFrame) {
    && f.version == PACK_FORMAT_V2 && Enveloped(f)
    && Chained(k, f, |f.commits|)
    && Identity(k, f.commits[|f.commits| - 1]).value == f.target
    && ObjectsValid(k, f.objects) && SnapshotsPresent(f)
  }

  ghost predicate WellFramedV3(k: Contract, f: PackFrame) {
    && f.version == PACK_FORMAT_V3 && Enveloped(f)
    && (forall i :: 0 <= i < |f.commits| ==> Identity(k, f.commits[i]).Some?)
    && (forall i :: 0 <= i < |f.commits| ==> f.base.id != "" ==> Identity(k, f.commits[i]).value.id != f.base.id)
    && (forall i, j :: 0 <= i < j < |f.commits| ==>
                       Identity(k, f.commits[i]).value.id != Identity(k, f.commits[j]).value.id)
    && (f.base.id != "" ==> forall i :: 0 <= i < |f.commits| ==> f.commits[i].parents != [])
    && Identity(k, f.commits[|f.commits| - 1]).value == f.target
    && ObjectsValid(k, f.objects) && SnapshotsPresent(f)
  }

  ghost predicate WellFramed(k: Contract, format: nat, f: PackFrame) {
    if format == PACK_FORMAT_V3 then WellFramedV3(k, f) else WellFramedV2(k, f)
  }

  // ----- the validators -----------------------------------------------------------------

  /** The object loop shared by both validators; `ok` also covers the snapshot lookups. */
  method ValidateObjects(k: Contract, f: PackFrame) returns (ok: bool)
    ensures ok <==> ObjectsValid(k, f.objects) && SnapshotsPresent(f)
  {
    var seen: set<Id> := {};
    for i := 0 to |f.objects|
      invariant forall id :: id in seen <==> exists j :: 0 <= j < i && f.objects[j].id == id
      invariant forall j :: 0 <= j < i ==>
                            ValidContentID(f.objects[j].id) && k.contentId(f.objects[j].data) == f.objects[j].id
      invariant forall j, l :: 0 <= j < l < i ==> f.objects[j].id != f.objects[l].id
    {
      var entry := f.objects[i];
      if !ValidContentID(entry.id) || k.contentId(entry.data) != entry.id || entry.id in seen {
        return false;
      }
      seen := seen + {entry.id};
    }
    assert forall id :: id in seen <==> Carries(f.objects, id) by {
      forall id ensures id in seen <==> Carries(f.objects, id) {
        if id in seen {
          var j :| 0 <= j < |f.objects| && f.objects[j].id == id;
          assert f.objects[j] in f.objects;
        }
      }
    }
    for i := 0 to |f.commits|
      invariant forall j :: 0 <= j < i ==> Carries(f.objects, f.commits[j].snapshotRoot)
    {
      if f.commits[i].snapshotRoot !in seen {
        return false;
      }
    }
    return true;
  }

  /** What one more commit adds to the chain condition. */
  lemma ChainStep(k: Contract, f: PackFrame, i: nat)
    requires i < |f.commits| && Chained(k, f, i)
    ensures Chained(k, f, i + 1) <==>
              && Identity(k, f.commits[i]).Some?
              && (if f.commits[i].parents == [] then i == 0 && f.base == NO_COMMIT
                  else f.commits[i].parents[0] == Previous(k, f, i))
  {
    hide Identity;
  }

  lemma ChainPrefix(k: Contract, f: PackFrame, i: nat, n: nat)
    requires i <= n <= |f.commits| && Chained(k, f, n)
    ensures Chained(k, f, i)
  {
    hide Identity;
  }

  /** The first-parent loop of PackFrameV2.validate; yields the commit the chain ends at. */
  method FollowChain(k: Contract, f: PackFrame) returns (r: Option<CommitIdentity>)
    ensures r.Some? <==> Chained(k, f, |f.commits|)
    ensures r.Some? ==> r.value == Previous(k, f, |f.commits|)
  {
    hide Identity;
    hide Chained;
    var previous := f.base;
    assert Chained(k, f, 0) by { NothingChained(k, f); }
    for i := 0 to |f.commits|
      invariant Chained(k, f, i) && forall j :: 0 <= j < i ==> Identity(k, f.commits[j]).Some?
      invariant previous == Previous(k, f, i)
    {
      var commit := f.commits[i];
      ChainStep(k, f, i);
      if Chained(k, f, |f.commits|) {
        ChainPrefix(k, f, i + 1, |f.commits|);
      }
      var identity := Identity(k, commit);
      if identity.None? {
        return None;
      }
      if |commit.parents| == 0 {
        if !(i == 0 && previous == NO_COMMIT) {
          return None;
        }
      } else if commit.parents[0] != previous {
        return None;
      }
      previous := identity.value;
    }
    return Some(previous);
  }

  lemma NothingChained(k: Contract, f: PackFrame)
    ensures Chained(k, f, 0)
  {}

  /** PackFrameV2.validate. */
  method ValidateV2(k: Contract, f: PackFrame) returns (ok: bool)
    ensures ok <==> WellFramedV2(k, f)
  {
    hide Identity;
    hide ValidIdentity;
    hide ObjectsValid;
    hide SnapshotsPresent;
    hide Chained;
    if f.version != PACK_FORMAT_V2 || (f.base != NO_COMMIT && !ValidIdentity(f.base))
       || !ValidIdentity(f.target) || |f.commits| == 0 {
      return false;
    }
    var previous := FollowChain(k, f);
    if previous.None? || previous.value != f.target {
      return false;
    }
    ok := ValidateObjects(k, f);
  }

  /** PackFrameV3.validate: no link from the target to the base is checked, nor parent order. */
  method ValidateV3(k: Contract, f: PackFrame) returns (ok: bool)
    ensures ok <==> WellFramedV3(k, f)
  {
    hide Identity;
    hide ValidIdentity;
    hide ObjectsValid;
    hide SnapshotsPresent;
    if f.version != PACK_FORMAT_V3 || (f.base != NO_COMMIT && !ValidIdentity(f.base))
       || !ValidIdentity(f.target) || |f.commits| == 0 {
      return false;
    }
    var seenCommits: set<Id> := if f.base.id != "" then {f.base.id} else {};
    for i := 0 to |f.commits|
      invariant forall j :: 0 <= j < i ==> Identity(k, f.commits[j]).Some?
      invariant forall id :: id in seenCommits <==>
                  (f.base.id != "" && id == f.base.id)
                    || exists j :: 0 <= j < i && Identity(k, f.commits[j]).value.id == id
      invariant forall j :: 0 <= j < i ==> f.base.id != "" ==> Identity(k, f.commits[j]).value.id != f.base.id
      invariant forall j, l :: 0 <= j < l < i ==>
                               Identity(k, f.commits[j]).value.id != Identity(k, f.commits[l]).value.id
      invariant f.base.id != "" ==> forall j :: 0 <= j < i ==> f.commits[j].parents != []
    {
      var commit := f.commits[i];
      var identity := Identity(k, commit);
      if identity.None? || identity.value.id in seenCommits || (|commit.parents| == 0 && f.base.id != "") {
        return false;
      }
      seenCommits := seenCommits + {identity.value.id};
    }
    var last := Identity(k, f.commits[|f.commits| - 1]);
    if last.value != f.target {
      return false;
    }
    ok := ValidateObjects(k, f);
  }

  // ----- canonical decoding -------------------------------------------------------------

  /** The frame a byte string stands for in the given pack format, if it is canonical. */
  ghost function Unframe(k: Contract, format: nat, data: Bytes): (r: Option<PackFrame>)
    ensures r.Some? ==> WellFramed(k, format, r.value)
  {
    match k.frames.decode(data)
    case None => None
    case Some(f) =>
      if |data| <= MAX_V2_PACK_BYTES && WellFramed(k, format, f) && k.frames.encode(f) == data then Some(f) else None
  }

  /** UnmarshalPackFrameV2 and UnmarshalPackFrameV3: decode, validate, re-encode, compare. */
  method UnmarshalPackFrame(k: Contract, format: nat, data: Bytes) returns (r: Option<PackFrame>)
    requires format == PACK_FORMAT_V2 || format == PACK_FORMAT_V3
    ensures r == Unframe(k, format, data)
  {
    if |data| > MAX_V2_PACK_BYTES {
      return None;
    }
    var decoded := k.frames.decode(data);
    if decoded.None? {
      return None;
    }
    var valid;
    if format == PACK_FORMAT_V3 {
      valid := ValidateV3(k, decoded.value);
    } else {
      valid := ValidateV2(k, decoded.value);
    }
    if !valid || k.frames.encode(decoded.value) != data {
      return None;
    }
    return decoded;
  }

  /** The accepted byte strings are exactly the encodings of valid frames within the size limit. */
  lemma FramesAreCanonical(k: Contract, format: nat, f: PackFrame, data: Bytes)
    requires Lawful(k.frames)
    ensures Unframe(k, format, data) == Some(f)
            <==> WellFramed(k, format, f) && data == k.frames.encode(f) && |data| <= MAX_V2_PACK_BYTES
  {
    assert k.frames.decode(k.frames.encode(f)) == Some(f);
  }

  /** What an accepted frame is, whatever its format: it has the size limit and the version asked for, all its commits
      can be identified, the last one is the target, its objects have the ids of their bytes, each once, and every
      snapshot is among them. */
  lemma FrameMeans(k: Contract, format: nat, data: Bytes, f: PackFrame)
    requires Unframe(k, format, data) == Some(f) && (format == 2 || format == 3)
    ensures k.frames.decode(data) == Some(f) && k.frames.encode(f) == data && |data| <= 64 * 1024 * 1024
    ensures f.version == format && |f.commits| > 0
    ensures f.base == CommitIdentity(0, "") || f.base.id != ""
    ensures forall i :: 0 <= i < |f.commits| ==> Identity(k, f.commits[i]).Some?
    ensures Identity(k, f.commits[|f.commits| - 1]) == Some(f.target) && f.target.format == 2
    ensures forall i :: 0 <= i < |f.objects| ==> k.contentId(f.objects[i].data) == f.objects[i].id
    ensures forall i, j :: 0 <= i < j < |f.objects| ==> f.objects[i].id != f.objects[j].id
    ensures forall i :: 0 <= i < |f.commits| ==>
                        exists j :: 0 <= j < |f.objects| && f.objects[j].id == f.commits[i].snapshotRoot
  {
    hide Identity;
    hide ValidContentID;
    forall i | 0 <= i < |f.commits|
      ensures exists j :: 0 <= j < |f.objects| && f.objects[j].id == f.commits[i].snapshotRoot
    {
      assert Carries(f.objects, f.commits[i].snapshotRoot);
    }
  }

  /** The first parent of the `i`-th commit is the commit before it, or the base; only the first one of a history that
      starts from nothing has none. */
  predicate LinkedBack(k: Contract, f: PackFrame, i: nat)
    requires i < |f.commits|
  {
    var parents := f.commits[i].parents;
    if parents == [] then i == 0 && f.base == CommitIdentity(0, "")
    else if i == 0 then parents[0] == f.base
    else Some(parents[0]) == Identity(k, f.commits[i - 1])
  }

  /** And each such byte string is accepted, as a first-parent chain for V2, and as distinct commits above the base
      for V3. */
  lemma FrameAccepted(k: Contract, format: nat, data: Bytes, f: PackFrame)
    requires format == 2 || format == 3
    requires k.frames.decode(data) == Some(f) && k.frames.encode(f) == data && |data| <= 64 * 1024 * 1024
    requires f.version == format && |f.commits| > 0 && ValidIdentity(f.target)
    requires f.base == CommitIdentity(0, "") || ValidIdentity(f.base)
    requires forall i :: 0 <= i < |f.commits| ==> Identity(k, f.commits[i]).Some?
    requires Identity(k, f.commits[|f.commits| - 1]) == Some(f.target)
    requires forall i :: 0 <= i < |f.objects| ==>
                         ValidContentID(f.objects[i].id) && k.contentId(f.objects[i].data) == f.objects[i].id
    requires forall i, j :: 0 <= i < j < |f.objects| ==> f.objects[i].id != f.objects[j].id
    requires forall i :: 0 <= i < |f.commits| ==>
                         exists o :: o in f.objects && o.id == f.commits[i].snapshotRoot
    requires format == 2 ==> forall i :: 0 <= i < |f.commits| ==> LinkedBack(k, f, i)
    requires format == 3 ==> forall i, j :: 0 <= i < j < |f.commits| ==>
                                            Identity(k, f.commits[i]).value.id != Identity(k, f.commits[j]).value.id
    requires format == 3 && f.base.id != "" ==>
               forall i :: 0 <= i < |f.commits| ==>
                           f.commits[i].parents != [] && Identity(k, f.commits[i]).value.id != f.base.id
    ensures Unframe(k, format, data) == Some(f)
  {
    hide Identity;
    hide ValidIdentity;
    hide ValidContentID;
    assert SnapshotsPresent(f) by {
      forall i | 0 <= i < |f.commits| ensures Carries(f.objects, f.commits[i].snapshotRoot) {}
    }
    assert ObjectsValid(k, f.objects) && Enveloped(f);
    hide SnapshotsPresent;
    hide ObjectsValid;
    if format == 2 {
      forall i | 0 <= i < |f.commits|
        ensures if f.commits[i].parents == [] then i == 0 && f.base == NO_COMMIT
                else f.commits[i].parents[0] == Previous(k, f, i)
      {
        assert LinkedBack(k, f, i);
      }
      assert Chained(k, f, |f.commits|);
      hide Chained;
      assert WellFramedV2(k, f);
    } else {
      assert WellFramedV3(k, f);
    }
  }

  /** What links the commits of an accepted V2 frame: first parents, back to the base. */
  lemma LinksOfV2(k: Contract, data: Bytes, f: PackFrame, i: nat)
    requires Unframe(k, 2, data) == Some(f) && i < |f.commits|
    ensures LinkedBack(k, f, i)
  {
    hide Identity;
    hide ObjectsValid;
    hide SnapshotsPresent;
    hide Enveloped;
  }

  /** An accepted V3 frame has each commit once, none of them the base, and no root above a base. */
  lemma CommitsOfV3(k: Contract, data: Bytes, f: PackFrame, i: nat, j: nat)
    requires Unframe(k, 3, data) == Some(f) && i < j < |f.commits|
    ensures Identity(k, f.commits[i]) != Identity(k, f.commits[j])
  {
    hide Identity;
    hide ObjectsValid;
    hide SnapshotsPresent;
    hide Enveloped;
  }

  lemma BaseOfV3(k: Contract, data: Bytes, f: PackFrame, i: nat)
    requires Unframe(k, 3, data) == Some(f) && f.base.id != "" && i < |f.commits|
    ensures f.commits[i].parents != [] && Identity(k, f.commits[i]) != Some(CommitIdentity(2, f.base.id))
  {
    hide Identity;
    hide ObjectsValid;
    hide SnapshotsPresent;
    hide Enveloped;
  }

  /** Content ids are 64 lower-case hexadecimal digits. */
  lemma ContentIDMeans(id: Id)
    ensures ValidContentID(id) <==> |id| == 64 && forall n :: 0 <= n < |id| ==> id[n] in "0123456789abcdef"
  {
    forall c | c in id ensures '0' <= c <= '9' || 'a' <= c <= 'f' <==> c in "0123456789abcdef" { HexDigit(c); }
    assert forall n :: 0 <= n < |id| ==> id[n] in id;
  }

  lemma HexDigit(c: char)
    ensures '0' <= c <= '9' || 'a' <= c <= 'f' <==> c in "0123456789abcdef"
  {
    var digits := "0123456789abcdef";
    assert digits[0] == '0' && digits[1] == '1' && digits[2] == '2' && digits[3] == '3' && digits[4] == '4';
    assert digits[5] == '5' && digits[6] == '6' && digits[7] == '7' && digits[8] == '8' && digits[9] == '9';
    assert digits[10] == 'a' && digits[11] == 'b' && digits[12] == 'c' && digits[13] == 'd' && digits[14] == 'e';
    assert digits[15] == 'f';
  }

  /** What a commit's identity is: the content id of its canonical record. Its parents are named by ids of the older
      format or by content ids. */
  lemma IdentityMeans(k: Contract, f: CommitFrame)
    ensures var record := k.commitBytes(Commit(f.snapshotRoot, ParentIds(f), f.author, f.message, f.time));
            && (Identity(k, f).Some? ==> record.Some? && Identity(k, f).value ==
                                                         CommitIdentity(2, k.contentId(record.value)))
            && (Identity(k, f).Some? ==>
                  forall p :: p in f.parents ==>
                              p.id != "" && (p.format == 1 || (p.format == 2 && |p.id| == 64)))
            && (record.Some? && (forall p :: p in f.parents ==> ValidIdentity(p)) ==> Identity(k, f).Some?)
    ensures forall i :: 0 <= i < |f.parents| ==> ParentIds(f)[i] == f.parents[i].id
  {}

  // ----- relation to the recorded history -----------------------------------------------

  /** The metadata store records every commit of the frame with the frame's parents. */
  ghost predicate Recorded(k: Contract, g: Graph, f: PackFrame) {
    forall i :: 0 <= i < |f.commits| ==>
      Identity(k, f.commits[i]).Some?
      && Identity(k, f.commits[i]).value.id in g
      && g[Identity(k, f.commits[i]).value.id] == ParentIds(f.commits[i])
  }

  /** The id of the `i`-th commit of a frame whose commits can be identified. */
  ghost function CommitIdAt(k: Contract, f: PackFrame, i: nat): Id
    requires i < |f.commits| && Identity(k, f.commits[i]).Some?
  {
    Identity(k, f.commits[i]).value.id
  }

  lemma ParentRecorded(k: Contract, g: Graph, f: PackFrame, i: nat, p: CommitIdentity)
    requires Recorded(k, g, f) && i < |f.commits| && p in f.commits[i].parents
    ensures CommitIdAt(k, f, i) in g && p.id in g[CommitIdAt(k, f, i)]
    ensures Reaches(g, CommitIdAt(k, f, i), p.id)
  {
    hide Identity;
    var c := CommitIdAt(k, f, i);
    var n :| 0 <= n < |f.commits[i].parents| && f.commits[i].parents[n] == p;
    assert g[c][n] == p.id;
    ReachesSelf(g, c);
    ReachesParent(g, c, c, p.id);
  }

  lemma FirstParentReached(k: Contract, g: Graph, f: PackFrame, i: nat)
    requires Recorded(k, g, f) && Chained(k, f, |f.commits|) && 0 < i < |f.commits|
    ensures Reaches(g, CommitIdAt(k, f, i), CommitIdAt(k, f, i - 1))
  {
    hide Reaches;
    hide Identity;
    assert f.commits[i].parents[0] == Previous(k, f, i);
    ParentRecorded(k, g, f, i, f.commits[i].parents[0]);
  }

  /** In a V2 frame every commit descends from the commits before it and from the base. */
  lemma {:induction false} ChainDescends(k: Contract, g: Graph, f: PackFrame, j: nat, i: nat)
    requires Recorded(k, g, f) && Chained(k, f, |f.commits|) && j <= i < |f.commits|
    ensures Reaches(g, CommitIdAt(k, f, i), CommitIdAt(k, f, j))
    decreases i
  {
    hide Reaches;
    hide Identity;
    ReachesSelf(g, CommitIdAt(k, f, i));
    if j < i {
      FirstParentReached(k, g, f, i);
      hide Chained;
      hide Recorded;
      ChainDescends(k, g, f, j, i - 1);
      ReachesTransitive(g, CommitIdAt(k, f, i), CommitIdAt(k, f, i - 1), CommitIdAt(k, f, j));
    }
  }

  /** An accepted V2 frame with a base advances it: the target has the base as an ancestor. */
  lemma V2TargetDescendsFromBase(k: Contract, g: Graph, f: PackFrame)
    requires WellFramedV2(k, f) && Recorded(k, g, f) && f.base != NO_COMMIT
    ensures Reaches(g, f.target.id, f.base.id)
  {
    hide Reaches;
    hide Identity;
    assert f.commits[0].parents[0] == Previous(k, f, 0) == f.base;
    ParentRecorded(k, g, f, 0, f.base);
    ChainDescends(k, g, f, 0, |f.commits| - 1);
    ReachesTransitive(g, f.target.id, CommitIdAt(k, f, 0), f.base.id);
  }
}
