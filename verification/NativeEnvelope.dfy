// The native multi-pack pull envelope (internal/server/nativepull/framing.go). The CBOR library, BLAKE3 and the
// graph contract's own pack checks are parameters.
module NativeEnvelope {
  import opened Wrappers
  import opened Wire
  import opened Framing
  import Ordering

  const NATIVE_PULL_FORMAT_V1: nat := 1
  const NATIVE_PULL_MAGIC: Bytes := [0x53, 0x52, 0x4E, 0x50]  // "SRNP"
  const MAX_NATIVE_PULL_PACKS: nat := 4096
  const MAX_NATIVE_PACK_BYTES: nat := 64 * 1024 * 1024

  datatype Entry = Entry(obj: string, offset: nat, compressed: nat, uncompressed: nat, crc: nat)
  datatype Metadata = Metadata(id: string, objectCount: nat, compression: string)
  datatype Index = Index(packs: seq<Metadata>)

  datatype NativeFrame = NativeFrame(packID: string, commitID: string, packHash: string, length: nat, index: Index,
                                     entries: seq<Entry>)
  datatype NativeManifest = NativeManifest(version: nat, head: string, packs: seq<NativeFrame>)

  /** One pack on either side of the wire. */
  datatype NativePack = NativePack(packID: string, commitID: string, index: Index, entries: seq<Entry>, data: Bytes)

  datatype Pull = Pull(head: string, packs: seq<NativePack>)

  /** The graph contract; `objectCount` reads and validates a pack header. */
  datatype Contract = Contract(
    contentHash: Bytes -> string, validPackID: string -> bool, validIndex: Index -> bool,
    validEntry: (string, Entry) -> bool, objectCount: Bytes -> Option<nat>, manifests: Codec<NativeManifest>)

  // ----- what is valid ------------------------------------------------------------------

  /** The first metadata row of the pack decides; counts are compared as 32-bit numbers. */
  predicate ListsPack(packs: seq<Metadata>, packID: string, objectCount: nat) {
    packs != [] &&
    if packs[0].id == packID then packs[0].objectCount == objectCount % 0x1_0000_0000 && packs[0].compression == "zstd"
    else ListsPack(packs[1..], packID, objectCount)
  }

  ghost predicate ValidFrame(k: Contract, f: NativeFrame) {
    && k.validPackID(f.packID) && ValidContentID(f.packHash) && ValidContentID(f.commitID)
    && 0 < f.length <= MAX_NATIVE_PACK_BYTES
    && k.validIndex(f.index) && ListsPack(f.index.packs, f.packID, |f.entries|)
    && (forall i :: 0 <= i < |f.entries| ==> k.validEntry(f.packID, f.entries[i]))
    && (forall i, j :: 0 <= i < j < |f.entries| ==> f.entries[i].obj != f.entries[j].obj)
  }

  ghost predicate ValidManifest(k: Contract, m: NativeManifest) {
    && m.version == NATIVE_PULL_FORMAT_V1
    && 0 < |m.packs| <= MAX_NATIVE_PULL_PACKS && ValidContentID(m.head)
    && (forall i :: 0 <= i < |m.packs| ==> ValidFrame(k, m.packs[i]))
    && (forall i, j :: 0 <= i < j < |m.packs| ==>
                       m.packs[i].packID != m.packs[j].packID && m.packs[i].commitID != m.packs[j].commitID)
    && m.packs[|m.packs| - 1].commitID == m.head
  }

  /** manifestListsPack. */
  method ManifestListsPack(index: Index, packID: string, objectCount: nat) returns (ok: bool)
    ensures ok <==> ListsPack(index.packs, packID, objectCount)
  {
    for i := 0 to |index.packs|
      invariant ListsPack(index.packs, packID, objectCount) <==> ListsPack(index.packs[i..], packID, objectCount)
    {
      var metadata := index.packs[i];
      assert index.packs[i..][0] == metadata && index.packs[i..][1..] == index.packs[i + 1..];
      if metadata.id != packID {
        continue;
      }
      if metadata.objectCount != objectCount % 0x1_0000_0000 {
        return false;
      }
      return metadata.compression == "zstd";
    }
    return false;
  }

  /** NativePackFrame.validate. */
  method ValidateFrame(k: Contract, f: NativeFrame) returns (ok: bool)
    ensures ok <==> ValidFrame(k, f)
  {
    hide ValidContentID;
    if !k.validPackID(f.packID) || !ValidContentID(f.packHash) || !ValidContentID(f.commitID)
       || f.length == 0 || f.length > MAX_NATIVE_PACK_BYTES || !k.validIndex(f.index) {
      return false;
    }
    var listed := ManifestListsPack(f.index, f.packID, |f.entries|);
    if !listed {
      return false;
    }
    var seen: set<string> := {};
    for i := 0 to |f.entries|
      invariant forall o :: o in seen <==> exists j :: 0 <= j < i && f.entries[j].obj == o
      invariant forall j :: 0 <= j < i ==> k.validEntry(f.packID, f.entries[j])
      invariant forall j, l :: 0 <= j < l < i ==> f.entries[j].obj != f.entries[l].obj
    {
      if !k.validEntry(f.packID, f.entries[i]) || f.entries[i].obj in seen {
        return false;
      }
      seen := seen + {f.entries[i].obj};
    }
    return true;
  }

  /** NativePullManifestV1.validate. */
  method ValidateManifest(k: Contract, m: NativeManifest) returns (ok: bool)
    ensures ok <==> ValidManifest(k, m)
  {
    hide ValidContentID;
    hide ValidFrame;
    if m.version != NATIVE_PULL_FORMAT_V1 || |m.packs| == 0 || |m.packs| > MAX_NATIVE_PULL_PACKS
      || !ValidContentID(m.head) {
      return false;
    }
    var seenPacks: set<string> := {};
    var seenCommits: set<string> := {};
    for i := 0 to |m.packs|
      invariant forall x :: x in seenPacks <==> exists j :: 0 <= j < i && m.packs[j].packID == x
      invariant forall x :: x in seenCommits <==> exists j :: 0 <= j < i && m.packs[j].commitID == x
      invariant forall j :: 0 <= j < i ==> ValidFrame(k, m.packs[j])
      invariant forall j, l :: 0 <= j < l < i ==>
                               m.packs[j].packID != m.packs[l].packID && m.packs[j].commitID != m.packs[l].commitID
    {
      var pack := m.packs[i];
      var valid := ValidateFrame(k, pack);
      if !valid || pack.packID in seenPacks {
        return false;
      }
      seenPacks := seenPacks + {pack.packID};
      if pack.commitID in seenCommits {
        return false;
      }
      seenCommits := seenCommits + {pack.commitID};
    }
    return m.packs[|m.packs| - 1].commitID == m.head;
  }

  /** MarshalNativePullManifestV1. */
  method MarshalManifest(k: Contract, m: NativeManifest) returns (r: Option<Bytes>)
    ensures r == if ValidManifest(k, m) then Some(k.manifests.encode(m)) else None
  {
    hide ValidManifest;
    var valid := ValidateManifest(k, m);
    return if valid then Some(k.manifests.encode(m)) else None;
  }

  /** The manifest a byte string stands for, if it is canonical and valid. */
  ghost function Unmarshalled(k: Contract, data: Bytes): (r: Option<NativeManifest>)
    ensures r.Some? ==> ValidManifest(k, r.value) && k.manifests.encode(r.value) == data
  {
    var m := k.manifests.decode(data);
    if m.Some? && ValidManifest(k, m.value) && k.manifests.encode(m.value) == data then m else None
  }

  method UnmarshalManifest(k: Contract, data: Bytes) returns (r: Option<NativeManifest>)
    ensures r == Unmarshalled(k, data)
  {
    hide ValidManifest;
    var m := k.manifests.decode(data);
    if m.None? {
      return None;
    }
    var canonical := MarshalManifest(k, m.value);
    if canonical.None? || canonical.value != data {
      return None;
    }
    return m;
  }

  // ----- what an envelope is ------------------------------------------------------------

  /** The pack's header declares as many objects as its index has entries. */
  predicate HeaderAgrees(k: Contract, data: Bytes, entries: seq<Entry>) {
    k.objectCount(data) == Some(|entries|)
  }

  function FrameFor(k: Contract, p: NativePack): NativeFrame {
    NativeFrame(p.packID, p.commitID, k.contentHash(p.data), |p.data|, p.index, p.entries)
  }

  function ManifestFor(k: Contract, pull: Pull): (m: NativeManifest)
    ensures |m.packs| == |pull.packs|
  {
    NativeManifest(NATIVE_PULL_FORMAT_V1, pull.head,
                   seq(|pull.packs|, i requires 0 <= i < |pull.packs| => FrameFor(k, pull.packs[i])))
  }

  function DataOf(packs: seq<NativePack>): (data: seq<Bytes>)
    ensures |data| == |packs|
  {
    seq(|packs|, i requires 0 <= i < |packs| => packs[i].data)
  }

  ghost predicate ValidPull(k: Contract, pull: Pull) {
    ValidManifest(k, ManifestFor(k, pull)) && forall i :: 0 <= i < |pull.packs| ==>
                                                          HeaderAgrees(k, pull.packs[i].data, pull.packs[i].entries)
  }

  /** The one envelope of a pull. */
  function EnvelopeOf(k: Contract, pull: Pull): Bytes {
    Envelope(NATIVE_PULL_MAGIC, NATIVE_PULL_FORMAT_V1, k.manifests.encode(ManifestFor(k, pull)), DataOf(pull.packs))
  }

  /** `data` is an acceptable envelope of `pull`. */
  ghost predicate Carries(k: Contract, data: Bytes, pull: Pull) {
    ValidPull(k, pull) && data == EnvelopeOf(k, pull)
  }

  /** The loop over the sources: their frames and their bytes, if every pack is well-formed. */
  method FrameSources(k: Contract, pull: Pull) returns (r: Option<(seq<NativeFrame>, seq<Bytes>)>)
    ensures r.Some? ==> r.value == (ManifestFor(k, pull).packs, DataOf(pull.packs))
                        && forall i :: 0 <= i < |pull.packs| ==>
                                       HeaderAgrees(k, pull.packs[i].data, pull.packs[i].entries)
    ensures r.None? ==> !ValidPull(k, pull)
  {
    hide ValidFrame;
    hide HeaderAgrees;
    var frames: seq<NativeFrame> := [];
    var packs: seq<Bytes> := [];
    for i := 0 to |pull.packs|
      invariant frames == ManifestFor(k, pull).packs[..i] && packs == DataOf(pull.packs)[..i]
      invariant forall j :: 0 <= j < i ==> HeaderAgrees(k, pull.packs[j].data, pull.packs[j].entries)
    {
      var src := pull.packs[i];
      if |src.data| > MAX_NATIVE_PACK_BYTES {
        TooLong(k, pull, i);
        return None;
      }
      if !HeaderAgrees(k, src.data, src.entries) {
        return None;
      }
      frames := frames + [FrameFor(k, src)];
      packs := packs + [src.data];
    }
    assert frames == ManifestFor(k, pull).packs && packs == DataOf(pull.packs);
    return Some((frames, packs));
  }

  /** The header, the manifest and the packs, appended to one buffer. */
  method WriteEnvelope(manifestData: Bytes, packs: seq<Bytes>) returns (out: Bytes)
    ensures out == Envelope(NATIVE_PULL_MAGIC, NATIVE_PULL_FORMAT_V1, manifestData, packs)
  {
    hide Header;
    out := WriteHeader(NATIVE_PULL_MAGIC, NATIVE_PULL_FORMAT_V1, |manifestData|);
    out := out + manifestData;
    ghost var prefix := out;
    for i := 0 to |packs|
      invariant out == prefix + Concat(packs[..i])
    {
      assert packs[..i + 1] == packs[..i] + [packs[i]];
      ConcatAppend(packs[..i], packs[i]);
      out := out + packs[i];
    }
    assert packs[..|packs|] == packs;
  }

  /** EncodeNativePullResponse. */
  method EncodeNativePullResponse(k: Contract, pull: Pull) returns (r: Option<Bytes>)
    ensures r == if ValidPull(k, pull) then Some(EnvelopeOf(k, pull)) else None
  {
    hide ValidManifest;
    hide HeaderAgrees;
    hide Envelope;
    var framed := FrameSources(k, pull);
    if framed.None? {
      return None;
    }
    var manifest := NativeManifest(NATIVE_PULL_FORMAT_V1, pull.head, framed.value.0);
    assert manifest == ManifestFor(k, pull);
    var manifestData := MarshalManifest(k, manifest);
    if manifestData.None? {
      return None;
    }
    var out := WriteEnvelope(manifestData.value, framed.value.1);
    return Some(out);
  }

  lemma TooLong(k: Contract, pull: Pull, i: nat)
    requires i < |pull.packs| && |pull.packs[i].data| > MAX_NATIVE_PACK_BYTES
    ensures !ValidPull(k, pull)
  {
    assert !ValidFrame(k, ManifestFor(k, pull).packs[i]);
  }

  // ----- decoding -----------------------------------------------------------------------

  lemma VersionFits()
    ensures |NATIVE_PULL_MAGIC| == 4 && NATIVE_PULL_FORMAT_V1 < Pow256(4)
  {
    SmallFits(NATIVE_PULL_FORMAT_V1);
  }

  function ManifestEnd(k: Contract, pull: Pull): nat {
    HEADER_SIZE + |k.manifests.encode(ManifestFor(k, pull))|
  }

  /** Where everything is in an envelope of `pull`. */
  lemma Layout(k: Contract, data: Bytes, pull: Pull)
    requires Lawful(k.manifests) && |data| < Pow256(8) && Carries(k, data, pull)
    ensures var end := ManifestEnd(k, pull);
            && end <= |data| && ParseHeader(data, NATIVE_PULL_MAGIC, NATIVE_PULL_FORMAT_V1) == Ok(end)
            && Unmarshalled(k, data[HEADER_SIZE..end]) == Some(ManifestFor(k, pull))
            && data[end..] == Concat(DataOf(pull.packs))
  {
    hide ValidManifest;
    hide BigEndian;
    hide Pow256;
    hide Concat;
    var body := k.manifests.encode(ManifestFor(k, pull));
    var end := ManifestEnd(k, pull);
    var h := Header(NATIVE_PULL_MAGIC, NATIVE_PULL_FORMAT_V1, |body|);
    assert data == h + body + Concat(DataOf(pull.packs));
    assert data[..HEADER_SIZE] == h && data[HEADER_SIZE..end] == body && data[end..] == Concat(DataOf(pull.packs));
    VersionFits();
    HeaderExact(data, NATIVE_PULL_MAGIC, NATIVE_PULL_FORMAT_V1, end);
    assert k.manifests.decode(body) == Some(ManifestFor(k, pull));
  }

  lemma {:induction false} ConcatAt(packs: seq<Bytes>, i: nat)
    requires i <= |packs|
    ensures Concat(packs) == Concat(packs[..i]) + Concat(packs[i..])
  {
    if i == 0 {
      assert packs[..0] == [] && packs[0..] == packs;
    } else {
      ConcatAt(packs[1..], i - 1);
      assert packs[..i][0] == packs[0] && packs[..i][1..] == packs[1..][..i - 1];
      assert packs[1..][i - 1..] == packs[i..];
    }
  }

  /** The decoder has recovered the first packs and stands right behind them. */
  ghost predicate Decoded(k: Contract, data: Bytes, end: nat, m: NativeManifest, packs: seq<NativePack>, offset: nat) {
    && end <= offset <= |data| && |packs| <= |m.packs|
    && data[end..offset] == Concat(DataOf(packs))
    && forall j :: 0 <= j < |packs| ==>
                   FrameFor(k, packs[j]) == m.packs[j] && HeaderAgrees(k, packs[j].data, packs[j].entries)
  }

  /** If the bytes are an envelope at all, its packs start with those recovered, and the next one follows. */
  lemma NextPack(k: Contract, data: Bytes, pull: Pull, packs: seq<NativePack>, offset: nat)
    requires Lawful(k.manifests) && |data| < Pow256(8) && Carries(k, data, pull)
    requires Decoded(k, data, ManifestEnd(k, pull), ManifestFor(k, pull), packs, offset) && packs <= pull.packs
    ensures packs == pull.packs ==> offset == |data|
    ensures packs != pull.packs ==>
              var next := pull.packs[|packs|];
              && |packs| < |pull.packs| && offset + |next.data| <= |data|
                && data[offset..offset + |next.data|] == next.data
              && HeaderAgrees(k, next.data, next.entries) && |next.data| <= MAX_NATIVE_PACK_BYTES
  {
    hide BigEndian;
    hide Pow256;
    hide Header;
    hide ParseHeader;
    hide Unmarshalled;
    hide EnvelopeOf;
    Layout(k, data, pull);
    var (i, all, end) := (|packs|, DataOf(pull.packs), ManifestEnd(k, pull));
    assert all[..i] == DataOf(packs);
    ConcatAt(all, i);
    Behind(data, end, offset, Concat(DataOf(packs)), Concat(all[i..]));
    if i < |pull.packs| {
      assert all[i..][0] == pull.packs[i].data;
      assert ValidFrame(k, ManifestFor(k, pull).packs[i]);
    } else {
      assert packs == pull.packs && all[i..] == [];
    }
  }

  lemma Behind(data: Bytes, end: nat, offset: nat, front: Bytes, rest: Bytes)
    requires end <= offset <= |data| && data[end..offset] == front && data[end..] == front + rest
    ensures data[offset..] == rest
  {
    assert data[end..][offset - end..] == data[offset..];
  }

  /** A recovered pack is the one the envelope carries. */
  lemma PackRecovered(k: Contract, data: Bytes, end: nat, m: NativeManifest, packs: seq<NativePack>, offset: nat,
                      p: NativePack)
    requires Decoded(k, data, end, m, packs, offset) && |packs| < |m.packs|
    requires FrameFor(k, p) == m.packs[|packs|] && HeaderAgrees(k, p.data, p.entries)
    requires offset + |p.data| <= |data| && data[offset..offset + |p.data|] == p.data
    ensures Decoded(k, data, end, m, packs + [p], offset + |p.data|)
  {
    hide Concat;
    ConcatAppend(DataOf(packs), p.data);
    assert DataOf(packs + [p]) == DataOf(packs) + [p.data];
    assert data[end..offset + |p.data|] == data[end..offset] + p.data;
  }

  lemma DecodedAll(k: Contract, data: Bytes, end: nat, m: NativeManifest, packs: seq<NativePack>)
    requires HEADER_SIZE <= end <= |data| < Pow256(8)
    requires ParseHeader(data, NATIVE_PULL_MAGIC, NATIVE_PULL_FORMAT_V1) == Ok(end)
    requires Unmarshalled(k, data[HEADER_SIZE..end]) == Some(m)
    requires Decoded(k, data, end, m, packs, |data|) && |packs| == |m.packs|
    ensures Carries(k, data, Pull(m.head, packs))
  {
    hide BigEndian;
    hide Pow256;
    hide Concat;
    var pull := Pull(m.head, packs);
    assert ManifestFor(k, pull) == m;
    VersionFits();
    HeaderExact(data, NATIVE_PULL_MAGIC, NATIVE_PULL_FORMAT_V1, end);
    assert data == data[..HEADER_SIZE] + data[HEADER_SIZE..end] + data[end..];
    assert data[end..|data|] == data[end..];
  }

  /** An envelope carries one pull at most. */
  lemma CarriesUnique(k: Contract, data: Bytes, p: Pull, q: Pull)
    requires Lawful(k.manifests) && |data| < Pow256(8) && Carries(k, data, p) && Carries(k, data, q)
    ensures p == q
  {
    Layout(k, data, p);
    Layout(k, data, q);
    hide BigEndian;
    hide Pow256;
    hide Concat;
    hide ValidPull;
    hide Envelope;
    assert ManifestFor(k, p) == ManifestFor(k, q);
    SameManifest(k, p, q);
    ConcatUnique(DataOf(p.packs), DataOf(q.packs));
    forall i | 0 <= i < |p.packs| ensures p.packs[i] == q.packs[i] {
      assert DataOf(p.packs)[i] == DataOf(q.packs)[i];
      assert ManifestFor(k, p).packs[i] == ManifestFor(k, q).packs[i];
    }
  }

  lemma SameManifest(k: Contract, p: Pull, q: Pull)
    requires ManifestFor(k, p) == ManifestFor(k, q)
    ensures p.head == q.head && |p.packs| == |q.packs|
    ensures forall i :: 0 <= i < |p.packs| ==> |DataOf(p.packs)[i]| == |DataOf(q.packs)[i]|
  {
    forall i | 0 <= i < |p.packs| ensures |DataOf(p.packs)[i]| == |DataOf(q.packs)[i]| {
      assert ManifestFor(k, p).packs[i] == ManifestFor(k, q).packs[i];
    }
  }

  /** The frame of the next pack fixes everything about it but its bytes. */
  lemma SameFrame(k: Contract, pull: Pull, m: NativeManifest, i: nat)
    requires ManifestFor(k, pull) == m && i < |m.packs|
    ensures i < |pull.packs| && |pull.packs[i].data| == m.packs[i].length
            && k.contentHash(pull.packs[i].data) == m.packs[i].packHash
    ensures pull.packs[i] == NativePack(m.packs[i].packID, m.packs[i].commitID, m.packs[i].index, m.packs[i].entries,
                                        pull.packs[i].data)
  {
    assert m.packs[i] == FrameFor(k, pull.packs[i]);
  }

  /** DecodeNativePullResponse: yields the pull the bytes carry, and fails only if they carry none. */
  method DecodeNativePullResponse(k: Contract, data: Bytes) returns (r: Option<Pull>)
    requires Lawful(k.manifests) && |data| < Pow256(8)
    ensures r.Some? ==> Carries(k, data, r.value)
    ensures r.None? ==> forall pull :: !Carries(k, data, pull)
  {
    hide *;
    VersionFits();
    ghost var carried := exists pull :: Carries(k, data, pull);
    ghost var want: Pull := if carried then (var p :| Carries(k, data, p); p) else Pull("", []);
    if carried {
      Layout(k, data, want);
      NotEmpty(k, data, want);
    }
    var header := ParseHeader(data, NATIVE_PULL_MAGIC, NATIVE_PULL_FORMAT_V1);
    if header.Err? {
      return None;
    }
    var end := header.value;
    var parsed := UnmarshalManifest(k, data[HEADER_SIZE..end]);
    if parsed.None? {
      return None;
    }
    var manifest := parsed.value;
    var packs: seq<NativePack> := [];
    var offset: nat := end;
    DecodedNothing(k, data, end, manifest);
    assert packs <= want.packs;
    for i := 0 to |manifest.packs|
      invariant |packs| == i && Decoded(k, data, end, manifest, packs, offset) && offset <= |data|
      invariant carried ==> packs <= want.packs
    {
      var frame := manifest.packs[i];
      if carried {
        NextPack(k, data, want, packs, offset);
        SameFrame(k, want, manifest, i);
      }
      if frame.length > MAX_NATIVE_PACK_BYTES || frame.length > |data| - offset {
        return None;
      }
      var packData := data[offset..offset + frame.length];
      if k.contentHash(packData) != frame.packHash || !HeaderAgrees(k, packData, frame.entries) {
        return None;
      }
      var pack := NativePack(frame.packID, frame.commitID, frame.index, frame.entries, packData);
      FrameOfParts(k, pack, frame);
      PackRecovered(k, data, end, manifest, packs, offset, pack);
      packs := packs + [pack];
      offset := offset + frame.length;
    }
    if carried {
      NextPack(k, data, want, packs, offset);
      AllRecovered(k, want, manifest, packs);
    }
    if offset != |data| {
      return None;
    }
    DecodedAll(k, data, end, manifest, packs);
    return Some(Pull(manifest.head, packs));
  }

  lemma NotEmpty(k: Contract, data: Bytes, pull: Pull)
    requires Carries(k, data, pull)
    ensures pull.packs != []
  {}

  lemma DecodedNothing(k: Contract, data: Bytes, end: nat, m: NativeManifest)
    requires end <= |data|
    ensures Decoded(k, data, end, m, [], end)
  {}

  lemma FrameOfParts(k: Contract, p: NativePack, f: NativeFrame)
    requires p.packID == f.packID && p.commitID == f.commitID && p.index == f.index && p.entries == f.entries
    requires |p.data| == f.length && k.contentHash(p.data) == f.packHash
    ensures FrameFor(k, p) == f
  {}

  lemma AllRecovered(k: Contract, pull: Pull, m: NativeManifest, packs: seq<NativePack>)
    requires ManifestFor(k, pull) == m && |packs| == |m.packs| && packs <= pull.packs
    ensures packs == pull.packs
  {}

  /** A pack that is not empty and within the size limit, whose header declares as many objects as it has entries, with
      no object in two entries and an index that lists it with that count. */
  ghost predicate Sound(k: Contract, p: NativePack) {
    && k.validPackID(p.packID) && k.validIndex(p.index) && 0 < |p.data| <= 64 * 1024 * 1024
    && ValidContentID(p.commitID) && ValidContentID(k.contentHash(p.data))
    && k.objectCount(p.data) == Some(|p.entries|)
    && (forall n :: 0 <= n < |p.entries| ==> k.validEntry(p.packID, p.entries[n]))
    && (forall n, m :: 0 <= n < m < |p.entries| ==> p.entries[n].obj != p.entries[m].obj)
    && exists n :: 0 <= n < |p.index.packs| && FirstListing(p, n)
  }

  /** Row `n` is the first of the index for this pack, and it says zstd and the number of entries, modulo 2^32. */
  predicate FirstListing(p: NativePack, n: nat)
    requires n < |p.index.packs|
  {
    && (forall l :: 0 <= l < n ==> p.index.packs[l].id != p.packID)
    && p.index.packs[n].id == p.packID && p.index.packs[n].compression == "zstd"
    && p.index.packs[n].objectCount == |p.entries| % 0x1_0000_0000
  }

  lemma {:induction false} ListedFirst(p: NativePack, from: nat)
    requires from <= |p.index.packs|
    requires forall l :: 0 <= l < from ==> p.index.packs[l].id != p.packID
    ensures ListsPack(p.index.packs[from..], p.packID, |p.entries|)
            <==> exists n :: 0 <= n < |p.index.packs| && FirstListing(p, n)
    decreases |p.index.packs| - from
  {
    var rest := p.index.packs[from..];
    if rest != [] {
      assert rest[0] == p.index.packs[from];
      if rest[0].id == p.packID {
        assert ListsPack(rest, p.packID, |p.entries|) <==> FirstListing(p, from);
      } else {
        assert rest[1..] == p.index.packs[from + 1..];
        ListedFirst(p, from + 1);
      }
    }
  }

  lemma SoundFrame(k: Contract, p: NativePack)
    ensures Sound(k, p) <==> ValidFrame(k, FrameFor(k, p)) && HeaderAgrees(k, p.data, p.entries)
  {
    hide ValidContentID;
    hide FirstListing;
    hide ListsPack;
    ListedFirst(p, 0);
    assert p.index.packs[0..] == p.index.packs;
  }

  /** An envelope carries a pull exactly if that has between one and 4096 sound packs of different ids and commits, the
      head's last, and the bytes are its magic, its version, the manifest of the pull and the packs' bytes. */
  lemma CarriedMeans(k: Contract, data: Bytes, pull: Pull)
    ensures Carries(k, data, pull) <==>
            && 0 < |pull.packs| <= 4096 && pull.packs[|pull.packs| - 1].commitID == pull.head
            && (forall i, j :: 0 <= i < j < |pull.packs| ==>
                               pull.packs[i].packID != pull.packs[j].packID
                                 && pull.packs[i].commitID != pull.packs[j].commitID)
            && (forall i :: 0 <= i < |pull.packs| ==> Sound(k, pull.packs[i]))
            && data == Envelope([0x53, 0x52, 0x4E, 0x50], 1, k.manifests.encode(ManifestFor(k, pull)),
                                DataOf(pull.packs))
  {
    var m := ManifestFor(k, pull);
    hide ValidContentID;
    hide Envelope;
    hide Sound;
    hide HeaderAgrees;
    forall i | 0 <= i < |pull.packs|
      ensures m.packs[i] == FrameFor(k, pull.packs[i]) && m.packs[i].packID == pull.packs[i].packID
      ensures Sound(k, pull.packs[i]) <==>
                ValidFrame(k, m.packs[i]) && HeaderAgrees(k, pull.packs[i].data, pull.packs[i].entries)
      ensures m.packs[i].commitID == pull.packs[i].commitID
      ensures Sound(k, pull.packs[i]) ==> ValidContentID(pull.packs[i].commitID)
    {
      SoundFrame(k, pull.packs[i]);
    }
    hide ValidFrame;
    hide ManifestFor;
  }

  // ----- round trips --------------------------------------------------------------------

  /** Decoding an encoded pull yields the same head and packs. */
  method EncodeThenDecode(k: Contract, pull: Pull) returns (sent: Option<Bytes>, received: Option<Pull>)
    requires Lawful(k.manifests)
    ensures sent == if ValidPull(k, pull) then Some(EnvelopeOf(k, pull)) else None
    ensures sent.Some? && |sent.value| < Pow256(8) ==> received == Some(pull)
    ensures sent.Some? && |sent.value| < Pow256(8) ==> forall p :: Carries(k, sent.value, p) <==> received == Some(p)
  {
    hide *;
    sent := EncodeNativePullResponse(k, pull);
    received := None;
    if sent.Some? && |sent.value| < MAX_ENVELOPE {
      Fits(|sent.value|);
      CarriesMeans(k, sent.value, pull);
      received := DecodeNativePullResponse(k, sent.value);
      forall p | Carries(k, sent.value, p) ensures p == pull {
        CarriesUnique(k, sent.value, pull, p);
      }
    } else if sent.Some? {
      Fits(|sent.value|);
    }
  }

  const MAX_ENVELOPE: nat := 0x1_0000_0000_0000_0000

  lemma Fits(n: nat)
    ensures n < MAX_ENVELOPE <==> n < Pow256(8)
  {
    assert Pow256(1) == 256;
    assert Pow256(2) == 0x1_0000;
    assert Pow256(3) == 0x100_0000;
    assert Pow256(4) == 0x1_0000_0000;
    assert Pow256(5) == 256 * Pow256(4);
    assert Pow256(6) == 256 * Pow256(5);
    assert Pow256(7) == 256 * Pow256(6);
    assert Pow256(8) == 256 * Pow256(7);
  }

  lemma CarriesMeans(k: Contract, data: Bytes, pull: Pull)
    ensures Carries(k, data, pull) <==> ValidPull(k, pull) && data == EnvelopeOf(k, pull)
  {}

  /** Re-encoding any accepted byte string reproduces it exactly. */
  method DecodeThenEncode(k: Contract, data: Bytes) returns (received: Option<Pull>, again: Option<Bytes>)
    requires Lawful(k.manifests) && |data| < Pow256(8)
    ensures forall p :: Carries(k, data, p) <==> received == Some(p)
    ensures again == if received.Some? then Some(data) else None
  {
    hide *;
    received := DecodeNativePullResponse(k, data);
    again := None;
    if received.Some? {
      forall p | Carries(k, data, p) ensures p == received.value {
        CarriesUnique(k, data, received.value, p);
      }
      CarriesMeans(k, data, received.value);
      again := EncodeNativePullResponse(k, received.value);
    }
  }

  function TotalLength(frames: seq<NativeFrame>): nat {
    if frames == [] then 0 else frames[0].length + TotalLength(frames[1..])
  }

  lemma {:induction false} ConcatLength(k: Contract, packs: seq<NativePack>, frames: seq<NativeFrame>)
    requires |frames| == |packs| && forall i :: 0 <= i < |packs| ==> frames[i] == FrameFor(k, packs[i])
    ensures |Concat(DataOf(packs))| == TotalLength(frames)
  {
    if packs != [] {
      ConcatLength(k, packs[1..], frames[1..]);
      assert DataOf(packs)[1..] == DataOf(packs[1..]);
    }
  }

  /** No accepted envelope is a proper prefix of another one. */
  lemma PrefixFree(k: Contract, data: Bytes, longer: Bytes, p: Pull, q: Pull)
    requires Lawful(k.manifests) && |longer| < Pow256(8)
    requires Carries(k, data, p) && Carries(k, longer, q) && data <= longer
    ensures data == longer && p == q
  {
    hide BigEndian;
    hide Pow256;
    hide Concat;
    hide ValidPull;
    hide EnvelopeOf;
    hide ParseHeader;
    hide Carries;
    Layout(k, data, p);
    Layout(k, longer, q);
    SameHeader(data, longer);
    var end := ManifestEnd(k, p);
    assert data[HEADER_SIZE..end] == longer[HEADER_SIZE..end];
    var m := ManifestFor(k, p);
    assert m == ManifestFor(k, q);
    ConcatLength(k, p.packs, m.packs);
    ConcatLength(k, q.packs, m.packs);
    assert |data| == |longer|;
    assert data == longer;
    CarriesUnique(k, data, p, q);
  }

  lemma SameHeader(data: Bytes, longer: Bytes)
    requires data <= longer && |longer| < Pow256(8)
    requires ParseHeader(data, NATIVE_PULL_MAGIC, NATIVE_PULL_FORMAT_V1).Ok?
             && ParseHeader(longer, NATIVE_PULL_MAGIC, NATIVE_PULL_FORMAT_V1).Ok?
    ensures ParseHeader(data, NATIVE_PULL_MAGIC, NATIVE_PULL_FORMAT_V1) ==
            ParseHeader(longer, NATIVE_PULL_MAGIC, NATIVE_PULL_FORMAT_V1)
  {
    hide ReadBigEndian;
    hide Pow256;
    assert data[8..HEADER_SIZE] == longer[8..HEADER_SIZE];
  }
}
