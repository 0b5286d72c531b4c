// The pull envelope (internal/server/sync/pull.go): manifest, streaming, and the strict decoder.
module PullEnvelope {
  import opened Wrappers
  import opened Wire
  import opened CommitGraph
  import opened Framing
  import opened PullPlan
  import Ordering

  const PULL_ENVELOPE_FORMAT_V2: nat := 2
  const PULL_MAGIC: Bytes := [0x53, 0x52, 0x50, 0x4C]  // "SRPL"

  datatype PackManifest = PackManifest(hash: Hash, format: nat, length: nat)
  datatype PullManifest = PullManifest(version: nat, head: Id, packs: seq<PackManifest>)

  type ManifestCodec = Codec<PullManifest>

  /** PullManifestV2.validate. */
  predicate ValidManifest(m: PullManifest) {
    && m.version == PULL_ENVELOPE_FORMAT_V2
    && ValidContentID(m.head)
    && |m.packs| > 0
    && forall p | p in m.packs :: ValidContentID(p.hash) && (p.format == PACK_FORMAT_V2 || p.format == PACK_FORMAT_V3)
  }

  /** UnmarshalPullManifestV2: decode, validate, re-encode, compare. */
  function UnmarshalManifest(mc: ManifestCodec, data: Bytes): (r: Option<PullManifest>)
    ensures r.Some? ==> ValidManifest(r.value) && mc.encode(r.value) == data
  {
    match mc.decode(data)
    case None => None
    case Some(m) => if ValidManifest(m) && mc.encode(m) == data then Some(m) else None
  }

  // ----- what the decoder accepts -------------------------------------------------------

  /** The identities of a frame's commits, in order. */
  ghost function FrameIds(k: Contract, f: PackFrame): (ids: seq<CommitIdentity>)
    ensures |ids| == |f.commits|
  {
    seq(|f.commits|, i requires 0 <= i < |f.commits| =>
      var id := Identity(k, f.commits[i]); if id.Some? then id.value else NO_COMMIT)
  }

  /** The identities of all commits of a list of frames. */
  ghost function FlatIds(k: Contract, frames: seq<PackFrame>): seq<CommitIdentity> {
    if frames == [] then [] else FlatIds(k, frames[..|frames| - 1]) + FrameIds(k, frames[|frames| - 1])
  }

  ghost predicate HeadAt(head: Id, frames: seq<PackFrame>, i: nat)
    requires i < |frames|
  {
    frames[i].target == V2(head)
  }

  /** The global checks: one commit each, the head packed once and last, every merge parent supplied. */
  ghost predicate FramesAccepted(k: Contract, head: Id, frames: seq<PackFrame>) {
    && |frames| > 0
    && Ordering.Distinct(FlatIds(k, frames))
    && (forall i, j :: 0 <= i < j < |frames| ==> !(HeadAt(head, frames, i) && HeadAt(head, frames, j)))
    && HeadAt(head, frames, |frames| - 1)
    && (forall i, p :: 0 <= i < |frames| && p in MergeParents(frames[i]) ==> p in FlatIds(k, frames))
  }

  ghost predicate PackAccepted(k: Contract, entry: PackManifest, pack: Bytes) {
    && |pack| == entry.length && |pack| <= MAX_V2_PACK_BYTES && k.contentId(pack) == entry.hash
    && Unframe(k, entry.format, pack).Some?
  }

  ghost function FramesOf(k: Contract, m: PullManifest, packs: seq<Bytes>): (frames: seq<PackFrame>)
    requires |packs| == |m.packs|
    requires forall i :: 0 <= i < |packs| ==> Unframe(k, m.packs[i].format, packs[i]).Some?
    ensures |frames| == |packs|
  {
    seq(|packs|, i requires 0 <= i < |packs| => Unframe(k, m.packs[i].format, packs[i]).value)
  }

  /** `data` is a well-formed envelope of exactly this manifest and these packs. */
  ghost predicate Accepts(k: Contract, mc: ManifestCodec, data: Bytes, m: PullManifest, packs: seq<Bytes>) {
    && ValidManifest(m) && |packs| == |m.packs|
    && data == Envelope(PULL_MAGIC, PULL_ENVELOPE_FORMAT_V2, mc.encode(m), packs)
    && (forall i :: 0 <= i < |packs| ==> PackAccepted(k, m.packs[i], packs[i]))
    && FramesAccepted(k, m.head, FramesOf(k, m, packs))
  }

  // ----- positions inside the envelope --------------------------------------------------

  /** Total declared length of the first `n` packs. */
  function LengthOf(entries: seq<PackManifest>, n: nat): nat
    requires n <= |entries|
  {
    if n == 0 then 0 else LengthOf(entries, n - 1) + entries[n - 1].length
  }

  lemma {:induction false} ConcatSlice(entries: seq<PackManifest>, packs: seq<Bytes>, n: nat)
    requires |entries| == |packs| && n <= |packs|
    requires forall i :: 0 <= i < |packs| ==> |packs[i]| == entries[i].length
    ensures LengthOf(entries, n) <= |Concat(packs)| && Concat(packs)[..LengthOf(entries, n)] == Concat(packs[..n])
    ensures n == |packs| ==> LengthOf(entries, n) == |Concat(packs)|
    ensures n < |packs| ==> LengthOf(entries, n + 1) <= |Concat(packs)|
                            && Concat(packs)[LengthOf(entries, n)..LengthOf(entries, n + 1)] == packs[n]
    decreases |packs|
  {
    hide LengthOf;
    if packs == [] {
      EmptyLength(entries);
    } else {
      var last := |packs| - 1;
      var front := packs[..last];
      assert packs == front + [packs[last]];
      ConcatAppend(front, packs[last]);
      LengthPrefix(entries, last, n);
      LengthStep(entries, last);
      if n < |packs| {
        LengthStep(entries, n);
        ConcatSlice(entries[..last], front, n);
        assert packs[..n] == front[..n];
        if n == last {
          ConcatSlice(entries[..last], front, last);
        } else {
          LengthPrefix(entries, last, n + 1);
        }
      } else {
        ConcatSlice(entries[..last], front, last);
        LengthPrefix(entries, last, last);
        assert packs[..n] == packs;
      }
    }
  }

  lemma EmptyLength(entries: seq<PackManifest>)
    ensures LengthOf(entries, 0) == 0
    ensures Concat([]) == []
  {}

  lemma LengthStep(entries: seq<PackManifest>, n: nat)
    requires n < |entries|
    ensures LengthOf(entries, n + 1) == LengthOf(entries, n) + entries[n].length
  {}

  lemma {:induction false} LengthPrefix(entries: seq<PackManifest>, m: nat, n: nat)
    requires m <= |entries|
    ensures n <= m ==> LengthOf(entries[..m], n) == LengthOf(entries, n)
    decreases n
  {
    if 0 < n <= m {
      LengthPrefix(entries, m, n - 1);
    }
  }

  /** An accepted envelope fixes its manifest and the position of every pack. */
  lemma AcceptedLayout(k: Contract, mc: ManifestCodec, data: Bytes, m: PullManifest, packs: seq<Bytes>)
    requires Lawful(mc) && |data| < Pow256(8) && Accepts(k, mc, data, m, packs)
    ensures var end := HEADER_SIZE + |mc.encode(m)|;
            && end <= |data| && ParseHeader(data, PULL_MAGIC, PULL_ENVELOPE_FORMAT_V2) == Ok(end)
            && UnmarshalManifest(mc, data[HEADER_SIZE..end]) == Some(m)
            && data[end..] == Concat(packs)
  {
    hide FramesAccepted;
    hide PackAccepted;
    hide BigEndian;
    hide Pow256;
    var body := mc.encode(m);
    var end := HEADER_SIZE + |body|;
    var h := Header(PULL_MAGIC, PULL_ENVELOPE_FORMAT_V2, |body|);
    assert data == h + body + Concat(packs);
    assert data[..HEADER_SIZE] == h && data[HEADER_SIZE..end] == body && data[end..] == Concat(packs);
    VersionFits();
    HeaderExact(data, PULL_MAGIC, PULL_ENVELOPE_FORMAT_V2, end);
    assert mc.decode(body) == Some(m);
  }

  lemma VersionFits()
    ensures |PULL_MAGIC| == 4 && PULL_ENVELOPE_FORMAT_V2 < Pow256(4)
  {
    SmallFits(PULL_ENVELOPE_FORMAT_V2);
  }

  /** One envelope stands for at most one manifest and one list of packs. */
  lemma AcceptsUnique(k: Contract, mc: ManifestCodec, data: Bytes, m: PullManifest, packs: seq<Bytes>,
                      m': PullManifest, packs': seq<Bytes>)
    requires Lawful(mc) && |data| < Pow256(8)
    requires Accepts(k, mc, data, m, packs) && Accepts(k, mc, data, m', packs')
    ensures m == m' && packs == packs'
  {
    hide FramesAccepted;
    hide BigEndian;
    hide Pow256;
    hide Concat;
    AcceptedLayout(k, mc, data, m, packs);
    AcceptedLayout(k, mc, data, m', packs');
    assert m == m';
    forall i | 0 <= i < |packs| ensures |packs[i]| == |packs'[i]| {
      assert PackAccepted(k, m.packs[i], packs[i]) && PackAccepted(k, m.packs[i], packs'[i]);
    }
    ConcatUnique(packs, packs');
  }

  // ----- the decoder --------------------------------------------------------------------

  /** The bytes the decoder takes for pack `i`. */
  function Slice(data: Bytes, end: nat, entries: seq<PackManifest>, i: nat): (s: Bytes)
    requires i < |entries| && end + LengthOf(entries, i + 1) <= |data|
    ensures |s| == entries[i].length
  {
    data[end + LengthOf(entries, i)..end + LengthOf(entries, i + 1)]
  }

  ghost predicate SliceOk(k: Contract, data: Bytes, end: nat, m: PullManifest, i: nat)
    requires i < |m.packs|
  {
    end + LengthOf(m.packs, i + 1) <= |data| && PackAccepted(k, m.packs[i], Slice(data, end, m.packs, i))
  }

  ghost predicate SlicesOk(k: Contract, data: Bytes, end: nat, m: PullManifest, n: nat)
    requires n <= |m.packs|
  {
    forall i :: 0 <= i < n ==> SliceOk(k, data, end, m, i)
  }

  ghost function FrameAt(k: Contract, data: Bytes, end: nat, m: PullManifest, i: nat): (f: PackFrame)
    requires i < |m.packs| && SliceOk(k, data, end, m, i)
    ensures forall j :: 0 <= j < |f.commits| ==> Identity(k, f.commits[j]).Some?
  {
    FrameIdentified(k, m.packs[i].format, Slice(data, end, m.packs, i));
    Unframe(k, m.packs[i].format, Slice(data, end, m.packs, i)).value
  }

  lemma FrameIdentified(k: Contract, format: nat, data: Bytes)
    requires Unframe(k, format, data).Some?
    ensures forall j :: 0 <= j < |Unframe(k, format, data).value.commits| ==>
                        Identity(k, Unframe(k, format, data).value.commits[j]).Some?
  {
    hide Identity;
  }

  ghost function FramesUpTo(k: Contract, data: Bytes, end: nat, m: PullManifest, n: nat): (frames: seq<PackFrame>)
    requires n <= |m.packs| && SlicesOk(k, data, end, m, n)
    ensures |frames| == n && forall i :: 0 <= i < n ==>
                                         SliceOk(k, data, end, m, i) && frames[i] == FrameAt(k, data, end, m, i)
  {
    seq(n, i requires 0 <= i < n && SliceOk(k, data, end, m, i) => FrameAt(k, data, end, m, i))
  }

  /** The decoder's checks, read off the bytes alone. */
  ghost predicate Decodable(k: Contract, mc: ManifestCodec, data: Bytes, end: nat, m: PullManifest)
    requires |data| < Pow256(8)
  {
    && PULL_ENVELOPE_FORMAT_V2 < Pow256(4) && ParseHeader(data, PULL_MAGIC, PULL_ENVELOPE_FORMAT_V2) == Ok(end)
    && UnmarshalManifest(mc, data[HEADER_SIZE..end]) == Some(m)
    && SlicesOk(k, data, end, m, |m.packs|)
    && |data| == end + LengthOf(m.packs, |m.packs|)
    && FramesAccepted(k, m.head, FramesUpTo(k, data, end, m, |m.packs|))
  }

  lemma SliceOfLayout(data: Bytes, end: nat, entries: seq<PackManifest>, packs: seq<Bytes>, i: nat)
    requires end <= |data| && data[end..] == Concat(packs) && i < |packs| == |entries|
    requires forall j :: 0 <= j < |packs| ==> |packs[j]| == entries[j].length
    ensures end + LengthOf(entries, i + 1) <= |data| && Slice(data, end, entries, i) == packs[i]
    ensures |data| == end + LengthOf(entries, |entries|)
  {
    hide Concat;
    hide LengthOf;
    ConcatSlice(entries, packs, i);
    ConcatSlice(entries, packs, |packs|);
    LengthStep(entries, i);
    var from, to := LengthOf(entries, i), LengthOf(entries, i + 1);
    assert data[end..][from..to] == data[end + from..end + to];
  }

  lemma AcceptedSlice(k: Contract, mc: ManifestCodec, data: Bytes, m: PullManifest, packs: seq<Bytes>, i: nat)
    requires Lawful(mc) && |data| < Pow256(8) && Accepts(k, mc, data, m, packs) && i < |packs|
    ensures var end := HEADER_SIZE + |mc.encode(m)|;
            end + LengthOf(m.packs, i + 1) <= |data| && Slice(data, end, m.packs, i) == packs[i]
    ensures var end := HEADER_SIZE + |mc.encode(m)|; |data| == end + LengthOf(m.packs, |m.packs|)
    ensures PackAccepted(k, m.packs[i], packs[i])
  {
    AcceptedLayout(k, mc, data, m, packs);
    AcceptedLengths(k, mc, data, m, packs);
    hide *;
    SliceOfLayout(data, HEADER_SIZE + |mc.encode(m)|, m.packs, packs, i);
  }

  lemma AcceptedLengths(k: Contract, mc: ManifestCodec, data: Bytes, m: PullManifest, packs: seq<Bytes>)
    requires Accepts(k, mc, data, m, packs)
    ensures |packs| == |m.packs| > 0
    ensures forall j :: 0 <= j < |packs| ==> PackAccepted(k, m.packs[j], packs[j]) && |packs[j]| == m.packs[j].length
  {
    hide FramesAccepted;
    hide Unframe;
    hide Envelope;
  }

  /** Accepted bytes pass the decoder's checks. */
  lemma AcceptedIsDecodable(k: Contract, mc: ManifestCodec, data: Bytes, m: PullManifest, packs: seq<Bytes>)
    requires Lawful(mc) && |data| < Pow256(8) && Accepts(k, mc, data, m, packs)
    ensures Decodable(k, mc, data, HEADER_SIZE + |mc.encode(m)|, m)
  {
    hide FramesAccepted;
    hide BigEndian;
    hide Concat;
    hide Pow256;
    hide Slice;
    hide Unframe;
    var end := HEADER_SIZE + |mc.encode(m)|;
    AcceptedLayout(k, mc, data, m, packs);
    VersionFits();
    forall i | 0 <= i < |packs| ensures SliceOk(k, data, end, m, i) && Slice(data, end, m.packs, i) == packs[i] {
      AcceptedSlice(k, mc, data, m, packs, i);
    }
    AcceptedSlice(k, mc, data, m, packs, 0);
    assert FramesUpTo(k, data, end, m, |m.packs|) == FramesOf(k, m, packs);
  }

  /** These packs are the slices the decoder takes, each accepted. */
  ghost predicate SlicesAre(k: Contract, data: Bytes, end: nat, m: PullManifest, packs: seq<Bytes>)
    requires |packs| <= |m.packs|
  {
    forall i :: 0 <= i < |packs| ==> SliceOk(k, data, end, m, i) && packs[i] == Slice(data, end, m.packs, i)
  }

  lemma SlicesGrow(k: Contract, data: Bytes, end: nat, m: PullManifest, packs: seq<Bytes>, pack: Bytes)
    requires |packs| < |m.packs| && SlicesAre(k, data, end, m, packs)
    requires SliceOk(k, data, end, m, |packs|) && pack == Slice(data, end, m.packs, |packs|)
    ensures SlicesAre(k, data, end, m, packs + [pack])
  {
    hide SliceOk;
    hide Slice;
  }

  /** Bytes that pass the decoder's checks are an envelope of what the decoder returns. */
  lemma DecodableIsAccepted(k: Contract, mc: ManifestCodec, data: Bytes, end: nat, m: PullManifest, packs: seq<Bytes>)
    requires |data| < Pow256(8) && Decodable(k, mc, data, end, m)
    requires |packs| == |m.packs| && SlicesAre(k, data, end, m, packs)
    requires data[end..] == Concat(packs)
    ensures Accepts(k, mc, data, m, packs)
  {
    hide FramesAccepted;
    hide BigEndian;
    hide Concat;
    hide Pow256;
    hide Slice;
    hide SlicesAre;
    hide SlicesOk;
    hide PackAccepted;
    hide ReadBigEndian;
    hide Unframe;
    hide ParseHeader;
    hide Envelope;
    hide FramesOf;
    hide FramesUpTo;
    hide ValidManifest;
    SlicesAccepted(k, data, end, m, packs);
    Rejoined(data, end, mc.encode(m), packs);
  }

  /** Header, manifest and packs are the whole envelope. */
  lemma Rejoined(data: Bytes, end: nat, body: Bytes, packs: seq<Bytes>)
    requires |data| < Pow256(8) && PULL_ENVELOPE_FORMAT_V2 < Pow256(4)
    requires ParseHeader(data, PULL_MAGIC, PULL_ENVELOPE_FORMAT_V2) == Ok(end)
    requires data[HEADER_SIZE..end] == body && data[end..] == Concat(packs)
    ensures data == Envelope(PULL_MAGIC, PULL_ENVELOPE_FORMAT_V2, body, packs)
  {
    hide Concat;
    hide Pow256;
    hide Header;
    HeaderExact(data, PULL_MAGIC, PULL_ENVELOPE_FORMAT_V2, end);
    hide ParseHeader;
    assert data == data[..HEADER_SIZE] + data[HEADER_SIZE..end] + data[end..];
  }

  lemma SlicesAccepted(k: Contract, data: Bytes, end: nat, m: PullManifest, packs: seq<Bytes>)
    requires |packs| == |m.packs| && SlicesAre(k, data, end, m, packs)
    ensures forall i :: 0 <= i < |packs| ==> PackAccepted(k, m.packs[i], packs[i])
    ensures forall i :: 0 <= i < |packs| ==> Unframe(k, m.packs[i].format, packs[i]).Some?
    ensures SlicesOk(k, data, end, m, |m.packs|) && FramesUpTo(k, data, end, m, |m.packs|) == FramesOf(k, m, packs)
  {
    hide Unframe;
    hide Slice;
    forall i | 0 <= i < |packs|
      ensures PackAccepted(k, m.packs[i], packs[i]) && Unframe(k, m.packs[i].format, packs[i]).Some?
              && SliceOk(k, data, end, m, i)
    {}
  }

  datatype EnvelopeError =
    | BadHeader | BadManifest | BadPack(i: nat) | RepeatedHead
    | RepeatedCommit | TrailingBytes | HeadMissing | HeadNotLast | ParentMissing

  /** The identities of one frame are added to those seen so far; fails on a repetition. */
  method AddCommits(k: Contract, f: PackFrame, ghost before: seq<CommitIdentity>, commits0: set<CommitIdentity>)
    returns (r: Option<set<CommitIdentity>>)
    requires forall i :: 0 <= i < |f.commits| ==> Identity(k, f.commits[i]).Some?
    requires Ordering.Distinct(before) && forall id :: id in commits0 <==> id in before
    ensures r.Some? <==> Ordering.Distinct(before + FrameIds(k, f))
    ensures r.Some? ==> forall id :: id in r.value <==> id in before + FrameIds(k, f)
  {
    hide Identity;
    var commits := commits0;
    ghost var ids := FrameIds(k, f);
    assert before + ids[..0] == before;
    for i := 0 to |f.commits|
      invariant Ordering.Distinct(before + ids[..i])
      invariant forall id :: id in commits <==> id in before + ids[..i]
    {
      var identity := Identity(k, f.commits[i]).value;
      assert before + ids[..i + 1] == (before + ids[..i]) + [identity];
      if identity in commits {
        RepeatedBreaks(before + ids, |before| + i, identity);
        assert (before + ids)[..|before| + i] == before + ids[..i];
        return None;
      }
      commits := commits + {identity};
    }
    assert ids[..|f.commits|] == ids;
    return Some(commits);
  }

  lemma RepeatedBreaks(s: seq<CommitIdentity>, i: nat, id: CommitIdentity)
    requires i < |s| && s[i] == id
    ensures id in s[..i] ==> !Ordering.Distinct(s)
  {}

  lemma {:induction false} FlatPrefix(k: Contract, frames: seq<PackFrame>, n: nat)
    requires n <= |frames|
    ensures |FlatIds(k, frames[..n])| <= |FlatIds(k, frames)|
    ensures FlatIds(k, frames)[..|FlatIds(k, frames[..n])|] == FlatIds(k, frames[..n])
    decreases |frames|
  {
    hide Identity;
    if n < |frames| {
      var front := frames[..|frames| - 1];
      assert frames[..n] == front[..n];
      FlatPrefix(k, front, n);
    } else {
      assert frames[..n] == frames;
    }
  }

  /** The final loop of the decoder: every merge parent is among the supplied commits. */
  method MergeParentsSupplied(frames: seq<PackFrame>, commits: set<CommitIdentity>) returns (ok: bool)
    ensures ok <==> forall i, p :: 0 <= i < |frames| && p in MergeParents(frames[i]) ==> p in commits
  {
    for i := 0 to |frames|
      invariant forall a, p :: 0 <= a < i && p in MergeParents(frames[a]) ==> p in commits
    {
      var f := frames[i];
      for j := 0 to |f.commits|
        invariant forall a, b :: 0 <= a < j && 1 <= b < |f.commits[a].parents| ==> f.commits[a].parents[b] in commits
      {
        var parents := f.commits[j].parents;
        if |parents| < 2 { continue; }
        for l := 1 to |parents|
          invariant forall b :: 1 <= b < l ==> parents[b] in commits
        {
          if parents[l] !in commits {
            assert f.commits[j].parents[l] in MergeParents(f);
            return false;
          }
        }
      }
    }
    return true;
  }

  lemma SliceStep(k: Contract, data: Bytes, end: nat, m: PullManifest, i: nat)
    requires i < |m.packs| && SlicesOk(k, data, end, m, i)
    ensures SlicesOk(k, data, end, m, i + 1) <==> SliceOk(k, data, end, m, i)
    ensures SlicesOk(k, data, end, m, i + 1) ==>
              FramesUpTo(k, data, end, m, i + 1) == FramesUpTo(k, data, end, m, i) + [FrameAt(k, data, end, m, i)]
  {
    hide SliceOk;
    hide FrameAt;
    if SlicesOk(k, data, end, m, i + 1) {
      assert SliceOk(k, data, end, m, i);
    }
  }

  /** A failure seen while reading a prefix of the packs is a failure of the whole envelope. */
  lemma PrefixFails(k: Contract, mc: ManifestCodec, data: Bytes, end: nat, m: PullManifest, n: nat)
    requires |data| < Pow256(8) && n <= |m.packs| && Decodable(k, mc, data, end, m)
    ensures SlicesOk(k, data, end, m, n)
    ensures Ordering.Distinct(FlatIds(k, FramesUpTo(k, data, end, m, n)))
    ensures forall i, j :: 0 <= i < j < n ==>
              !(HeadAt(m.head, FramesUpTo(k, data, end, m, n), i) && HeadAt(m.head, FramesUpTo(k, data, end, m, n), j))
  {
    hide SliceOk;
    hide FrameAt;
    hide ParseHeader;
    hide UnmarshalManifest;
    var all := FramesUpTo(k, data, end, m, |m.packs|);
    var some := FramesUpTo(k, data, end, m, n);
    assert all[..n] == some;
    assert forall i :: 0 <= i < n ==> (HeadAt(m.head, all, i) <==> HeadAt(m.head, some, i));
    FlatPrefix(k, all, n);
  }

  /** How many of the frames are the head's, as the decoder counts them. */
  ghost predicate HeadsCounted(head: Id, frames: seq<PackFrame>, count: nat) {
    && count <= 1
    && (forall i, j :: 0 <= i < j < |frames| ==> !(HeadAt(head, frames, i) && HeadAt(head, frames, j)))
    && (count == 1 <==> exists i :: 0 <= i < |frames| && HeadAt(head, frames, i))
  }

  lemma CountHead(head: Id, frames: seq<PackFrame>, count: nat, f: PackFrame)
    requires HeadsCounted(head, frames, count)
    ensures f.target != V2(head) ==> HeadsCounted(head, frames + [f], count)
    ensures f.target == V2(head) && count == 0 ==> HeadsCounted(head, frames + [f], 1)
    ensures f.target == V2(head) && count == 1 ==>
              exists i, j :: 0 <= i < j < |frames| + 1 && HeadAt(head, frames + [f], i) && HeadAt(head, frames + [f], j)
  {
    var all := frames + [f];
    assert forall i :: 0 <= i < |frames| ==> (HeadAt(head, all, i) <==> HeadAt(head, frames, i));
    assert HeadAt(head, all, |frames|) <==> f.target == V2(head);
  }

  lemma FlatAppend(k: Contract, frames: seq<PackFrame>, f: PackFrame)
    ensures FlatIds(k, frames + [f]) == FlatIds(k, frames) + FrameIds(k, f)
  {
    assert (frames + [f])[..|frames|] == frames;
  }

  // Facts the decoder uses one at a time.

  lemma NoHeader(k: Contract, mc: ManifestCodec, data: Bytes)
    requires Lawful(mc) && |data| < Pow256(8) && PULL_ENVELOPE_FORMAT_V2 < Pow256(4)
    requires ParseHeader(data, PULL_MAGIC, PULL_ENVELOPE_FORMAT_V2).Err?
    ensures forall m, packs :: !Accepts(k, mc, data, m, packs)
  {
    hide Accepts;
    forall m, packs ensures !Accepts(k, mc, data, m, packs) {
      if Accepts(k, mc, data, m, packs) { AcceptedLayout(k, mc, data, m, packs); }
    }
  }

  lemma NoManifest(k: Contract, mc: ManifestCodec, data: Bytes, end: nat)
    requires Lawful(mc) && |data| < Pow256(8) && PULL_ENVELOPE_FORMAT_V2 < Pow256(4)
    requires ParseHeader(data, PULL_MAGIC, PULL_ENVELOPE_FORMAT_V2) == Ok(end)
    requires UnmarshalManifest(mc, data[HEADER_SIZE..end]).None?
    ensures forall m, packs :: !Accepts(k, mc, data, m, packs)
  {
    hide Accepts;
    hide ParseHeader;
    hide UnmarshalManifest;
    forall m, packs ensures !Accepts(k, mc, data, m, packs) {
      if Accepts(k, mc, data, m, packs) { AcceptedLayout(k, mc, data, m, packs); }
    }
  }

  lemma OnlyIfDecodable(k: Contract, mc: ManifestCodec, data: Bytes, end: nat, m: PullManifest)
    requires Lawful(mc) && |data| < Pow256(8) && PULL_ENVELOPE_FORMAT_V2 < Pow256(4)
    requires ParseHeader(data, PULL_MAGIC, PULL_ENVELOPE_FORMAT_V2) == Ok(end)
    requires UnmarshalManifest(mc, data[HEADER_SIZE..end]) == Some(m)
    ensures !Decodable(k, mc, data, end, m) ==> forall m', packs :: !Accepts(k, mc, data, m', packs)
  {
    hide Accepts;
    hide Decodable;
    hide ParseHeader;
    hide UnmarshalManifest;
    forall m', packs | Accepts(k, mc, data, m', packs) ensures Decodable(k, mc, data, end, m) {
      AcceptedLayout(k, mc, data, m', packs);
      AcceptedIsDecodable(k, mc, data, m', packs);
    }
  }

  lemma DecodeStarts(k: Contract, mc: ManifestCodec, data: Bytes, end: nat, m: PullManifest)
    requires end <= |data| && ValidManifest(m)
    ensures SlicesOk(k, data, end, m, 0) && SlicesAre(k, data, end, m, []) && FramesUpTo(k, data, end, m, 0) == []
    ensures LengthOf(m.packs, 0) == 0 && data[end..end] == Concat([])
    ensures HeadsCounted(m.head, [], 0) && FlatIds(k, []) == []
    ensures Ordering.Distinct(FlatIds(k, []))
    ensures |m.packs| > 0
    ensures forall i :: 0 <= i < |m.packs| ==>
                        m.packs[i].format == PACK_FORMAT_V2 || m.packs[i].format == PACK_FORMAT_V3
  {
    assert forall i :: 0 <= i < |m.packs| ==> m.packs[i] in m.packs;
  }

  /** The two checks on the declared length and the two on the content are the pack's acceptance. */
  lemma SliceVerdict(k: Contract, data: Bytes, end: nat, m: PullManifest, i: nat, offset: nat)
    requires i < |m.packs| && offset == end + LengthOf(m.packs, i) && offset <= |data|
    ensures SliceOk(k, data, end, m, i) <==>
              && m.packs[i].length <= MAX_V2_PACK_BYTES && offset + m.packs[i].length <= |data|
              && k.contentId(data[offset..offset + m.packs[i].length]) == m.packs[i].hash
              && Unframe(k, m.packs[i].format, data[offset..offset + m.packs[i].length]).Some?
    ensures SliceOk(k, data, end, m, i) ==>
              && end + LengthOf(m.packs, i + 1) <= |data|
                && Slice(data, end, m.packs, i) == data[offset..offset + m.packs[i].length]
              && Unframe(k, m.packs[i].format, data[offset..offset + m.packs[i].length]) ==
                Some(FrameAt(k, data, end, m, i))
  {
    hide Unframe;
    LengthStep(m.packs, i);
  }

  lemma DecodableNeeds(k: Contract, mc: ManifestCodec, data: Bytes, end: nat, m: PullManifest)
    requires |data| < Pow256(8) && Decodable(k, mc, data, end, m)
    ensures SlicesOk(k, data, end, m, |m.packs|)
    ensures |data| == end + LengthOf(m.packs, |m.packs|)
    ensures FramesAccepted(k, m.head, FramesUpTo(k, data, end, m, |m.packs|))
  {
    hide ParseHeader;
    hide UnmarshalManifest;
    hide FramesAccepted;
  }

  lemma DecodableFrom(k: Contract, mc: ManifestCodec, data: Bytes, end: nat, m: PullManifest)
    requires |data| < Pow256(8) && PULL_ENVELOPE_FORMAT_V2 < Pow256(4)
    requires ParseHeader(data, PULL_MAGIC, PULL_ENVELOPE_FORMAT_V2) == Ok(end)
    requires UnmarshalManifest(mc, data[HEADER_SIZE..end]) == Some(m)
    requires SlicesOk(k, data, end, m, |m.packs|)
    requires |data| == end + LengthOf(m.packs, |m.packs|)
    requires FramesAccepted(k, m.head, FramesUpTo(k, data, end, m, |m.packs|))
    ensures Decodable(k, mc, data, end, m)
  {}

  /** The counters kept by the loop decide the global checks. */
  lemma FramesVerdict(k: Contract, head: Id, frames: seq<PackFrame>, headTargets: nat, commits: set<CommitIdentity>)
    requires |frames| > 0 && HeadsCounted(head, frames, headTargets)
    requires Ordering.Distinct(FlatIds(k, frames)) && forall id :: id in commits <==> id in FlatIds(k, frames)
    ensures FramesAccepted(k, head, frames) <==>
              && headTargets == 1 && frames[|frames| - 1].target == V2(head)
              && forall i, p :: 0 <= i < |frames| && p in MergeParents(frames[i]) ==> p in commits
  {
    hide FlatIds;
    hide MergeParents;
    assert HeadAt(head, frames, |frames| - 1) <==> frames[|frames| - 1].target == V2(head);
  }

  /** UnmarshalPullEnvelopeV2 accepts exactly the envelopes of a manifest and packs that pass every check. */
  method UnmarshalPullEnvelope(k: Contract, mc: ManifestCodec, data: Bytes)
    returns (r: Result<(PullManifest, seq<Bytes>), EnvelopeError>)
    requires Lawful(mc) && |data| < Pow256(8)
    ensures r.Ok? ==> Accepts(k, mc, data, r.value.0, r.value.1)
    ensures r.Err? ==> forall m, packs :: !Accepts(k, mc, data, m, packs)
  {
    hide *;
    VersionFits();
    var header := ParseHeader(data, PULL_MAGIC, PULL_ENVELOPE_FORMAT_V2);
    if header.Err? {
      NoHeader(k, mc, data);
      return Err(BadHeader);
    }
    var end := header.value;
    var parsed := UnmarshalManifest(mc, data[HEADER_SIZE..end]);
    if parsed.None? {
      NoManifest(k, mc, data, end);
      return Err(BadManifest);
    }
    var manifest := parsed.value;
    ghost var accepted := Decodable(k, mc, data, end, manifest);
    OnlyIfDecodable(k, mc, data, end, manifest);
    var packs: seq<Bytes>, frames: seq<PackFrame>, commits: set<CommitIdentity>, headTargets := [], [], {}, 0;
    var offset := end;
    DecodeStarts(k, mc, data, end, manifest);
    for i := 0 to |manifest.packs|
      invariant SlicesOk(k, data, end, manifest, i) && frames == FramesUpTo(k, data, end, manifest, i)
      invariant |packs| == i && SlicesAre(k, data, end, manifest, packs)
      invariant offset == end + LengthOf(manifest.packs, i) && offset <= |data| && data[end..offset] == Concat(packs)
      invariant HeadsCounted(manifest.head, frames, headTargets)
      invariant Ordering.Distinct(FlatIds(k, frames)) && forall id :: id in commits <==> id in FlatIds(k, frames)
    {
      var pack := manifest.packs[i];
      LengthStep(manifest.packs, i);
      SliceStep(k, data, end, manifest, i);
      SliceVerdict(k, data, end, manifest, i, offset);
      if accepted { PrefixFails(k, mc, data, end, manifest, i + 1); }
      if pack.length > MAX_V2_PACK_BYTES || pack.length > |data| - offset {
        return Err(BadPack(i));
      }
      var next := offset + pack.length;
      var bytes := data[offset..next];
      if k.contentId(bytes) != pack.hash {
        return Err(BadPack(i));
      }
      var frame := UnmarshalPackFrame(k, pack.format, bytes);
      if frame.None? {
        return Err(BadPack(i));
      }
      CountHead(manifest.head, frames, headTargets, frame.value);
      if frame.value.target == V2(manifest.head) {
        headTargets := headTargets + 1;
        if headTargets > 1 {
          return Err(RepeatedHead);
        }
      }
      var added := AddCommits(k, frame.value, FlatIds(k, frames), commits);
      FlatAppend(k, frames, frame.value);
      if added.None? {
        return Err(RepeatedCommit);
      }
      commits := added.value;
      ConcatAppend(packs, bytes);
      SlicesGrow(k, data, end, manifest, packs, bytes);
      assert data[end..next] == data[end..offset] + bytes;
      packs, frames := packs + [bytes], frames + [frame.value];
      offset := next;
    }
    if accepted { DecodableNeeds(k, mc, data, end, manifest); }
    if offset != |data| {
      return Err(TrailingBytes);
    }
    FramesVerdict(k, manifest.head, frames, headTargets, commits);
    if headTargets != 1 {
      return Err(HeadMissing);
    }
    if frames[|frames| - 1].target != V2(manifest.head) {
      return Err(HeadNotLast);
    }
    var supplied := MergeParentsSupplied(frames, commits);
    if !supplied {
      return Err(ParentMissing);
    }
    assert data[end..] == data[end..offset];
    DecodableFrom(k, mc, data, end, manifest);
    DecodableIsAccepted(k, mc, data, end, manifest, packs);
    return Ok((manifest, packs));
  }
}
