// What a client holds after decoding a pull: which commits, each how often, and what else must be there.
module EnvelopeLaws {
  import opened Wrappers
  import opened Wire
  import opened CommitGraph
  import opened Framing
  import opened PullPlan
  import opened PullEnvelope
  import PullEngine
  import Ordering

  /** A pull envelope starts with its magic, its version as four bytes and the manifest's length as eight, the most
      significant byte first. */
  lemma HeaderMeans(k: Contract, mc: ManifestCodec, data: Bytes, m: PullManifest, packs: seq<Bytes>)
    requires Accepts(k, mc, data, m, packs) && |mc.encode(m)| < 0x1_0000
    ensures var n := |mc.encode(m)|;
            && |data| >= 16 + n
            && data[..16] == [0x53, 0x52, 0x50, 0x4C, 0, 0, 0, 2, 0, 0, 0, 0, 0, 0, n / 256, n % 256]
            && data[16..16 + n] == mc.encode(m)
    ensures m.version == 2 && |m.head| == 64
  {
    hide FramesAccepted;
    hide Concat;
    hide BigEndian;
    var n := |mc.encode(m)|;
    ByteStrings(n);
    assert data == PULL_MAGIC + BigEndian(2, 4) + BigEndian(n, 8) + mc.encode(m) + Concat(packs);
  }

  lemma ByteStrings(n: nat)
    requires n < 0x1_0000
    ensures BigEndian(2, 4) == [0, 0, 0, 2]
    ensures BigEndian(n, 8) == [0, 0, 0, 0, 0, 0, n / 256, n % 256]
  {
    assert BigEndian(0, 2) == [0, 0];
    assert BigEndian(0, 3) == [0, 0, 0];
    assert BigEndian(2, 4) == BigEndian(0, 3) + [2];
    assert BigEndian(0, 4) == [0, 0, 0, 0];
    assert BigEndian(0, 6) == [0, 0, 0, 0, 0, 0] by {
      assert BigEndian(0, 5) == BigEndian(0, 4) + [0];
      assert BigEndian(0, 6) == BigEndian(0, 5) + [0];
    }
    assert BigEndian(n / 256, 7) == BigEndian(0, 6) + [n / 256];
    assert BigEndian(n, 8) == BigEndian(n / 256, 7) + [n % 256];
  }

  /** The frame of pack `i`. */
  ghost function FrameIn(k: Contract, packs: seq<Bytes>, i: nat): PackFrame
    requires i < |packs| && k.frames.decode(packs[i]).Some?
  {
    k.frames.decode(packs[i]).value
  }

  /** Every pack is a canonical, valid frame of its declared format, length and hash. */
  lemma PacksMean(k: Contract, mc: ManifestCodec, data: Bytes, m: PullManifest, packs: seq<Bytes>, i: nat)
    requires Accepts(k, mc, data, m, packs) && i < |packs|
    ensures |packs| == |m.packs| && |packs[i]| == m.packs[i].length && k.contentId(packs[i]) == m.packs[i].hash
    ensures m.packs[i].format == 2 || m.packs[i].format == 3
    ensures k.frames.decode(packs[i]).Some? && FramesOf(k, m, packs)[i] == FrameIn(k, packs, i)
    ensures Unframe(k, m.packs[i].format, packs[i]) == Some(FrameIn(k, packs, i))
  {
    hide WellFramed;
    hide FramesAccepted;
    hide ValidContentID;
    assert m.packs[i] in m.packs;
  }

  lemma AllFrames(k: Contract, mc: ManifestCodec, data: Bytes, m: PullManifest, packs: seq<Bytes>)
    requires Accepts(k, mc, data, m, packs)
    ensures |packs| == |m.packs| > 0 && FramesAccepted(k, m.head, FramesOf(k, m, packs))
    ensures forall i :: 0 <= i < |packs| ==>
                        k.frames.decode(packs[i]).Some? && FramesOf(k, m, packs)[i] == FrameIn(k, packs, i)
  {
    hide FramesAccepted;
    hide ValidContentID;
    forall i | 0 <= i < |packs|
      ensures k.frames.decode(packs[i]).Some? && FramesOf(k, m, packs)[i] == FrameIn(k, packs, i)
    {
      PacksMean(k, mc, data, m, packs, i);
    }
  }

  /** Where the identities of frame `i` stand among those of all frames. */
  lemma FlatAt(k: Contract, frames: seq<PackFrame>, i: nat, j: nat)
    requires i < |frames| && j < |frames[i].commits|
    ensures |FlatIds(k, frames[..i])| + j < |FlatIds(k, frames[..i + 1])| <= |FlatIds(k, frames)|
    ensures FlatIds(k, frames)[|FlatIds(k, frames[..i])| + j] == FrameIds(k, frames[i])[j]
  {
    hide FrameIds;
    assert frames[..i + 1][..i] == frames[..i];
    FlatPrefix(k, frames, i + 1);
    var before := |FlatIds(k, frames[..i])|;
    assert FlatIds(k, frames[..i + 1]) == FlatIds(k, frames[..i]) + FrameIds(k, frames[i]);
    assert FlatIds(k, frames)[..|FlatIds(k, frames[..i + 1])|][before + j] == FrameIds(k, frames[i])[j];
  }

  /** No commit comes twice in an accepted envelope, in one pack or in two. */
  lemma CommitsOnce(k: Contract, mc: ManifestCodec, data: Bytes, m: PullManifest, packs: seq<Bytes>, i: nat, j: nat,
                    x: nat, y: nat)
    requires Accepts(k, mc, data, m, packs) && i < |packs| && x < |packs|
    requires k.frames.decode(packs[i]).Some? && k.frames.decode(packs[x]).Some?
    requires j < |FrameIn(k, packs, i).commits| && y < |FrameIn(k, packs, x).commits|
    requires i < x || (i == x && j < y)
    ensures Identity(k, FrameIn(k, packs, i).commits[j]) != Identity(k, FrameIn(k, packs, x).commits[y])
  {
    var frames := FramesOf(k, m, packs);
    AllFrames(k, mc, data, m, packs);
    hide Identity;
    hide Accepts;
    hide FlatIds;
    FlatAt(k, frames, i, j);
    FlatAt(k, frames, x, y);
    if i < x { OffsetsGrow(k, frames, i + 1, x); }
    var a, b := |FlatIds(k, frames[..i])| + j, |FlatIds(k, frames[..x])| + y;
    assert a < b && FlatIds(k, frames)[a] != FlatIds(k, frames)[b];
  }

  lemma OffsetsGrow(k: Contract, frames: seq<PackFrame>, i: nat, x: nat)
    requires i <= x <= |frames|
    ensures |FlatIds(k, frames[..i])| <= |FlatIds(k, frames[..x])|
  {
    hide FlatIds;
    assert frames[..x][..i] == frames[..i];
    FlatPrefix(k, frames[..x], i);
  }

  /** The head is the target of the last pack and of no other. */
  lemma HeadLast(k: Contract, mc: ManifestCodec, data: Bytes, m: PullManifest, packs: seq<Bytes>, i: nat)
    requires Accepts(k, mc, data, m, packs) && i < |packs| && k.frames.decode(packs[i]).Some?
    ensures FrameIn(k, packs, i).target == CommitIdentity(2, m.head) <==> i == |packs| - 1
  {
    var frames := FramesOf(k, m, packs);
    AllFrames(k, mc, data, m, packs);
    hide Accepts;
    hide FlatIds;
    hide MergeParents;
    assert HeadAt(m.head, frames, |frames| - 1);
    assert frames[i].target == FrameIn(k, packs, i).target;
    assert HeadAt(m.head, frames, i) <==> frames[i].target == CommitIdentity(2, m.head);
  }

  /** Every merge parent of a decoded commit is a decoded commit too. */
  lemma MergeParentsThere(k: Contract, mc: ManifestCodec, data: Bytes, m: PullManifest, packs: seq<Bytes>, i: nat,
                          j: nat, n: nat) returns (x: nat, y: nat)
    requires Accepts(k, mc, data, m, packs) && i < |packs| && k.frames.decode(packs[i]).Some?
    requires j < |FrameIn(k, packs, i).commits| && 1 <= n < |FrameIn(k, packs, i).commits[j].parents|
    ensures x < |packs| && k.frames.decode(packs[x]).Some? && y < |FrameIn(k, packs, x).commits|
    ensures Identity(k, FrameIn(k, packs, x).commits[y]) == Some(FrameIn(k, packs, i).commits[j].parents[n])
  {
    var frames := FramesOf(k, m, packs);
    AllFrames(k, mc, data, m, packs);
    forall f, g | 0 <= f < |frames| && 0 <= g < |frames[f].commits| ensures Identity(k, frames[f].commits[g]).Some? {
      PacksMean(k, mc, data, m, packs, f);
      FrameMeans(k, m.packs[f].format, packs[f], frames[f]);
    }
    hide Identity;
    hide Accepts;
    hide FlatIds;
    var p := frames[i].commits[j].parents[n];
    assert p in MergeParents(frames[i]);
    PullEngine.FlatIdsMembers(k, frames, p);
    x :| 0 <= x < |frames| && p in Ids(k, frames[x]);
    y :| 0 <= y < |frames[x].commits| && Identity(k, frames[x].commits[y]).Some?
         && Identity(k, frames[x].commits[y]).value == p;
  }
}
