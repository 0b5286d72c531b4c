// Byte layout shared by both pull envelopes: a 16-byte header (magic, big-endian version,
// big-endian manifest length), the manifest, then the packs back to back.
module Wire {
  import opened Wrappers

  type byte = b: int | 0 <= b < 256
  type Bytes = seq<byte>

  const HEADER_SIZE: nat := 16

  function Pow256(w: nat): (p: nat)
    ensures p > 0
  {
    if w == 0 then 1 else 256 * Pow256(w - 1)
  }

  /** Version numbers fit the four bytes of a header. */
  lemma SmallFits(n: nat)
    requires n < 256
    ensures n < Pow256(4)
  {
    assert Pow256(1) == 256;
    assert Pow256(2) == 256 * Pow256(1);
    assert Pow256(3) == 256 * Pow256(2);
    assert Pow256(4) == 256 * Pow256(3);
  }

  /** The `w` low bytes of `n`, most significant first. */
  function BigEndian(n: nat, w: nat): (b: Bytes)
    ensures |b| == w
    decreases w
  {
    if w == 0 then [] else BigEndian(n / 256, w - 1) + [n % 256]
  }

  function ReadBigEndian(b: Bytes): (n: nat)
    ensures n < Pow256(|b|)
  {
    if b == [] then 0 else 256 * ReadBigEndian(b[..|b| - 1]) + b[|b| - 1]
  }

  lemma {:induction false} ReadWritten(n: nat, w: nat)
    requires n < Pow256(w)
    ensures ReadBigEndian(BigEndian(n, w)) == n
    decreases w
  {
    if w > 0 {
      ReadWritten(n / 256, w - 1);
      assert BigEndian(n, w)[..w - 1] == BigEndian(n / 256, w - 1);
    }
  }

  lemma {:induction false} WriteRead(b: Bytes)
    ensures BigEndian(ReadBigEndian(b), |b|) == b
  {
    if b != [] {
      var front, last := b[..|b| - 1], b[|b| - 1];
      WriteRead(front);
      var n := ReadBigEndian(b);
      assert n / 256 == ReadBigEndian(front) && n % 256 == last;
      assert b == front + [last];
    }
  }

  /** binary.BigEndian.PutUint32 and PutUint64: fills `width` bytes of the buffer in place. */
  method PutBigEndian(buffer: array<byte>, at: nat, width: nat, n: nat)
    requires at + width <= buffer.Length
    modifies buffer
    ensures buffer[..] == old(buffer[..at]) + BigEndian(n, width) + old(buffer[at + width..])
  {
    hide BigEndian;
    var i, rest := width, n;
    ghost var before := buffer[..];
    while i > 0
      invariant 0 <= i <= width
      invariant buffer[..at + i] == before[..at + i]
      invariant buffer[at + width..] == before[at + width..]
      invariant BigEndian(rest, i) + buffer[at + i..at + width] == BigEndian(n, width)
    {
      i := i - 1;
      ghost var tail := buffer[at + i + 1..at + width];
      buffer[at + i] := rest % 256;
      assert buffer[at + i..at + width] == [rest % 256] + tail;
      DigitBefore(rest, i, tail);
      rest := rest / 256;
    }
    NoDigits(rest);
    assert buffer[..] == buffer[..at] + buffer[at..at + width] + buffer[at + width..];
  }

  lemma DigitBefore(n: nat, i: nat, tail: Bytes)
    ensures BigEndian(n / 256, i) + ([n % 256] + tail) == BigEndian(n, i + 1) + tail
  {}

  lemma NoDigits(n: nat)
    ensures BigEndian(n, 0) == []
  {}

  function Header(magic: Bytes, version: nat, length: nat): (h: Bytes)
    requires |magic| == 4
    ensures |h| == HEADER_SIZE
  {
    magic + BigEndian(version, 4) + BigEndian(length, 8)
  }

  method WriteHeader(magic: Bytes, version: nat, length: nat) returns (h: Bytes)
    requires |magic| == 4
    ensures h == Header(magic, version, length)
  {
    var header := new byte[16](i => 0);
    forall i | 0 <= i < 4 {
      header[i] := magic[i];
    }
    assert header[..4] == magic;
    PutBigEndian(header, 4, 4, version);
    assert header[..4] == magic && header[4..8] == BigEndian(version, 4);
    PutBigEndian(header, 8, 8, length);
    assert header[..8] == magic + BigEndian(version, 4);
    h := header[..];
  }

  datatype HeaderError = MissingHeader | UnsupportedVersion | ManifestTooLong

  /** The header checks both decoders start with; yields the end of the manifest. */
  function ParseHeader(data: Bytes, magic: Bytes, version: nat): (r: Result<nat, HeaderError>)
    requires |magic| == 4 && version < Pow256(4)
    ensures r.Ok? ==> HEADER_SIZE <= r.value <= |data|
  {
    if |data| < HEADER_SIZE || data[..4] != magic then Err(MissingHeader)
    else if ReadBigEndian(data[4..8]) != version then Err(UnsupportedVersion)
    else
      var length := ReadBigEndian(data[8..HEADER_SIZE]);
      if length > |data| - HEADER_SIZE then Err(ManifestTooLong)
      else Ok(HEADER_SIZE + length)
  }

  lemma HeaderFields(magic: Bytes, version: nat, length: nat)
    requires |magic| == 4
    ensures var h := Header(magic, version, length);
            h[..4] == magic && h[4..8] == BigEndian(version, 4) && h[8..HEADER_SIZE] == BigEndian(length, 8)
  {
    hide BigEndian;
    var h := Header(magic, version, length);
    assert h[4..8] == BigEndian(version, 4);
  }

  lemma SplitHeader(data: Bytes)
    requires |data| >= HEADER_SIZE
    ensures data[..HEADER_SIZE] == data[..4] + data[4..8] + data[8..HEADER_SIZE]
    ensures data[..HEADER_SIZE][..4] == data[..4]
    ensures data[..HEADER_SIZE][4..8] == data[4..8]
    ensures data[..HEADER_SIZE][8..HEADER_SIZE] == data[8..HEADER_SIZE]
  {}

  /** A header is accepted exactly when it is the one the encoder writes for that manifest length. */
  lemma HeaderExact(data: Bytes, magic: Bytes, version: nat, end: nat)
    requires |magic| == 4 && version < Pow256(4) && HEADER_SIZE <= end <= |data| && |data| < Pow256(8)
    ensures ParseHeader(data, magic, version) == Ok(end)
            <==> data[..HEADER_SIZE] == Header(magic, version, end - HEADER_SIZE)
  {
    hide BigEndian;
    hide ReadBigEndian;
    hide Pow256;
    var length := end - HEADER_SIZE;
    ReadWritten(version, 4);
    ReadWritten(length, 8);
    HeaderFields(magic, version, length);
    SplitHeader(data);
    WriteRead(data[4..8]);
    WriteRead(data[8..HEADER_SIZE]);
  }

  function Concat(packs: seq<Bytes>): Bytes {
    if packs == [] then [] else packs[0] + Concat(packs[1..])
  }

  lemma {:induction false} ConcatAppend(packs: seq<Bytes>, last: Bytes)
    ensures Concat(packs + [last]) == Concat(packs) + last
  {
    if packs == [] {
      assert packs + [last] == [last];
      assert Concat([last]) == last + Concat([]);
    } else {
      assert (packs + [last])[1..] == packs[1..] + [last];
      ConcatAppend(packs[1..], last);
    }
  }

  /** Boundaries given by the declared lengths cut a stream in only one way. */
  lemma {:induction false} ConcatUnique(a: seq<Bytes>, b: seq<Bytes>)
    requires |a| == |b| && forall i :: 0 <= i < |a| ==> |a[i]| == |b[i]|
    requires Concat(a) == Concat(b)
    ensures a == b
  {
    if a != [] {
      assert a[0] == Concat(a)[..|a[0]|] == Concat(b)[..|b[0]|] == b[0];
      assert Concat(a[1..]) == Concat(a)[|a[0]|..] == Concat(b)[|b[0]|..] == Concat(b[1..]);
      ConcatUnique(a[1..], b[1..]);
      assert a == [a[0]] + a[1..] && b == [b[0]] + b[1..];
    }
  }

  /** A complete envelope. */
  function Envelope(magic: Bytes, version: nat, manifest: Bytes, packs: seq<Bytes>): (e: Bytes)
    requires |magic| == 4
    ensures |e| >= HEADER_SIZE + |manifest|
  {
    Header(magic, version, |manifest|) + manifest + Concat(packs)
  }
}
