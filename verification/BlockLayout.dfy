/** The 160-byte little-endian header of an SVPB block (block_writer.cpp, block_stream.cpp). */
module BlockLayout {
  import opened Basics

  const HEADER_SIZE: nat := 160
  const TWO_63: int := 0x8000_0000_0000_0000
  const TWO_64: int := 0x1_0000_0000_0000_0000

  // ---- Little-endian numbers ----

  function Pow256(n: nat): (p: nat)
    ensures p > 0
  {
    if n == 0 then 1 else 256 * Pow256(n - 1)
  }

  function FromLe(bytes: seq<byte>): nat {
    if bytes == [] then 0 else bytes[0] as nat + 256 * FromLe(bytes[1..])
  }

  function ToLe(value: nat, width: nat): (bytes: seq<byte>)
    ensures |bytes| == width
  {
    if width == 0 then [] else [(value % 256) as byte] + ToLe(value / 256, width - 1)
  }

  lemma {:induction false} LeRoundTrips(value: nat, width: nat)
    requires value < Pow256(width)
    ensures FromLe(ToLe(value, width)) == value
  {
    if width > 0 {
      assert value / 256 < Pow256(width - 1);
      LeRoundTrips(value / 256, width - 1);
      assert ToLe(value, width)[1..] == ToLe(value / 256, width - 1);
    }
  }

  lemma {:induction false} LeIsCanonical(bytes: seq<byte>)
    ensures FromLe(bytes) < Pow256(|bytes|) && ToLe(FromLe(bytes), |bytes|) == bytes
  {
    if bytes != [] {
      LeIsCanonical(bytes[1..]);
      var v, rest := FromLe(bytes), FromLe(bytes[1..]);
      assert v % 256 == bytes[0] as nat && v / 256 == rest;
      assert bytes == [bytes[0]] + bytes[1..];
    }
  }

  lemma PowersOf256()
    ensures Pow256(2) == 0x1_0000 && Pow256(4) == 0x1_0000_0000 && Pow256(8) == TWO_64
  {
    assert Pow256(1) == 256;
    assert Pow256(3) == 0x100_0000;
    assert Pow256(5) == 0x100_0000_0000;
    assert Pow256(6) == 0x1_0000_0000_0000;
    assert Pow256(7) == 0x100_0000_0000_0000;
  }

  /** The two's-complement bits of a signed 64-bit number. */
  function ToUnsigned(value: int): nat
    requires -TWO_63 <= value < TWO_63
  {
    if value < 0 then value + TWO_64 else value
  }

  function ToSigned(bits: nat): int {
    if bits >= TWO_63 then bits - TWO_64 else bits
  }

  // ---- The header ----

  type Digest = d: seq<byte> | |d| == 32 witness seq(32, _ => 0)

  datatype Header = Header(
    version: nat,
    headerSize: nat,
    blockType: nat,
    compression: nat,
    endian: nat,
    flags: nat,
    uncompressedSize: nat,
    compressedSize: nat,
    extent0: nat,
    extent1: nat,
    extent2: nat,
    dtype: nat,
    startFrame: nat,
    frameCount: nat,
    startUs: int,
    endUs: int,
    payloadDigest: Digest,
    headerDigest: Digest)
  {
    /** The ranges of the fields on disk. */
    predicate Fits() {
      && version < 0x1_0000 && headerSize < 0x1_0000
      && blockType < 0x100 && compression < 0x100 && endian < 0x100 && flags < 0x100
      && uncompressedSize < TWO_64 && compressedSize < TWO_64
      && extent0 < 0x1_0000_0000 && extent1 < 0x1_0000_0000 && extent2 < 0x1_0000_0000 && dtype < 0x1_0000_0000
      && startFrame < TWO_64 && frameCount < TWO_64
      && -TWO_63 <= startUs < TWO_63 && -TWO_63 <= endUs < TWO_63
    }
  }

  const MAGIC: seq<byte> := [0x53, 0x56, 0x50, 0x42]

  function Zeros(n: nat): (zeros: seq<byte>)
    ensures |zeros| == n
  {
    seq(n, _ => 0)
  }

  /** The bytes at `offset` are `bytes`. */
  predicate Holds(b: seq<byte>, offset: nat, bytes: seq<byte>) {
    offset + |bytes| <= |b| && b[offset..offset + |bytes|] == bytes
  }

  /** The field at `offset` holds `value`. */
  predicate Field(b: seq<byte>, offset: nat, width: nat, value: nat) {
    Holds(b, offset, ToLe(value, width))
  }

  /** `b` holds every field of `h` but the header digest. */
  predicate Filled(b: seq<byte>, h: Header)
    requires h.Fits()
  {
    && |b| == HEADER_SIZE && Holds(b, 0, MAGIC)
    && Field(b, 4, 2, h.version) && Field(b, 6, 2, h.headerSize)
    && Field(b, 8, 1, h.blockType) && Field(b, 9, 1, h.compression) && Field(b, 10, 1, h.endian) && Field(b, 11, 1, h.flags)
    && Field(b, 12, 8, h.uncompressedSize) && Field(b, 20, 8, h.compressedSize)
    && Field(b, 28, 4, h.extent0) && Field(b, 32, 4, h.extent1) && Field(b, 36, 4, h.extent2) && Field(b, 40, 4, h.dtype)
    && Field(b, 44, 8, h.startFrame) && Field(b, 52, 8, h.frameCount)
    && Field(b, 60, 8, ToUnsigned(h.startUs)) && Field(b, 68, 8, ToUnsigned(h.endUs))
    && Holds(b, 76, h.payloadDigest) && Holds(b, 140, Zeros(20))
  }

  /** `b` is the header `h` on disk: every byte of it is accounted for. */
  predicate Encodes(b: seq<byte>, h: Header)
    requires h.Fits()
  {
    Filled(b, h) && Holds(b, 108, h.headerDigest)
  }

  function Read(b: seq<byte>, offset: nat, width: nat): nat
    requires offset + width <= |b|
  {
    FromLe(b[offset..offset + width])
  }

  function Parse(b: seq<byte>): Header
    requires |b| == HEADER_SIZE
  {
    Header(Read(b, 4, 2), Read(b, 6, 2), Read(b, 8, 1), Read(b, 9, 1), Read(b, 10, 1), Read(b, 11, 1),
           Read(b, 12, 8), Read(b, 20, 8),
           Read(b, 28, 4), Read(b, 32, 4), Read(b, 36, 4), Read(b, 40, 4),
           Read(b, 44, 8), Read(b, 52, 8),
           ToSigned(Read(b, 60, 8)), ToSigned(Read(b, 68, 8)),
           b[76..108], b[108..140])
  }

  lemma FieldReads(b: seq<byte>, offset: nat, width: nat, value: nat)
    requires Field(b, offset, width, value) && value < Pow256(width)
    ensures Read(b, offset, width) == value
  {
    LeRoundTrips(value, width);
  }

  lemma ReadIsField(b: seq<byte>, offset: nat, width: nat)
    requires offset + width <= |b|
    ensures Read(b, offset, width) < Pow256(width) && Field(b, offset, width, Read(b, offset, width))
  {
    LeIsCanonical(b[offset..offset + width]);
  }

  /** Reading a header back gives every field, signed times included. */
  lemma EncodedParses(b: seq<byte>, h: Header)
    requires h.Fits() && Encodes(b, h)
    ensures Parse(b) == h
  {
    hide FromLe, ToLe, Pow256, Field, Read;
    PowersOf256();
    assert Pow256(1) == 256 by { OneByte(); }
    FieldReads(b, 4, 2, h.version);
    FieldReads(b, 6, 2, h.headerSize);
    FieldReads(b, 8, 1, h.blockType);
    FieldReads(b, 9, 1, h.compression);
    FieldReads(b, 10, 1, h.endian);
    FieldReads(b, 11, 1, h.flags);
    FieldReads(b, 12, 8, h.uncompressedSize);
    FieldReads(b, 20, 8, h.compressedSize);
    FieldReads(b, 28, 4, h.extent0);
    FieldReads(b, 32, 4, h.extent1);
    FieldReads(b, 36, 4, h.extent2);
    FieldReads(b, 40, 4, h.dtype);
    FieldReads(b, 44, 8, h.startFrame);
    FieldReads(b, 52, 8, h.frameCount);
    FieldReads(b, 60, 8, ToUnsigned(h.startUs));
    FieldReads(b, 68, 8, ToUnsigned(h.endUs));
  }

  lemma OneByte()
    ensures Pow256(1) == 256
  {
  }

  /** A header with the magic and zeroed reserved bytes is exactly the encoding of its fields. */
  lemma ParsedEncodes(b: seq<byte>)
    requires |b| == HEADER_SIZE && Holds(b, 0, MAGIC) && Holds(b, 140, Zeros(20))
    ensures Parse(b).Fits() && Encodes(b, Parse(b))
  {
    hide FromLe, ToLe, Pow256, Field, Read;
    PowersOf256();
    OneByte();
    ReadIsField(b, 4, 2);
    ReadIsField(b, 6, 2);
    ReadIsField(b, 8, 1);
    ReadIsField(b, 9, 1);
    ReadIsField(b, 10, 1);
    ReadIsField(b, 11, 1);
    ReadIsField(b, 12, 8);
    ReadIsField(b, 20, 8);
    ReadIsField(b, 28, 4);
    ReadIsField(b, 32, 4);
    ReadIsField(b, 36, 4);
    ReadIsField(b, 40, 4);
    ReadIsField(b, 44, 8);
    ReadIsField(b, 52, 8);
    ReadIsField(b, 60, 8);
    ReadIsField(b, 68, 8);
  }

  // ---- Writing in place ----

  /** Whatever `before` holds ahead of `from` or behind `to`, `after` holds too. */
  ghost predicate Outside(before: seq<byte>, after: seq<byte>, from: nat, to: nat) {
    && |before| == |after|
    && (forall o: nat, s :: o + |s| <= from && Holds(before, o, s) ==> Holds(after, o, s))
    && (forall o: nat, s :: o >= to && Holds(before, o, s) ==> Holds(after, o, s))
  }

  lemma OutsideKept(before: seq<byte>, after: seq<byte>, from: nat, to: nat)
    requires |before| == |after| && from <= to <= |before| && before[..from] == after[..from] && before[to..] == after[to..]
    ensures Outside(before, after, from, to)
  {
    forall o: nat, s | o + |s| <= from && Holds(before, o, s) ensures Holds(after, o, s) {
      assert before[..from][o..o + |s|] == before[o..o + |s|] && after[..from][o..o + |s|] == after[o..o + |s|];
    }
    forall o: nat, s | o >= to && Holds(before, o, s) ensures Holds(after, o, s) {
      assert before[to..][o - to..o - to + |s|] == before[o..o + |s|] && after[to..][o - to..o - to + |s|] == after[o..o + |s|];
    }
  }

  method WriteLe(header: array<byte>, offset: nat, width: nat, value: nat)
    requires offset + width <= header.Length
    modifies header
    ensures Field(header[..], offset, width, value) && Outside(old(header[..]), header[..], offset, offset + width)
  {
    ghost var before := header[..];
    var rest := value;
    for i := 0 to width
      invariant ToLe(value, width) == header[offset..offset + i] + ToLe(rest, width - i)
      invariant header[..offset] == before[..offset] && header[offset + width..] == before[offset + width..]
    {
      ghost var written := header[offset..offset + i];
      header[offset + i] := (rest % 256) as byte;
      assert header[offset..offset + i] == written;
      assert header[offset..offset + i + 1] == written + [(rest % 256) as byte];
      rest := rest / 256;
    }
    assert header[offset..offset + width] + [] == header[offset..offset + width];
    assert header[..][offset..offset + width] == header[offset..offset + width];
    OutsideKept(before, header[..], offset, offset + width);
  }

  method WriteBytes(header: array<byte>, offset: nat, bytes: seq<byte>)
    requires offset + |bytes| <= header.Length
    modifies header
    ensures Holds(header[..], offset, bytes) && Outside(old(header[..]), header[..], offset, offset + |bytes|)
  {
    ghost var before := header[..];
    for i := 0 to |bytes|
      invariant header[offset..offset + i] == bytes[..i]
      invariant header[..offset] == before[..offset] && header[offset + |bytes|..] == before[offset + |bytes|..]
    {
      ghost var written := header[offset..offset + i];
      header[offset + i] := bytes[i];
      assert header[offset..offset + i] == written;
    }
    assert header[..][offset..offset + |bytes|] == header[offset..offset + |bytes|];
    OutsideKept(before, header[..], offset, offset + |bytes|);
  }

  /** Writes every field up to the payload digest, in place, into a header of zeros. */
  method WriteFields(header: array<byte>, h: Header)
    requires h.Fits() && header.Length == HEADER_SIZE && Holds(header[..], 108, Zeros(32)) && Holds(header[..], 140, Zeros(20))
    modifies header
    ensures Filled(header[..], h) && Holds(header[..], 108, Zeros(32))
  {
    hide Holds, ToLe, Zeros;
    WriteBytes(header, 0, MAGIC);
    WriteLe(header, 4, 2, h.version);
    WriteLe(header, 6, 2, h.headerSize);
    WriteLe(header, 8, 1, h.blockType);
    WriteLe(header, 9, 1, h.compression);
    WriteLe(header, 10, 1, h.endian);
    WriteLe(header, 11, 1, h.flags);
    WriteLe(header, 12, 8, h.uncompressedSize);
    WriteLe(header, 20, 8, h.compressedSize);
    WriteLe(header, 28, 4, h.extent0);
    WriteLe(header, 32, 4, h.extent1);
    WriteLe(header, 36, 4, h.extent2);
    WriteLe(header, 40, 4, h.dtype);
    WriteLe(header, 44, 8, h.startFrame);
    WriteLe(header, 52, 8, h.frameCount);
    WriteLe(header, 60, 8, ToUnsigned(h.startUs));
    WriteLe(header, 68, 8, ToUnsigned(h.endUs));
    WriteBytes(header, 76, h.payloadDigest);
  }

  lemma FilledStays(before: seq<byte>, after: seq<byte>, h: Header)
    requires h.Fits() && Filled(before, h) && Outside(before, after, 108, 140)
    ensures Filled(after, h)
  {
    hide Holds, ToLe, Zeros;
  }

  /** Two headers on disk with the same fields are the same bytes. */
  lemma EncodingIsUnique(a: seq<byte>, b: seq<byte>, h: Header)
    requires h.Fits() && Encodes(a, h) && Encodes(b, h)
    ensures a == b
  {
    hide ToLe;
    forall i | 0 <= i < HEADER_SIZE ensures a[i] == b[i] {
      if i < 28 { SameFront(a, b, h, i); } else if i < 76 { SameMiddle(a, b, h, i); } else { SameBack(a, b, h, i); }
    }
  }

  lemma SameAt(a: seq<byte>, b: seq<byte>, o: nat, s: seq<byte>, i: nat)
    requires Holds(a, o, s) && Holds(b, o, s) && o <= i < o + |s|
    ensures a[i] == b[i]
  {
    assert a[o..o + |s|][i - o] == b[o..o + |s|][i - o];
  }

  lemma SameFront(a: seq<byte>, b: seq<byte>, h: Header, i: nat)
    requires h.Fits() && Encodes(a, h) && Encodes(b, h) && i < 28
    ensures a[i] == b[i]
  {
    hide Holds, ToLe;
    if i < 4 { SameAt(a, b, 0, MAGIC, i); }
    else if i < 6 { SameAt(a, b, 4, ToLe(h.version, 2), i); }
    else if i < 8 { SameAt(a, b, 6, ToLe(h.headerSize, 2), i); }
    else if i < 9 { SameAt(a, b, 8, ToLe(h.blockType, 1), i); }
    else if i < 10 { SameAt(a, b, 9, ToLe(h.compression, 1), i); }
    else if i < 11 { SameAt(a, b, 10, ToLe(h.endian, 1), i); }
    else if i < 12 { SameAt(a, b, 11, ToLe(h.flags, 1), i); }
    else if i < 20 { SameAt(a, b, 12, ToLe(h.uncompressedSize, 8), i); }
    else { SameAt(a, b, 20, ToLe(h.compressedSize, 8), i); }
  }

  lemma SameMiddle(a: seq<byte>, b: seq<byte>, h: Header, i: nat)
    requires h.Fits() && Encodes(a, h) && Encodes(b, h) && 28 <= i < 76
    ensures a[i] == b[i]
  {
    hide Holds, ToLe;
    if i < 32 { SameAt(a, b, 28, ToLe(h.extent0, 4), i); }
    else if i < 36 { SameAt(a, b, 32, ToLe(h.extent1, 4), i); }
    else if i < 40 { SameAt(a, b, 36, ToLe(h.extent2, 4), i); }
    else if i < 44 { SameAt(a, b, 40, ToLe(h.dtype, 4), i); }
    else if i < 52 { SameAt(a, b, 44, ToLe(h.startFrame, 8), i); }
    else if i < 60 { SameAt(a, b, 52, ToLe(h.frameCount, 8), i); }
    else if i < 68 { SameAt(a, b, 60, ToLe(ToUnsigned(h.startUs), 8), i); }
    else { SameAt(a, b, 68, ToLe(ToUnsigned(h.endUs), 8), i); }
  }

  lemma SameBack(a: seq<byte>, b: seq<byte>, h: Header, i: nat)
    requires h.Fits() && Encodes(a, h) && Encodes(b, h) && 76 <= i < HEADER_SIZE
    ensures a[i] == b[i]
  {
    hide Holds, ToLe;
    if i < 108 { SameAt(a, b, 76, h.payloadDigest, i); }
    else if i < 140 { SameAt(a, b, 108, h.headerDigest, i); }
    else { SameAt(a, b, 140, Zeros(20), i); }
  }
}
