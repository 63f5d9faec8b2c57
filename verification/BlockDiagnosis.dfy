/** Where the fields of a block header are, byte by byte, and which defect of a block is reported as what (block_stream.cpp). */
module BlockDiagnosis {
  import opened Basics
  import opened BlockLayout
  import opened BlockStreams

  // ---- The bytes of a header ----

  function Le2(b: seq<byte>, o: nat): nat
    requires o + 2 <= |b|
  {
    b[o] as nat + 0x100 * b[o + 1] as nat
  }

  function Le4(b: seq<byte>, o: nat): nat
    requires o + 4 <= |b|
  {
    Le2(b, o) + 0x1_0000 * Le2(b, o + 2)
  }

  function Le8(b: seq<byte>, o: nat): nat
    requires o + 8 <= |b|
  {
    Le4(b, o) + 0x1_0000_0000 * Le4(b, o + 4)
  }

  lemma TwoBytes(b: seq<byte>, o: nat)
    requires o + 2 <= |b|
    ensures Read(b, o, 2) == Le2(b, o)
  {
    var s := b[o..o + 2];
    assert s[1..] == [b[o + 1]] && s[1..][1..] == [];
    assert FromLe(s[1..]) == b[o + 1] as nat;
  }

  lemma FourBytes(b: seq<byte>, o: nat)
    requires o + 4 <= |b|
    ensures Read(b, o, 4) == Le4(b, o)
  {
    TwoBytes(b, o + 2);
    SplitsAt(b, o, 2);
  }

  lemma EightBytes(b: seq<byte>, o: nat)
    requires o + 8 <= |b|
    ensures Read(b, o, 8) == Le8(b, o)
  {
    FourBytes(b, o + 4);
    SplitsAt(b, o + 2, 4);
    SplitsAt(b, o, 6);
  }

  lemma SplitsAt(b: seq<byte>, o: nat, width: nat)
    requires o + 2 + width <= |b|
    ensures Read(b, o, 2 + width) == Le2(b, o) + 0x1_0000 * Read(b, o + 2, width)
  {
    var s := b[o..o + 2 + width];
    assert s[1..][1..] == b[o + 2..o + 2 + width];
    assert FromLe(s) == s[0] as nat + 256 * FromLe(s[1..]);
    assert FromLe(s[1..]) == s[1] as nat + 256 * FromLe(s[1..][1..]);
  }

  /** The number whose two's-complement bits these are. */
  function Signed(bits: nat): int {
    if bits < 0x8000_0000_0000_0000 then bits else bits - 0x1_0000_0000_0000_0000
  }

  /** Every field stands at its place: the magic SVPB, sixteen numbers, two digests and twenty zeros. */
  ghost predicate OnDisk(b: seq<byte>, h: Header) {
    && |b| == 160 && b[..4] == [0x53, 0x56, 0x50, 0x42]
    && Le2(b, 4) == h.version && Le2(b, 6) == h.headerSize
    && b[8] as nat == h.blockType && b[9] as nat == h.compression && b[10] as nat == h.endian && b[11] as nat == h.flags
    && Le8(b, 12) == h.uncompressedSize && Le8(b, 20) == h.compressedSize
    && Le4(b, 28) == h.extent0 && Le4(b, 32) == h.extent1 && Le4(b, 36) == h.extent2 && Le4(b, 40) == h.dtype
    && Le8(b, 44) == h.startFrame && Le8(b, 52) == h.frameCount
    && Signed(Le8(b, 60)) == h.startUs && Signed(Le8(b, 68)) == h.endUs
    && b[76..108] == h.payloadDigest && b[108..140] == h.headerDigest && forall i :: 140 <= i < 160 ==> b[i] == 0
  }

  lemma FieldsAreOnDisk(b: seq<byte>)
    requires |b| == 160
    ensures var h := Parse(b);
            && h.version == Le2(b, 4) && h.headerSize == Le2(b, 6)
            && h.blockType == b[8] as nat && h.compression == b[9] as nat && h.endian == b[10] as nat && h.flags == b[11] as nat
            && h.uncompressedSize == Le8(b, 12) && h.compressedSize == Le8(b, 20)
            && h.extent0 == Le4(b, 28) && h.extent1 == Le4(b, 32) && h.extent2 == Le4(b, 36) && h.dtype == Le4(b, 40)
            && h.startFrame == Le8(b, 44) && h.frameCount == Le8(b, 52)
            && h.startUs == Signed(Le8(b, 60)) && h.endUs == Signed(Le8(b, 68))
            && h.payloadDigest == b[76..108] && h.headerDigest == b[108..140]
  {
    hide Read, Le2, Le4, Le8;
    TwoBytes(b, 4); TwoBytes(b, 6);
    OneByteRead(b, 8); OneByteRead(b, 9); OneByteRead(b, 10); OneByteRead(b, 11);
    EightBytes(b, 12); EightBytes(b, 20);
    FourBytes(b, 28); FourBytes(b, 32); FourBytes(b, 36); FourBytes(b, 40);
    EightBytes(b, 44); EightBytes(b, 52); EightBytes(b, 60); EightBytes(b, 68);
  }

  lemma OneByteRead(b: seq<byte>, o: nat)
    requires o < |b|
    ensures Read(b, o, 1) == b[o] as nat
  {
    var s, none := b[o..o + 1], b[o..o];
    assert s[1..] == none && FromLe(none) == 0;
  }

  /** The bytes that encode a header are exactly those with every field at its place. */
  lemma EncodesOnDisk(b: seq<byte>, h: Header)
    requires h.Fits()
    ensures Encodes(b, h) <==> OnDisk(b, h)
  {
    hide Field, Le2, Le4, Le8, Parse;
    if |b| == 160 {
      FieldsAreOnDisk(b);
      assert Holds(b, 0, MAGIC) <==> b[..4] == [0x53, 0x56, 0x50, 0x42];
      ZerosMean(b);
      if Encodes(b, h) { EncodedParses(b, h); }
      if OnDisk(b, h) { ParsedEncodes(b); }
    }
  }

  lemma ZerosMean(b: seq<byte>)
    requires |b| == 160
    ensures Holds(b, 140, Zeros(20)) <==> forall i :: 140 <= i < 160 ==> b[i] == 0
  {
    if Holds(b, 140, Zeros(20)) {
      forall i | 140 <= i < 160 ensures b[i] == 0 { assert b[140..160][i - 140] == Zeros(20)[i - 140]; }
    }
    if forall i :: 140 <= i < 160 ==> b[i] == 0 { assert b[140..160] == Zeros(20); }
  }

  /** Where a written block has what it was given: the dimensions, times and frames, the sizes, and the digest of the frame. */
  lemma WrittenOnDisk(c: Codec, stream: seq<byte>, offset: nat, spec: BlockSpec, payload: seq<byte>)
    requires BlockAt(c, stream, offset, spec, payload)
    ensures offset + 160 + |c.compress(payload)| <= |stream|
    ensures var b, frame := stream[offset..offset + 160], c.compress(payload);
            && b[..4] == [0x53, 0x56, 0x50, 0x42] && Le2(b, 4) == 1 && Le2(b, 6) == 160
            && b[8] as nat == spec.blockType && b[9] == 1 && b[10] == 1 && b[11] == 0
            && Le8(b, 12) == |payload| && Le8(b, 20) == |frame|
            && Le4(b, 28) == spec.extent0 && Le4(b, 32) == spec.extent1 && Le4(b, 36) == spec.extent2 && Le4(b, 40) == spec.dtype
            && Le8(b, 44) == spec.startFrame && Le8(b, 52) == spec.frameCount
            && Signed(Le8(b, 60)) == spec.startUs && Signed(Le8(b, 68)) == spec.endUs
            && b[76..108] == c.digest(frame) && b[108..140] == c.digest(Blanked(b))
            && stream[offset + 160..offset + 160 + |frame|] == frame
  {
    hide Encodes, Le2, Le4, Le8, Blanked;
    var b, frame := stream[offset..offset + 160], c.compress(payload);
    EncodesOnDisk(b, HeaderOf(spec, |payload|, |frame|, c.digest(frame), c.digest(Blanked(b))));
  }

  /** The digest of a header is over its bytes with zeros in place of the digest. */
  lemma BlankedMeans(b: seq<byte>, i: nat)
    requires |b| == HEADER_SIZE && i < HEADER_SIZE
    ensures |Blanked(b)| == HEADER_SIZE && Blanked(b)[i] == if 108 <= i < 140 then 0 else b[i]
  {
  }

  // ---- Issues ----

  predicate Known(h: Header) { h.blockType == 1 || h.blockType == 2 || h.blockType == 3 }

  /** An image block whose dimensions are not the ones asked for. */
  predicate WrongRaster(h: Header, options: Options) {
    (h.blockType == 1 || h.blockType == 2) && options.requiredExtent.Some? && options.requiredExtent.value != (h.extent0, h.extent1)
  }

  /** What a header of a known type must be besides the raster. */
  ghost predicate SoundHeader(b: seq<byte>, h: Header, options: Options)
    requires |b| == 160
  {
    && b[..4] == [0x53, 0x56, 0x50, 0x42] && (forall i :: 140 <= i < 160 ==> b[i] == 0)
    && h.version == 1 && h.headerSize == 160 && h.compression == 1 && h.endian == 1 && h.flags == 0
    && (Known(h) ==> ContentValid(h, options.(requiredExtent := None)) && RoundsWithin64Bits(h))
  }

  lemma FixedDiagnosis(b: seq<byte>, h: Header, offset: nat, issue: Issue)
    requires |b| == HEADER_SIZE
    ensures issue in FixedFieldIssues(b, h, offset) <==>
            && issue == Issue(InvalidHeader, offset)
            && !(Holds(b, 0, MAGIC) && Holds(b, 140, Zeros(20))
                 && h.version == 1 && h.headerSize == 160 && h.compression == 1 && h.endian == 1 && h.flags == 0)
  {
    hide Holds;
  }

  /** Some check of the content fails, other than that of the raster. */
  predicate SomethingWrong(h: Header, options: Options)
    requires h.Fits()
  {
    || (options.requiredBlockType.Some? && h.blockType != options.requiredBlockType.value)
    || h.compressedSize == 0 || h.uncompressedSize == 0
    || h.compressedSize > options.maxCompressed || h.uncompressedSize > options.maxUncompressed
    || !TimeRangeValid(h) || !SizeMatches(h) || !ShapeValid(h)
  }

  lemma ContentIssuesMean(h: Header, options: Options, offset: nat, issue: Issue)
    requires h.Fits()
    ensures issue in ContentIssues(h, options, offset) <==>
            || (issue == Issue(InvalidHeader, offset) && SomethingWrong(h, options))
            || (issue == Issue(RasterExtentMismatch, offset) && !ExtentMatches(h, options))
  {
    hide TimeRangeValid, SizeMatches, ShapeValid, ExtentMatches;
  }

  lemma WrongIsInvalid(h: Header, options: Options)
    requires h.Fits() && Known(h)
    ensures SomethingWrong(h, options) <==> !(ContentValid(h, options.(requiredExtent := None)) && RoundsWithin64Bits(h))
  {
    hide SizeMatches, ExactSize, RoundsWithin64Bits;
    if 0 < h.uncompressedSize { SizeCheckIsExactWithin64Bits(h); }
  }

  lemma ContentDiagnosis(h: Header, options: Options, offset: nat, issue: Issue)
    requires h.Fits() && Known(h)
    ensures issue in ContentIssues(h, options, offset) <==>
            || (issue == Issue(InvalidHeader, offset) && !(ContentValid(h, options.(requiredExtent := None)) && RoundsWithin64Bits(h)))
            || (issue == Issue(RasterExtentMismatch, offset) && WrongRaster(h, options))
  {
    hide SomethingWrong, ContentIssues, ContentValid, RoundsWithin64Bits;
    ContentIssuesMean(h, options, offset, issue);
    WrongIsInvalid(h, options);
  }

  lemma HeaderIssuesMean(b: seq<byte>, h: Header, options: Options, offset: nat, issue: Issue)
    requires |b| == HEADER_SIZE && h.Fits()
    ensures issue in HeaderIssues(b, h, options, offset) <==>
            || (issue == Issue(ForbiddenBlockType, offset) && !Known(h))
            || (issue == Issue(RasterExtentMismatch, offset) && WrongRaster(h, options))
            || (issue == Issue(InvalidHeader, offset) && !SoundHeader(b, h, options))
  {
    ZerosMean(b);
    assert Holds(b, 0, MAGIC) <==> b[..4] == [0x53, 0x56, 0x50, 0x42];
    FixedDiagnosis(b, h, offset, issue);
    hide FixedFieldIssues, ContentIssues, Holds, ContentValid, RoundsWithin64Bits;
    if Known(h) { ContentDiagnosis(h, options, offset, issue); }
  }

  /** Each kind of issue of a header is reported exactly for its own defect. */
  lemma HeaderDiagnosis(c: Codec, options: Options, stream: seq<byte>, offset: nat, issue: Issue)
    requires offset + HEADER_SIZE <= |stream|
    ensures var b, h := stream[offset..offset + HEADER_SIZE], HeaderAt(stream, offset);
            issue in IssuesAt(c, options, stream, offset) <==>
              || (issue == Issue(ForbiddenBlockType, offset) && !Known(h))
              || (issue == Issue(RasterExtentMismatch, offset) && WrongRaster(h, options))
              || (issue == Issue(InvalidHeader, offset) && !SoundHeader(b, h, options))
              || (issue == Issue(InvalidHash, offset) && options.verifyHashes && c.digest(Blanked(b)) != h.headerDigest)
  {
    HeaderIssuesMean(stream[offset..offset + HEADER_SIZE], HeaderAt(stream, offset), options, offset, issue);
    hide HeaderIssues, HeaderAt, SoundHeader, Blanked;
  }

  /** So is each kind of issue of a payload. */
  lemma PayloadDiagnosis(c: Codec, options: Options, h: Header, payload: seq<byte>, offset: nat, issue: Issue)
    ensures var expanded := c.expand(payload);
            issue in PayloadIssues(c, options, h, payload, offset) <==>
              || (issue == Issue(InvalidHash, offset) && options.verifyHashes && c.digest(payload) != h.payloadDigest)
              || (issue == Issue(DecompressionFailed, offset)
                  && options.verifyZstd && !(expanded.Whole? && |expanded.bytes| == h.uncompressedSize))
  {
  }

  // ---- What is reported of a stream ----

  /** Block after block, each header the bytes at its offset, each following the payload of the one before. */
  ghost predicate Chained(stream: seq<byte>, blocks: seq<Block>, offset: nat) {
    blocks == [] ||
    (&& blocks[0].offset == offset && offset + HEADER_SIZE <= |stream| && blocks[0].header == HeaderAt(stream, offset)
     && Chained(stream, blocks[1..], offset + HEADER_SIZE + blocks[0].header.compressedSize))
  }

  /** Where parsing stops after these blocks: at the end, with too few bytes left for a header, or at a block whose payload
      is cut off or over the size guards. */
  ghost predicate StopsAt(options: Options, stream: seq<byte>, blocks: seq<Block>, offset: nat) {
    if blocks == [] then offset >= |stream| || |stream| - offset < HEADER_SIZE
    else
      var h := blocks[0].header;
      var next := offset + HEADER_SIZE + h.compressedSize;
      if next > |stream| || h.compressedSize > options.maxCompressed || h.uncompressedSize > options.maxUncompressed then |blocks| == 1
      else StopsAt(options, stream, blocks[1..], next)
  }

  lemma {:induction false} BlocksAreChained(c: Codec, options: Options, stream: seq<byte>, offset: nat)
    ensures Chained(stream, ParseFrom(c, options, stream, offset).blocks, offset)
    ensures StopsAt(options, stream, ParseFrom(c, options, stream, offset).blocks, offset)
    decreases |stream| - offset
  {
    hide IssuesAt, PayloadIssues, Parse;
    if offset + HEADER_SIZE <= |stream| {
      var h := HeaderAt(stream, offset);
      var next := offset + HEADER_SIZE + h.compressedSize;
      var blocks := ParseFrom(c, options, stream, offset).blocks;
      if next <= |stream| && !OverGuard(options, h) {
        BlocksAreChained(c, options, stream, next);
        assert blocks == [Block(offset, h)] + ([] + ParseFrom(c, options, stream, next).blocks);
        assert blocks[1..] == ParseFrom(c, options, stream, next).blocks;
      } else {
        assert blocks == [Block(offset, h)];
      }
    }
  }
}
