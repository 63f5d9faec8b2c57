/** Writing and parsing streams of SVPB blocks (block_writer.cpp, block_stream.cpp). */
module BlockStreams {
  import opened Basics
  import opened BlockLayout

  const DEPTH := 1
  const MASK := 2
  const EMBEDDING := 3

  const UINT16 := 2
  const FLOAT32 := 4
  const BITPACKED := 5
  const RLE := 6

  const NON_FRAME_START: nat := 0xFFFF_FFFF_FFFF_FFFF

  datatype BlockSpec = BlockSpec(
    blockType: nat,
    extent0: nat,
    extent1: nat,
    extent2: nat,
    dtype: nat,
    startFrame: nat,
    frameCount: nat,
    startUs: int,
    endUs: int)
  {
    predicate Fits() {
      && blockType < 0x100 && dtype < 0x1_0000_0000
      && extent0 < 0x1_0000_0000 && extent1 < 0x1_0000_0000 && extent2 < 0x1_0000_0000
      && startFrame < TWO_64 && frameCount < TWO_64
      && -TWO_63 <= startUs < TWO_63 && -TWO_63 <= endUs < TWO_63
    }
  }

  /** What decompressing gives: an error, bytes that end inside a frame, or the bytes of complete frames. */
  datatype Expansion = NotZstd | Partial(bytes: seq<byte>) | Whole(bytes: seq<byte>)

  /** BLAKE3 and Zstandard. */
  datatype Codec = Codec(digest: seq<byte> -> Digest, compress: seq<byte> -> seq<byte>, expand: seq<byte> -> Expansion) {
    ghost predicate RoundTrips() {
      forall p :: expand(compress(p)) == Whole(p)
    }
  }

  datatype Options = Options(
    requiredBlockType: Option<nat>,
    requiredExtent: Option<(nat, nat)>,
    maxCompressed: nat,
    maxUncompressed: nat,
    verifyHashes: bool,
    verifyZstd: bool,
    allowEmpty: bool)

  datatype IssueKind = InvalidHeader | InvalidHash | DecompressionFailed | ForbiddenBlockType | RasterExtentMismatch

  datatype Issue = Issue(kind: IssueKind, offset: nat)

  datatype Block = Block(offset: nat, header: Header)

  datatype ParseResult = ParseResult(blocks: seq<Block>, issues: seq<Issue>)

  // ---- Checks of one header ----

  /** 64-bit multiplication that fails instead of wrapping around. */
  function CheckedMultiply(a: nat, b: nat): (r: Option<nat>)
    requires a < TWO_64 && b < TWO_64
    ensures r == if a * b < TWO_64 then Some(a * b) else None
  {
    if a != 0 && b > (TWO_64 - 1) / a then
      ProductTooLarge(a, b);
      None
    else
      if a != 0 then ProductFits(a, b); Some(a * b) else Some(0)
  }

  lemma ProductTooLarge(a: nat, b: nat)
    requires a > 0 && b > (TWO_64 - 1) / a
    ensures a * b >= TWO_64
  {
    var q := (TWO_64 - 1) / a;
    assert TWO_64 - 1 < a * (q + 1);
    assert a * (q + 1) <= a * b;
  }

  lemma ProductFits(a: nat, b: nat)
    requires a > 0 && b <= (TWO_64 - 1) / a
    ensures a * b < TWO_64
  {
    var q := (TWO_64 - 1) / a;
    assert a * q <= TWO_64 - 1;
    assert a * b <= a * q;
  }

  function Times(a: Option<nat>, b: nat): (r: Option<nat>)
    requires (a.Some? ==> a.value < TWO_64) && b < TWO_64
    ensures r.Some? ==> r.value < TWO_64
  {
    if a.None? then None else CheckedMultiply(a.value, b)
  }

  /** The check of the declared size against the dimensions, in 64-bit arithmetic. */
  predicate SizeMatches(h: Header)
    requires h.Fits()
  {
    if h.blockType == DEPTH then
      Times(Times(CheckedMultiply(h.extent0, h.extent1), h.frameCount), 2) == Some(h.uncompressedSize)
    else if h.blockType == EMBEDDING then
      Times(CheckedMultiply(h.extent0, h.extent1), 4) == Some(h.uncompressedSize)
    else if h.blockType == MASK && h.dtype == BITPACKED then
      var samples := Times(CheckedMultiply(h.extent0, h.extent1), h.extent2);
      samples.Some? && (samples.value + 7) % TWO_64 / 8 == h.uncompressedSize
    else true
  }

  predicate TimeRangeValid(h: Header) {
    (h.startUs == -1 && h.endUs == -1) || (h.startUs >= 0 && h.endUs > h.startUs)
  }

  predicate ShapeValid(h: Header) {
    if h.blockType == DEPTH then
      h.extent0 != 0 && h.extent1 != 0 && h.extent2 == 1 && h.dtype == UINT16 && h.frameCount != 0 && h.startFrame != NON_FRAME_START
    else if h.blockType == MASK then
      h.extent0 != 0 && h.extent1 != 0 && h.extent2 != 0 && h.dtype in {BITPACKED, RLE} && h.frameCount != 0 && h.startFrame != NON_FRAME_START
    else if h.blockType == EMBEDDING then
      h.extent0 != 0 && h.extent1 != 0 && h.extent2 == 1 && h.dtype == FLOAT32 && h.frameCount == 0 && h.startFrame == NON_FRAME_START
    else true
  }

  predicate ExtentMatches(h: Header, options: Options) {
    options.requiredExtent.Some? && h.blockType in {DEPTH, MASK} ==>
      h.extent0 == options.requiredExtent.value.0 && h.extent1 == options.requiredExtent.value.1
  }

  function IssueIf(bad: bool, kind: IssueKind, offset: nat): seq<Issue> {
    if bad then [Issue(kind, offset)] else []
  }

  function FixedFieldIssues(b: seq<byte>, h: Header, offset: nat): seq<Issue>
    requires |b| == HEADER_SIZE
  {
    IssueIf(!Holds(b, 0, MAGIC), InvalidHeader, offset)
    + IssueIf(h.version != 1, InvalidHeader, offset)
    + IssueIf(h.headerSize != HEADER_SIZE, InvalidHeader, offset)
    + IssueIf(h.compression != 1, InvalidHeader, offset)
    + IssueIf(h.endian != 1, InvalidHeader, offset)
    + IssueIf(h.flags != 0, InvalidHeader, offset)
    + IssueIf(!Holds(b, 140, Zeros(20)), InvalidHeader, offset)
  }

  function ContentIssues(h: Header, options: Options, offset: nat): seq<Issue>
    requires h.Fits()
  {
    IssueIf(options.requiredBlockType.Some? && h.blockType != options.requiredBlockType.value, InvalidHeader, offset)
    + IssueIf(h.compressedSize == 0 || h.uncompressedSize == 0, InvalidHeader, offset)
    + IssueIf(h.compressedSize > options.maxCompressed, InvalidHeader, offset)
    + IssueIf(h.uncompressedSize > options.maxUncompressed, InvalidHeader, offset)
    + IssueIf(!TimeRangeValid(h), InvalidHeader, offset)
    + IssueIf(!SizeMatches(h), InvalidHeader, offset)
    + IssueIf(!ShapeValid(h), InvalidHeader, offset)
    + IssueIf(!ExtentMatches(h, options), RasterExtentMismatch, offset)
  }

  /** A block of another type gets no further checks. */
  function HeaderIssues(b: seq<byte>, h: Header, options: Options, offset: nat): seq<Issue>
    requires |b| == HEADER_SIZE && h.Fits()
  {
    FixedFieldIssues(b, h, offset)
    + if h.blockType !in {DEPTH, MASK, EMBEDDING} then [Issue(ForbiddenBlockType, offset)] else ContentIssues(h, options, offset)
  }

  // ---- What a valid header is, in plain arithmetic ----

  /** The size the dimensions give, without any bound on numbers. */
  predicate ExactSize(h: Header) {
    if h.blockType == DEPTH then h.uncompressedSize == h.extent0 * h.extent1 * h.frameCount * 2
    else if h.blockType == EMBEDDING then h.uncompressedSize == h.extent0 * h.extent1 * 4
    else if h.blockType == MASK && h.dtype == BITPACKED then h.uncompressedSize == (h.extent0 * h.extent1 * h.extent2 + 7) / 8
    else true
  }

  /** Type, sizes, times, dimensions and frames are what a block of its type may have, and what the options ask for. */
  predicate ContentValid(h: Header, options: Options) {
    && 0 < h.compressedSize <= options.maxCompressed
    && 0 < h.uncompressedSize <= options.maxUncompressed
    && ExactSize(h)
    && (options.requiredBlockType.Some? ==> h.blockType == options.requiredBlockType.value)
    && (h.startUs != -1 || h.endUs != -1 ==> 0 <= h.startUs < h.endUs)
    && h.extent0 > 0 && h.extent1 > 0
    && (h.blockType == DEPTH ==> h.extent2 == 1 && h.dtype == UINT16)
    && (h.blockType == MASK ==> h.extent2 > 0 && (h.dtype == BITPACKED || h.dtype == RLE))
    && (h.blockType == EMBEDDING ==> h.extent2 == 1 && h.dtype == FLOAT32)
    && match h.blockType
       case 1 | 2 =>
         && h.frameCount > 0 && h.startFrame != NON_FRAME_START
         && (options.requiredExtent.Some? ==> options.requiredExtent.value == (h.extent0, h.extent1))
       case 3 => h.frameCount == 0 && h.startFrame == NON_FRAME_START
       case _ => false
  }

  lemma ProductGrows(a: nat, b: nat, c: nat)
    requires a <= c
    ensures a * b <= c * b
  {
    assert c * b == a * b + (c - a) * b;
  }

  lemma ExtentsFit(a: nat, b: nat)
    requires a < 0x1_0000_0000 && b < 0x1_0000_0000
    ensures a * b < TWO_64
  {
    ProductGrows(a, b, 0xFFFF_FFFF);
  }

  lemma TimesIs(a: nat, b: nat)
    requires a < TWO_64 && b < TWO_64
    ensures Times(Some(a), b) == if a * b < TWO_64 then Some(a * b) else None
  {
  }

  lemma PixelsAre(h: Header) returns (pixels: nat)
    requires h.Fits()
    ensures pixels == h.extent0 * h.extent1 < TWO_64 && CheckedMultiply(h.extent0, h.extent1) == Some(pixels)
  {
    pixels := AreaFits(h.extent0, h.extent1);
  }

  lemma AreaFits(a: nat, b: nat) returns (product: nat)
    requires a < 0x1_0000_0000 && b < 0x1_0000_0000
    ensures product == a * b < TWO_64 && CheckedMultiply(a, b) == Some(product)
  {
    ExtentsFit(a, b);
    product := a * b;
  }

  lemma DepthSizeIsExact(h: Header)
    requires h.Fits() && h.blockType == DEPTH
    ensures SizeMatches(h) <==> ExactSize(h)
  {
    hide Times, CheckedMultiply;
    var pixels := PixelsAre(h);
    TimesIs(pixels, h.frameCount);
    var samples := pixels * h.frameCount;
    if samples < TWO_64 { TimesIs(samples, 2); } else { assert Times(None, 2) == None by { NoneTimes(2); } }
  }

  lemma NoneTimes(b: nat)
    requires b < TWO_64
    ensures Times(None, b) == None
  {
  }

  lemma EmbeddingSizeIsExact(h: Header)
    requires h.Fits() && h.blockType == EMBEDDING
    ensures SizeMatches(h) <==> ExactSize(h)
  {
    hide Times, CheckedMultiply;
    var pixels := PixelsAre(h);
    TimesIs(pixels, 4);
  }

  /** Rounding the samples of a bit-packed mask up to whole bytes stays within 64 bits. */
  predicate RoundsWithin64Bits(h: Header) {
    h.blockType == MASK && h.dtype == BITPACKED ==> h.extent0 * h.extent1 * h.extent2 + 7 < TWO_64
  }

  lemma MaskSizeIsExact(h: Header)
    requires h.Fits() && h.blockType == MASK && 0 < h.uncompressedSize
    ensures SizeMatches(h) <==> ExactSize(h) && RoundsWithin64Bits(h)
  {
    hide Times, CheckedMultiply;
    var pixels := PixelsAre(h);
    TimesIs(pixels, h.extent2);
    RoundedUp(pixels * h.extent2, h.uncompressedSize);
  }

  /** The wrapped addition of 7 cannot make an oversized mask look right. */
  lemma RoundedUp(samples: nat, size: nat)
    requires 0 < size
    ensures (samples < TWO_64 && (samples + 7) % TWO_64 / 8 == size) <==> ((samples + 7) / 8 == size && samples + 7 < TWO_64)
  {
    if samples < TWO_64 <= samples + 7 {
      assert (samples + 7) % TWO_64 == samples + 7 - TWO_64;
    }
  }

  /** Checking sizes in 64 bits is checking them exactly if and only if rounding up a mask stays within 64 bits. */
  lemma SizeCheckIsExactWithin64Bits(h: Header)
    requires h.Fits() && 0 < h.uncompressedSize
    ensures SizeMatches(h) <==> ExactSize(h) && RoundsWithin64Bits(h)
  {
    hide SizeMatches, ExactSize;
    if h.blockType == DEPTH { DepthSizeIsExact(h); }
    else if h.blockType == EMBEDDING { EmbeddingSizeIsExact(h); }
    else if h.blockType == MASK { MaskSizeIsExact(h); }
    else { OtherSizes(h); }
  }

  /** Where it does not: a mask of 2^64 - 1 samples, whose size is right, is refused. */
  lemma RoundingCanWrap() returns (h: Header)
    ensures h.Fits() && 0 < h.uncompressedSize && ExactSize(h) && !SizeMatches(h)
  {
    var zeros: Digest := Zeros(32);
    h := Header(1, HEADER_SIZE, MASK, 1, 1, 0, 0x2000_0000_0000_0000, 1, 0xFFFF_FFFF, 641, 6700417, BITPACKED, 0, 1, -1, -1,
                zeros, zeros);
    assert 0xFFFF_FFFF * 641 * 6700417 == TWO_64 - 1;
    SizeCheckIsExactWithin64Bits(h);
  }

  /** A size guard below 2^61 bytes keeps every mask within 64 bits. */
  lemma SizeCheckIsExact(h: Header, options: Options)
    requires h.Fits() && options.maxUncompressed < 0x2000_0000_0000_0000
    requires 0 < h.uncompressedSize <= options.maxUncompressed
    ensures SizeMatches(h) <==> ExactSize(h)
  {
    SizeCheckIsExactWithin64Bits(h);
  }

  lemma OtherSizes(h: Header)
    requires h.Fits() && h.blockType !in {DEPTH, MASK, EMBEDDING}
    ensures SizeMatches(h) && ExactSize(h)
  {
  }

  /** A header draws no issue exactly when its fixed fields are right, its content is valid, and its size is one
      that 64 bits can round up to. */
  lemma HeaderCheckIsExact(b: seq<byte>, h: Header, options: Options, offset: nat)
    requires |b| == HEADER_SIZE && h.Fits()
    ensures HeaderIssues(b, h, options, offset) == [] <==>
              && Holds(b, 0, MAGIC) && Holds(b, 140, Zeros(20))
              && h.version == 1 && h.headerSize == HEADER_SIZE && h.compression == 1 && h.endian == 1 && h.flags == 0
              && ContentValid(h, options) && RoundsWithin64Bits(h)
  {
    hide Holds, SizeMatches, ExactSize, RoundsWithin64Bits;
    if 0 < h.uncompressedSize { SizeCheckIsExactWithin64Bits(h); }
  }

  // ---- One block on disk ----

  /** The header of a block, given the digests. */
  function HeaderOf(spec: BlockSpec, uncompressed: nat, compressed: nat, payloadDigest: Digest, headerDigest: Digest): Header {
    Header(1, HEADER_SIZE, spec.blockType, 1, 1, 0, uncompressed, compressed,
           spec.extent0, spec.extent1, spec.extent2, spec.dtype, spec.startFrame, spec.frameCount,
           spec.startUs, spec.endUs, payloadDigest, headerDigest)
  }

  /** The header bytes with the header digest's own field zeroed, which is what is digested. */
  function Blanked(b: seq<byte>): seq<byte>
    requires |b| == HEADER_SIZE
  {
    b[..108] + Zeros(32) + b[140..]
  }

  predicate Writable(spec: BlockSpec, payload: seq<byte>, compressed: seq<byte>) {
    spec.Fits() && 0 < |payload| < TWO_64 && 0 < |compressed| < TWO_64
  }

  /** `spec` and `payload` are stored at `offset`. */
  ghost predicate BlockAt(c: Codec, stream: seq<byte>, offset: nat, spec: BlockSpec, payload: seq<byte>) {
    var compressed := c.compress(payload);
    && Writable(spec, payload, compressed)
    && offset + HEADER_SIZE + |compressed| <= |stream|
    && stream[offset + HEADER_SIZE..offset + HEADER_SIZE + |compressed|] == compressed
    && var b := stream[offset..offset + HEADER_SIZE];
       Encodes(b, HeaderOf(spec, |payload|, |compressed|, c.digest(compressed), c.digest(Blanked(b))))
  }

  lemma BlockStays(c: Codec, stream: seq<byte>, more: seq<byte>, offset: nat, spec: BlockSpec, payload: seq<byte>)
    requires BlockAt(c, stream, offset, spec, payload)
    ensures BlockAt(c, stream + more, offset, spec, payload)
  {
    hide Encodes, HeaderOf, Writable, Blanked;
    var n := |c.compress(payload)|;
    assert (stream + more)[offset..offset + HEADER_SIZE] == stream[offset..offset + HEADER_SIZE];
    assert (stream + more)[offset + HEADER_SIZE..offset + HEADER_SIZE + n] == stream[offset + HEADER_SIZE..offset + HEADER_SIZE + n];
  }

  // ---- The writer ----

  /** Fills a zeroed header in place; its digest is taken while its own field is still zero. */
  method MakeBlockHeader(c: Codec, spec: BlockSpec, uncompressed: nat, compressed: nat, payloadDigest: Digest)
    returns (header: array<byte>)
    requires spec.Fits() && uncompressed < TWO_64 && compressed < TWO_64
    ensures header.Length == HEADER_SIZE
    ensures Encodes(header[..], HeaderOf(spec, uncompressed, compressed, payloadDigest, c.digest(Blanked(header[..]))))
  {
    header := new byte[HEADER_SIZE](_ => 0);
    var draft := HeaderOf(spec, uncompressed, compressed, payloadDigest, payloadDigest);
    WriteFields(header, draft);
    ghost var filled := header[..];
    AlreadyBlank(filled);
    var headerDigest := c.digest(header[..]);
    WriteBytes(header, 108, headerDigest);
    ghost var h := draft.(headerDigest := headerDigest);
    SameFilled(filled, draft, headerDigest);
    FilledStays(filled, header[..], h);
    SameBlanked(filled, header[..]);
  }

  lemma SameFilled(b: seq<byte>, h: Header, headerDigest: Digest)
    requires h.Fits() && Filled(b, h)
    ensures h.(headerDigest := headerDigest).Fits() && Filled(b, h.(headerDigest := headerDigest))
  {
    hide Field, Holds;
  }

  lemma AlreadyBlank(b: seq<byte>)
    requires |b| == HEADER_SIZE && Holds(b, 108, Zeros(32))
    ensures Blanked(b) == b
  {
    assert b == b[..108] + b[108..140] + b[140..];
  }

  lemma SameBlanked(a: seq<byte>, b: seq<byte>)
    requires |a| == |b| == HEADER_SIZE && Outside(a, b, 108, 140)
    ensures Blanked(a) == Blanked(b)
  {
    assert Holds(a, 0, a[..108]) && Holds(a, 140, a[140..]);
    assert Holds(b, 0, a[..108]) && Holds(b, 140, a[140..]);
  }

  datatype WriteError = EmptyPayload | EmptyFrame

  datatype WrittenBlock = WrittenBlock(blockOffset: nat, blockLength: nat, payloadOffset: nat, uncompressedSize: nat, compressedSize: nat,
                                       payloadDigest: Digest, headerDigest: Digest)

  /** Appends one block and says where it is. */
  method WriteBlock(c: Codec, stream: seq<byte>, spec: BlockSpec, payload: seq<byte>)
    returns (r: Result<WrittenBlock, WriteError>, longer: seq<byte>)
    requires spec.Fits() && |payload| < TWO_64 && |c.compress(payload)| < TWO_64
    ensures r.Ok? <==> payload != [] && c.compress(payload) != []
    ensures r.Err? ==> longer == stream
    ensures r.Ok? ==>
              && stream <= longer && |longer| == |stream| + r.value.blockLength
              && BlockAt(c, longer, |stream|, spec, payload)
              && r.value.blockOffset == |stream| && r.value.blockLength == HEADER_SIZE + |c.compress(payload)|
              && r.value.payloadOffset == |stream| + HEADER_SIZE
              && r.value.uncompressedSize == |payload| && r.value.compressedSize == |c.compress(payload)|
              && r.value.payloadDigest == c.digest(c.compress(payload))
              && r.value.headerDigest == Parse(longer[|stream|..|stream| + HEADER_SIZE]).headerDigest
  {
    if payload == [] {
      return Err(EmptyPayload), stream;
    }
    var compressed := c.compress(payload);
    if compressed == [] {
      return Err(EmptyFrame), stream;
    }
    var payloadDigest := c.digest(compressed);
    var header := MakeBlockHeader(c, spec, |payload|, |compressed|, payloadDigest);
    longer := stream + header[..] + compressed;
    assert longer[|stream|..|stream| + HEADER_SIZE] == header[..];
    assert longer[|stream| + HEADER_SIZE..|stream| + HEADER_SIZE + |compressed|] == compressed;
    EncodedParses(header[..], HeaderOf(spec, |payload|, |compressed|, payloadDigest, c.digest(Blanked(header[..]))));
    r := Ok(WrittenBlock(|stream|, HEADER_SIZE + |compressed|, |stream| + HEADER_SIZE, |payload|, |compressed|, payloadDigest,
                         c.digest(Blanked(header[..]))));
  }

  // ---- The parser ----

  function HeaderAt(stream: seq<byte>, offset: nat): (h: Header)
    requires offset + HEADER_SIZE <= |stream|
    ensures h.Fits()
  {
    var b := stream[offset..offset + HEADER_SIZE];
    ParseFits(b);
    Parse(b)
  }

  lemma ParseFits(b: seq<byte>)
    requires |b| == HEADER_SIZE
    ensures Parse(b).Fits()
  {
    hide FromLe, Pow256, Read;
    PowersOf256();
    OneByte();
    ReadIsField(b, 4, 2); ReadIsField(b, 6, 2); ReadIsField(b, 8, 1); ReadIsField(b, 9, 1);
    ReadIsField(b, 10, 1); ReadIsField(b, 11, 1); ReadIsField(b, 12, 8); ReadIsField(b, 20, 8);
    ReadIsField(b, 28, 4); ReadIsField(b, 32, 4); ReadIsField(b, 36, 4); ReadIsField(b, 40, 4);
    ReadIsField(b, 44, 8); ReadIsField(b, 52, 8); ReadIsField(b, 60, 8); ReadIsField(b, 68, 8);
  }

  /** The issues of a header: its fields, and its digest. */
  function IssuesAt(c: Codec, options: Options, stream: seq<byte>, offset: nat): seq<Issue>
    requires offset + HEADER_SIZE <= |stream|
  {
    var b, h := stream[offset..offset + HEADER_SIZE], HeaderAt(stream, offset);
    HeaderIssues(b, h, options, offset)
    + IssueIf(options.verifyHashes && c.digest(Blanked(b)) != h.headerDigest, InvalidHash, offset)
  }

  /** Decompression stops at an error or at too many bytes, before the digest is known; that a frame is cut off or
      that bytes are missing is found after it. */
  function PayloadIssues(c: Codec, options: Options, h: Header, payload: seq<byte>, offset: nat): seq<Issue> {
    var expanded := c.expand(payload);
    var broken := expanded.NotZstd? || |expanded.bytes| > h.uncompressedSize;
    IssueIf(options.verifyZstd && broken, DecompressionFailed, offset)
    + IssueIf(options.verifyHashes && c.digest(payload) != h.payloadDigest, InvalidHash, offset)
    + IssueIf(options.verifyZstd && !broken && expanded.Partial?, DecompressionFailed, offset)
    + IssueIf(options.verifyZstd && !broken && |expanded.bytes| != h.uncompressedSize, DecompressionFailed, offset)
  }

  predicate OverGuard(options: Options, h: Header) {
    h.compressedSize > options.maxCompressed || h.uncompressedSize > options.maxUncompressed
  }

  function Joined(a: ParseResult, b: ParseResult): ParseResult {
    ParseResult(a.blocks + b.blocks, a.issues + b.issues)
  }

  lemma JoinedIsAssociative(a: ParseResult, b: ParseResult, d: ParseResult)
    ensures Joined(Joined(a, b), d) == Joined(a, Joined(b, d))
  {
    assert a.blocks + b.blocks + d.blocks == a.blocks + (b.blocks + d.blocks);
    assert a.issues + b.issues + d.issues == a.issues + (b.issues + d.issues);
  }

  function AtHeader(c: Codec, options: Options, stream: seq<byte>, offset: nat): ParseResult
    requires offset + HEADER_SIZE <= |stream|
  {
    ParseResult([Block(offset, HeaderAt(stream, offset))], IssuesAt(c, options, stream, offset))
  }

  function AtPayload(c: Codec, options: Options, stream: seq<byte>, offset: nat): ParseResult
    requires offset + HEADER_SIZE <= |stream| && offset + HEADER_SIZE + HeaderAt(stream, offset).compressedSize <= |stream|
  {
    var h, start := HeaderAt(stream, offset), offset + HEADER_SIZE;
    ParseResult([], PayloadIssues(c, options, h, stream[start..start + h.compressedSize], start))
  }

  function OneIssue(offset: nat): ParseResult {
    ParseResult([], [Issue(InvalidHeader, offset)])
  }

  /** What parsing finds from `offset` on. */
  function ParseFrom(c: Codec, options: Options, stream: seq<byte>, offset: nat): ParseResult
    decreases |stream| - offset
  {
    if offset >= |stream| then ParseResult([], [])
    else if |stream| - offset < HEADER_SIZE then OneIssue(offset)
    else
      var h, here := HeaderAt(stream, offset), AtHeader(c, options, stream, offset);
      var next := offset + HEADER_SIZE + h.compressedSize;
      if next > |stream| then Joined(here, OneIssue(offset))
      else if OverGuard(options, h) then here
      else Joined(here, Joined(AtPayload(c, options, stream, offset), ParseFrom(c, options, stream, next)))
  }

  function ParseStream(c: Codec, options: Options, stream: seq<byte>): ParseResult {
    if stream == [] then ParseResult([], IssueIf(!options.allowEmpty, InvalidHeader, 0)) else ParseFrom(c, options, stream, 0)
  }

  lemma JoinedEmpty(a: ParseResult)
    ensures Joined(a, ParseResult([], [])) == a && Joined(ParseResult([], []), a) == a
  {
  }

  method ParseBlockStream(c: Codec, options: Options, stream: seq<byte>) returns (result: ParseResult)
    ensures result == ParseStream(c, options, stream)
  {
    if stream == [] {
      return ParseResult([], IssueIf(!options.allowEmpty, InvalidHeader, 0));
    }
    result := ParseResult([], []);
    var offset := 0;
    JoinedEmpty(ParseFrom(c, options, stream, 0));
    while offset < |stream|
      invariant 0 <= offset <= |stream|
      invariant ParseFrom(c, options, stream, 0) == Joined(result, ParseFrom(c, options, stream, offset))
      decreases |stream| - offset
    {
      hide IssuesAt, PayloadIssues, Parse, Joined;
      if |stream| - offset < HEADER_SIZE {
        return Joined(result, OneIssue(offset));
      }
      var h, here := HeaderAt(stream, offset), AtHeader(c, options, stream, offset);
      ghost var before := result;
      result := Joined(result, here);
      var next := offset + HEADER_SIZE + h.compressedSize;
      if next > |stream| {
        JoinedIsAssociative(before, here, OneIssue(offset));
        return Joined(result, OneIssue(offset));
      }
      if OverGuard(options, h) {
        return;
      }
      var payload := AtPayload(c, options, stream, offset);
      ghost var rest := ParseFrom(c, options, stream, next);
      JoinedIsAssociative(before, here, Joined(payload, rest));
      JoinedIsAssociative(result, payload, rest);
      result := Joined(result, payload);
      offset := next;
    }
    JoinedEmpty(result);
  }

  // ---- Round trip ----

  datatype Input = Input(spec: BlockSpec, payload: seq<byte>)

  /** Block `i` of the stream is `inputs[i]`, at `offsets[i]`, up to where the next begins. */
  ghost predicate WrittenAt(c: Codec, stream: seq<byte>, inputs: seq<Input>, offsets: seq<nat>, i: nat) {
    i < |inputs| && i + 1 < |offsets| ==>
      && BlockAt(c, stream, offsets[i], inputs[i].spec, inputs[i].payload)
      && offsets[i + 1] == offsets[i] + HEADER_SIZE + |c.compress(inputs[i].payload)|
  }

  ghost predicate Written(c: Codec, stream: seq<byte>, inputs: seq<Input>, offsets: seq<nat>) {
    && |offsets| == |inputs| + 1 && offsets[0] == 0 && offsets[|inputs|] == |stream|
    && forall i :: WrittenAt(c, stream, inputs, offsets, i)
  }

  /** Writing blocks one after the other. */
  method WriteAll(c: Codec, inputs: seq<Input>) returns (stream: seq<byte>, infos: seq<WrittenBlock>, ghost offsets: seq<nat>)
    requires forall i :: 0 <= i < |inputs| ==> Writable(inputs[i].spec, inputs[i].payload, c.compress(inputs[i].payload))
    ensures Written(c, stream, inputs, offsets)
    ensures |infos| == |inputs| && forall i :: 0 <= i < |infos| ==> infos[i].blockOffset == offsets[i]
  {
    hide BlockAt, Parse;
    stream, infos, offsets := [], [], [0];
    for n := 0 to |inputs|
      invariant |offsets| == n + 1 && offsets[0] == 0 && offsets[n] == |stream|
      invariant |infos| == n && forall i :: 0 <= i < n ==> infos[i].blockOffset == offsets[i]
      invariant forall i: nat :: i < n ==> WrittenAt(c, stream, inputs, offsets, i)
    {
      ghost var before, earlier := stream, offsets;
      var r, longer := WriteBlock(c, stream, inputs[n].spec, inputs[n].payload);
      stream := longer;
      infos := infos + [r.value];
      offsets := offsets + [|stream|];
      forall i: nat | i < n + 1 ensures WrittenAt(c, stream, inputs, offsets, i) {
        if i < n {
          assert WrittenAt(c, before, inputs, earlier, i);
          assert stream == before + stream[|before|..];
          BlockStays(c, before, stream[|before|..], offsets[i], inputs[i].spec, inputs[i].payload);
        }
      }
    }
  }

  /** The parsed header of a written block: its spec, its sizes and its digests. */
  lemma WrittenHeader(c: Codec, stream: seq<byte>, offset: nat, spec: BlockSpec, payload: seq<byte>)
    requires BlockAt(c, stream, offset, spec, payload)
    ensures var h, compressed := HeaderAt(stream, offset), c.compress(payload);
            && h == HeaderOf(spec, |payload|, |compressed|, c.digest(compressed), c.digest(Blanked(stream[offset..offset + HEADER_SIZE])))
            && Holds(stream[offset..offset + HEADER_SIZE], 0, MAGIC) && Holds(stream[offset..offset + HEADER_SIZE], 140, Zeros(20))
  {
    hide Field, Holds, Parse;
    var b := stream[offset..offset + HEADER_SIZE];
    var compressed := c.compress(payload);
    EncodedParses(b, HeaderOf(spec, |payload|, |compressed|, c.digest(compressed), c.digest(Blanked(b))));
  }

  /** The content of a block is valid whatever its digests. */
  ghost predicate Acceptable(c: Codec, options: Options, input: Input) {
    var compressed := c.compress(input.payload);
    && Writable(input.spec, input.payload, compressed)
    && var h := HeaderOf(input.spec, |input.payload|, |compressed|, c.digest(compressed), c.digest([]));
       ContentValid(h, options) && RoundsWithin64Bits(h)
  }

  lemma NoIssuesAt(c: Codec, options: Options, stream: seq<byte>, offset: nat, input: Input)
    requires c.RoundTrips()
    requires BlockAt(c, stream, offset, input.spec, input.payload) && Acceptable(c, options, input)
    ensures IssuesAt(c, options, stream, offset) == []
    ensures var h := HeaderAt(stream, offset);
            && !OverGuard(options, h) && h.compressedSize == |c.compress(input.payload)|
            && PayloadIssues(c, options, h, c.compress(input.payload), offset + HEADER_SIZE) == []
  {
    hide HeaderIssues, Parse, Holds;
    WrittenHeader(c, stream, offset, input.spec, input.payload);
    HeaderCheckIsExact(stream[offset..offset + HEADER_SIZE], HeaderAt(stream, offset), options, offset);
    assert c.expand(c.compress(input.payload)) == Whole(input.payload);
  }

  /** What the parser must report for a written block. */
  function BlockOf(c: Codec, stream: seq<byte>, offset: nat, input: Input): Block
    requires offset + HEADER_SIZE <= |stream|
  {
    var compressed := c.compress(input.payload);
    Block(offset, HeaderOf(input.spec, |input.payload|, |compressed|, c.digest(compressed),
                           c.digest(Blanked(stream[offset..offset + HEADER_SIZE]))))
  }

  /** Parsing at a written block reports it without an issue and goes on where it ends. */
  lemma NextIsParsed(c: Codec, options: Options, stream: seq<byte>, offset: nat, input: Input)
    requires c.RoundTrips()
    requires BlockAt(c, stream, offset, input.spec, input.payload) && Acceptable(c, options, input)
    ensures offset + HEADER_SIZE <= |stream|
    ensures var rest := ParseFrom(c, options, stream, offset + HEADER_SIZE + |c.compress(input.payload)|);
            ParseFrom(c, options, stream, offset) == ParseResult([BlockOf(c, stream, offset, input)] + rest.blocks, rest.issues)
  {
    hide IssuesAt, PayloadIssues, Parse, Holds, Field;
    NoIssuesAt(c, options, stream, offset, input);
    WrittenHeader(c, stream, offset, input.spec, input.payload);
    var rest := ParseFrom(c, options, stream, offset + HEADER_SIZE + |c.compress(input.payload)|);
    JoinedEmpty(rest);
    assert AtPayload(c, options, stream, offset) == ParseResult([], []);
    assert [] + rest.issues == rest.issues;
  }

  /** The `k`-th reported block is `inputs[n + k]`, at the offset the writer put it. */
  ghost predicate ReportedAt(c: Codec, stream: seq<byte>, inputs: seq<Input>, offsets: seq<nat>, n: nat, blocks: seq<Block>, k: nat) {
    k < |blocks| && n + k < |inputs| && n + k < |offsets| ==>
      offsets[n + k] + HEADER_SIZE <= |stream| && blocks[k] == BlockOf(c, stream, offsets[n + k], inputs[n + k])
  }

  ghost predicate Reported(c: Codec, stream: seq<byte>, inputs: seq<Input>, offsets: seq<nat>, n: nat, blocks: seq<Block>) {
    |blocks| + n == |inputs| && forall k :: ReportedAt(c, stream, inputs, offsets, n, blocks, k)
  }

  lemma ReportedMore(c: Codec, stream: seq<byte>, inputs: seq<Input>, offsets: seq<nat>, n: nat, blocks: seq<Block>)
    requires n < |inputs| && n < |offsets| && Reported(c, stream, inputs, offsets, n + 1, blocks)
    requires offsets[n] + HEADER_SIZE <= |stream|
    ensures Reported(c, stream, inputs, offsets, n, [BlockOf(c, stream, offsets[n], inputs[n])] + blocks)
  {
    hide BlockOf;
    var more := [BlockOf(c, stream, offsets[n], inputs[n])] + blocks;
    forall k: nat ensures ReportedAt(c, stream, inputs, offsets, n, more, k) {
      if k > 0 { assert ReportedAt(c, stream, inputs, offsets, n + 1, blocks, k - 1); }
    }
  }

  lemma {:induction false} ParsesFrom(c: Codec, options: Options, stream: seq<byte>, inputs: seq<Input>, offsets: seq<nat>, n: nat)
    requires c.RoundTrips()
    requires Written(c, stream, inputs, offsets) && n <= |inputs| && |offsets| == |inputs| + 1
    requires forall i :: 0 <= i < |inputs| ==> Acceptable(c, options, inputs[i])
    ensures var result := ParseFrom(c, options, stream, offsets[n]);
            result.issues == [] && Reported(c, stream, inputs, offsets, n, result.blocks)
    decreases |inputs| - n
  {
    hide ParseFrom, BlockAt, Acceptable, Reported, BlockOf, Written, Codec.RoundTrips;
    if n < |inputs| {
      WrittenNext(c, stream, inputs, offsets, n);
      NextIsParsed(c, options, stream, offsets[n], inputs[n]);
      ParsesFrom(c, options, stream, inputs, offsets, n + 1);
      ReportedMore(c, stream, inputs, offsets, n, ParseFrom(c, options, stream, offsets[n + 1]).blocks);
    } else {
      NothingLeft(c, options, stream, inputs, offsets);
    }
  }

  lemma WrittenNext(c: Codec, stream: seq<byte>, inputs: seq<Input>, offsets: seq<nat>, n: nat)
    requires Written(c, stream, inputs, offsets) && n < |inputs|
    ensures BlockAt(c, stream, offsets[n], inputs[n].spec, inputs[n].payload)
    ensures offsets[n + 1] == offsets[n] + HEADER_SIZE + |c.compress(inputs[n].payload)|
  {
    assert WrittenAt(c, stream, inputs, offsets, n);
  }

  lemma NothingLeft(c: Codec, options: Options, stream: seq<byte>, inputs: seq<Input>, offsets: seq<nat>)
    requires Written(c, stream, inputs, offsets)
    ensures ParseFrom(c, options, stream, offsets[|inputs|]) == ParseResult([], [])
    ensures Reported(c, stream, inputs, offsets, |inputs|, [])
  {
  }

  /** Round trip: a stream of written blocks parses without an issue, to the last byte, into headers equal
      field by field to what was written, at exactly the offsets the writer reported. */
  lemma StreamRoundTrips(c: Codec, options: Options, stream: seq<byte>, inputs: seq<Input>, offsets: seq<nat>)
    requires c.RoundTrips()
    requires Written(c, stream, inputs, offsets) && inputs != []
    requires forall i :: 0 <= i < |inputs| ==> Acceptable(c, options, inputs[i])
    ensures var result := ParseStream(c, options, stream);
            && result.issues == [] && |result.blocks| == |inputs|
            && forall i :: 0 <= i < |inputs| ==>
                 offsets[i] + HEADER_SIZE <= |stream| && result.blocks[i] == BlockOf(c, stream, offsets[i], inputs[i])
  {
    hide ParseFrom, BlockAt, Acceptable, BlockOf;
    assert WrittenAt(c, stream, inputs, offsets, 0);
    ParsesFrom(c, options, stream, inputs, offsets, 0);
    SomethingWritten(c, stream, offsets[0], inputs[0]);
    var blocks := ParseFrom(c, options, stream, 0).blocks;
    forall i | 0 <= i < |inputs| ensures offsets[i] + HEADER_SIZE <= |stream| && blocks[i] == BlockOf(c, stream, offsets[i], inputs[i]) {
      assert ReportedAt(c, stream, inputs, offsets, 0, blocks, i);
    }
  }

  lemma SomethingWritten(c: Codec, stream: seq<byte>, offset: nat, input: Input)
    requires BlockAt(c, stream, offset, input.spec, input.payload)
    ensures stream != []
  {
  }

  // ---- What the parser accepts ----

  /** A valid block begins at `offset`: canonical header bytes, valid content, and a payload that matches it. */
  ghost predicate ValidBlock(c: Codec, options: Options, stream: seq<byte>, offset: nat) {
    && offset + HEADER_SIZE <= |stream|
    && var b, h, start := stream[offset..offset + HEADER_SIZE], HeaderAt(stream, offset), offset + HEADER_SIZE;
       && Encodes(b, h) && h.version == 1 && h.headerSize == HEADER_SIZE && h.compression == 1 && h.endian == 1 && h.flags == 0
       && ContentValid(h, options) && RoundsWithin64Bits(h)
       && start + h.compressedSize <= |stream|
       && var payload := stream[start..start + h.compressedSize];
          && (options.verifyHashes ==> h.headerDigest == c.digest(Blanked(b)) && h.payloadDigest == c.digest(payload))
          && (options.verifyZstd ==> c.expand(payload).Whole? && |c.expand(payload).bytes| == h.uncompressedSize)
  }

  /** From `offset` the stream is valid blocks end to end. */
  ghost predicate WellFormed(c: Codec, options: Options, stream: seq<byte>, offset: nat)
    decreases |stream| - offset
  {
    || offset == |stream|
    || (ValidBlock(c, options, stream, offset)
        && WellFormed(c, options, stream, offset + HEADER_SIZE + HeaderAt(stream, offset).compressedSize))
  }

  lemma EncodesExactly(b: seq<byte>)
    requires |b| == HEADER_SIZE
    ensures Parse(b).Fits()
    ensures Encodes(b, Parse(b)) <==> Holds(b, 0, MAGIC) && Holds(b, 140, Zeros(20))
  {
    ParseFits(b);
    if Holds(b, 0, MAGIC) && Holds(b, 140, Zeros(20)) { ParsedEncodes(b); }
  }

  lemma BlockCheckIsExact(c: Codec, options: Options, stream: seq<byte>, offset: nat)
    requires offset + HEADER_SIZE <= |stream|
    ensures var h, start := HeaderAt(stream, offset), offset + HEADER_SIZE;
            ValidBlock(c, options, stream, offset) <==>
              && IssuesAt(c, options, stream, offset) == [] && start + h.compressedSize <= |stream| && !OverGuard(options, h)
              && PayloadIssues(c, options, h, stream[start..start + h.compressedSize], start) == []
  {
    hide HeaderIssues, Holds, Field, Filled, ExactSize, ShapeValid, Parse;
    var b := stream[offset..offset + HEADER_SIZE];
    EncodesExactly(b);
    HeaderCheckIsExact(b, HeaderAt(stream, offset), options, offset);
  }

  /** The parser reports no issue exactly for streams of valid blocks end to end. */
  lemma {:induction false} AcceptsExactly(c: Codec, options: Options, stream: seq<byte>, offset: nat)
    requires offset <= |stream|
    ensures ParseFrom(c, options, stream, offset).issues == [] <==> WellFormed(c, options, stream, offset)
    decreases |stream| - offset
  {
    hide ValidBlock, IssuesAt, PayloadIssues, Parse, OverGuard;
    if offset + HEADER_SIZE <= |stream| {
      BlockCheckIsExact(c, options, stream, offset);
      var h, next := HeaderAt(stream, offset), offset + HEADER_SIZE + HeaderAt(stream, offset).compressedSize;
      if next <= |stream| { AcceptsExactly(c, options, stream, next); }
      if OverGuard(options, h) { GuardIsAnIssue(c, options, stream, offset); }
    } else if offset < |stream| {
      TooShort(c, options, stream, offset);
    }
  }

  lemma GuardIsAnIssue(c: Codec, options: Options, stream: seq<byte>, offset: nat)
    requires offset + HEADER_SIZE <= |stream|
    requires OverGuard(options, HeaderAt(stream, offset))
    ensures IssuesAt(c, options, stream, offset) != []
  {
    hide HeaderIssues, Holds, Parse;
    HeaderCheckIsExact(stream[offset..offset + HEADER_SIZE], HeaderAt(stream, offset), options, offset);
  }

  lemma TooShort(c: Codec, options: Options, stream: seq<byte>, offset: nat)
    requires offset + HEADER_SIZE > |stream|
    ensures !ValidBlock(c, options, stream, offset)
  {
  }
}
