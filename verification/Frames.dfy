/**
 The wire format of protocol frames, its encoder and its incremental decoder (frame.hpp, frame_header.cpp,
 frame_encoder.cpp, frame_decoder.cpp).

   u32 big-endian H | H bytes of header | payload 0 | payload 1 ...

 The header text and BLAKE3 are parameters.
 */
module Frames {
  import opened Basics

  const MAX_U32: nat := 0xFFFF_FFFF
  const MAX_U64: nat := 0xFFFF_FFFF_FFFF_FFFF

  newtype u64 = x: int | 0 <= x <= 0xFFFF_FFFF_FFFF_FFFF

  type Digest = seq<byte>

  datatype Limits = Limits(maxHeaderBytes: nat, maxPayloadBytes: u64, maxTotalPayloadBytes: u64) {
    predicate Valid() { maxHeaderBytes <= MAX_U32 }

    /** The end of every frame can be counted in 64 bits, whatever its header says: there is no header, or nothing
        in the frame behind it, or the two together fit. */
    predicate EndFits() {
      maxHeaderBytes == 0 || maxPayloadBytes == 0 || 4 + maxHeaderBytes + maxTotalPayloadBytes as nat <= MAX_U64
    }
  }

  datatype Declaration = Declaration(bytes: u64, digest: Digest)

  datatype Meta = Meta(messageType: string, body: string)

  datatype Header = Header(meta: Meta, payloads: seq<Declaration>)

  datatype Frame = Frame(meta: Meta, payloads: seq<seq<byte>>)

  datatype FrameError =
    | Malformed
    | HeaderTooLarge
    | PayloadTooLarge
    | PayloadHashMismatch
    | Truncated
    | BadHeader
    | WrongType

  /** `isObject` says whether a body is a JSON object; `write` is the canonical header text, if the header has one; `read` its inverse. */
  datatype Codec = Codec(
    isObject: Meta -> bool,
    write: Header -> Option<seq<byte>>,
    read: seq<byte> -> Option<Header>,
    digest: seq<byte> -> Digest)
  {
    ghost predicate RoundTrips() {
      forall h :: write(h).Some? ==> write(h).value != [] && read(write(h).value) == Some(h)
    }
  }

  // ---- Payload limits ----

  function Total(payloads: seq<Declaration>): nat {
    if payloads == [] then 0 else Total(payloads[..|payloads| - 1]) + payloads[|payloads| - 1].bytes as nat
  }

  /** Every payload and their sum are within the limits. */
  predicate WithinLimits(payloads: seq<Declaration>, limits: Limits) {
    && (forall i :: 0 <= i < |payloads| ==> payloads[i].bytes <= limits.maxPayloadBytes)
    && Total(payloads) <= limits.maxTotalPayloadBytes as nat
  }

  lemma {:induction false} TotalGrows(payloads: seq<Declaration>, i: nat)
    requires i <= |payloads|
    ensures Total(payloads[..i]) <= Total(payloads)
  {
    if i < |payloads| {
      assert payloads[..|payloads| - 1][..i] == payloads[..i];
      TotalGrows(payloads[..|payloads| - 1], i);
    } else {
      assert payloads[..i] == payloads;
    }
  }

  /** The running total is kept in 64 bits and cannot wrap around: the limit is checked by subtraction. */
  method CheckPayloadLimits(payloads: seq<Declaration>, limits: Limits) returns (ok: bool)
    ensures ok <==> WithinLimits(payloads, limits)
  {
    var total: u64 := 0;
    for i := 0 to |payloads|
      invariant total as nat == Total(payloads[..i]) <= limits.maxTotalPayloadBytes as nat
      invariant forall k :: 0 <= k < i ==> payloads[k].bytes <= limits.maxPayloadBytes
    {
      assert payloads[..i + 1][..i] == payloads[..i];
      if payloads[i].bytes > limits.maxPayloadBytes {
        return false;
      }
      if total > limits.maxTotalPayloadBytes || payloads[i].bytes > limits.maxTotalPayloadBytes - total {
        TotalGrows(payloads, i + 1);
        return false;
      }
      total := total + payloads[i].bytes;
    }
    assert payloads[..|payloads|] == payloads;
    return true;
  }

  // ---- Big-endian lengths ----

  function BigEndian(bytes: seq<byte>): nat {
    if bytes == [] then 0 else BigEndian(bytes[..|bytes| - 1]) * 256 + bytes[|bytes| - 1] as nat
  }

  method ReadBigEndianU32(bytes: seq<byte>) returns (value: nat)
    requires |bytes| >= 4
    ensures value == BigEndian(bytes[..4])
  {
    value := 0;
    for index := 0 to 4
      invariant value == BigEndian(bytes[..index])
    {
      assert bytes[..index + 1][..index] == bytes[..index];
      value := value * 256 + bytes[index] as nat;
    }
  }

  function Shift(index: nat): (divisor: nat)
    ensures divisor > 0
  {
    if index == 0 then 1 else 256 * Shift(index - 1)
  }

  /** The four bytes of a 32-bit length, most significant first. */
  function U32Bytes(value: nat): (bytes: seq<byte>)
    ensures |bytes| == 4
  {
    [(value / 0x100_0000 % 256) as byte, (value / 0x1_0000 % 256) as byte, (value / 0x100 % 256) as byte, (value % 256) as byte]
  }

  lemma Digits(value: nat)
    requires value <= MAX_U32
    ensures ((value / 0x100_0000 % 256 * 256 + value / 0x1_0000 % 256) * 256 + value / 0x100 % 256) * 256 + value % 256 == value
  {
    var a, b, c := value / 0x100, value / 0x1_0000, value / 0x100_0000;
    assert value == 256 * a + value % 256;
    assert a == 256 * b + a % 256;
    assert b == 256 * c + b % 256;
    assert c % 256 == c;
  }

  lemma BigEndianSnoc(bytes: seq<byte>, last: byte)
    ensures BigEndian(bytes + [last]) == BigEndian(bytes) * 256 + last as nat
  {
    assert (bytes + [last])[..|bytes|] == bytes;
  }

  lemma U32RoundTrips(value: nat)
    requires value <= MAX_U32
    ensures BigEndian(U32Bytes(value)) == value
  {
    hide BigEndian;
    var b := U32Bytes(value);
    assert b == [] + [b[0]] + [b[1]] + [b[2]] + [b[3]];
    assert BigEndian([]) == 0 by { NoBytes(); }
    BigEndianSnoc([], b[0]);
    BigEndianSnoc([] + [b[0]], b[1]);
    BigEndianSnoc([] + [b[0]] + [b[1]], b[2]);
    BigEndianSnoc([] + [b[0]] + [b[1]] + [b[2]], b[3]);
    Digits(value);
  }

  lemma NoBytes()
    ensures BigEndian([]) == 0
  {
  }

  method AppendBigEndianU32(output: seq<byte>, value: nat) returns (longer: seq<byte>)
    requires value <= MAX_U32
    ensures longer == output + U32Bytes(value)
  {
    longer := output;
    var index := 4;
    while index > 0
      invariant 0 <= index <= 4
      invariant longer == output + U32Bytes(value)[..4 - index]
    {
      assert Shift(0) == 1 && Shift(1) == 0x100 && Shift(2) == 0x1_0000 && Shift(3) == 0x100_0000;
      longer := longer + [(value / Shift(index - 1) % 256) as byte];
      index := index - 1;
    }
  }

  // ---- One frame ----

  datatype HeaderParse = NoHeaderYet | HeaderRefused(error: FrameError) | HeaderAt(header: Header, end: nat)

  /** The header at the front of a buffer. */
  function ParseHeader(c: Codec, limits: Limits, buffer: seq<byte>): (p: HeaderParse)
    ensures p.HeaderAt? ==> 4 < p.end <= |buffer| && p.end <= 4 + limits.maxHeaderBytes && WithinLimits(p.header.payloads, limits)
  {
    if |buffer| < 4 then NoHeaderYet
    else
      var length := BigEndian(buffer[..4]);
      if length == 0 then HeaderRefused(Malformed)
      else if length > limits.maxHeaderBytes then HeaderRefused(HeaderTooLarge)
      else if |buffer| < 4 + length then NoHeaderYet
      else
        match c.read(buffer[4..4 + length])
        case None => HeaderRefused(BadHeader)
        case Some(header) =>
          if WithinLimits(header.payloads, limits) then HeaderAt(header, 4 + length) else HeaderRefused(PayloadTooLarge)
  }

  function PayloadAt(buffer: seq<byte>, end: nat, payloads: seq<Declaration>, i: nat): seq<byte>
    requires i < |payloads| && end + Total(payloads) <= |buffer|
  {
    TotalGrows(payloads, i);
    TotalGrows(payloads, i + 1);
    assert payloads[..i + 1][..i] == payloads[..i];
    buffer[end + Total(payloads[..i])..end + Total(payloads[..i + 1])]
  }

  predicate PayloadsMatch(c: Codec, buffer: seq<byte>, end: nat, payloads: seq<Declaration>)
    requires end + Total(payloads) <= |buffer|
  {
    forall i :: 0 <= i < |payloads| ==> c.digest(PayloadAt(buffer, end, payloads, i)) == payloads[i].digest
  }

  function PayloadsOf(buffer: seq<byte>, end: nat, payloads: seq<Declaration>): seq<seq<byte>>
    requires end + Total(payloads) <= |buffer|
  {
    seq(|payloads|, i requires 0 <= i < |payloads| => PayloadAt(buffer, end, payloads, i))
  }

  datatype Parse = NeedMore | Refused(error: FrameError) | Parsed(frame: Frame, consumed: nat)

  function ParseBody(c: Codec, buffer: seq<byte>, header: Header, end: nat): (p: Parse)
    ensures p.Parsed? ==> p.consumed == end + Total(header.payloads) <= |buffer|
  {
    if |buffer| < end + Total(header.payloads) then NeedMore
    else if PayloadsMatch(c, buffer, end, header.payloads) then
      Parsed(Frame(header.meta, PayloadsOf(buffer, end, header.payloads)), end + Total(header.payloads))
    else Refused(PayloadHashMismatch)
  }

  /** The frame at the front of a buffer. */
  function ParseFrame(c: Codec, limits: Limits, buffer: seq<byte>): (p: Parse)
    ensures p.Parsed? ==> 4 < p.consumed <= |buffer|
  {
    match ParseHeader(c, limits, buffer)
    case NoHeaderYet => NeedMore
    case HeaderRefused(error) => Refused(error)
    case HeaderAt(header, end) => ParseBody(c, buffer, header, end)
  }

  lemma ParseHeaderStays(c: Codec, limits: Limits, buffer: seq<byte>, more: seq<byte>)
    requires !ParseHeader(c, limits, buffer).NoHeaderYet?
    ensures ParseHeader(c, limits, buffer + more) == ParseHeader(c, limits, buffer)
  {
    assert (buffer + more)[..4] == buffer[..4];
    var length := BigEndian(buffer[..4]);
    if 4 + length <= |buffer| { assert (buffer + more)[4..4 + length] == buffer[4..4 + length]; }
  }

  lemma SliceStays<T>(s: seq<T>, more: seq<T>, a: nat, b: nat)
    requires a <= b <= |s|
    ensures (s + more)[a..b] == s[a..b]
  {
  }

  lemma SliceInside<T>(front: seq<T>, s: seq<T>, rest: seq<T>, a: nat, b: nat)
    requires a <= b <= |s|
    ensures (front + s + rest)[|front| + a..|front| + b] == s[a..b]
  {
  }

  lemma PayloadStays(buffer: seq<byte>, more: seq<byte>, end: nat, payloads: seq<Declaration>, i: nat)
    requires i < |payloads| && end + Total(payloads) <= |buffer|
    ensures PayloadAt(buffer + more, end, payloads, i) == PayloadAt(buffer, end, payloads, i)
  {
    TotalGrows(payloads, i);
    TotalGrows(payloads, i + 1);
    assert payloads[..i + 1][..i] == payloads[..i];
    var a, b := end + Total(payloads[..i]), end + Total(payloads[..i + 1]);
    hide Total;
    SliceStays(buffer, more, a, b);
  }

  lemma ParseBodyStays(c: Codec, buffer: seq<byte>, more: seq<byte>, header: Header, end: nat)
    requires !ParseBody(c, buffer, header, end).NeedMore?
    ensures ParseBody(c, buffer + more, header, end) == ParseBody(c, buffer, header, end)
  {
    forall i | 0 <= i < |header.payloads|
      ensures PayloadAt(buffer + more, end, header.payloads, i) == PayloadAt(buffer, end, header.payloads, i)
    {
      PayloadStays(buffer, more, end, header.payloads, i);
    }
    assert PayloadsOf(buffer + more, end, header.payloads) == PayloadsOf(buffer, end, header.payloads);
  }

  /** Bytes that arrive later cannot change a verdict already reached. */
  lemma ParseStays(c: Codec, limits: Limits, buffer: seq<byte>, more: seq<byte>)
    requires !ParseFrame(c, limits, buffer).NeedMore?
    ensures ParseFrame(c, limits, buffer + more) == ParseFrame(c, limits, buffer)
  {
    ParseHeaderStays(c, limits, buffer, more);
    match ParseHeader(c, limits, buffer)
    case HeaderAt(header, end) => ParseBodyStays(c, buffer, more, header, end);
    case _ =>
  }

  // ---- A stream ----

  /** The frames at the front of a buffer, what is left after them, and why the stream was refused if it was. */
  datatype Drained = Drained(frames: seq<Frame>, rest: seq<byte>, error: Option<FrameError>)

  function Drain(c: Codec, limits: Limits, buffer: seq<byte>): Drained
    decreases |buffer|
  {
    match ParseFrame(c, limits, buffer)
    case NeedMore => Drained([], buffer, None)
    case Refused(error) => Drained([], buffer, Some(error))
    case Parsed(frame, consumed) =>
      var after := Drain(c, limits, buffer[consumed..]);
      after.(frames := [frame] + after.frames)
  }

  /** Draining before more bytes arrive loses and changes nothing. */
  lemma {:induction false} DrainInTwo(c: Codec, limits: Limits, buffer: seq<byte>, more: seq<byte>)
    ensures var first, all := Drain(c, limits, buffer), Drain(c, limits, buffer + more);
            if first.error.Some? then
              all.frames == first.frames && all.error == first.error
            else
              var second := Drain(c, limits, first.rest + more);
              all == second.(frames := first.frames + second.frames)
    decreases |buffer|
  {
    hide ParseFrame;
    match ParseFrame(c, limits, buffer)
    case NeedMore =>
    case Refused(error) => ParseStays(c, limits, buffer, more);
    case Parsed(frame, consumed) =>
      ParseStays(c, limits, buffer, more);
      assert (buffer + more)[consumed..] == buffer[consumed..] + more;
      DrainInTwo(c, limits, buffer[consumed..], more);
  }

  // ---- Where a frame ends, in 64 bits ----

  /** The end that the header at the front of the buffer gives its frame can be counted in 64 bits. */
  predicate EndFits(c: Codec, limits: Limits, buffer: seq<byte>) {
    var p := ParseHeader(c, limits, buffer);
    p.HeaderAt? ==> p.end + Total(p.header.payloads) <= MAX_U64
  }

  /** So can the ends of all frames that are taken from the buffer. */
  predicate EndsFit(c: Codec, limits: Limits, buffer: seq<byte>)
    decreases |buffer|
  {
    && EndFits(c, limits, buffer)
    && match ParseFrame(c, limits, buffer)
       case Parsed(_, consumed) => EndsFit(c, limits, buffer[consumed..])
       case _ => true
  }

  lemma {:induction false} NothingDeclared(payloads: seq<Declaration>)
    requires forall i :: 0 <= i < |payloads| ==> payloads[i].bytes == 0
    ensures Total(payloads) == 0
  {
    if payloads != [] { NothingDeclared(payloads[..|payloads| - 1]); }
  }

  /** Under limits that fit no end ever wraps around, whatever the codec and the bytes. */
  lemma {:induction false} FrameEndFits(c: Codec, limits: Limits, buffer: seq<byte>)
    requires limits.Valid() && limits.EndFits()
    ensures EndsFit(c, limits, buffer)
    decreases |buffer|
  {
    var p := ParseHeader(c, limits, buffer);
    if p.HeaderAt? && limits.maxPayloadBytes == 0 { NothingDeclared(p.header.payloads); }
    hide ParseHeader;
    match ParseFrame(c, limits, buffer)
    case Parsed(_, consumed) => FrameEndFits(c, limits, buffer[consumed..]);
    case _ =>
  }

  /** Under any other limits some codec reads, from some buffer, a header whose frame ends beyond 64 bits. */
  lemma FrameEndCanWrap(limits: Limits) returns (c: Codec, buffer: seq<byte>)
    requires limits.Valid() && !limits.EndFits()
    ensures c.RoundTrips() && ParseHeader(c, limits, buffer).HeaderAt?
    ensures !EndFits(c, limits, buffer) && !EndsFit(c, limits, buffer)
  {
    var payloads := DeclareTotal(limits.maxPayloadBytes, limits.maxTotalPayloadBytes as nat);
    var header := Header(Meta("", ""), payloads);
    var text := seq(limits.maxHeaderBytes, _ => 0 as byte);
    c := Codec(_ => true, h => if h == header then Some(text) else None,
               t => if t == text then Some(header) else None, _ => []);
    buffer := U32Bytes(|text|) + text;
    EncodedHeader(c, limits, header, text, []);
    assert buffer + [] == buffer;
  }

  lemma {:induction false} DeclareTotal(most: u64, total: nat) returns (payloads: seq<Declaration>)
    requires most > 0 && total <= MAX_U64
    ensures Total(payloads) == total && forall i :: 0 <= i < |payloads| ==> payloads[i].bytes <= most
  {
    if total == 0 {
      payloads := [];
    } else {
      var last := if total <= most as nat then total else most as nat;
      var earlier := DeclareTotal(most, total - last);
      payloads := earlier + [Declaration(last as u64, [])];
      assert payloads[..|earlier|] == earlier;
    }
  }

  /** If the ends fit in all of a stream, they fit in what has arrived of it, and in what is left of that with the
      rest of the stream. */
  lemma {:induction false} EndsFitInTwo(c: Codec, limits: Limits, buffer: seq<byte>, more: seq<byte>)
    requires EndsFit(c, limits, buffer + more)
    ensures EndsFit(c, limits, buffer)
    ensures var first := Drain(c, limits, buffer);
            first.error.None? ==> EndsFit(c, limits, first.rest + more)
    decreases |buffer|
  {
    if !ParseHeader(c, limits, buffer).NoHeaderYet? { ParseHeaderStays(c, limits, buffer, more); }
    hide ParseHeader;
    match ParseFrame(c, limits, buffer)
    case Parsed(_, consumed) =>
      ParseStays(c, limits, buffer, more);
      assert (buffer + more)[consumed..] == buffer[consumed..] + more;
      EndsFitInTwo(c, limits, buffer[consumed..], more);
    case _ =>
  }

  // ---- Round trip ----

  function Declare(c: Codec, payloads: seq<seq<byte>>): seq<Declaration>
    requires forall i :: 0 <= i < |payloads| ==> |payloads[i]| <= MAX_U64
  {
    seq(|payloads|, i requires 0 <= i < |payloads| => Declaration(|payloads[i]| as u64, c.digest(payloads[i])))
  }

  function Flatten(payloads: seq<seq<byte>>): seq<byte> {
    if payloads == [] then [] else Flatten(payloads[..|payloads| - 1]) + payloads[|payloads| - 1]
  }

  predicate Storable(frame: Frame) {
    forall i :: 0 <= i < |frame.payloads| ==> |frame.payloads[i]| <= MAX_U64
  }

  function Encode(c: Codec, limits: Limits, frame: Frame): Result<seq<byte>, FrameError>
    requires Storable(frame)
  {
    var declarations := Declare(c, frame.payloads);
    var text := c.write(Header(frame.meta, declarations));
    if !c.isObject(frame.meta) then Err(WrongType)
    else if !WithinLimits(declarations, limits) then Err(PayloadTooLarge)
    else if text.None? then Err(BadHeader)
    else if |text.value| > limits.maxHeaderBytes then Err(HeaderTooLarge)
    else Ok(U32Bytes(|text.value|) + text.value + Flatten(frame.payloads))
  }

  lemma {:induction false} FlattenedTotal(c: Codec, payloads: seq<seq<byte>>)
    requires forall i :: 0 <= i < |payloads| ==> |payloads[i]| <= MAX_U64
    ensures Total(Declare(c, payloads)) == |Flatten(payloads)|
  {
    if payloads != [] {
      var n := |payloads| - 1;
      FlattenedTotal(c, payloads[..n]);
      assert Declare(c, payloads)[..n] == Declare(c, payloads[..n]);
    }
  }

  lemma {:induction false} FlattenedAt(c: Codec, payloads: seq<seq<byte>>, i: nat)
    requires i < |payloads| && forall k :: 0 <= k < |payloads| ==> |payloads[k]| <= MAX_U64
    ensures |Flatten(payloads[..i])| + |payloads[i]| <= |Flatten(payloads)|
    ensures Flatten(payloads)[|Flatten(payloads[..i])|..|Flatten(payloads[..i])| + |payloads[i]|] == payloads[i]
  {
    var n := |payloads| - 1;
    if i < n {
      FlattenedAt(c, payloads[..n], i);
      assert payloads[..n][..i] == payloads[..i] && payloads[..n][i] == payloads[i];
      var a := |Flatten(payloads[..i])|;
      assert Flatten(payloads)[a..a + |payloads[i]|] == Flatten(payloads[..n])[a..a + |payloads[i]|];
    }
  }

  /** Declared sizes add up to where a payload starts, whichever payloads come before it. */
  lemma DeclaredStart(c: Codec, payloads: seq<seq<byte>>, i: nat)
    requires i <= |payloads| && forall k :: 0 <= k < |payloads| ==> |payloads[k]| <= MAX_U64
    ensures Total(Declare(c, payloads)[..i]) == |Flatten(payloads[..i])|
  {
    hide Flatten, Total;
    FlattenedTotal(c, payloads[..i]);
    assert Declare(c, payloads)[..i] == Declare(c, payloads[..i]);
  }

  lemma PayloadIs(buffer: seq<byte>, end: nat, payloads: seq<Declaration>, i: nat, a: nat, b: nat)
    requires i < |payloads| && end + Total(payloads) <= |buffer|
    requires a == Total(payloads[..i]) && b == Total(payloads[..i + 1])
    ensures a <= b && end + b <= |buffer| && PayloadAt(buffer, end, payloads, i) == buffer[end + a..end + b]
  {
    TotalGrows(payloads, i + 1);
    TotalGrows(payloads[..i + 1], i);
    assert payloads[..i + 1][..i] == payloads[..i];
  }

  lemma EncodedPayload(c: Codec, front: seq<byte>, payloads: seq<seq<byte>>, rest: seq<byte>, i: nat)
    requires i < |payloads| && forall k :: 0 <= k < |payloads| ==> |payloads[k]| <= MAX_U64
    ensures Total(Declare(c, payloads)) == |Flatten(payloads)|
    ensures PayloadAt(front + Flatten(payloads) + rest, |front|, Declare(c, payloads), i) == payloads[i]
  {
    hide Total, PayloadAt;
    FlattenedTotal(c, payloads);
    DeclaredStart(c, payloads, i);
    DeclaredStart(c, payloads, i + 1);
    FlattenedAt(c, payloads, i);
    assert payloads[..i + 1][..i] == payloads[..i];
    var a, b := |Flatten(payloads[..i])|, |Flatten(payloads[..i + 1])|;
    assert b == a + |payloads[i]|;
    hide Declare, Flatten;
    PayloadIs(front + Flatten(payloads) + rest, |front|, Declare(c, payloads), i, a, b);
    SliceInside(front, Flatten(payloads), rest, a, b);
  }

  lemma EncodedPayloads(c: Codec, front: seq<byte>, payloads: seq<seq<byte>>, rest: seq<byte>)
    requires forall k :: 0 <= k < |payloads| ==> |payloads[k]| <= MAX_U64
    ensures Total(Declare(c, payloads)) == |Flatten(payloads)|
    ensures var buffer := front + Flatten(payloads) + rest;
            && PayloadsOf(buffer, |front|, Declare(c, payloads)) == payloads
            && PayloadsMatch(c, buffer, |front|, Declare(c, payloads))
  {
    FlattenedTotal(c, payloads);
    hide Flatten, PayloadAt, Total;
    var buffer := front + Flatten(payloads) + rest;
    forall i | 0 <= i < |payloads| ensures PayloadAt(buffer, |front|, Declare(c, payloads), i) == payloads[i] {
      EncodedPayload(c, front, payloads, rest, i);
    }
  }

  lemma EncodedHeader(c: Codec, limits: Limits, header: Header, text: seq<byte>, rest: seq<byte>)
    requires limits.Valid() && 0 < |text| <= limits.maxHeaderBytes
    requires c.read(text) == Some(header) && WithinLimits(header.payloads, limits)
    ensures ParseHeader(c, limits, U32Bytes(|text|) + text + rest) == HeaderAt(header, 4 + |text|)
  {
    hide U32Bytes, BigEndian;
    U32RoundTrips(|text|);
    var buffer := U32Bytes(|text|) + text + rest;
    assert buffer[..4] == U32Bytes(|text|) && buffer[4..4 + |text|] == text;
  }

  /** Encoding then decoding gives the frame back and consumes exactly its bytes, whatever follows. */
  lemma EncodeThenParse(c: Codec, limits: Limits, frame: Frame, rest: seq<byte>)
    requires c.RoundTrips() && limits.Valid() && Storable(frame) && Encode(c, limits, frame).Ok?
    ensures var bytes := Encode(c, limits, frame).value;
            ParseFrame(c, limits, bytes + rest) == Parsed(frame, |bytes|)
  {
    hide Flatten, Total, PayloadsOf, PayloadsMatch, Declare, WithinLimits, U32Bytes, ParseHeader;
    var bytes := Encode(c, limits, frame).value;
    var header := Header(frame.meta, Declare(c, frame.payloads));
    var text := c.write(header).value;
    var front, payloads := U32Bytes(|text|) + text, Flatten(frame.payloads);
    assert bytes + rest == front + payloads + rest == front + (payloads + rest);
    EncodedHeader(c, limits, header, text, payloads + rest);
    EncodedPayloads(c, front, frame.payloads, rest);
  }

  /** The frames one after the other on the wire. */
  function EncodeAll(c: Codec, limits: Limits, frames: seq<Frame>): seq<byte>
    requires forall i :: 0 <= i < |frames| ==> Storable(frames[i]) && Encode(c, limits, frames[i]).Ok?
  {
    if frames == [] then [] else Encode(c, limits, frames[0]).value + EncodeAll(c, limits, frames[1..])
  }

  /** A stream of encoded frames decodes to exactly those frames, with nothing left over. */
  lemma {:induction false} StreamRoundTrips(c: Codec, limits: Limits, frames: seq<Frame>)
    requires c.RoundTrips() && limits.Valid()
    requires forall i :: 0 <= i < |frames| ==> Storable(frames[i]) && Encode(c, limits, frames[i]).Ok?
    ensures Drain(c, limits, EncodeAll(c, limits, frames)) == Drained(frames, [], None)
  {
    if frames != [] {
      var bytes, rest := Encode(c, limits, frames[0]).value, EncodeAll(c, limits, frames[1..]);
      EncodeThenParse(c, limits, frames[0], rest);
      assert (bytes + rest)[|bytes|..] == rest;
      StreamRoundTrips(c, limits, frames[1..]);
      assert frames == [frames[0]] + frames[1..];
    }
  }

  // ---- The encoder ----

  /** Appends the length prefix, the header text and the payloads one after the other. */
  method EncodeFrame(c: Codec, limits: Limits, frame: Frame) returns (r: Result<seq<byte>, FrameError>)
    requires limits.Valid() && Storable(frame)
    ensures r == Encode(c, limits, frame)
  {
    if !c.isObject(frame.meta) {
      return Err(WrongType);
    }
    var declarations: seq<Declaration> := [];
    for i := 0 to |frame.payloads|
      invariant declarations == Declare(c, frame.payloads[..i])
    {
      assert frame.payloads[..i + 1][..i] == frame.payloads[..i];
      declarations := declarations + [Declaration(|frame.payloads[i]| as u64, c.digest(frame.payloads[i]))];
    }
    assert frame.payloads[..|frame.payloads|] == frame.payloads;
    var within := CheckPayloadLimits(declarations, limits);
    if !within {
      return Err(PayloadTooLarge);
    }
    var text := c.write(Header(frame.meta, declarations));
    if text.None? {
      return Err(BadHeader);
    }
    if |text.value| > limits.maxHeaderBytes {
      return Err(HeaderTooLarge);
    }
    var output := AppendBigEndianU32([], |text.value|);
    assert output == U32Bytes(|text.value|);
    output := output + text.value;
    ghost var front := output;
    for i := 0 to |frame.payloads|
      invariant output == front + Flatten(frame.payloads[..i])
    {
      assert frame.payloads[..i + 1][..i] == frame.payloads[..i];
      output := output + frame.payloads[i];
    }
    assert frame.payloads[..|frame.payloads|] == frame.payloads;
    return Ok(output);
  }

  // ---- The decoder ----

  lemma PayloadSlice(buffer: seq<byte>, end: nat, payloads: seq<Declaration>, i: nat)
    requires i < |payloads| && end + Total(payloads) <= |buffer|
    ensures var a := end + Total(payloads[..i]);
            && Total(payloads[..i + 1]) == Total(payloads[..i]) + payloads[i].bytes as nat
            && a + payloads[i].bytes as nat <= |buffer|
            && PayloadAt(buffer, end, payloads, i) == buffer[a..a + payloads[i].bytes as nat]
  {
    assert payloads[..i + 1][..i] == payloads[..i];
    TotalGrows(payloads, i + 1);
  }

  /** `payloads[k]` is the declared payload, with its declared digest. */
  ghost predicate Verified(c: Codec, buffer: seq<byte>, end: nat, declared: seq<Declaration>, payloads: seq<seq<byte>>, k: nat)
    requires end + Total(declared) <= |buffer|
  {
    k < |payloads| && k < |declared| ==>
      payloads[k] == PayloadAt(buffer, end, declared, k) && c.digest(payloads[k]) == declared[k].digest
  }

  lemma NoneVerified(c: Codec, buffer: seq<byte>, end: nat, declared: seq<Declaration>)
    requires end + Total(declared) <= |buffer|
    ensures forall k :: Verified(c, buffer, end, declared, [], k)
  {
  }

  lemma VerifiedMore(c: Codec, buffer: seq<byte>, end: nat, declared: seq<Declaration>, payloads: seq<seq<byte>>, payload: seq<byte>)
    requires end + Total(declared) <= |buffer| && |payloads| < |declared|
    requires forall k :: Verified(c, buffer, end, declared, payloads, k)
    requires payload == PayloadAt(buffer, end, declared, |payloads|) && c.digest(payload) == declared[|payloads|].digest
    ensures forall k :: Verified(c, buffer, end, declared, payloads + [payload], k)
  {
    hide PayloadAt, Total;
    forall k: nat ensures Verified(c, buffer, end, declared, payloads + [payload], k) {
      assert Verified(c, buffer, end, declared, payloads, k);
    }
  }

  lemma AllVerified(c: Codec, buffer: seq<byte>, end: nat, declared: seq<Declaration>, payloads: seq<seq<byte>>)
    requires end + Total(declared) <= |buffer| && |payloads| == |declared|
    requires forall k :: Verified(c, buffer, end, declared, payloads, k)
    ensures PayloadsMatch(c, buffer, end, declared) && payloads == PayloadsOf(buffer, end, declared)
  {
    forall k | 0 <= k < |declared|
      ensures payloads[k] == PayloadAt(buffer, end, declared, k) && c.digest(payloads[k]) == declared[k].digest
    {
      assert Verified(c, buffer, end, declared, payloads, k);
    }
  }

  /** The payloads behind a header, if each has its declared digest. */
  method VerifyPayloads(c: Codec, buffer: seq<byte>, end: nat, declared: seq<Declaration>) returns (r: Option<seq<seq<byte>>>)
    requires end + Total(declared) <= |buffer|
    ensures r == if PayloadsMatch(c, buffer, end, declared) then Some(PayloadsOf(buffer, end, declared)) else None
  {
    var payloads: seq<seq<byte>> := [];
    var offset := end;
    assert declared[..0] == [] && Total(declared[..0]) == 0;
    hide Total, PayloadAt, Verified, PayloadsOf;
    NoneVerified(c, buffer, end, declared);
    for index := 0 to |declared|
      invariant offset == end + Total(declared[..index]) && |payloads| == index
      invariant forall k :: Verified(c, buffer, end, declared, payloads, k)
    {
      PayloadSlice(buffer, end, declared, index);
      var length := declared[index].bytes as nat;
      var payload := buffer[offset..offset + length];
      if c.digest(payload) != declared[index].digest {
        return None;
      }
      VerifiedMore(c, buffer, end, declared, payloads, payload);
      payloads := payloads + [payload];
      offset := offset + length;
    }
    AllVerified(c, buffer, end, declared, payloads);
    return Some(payloads);
  }

  /** The result of asking for the next frame. */
  datatype Next = NotYet | Got(frame: Frame) | Failed(error: FrameError)

  /** Keeps the header of the frame at the front of its buffer, so that it is parsed once while the payloads
      arrive. That it does so cannot be observed: `Next` answers what parsing the buffer afresh would. */
  class FrameDecoder {
    const codec: Codec
    const limits: Limits
    var buffer: seq<byte>
    var pendingHeader: Option<Header>
    var pendingHeaderEnd: nat
    var failed: bool

    ghost predicate Valid()
      reads this
    {
      limits.Valid() && (pendingHeader.Some? ==> ParseHeader(codec, limits, buffer) == HeaderAt(pendingHeader.value, pendingHeaderEnd))
    }

    constructor (codec: Codec, limits: Limits)
      requires limits.Valid()
      ensures Valid() && buffer == [] && !failed && this.codec == codec && this.limits == limits
    {
      this.codec, this.limits := codec, limits;
      buffer, pendingHeader, pendingHeaderEnd, failed := [], None, 0, false;
    }

    method Feed(bytes: seq<byte>) returns (ok: bool)
      requires Valid()
      modifies this
      ensures Valid() && ok == !old(failed) && failed == old(failed)
      ensures buffer == if ok then old(buffer) + bytes else old(buffer)
    {
      if failed {
        return false;
      }
      if pendingHeader.Some? { ParseHeaderStays(codec, limits, buffer, bytes); }
      buffer := buffer + bytes;
      return true;
    }

    method NextFrame() returns (r: Next)
      requires Valid() && (failed || EndFits(codec, limits, buffer))
      modifies this
      ensures Valid()
      ensures old(failed) ==> r == Failed(Malformed) && failed && buffer == old(buffer)
      ensures !old(failed) ==>
                match ParseFrame(codec, limits, old(buffer))
                case NeedMore => r == NotYet && !failed && buffer == old(buffer)
                case Refused(error) => r == Failed(error) && failed
                case Parsed(frame, consumed) => r == Got(frame) && !failed && buffer == old(buffer)[consumed..]
    {
      if failed {
        return Failed(Malformed);
      }
      if pendingHeader.None? {
        var waiting := ReadHeader();
        if waiting.Some? {
          return waiting.value;
        }
      }
      var header, end := pendingHeader.value, pendingHeaderEnd;
      var declared := DeclaredPayloadBytes(header.payloads);
      var frameEnd: u64 := end as u64 + declared;
      if |buffer| < frameEnd as nat {
        return NotYet;
      }
      var payloads := VerifyPayloads(codec, buffer, end, header.payloads);
      if payloads.None? {
        failed := true;
        return Failed(PayloadHashMismatch);
      }
      buffer := buffer[frameEnd as nat..];
      pendingHeader, pendingHeaderEnd := None, 0;
      return Got(Frame(header.meta, payloads.value));
    }

    /** Parses the header at the front of the buffer, if it is all there, and keeps it. */
    method ReadHeader() returns (r: Option<Next>)
      requires Valid() && !failed && pendingHeader.None?
      modifies `pendingHeader, `pendingHeaderEnd, `failed
      ensures Valid()
      ensures match ParseHeader(codec, limits, buffer)
              case NoHeaderYet => r == Some(NotYet) && !failed
              case HeaderRefused(error) => r == Some(Failed(error)) && failed
              case HeaderAt(header, end) => r.None? && !failed && pendingHeader == Some(header) && pendingHeaderEnd == end
    {
      if |buffer| < 4 {
        return Some(NotYet);
      }
      var length := ReadBigEndianU32(buffer);
      if length == 0 {
        failed := true;
        return Some(Failed(Malformed));
      }
      if length > limits.maxHeaderBytes {
        failed := true;
        return Some(Failed(HeaderTooLarge));
      }
      if |buffer| < 4 + length {
        return Some(NotYet);
      }
      var header := codec.read(buffer[4..4 + length]);
      if header.None? {
        failed := true;
        return Some(Failed(BadHeader));
      }
      var within := CheckPayloadLimits(header.value.payloads, limits);
      if !within {
        failed := true;
        return Some(Failed(PayloadTooLarge));
      }
      pendingHeader, pendingHeaderEnd := header, 4 + length;
      return None;
    }

    method Finish() returns (r: Option<FrameError>)
      requires Valid()
      modifies `failed
      ensures Valid()
      ensures r == if old(failed) then Some(Malformed) else if buffer != [] then Some(Truncated) else None
      ensures failed == (old(failed) || buffer != [])
    {
      if failed {
        return Some(Malformed);
      }
      if buffer != [] {
        failed := true;
        return Some(Truncated);
      }
      return None;
    }
  }

  method DeclaredPayloadBytes(payloads: seq<Declaration>) returns (total: u64)
    requires Total(payloads) <= MAX_U64
    ensures total as nat == Total(payloads)
  {
    total := 0;
    for i := 0 to |payloads|
      invariant total as nat == Total(payloads[..i])
    {
      assert payloads[..i + 1][..i] == payloads[..i];
      TotalGrows(payloads, i + 1);
      total := total + payloads[i].bytes;
    }
    assert payloads[..|payloads|] == payloads;
  }

  /** Decodes a buffer that holds one frame and nothing more. */
  method DecodeFrame(c: Codec, limits: Limits, bytes: seq<byte>) returns (r: Result<Frame, FrameError>)
    requires limits.Valid() && EndFits(c, limits, bytes)
    ensures match ParseFrame(c, limits, bytes)
            case NeedMore => r == Err(Truncated)
            case Refused(error) => r == Err(error)
            case Parsed(frame, consumed) => r == if consumed == |bytes| then Ok(frame) else Err(Malformed)
  {
    var decoder := new FrameDecoder(c, limits);
    var _ := decoder.Feed(bytes);
    assert decoder.buffer == bytes;
    var next := decoder.NextFrame();
    match next {
      case NotYet => return Err(Truncated);
      case Failed(error) => return Err(error);
      case Got(frame) =>
        if decoder.buffer != [] {
          return Err(Malformed);
        }
        return Ok(frame);
    }
  }

  // ---- Streams in chunks ----

  function Joined(chunks: seq<seq<byte>>): seq<byte> {
    if chunks == [] then [] else Joined(chunks[..|chunks| - 1]) + chunks[|chunks| - 1]
  }

  /** How a stream ends: refused, cut off inside a frame, or complete. */
  function Ending(d: Drained): Option<FrameError> {
    if d.error.Some? then d.error else if d.rest != [] then Some(Truncated) else None
  }

  /** Takes every complete frame out of the decoder. */
  method TakeFrames(decoder: FrameDecoder) returns (frames: seq<Frame>, error: Option<FrameError>)
    requires decoder.Valid() && !decoder.failed && EndsFit(decoder.codec, decoder.limits, decoder.buffer)
    modifies decoder
    ensures decoder.Valid() && decoder.failed == error.Some?
    ensures var all := Drain(decoder.codec, decoder.limits, old(decoder.buffer));
            frames == all.frames && error == all.error && (error.None? ==> decoder.buffer == all.rest)
  {
    hide ParseFrame, ParseHeader, FrameDecoder.Valid;
    frames, error := [], None;
    ghost var all := Drain(decoder.codec, decoder.limits, decoder.buffer);
    while true
      invariant decoder.Valid() && !decoder.failed && EndsFit(decoder.codec, decoder.limits, decoder.buffer)
      invariant var left := Drain(decoder.codec, decoder.limits, decoder.buffer);
                all == left.(frames := frames + left.frames)
      decreases |decoder.buffer|
    {
      var next := decoder.NextFrame();
      match next {
        case NotYet => return;
        case Failed(e) =>
          error := Some(e);
          return;
        case Got(frame) => frames := frames + [frame];
      }
    }
  }

  /** Feeding a stream chunk by chunk, draining after each: for every way of cutting the stream into chunks,
      the frames and the verdict are those of the whole stream at once. */
  method DecodeStream(c: Codec, limits: Limits, chunks: seq<seq<byte>>) returns (frames: seq<Frame>, verdict: Option<FrameError>)
    requires limits.Valid() && EndsFit(c, limits, Joined(chunks))
    ensures frames == Drain(c, limits, Joined(chunks)).frames
    ensures verdict == Ending(Drain(c, limits, Joined(chunks)))
  {
    var decoder := new FrameDecoder(c, limits);
    frames, verdict := [], None;
    var i := 0;
    while i < |chunks|
      invariant 0 <= i <= |chunks| && fresh(decoder) && decoder.codec == c && decoder.limits == limits
      invariant decoder.Valid() && !decoder.failed
      invariant Drain(c, limits, Joined(chunks[..i])) == Drained(frames, decoder.buffer, None)
    {
      assert chunks[..i + 1][..i] == chunks[..i];
      DrainInTwo(c, limits, Joined(chunks[..i]), chunks[i]);
      EndsFitSoFar(c, limits, chunks, i + 1);
      EndsFitInTwo(c, limits, Joined(chunks[..i]), chunks[i]);
      var _ := decoder.Feed(chunks[i]);
      var more, error := TakeFrames(decoder);
      frames := frames + more;
      i := i + 1;
      if error.Some? {
        RefusedForGood(c, limits, chunks, i);
        return frames, error;
      }
    }
    assert chunks[..i] == chunks;
    verdict := decoder.Finish();
  }

  lemma LastJoined(chunks: seq<seq<byte>>)
    requires chunks != []
    ensures Joined(chunks) == Joined(chunks[..|chunks| - 1]) + chunks[|chunks| - 1]
  {
  }

  lemma StaysRefused(c: Codec, limits: Limits, bytes: seq<byte>, more: seq<byte>)
    requires Drain(c, limits, bytes).error.Some?
    ensures Drain(c, limits, bytes + more).frames == Drain(c, limits, bytes).frames
    ensures Drain(c, limits, bytes + more).error == Drain(c, limits, bytes).error
  {
    hide Drain;
    DrainInTwo(c, limits, bytes, more);
  }

  lemma {:induction false} EndsFitSoFar(c: Codec, limits: Limits, chunks: seq<seq<byte>>, i: nat)
    requires i <= |chunks| && EndsFit(c, limits, Joined(chunks))
    ensures EndsFit(c, limits, Joined(chunks[..i]))
    decreases |chunks|
  {
    if i == |chunks| {
      assert chunks[..i] == chunks;
    } else {
      var n := |chunks| - 1;
      LastJoined(chunks);
      hide EndsFit, Joined;
      EndsFitInTwo(c, limits, Joined(chunks[..n]), chunks[n]);
      assert chunks[..n][..i] == chunks[..i];
      EndsFitSoFar(c, limits, chunks[..n], i);
    }
  }

  /** Once a stream is refused, nothing that follows matters. */
  lemma {:induction false} RefusedForGood(c: Codec, limits: Limits, chunks: seq<seq<byte>>, i: nat)
    requires i <= |chunks| && Drain(c, limits, Joined(chunks[..i])).error.Some?
    ensures Drain(c, limits, Joined(chunks)).frames == Drain(c, limits, Joined(chunks[..i])).frames
    ensures Drain(c, limits, Joined(chunks)).error == Drain(c, limits, Joined(chunks[..i])).error
    decreases |chunks|
  {
    hide Drain, Joined;
    if i == |chunks| {
      assert chunks[..i] == chunks;
    } else {
      var n := |chunks| - 1;
      assert chunks[..n][..i] == chunks[..i];
      RefusedForGood(c, limits, chunks[..n], i);
      LastJoined(chunks);
      StaysRefused(c, limits, Joined(chunks[..n]), chunks[n]);
    }
  }
}
