/**
 When bytes are a frame: what the decoder accepts and refuses, and what the encoder writes, in terms of the bytes on the
 wire alone (frame.hpp, frame_decoder.cpp, frame_encoder.cpp).
 */
module FrameWire {
  import opened Basics
  import opened Frames

  /** The length a frame starts with, most significant byte first. */
  function LengthAt(buffer: seq<byte>): nat
    requires |buffer| >= 4
  {
    buffer[0] as nat * 0x100_0000 + buffer[1] as nat * 0x1_0000 + buffer[2] as nat * 0x100 + buffer[3] as nat
  }

  lemma LengthIs(buffer: seq<byte>)
    requires |buffer| >= 4
    ensures BigEndian(buffer[..4]) == LengthAt(buffer)
  {
    hide BigEndian;
    var b := buffer;
    assert b[..4] == [] + [b[0]] + [b[1]] + [b[2]] + [b[3]];
    NoBytes();
    BigEndianSnoc([], b[0]);
    BigEndianSnoc([] + [b[0]], b[1]);
    BigEndianSnoc([] + [b[0]] + [b[1]], b[2]);
    BigEndianSnoc([] + [b[0]] + [b[1]] + [b[2]], b[3]);
  }

  /** A length the limits allow, with all of the header's text behind it. */
  predicate TextThere(limits: Limits, buffer: seq<byte>) {
    |buffer| >= 4 && 0 < LengthAt(buffer) <= limits.maxHeaderBytes && 4 + LengthAt(buffer) <= |buffer|
  }

  function TextAt(buffer: seq<byte>): seq<byte>
    requires |buffer| >= 4 && 4 + LengthAt(buffer) <= |buffer|
  {
    buffer[4..4 + LengthAt(buffer)]
  }

  /** The payloads have the declared lengths, each and together within the limits. */
  ghost predicate Allowed(limits: Limits, declared: seq<Declaration>, payloads: seq<seq<byte>>) {
    && |declared| == |payloads|
    && (forall i :: 0 <= i < |payloads| ==> declared[i].bytes as int == |payloads[i]| && |payloads[i]| <= limits.maxPayloadBytes as int)
    && |Flatten(payloads)| <= limits.maxTotalPayloadBytes as int
  }

  /** The buffer has a header that reads as `header`, and behind it `payloads`, of the declared lengths. */
  ghost predicate BytesThere(c: Codec, limits: Limits, buffer: seq<byte>, header: Header, payloads: seq<seq<byte>>) {
    && TextThere(limits, buffer) && c.read(TextAt(buffer)) == Some(header) && Allowed(limits, header.payloads, payloads)
    && var end := 4 + LengthAt(buffer);
       end + |Flatten(payloads)| <= |buffer| && buffer[end..end + |Flatten(payloads)|] == Flatten(payloads)
  }

  /** The buffer starts with `frame`, every payload of the digest that its header declares. */
  ghost predicate FrameAt(c: Codec, limits: Limits, buffer: seq<byte>, frame: Frame, consumed: nat) {
    exists header ::
      && BytesThere(c, limits, buffer, header, frame.payloads) && header.meta == frame.meta
      && consumed == 4 + LengthAt(buffer) + |Flatten(frame.payloads)|
      && forall i :: 0 <= i < |frame.payloads| ==> header.payloads[i].digest == c.digest(frame.payloads[i])
  }

  /** All bytes are there, but some payload does not have the digest its header declares. */
  ghost predicate CorruptAt(c: Codec, limits: Limits, buffer: seq<byte>) {
    exists header, payloads ::
      && BytesThere(c, limits, buffer, header, payloads)
      && exists i :: 0 <= i < |payloads| && header.payloads[i].digest != c.digest(payloads[i])
  }

  // ---- Slices and payloads ----

  lemma {:induction false} SlicesFlatten(buffer: seq<byte>, end: nat, declared: seq<Declaration>, i: nat)
    requires end + Total(declared) <= |buffer| && i <= |declared|
    ensures Total(declared[..i]) <= Total(declared)
    ensures Flatten(PayloadsOf(buffer, end, declared)[..i]) == buffer[end..end + Total(declared[..i])]
  {
    TotalGrows(declared, i);
    if i > 0 {
      var n := i - 1;
      SlicesFlatten(buffer, end, declared, n);
      PayloadSlice(buffer, end, declared, n);
      var payloads := PayloadsOf(buffer, end, declared);
      assert payloads[..i][..n] == payloads[..n] && payloads[..i][n] == PayloadAt(buffer, end, declared, n);
      hide Total, PayloadAt, PayloadsOf;
      assert Flatten(payloads[..i]) == Flatten(payloads[..n]) + payloads[..i][n];
    }
  }

  /** The payloads a header declares are there exactly when their bytes are. */
  lemma DeclaredAreThere(c: Codec, limits: Limits, buffer: seq<byte>, header: Header)
    requires TextThere(limits, buffer) && c.read(TextAt(buffer)) == Some(header) && WithinLimits(header.payloads, limits)
    requires 4 + LengthAt(buffer) + Total(header.payloads) <= |buffer|
    ensures var payloads := PayloadsOf(buffer, 4 + LengthAt(buffer), header.payloads);
            BytesThere(c, limits, buffer, header, payloads) && |Flatten(payloads)| == Total(header.payloads)
  {
    var end, declared := 4 + LengthAt(buffer), header.payloads;
    var payloads := PayloadsOf(buffer, end, declared);
    SlicesFlatten(buffer, end, declared, |declared|);
    assert declared[..|declared|] == declared && payloads[..|declared|] == payloads;
    hide Flatten, Total, LengthAt, TextAt;
    forall i | 0 <= i < |payloads| ensures declared[i].bytes as int == |payloads[i]| {
      PayloadSlice(buffer, end, declared, i);
    }
  }

  lemma {:induction false} DeclaredLengths(declared: seq<Declaration>, payloads: seq<seq<byte>>)
    requires |declared| == |payloads| && forall i :: 0 <= i < |payloads| ==> declared[i].bytes as int == |payloads[i]|
    ensures Total(declared) == |Flatten(payloads)|
  {
    if declared != [] {
      var n := |declared| - 1;
      DeclaredLengths(declared[..n], payloads[..n]);
    }
  }

  lemma {:induction false} FlattenCut(payloads: seq<seq<byte>>, other: seq<seq<byte>>)
    requires |payloads| == |other| && forall i :: 0 <= i < |payloads| ==> |payloads[i]| == |other[i]|
    requires Flatten(payloads) == Flatten(other)
    ensures payloads == other
  {
    if payloads != [] {
      var n := |payloads| - 1;
      SameLengths(payloads[..n], other[..n]);
      var cut := |Flatten(payloads[..n])|;
      assert Flatten(payloads)[..cut] == Flatten(payloads[..n]) && Flatten(other)[..cut] == Flatten(other[..n]);
      assert Flatten(payloads)[cut..] == payloads[n] && Flatten(other)[cut..] == other[n];
      FlattenCut(payloads[..n], other[..n]);
      assert payloads == payloads[..n] + [payloads[n]] && other == other[..n] + [other[n]];
    }
  }

  lemma {:induction false} SameLengths(payloads: seq<seq<byte>>, other: seq<seq<byte>>)
    requires |payloads| == |other| && forall i :: 0 <= i < |payloads| ==> |payloads[i]| == |other[i]|
    ensures |Flatten(payloads)| == |Flatten(other)|
  {
    if payloads != [] { SameLengths(payloads[..|payloads| - 1], other[..|other| - 1]); }
  }

  /** What is there is what the decoder takes out. */
  lemma ThereIsSliced(c: Codec, limits: Limits, buffer: seq<byte>, header: Header, payloads: seq<seq<byte>>)
    requires BytesThere(c, limits, buffer, header, payloads)
    ensures Total(header.payloads) == |Flatten(payloads)| && WithinLimits(header.payloads, limits)
    ensures 4 + LengthAt(buffer) + Total(header.payloads) <= |buffer|
    ensures PayloadsOf(buffer, 4 + LengthAt(buffer), header.payloads) == payloads
  {
    DeclaredLengths(header.payloads, payloads);
    hide Flatten, Total;
    DeclaredAreThere(c, limits, buffer, header);
    FlattenCut(PayloadsOf(buffer, 4 + LengthAt(buffer), header.payloads), payloads);
  }

  // ---- What the decoder says ----

  lemma HeaderMeans(c: Codec, limits: Limits, buffer: seq<byte>)
    ensures ParseHeader(c, limits, buffer) ==
            if |buffer| < 4 then NoHeaderYet
            else if LengthAt(buffer) == 0 then HeaderRefused(Malformed)
            else if LengthAt(buffer) > limits.maxHeaderBytes then HeaderRefused(HeaderTooLarge)
            else if 4 + LengthAt(buffer) > |buffer| then NoHeaderYet
            else if c.read(TextAt(buffer)).None? then HeaderRefused(BadHeader)
            else if !WithinLimits(c.read(TextAt(buffer)).value.payloads, limits) then HeaderRefused(PayloadTooLarge)
            else HeaderAt(c.read(TextAt(buffer)).value, 4 + LengthAt(buffer))
  {
    if |buffer| >= 4 { LengthIs(buffer); }
  }

  /** The decoder takes a frame out of a buffer exactly when the buffer starts with that frame. */
  lemma AcceptsExactly(c: Codec, limits: Limits, buffer: seq<byte>, frame: Frame, consumed: nat)
    ensures ParseFrame(c, limits, buffer) == Parsed(frame, consumed) <==> FrameAt(c, limits, buffer, frame, consumed)
  {
    HeaderMeans(c, limits, buffer);
    hide LengthAt, Total, Flatten, PayloadAt, WithinLimits, ParseHeader, TextAt;
    if ParseFrame(c, limits, buffer) == Parsed(frame, consumed) {
      var header := c.read(TextAt(buffer)).value;
      DeclaredAreThere(c, limits, buffer, header);
    }
    if FrameAt(c, limits, buffer, frame, consumed) {
      var header :| BytesThere(c, limits, buffer, header, frame.payloads) && header.meta == frame.meta
                    && consumed == 4 + LengthAt(buffer) + |Flatten(frame.payloads)|
                    && forall i :: 0 <= i < |frame.payloads| ==> header.payloads[i].digest == c.digest(frame.payloads[i]);
      ThereIsSliced(c, limits, buffer, header, frame.payloads);
      Matching(c, buffer, 4 + LengthAt(buffer), header.payloads);
    }
  }

  lemma Matching(c: Codec, buffer: seq<byte>, end: nat, declared: seq<Declaration>)
    requires end + Total(declared) <= |buffer|
    ensures PayloadsMatch(c, buffer, end, declared) <==>
            forall i :: 0 <= i < |declared| ==> declared[i].digest == c.digest(PayloadsOf(buffer, end, declared)[i])
  {
    hide PayloadAt;
    var payloads := PayloadsOf(buffer, end, declared);
    assert forall i :: 0 <= i < |declared| ==> payloads[i] == PayloadAt(buffer, end, declared, i);
  }

  /** It reports a wrong digest exactly when all bytes are there and some payload has another digest than declared. */
  lemma RefusesCorrupt(c: Codec, limits: Limits, buffer: seq<byte>)
    ensures ParseFrame(c, limits, buffer) == Refused(PayloadHashMismatch) <==> CorruptAt(c, limits, buffer)
  {
    HeaderMeans(c, limits, buffer);
    hide LengthAt, Total, Flatten, PayloadAt, WithinLimits, ParseHeader, TextAt;
    if ParseFrame(c, limits, buffer) == Refused(PayloadHashMismatch) {
      var header := c.read(TextAt(buffer)).value;
      DeclaredAreThere(c, limits, buffer, header);
      Matching(c, buffer, 4 + LengthAt(buffer), header.payloads);
      assert BytesThere(c, limits, buffer, header, PayloadsOf(buffer, 4 + LengthAt(buffer), header.payloads));
    }
    if CorruptAt(c, limits, buffer) {
      var header, payloads :| BytesThere(c, limits, buffer, header, payloads)
                              && exists i :: 0 <= i < |payloads| && header.payloads[i].digest != c.digest(payloads[i]);
      ThereIsSliced(c, limits, buffer, header, payloads);
      Matching(c, buffer, 4 + LengthAt(buffer), header.payloads);
    }
  }

  /** Every other refusal is of the header: its length, its text, or what it declares. */
  lemma RefusesHeader(c: Codec, limits: Limits, buffer: seq<byte>)
    ensures ParseFrame(c, limits, buffer) == Refused(Malformed) <==> |buffer| >= 4 && LengthAt(buffer) == 0
    ensures ParseFrame(c, limits, buffer) == Refused(HeaderTooLarge) <==> |buffer| >= 4 && LengthAt(buffer) > limits.maxHeaderBytes
    ensures ParseFrame(c, limits, buffer) == Refused(BadHeader) <==> TextThere(limits, buffer) && c.read(TextAt(buffer)).None?
    ensures ParseFrame(c, limits, buffer) == Refused(PayloadTooLarge) <==>
            && TextThere(limits, buffer) && c.read(TextAt(buffer)).Some?
            && forall payloads :: !Allowed(limits, c.read(TextAt(buffer)).value.payloads, payloads)
    ensures ParseFrame(c, limits, buffer).Refused? ==>
              ParseFrame(c, limits, buffer).error in {Malformed, HeaderTooLarge, BadHeader, PayloadTooLarge, PayloadHashMismatch}
  {
    HeaderMeans(c, limits, buffer);
    hide LengthAt, Total, Flatten, PayloadAt, ParseHeader, TextAt, WithinLimits, Allowed;
    if TextThere(limits, buffer) && c.read(TextAt(buffer)).Some? {
      AllowedMeans(limits, c.read(TextAt(buffer)).value.payloads);
    }
  }

  /** Declarations are within the limits exactly when payloads of these lengths would be. */
  lemma AllowedMeans(limits: Limits, declared: seq<Declaration>)
    ensures WithinLimits(declared, limits) <==> exists payloads :: Allowed(limits, declared, payloads)
  {
    hide Total, Flatten;
    if WithinLimits(declared, limits) {
      var payloads := seq(|declared|, i requires 0 <= i < |declared| => seq(declared[i].bytes as nat, _ => 0 as byte));
      DeclaredLengths(declared, payloads);
      assert Allowed(limits, declared, payloads);
    }
    if payloads :| Allowed(limits, declared, payloads) { DeclaredLengths(declared, payloads); }
  }

  /** The bytes are these frames, one after the other, and nothing else. */
  ghost predicate AreFrames(c: Codec, limits: Limits, bytes: seq<byte>, frames: seq<Frame>)
    decreases |frames|
  {
    if frames == [] then bytes == []
    else exists consumed: nat :: consumed <= |bytes| && FrameAt(c, limits, bytes, frames[0], consumed) && AreFrames(c, limits, bytes[consumed..], frames[1..])
  }

  /** A stream ends without an error exactly when it is frames and nothing else, and these are the frames it gives. */
  lemma {:induction false} EndsCleanly(c: Codec, limits: Limits, bytes: seq<byte>, frames: seq<Frame>)
    ensures Ending(Drain(c, limits, bytes)).None? && Drain(c, limits, bytes).frames == frames <==> AreFrames(c, limits, bytes, frames)
    decreases |bytes|, |frames|
  {
    hide FrameAt, ParseFrame;
    var p := ParseFrame(c, limits, bytes);
    if p.Parsed? {
      AcceptsExactly(c, limits, bytes, p.frame, p.consumed);
      if frames != [] { EndsCleanly(c, limits, bytes[p.consumed..], frames[1..]); }
    } else {
      NothingParsed(c, limits, bytes);
    }
    if frames != [] {
      forall consumed: nat ensures FrameAt(c, limits, bytes, frames[0], consumed) <==> p == Parsed(frames[0], consumed) {
        AcceptsExactly(c, limits, bytes, frames[0], consumed);
      }
      if p.Parsed? { assert [p.frame] + frames[1..] == frames <==> p.frame == frames[0]; }
    }
  }

  lemma NothingParsed(c: Codec, limits: Limits, bytes: seq<byte>)
    ensures bytes == [] ==> ParseFrame(c, limits, bytes) == NeedMore
  {
  }

  // ---- What the encoder writes ----

  /** Encoding succeeds exactly for a body that is an object, payloads within the limits, and a header that has a text
      within its limit; the bytes are the length of that text, the text, and the payloads one after the other. */
  lemma EncodesExactly(c: Codec, limits: Limits, frame: Frame)
    requires limits.Valid() && Storable(frame)
    ensures var text, payloads := c.write(Header(frame.meta, Declare(c, frame.payloads))), frame.payloads;
            var r := Encode(c, limits, frame);
            var allowed := Allowed(limits, Declare(c, payloads), payloads);
            && (r.Ok? <==> c.isObject(frame.meta) && allowed && text.Some? && |text.value| <= limits.maxHeaderBytes)
            && (r == Err(WrongType) <==> !c.isObject(frame.meta))
            && (r == Err(PayloadTooLarge) <==> c.isObject(frame.meta) && !allowed)
            && (r == Err(BadHeader) <==> c.isObject(frame.meta) && allowed && text.None?)
            && (r.Ok? ==> |r.value| == 4 + |text.value| + |Flatten(payloads)| && LengthAt(r.value) == |text.value|
                          && r.value[4..] == text.value + Flatten(payloads))
    ensures forall i :: 0 <= i < |frame.payloads| ==>
              Declare(c, frame.payloads)[i].digest == c.digest(frame.payloads[i])
  {
    DeclaredLengths(Declare(c, frame.payloads), frame.payloads);
    var r := Encode(c, limits, frame);
    if r.Ok? {
      var text := c.write(Header(frame.meta, Declare(c, frame.payloads))).value;
      U32RoundTrips(|text|);
      assert r.value[..4] == U32Bytes(|text|);
      LengthIs(r.value);
    }
    hide Flatten, Total, U32Bytes, LengthAt, BigEndian;
  }
}
