/**
 * The Rust kernel's frame validator and header encoder, written from its own source, and how its
 * verdict relates to the TypeScript decoder's under the default limits.
 */
module RustKernel {
  import opened Bytes
  import opened Frames
  import Codec
  import Utf8

  const HEADER_BYTES := 36
  const MAX_FRAME_BYTES := 16 * 1024 * 1024
  const MAX_ATTRIBUTE_BYTES := 1024 * 1024
  const MAX_ATTRIBUTES := 256
  const MAX_ATTRIBUTE_ID_BYTES := 1024
  const MAX_ATTRIBUTE_VALUE_BYTES := 1024 * 1024

  /** One attribute entry at `offset` of the area; the offset after it. */
  function Entry(area: bytes, offset: nat): (next: Option<nat>)
    requires offset <= |area|
    ensures next.Some? ==> offset < next.value <= |area|
  {
    if |area| - offset < 7 || area[offset] > 1 then None
    else
      var idLen := FromBigEndian(area[offset + 1..offset + 3]);
      var valueLen := FromBigEndian(area[offset + 3..offset + 7]);
      if idLen == 0 || idLen > MAX_ATTRIBUTE_ID_BYTES || valueLen > MAX_ATTRIBUTE_VALUE_BYTES then None
      else if offset + 7 + idLen + valueLen > |area| then None
      else if !Utf8.Valid(area[offset + 7..offset + 7 + idLen]) then None
      else Some(offset + 7 + idLen + valueLen)
  }

  predicate Entries(area: bytes, offset: nat, count: nat)
    requires offset <= |area|
    decreases |area| - offset
  {
    offset == |area|
    || (count < MAX_ATTRIBUTES && var next := Entry(area, offset); (next.Some? && Entries(area, next.value, count + 1)))
  }

  /** The shape of each kind; the last clause stands for `unreachable!`. */
  predicate Shape(kind: int, streamId: nat, flags: nat, value: nat, hasAttributes: bool, payload: bytes) {
    var hasPayload := payload != [];
    if kind == HELLO || kind == WELCOME then streamId == 0 && flags == 0 && value == 0 && !hasPayload
    else if kind == CLOSE then streamId == 0 && flags == 0 && value == 0 && !hasAttributes
    else if kind == PING || kind == PONG then
      streamId == 0 && flags == 0 && value == 0 && !hasAttributes && |payload| == 8 && FromBigEndian(payload) != 0
    else if kind == OPEN then streamId != 0 && flags == 0 && value == 0 && !hasPayload
    else if kind == DATA then
      && streamId != 0 && flags <= 1
      && (if flags == 1 then value != 0 && |payload| < value else value == 0)
    else if kind == FRAGMENT then streamId != 0 && flags == 0 && value == 0 && !hasAttributes && hasPayload
    else if kind == DEMAND then streamId != 0 && flags == 0 && value != 0 && !hasAttributes && !hasPayload
    else if kind == COMPLETE then streamId != 0 && flags == 0 && value == 0 && !hasAttributes && !hasPayload
    else if kind == CANCEL then streamId != 0 && flags == 0 && value == 0 && !hasAttributes
    else if kind == ERROR then flags == 0 && value == 0
    else if kind == SIGNAL then streamId == 0 && flags == 0 && value == 0
    else false
  }

  /** `validate_frame`. */
  predicate Accepts(frame: bytes) {
    && HEADER_BYTES <= |frame| <= MAX_FRAME_BYTES
    && FromBigEndian(frame[0..4]) == PROTOCOL_MAGIC && frame[4] == 1 && frame[5] == 0
    && KnownKind(frame[6])
    && frame[34] == 0 && frame[35] == 0
    && FromBigEndian(frame[8..10]) == HEADER_BYTES
    && FromBigEndian(frame[18..26]) != 0
    && var attributeBytes := FromBigEndian(frame[30..34]);
       && attributeBytes <= MAX_ATTRIBUTE_BYTES
       && HEADER_BYTES + attributeBytes <= |frame|
       && Entries(frame[36..36 + attributeBytes], 0, 0)
       && Shape(frame[6], FromBigEndian(frame[10..18]), frame[7], FromBigEndian(frame[26..30]), attributeBytes != 0,
                frame[36 + attributeBytes..])
  }

  // ---------------------------------------------------------------- against the decoder

  lemma EntryIsParsed(area: bytes, offset: nat)
    requires offset <= |area|
    ensures var one := Codec.ParseOne(area[offset..], DEFAULT_LIMITS);
      Entry(area, offset) == if one.None? then None else Some(offset + 7 + |one.value.id| + |one.value.value|)
  {
    var rest := area[offset..];
    if |rest| >= 7 {
      assert rest[1..3] == area[offset + 1..offset + 3] && rest[3..7] == area[offset + 3..offset + 7];
      var idLen := FromBigEndian(rest[1..3]);
      if 7 + idLen <= |rest| {
        assert rest[7..7 + idLen] == area[offset + 7..offset + 7 + idLen];
      }
    }
  }

  lemma {:induction false} EntriesAreParsed(area: bytes, offset: nat, count: nat)
    requires offset <= |area|
    ensures Entries(area, offset, count) <==> Codec.ParseAttributes(area[offset..], count, DEFAULT_LIMITS).Ok?
    decreases |area| - offset
  {
    hide Codec.ParseOne, Entry;
    EntryIsParsed(area, offset);
    var next := Entry(area, offset);
    if offset < |area| && next.Some? {
      assert area[offset..][next.value - offset..] == area[next.value..];
      EntriesAreParsed(area, next.value, count + 1);
    }
  }

  /** A PING or PONG probe of zero. */
  predicate ZeroProbe(frame: bytes) {
    |frame| >= 44 && (frame[6] == PING || frame[6] == PONG) && FromBigEndian(frame[|frame| - 8..]) == 0
  }

  lemma TwoZeros(pair: bytes)
    requires |pair| == 2
    ensures FromBigEndian(pair) == 0 <==> pair[0] == 0 && pair[1] == 0
  {
    assert pair[..1][..0] == [] && FromBigEndian(pair[..1]) == pair[0];
  }

  lemma ShapesAgree(h: Codec.Fields, attributes: seq<Attribute>, payload: bytes)
    requires KnownKind(h.kind) && h.value <= MAX_U32
    ensures Shape(h.kind, h.streamId, h.flags, h.value, attributes != [], payload)
       <==> Codec.ValueAllowed(h) && ShapeOk(Codec.Assemble(h, attributes, payload))
            && !((h.kind == PING || h.kind == PONG) && FromBigEndian(payload) == 0)
  {
  }

  /** The header checks are the same. */
  lemma HeadersAgree(frame: bytes)
    requires HEADER_BYTES <= |frame|
    ensures Codec.ReadHeader(frame).Some? <==>
      && FromBigEndian(frame[0..4]) == PROTOCOL_MAGIC && frame[4] == 1 && frame[5] == 0
      && KnownKind(frame[6]) && frame[34] == 0 && frame[35] == 0
      && FromBigEndian(frame[8..10]) == HEADER_BYTES && FromBigEndian(frame[18..26]) != 0
  {
    assert frame[34..36][0] == frame[34] && frame[34..36][1] == frame[35];
    TwoZeros(frame[34..36]);
    hide FromBigEndian;
  }

  /** The verdict in terms of the decoder's own parts. */
  lemma AcceptsMeans(frame: bytes)
    ensures Accepts(frame) <==>
      && |frame| <= DEFAULT_LIMITS.maxFrameBytes && Codec.ReadHeader(frame).Some?
      && var h := Codec.ReadHeader(frame).value;
         && h.attributeBytes <= DEFAULT_LIMITS.maxAttributeBytes && FRAME_HEADER_BYTES + h.attributeBytes <= |frame|
         && Codec.ParseAttributes(frame[36..36 + h.attributeBytes], 0, DEFAULT_LIMITS).Ok?
         && Shape(h.kind, h.streamId, h.flags, h.value, h.attributeBytes != 0, frame[36 + h.attributeBytes..])
  {
    if HEADER_BYTES <= |frame| {
      HeadersAgree(frame);
      var attributeBytes := FromBigEndian(frame[30..34]);
      if HEADER_BYTES + attributeBytes <= |frame| {
        var area := frame[36..36 + attributeBytes];
        EntriesAreParsed(area, 0, 0);
        assert area[0..] == area;
      }
    }
    hide Entries, Shape, Codec.ParseAttributes, FromBigEndian;
  }

  /** The decoder's verdict in the same parts. */
  lemma DecodesMeans(frame: bytes)
    ensures Codec.DecodeFrame(frame, DEFAULT_LIMITS).Ok? <==>
      && |frame| <= DEFAULT_LIMITS.maxFrameBytes && Codec.ReadHeader(frame).Some?
      && var h := Codec.ReadHeader(frame).value;
         && h.attributeBytes <= DEFAULT_LIMITS.maxAttributeBytes && FRAME_HEADER_BYTES + h.attributeBytes <= |frame|
         && var wire := Codec.ParseAttributes(frame[36..36 + h.attributeBytes], 0, DEFAULT_LIMITS);
            && wire.Ok? && Codec.NoBareBoms(wire.value) && Codec.ValueAllowed(h)
            && ShapeOk(Codec.Assemble(h, Codec.DecodedAll(wire.value), frame[36 + h.attributeBytes..]))
  {
    hide Codec.ReadHeader, Codec.ParseAttributes, ShapeOk, Codec.NoBareBoms;
  }

  /** Shape for shape: the kernel's is the decoder's without zero probes. */
  lemma ShapesOfFrame(frame: bytes)
    requires Codec.ReadHeader(frame).Some? && FRAME_HEADER_BYTES + Codec.ReadHeader(frame).value.attributeBytes <= |frame|
    requires Codec.WireAttributes(frame, DEFAULT_LIMITS).Ok?
    ensures var h := Codec.ReadHeader(frame).value;
      var payload := frame[36 + h.attributeBytes..];
      var wire := Codec.WireAttributes(frame, DEFAULT_LIMITS).value;
      Shape(h.kind, h.streamId, h.flags, h.value, h.attributeBytes != 0, payload)
      <==> Codec.ValueAllowed(h) && ShapeOk(Codec.Assemble(h, Codec.DecodedAll(wire), payload)) && !ZeroProbe(frame)
  {
    var h := Codec.ReadHeader(frame).value;
    var area, payload := frame[36..36 + h.attributeBytes], frame[36 + h.attributeBytes..];
    var wire := Codec.WireAttributes(frame, DEFAULT_LIMITS).value;
    HeaderRange(frame);
    EmptyArea(area);
    ShapesAgree(h, Codec.DecodedAll(wire), payload);
    ProbeIsPayload(frame, h, wire);
    hide Shape, ShapeOk, Codec.ReadHeader, Codec.ParseAttributes, FromBigEndian, ZeroProbe;
  }

  /**
   * The two validators accept the same frames, but for two cases: a PING or PONG with a zero probe, which
   * only the decoder accepts, and an attribute id that is nothing but a byte order mark, which only the
   * kernel accepts.
   */
  lemma KernelAgreesIff(frame: bytes)
    ensures Accepts(frame) ==> Codec.WireAttributes(frame, DEFAULT_LIMITS).Ok?
    ensures Codec.DecodeFrame(frame, DEFAULT_LIMITS).Ok? ==> Codec.WireAttributes(frame, DEFAULT_LIMITS).Ok?
    ensures (Codec.DecodeFrame(frame, DEFAULT_LIMITS).Ok? && !ZeroProbe(frame))
       <==> (Accepts(frame) && Codec.NoBareBoms(Codec.WireAttributes(frame, DEFAULT_LIMITS).value))
  {
    hide Accepts, Codec.DecodeFrame, Shape, ShapeOk, Codec.ReadHeader, Codec.ParseAttributes, ZeroProbe, Codec.NoBareBoms;
    AcceptsMeans(frame);
    DecodesMeans(frame);
    var header := Codec.ReadHeader(frame);
    if header.Some? && FRAME_HEADER_BYTES + header.value.attributeBytes <= |frame| {
      if Codec.WireAttributes(frame, DEFAULT_LIMITS).Ok? {
        ShapesOfFrame(frame);
      }
    }
  }

  lemma HeaderRange(frame: bytes)
    requires Codec.ReadHeader(frame).Some?
    ensures var h := Codec.ReadHeader(frame).value; KnownKind(h.kind) && h.value <= MAX_U32 && h.kind == frame[6]
  {
    FromBigEndianRoundTrip(frame[26..30]);
    Pow256Values();
  }

  lemma EmptyArea(area: bytes)
    requires Codec.ParseAttributes(area, 0, DEFAULT_LIMITS).Ok?
    ensures Codec.ParseAttributes(area, 0, DEFAULT_LIMITS).value == [] <==> area == []
  {
  }

  lemma ProbeIsPayload(frame: bytes, h: Codec.Fields, attributes: seq<Attribute>)
    requires Codec.ReadHeader(frame) == Some(h) && FRAME_HEADER_BYTES + h.attributeBytes <= |frame|
    requires attributes == [] <==> h.attributeBytes == 0
    ensures var payload := frame[36 + h.attributeBytes..];
      ShapeOk(Codec.Assemble(h, Codec.DecodedAll(attributes), payload)) ==>
        (ZeroProbe(frame) <==> (h.kind == PING || h.kind == PONG) && FromBigEndian(payload) == 0)
  {
    var payload := frame[36 + h.attributeBytes..];
    var f := Codec.Assemble(h, Codec.DecodedAll(attributes), payload);
    if ShapeOk(f) && (h.kind == PING || h.kind == PONG) {
      assert f.attributes == [] && |payload| == 8;
      assert frame[|frame| - 8..] == payload;
    }
  }

  /** The kernel accepts every frame the encoder writes, but for zero probes. */
  lemma AcceptsEncoded(f: Frame)
    requires Codec.EncodeFrame(f, DEFAULT_LIMITS).Ok?
    ensures Accepts(Codec.EncodeFrame(f, DEFAULT_LIMITS).value)
       <==> !((f.kind == PING || f.kind == PONG) && FromBigEndian(f.payload) == 0)
  {
    var area := Codec.AttributeArea(f.attributes);
    var b := Codec.EncodeFrame(f, DEFAULT_LIMITS).value;
    Codec.HeaderRead(f, area, f.payload);
    Codec.ParseArea(f.attributes, 0, DEFAULT_LIMITS);
    AcceptsMeans(b);
    var h := Codec.ReadHeader(b).value;
    assert b[36..36 + |area|] == area && b[36 + |area|..] == f.payload;
    EmptyArea(area);
    FrameRebuilt(f, h);
    ShapesAgree(h, f.attributes, f.payload);
    hide Shape, ShapeOk, Codec.ReadHeader, Codec.ParseAttributes, FromBigEndian, Accepts, Codec.AttributeArea;
  }

  lemma FrameRebuilt(f: Frame, h: Codec.Fields)
    requires ShapeOk(f) && KnownKind(f.kind) && 0 <= f.streamId && 0 <= f.sequence
    requires (h.kind, h.flags, h.streamId, h.sequence, h.value) == (f.kind, f.flags, f.streamId, f.sequence, HeaderValue(f))
    ensures Codec.Assemble(h, f.attributes, f.payload) == f && Codec.ValueAllowed(h) && h.value <= MAX_U32
  {
  }

  /** Both exceptions occur: a zero probe, and an id that is a bare byte order mark. */
  lemma KernelDiffers()
    ensures exists b :: Codec.DecodeFrame(b, DEFAULT_LIMITS).Ok? && !Accepts(b)
    ensures exists b :: Codec.DecodeFrame(b, DEFAULT_LIMITS).Err? && Accepts(b)
  {
    var zeros: bytes := [0, 0, 0, 0, 0, 0, 0, 0];
    var ping := Frame(PING, 0, 1, 0, 0, 0, [], zeros);
    ZeroValue();
    assert Codec.EncodeFrame(ping, DEFAULT_LIMITS).Ok?;
    Codec.DecodeEncoded(ping, DEFAULT_LIMITS, DEFAULT_LIMITS);
    AcceptsEncoded(ping);
    var open := Frame(OPEN, 1, 1, 0, 0, 0, [Attribute(Utf8.BOM, [], false)], []);
    BomEncodes(open);
    Codec.DecodeEncoded(open, DEFAULT_LIMITS, DEFAULT_LIMITS);
    AcceptsEncoded(open);
    hide Codec.EncodeFrame, Codec.DecodeFrame, Accepts, FromBigEndian;
    assert open.attributes[0].id == Utf8.BOM;
    assert Codec.DecodeFrame(Codec.EncodeFrame(ping, DEFAULT_LIMITS).value, DEFAULT_LIMITS).Ok?;
    assert Codec.DecodeFrame(Codec.EncodeFrame(open, DEFAULT_LIMITS).value, DEFAULT_LIMITS).Err?;
  }

  lemma ZeroValue()
    ensures FromBigEndian([0, 0, 0, 0, 0, 0, 0, 0]) == 0
  {
    Pow256Values();
    BigEndianRoundTrip(0, 8);
    ZeroBytes(8);
    assert ZeroRow(8) == [0, 0, 0, 0, 0, 0, 0, 0];
  }

  function ZeroRow(n: nat): bytes { seq(n, i => 0) }

  lemma {:induction false} ZeroBytes(n: nat)
    ensures BigEndian(0, n) == ZeroRow(n)
    decreases n
  {
    if n > 0 {
      ZeroBytes(n - 1);
      assert ZeroRow(n) == ZeroRow(n - 1) + [0];
    }
  }

  lemma BomEncodes(f: Frame)
    requires f == Frame(OPEN, 1, 1, 0, 0, 0, [Attribute(Utf8.BOM, [], false)], [])
    ensures Codec.EncodeFrame(f, DEFAULT_LIMITS).Ok?
  {
    var a := f.attributes[0];
    assert Utf8.CharBytes(Utf8.BOM) == 3;
    assert Utf8.Valid(Utf8.BOM[3..]);
    assert Codec.AttributeFits(a, DEFAULT_LIMITS);
    assert f.attributes[1..] == [];
    assert |Codec.AttributeArea(f.attributes)| == 10;
  }

  // ---------------------------------------------------------------- the loop, and the header encoder

  /** `validate_frame`, with its moving offset. */
  method ValidateFrame(frame: bytes) returns (ok: bool)
    ensures ok == Accepts(frame)
  {
    hide Shape, Entries, FromBigEndian;
    if |frame| > MAX_FRAME_BYTES || |frame| < HEADER_BYTES {
      return false;
    }
    if FromBigEndian(frame[0..4]) != PROTOCOL_MAGIC || frame[4] != 1 || frame[5] != 0 || !KnownKind(frame[6]) {
      return false;
    }
    if frame[34] != 0 || frame[35] != 0 || FromBigEndian(frame[8..10]) != HEADER_BYTES || FromBigEndian(frame[18..26]) == 0 {
      return false;
    }
    var attributeBytes := FromBigEndian(frame[30..34]);
    if attributeBytes > MAX_ATTRIBUTE_BYTES || HEADER_BYTES + attributeBytes > |frame| {
      return false;
    }
    var entries := ValidateEntries(frame[36..36 + attributeBytes]);
    ok := entries && Shape(frame[6], FromBigEndian(frame[10..18]), frame[7], FromBigEndian(frame[26..30]),
                           attributeBytes != 0, frame[36 + attributeBytes..]);
  }

  method ValidateEntries(area: bytes) returns (ok: bool)
    ensures ok == Entries(area, 0, 0)
  {
    var offset, count := 0, 0;
    while offset < |area|
      invariant 0 <= offset <= |area| && 0 <= count
      invariant Entries(area, 0, 0) == Entries(area, offset, count)
      decreases |area| - offset
    {
      if count >= MAX_ATTRIBUTES {
        return false;
      }
      var next := Entry(area, offset);
      if next.None? {
        return false;
      }
      offset, count := next.value, count + 1;
    }
    ok := true;
  }

  /** `encode_header`. */
  function EncodeHeader(kind: byte, streamId: nat, sequence: nat, flags: byte, value: nat, attributeBytes: nat): Option<bytes> {
    if !KnownKind(kind) || sequence == 0 || attributeBytes > MAX_ATTRIBUTE_BYTES then None
    else
      Some(BigEndian(PROTOCOL_MAGIC, 4) + [1, 0, kind, flags] + BigEndian(HEADER_BYTES, 2) + BigEndian(streamId, 8)
           + BigEndian(sequence, 8) + BigEndian(value, 4) + BigEndian(attributeBytes, 4) + [0, 0])
  }

  /** The same, copied field by field into a zeroed vector. */
  method WriteHeader(kind: byte, streamId: nat, sequence: nat, flags: byte, value: nat, attributeBytes: nat)
    returns (r: Option<bytes>)
    ensures r == EncodeHeader(kind, streamId, sequence, flags, value, attributeBytes)
  {
    if !KnownKind(kind) || sequence == 0 || attributeBytes > MAX_ATTRIBUTE_BYTES {
      return None;
    }
    hide BigEndian;
    var header := new byte[HEADER_BYTES](_ => 0);
    Put(header, 0, BigEndian(PROTOCOL_MAGIC, 4));
    assert header[..4] == BigEndian(PROTOCOL_MAGIC, 4);
    Put(header, 4, [1, 0, kind, flags]);
    Put(header, 8, BigEndian(HEADER_BYTES, 2));
    Put(header, 10, BigEndian(streamId, 8));
    Put(header, 18, BigEndian(sequence, 8));
    Put(header, 26, BigEndian(value, 4));
    Put(header, 30, BigEndian(attributeBytes, 4));
    assert header[34..] == [0, 0];
    assert header[..] == header[..34] + header[34..];
    r := Some(header[..]);
  }

  /** What the kernel writes, the decoder reads back. */
  lemma HeaderReadBack(kind: byte, streamId: nat, sequence: nat, flags: byte, value: nat, attributeBytes: nat)
    requires streamId <= MAX_U64 && sequence <= MAX_U64 && value <= MAX_U32
    requires EncodeHeader(kind, streamId, sequence, flags, value, attributeBytes).Some?
    ensures Codec.ReadHeader(EncodeHeader(kind, streamId, sequence, flags, value, attributeBytes).value)
         == Some(Codec.Fields(kind, flags, streamId, sequence, value, attributeBytes))
  {
    Pow256Values();
    BigEndianRoundTrip(PROTOCOL_MAGIC, 4);
    BigEndianRoundTrip(HEADER_BYTES, 2);
    BigEndianRoundTrip(streamId, 8);
    BigEndianRoundTrip(sequence, 8);
    BigEndianRoundTrip(value, 4);
    BigEndianRoundTrip(attributeBytes, 4);
    TwoZeros([0, 0]);
    hide BigEndian, FromBigEndian;
    var h := EncodeHeader(kind, streamId, sequence, flags, value, attributeBytes).value;
    Codec.HeaderSlices(BigEndian(PROTOCOL_MAGIC, 4), [1, 0, kind, flags], BigEndian(HEADER_BYTES, 2), BigEndian(streamId, 8),
                       BigEndian(sequence, 8), BigEndian(value, 4), BigEndian(attributeBytes, 4), [0, 0], []);
    assert h + [] == h;
  }

  /** A header that the decoder reads, the kernel writes, byte for byte, if the attribute area is within its limit. */
  lemma HeaderRewritten(input: bytes)
    requires Codec.ReadHeader(input).Some?
    ensures var h := Codec.ReadHeader(input).value;
      EncodeHeader(h.kind, h.streamId, h.sequence, h.flags, h.value, h.attributeBytes)
      == if h.attributeBytes <= MAX_ATTRIBUTE_BYTES then Some(input[..36]) else None
  {
    FromBigEndianRoundTrip(input[0..4]);
    FromBigEndianRoundTrip(input[8..10]);
    FromBigEndianRoundTrip(input[10..18]);
    FromBigEndianRoundTrip(input[18..26]);
    FromBigEndianRoundTrip(input[26..30]);
    FromBigEndianRoundTrip(input[30..34]);
    TwoZeros(input[34..36]);
    HeaderPieces(input);
    hide BigEndian, FromBigEndian;
    assert input[34..36] == [0, 0];
    assert BigEndian(PROTOCOL_MAGIC, 4) == input[0..4] && BigEndian(HEADER_BYTES, 2) == input[8..10];
  }

  lemma HeaderPieces(input: bytes)
    requires |input| >= 36
    ensures input[..36] == input[0..4] + [input[4], input[5], input[6], input[7]] + input[8..10] + input[10..18]
                           + input[18..26] + input[26..30] + input[30..34] + input[34..36]
  {
  }

  /** The kernel's header is the encoder's, byte for byte. */
  lemma HeaderEncodersAgree(f: Frame)
    requires Codec.EncodeFrame(f, DEFAULT_LIMITS).Ok?
    ensures 0 <= f.flags < 256 && f.streamId >= 0 && f.sequence >= 0 && HeaderValue(f) >= 0
    ensures EncodeHeader(f.kind, f.streamId, f.sequence, f.flags, HeaderValue(f), |Codec.AttributeArea(f.attributes)|)
         == Some(Codec.EncodeFrame(f, DEFAULT_LIMITS).value[..36])
  {
    Codec.ShapeRanges(f);
    var area := Codec.AttributeArea(f.attributes);
    var header := Codec.Header(f, |area|);
    ZeroBytes(2);
    assert ZeroRow(2) == [0, 0];
    assert Codec.EncodeFrame(f, DEFAULT_LIMITS).value == header + (area + f.payload);
    assert (header + (area + f.payload))[..36] == header;
    hide BigEndian, Codec.AttributeArea, ShapeOk;
  }
}
