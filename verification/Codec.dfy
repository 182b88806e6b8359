/** The PRP/1 codec: a fixed 36-byte header, TLV attributes, payload. */
module Codec {
  import opened Bytes
  import opened Frames
  import Utf8

  // ---------------------------------------------------------------- attributes

  function AttributeBytes(a: Attribute): (r: bytes)
    ensures |r| == 7 + |a.id| + |a.value|
  {
    [if a.required then 1 else 0] + BigEndian(|a.id|, 2) + BigEndian(|a.value|, 4) + a.id + a.value
  }

  function AttributeArea(attributes: seq<Attribute>): bytes {
    if attributes == [] then [] else AttributeBytes(attributes[0]) + AttributeArea(attributes[1..])
  }

  predicate AttributeFits(a: Attribute, limits: Limits) {
    && Utf8.Valid(a.id)
    && 0 < |a.id| <= limits.maxAttributeIdBytes
    && |a.value| <= limits.maxAttributeValueBytes
  }

  predicate AllFit(attributes: seq<Attribute>, limits: Limits) {
    forall i :: 0 <= i < |attributes| ==> AttributeFits(attributes[i], limits)
  }

  predicate AttributesFit(attributes: seq<Attribute>, limits: Limits) {
    && |attributes| <= limits.maxAttributes
    && AllFit(attributes, limits)
    && |AttributeArea(attributes)| <= limits.maxAttributeBytes
  }

  /** The TLV entry at the start of `area`, with its id exactly as on the wire. */
  function ParseOne(area: bytes, limits: Limits): (r: Option<Attribute>)
    ensures r.Some? ==> AttributeFits(r.value, limits) && 7 + |r.value.id| + |r.value.value| <= |area|
  {
    if |area| < 7 || area[0] > 1 then None
    else
      var idBytes := FromBigEndian(area[1..3]);
      var valueBytes := FromBigEndian(area[3..7]);
      if || idBytes == 0 || idBytes > limits.maxAttributeIdBytes
         || valueBytes > limits.maxAttributeValueBytes
         || 7 + idBytes + valueBytes > |area|
         || !Utf8.Valid(area[7..7 + idBytes])
      then None
      else Some(Attribute(area[7..7 + idBytes], area[7 + idBytes..7 + idBytes + valueBytes], area[0] == 1))
  }

  /** All TLV entries, given that `count` entries precede them. */
  function ParseAttributes(area: bytes, count: nat, limits: Limits): Result<seq<Attribute>>
    decreases |area|
  {
    if area == [] then Ok([])
    else if count >= limits.maxAttributes then Err(ViolationFault)
    else
      var one := ParseOne(area, limits);
      if one.None? then Err(ViolationFault)
      else
        var rest := ParseAttributes(area[7 + |one.value.id| + |one.value.value|..], count + 1, limits);
        if rest.Err? then rest else Ok([one.value] + rest.value)
  }

  function Decoded(a: Attribute): Attribute { a.(id := Utf8.StripBom(a.id)) }

  /** Wire attributes as the application sees them. */
  function DecodedAll(attributes: seq<Attribute>): (r: seq<Attribute>)
    ensures |r| == |attributes|
    ensures forall i :: 0 <= i < |r| ==> r[i] == Decoded(attributes[i])
  {
    if attributes == [] then [] else [Decoded(attributes[0])] + DecodedAll(attributes[1..])
  }

  predicate NoBoms(attributes: seq<Attribute>) {
    forall i :: 0 <= i < |attributes| ==> !Utf8.HasBom(attributes[i].id)
  }

  predicate NoBareBoms(attributes: seq<Attribute>) {
    forall i :: 0 <= i < |attributes| ==> attributes[i].id != Utf8.BOM
  }

  lemma ParseOneEncoded(a: Attribute, tail: bytes, limits: Limits)
    requires limits.Resolved() && AttributeFits(a, limits)
    ensures ParseOne(AttributeBytes(a) + tail, limits) == Some(a)
  {
    var area := AttributeBytes(a) + tail;
    Pow256Values();
    BigEndianRoundTrip(|a.id|, 2);
    BigEndianRoundTrip(|a.value|, 4);
    assert area[1..3] == BigEndian(|a.id|, 2);
    assert area[3..7] == BigEndian(|a.value|, 4);
    assert area[7..7 + |a.id|] == a.id;
    assert area[7 + |a.id|..7 + |a.id| + |a.value|] == a.value;
  }

  lemma ParseOneBytes(area: bytes, limits: Limits)
    requires ParseOne(area, limits).Some?
    ensures var a := ParseOne(area, limits).value; area[..7 + |a.id| + |a.value|] == AttributeBytes(a)
  {
    var a := ParseOne(area, limits).value;
    FromBigEndianRoundTrip(area[1..3]);
    FromBigEndianRoundTrip(area[3..7]);
    assert BigEndian(|a.id|, 2) == area[1..3];
    assert BigEndian(|a.value|, 4) == area[3..7];
  }

  lemma {:induction false} ParseArea(attributes: seq<Attribute>, count: nat, limits: Limits)
    requires limits.Resolved() && count + |attributes| <= limits.maxAttributes
    requires AllFit(attributes, limits)
    ensures ParseAttributes(AttributeArea(attributes), count, limits) == Ok(attributes)
    decreases |attributes|
  {
    if attributes != [] {
      var a := attributes[0];
      var rest := attributes[1..];
      var area := AttributeArea(attributes);
      assert AttributeFits(a, limits);
      ParseOneEncoded(a, AttributeArea(rest), limits);
      assert area == AttributeBytes(a) + AttributeArea(rest);
      assert area[7 + |a.id| + |a.value|..] == AttributeArea(rest);
      ParseArea(rest, count + 1, limits);
      assert [a] + rest == attributes;
    }
  }

  lemma {:induction false} AreaOfParsed(area: bytes, count: nat, limits: Limits)
    requires ParseAttributes(area, count, limits).Ok?
    ensures AttributeArea(ParseAttributes(area, count, limits).value) == area
    ensures ParseAttributes(area, count, limits).value == []
         || count + |ParseAttributes(area, count, limits).value| <= limits.maxAttributes
    ensures AllFit(ParseAttributes(area, count, limits).value, limits)
    decreases |area|
  {
    hide ParseOne, AttributeBytes, AttributeFits, Utf8.Valid;
    if area != [] {
      var a := ParseOne(area, limits).value;
      var end := 7 + |a.id| + |a.value|;
      var tail := area[end..];
      AreaOfParsed(tail, count + 1, limits);
      var rest := ParseAttributes(tail, count + 1, limits).value;
      assert ParseAttributes(area, count, limits) == Ok([a] + rest);
      AreaCons(a, rest);
      ParseOneBytes(area, limits);
      assert area == area[..end] + tail;
    }
  }

  lemma AreaCons(a: Attribute, rest: seq<Attribute>)
    ensures AttributeArea([a] + rest) == AttributeBytes(a) + AttributeArea(rest)
  {
    assert ([a] + rest)[1..] == rest;
  }

  /** Each stripped byte order mark shortens the area, so re-encoding shows whether any was there. */
  lemma {:induction false} DecodedArea(attributes: seq<Attribute>)
    ensures NoBoms(attributes) ==> DecodedAll(attributes) == attributes
    ensures !NoBoms(attributes) ==> |AttributeArea(DecodedAll(attributes))| < |AttributeArea(attributes)|
    ensures |AttributeArea(DecodedAll(attributes))| <= |AttributeArea(attributes)|
    decreases |attributes|
  {
    if attributes != [] {
      var rest := attributes[1..];
      DecodedArea(rest);
      assert DecodedAll(attributes)[1..] == DecodedAll(rest);
      if NoBoms(attributes) {
        assert forall i :: 0 <= i < |rest| ==> rest[i] == attributes[i + 1];
        assert NoBoms(rest);
      } else if !Utf8.HasBom(attributes[0].id) {
        var k :| 0 <= k < |attributes| && Utf8.HasBom(attributes[k].id);
        assert attributes[k] == rest[k - 1];
        assert !NoBoms(rest);
      }
    }
  }

  lemma {:induction false} AreaConcat(a: seq<Attribute>, b: seq<Attribute>)
    ensures AttributeArea(a + b) == AttributeArea(a) + AttributeArea(b)
    decreases |a|
  {
    if a == [] {
      assert a + b == b;
    } else {
      assert (a + b)[1..] == a[1..] + b;
      AreaConcat(a[1..], b);
    }
  }

  lemma AreaOne(a: Attribute)
    ensures AttributeArea([a]) == AttributeBytes(a)
  {
    hide AttributeBytes;
    assert [a][1..] == [] && AttributeBytes(a) + [] == AttributeBytes(a);
  }

  lemma AreaSplit(attributes: seq<Attribute>, i: nat)
    requires i < |attributes|
    ensures AttributeArea(attributes[..i + 1]) == AttributeArea(attributes[..i]) + AttributeBytes(attributes[i])
    ensures |AttributeArea(attributes[..i + 1])| <= |AttributeArea(attributes)|
  {
    hide AttributeArea, AttributeBytes;
    var a := attributes[i];
    AreaConcat(attributes[..i], [a]);
    assert attributes[..i] + [a] == attributes[..i + 1];
    AreaOne(a);
    AreaConcat(attributes[..i + 1], attributes[i + 1..]);
    assert attributes[..i + 1] + attributes[i + 1..] == attributes;
  }

  /** The measuring loop of `encodeAttributes`, with its limit checks. */
  method MeasureAttributes(attributes: seq<Attribute>, limits: Limits) returns (r: Result<nat>)
    ensures r == if AttributesFit(attributes, limits) then Ok(|AttributeArea(attributes)|) else Err(RangeFault)
  {
    if |attributes| > limits.maxAttributes { return Err(RangeFault); }
    var length := 0;
    var i := 0;
    while i < |attributes|
      invariant 0 <= i <= |attributes|
      invariant forall j :: 0 <= j < i ==> AttributeFits(attributes[j], limits)
      invariant length == |AttributeArea(attributes[..i])|
      invariant length <= limits.maxAttributeBytes
    {
      var a := attributes[i];
      AreaSplit(attributes, i);
      if !Utf8.Valid(a.id) || |a.id| == 0 || |a.id| > limits.maxAttributeIdBytes
         || |a.value| > limits.maxAttributeValueBytes
      {
        return Err(RangeFault);
      }
      length := length + 7 + |a.id| + |a.value|;
      if length > limits.maxAttributeBytes { return Err(RangeFault); }
      i := i + 1;
    }
    assert attributes[..i] == attributes;
    r := Ok(length);
  }

  /** The flags and the two lengths. */
  method WriteLengths(output: array<byte>, start: nat, a: Attribute)
    requires start + 7 <= output.Length
    modifies output
    ensures output[..start + 7]
         == old(output[..start]) + ([if a.required then 1 else 0] + BigEndian(|a.id|, 2) + BigEndian(|a.value|, 4))
  {
    hide BigEndian;
    Put(output, start, [if a.required then 1 else 0]);
    Put(output, start + 1, BigEndian(|a.id|, 2));
    Put(output, start + 3, BigEndian(|a.value|, 4));
  }

  /** Writes one TLV entry and returns the offset after it. */
  method WriteAttribute(output: array<byte>, start: nat, a: Attribute) returns (offset: nat)
    requires start + 7 + |a.id| + |a.value| <= output.Length
    modifies output
    ensures offset == start + |AttributeBytes(a)|
    ensures output[..offset] == old(output[..start]) + AttributeBytes(a)
  {
    hide BigEndian;
    WriteLengths(output, start, a);
    offset := start + 7;
    Put(output, offset, a.id);
    offset := offset + |a.id|;
    Put(output, offset, a.value);
    offset := offset + |a.value|;
  }

  /** `encodeAttributes`: measure, then write behind a moving offset. */
  method EncodeAttributes(attributes: seq<Attribute>, limits: Limits) returns (r: Result<bytes>)
    ensures r == if AttributesFit(attributes, limits) then Ok(AttributeArea(attributes)) else Err(RangeFault)
  {
    var measured := MeasureAttributes(attributes, limits);
    if measured.Err? { return Err(measured.fault); }
    var output := new byte[measured.value];
    var offset := 0;
    var i := 0;
    while i < |attributes|
      invariant 0 <= i <= |attributes|
      invariant output.Length == |AttributeArea(attributes)|
      invariant offset == |AttributeArea(attributes[..i])| <= output.Length
      invariant output[..offset] == AttributeArea(attributes[..i])
    {
      AreaSplit(attributes, i);
      offset := WriteAttribute(output, offset, attributes[i]);
      i := i + 1;
    }
    assert attributes[..i] == attributes;
    r := Ok(output[..offset]);
  }

  function DecodeAttributes(area: bytes, limits: Limits): Result<seq<Attribute>> {
    if |area| > limits.maxAttributeBytes then Err(ViolationFault)
    else
      var wire := ParseAttributes(area, 0, limits);
      if wire.Err? then Err(ViolationFault)
      else if !NoBareBoms(wire.value) then Err(ViolationFault)
      else Ok(DecodedAll(wire.value))
  }

  lemma BareBom(id: bytes)
    requires id != []
    ensures Utf8.StripBom(id) == [] <==> id == Utf8.BOM
  {
  }

  /** One round of `decodeAttributes`, before the id is turned into text. */
  method ReadAttribute(area: bytes, start: nat, limits: Limits) returns (r: Option<Attribute>)
    requires start <= |area|
    ensures r == ParseOne(area[start..], limits)
  {
    if |area| - start < 7 { return None; }
    var flags := area[start];
    if flags > 1 { return None; }
    ghost var left := area[start..];
    assert area[start + 1..start + 3] == left[1..3] && area[start + 3..start + 7] == left[3..7];
    var idBytes := FromBigEndian(area[start + 1..start + 3]);
    var valueBytes := FromBigEndian(area[start + 3..start + 7]);
    if idBytes == 0 || idBytes > limits.maxAttributeIdBytes { return None; }
    if valueBytes > limits.maxAttributeValueBytes { return None; }
    var offset := start + 7;
    if offset + idBytes + valueBytes > |area| { return None; }
    var id := area[offset..offset + idBytes];
    assert id == left[7..7 + idBytes];
    if !Utf8.Valid(id) { return None; }
    offset := offset + idBytes;
    var value := area[offset..offset + valueBytes];
    assert value == left[7 + idBytes..7 + idBytes + valueBytes];
    r := Some(Attribute(id, value, flags == 1));
  }

  /** The attributes read so far, with what the rest of the area comes to. */
  function Onto(wire: seq<Attribute>, rest: Result<seq<Attribute>>): Result<seq<Attribute>> {
    if rest.Err? then rest else Ok(wire + rest.value)
  }

  lemma ParseStep(wire: seq<Attribute>, area: bytes, limits: Limits)
    ensures var whole, one := Onto(wire, ParseAttributes(area, |wire|, limits)), ParseOne(area, limits);
      if area == [] then whole == Ok(wire)
      else if |wire| >= limits.maxAttributes || one.None? then whole == Err(ViolationFault)
      else
        var a := one.value;
        whole == Onto(wire + [a], ParseAttributes(area[7 + |a.id| + |a.value|..], |wire| + 1, limits))
  {
    hide ParseOne;
    var one := ParseOne(area, limits);
    if area == [] {
      assert wire + [] == wire;
    } else if |wire| < limits.maxAttributes && one.Some? {
      var a := one.value;
      OntoCons(wire, a, ParseAttributes(area[7 + |a.id| + |a.value|..], |wire| + 1, limits));
    }
  }

  lemma OntoCons(wire: seq<Attribute>, a: Attribute, rest: Result<seq<Attribute>>)
    ensures Onto(wire, if rest.Err? then rest else Ok([a] + rest.value)) == Onto(wire + [a], rest)
  {
    assert rest.Ok? ==> wire + ([a] + rest.value) == (wire + [a]) + rest.value;
  }

  lemma OntoNothing(rest: Result<seq<Attribute>>)
    ensures Onto([], rest) == rest
  {
    assert rest.Ok? ==> [] + rest.value == rest.value;
  }

  lemma BareBomRefused(wire: seq<Attribute>, a: Attribute, rest: Result<seq<Attribute>>)
    requires a.id == Utf8.BOM && Onto(wire + [a], rest).Ok?
    ensures !NoBareBoms(Onto(wire + [a], rest).value)
  {
    assert Onto(wire + [a], rest).value[|wire|] == a;
  }

  /** `decodeAttributes`: one loop over the area behind a moving offset. */
  method ReadAttributes(area: bytes, limits: Limits) returns (r: Result<seq<Attribute>>)
    ensures r == DecodeAttributes(area, limits)
  {
    hide ParseOne, Utf8.Valid, ParseAttributes, Onto;
    if |area| > limits.maxAttributeBytes { return Err(ViolationFault); }
    var attributes: seq<Attribute> := [];
    ghost var wire: seq<Attribute> := [];
    ghost var whole := ParseAttributes(area, 0, limits);
    var offset := 0;
    assert area[0..] == area;
    OntoNothing(whole);
    while offset < |area|
      invariant 0 <= offset <= |area|
      invariant |attributes| == |wire| && attributes == DecodedAll(wire) && NoBareBoms(wire)
      invariant whole == Onto(wire, ParseAttributes(area[offset..], |wire|, limits))
    {
      ParseStep(wire, area[offset..], limits);
      if |attributes| >= limits.maxAttributes { return Err(ViolationFault); }
      var one := ReadAttribute(area, offset, limits);
      if one.None? { return Err(ViolationFault); }
      var a := one.value;
      ghost var left := area[offset..];
      offset := offset + 7 + |a.id| + |a.value|;
      assert area[offset..] == left[7 + |a.id| + |a.value|..];
      BareBom(a.id);
      if Utf8.StripBom(a.id) == [] {
        if whole.Ok? {
          BareBomRefused(wire, a, ParseAttributes(area[offset..], |wire| + 1, limits));
        }
        return Err(ViolationFault);
      }
      DecodedAllConcat(wire, a);
      attributes := attributes + [a.(id := Utf8.StripBom(a.id))];
      wire := wire + [a];
    }
    ParseStep(wire, area[offset..], limits);
    r := Ok(attributes);
  }

  lemma {:induction false} DecodedAllConcat(wire: seq<Attribute>, a: Attribute)
    ensures DecodedAll(wire + [a]) == DecodedAll(wire) + [Decoded(a)]
  {
    forall i | 0 <= i < |wire| + 1
      ensures DecodedAll(wire + [a])[i] == (DecodedAll(wire) + [Decoded(a)])[i]
    {
    }
  }

  // ---------------------------------------------------------------- frames

  function Header(f: Frame, attributeBytes: nat): (r: bytes)
    requires 0 <= f.kind < 256 && 0 <= f.flags < 256
    requires 0 <= f.streamId && 0 <= f.sequence && 0 <= HeaderValue(f)
    ensures |r| == FRAME_HEADER_BYTES
  {
    BigEndian(PROTOCOL_MAGIC, 4) + [PROTOCOL_MAJOR, PROTOCOL_MINOR, f.kind, f.flags]
    + BigEndian(FRAME_HEADER_BYTES, 2) + BigEndian(f.streamId, 8) + BigEndian(f.sequence, 8)
    + BigEndian(HeaderValue(f), 4) + BigEndian(attributeBytes, 4) + BigEndian(0, 2)
  }

  predicate Numbered(f: Frame) {
    0 <= f.streamId <= MAX_U64 && 0 < f.sequence <= MAX_U64
  }

  function EncodeFrame(f: Frame, limits: Limits): Result<bytes> {
    if !KnownKind(f.kind) || !Numbered(f) then Err(RangeFault)
    else if !ShapeOk(f) then Err(ViolationFault)
    else if !AttributesFit(f.attributes, limits) then Err(RangeFault)
    else
      var area := AttributeArea(f.attributes);
      if FRAME_HEADER_BYTES + |area| + |f.payload| > limits.maxFrameBytes then Err(RangeFault)
      else Ok(Header(f, |area|) + area + f.payload)
  }

  /** The fields of the fixed header. */
  datatype Fields = Fields(kind: byte, flags: byte, streamId: nat, sequence: nat, value: nat, attributeBytes: nat)

  /** The fixed header of a frame, when it is a PRP/1 header at all. */
  function ReadHeader(input: bytes): Option<Fields> {
    if |input| < FRAME_HEADER_BYTES then None
    else if || FromBigEndian(input[0..4]) != PROTOCOL_MAGIC
            || input[4] != PROTOCOL_MAJOR
            || input[5] != PROTOCOL_MINOR
            || !KnownKind(input[6])
            || FromBigEndian(input[34..36]) != 0
            || FromBigEndian(input[8..10]) != FRAME_HEADER_BYTES
            || FromBigEndian(input[18..26]) == 0
    then None
    else Some(Fields(input[6], input[7], FromBigEndian(input[10..18]), FromBigEndian(input[18..26]),
                     FromBigEndian(input[26..30]), FromBigEndian(input[30..34])))
  }

  /** The frame a header, its attributes and a payload stand for; the header value is typed by kind. */
  function Assemble(h: Fields, attributes: seq<Attribute>, payload: bytes): Frame {
    var fragmented := h.kind == DATA && h.flags % 2 == 1;
    Frame(h.kind, h.streamId, h.sequence, h.flags,
          if h.kind == DEMAND then h.value else 0,
          if fragmented then h.value else 0,
          attributes, payload)
  }

  predicate ValueAllowed(h: Fields) {
    h.value == 0 || h.kind == DEMAND || (h.kind == DATA && h.flags % 2 == 1)
  }

  function DecodeFrame(input: bytes, limits: Limits): Result<Frame> {
    if |input| > limits.maxFrameBytes then Err(ViolationFault)
    else
      var header := ReadHeader(input);
      if header.None? then Err(ViolationFault)
      else
        var h := header.value;
        if h.attributeBytes > limits.maxAttributeBytes || FRAME_HEADER_BYTES + h.attributeBytes > |input|
        then Err(ViolationFault)
        else
          var end := FRAME_HEADER_BYTES + h.attributeBytes;
          var attributes := DecodeAttributes(input[FRAME_HEADER_BYTES..end], limits);
          if attributes.Err? then Err(ViolationFault)
          else
            var f := Assemble(h, attributes.value, input[end..]);
            if !ValueAllowed(h) || !ShapeOk(f) then Err(ViolationFault) else Ok(f)
  }

  /** The attributes of an encoded frame with their ids as on the wire. */
  function WireAttributes(input: bytes, limits: Limits): Result<seq<Attribute>> {
    var header := ReadHeader(input);
    if header.None? || FRAME_HEADER_BYTES + header.value.attributeBytes > |input| then Err(ViolationFault)
    else ParseAttributes(input[FRAME_HEADER_BYTES..FRAME_HEADER_BYTES + header.value.attributeBytes], 0, limits)
  }

  /** Where the eight parts of a header and what follows it lie. */
  lemma HeaderSlices(magic: bytes, four: bytes, size: bytes, id: bytes, sequence: bytes, value: bytes, area: bytes,
                     reserved: bytes, tail: bytes)
    requires |magic| == |four| == |value| == |area| == 4 && |size| == |reserved| == 2 && |id| == |sequence| == 8
    ensures var b := magic + four + size + id + sequence + value + area + reserved + tail;
      && b[0..4] == magic && b[4..8] == four && b[8..10] == size && b[10..18] == id && b[18..26] == sequence
      && b[26..30] == value && b[30..34] == area && b[34..36] == reserved && b[36..] == tail
      && b[4] == four[0] && b[5] == four[1] && b[6] == four[2] && b[7] == four[3]
  {
  }

  lemma ShapeRanges(f: Frame)
    requires ShapeOk(f)
    ensures 0 <= f.flags < 256 && 0 <= HeaderValue(f) <= MAX_U32
  {
  }

  lemma HeaderRead(f: Frame, area: bytes, payload: bytes)
    requires KnownKind(f.kind) && Numbered(f) && ShapeOk(f)
    requires |area| <= MAX_U32
    ensures ReadHeader(Header(f, |area|) + area + payload)
         == Some(Fields(f.kind, f.flags, f.streamId, f.sequence, HeaderValue(f), |area|))
  {
    hide ShapeOk, BigEndian, FromBigEndian, HeaderValue;
    ShapeRanges(f);
    var h := Header(f, |area|);
    var b := h + area + payload;
    Pow256Values();
    BigEndianRoundTrip(PROTOCOL_MAGIC, 4);
    BigEndianRoundTrip(FRAME_HEADER_BYTES, 2);
    BigEndianRoundTrip(f.streamId, 8);
    BigEndianRoundTrip(f.sequence, 8);
    BigEndianRoundTrip(HeaderValue(f), 4);
    BigEndianRoundTrip(|area|, 4);
    BigEndianRoundTrip(0, 2);
    HeaderSlices(BigEndian(PROTOCOL_MAGIC, 4), [PROTOCOL_MAJOR, PROTOCOL_MINOR, f.kind, f.flags],
                 BigEndian(FRAME_HEADER_BYTES, 2), BigEndian(f.streamId, 8), BigEndian(f.sequence, 8),
                 BigEndian(HeaderValue(f), 4), BigEndian(|area|, 4), BigEndian(0, 2), area + payload);
    assert b == h + (area + payload);
  }

  lemma FitsWider(attributes: seq<Attribute>, limits: Limits, wider: Limits)
    requires AttributesFit(attributes, limits) && limits.Within(wider)
    ensures AttributesFit(attributes, wider)
  {
    forall i | 0 <= i < |attributes|
      ensures AttributeFits(attributes[i], wider)
    {
      assert AttributeFits(attributes[i], limits);
    }
  }

  /** A frame accepted by the encoder is decoded, under any limits at least as wide, to what it says. */
  lemma DecodeEncoded(f: Frame, limits: Limits, wider: Limits)
    requires limits.Resolved() && wider.Resolved() && limits.Within(wider)
    requires EncodeFrame(f, limits).Ok?
    ensures WireAttributes(EncodeFrame(f, limits).value, wider) == Ok(f.attributes)
    ensures DecodeFrame(EncodeFrame(f, limits).value, wider)
         == if NoBareBoms(f.attributes) then Ok(f.(attributes := DecodedAll(f.attributes))) else Err(ViolationFault)
  {
    var area := AttributeArea(f.attributes);
    var b := EncodeFrame(f, limits).value;
    HeaderRead(f, area, f.payload);
    assert b[36..36 + |area|] == area;
    assert b[36 + |area|..] == f.payload;
    FitsWider(f.attributes, limits, wider);
    ParseArea(f.attributes, 0, wider);
    assert DecodedAll(f.attributes) == [] <==> f.attributes == [];
  }

  /** Round trip: exactly the frames whose attribute ids carry no byte order mark come back unchanged. */
  lemma DecodeEncodedIff(f: Frame, limits: Limits, wider: Limits)
    requires limits.Resolved() && wider.Resolved() && limits.Within(wider)
    requires EncodeFrame(f, limits).Ok?
    ensures DecodeFrame(EncodeFrame(f, limits).value, wider) == Ok(f) <==> NoBoms(f.attributes)
  {
    DecodeEncoded(f, limits, wider);
    DecodedArea(f.attributes);
    if NoBoms(f.attributes) {
      assert Utf8.HasBom(Utf8.BOM);
    }
  }

  lemma ShapeIgnoresIds(f: Frame, g: Frame)
    requires g == f.(attributes := g.attributes) && (g.attributes == [] <==> f.attributes == [])
    ensures ShapeOk(g) == ShapeOk(f)
  {
  }

  /** Re-encoding a decoded frame with its ids as on the wire gives back the same bytes. */
  lemma EncodeWire(b: bytes, limits: Limits)
    requires DecodeFrame(b, limits).Ok?
    ensures WireAttributes(b, limits).Ok?
    ensures NoBareBoms(WireAttributes(b, limits).value)
    ensures DecodeFrame(b, limits).value.attributes == DecodedAll(WireAttributes(b, limits).value)
    ensures EncodeFrame(DecodeFrame(b, limits).value.(attributes := WireAttributes(b, limits).value), limits) == Ok(b)
  {
    hide ParseAttributes, ReadHeader, Header, ShapeOk, AttributeArea;
    var h := ReadHeader(b).value;
    var end := FRAME_HEADER_BYTES + h.attributeBytes;
    var area := b[FRAME_HEADER_BYTES..end];
    var wire := ParseAttributes(area, 0, limits).value;
    var g := DecodeFrame(b, limits).value.(attributes := wire);
    AreaOfParsed(area, 0, limits);
    assert DecodedAll(wire) == [] <==> wire == [];
    ShapeIgnoresIds(DecodeFrame(b, limits).value, g);
    HeaderWritten(b, g);
    assert b == b[..36] + area + b[end..];
  }

  /** What each limit means on the wire: a frame that can be written at all, under wider limits, fits `limits` iff: */
  lemma FitsExactly(f: Frame, limits: Limits, wider: Limits)
    requires limits.Within(wider)
    ensures EncodeFrame(f, limits).Ok? <==>
      && EncodeFrame(f, wider).Ok?
      && |EncodeFrame(f, wider).value| <= limits.maxFrameBytes
      && |EncodeFrame(f, wider).value| - FRAME_HEADER_BYTES - |f.payload| <= limits.maxAttributeBytes
      && |f.attributes| <= limits.maxAttributes
      && forall i :: 0 <= i < |f.attributes| ==>
           |f.attributes[i].id| <= limits.maxAttributeIdBytes && |f.attributes[i].value| <= limits.maxAttributeValueBytes
  {
    hide Header, AttributeArea, ShapeOk, KnownKind, Utf8.Valid;
    FitEach(f.attributes, limits, wider);
    hide AllFit;
  }

  lemma FitEach(attributes: seq<Attribute>, limits: Limits, wider: Limits)
    requires limits.Within(wider)
    ensures AllFit(attributes, limits) <==>
      AllFit(attributes, wider) && forall i :: 0 <= i < |attributes| ==>
        |attributes[i].id| <= limits.maxAttributeIdBytes && |attributes[i].value| <= limits.maxAttributeValueBytes
  {
    forall i | 0 <= i < |attributes|
      ensures AttributeFits(attributes[i], limits) <==>
        && AttributeFits(attributes[i], wider)
        && |attributes[i].id| <= limits.maxAttributeIdBytes && |attributes[i].value| <= limits.maxAttributeValueBytes
    {
    }
    hide AttributeFits;
  }

  function Wider(a: Limits, b: Limits): Limits {
    Limits(Max(a.maxFrameBytes, b.maxFrameBytes), Max(a.maxAttributeBytes, b.maxAttributeBytes),
           Max(a.maxAttributes, b.maxAttributes), Max(a.maxAttributeIdBytes, b.maxAttributeIdBytes),
           Max(a.maxAttributeValueBytes, b.maxAttributeValueBytes))
  }

  lemma AcceptedFits(f: Frame, limits: Limits, own: Limits)
    requires limits.Resolved() && own.Resolved() && EncodeFrame(f, limits).Ok?
    requires DecodeFrame(EncodeFrame(f, limits).value, own).Ok?
    ensures EncodeFrame(f, own) == EncodeFrame(f, limits) && NoBareBoms(f.attributes)
  {
    hide EncodeFrame, DecodeFrame, WireAttributes, DecodedAll, NoBareBoms;
    var b := EncodeFrame(f, limits).value;
    EncodeWire(b, own);
    var g := DecodeFrame(b, own).value.(attributes := WireAttributes(b, own).value);
    DecodeEncoded(f, limits, Wider(limits, own));
    DecodeEncoded(g, own, Wider(limits, own));
    assert g == f;
  }

  /** A frame is accepted under the reader's limits, whatever they are, exactly when it fits them itself. */
  lemma AcceptedIffFits(f: Frame, limits: Limits, own: Limits)
    requires limits.Resolved() && own.Resolved() && EncodeFrame(f, limits).Ok?
    ensures DecodeFrame(EncodeFrame(f, limits).value, own)
         == if EncodeFrame(f, own).Ok? && NoBareBoms(f.attributes) then Ok(f.(attributes := DecodedAll(f.attributes)))
            else Err(ViolationFault)
  {
    var decoded := DecodeFrame(EncodeFrame(f, limits).value, own);
    assert decoded.Err? ==> decoded.fault == ViolationFault;
    if decoded.Ok? {
      AcceptedFits(f, limits, own);
    }
    if EncodeFrame(f, own).Ok? {
      assert EncodeFrame(f, own) == EncodeFrame(f, limits);
      hide EncodeFrame, DecodeFrame;
      DecodeEncoded(f, own, own);
    }
  }

  /** What the decoder accepts is in the image of the encoder, up to byte order marks. */
  lemma EncodeDecodedIff(b: bytes, limits: Limits)
    requires DecodeFrame(b, limits).Ok?
    ensures WireAttributes(b, limits).Ok?
    ensures EncodeFrame(DecodeFrame(b, limits).value, limits) == Ok(b) <==> NoBoms(WireAttributes(b, limits).value)
  {
    EncodeWire(b, limits);
    var f := DecodeFrame(b, limits).value;
    var wire := WireAttributes(b, limits).value;
    DecodedArea(wire);
    EncodedLength(f, limits);
    EncodedLength(f.(attributes := wire), limits);
    if NoBoms(wire) {
      assert f.(attributes := wire) == f;
    }
  }

  lemma EncodedLength(f: Frame, limits: Limits)
    ensures EncodeFrame(f, limits).Ok?
        ==> |EncodeFrame(f, limits).value| == FRAME_HEADER_BYTES + |AttributeArea(f.attributes)| + |f.payload|
  {
  }

  lemma HeaderRejoined(b: bytes)
    requires |b| >= 36
    ensures b[..36] == b[0..4] + [b[4], b[5], b[6], b[7]] + b[8..10] + b[10..18] + b[18..26] + b[26..30]
                       + b[30..34] + b[34..36]
  {
  }

  lemma HeaderWritten(b: bytes, f: Frame)
    requires ReadHeader(b).Some?
    requires var h := ReadHeader(b).value;
      && ValueAllowed(h) && f == Assemble(h, f.attributes, f.payload) && ShapeOk(f)
    ensures KnownKind(f.kind) && Numbered(f) && Header(f, ReadHeader(b).value.attributeBytes) == b[..36]
  {
    var h := ReadHeader(b).value;
    Pow256Values();
    HeaderRejoined(b);
    FromBigEndianRoundTrip(b[10..18]);
    FromBigEndianRoundTrip(b[18..26]);
    assert HeaderValue(f) == h.value;
    assert BigEndian(PROTOCOL_MAGIC, 4) == b[0..4] by { FromBigEndianRoundTrip(b[0..4]); }
    assert BigEndian(FRAME_HEADER_BYTES, 2) == b[8..10] by { FromBigEndianRoundTrip(b[8..10]); }
    assert BigEndian(h.value, 4) == b[26..30] by { FromBigEndianRoundTrip(b[26..30]); }
    assert BigEndian(h.attributeBytes, 4) == b[30..34] by { FromBigEndianRoundTrip(b[30..34]); }
    assert BigEndian(0, 2) == b[34..36] by { FromBigEndianRoundTrip(b[34..36]); }
  }

  method WriteHeader(output: array<byte>, f: Frame, headerValue: nat, attributeBytes: nat)
    requires KnownKind(f.kind) && Numbered(f) && 0 <= f.flags < 256 && headerValue == HeaderValue(f)
    requires FRAME_HEADER_BYTES <= output.Length
    modifies output
    ensures output[..FRAME_HEADER_BYTES] == Header(f, attributeBytes)
  {
    hide BigEndian, HeaderValue;
    Put(output, 0, BigEndian(PROTOCOL_MAGIC, 4));
    Put(output, 4, [PROTOCOL_MAJOR]);
    Put(output, 5, [PROTOCOL_MINOR]);
    Put(output, 6, [f.kind]);
    Put(output, 7, [f.flags]);
    assert output[..8] == BigEndian(PROTOCOL_MAGIC, 4) + [PROTOCOL_MAJOR, PROTOCOL_MINOR, f.kind, f.flags];
    Put(output, 8, BigEndian(FRAME_HEADER_BYTES, 2));
    Put(output, 10, BigEndian(f.streamId, 8));
    Put(output, 18, BigEndian(f.sequence, 8));
    Put(output, 26, BigEndian(headerValue, 4));
    Put(output, 30, BigEndian(attributeBytes, 4));
    Put(output, 34, BigEndian(0, 2));
  }

  /** `encodeFrame`: checks in source order, then header, attributes and payload into one buffer. */
  method WriteFrame(f: Frame, limits: Limits) returns (r: Result<bytes>)
    ensures r == EncodeFrame(f, limits)
  {
    hide BigEndian, AttributesFit, AttributeArea, Header;
    if !KnownKind(f.kind) { return Err(RangeFault); }
    if !Numbered(f) { return Err(RangeFault); }
    if !ShapeOk(f) { return Err(ViolationFault); }
    var fragmented := f.kind == DATA && f.flags % 2 == 1;
    var headerValue := if fragmented then f.fragmentLength else f.credit;
    var encoded := EncodeAttributes(f.attributes, limits);
    if encoded.Err? { return Err(encoded.fault); }
    var area := encoded.value;
    var frameBytes := FRAME_HEADER_BYTES + |area| + |f.payload|;
    if frameBytes > limits.maxFrameBytes { return Err(RangeFault); }
    var output := new byte[frameBytes];
    WriteHeader(output, f, headerValue, |area|);
    Put(output, FRAME_HEADER_BYTES, area);
    Put(output, FRAME_HEADER_BYTES + |area|, f.payload);
    assert output[..] == output[..frameBytes];
    r := Ok(output[..]);
  }
}
