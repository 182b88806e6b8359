/**
 * The RSocket 1.0 request and PAYLOAD frames: a six-byte header of stream id, type and flags, an
 * initial request count for two of the types, then optional length-prefixed metadata, then data.
 */
module RSocketCodec {
  import opened Bytes

  const HEADER_BYTES := 6
  const MAX_FRAME_BYTES := 0x00ff_ffff
  const MAX_U31 := 0x7fff_ffff
  const MAX_U24 := 0xff_ffff

  datatype Kind = RequestResponse | RequestFnf | RequestStream | RequestChannel | Payload

  function Code(kind: Kind): nat {
    match kind
    case RequestResponse => 0x04
    case RequestFnf => 0x05
    case RequestStream => 0x06
    case RequestChannel => 0x07
    case Payload => 0x0a
  }

  function KindOf(code: nat): Option<Kind> {
    if code == 0x04 then Some(RequestResponse)
    else if code == 0x05 then Some(RequestFnf)
    else if code == 0x06 then Some(RequestStream)
    else if code == 0x07 then Some(RequestChannel)
    else if code == 0x0a then Some(Payload)
    else None
  }

  type LowBits = n: nat | n < 0x20

  /** The ten flag bits, IGNORE first; `rest` are the five this protocol does not name here. */
  datatype Flags = Flags(ignore: bool, metadata: bool, follows: bool, complete: bool, next: bool, rest: LowBits)

  const NO_FLAGS := Flags(false, false, false, false, false, 0)

  function Bit(b: bool): nat { if b then 1 else 0 }

  function FlagBits(f: Flags): nat {
    0x200 * Bit(f.ignore) + 0x100 * Bit(f.metadata) + 0x80 * Bit(f.follows) + 0x40 * Bit(f.complete)
    + 0x20 * Bit(f.next) + f.rest
  }

  function FlagsOf(bits: nat): Flags {
    Flags(bits / 0x200 % 2 == 1, bits / 0x100 % 2 == 1, bits / 0x80 % 2 == 1, bits / 0x40 % 2 == 1,
          bits / 0x20 % 2 == 1, bits % 0x20)
  }

  datatype Frame = Frame(
    kind: Kind,
    streamId: nat,
    flags: Flags,
    initialRequestN: nat,
    metadata: Option<bytes>,
    data: Option<bytes>)

  predicate Counted(kind: Kind) { kind.RequestStream? || kind.RequestChannel? }

  function Content(field: Option<bytes>): bytes { if field.None? then [] else field.value }

  function MetadataData(metadata: Option<bytes>, data: Option<bytes>): bytes {
    (if metadata.None? then [] else BigEndian(|metadata.value|, 3) + metadata.value) + Content(data)
  }

  predicate Encodable(f: Frame) {
    && 0 < f.streamId <= MAX_U31
    && (Counted(f.kind) ==> 0 < f.initialRequestN <= MAX_U31)
    && (f.metadata.Some? ==> |f.metadata.value| <= MAX_U24)
    && (f.kind.Payload? ==> f.flags.next || f.flags.complete)
    && EncodedBytes(f) <= MAX_FRAME_BYTES
  }

  /** `frameEncodedBytes`. */
  function EncodedBytes(f: Frame): nat {
    HEADER_BYTES + (if Counted(f.kind) then 4 else 0)
    + (if f.metadata.None? then 0 else 3 + |f.metadata.value|) + |Content(f.data)|
  }

  /** The flags as written: METADATA is set whenever metadata is present. */
  function WireFlags(f: Frame): Flags { f.flags.(metadata := f.flags.metadata || f.metadata.Some?) }

  function TypeAndFlags(f: Frame): nat { Code(f.kind) * 1024 + FlagBits(WireFlags(f)) % 1024 }

  function Count(f: Frame): bytes { if Counted(f.kind) then BigEndian(f.initialRequestN, 4) else [] }

  function Encode(f: Frame): Result<bytes> {
    if !Encodable(f) then Err(RangeFault)
    else Ok(BigEndian(f.streamId, 4) + BigEndian(TypeAndFlags(f), 2) + (Count(f) + MetadataData(f.metadata, f.data)))
  }

  /** A frame, a malformed one, or one of the types this model leaves out. */
  datatype Decoded = Decoded(frame: Frame) | Malformed | Foreign

  /** Which kinds report empty data as present. */
  function DataField(kind: Kind, flags: Flags, data: bytes): Option<bytes> {
    if data != [] || kind.RequestResponse? || (kind.Payload? && flags.next) then Some(data) else None
  }

  function DecodeBody(kind: Kind, streamId: nat, flags: Flags, n: nat, body: bytes): Decoded {
    if !flags.metadata then Decoded(Frame(kind, streamId, flags, n, None, DataField(kind, flags, body)))
    else if |body| < 3 then Malformed
    else
      var length := FromBigEndian(body[..3]);
      if 3 + length > |body| then Malformed
      else Decoded(Frame(kind, streamId, flags, n, Some(body[3..3 + length]),
                         DataField(kind, flags, body[3 + length..])))
  }

  /** The part of `Decode` after the header. */
  function Rest(streamId: nat, flags: Flags, kind: Kind, body: bytes): Decoded {
    if !Counted(kind) then DecodeBody(kind, streamId, flags, 0, body)
    else if |body| < 4 then Malformed
    else
      var n := FromBigEndian(body[..4]);
      if n == 0 || n > MAX_U31 then Malformed else DecodeBody(kind, streamId, flags, n, body[4..])
  }

  function Decode(input: bytes): Decoded {
    if |input| < HEADER_BYTES || |input| > MAX_FRAME_BYTES then Malformed
    else
      var streamId := FromBigEndian(input[..4]);
      var word := FromBigEndian(input[4..6]);
      var flags := FlagsOf(word % 1024);
      var body := input[6..];
      if streamId > MAX_U31 then Malformed
      else
        match KindOf(word / 1024)
        case None => Foreign
        case Some(kind) =>
          if streamId == 0 then Malformed
          else if kind.Payload? && !flags.next && !flags.complete then Malformed
          else Rest(streamId, flags, kind, body)
  }

  /** What a frame looks like after the wire: METADATA set, counts and empty data as the decoder reports them. */
  function OnWire(f: Frame): Frame {
    Frame(f.kind, f.streamId, WireFlags(f), if Counted(f.kind) then f.initialRequestN else 0,
          f.metadata, DataField(f.kind, f.flags, Content(f.data)))
  }

  /** METADATA is set only where there is metadata, be it empty. */
  predicate FlagsOk(f: Frame) { f.flags.metadata ==> f.metadata.Some? }

  lemma FlagsRoundTrip(f: Flags)
    ensures FlagBits(f) < 1024 && FlagsOf(FlagBits(f)) == f
  {
    var bits := FlagBits(f);
    var i, m, w, c, n := Bit(f.ignore), Bit(f.metadata), Bit(f.follows), Bit(f.complete), Bit(f.next);
    assert bits / 0x20 == 16 * i + 8 * m + 4 * w + 2 * c + n && bits % 0x20 == f.rest;
    assert bits / 0x40 == 8 * i + 4 * m + 2 * w + c;
    assert bits / 0x80 == 4 * i + 2 * m + w;
    assert bits / 0x100 == 2 * i + m;
    assert bits / 0x200 == i;
    hide FlagBits;
  }

  lemma BitsRoundTrip(bits: nat)
    requires bits < 1024
    ensures FlagBits(FlagsOf(bits)) == bits
  {
    var i, m, w, c, n := bits / 0x200, bits / 0x100 % 2, bits / 0x80 % 2, bits / 0x40 % 2, bits / 0x20 % 2;
    TenBits(bits);
    hide FlagBits;
    assert FlagsOf(bits) == Flags(i == 1, m == 1, w == 1, c == 1, n == 1, bits % 0x20) by { assert i % 2 == i; }
    assert bits == 0x200 * i + 0x100 * m + 0x80 * w + 0x40 * c + 0x20 * n + bits % 0x20;
    BitsWritten(i, m, w, c, n, bits % 0x20);
  }

  lemma TenBits(bits: nat)
    requires bits < 1024
    ensures bits / 0x200 < 2
    ensures bits / 0x100 == 2 * (bits / 0x200) + bits / 0x100 % 2
    ensures bits / 0x80 == 2 * (bits / 0x100) + bits / 0x80 % 2
    ensures bits / 0x40 == 2 * (bits / 0x80) + bits / 0x40 % 2
    ensures bits / 0x20 == 2 * (bits / 0x40) + bits / 0x20 % 2
    ensures bits == 0x20 * (bits / 0x20) + bits % 0x20
  {
  }

  lemma BitsWritten(i: nat, m: nat, w: nat, c: nat, n: nat, rest: LowBits)
    requires i < 2 && m < 2 && w < 2 && c < 2 && n < 2
    ensures FlagBits(Flags(i == 1, m == 1, w == 1, c == 1, n == 1, rest))
         == 0x200 * i + 0x100 * m + 0x80 * w + 0x40 * c + 0x20 * n + rest
  {
  }

  lemma KindRoundTrip(kind: Kind)
    ensures KindOf(Code(kind)) == Some(kind) && Code(kind) < 64
  {
  }

  lemma DecodeBodyEncoded(f: Frame, flags: Flags, n: nat)
    requires f.metadata.Some? ==> |f.metadata.value| <= MAX_U24
    requires flags.metadata == f.metadata.Some?
    ensures DecodeBody(f.kind, f.streamId, flags, n, MetadataData(f.metadata, f.data))
         == Decoded(Frame(f.kind, f.streamId, flags, n, f.metadata, DataField(f.kind, flags, Content(f.data))))
  {
    var body := MetadataData(f.metadata, f.data);
    if f.metadata.Some? {
      var size, m, d := BigEndian(|f.metadata.value|, 3), f.metadata.value, Content(f.data);
      Pow256Values();
      BigEndianRoundTrip(|m|, 3);
      assert body == size + m + d;
      assert body[..3] == size && body[3..3 + |m|] == m && body[3 + |m|..] == d;
    } else {
      assert body == Content(f.data);
    }
  }

  lemma HeaderParts(id: bytes, word: bytes, body: bytes)
    requires |id| == 4 && |word| == 2
    ensures var s := id + word + body; s[..4] == id && s[4..6] == word && s[6..] == body
  {
  }

  lemma WordRoundTrip(f: Frame)
    ensures TypeAndFlags(f) < 0x1_0000
    ensures KindOf(TypeAndFlags(f) / 1024) == Some(f.kind) && FlagsOf(TypeAndFlags(f) % 1024) == WireFlags(f)
  {
    FlagsRoundTrip(WireFlags(f));
    KindRoundTrip(f.kind);
    WordIs(f);
    hide FlagBits, FlagsOf, KindOf, Code, TypeAndFlags, WireFlags;
    WordParts(Code(f.kind), FlagBits(WireFlags(f)));
  }

  lemma WordIs(f: Frame)
    requires FlagBits(WireFlags(f)) < 1024
    ensures TypeAndFlags(f) == Code(f.kind) * 1024 + FlagBits(WireFlags(f))
  {
    hide FlagBits, Code, WireFlags;
  }

  lemma WordParts(code: nat, bits: nat)
    requires code < 64 && bits < 1024
    ensures var w := code * 1024 + bits; w < 0x1_0000 && w / 1024 == code && w % 1024 == bits
  {
  }

  lemma RestEncoded(f: Frame)
    requires Encodable(f) && FlagsOk(f)
    ensures Rest(f.streamId, WireFlags(f), f.kind, Count(f) + MetadataData(f.metadata, f.data)) == Decoded(OnWire(f))
  {
    var count, payload := Count(f), MetadataData(f.metadata, f.data);
    assert (count + payload)[|count|..] == payload && (count + payload)[..|count|] == count;
    DecodeBodyEncoded(f, WireFlags(f), if Counted(f.kind) then f.initialRequestN else 0);
    hide MetadataData, DecodeBody;
    if Counted(f.kind) {
      Pow256Values();
      BigEndianRoundTrip(f.initialRequestN, 4);
    } else {
      assert count + payload == payload;
    }
  }

  /** An encoded frame's header is read back, and the rest is what remains to be read. */
  lemma HeaderDecoded(f: Frame)
    requires Encode(f).Ok?
    ensures Decode(Encode(f).value) == Rest(f.streamId, WireFlags(f), f.kind, Count(f) + MetadataData(f.metadata, f.data))
    ensures |Encode(f).value| == EncodedBytes(f)
  {
    var id, word := BigEndian(f.streamId, 4), BigEndian(TypeAndFlags(f), 2);
    WordRoundTrip(f);
    SizeOf(f);
    hide FlagsOf, TypeAndFlags, KindOf, MetadataData, Rest;
    Pow256Values();
    BigEndianRoundTrip(f.streamId, 4);
    BigEndianRoundTrip(TypeAndFlags(f), 2);
    HeaderParts(id, word, Count(f) + MetadataData(f.metadata, f.data));
  }

  /** Read where there is none, metadata is found all the same or the frame is malformed. */
  lemma MetadataRead(streamId: nat, flags: Flags, kind: Kind, body: bytes)
    requires flags.metadata && Rest(streamId, flags, kind, body).Decoded?
    ensures Rest(streamId, flags, kind, body).frame.metadata.Some?
  {
  }

  /**
   * Encoding then decoding returns the frame, with the decoder's defaults, exactly when its METADATA flag
   * is not set without metadata.
   */
  lemma DecodeEncodedIff(f: Frame)
    requires Encode(f).Ok?
    ensures Decode(Encode(f).value) == Decoded(OnWire(f)) <==> FlagsOk(f)
    ensures |Encode(f).value| == EncodedBytes(f)
  {
    HeaderDecoded(f);
    var body := Count(f) + MetadataData(f.metadata, f.data);
    if FlagsOk(f) {
      RestEncoded(f);
    } else if Rest(f.streamId, WireFlags(f), f.kind, body).Decoded? {
      MetadataRead(f.streamId, WireFlags(f), f.kind, body);
    }
  }

  lemma SizeOf(f: Frame)
    ensures |MetadataData(f.metadata, f.data)| == EncodedBytes(f) - HEADER_BYTES - (if Counted(f.kind) then 4 else 0)
  {
  }

  // ---------------------------------------------------------------- canonicity

  lemma EncodeBodyDecoded(kind: Kind, streamId: nat, flags: Flags, n: nat, body: bytes)
    requires DecodeBody(kind, streamId, flags, n, body).Decoded?
    ensures var f := DecodeBody(kind, streamId, flags, n, body).frame;
      && f == Frame(kind, streamId, flags, n, f.metadata, f.data)
      && MetadataData(f.metadata, f.data) == body && (f.metadata.Some? <==> flags.metadata)
      && (f.metadata.Some? ==> |f.metadata.value| <= MAX_U24)
  {
    if flags.metadata {
      Pow256Values();
      FromBigEndianRoundTrip(body[..3]);
      var length := FromBigEndian(body[..3]);
      assert body == body[..3] + body[3..3 + length] + body[3 + length..];
    }
  }

  lemma WordDecoded(w: nat)
    requires w < 0x1_0000 && KindOf(w / 1024).Some?
    ensures forall f: Frame :: f.kind == KindOf(w / 1024).value && WireFlags(f) == FlagsOf(w % 1024) ==> TypeAndFlags(f) == w
  {
    BitsRoundTrip(w % 1024);
    KindCode(w / 1024);
    hide FlagBits, FlagsOf, KindOf, Code;
  }

  /** The decoder accepts exactly what the encoder writes: an accepted frame re-encodes to the same bytes. */
  lemma EncodeDecoded(input: bytes)
    requires Decode(input).Decoded?
    ensures Encode(Decode(input).frame) == Ok(input) && FlagsOk(Decode(input).frame)
  {
    var id, word, body := input[..4], input[4..6], input[6..];
    assert input == id + word + body;
    FromBigEndianRoundTrip(id);
    FromBigEndianRoundTrip(word);
    var w := FromBigEndian(word);
    Pow256Values();
    WordDecoded(w);
    var f := Decode(input).frame;
    BodyDecoded(FromBigEndian(id), FlagsOf(w % 1024), KindOf(w / 1024).value, body);
    SizeOf(f);
    hide FlagsOf, KindOf, TypeAndFlags, MetadataData, Rest, FromBigEndian;
  }

  lemma BodyDecoded(streamId: nat, flags: Flags, kind: Kind, body: bytes)
    requires Rest(streamId, flags, kind, body).Decoded?
    ensures var f := Rest(streamId, flags, kind, body).frame;
      && (f.kind, f.streamId, f.flags) == (kind, streamId, flags) && WireFlags(f) == flags
      && (f.metadata.Some? <==> flags.metadata)
      && (Counted(kind) ==> 0 < f.initialRequestN <= MAX_U31)
      && (f.metadata.Some? ==> |f.metadata.value| <= MAX_U24)
      && Count(f) + MetadataData(f.metadata, f.data) == body
  {
    if Counted(kind) {
      FromBigEndianRoundTrip(body[..4]);
      assert body == body[..4] + body[4..];
      EncodeBodyDecoded(kind, streamId, flags, FromBigEndian(body[..4]), body[4..]);
    } else {
      EncodeBodyDecoded(kind, streamId, flags, 0, body);
    }
  }

  lemma KindCode(code: nat)
    ensures KindOf(code).Some? ==> Code(KindOf(code).value) == code
  {
  }

  // ---------------------------------------------------------------- writing in place

  /** `encodeMetadataData`: fills a buffer through a moving offset. */
  method WriteMetadataData(metadata: Option<bytes>, data: Option<bytes>) returns (r: bytes)
    requires metadata.Some? ==> |metadata.value| <= MAX_U24
    ensures r == MetadataData(metadata, data)
  {
    var size := (if metadata.None? then 0 else 3 + |metadata.value|) + |Content(data)|;
    var output := new byte[size];
    var offset := 0;
    if metadata.Some? {
      Put(output, 0, BigEndian(|metadata.value|, 3));
      offset := 3;
      Put(output, offset, metadata.value);
      offset := offset + |metadata.value|;
    }
    if data.Some? {
      Put(output, offset, data.value);
    }
    assert output[..size] == output[..];
    r := output[..];
  }

  /** `encodeRSocketFrame`, for the five kinds. */
  method WriteFrame(f: Frame) returns (r: Result<bytes>)
    ensures r == Encode(f)
  {
    if f.streamId > MAX_U31 || f.streamId == 0 {
      return Err(RangeFault);
    }
    if Counted(f.kind) && (f.initialRequestN == 0 || f.initialRequestN > MAX_U31) {
      return Err(RangeFault);
    }
    if f.kind.Payload? && !f.flags.next && !f.flags.complete {
      return Err(RangeFault);
    }
    if f.metadata.Some? && |f.metadata.value| > MAX_U24 {
      return Err(RangeFault);
    }
    var payload := WriteMetadataData(f.metadata, f.data);
    SizeOf(f);
    var count := Count(f);
    var size := HEADER_BYTES + |count| + |payload|;
    if size > MAX_FRAME_BYTES {
      return Err(RangeFault);
    }
    var output := new byte[size];
    hide MetadataData, TypeAndFlags, Count;
    var id, word := BigEndian(f.streamId, 4), BigEndian(TypeAndFlags(f), 2);
    Put(output, 0, id);
    assert output[..4] == id;
    Put(output, 4, word);
    assert output[..6] == id + word;
    Put(output, 6, count);
    Put(output, 6 + |count|, payload);
    assert output[..] == id + word + count + payload == id + word + (count + payload);
    r := Ok(output[..]);
  }

  /** `decodeRSocketFrame`, for the five kinds, with its moving offset. */
  method ReadFrame(input: bytes) returns (r: Decoded)
    ensures r == Decode(input)
  {
    hide FlagsOf, FromBigEndian;
    if |input| < HEADER_BYTES || |input| > MAX_FRAME_BYTES {
      return Malformed;
    }
    var streamId, word := FromBigEndian(input[..4]), FromBigEndian(input[4..6]);
    if streamId > MAX_U31 {
      return Malformed;
    }
    var kind, flags := KindOf(word / 1024), FlagsOf(word % 1024);
    if kind.None? {
      return Foreign;
    }
    if streamId == 0 || (kind.value.Payload? && !flags.next && !flags.complete) {
      return Malformed;
    }
    var offset, n := HEADER_BYTES, 0;
    if Counted(kind.value) {
      if |input| < offset + 4 {
        return Malformed;
      }
      n := FromBigEndian(input[offset..offset + 4]);
      assert input[6..][..4] == input[6..10];
      if n == 0 || n > MAX_U31 {
        return Malformed;
      }
      offset := offset + 4;
      assert input[6..][4..] == input[10..];
    }
    r := ReadMetadataData(kind.value, streamId, flags, n, input, offset);
  }

  /** `decodeMetadataData` at an offset, and which empty fields are reported. */
  method ReadMetadataData(kind: Kind, streamId: nat, flags: Flags, n: nat, input: bytes, start: nat) returns (r: Decoded)
    requires start <= |input|
    ensures r == DecodeBody(kind, streamId, flags, n, input[start..])
  {
    if !flags.metadata {
      return Decoded(Frame(kind, streamId, flags, n, None, DataField(kind, flags, input[start..])));
    }
    var offset := start;
    if offset + 3 > |input| {
      return Malformed;
    }
    var length := FromBigEndian(input[offset..offset + 3]);
    assert input[start..][..3] == input[offset..offset + 3];
    offset := offset + 3;
    if offset + length > |input| {
      return Malformed;
    }
    var metadata := input[offset..offset + length];
    offset := offset + length;
    assert input[start..][3..3 + length] == metadata && input[start..][3 + length..] == input[offset..];
    r := Decoded(Frame(kind, streamId, flags, n, Some(metadata), DataField(kind, flags, input[offset..])));
  }
}
