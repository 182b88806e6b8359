/**
 * The formats byte by byte: where each field of a frame lies, and concrete wire vectors. The round trips
 * elsewhere relate a writer to its reader; here both are held to what other implementations send.
 */
module Vectors {
  import opened Bytes
  import opened Frames
  import Capabilities
  import Codec
  import Compact
  import Framing
  import Leb128
  import PeerLimits
  import Routing
  import RSocketCodec
  import Sessions
  import FragmentPlan
  import Utf8

  // ---------------------------------------------------------------- the original form

  /** Most significant byte first, for the widths in use; `BigEndian` is the inverse. */
  lemma ByteOrder(a: byte, b: byte, c: byte, d: byte)
    ensures FromBigEndian([a, b]) == 0x100 * a + b
    ensures FromBigEndian([a, b, c]) == 0x1_0000 * a + 0x100 * b + c
    ensures FromBigEndian([a, b, c, d]) == 0x100_0000 * a + 0x1_0000 * b + 0x100 * c + d
    ensures BigEndian(FromBigEndian([a, b]), 2) == [a, b] && BigEndian(FromBigEndian([a, b, c]), 3) == [a, b, c]
    ensures BigEndian(FromBigEndian([a, b, c, d]), 4) == [a, b, c, d]
  {
    assert [] + [a] == [a] && [a] + [b] == [a, b] && [a, b] + [c] == [a, b, c] && [a, b, c] + [d] == [a, b, c, d];
    Last([], a);
    Last([a], b);
    Last([a, b], c);
    Last([a, b, c], d);
    FromBigEndianRoundTrip([a, b]);
    FromBigEndianRoundTrip([a, b, c]);
    FromBigEndianRoundTrip([a, b, c, d]);
    hide FromBigEndian, BigEndian;
  }

  lemma Last(high: bytes, low: byte)
    ensures FromBigEndian(high + [low]) == 256 * FromBigEndian(high) + low
  {
    assert (high + [low])[..|high|] == high;
  }

  /** The table of section 3 of the protocol: what each byte range of an encoded frame holds. */
  lemma HeaderLayout(f: Frame, limits: Limits)
    requires limits.Resolved() && Codec.EncodeFrame(f, limits).Ok?
    ensures var b := Codec.EncodeFrame(f, limits).value;
      var area := Codec.AttributeArea(f.attributes);
      && |b| == 36 + |area| + |f.payload|
      && b[0..4] == [0x50, 0x52, 0x50, 0x31] && b[4] == 1 && b[5] == 0
      && b[6] == f.kind && b[7] == f.flags
      && FromBigEndian(b[8..10]) == 36
      && FromBigEndian(b[10..18]) == f.streamId
      && FromBigEndian(b[18..26]) == f.sequence
      && FromBigEndian(b[26..30]) == (if f.flags == 1 then f.fragmentLength else f.credit)
      && FromBigEndian(b[30..34]) == |area|
      && b[34..36] == [0, 0]
      && b[36..36 + |area|] == area && b[36 + |area|..] == f.payload
  {
    hide ShapeOk, BigEndian, FromBigEndian, HeaderValue, Codec.AttributesFit, Codec.AttributeArea;
    var area := Codec.AttributeArea(f.attributes);
    Codec.ShapeRanges(f);
    ValueCarried(f);
    AreaBounded(f, limits);
    var b := Codec.EncodeFrame(f, limits).value;
    assert b == Codec.Header(f, |area|) + area + f.payload;
    Pow256Values();
    Magic();
    BigEndianRoundTrip(FRAME_HEADER_BYTES, 2);
    BigEndianRoundTrip(f.streamId, 8);
    BigEndianRoundTrip(f.sequence, 8);
    BigEndianRoundTrip(HeaderValue(f), 4);
    BigEndianRoundTrip(|area|, 4);
    Codec.HeaderSlices(BigEndian(PROTOCOL_MAGIC, 4), [PROTOCOL_MAJOR, PROTOCOL_MINOR, f.kind, f.flags],
                       BigEndian(FRAME_HEADER_BYTES, 2), BigEndian(f.streamId, 8), BigEndian(f.sequence, 8),
                       BigEndian(HeaderValue(f), 4), BigEndian(|area|, 4), BigEndian(0, 2), area + f.payload);
    assert b == Codec.Header(f, |area|) + (area + f.payload);
    TailParts(Codec.Header(f, |area|), area, f.payload);
  }

  lemma Magic()
    ensures BigEndian(PROTOCOL_MAGIC, 4) == [0x50, 0x52, 0x50, 0x31] && BigEndian(0, 2) == [0, 0]
  {
  }

  lemma ValueCarried(f: Frame)
    requires ShapeOk(f) && KnownKind(f.kind)
    ensures HeaderValue(f) == if f.flags == 1 then f.fragmentLength else f.credit
  {
  }

  lemma AreaBounded(f: Frame, limits: Limits)
    requires limits.Resolved() && Codec.EncodeFrame(f, limits).Ok?
    ensures |Codec.AttributeArea(f.attributes)| <= MAX_U32
  {
    hide ShapeOk, Codec.AttributeArea;
  }

  lemma TailParts(header: bytes, area: bytes, payload: bytes)
    requires |header| == 36
    ensures var b := header + area + payload; b[36..36 + |area|] == area && b[36 + |area|..] == payload
  {
  }

  /** The table of section 4: one attribute entry. */
  lemma AttributeLayout(a: Attribute)
    requires |a.id| <= MAX_U16 && |a.value| <= MAX_U32
    ensures var b := Codec.AttributeBytes(a);
      && b[0] == (if a.required then 1 else 0)
      && FromBigEndian(b[1..3]) == |a.id| && FromBigEndian(b[3..7]) == |a.value|
      && b[7..7 + |a.id|] == a.id && b[7 + |a.id|..] == a.value
  {
    hide BigEndian, FromBigEndian;
    Pow256Values();
    BigEndianRoundTrip(|a.id|, 2);
    BigEndianRoundTrip(|a.value|, 4);
    var b := Codec.AttributeBytes(a);
    assert b[1..3] == BigEndian(|a.id|, 2) && b[3..7] == BigEndian(|a.value|, 4);
  }

  /** The table of section 5: the kind byte of each stream frame. */
  lemma KindBytes(b: Body, sequence: nat, limits: Limits)
    requires limits.Resolved() && Codec.EncodeFrame(FragmentPlan.ToFrame(b, sequence), limits).Ok?
    ensures var wire := Codec.EncodeFrame(FragmentPlan.ToFrame(b, sequence), limits).value;
      |wire| >= 36 && wire[6] == match b
        case Open(_, _) => 0x10
        case Data(_, _, _) => 0x11
        case First(_, _, _, _) => 0x11
        case Fragment(_, _) => 0x17
        case Demand(_, _) => 0x12
        case Complete(_) => 0x13
        case Cancel(_) => 0x14
        case Error(_, _) => 0x15
  {
    hide Codec.EncodeFrame;
    HeaderLayout(FragmentPlan.ToFrame(b, sequence), limits);
  }

  // ---------------------------------------------------------------- the compact form

  /** The frame is written as these bytes, and read from them. */
  predicate Spells(f: Frame, wire: bytes) {
    Compact.EncodeCompact(f, DEFAULT_LIMITS) == Ok(wire) && Compact.DecodeCompact(wire, DEFAULT_LIMITS) == Ok(f)
  }

  lemma Spelled(f: Frame, header: bytes, section: bytes)
    requires Compact.PostHandshake(f.kind) && Codec.Numbered(f) && ShapeOk(f)
    requires Codec.AttributesFit(f.attributes, DEFAULT_LIMITS) && Codec.NoBoms(f.attributes)
    requires Compact.CompactHeader(f) == header && Compact.Section(f.attributes) == section
    requires |header| + |section| + |f.payload| <= 1000
    ensures Spells(f, header + section + f.payload)
  {
    hide ShapeOk, Codec.AttributesFit, Codec.NoBoms, Compact.CompactHeader, Compact.Section, Codec.Numbered, Compact.DecodeCompact;
    Compact.DecodeCompactEncodedIff(f, DEFAULT_LIMITS, DEFAULT_LIMITS);
  }

  lemma Plain(f: Frame, header: bytes)
    requires Compact.PostHandshake(f.kind) && Codec.Numbered(f) && ShapeOk(f) && f.attributes == []
    requires Compact.CompactHeader(f) == header && |header| + |f.payload| <= 1000
    ensures Spells(f, header + f.payload)
  {
    hide ShapeOk, Compact.CompactHeader, Codec.Numbered, Spells;
    assert header + [] + f.payload == header + f.payload;
    Spelled(f, header, []);
  }

  lemma Digits()
    ensures Leb128.Varint(300) == [0xac, 0x02] && Leb128.Varint(500) == [0xf4, 0x03]
    ensures Leb128.Varint(128) == [0x80, 0x01] && Leb128.Varint(129) == [0x81, 0x01]
  {
    assert Leb128.Varint(2) == [2] && Leb128.Varint(3) == [3] && Leb128.Varint(1) == [1];
  }

  lemma DataVector()
    ensures Spells(Frame(DATA, 1, 2, 0, 0, 0, [], [1, 2, 3]), [0xc1, 0x11, 0x01, 0x02, 0x01, 0x02, 0x03])
  {
    hide Spells;
    var header := [0xc1, 0x11, 0x01, 0x02];
    assert header + [1, 2, 3] == [0xc1, 0x11, 0x01, 0x02, 0x01, 0x02, 0x03];
    Plain(Frame(DATA, 1, 2, 0, 0, 0, [], [1, 2, 3]), header);
  }

  lemma DemandVector()
    ensures Spells(Frame(DEMAND, 300, 128, 0, 500, 0, [], []), [0xc1, 0x52, 0xac, 0x02, 0x80, 0x01, 0xf4, 0x03])
  {
    hide Spells;
    Digits();
    var header := [0xc1, 0x52, 0xac, 0x02, 0x80, 0x01, 0xf4, 0x03];
    assert header + [] == header;
    Plain(Frame(DEMAND, 300, 128, 0, 500, 0, [], []), header);
  }

  lemma FragmentedDataVector()
    ensures Spells(Frame(DATA, 1, 3, 1, 0, 300, [], [1, 2]), [0xc1, 0xd1, 0x01, 0x03, 0xac, 0x02, 0x01, 0x02])
  {
    hide Spells;
    Digits();
    var header := [0xc1, 0xd1, 0x01, 0x03, 0xac, 0x02];
    assert header + [1, 2] == [0xc1, 0xd1, 0x01, 0x03, 0xac, 0x02, 0x01, 0x02];
    Plain(Frame(DATA, 1, 3, 1, 0, 300, [], [1, 2]), header);
  }

  lemma CloseVector()
    ensures Spells(Frame(CLOSE, 0, 4, 0, 0, 0, [], []), [0xc1, 0x03, 0x00, 0x04])
  {
    hide Spells;
    var header := [0xc1, 0x03, 0x00, 0x04];
    assert header + [] == header;
    Plain(Frame(CLOSE, 0, 4, 0, 0, 0, [], []), header);
  }

  /** The table of the compact form: the marker, the control byte, and the integers after it. */
  lemma CompactLayout(f: Frame, limits: Limits)
    requires limits.Resolved() && Compact.EncodeCompact(f, limits).Ok?
    ensures var b := Compact.EncodeCompact(f, limits).value;
      && |b| >= 4 && b[0] == 0xc1 && b[1] % 0x20 == f.kind
      && (b[1] / 0x20 % 2 == 1 <==> f.attributes != [])
      && (b[1] / 0x40 % 2 == 1 <==> f.credit != 0 || f.fragmentLength != 0)
      && (b[1] / 0x80 == 1 <==> f.flags == 1)
      && b == [0xc1, b[1]] + Leb128.Varint(f.streamId) + Leb128.Varint(f.sequence)
              + (if f.credit != 0 then Leb128.Varint(f.credit)
                 else if f.fragmentLength != 0 then Leb128.Varint(f.fragmentLength) else [])
              + Compact.Section(f.attributes) + f.payload
  {
    hide Codec.AttributesFit, Leb128.Varint, Compact.Section;
    Compact.ControlBits(f);
  }

  /** A name as the bytes of its letters. */
  function Text(name: string): bytes
    requires forall i :: 0 <= i < |name| ==> name[i] < 128 as char
  {
    seq(|name|, i requires 0 <= i < |name| => name[i] as int)
  }

  lemma RpcNamesSpelled()
    ensures Compact.PROFILE == Text("prp.profile") && Compact.RPC_TARGET == Text("prp.rpc.target")
    ensures Compact.RPC_PATTERN == Text("prp.rpc.pattern")
  {
  }

  lemma CoreNamesSpelled()
    ensures Compact.ERROR_CODE == Text("prp.error.code") && Compact.SESSION_ID == Text("prp.session.id")
  {
  }

  /** The dictionary of version 1. */
  lemma DictionaryVector()
    ensures Compact.DICTIONARY == [Text("prp.profile"), Text("prp.rpc.target"), Text("prp.rpc.pattern"),
                                   Text("prp.error.code"), Text("prp.session.id")]
  {
    RpcNamesSpelled();
    CoreNamesSpelled();
    hide Text;
  }

  lemma Laid(a: bytes, b: bytes, c: bytes, d: bytes)
    ensures a + (b + (c + d)) == a + b + c + d
  {
  }

  /** An attribute with a name of the dictionary. */
  lemma ShortEntry(a: Attribute, code: nat)
    requires Compact.Code(a.id) == code > 0 && |a.value| < 128
    ensures Compact.EntryBytes(a) == [2 * code + if a.required then 1 else 0, |a.value|] + a.value
  {
    hide Compact.Code;
    var tag := 2 * code + if a.required then 1 else 0;
    assert Leb128.Varint(tag) == [tag] && Leb128.Varint(|a.value|) == [|a.value|];
    Joined([tag], [|a.value|], a.value);
  }

  lemma Joined(a: bytes, b: bytes, c: bytes)
    ensures a + [] + b + c == (a + b) + c
  {
  }

  lemma ThreeEntries(a: Attribute, b: Attribute, c: Attribute)
    ensures Compact.Section([a, b, c]) == [3] + Compact.EntryBytes(a) + Compact.EntryBytes(b) + Compact.EntryBytes(c)
    ensures |Codec.AttributeArea([a, b, c])| == 21 + |a.id| + |a.value| + |b.id| + |b.value| + |c.id| + |c.value|
  {
    hide Compact.EntryBytes, Codec.AttributeBytes;
    assert [a, b, c][1..] == [b, c] && [b, c][1..] == [c] && [c][1..] == [];
    Laid([3], Compact.EntryBytes(a), Compact.EntryBytes(b), Compact.EntryBytes(c));
    Compact.OneEntryBytes(c);
    assert Compact.Entries([b, c]) == Compact.EntryBytes(b) + Compact.EntryBytes(c);
    Codec.AreaOne(c);
    assert |Codec.AttributeArea([b, c])| == 14 + |b.id| + |b.value| + |c.id| + |c.value|;
    assert Leb128.Varint(3) == [3];
  }

  function Named(id: bytes, value: string): Attribute
    requires forall i :: 0 <= i < |value| ==> value[i] < 128 as char
  {
    Attribute(id, Text(value), true)
  }

  const RPC_OPEN := [Named(Compact.PROFILE, "rpc/1"), Named(Compact.RPC_TARGET, "hunter.world.watch"),
                     Named(Compact.RPC_PATTERN, "server-stream")]

  lemma RpcNames()
    ensures Codec.AttributesFit(RPC_OPEN, DEFAULT_LIMITS) && Codec.NoBoms(RPC_OPEN)
  {
    hide Codec.AttributeArea, Compact.Plain, Utf8.Valid, Utf8.HasBom, Compact.PROFILE, Compact.RPC_TARGET, Compact.RPC_PATTERN;
    Compact.NamesArePlain();
    Compact.PlainIsValid(Compact.PROFILE);
    Compact.PlainIsValid(Compact.RPC_TARGET);
    Compact.PlainIsValid(Compact.RPC_PATTERN);
    Compact.NamesDiffer();
    ThreeEntries(RPC_OPEN[0], RPC_OPEN[1], RPC_OPEN[2]);
  }

  lemma RpcOpenVector()
    ensures Spells(Frame(OPEN, 1, 2, 0, 0, 0, RPC_OPEN, []),
                   [0xc1, 0x30, 0x01, 0x02]
                   + ([0x03] + ([0x03, 0x05] + Text("rpc/1")) + ([0x05, 0x12] + Text("hunter.world.watch"))
                      + ([0x07, 0x0d] + Text("server-stream"))) + [])
  {
    hide Spells, Compact.Section, Compact.EntryBytes, Codec.AttributesFit, Codec.NoBoms, Compact.Code,
         Compact.PROFILE, Compact.RPC_TARGET, Compact.RPC_PATTERN;
    RpcNames();
    Compact.Codes();
    ShortEntry(RPC_OPEN[0], 1);
    ShortEntry(RPC_OPEN[1], 2);
    ShortEntry(RPC_OPEN[2], 3);
    ThreeEntries(RPC_OPEN[0], RPC_OPEN[1], RPC_OPEN[2]);
    var f := Frame(OPEN, 1, 2, 0, 0, 0, RPC_OPEN, []);
    assert Compact.CompactHeader(f) == [0xc1, 0x30, 0x01, 0x02];
    Spelled(f, [0xc1, 0x30, 0x01, 0x02], Compact.Section(RPC_OPEN));
  }

  const SNOWMAN := Attribute([0xe2, 0x98, 0x83], [1, 2], false)

  lemma UnknownAttributeVector()
    ensures Spells(Frame(SIGNAL, 0, 129, 0, 0, 0, [SNOWMAN], [9]),
                   [0xc1, 0x36, 0x00, 0x81, 0x01] + [0x01, 0x00, 0x03, 0xe2, 0x98, 0x83, 0x02, 0x01, 0x02] + [0x09])
  {
    hide Spells, Codec.AttributesFit, Codec.NoBoms;
    Digits();
    SnowmanFits();
    SnowmanSection();
    var f := Frame(SIGNAL, 0, 129, 0, 0, 0, [SNOWMAN], [9]);
    assert Compact.CompactHeader(f) == [0xc1, 0x36, 0x00, 0x81, 0x01];
    hide Compact.Section, Compact.CompactHeader;
    Spelled(f, [0xc1, 0x36, 0x00, 0x81, 0x01], [0x01, 0x00, 0x03, 0xe2, 0x98, 0x83, 0x02, 0x01, 0x02]);
  }

  lemma SnowmanFits()
    ensures Codec.AttributesFit([SNOWMAN], DEFAULT_LIMITS) && Codec.NoBoms([SNOWMAN])
  {
    assert Utf8.CharBytes(SNOWMAN.id) == 3 && SNOWMAN.id[3..] == [];
    Codec.AreaOne(SNOWMAN);
  }

  lemma SnowmanSection()
    ensures Compact.Section([SNOWMAN]) == [0x01, 0x00, 0x03, 0xe2, 0x98, 0x83, 0x02, 0x01, 0x02]
  {
    Compact.OneEntryBytes(SNOWMAN);
    Compact.NamesDiffer();
    assert Compact.Code(SNOWMAN.id) == 0;
    hide Compact.Code;
    assert Leb128.Varint(0) == [0] && Leb128.Varint(1) == [1] && Leb128.Varint(2) == [2] && Leb128.Varint(3) == [3];
    hide Leb128.Varint;
  }

  // ---------------------------------------------------------------- compact frames that must be refused

  predicate Refused(wire: bytes) { Compact.DecodeCompact(wire, DEFAULT_LIMITS).Err? }

  /** A kind that does not exist, and the two that have no compact form. */
  lemma KindsRefused(rest: bytes)
    ensures Refused([0xc1, 0x19] + rest) && Refused([0xc1, 0x01] + rest) && Refused([0xc1, 0x02] + rest)
  {
    hide Compact.ReadIds, Compact.ReadValue, Compact.ParseSection, Compact.ShownAll, Compact.AssembleCompact, ShapeOk;
  }

  /** Sequence number zero, at any stream id. */
  lemma ZeroSequenceRefused(control: byte, streamId: nat, rest: bytes)
    requires streamId <= MAX_U64
    ensures Refused([0xc1, control] + Leb128.Varint(streamId) + [0] + rest)
  {
    hide Leb128.Varint, Leb128.ReadVarint, Compact.ReadValue, Compact.ParseSection;
    var b := [0xc1, control] + Leb128.Varint(streamId) + [0] + rest;
    assert b[2..] == Leb128.Varint(streamId) + ([0] + rest);
    assert b[2 + |Leb128.Varint(streamId)|..] == [0] + rest;
    assert Leb128.Varint(0) == [0] by { ZeroDigit(); }
    Leb128.ReadWritten(streamId, 64, [0] + rest);
    Leb128.ReadWritten(0, 64, rest);
  }

  lemma ZeroDigit()
    ensures Leb128.Varint(0) == [0]
  {
  }

  /** A header value on DATA that is not fragmented. */
  lemma ValueRefused(payload: bytes)
    ensures Refused([0xc1, 0x51, 0x01, 0x02, 0x01] + payload)
  {
    var b := [0xc1, 0x51, 0x01, 0x02, 0x01] + payload;
    Header(0x51, [1] + payload);
    assert b == [0xc1, 0x51, 0x01, 0x02] + ([1] + payload);
    assert Compact.ReadValue([1] + payload, true) == Ok(Leb128.Reading(1, 1)) by {
      assert Leb128.Varint(1) == [1];
      Leb128.ReadWritten(1, 32, payload);
    }
    hide Compact.ReadValue, Compact.ReadIds, Compact.ParseSection, ShapeOk;
    assert Compact.ReadCompactHeader(b) == Ok(Compact.CompactFields(DATA, false, false, 1, 2, 1, 5));
    hide Compact.ReadCompactHeader;
  }

  /** Fragmented DATA without a total. */
  lemma TotalRequired(payload: bytes)
    ensures Refused([0xc1, 0x91, 0x01, 0x02] + payload)
  {
    var b := [0xc1, 0x91, 0x01, 0x02] + payload;
    Header(0x91, payload);
    hide Compact.ReadIds, Leb128.ReadVarint;
    assert Compact.ReadCompactHeader(b) == Ok(Compact.CompactFields(DATA, true, false, 1, 2, 0, 4));
    hide Compact.ReadCompactHeader;
  }

  /** The ids of a frame on stream 1 with sequence number 2. */
  lemma Header(control: byte, rest: bytes)
    ensures var b := [0xc1, control, 0x01, 0x02] + rest; Compact.ReadIds(b) == Ok((1, 2, 4)) && b[4..] == rest
  {
    assert Leb128.Varint(1) == [1] && Leb128.Varint(2) == [2];
    hide Leb128.ReadVarint, Leb128.Varint;
    var b := [0xc1, control, 0x01, 0x02] + rest;
    assert b[2..] == [1] + ([2] + rest) && b[3..] == [2] + rest;
    Leb128.ReadWritten(1, 64, [2] + rest);
    Leb128.ReadWritten(2, 64, rest);
  }

  /** An attribute count of zero, and a dictionary code of a later version. */
  lemma SectionsRefused(rest: bytes)
    ensures Refused([0xc1, 0x30, 0x01, 0x02, 0x00] + rest) && Refused([0xc1, 0x30, 0x01, 0x02, 0x01, 0x0c] + rest)
  {
    hide Leb128.ReadVarint, Compact.ReadIds, Compact.ParseSection;
    assert [0xc1, 0x30, 0x01, 0x02, 0x00] + rest == [0xc1, 0x30, 0x01, 0x02] + ([0x00] + rest);
    assert [0xc1, 0x30, 0x01, 0x02, 0x01, 0x0c] + rest == [0xc1, 0x30, 0x01, 0x02] + ([0x01, 0x0c] + rest);
    Header(0x30, [0x00] + rest);
    Header(0x30, [0x01, 0x0c] + rest);
    ZeroCount(rest);
    LaterCode(rest);
  }

  lemma ZeroCount(rest: bytes)
    ensures Compact.ParseSection([0x00] + rest, true, DEFAULT_LIMITS).Err?
  {
    ZeroDigit();
    Leb128.ReadWritten(0, 32, rest);
    hide Leb128.ReadVarint, Leb128.Varint;
  }

  lemma LaterCode(rest: bytes)
    ensures Compact.ParseSection([0x01, 0x0c] + rest, true, DEFAULT_LIMITS).Err?
  {
    assert Leb128.Varint(1) == [1] && Leb128.Varint(12) == [12];
    Leb128.ReadWritten(1, 32, [0x0c] + rest);
    Leb128.ReadWritten(12, 32, rest);
    hide Leb128.ReadVarint, Leb128.Varint, Compact.ParseValue;
    assert [0x01, 0x0c] + rest == [0x01] + ([0x0c] + rest) && ([0x01, 0x0c] + rest)[1..] == [0x0c] + rest;
  }

  // ---------------------------------------------------------------- announcements, offers, other framings

  /** The default limits as they are announced. */
  lemma AnnouncementVector()
    ensures PeerLimits.Encode(PeerLimits.Announced(DEFAULT_LIMITS, 4096, 64 * 1024 * 1024))
         == [0x01, 0x00, 0x00, 0x00] + [0x00, 0x10, 0x00, 0x00] + [0x00, 0x00, 0x01, 0x00] + [0x04, 0x00]
            + [0x00, 0x10, 0x00, 0x00] + [0x00, 0x00, 0x10, 0x00] + [0x04, 0x00, 0x00, 0x00]
  {
    ByteOrder(0x01, 0x00, 0x00, 0x00);
    ByteOrder(0x00, 0x10, 0x00, 0x00);
    ByteOrder(0x00, 0x00, 0x01, 0x00);
    ByteOrder(0x04, 0x00, 0x00, 0x00);
    ByteOrder(0x00, 0x00, 0x10, 0x00);
    hide BigEndian, FromBigEndian;
  }

  /** A capability in versions 1 to 2 as it is offered. */
  lemma OfferVector()
    ensures Capabilities.ToAttribute(Capabilities.Descriptor(Text("app"), 1, 2, [7]), {Text("app")})
         == Attribute(Text("prp.capability/app"), [0x00, 0x01, 0x00, 0x02, 0x07], true)
  {
    ByteOrder(0x00, 0x01, 0x00, 0x00);
    ByteOrder(0x00, 0x02, 0x00, 0x00);
    hide BigEndian, FromBigEndian;
    OfferName();
    hide Text, Capabilities.PREFIX;
    assert [0x00, 0x01] + [0x00, 0x02] + [7] == [0x00, 0x01, 0x00, 0x02, 0x07];
  }

  /** The code that answers what there is no room for. */
  lemma ExhaustedVector()
    ensures Sessions.Exhausted() == Some(Text("RESOURCE_EXHAUSTED"))
  {
    assert Sessions.Exhausted().value == Text("RESOURCE_EXHAUSTED");
  }

  lemma OfferName()
    ensures Capabilities.PREFIX + Text("app") == Text("prp.capability/app")
  {
    assert Capabilities.PREFIX == Text("prp.capability/");
    TextJoined("prp.capability/", "app");
    assert "prp.capability/" + "app" == "prp.capability/app";
  }

  lemma TextJoined(a: string, b: string)
    requires forall i :: 0 <= i < |a| ==> a[i] < 128 as char
    requires forall i :: 0 <= i < |b| ==> b[i] < 128 as char
    ensures Text(a) + Text(b) == Text(a + b)
  {
  }

  /** A frame behind its length: four bytes natively, three for RSocket. */
  lemma PrefixVectors()
    ensures Framing.Encode([7, 8], 4) == Ok([0, 0, 0, 2, 7, 8]) && Framing.Encode([7, 8], 3) == Ok([0, 0, 2, 7, 8])
  {
    Pow256Values();
    ByteOrder(0, 0, 2, 0);
    ByteOrder(0, 0, 0, 2);
    hide BigEndian, FromBigEndian;
    assert [0, 0, 0, 2] + [7, 8] == [0, 0, 0, 2, 7, 8] && [0, 0, 2] + [7, 8] == [0, 0, 2, 7, 8];
  }

  /** Routes go in the order of their bytes, a shorter one before those it begins. */
  lemma RoutesVector()
    ensures Routing.EncodeRoutes([[98], [97, 45, 98], [97]])
         == Some([0x00, 0x03] + ([1] + [97] + ([3] + [97, 45, 98] + ([1] + [98] + []))))
  {
    ByteOrder(0x00, 0x03, 0x00, 0x00);
    var a: bytes, ab: bytes, b: bytes := [97], [97, 45, 98], [98];
    var given, sorted := [b, ab, a], [a, ab, b];
    RouteOrder(given, sorted);
    hide BigEndian, FromBigEndian, Routing.Sorted;
    assert sorted[1..] == [ab, b] && sorted[1..][1..] == [b];
  }

  lemma RouteOrder(given: seq<bytes>, sorted: seq<bytes>)
    requires given == [[98], [97, 45, 98], [97]] && sorted == [[97], [97, 45, 98], [98]]
    ensures Routing.Sorted(given) == sorted
  {
    var a, ab, b := sorted[0], sorted[1], sorted[2];
    RouteAfter(ab, a, 1);
    RouteAfter(b, a, 0);
    RouteAfter(b, ab, 0);
    hide Routing.Less, Routing.Insert;
    assert given == [b, ab, a] && given[1..] == [ab, a] && given[1..][1..] == [a];
    assert Routing.Sorted([a]) == [a] by { InsertLast([], a); }
    InsertLast([a], ab);
    InsertLast([a, ab], b);
    assert [a] + [ab] == [a, ab] && [a, ab] + [b] == sorted;
  }

  lemma RouteAfter(r: bytes, earlier: bytes, n: nat)
    requires Routing.DifferAt(earlier, r, n)
    ensures !Routing.Less(r, earlier)
  {
    Routing.LessIff(earlier, r);
    Routing.LessTotal(earlier, r);
  }

  lemma {:induction false} InsertLast(rs: seq<bytes>, r: bytes)
    requires forall i :: 0 <= i < |rs| ==> !Routing.Less(r, rs[i])
    ensures Routing.Insert(r, rs) == rs + [r]
  {
    if rs != [] {
      InsertLast(rs[1..], r);
      assert rs == [rs[0]] + rs[1..];
    }
  }

  /** A response request on stream 1 with metadata. */
  lemma ResponseRequestVector()
    ensures RSocketCodec.Encode(RSocketCodec.Frame(RSocketCodec.RequestResponse, 1, RSocketCodec.NO_FLAGS, 0, Some([7]), Some([8, 9])))
         == Ok([0, 0, 0, 1] + [0x11, 0x00] + [0, 0, 1, 7, 8, 9])
  {
    var f := RSocketCodec.Frame(RSocketCodec.RequestResponse, 1, RSocketCodec.NO_FLAGS, 0, Some([7]), Some([8, 9]));
    Words();
    ByteOrder(0, 0, 0, 1);
    ByteOrder(0, 0, 1, 1);
    hide BigEndian, FromBigEndian, RSocketCodec.TypeAndFlags;
    assert RSocketCodec.MetadataData(f.metadata, f.data) == [0, 0, 1] + [7] + [8, 9];
    assert [0, 0, 1] + [7] + [8, 9] == [0, 0, 1, 7, 8, 9];
    hide RSocketCodec.MetadataData;
    Uncounted(f, [0, 0, 0, 1], [0x11, 0x00], [0, 0, 1, 7, 8, 9]);
  }

  /** A request on stream 3 for a stream, of which five items are wanted at first. */
  lemma StreamRequestVector()
    ensures RSocketCodec.Encode(RSocketCodec.Frame(RSocketCodec.RequestStream, 3, RSocketCodec.NO_FLAGS, 5, None, Some([8])))
         == Ok([0, 0, 0, 3] + [0x18, 0x00] + ([0, 0, 0, 5] + [8]))
  {
    var f := RSocketCodec.Frame(RSocketCodec.RequestStream, 3, RSocketCodec.NO_FLAGS, 5, None, Some([8]));
    Words();
    ByteOrder(0, 0, 0, 3);
    ByteOrder(0, 0, 0, 5);
    hide BigEndian, FromBigEndian, RSocketCodec.TypeAndFlags;
    assert RSocketCodec.MetadataData(f.metadata, f.data) == [8];
    hide RSocketCodec.MetadataData;
  }

  lemma Uncounted(f: RSocketCodec.Frame, id: bytes, word: bytes, content: bytes)
    requires RSocketCodec.Encodable(f) && !RSocketCodec.Counted(f.kind)
    requires BigEndian(f.streamId, 4) == id && BigEndian(RSocketCodec.TypeAndFlags(f), 2) == word
    requires RSocketCodec.MetadataData(f.metadata, f.data) == content
    ensures RSocketCodec.Encode(f) == Ok(id + word + content)
  {
    hide BigEndian, RSocketCodec.TypeAndFlags, RSocketCodec.MetadataData, RSocketCodec.Encodable;
    assert RSocketCodec.Count(f) == [] && RSocketCodec.Count(f) + content == content;
  }

  lemma Words()
    ensures RSocketCodec.TypeAndFlags(RSocketCodec.Frame(RSocketCodec.RequestResponse, 1, RSocketCodec.NO_FLAGS, 0, Some([7]), Some([8, 9])))
         == 0x1100
    ensures RSocketCodec.TypeAndFlags(RSocketCodec.Frame(RSocketCodec.RequestStream, 3, RSocketCodec.NO_FLAGS, 5, None, Some([8])))
         == 0x1800
    ensures BigEndian(0x1100, 2) == [0x11, 0x00] && BigEndian(0x1800, 2) == [0x18, 0x00]
  {
    ByteOrder(0x11, 0x00, 0, 0);
    ByteOrder(0x18, 0x00, 0, 0);
  }

  /** The bits of the second half of the header word, and the types in its first six bits. */
  lemma RSocketBits()
    ensures RSocketCodec.FlagBits(RSocketCodec.Flags(true, false, false, false, false, 0)) == 0x200
    ensures RSocketCodec.FlagBits(RSocketCodec.Flags(false, true, false, false, false, 0)) == 0x100
    ensures RSocketCodec.FlagBits(RSocketCodec.Flags(false, false, true, false, false, 0)) == 0x80
    ensures RSocketCodec.FlagBits(RSocketCodec.Flags(false, false, false, true, false, 0)) == 0x40
    ensures RSocketCodec.FlagBits(RSocketCodec.Flags(false, false, false, false, true, 0)) == 0x20
  {
  }
}
