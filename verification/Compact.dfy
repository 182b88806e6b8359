/** The optional compact codec: varint header fields and an attribute dictionary. */
module Compact {
  import opened Bytes
  import opened Frames
  import opened Leb128
  import Utf8
  import Codec

  const COMPACT_MAGIC := 0xc1
  const HAS_ATTRIBUTES := 0x20
  const HAS_HEADER_VALUE := 0x40
  const FRAGMENTED := 0x80

  const PROFILE: bytes := [0x70, 0x72, 0x70, 0x2e, 0x70, 0x72, 0x6f, 0x66, 0x69, 0x6c, 0x65]
  const RPC_TARGET: bytes :=
    [0x70, 0x72, 0x70, 0x2e, 0x72, 0x70, 0x63, 0x2e, 0x74, 0x61, 0x72, 0x67, 0x65, 0x74]
  const RPC_PATTERN: bytes :=
    [0x70, 0x72, 0x70, 0x2e, 0x72, 0x70, 0x63, 0x2e, 0x70, 0x61, 0x74, 0x74, 0x65, 0x72, 0x6e]
  const ERROR_CODE: bytes :=
    [0x70, 0x72, 0x70, 0x2e, 0x65, 0x72, 0x72, 0x6f, 0x72, 0x2e, 0x63, 0x6f, 0x64, 0x65]
  const SESSION_ID: bytes :=
    [0x70, 0x72, 0x70, 0x2e, 0x73, 0x65, 0x73, 0x73, 0x69, 0x6f, 0x6e, 0x2e, 0x69, 0x64]

  /** The ids of dictionary codes 1 to 5; code 0 is the literal escape. */
  const DICTIONARY: seq<bytes> := [PROFILE, RPC_TARGET, RPC_PATTERN, ERROR_CODE, SESSION_ID]

  function Code(id: bytes): (code: nat)
    ensures code <= |DICTIONARY|
    ensures code > 0 ==> DICTIONARY[code - 1] == id
    ensures code == 0 ==> id !in DICTIONARY
  {
    if id == PROFILE then 1
    else if id == RPC_TARGET then 2
    else if id == RPC_PATTERN then 3
    else if id == ERROR_CODE then 4
    else if id == SESSION_ID then 5
    else 0
  }

  predicate Plain(id: bytes) { 0 < |id| <= 15 && forall i :: 0 <= i < |id| ==> id[i] < 0x80 }

  lemma PlainIsValid(id: bytes)
    requires Plain(id)
    ensures Utf8.Valid(id) && !Utf8.HasBom(id)
  {
    Utf8.AsciiIsValid(id);
  }

  lemma NamesArePlain()
    ensures Plain(PROFILE) && Plain(RPC_TARGET) && Plain(RPC_PATTERN) && Plain(ERROR_CODE) && Plain(SESSION_ID)
  {
    assert Plain(PROFILE);
    assert Plain(RPC_TARGET);
    assert Plain(RPC_PATTERN);
    assert Plain(ERROR_CODE);
  }

  lemma NamesDiffer()
    ensures |PROFILE| == 11 && |RPC_PATTERN| == 15 && |RPC_TARGET| == |ERROR_CODE| == |SESSION_ID| == 14
    ensures RPC_TARGET[4] != ERROR_CODE[4] && RPC_TARGET[4] != SESSION_ID[4] && ERROR_CODE[4] != SESSION_ID[4]
  {
  }

  lemma Codes()
    ensures Code(PROFILE) == 1 && Code(RPC_TARGET) == 2 && Code(RPC_PATTERN) == 3
    ensures Code(ERROR_CODE) == 4 && Code(SESSION_ID) == 5
  {
    NamesDiffer();
  }

  lemma DictionaryIds(code: nat)
    requires 1 <= code <= |DICTIONARY|
    ensures Code(DICTIONARY[code - 1]) == code
    ensures var id := DICTIONARY[code - 1]; Utf8.Valid(id) && 0 < |id| <= 15 && !Utf8.HasBom(id)
  {
    hide Code, Plain, Utf8.Valid, Utf8.HasBom;
    var id := DICTIONARY[code - 1];
    assert id == PROFILE || id == RPC_TARGET || id == RPC_PATTERN || id == ERROR_CODE || id == SESSION_ID;
    Codes();
    NamesArePlain();
    PlainIsValid(id);
  }

  predicate PostHandshake(kind: int) { KnownKind(kind) && kind != HELLO && kind != WELCOME }

  // ---------------------------------------------------------------- attributes

  /** How an entry names its id on the wire: by dictionary code, or literally (`code == 0`). */
  datatype Entry = Entry(code: nat, a: Attribute)

  function Tag(e: Entry): nat { e.code * 2 + if e.a.required then 1 else 0 }

  function EntryWire(e: Entry): (r: bytes)
    ensures r != []
  {
    Varint(Tag(e)) + (if e.code == 0 then Varint(|e.a.id|) + e.a.id else []) + Varint(|e.a.value|) + e.a.value
  }

  function EntriesWire(entries: seq<Entry>): bytes {
    if entries == [] then [] else EntryWire(entries[0]) + EntriesWire(entries[1..])
  }

  /** Entries as the encoder writes them: literal only when the dictionary lacks the id. */
  function Written(a: Attribute): Entry { Entry(Code(a.id), a) }

  function EntryBytes(a: Attribute): (r: bytes)
    ensures r != []
  {
    EntryWire(Written(a))
  }

  function Entries(attributes: seq<Attribute>): bytes {
    if attributes == [] then [] else EntryBytes(attributes[0]) + Entries(attributes[1..])
  }

  /** The attribute section with its count prefix; `measureCompactAttributeBytes` is its length. */
  function Section(attributes: seq<Attribute>): bytes {
    if attributes == [] then [] else Varint(|attributes|) + Entries(attributes)
  }

  lemma {:induction false} EntriesConcat(a: seq<Attribute>, b: seq<Attribute>)
    ensures Entries(a + b) == Entries(a) + Entries(b)
    decreases |a|
  {
    if a == [] {
      assert a + b == b;
    } else {
      assert (a + b)[1..] == a[1..] + b;
      EntriesConcat(a[1..], b);
    }
  }

  lemma EntriesSplit(attributes: seq<Attribute>, i: nat)
    requires i < |attributes|
    ensures Entries(attributes[..i + 1]) == Entries(attributes[..i]) + EntryBytes(attributes[i])
    ensures |Entries(attributes[..i + 1])| <= |Entries(attributes)|
  {
    hide Entries, EntryBytes;
    var a := attributes[i];
    EntriesConcat(attributes[..i], [a]);
    assert attributes[..i] + [a] == attributes[..i + 1];
    OneEntryBytes(a);
    EntriesConcat(attributes[..i + 1], attributes[i + 1..]);
    assert attributes[..i + 1] + attributes[i + 1..] == attributes;
  }

  lemma OneEntryBytes(a: Attribute)
    ensures Entries([a]) == EntryBytes(a)
  {
    hide EntryBytes;
    assert [a][1..] == [] && EntryBytes(a) + [] == EntryBytes(a);
  }

  /** The attribute entry at the start of `b`, its id as on the wire, and the bytes it took. */
  function ParseEntry(b: bytes, limits: Limits): (r: Result<(Entry, nat)>)
    ensures r.Ok? ==> 1 <= r.value.1 <= |b|
    ensures r.Err? ==> r.fault == ViolationFault
  {
    var tag := ReadVarint(b, 32);
    if tag.Err? then Err(ViolationFault)
    else
      var code := tag.value.value / 2;
      var id := ParseId(b, tag.value.width, code, limits);
      if id.Err? then Err(ViolationFault)
      else ParseValue(b, id.value.1, code, id.value.0, tag.value.value % 2 == 1, limits)
  }

  /** The id named by `code`, or spelled out at `at`, and where it ends. */
  function ParseId(b: bytes, at: nat, code: nat, limits: Limits): (r: Result<(bytes, nat)>)
    requires 1 <= at <= |b|
    ensures r.Ok? ==> at <= r.value.1 <= |b|
  {
    if code == 0 then
      var size := ReadVarint(b[at..], 32);
      if size.Err? || size.value.value == 0 || size.value.value > limits.maxAttributeIdBytes
         || at + size.value.width + size.value.value > |b|
      then Err(ViolationFault)
      else
        var start := at + size.value.width;
        var id := b[start..start + size.value.value];
        if !Utf8.Valid(id) then Err(ViolationFault) else Ok((id, start + size.value.value))
    else if code > |DICTIONARY| || |DICTIONARY[code - 1]| > limits.maxAttributeIdBytes then Err(ViolationFault)
    else Ok((DICTIONARY[code - 1], at))
  }

  function ParseValue(b: bytes, at: nat, code: nat, id: bytes, required: bool, limits: Limits): (r: Result<(Entry, nat)>)
    requires 1 <= at <= |b|
    ensures r.Ok? ==> 1 <= r.value.1 <= |b|
    ensures r.Err? ==> r.fault == ViolationFault
  {
    var size := ReadVarint(b[at..], 32);
    if size.Err? || size.value.value > limits.maxAttributeValueBytes
       || at + size.value.width + size.value.value > |b|
    then Err(ViolationFault)
    else
      var start := at + size.value.width;
      var end := start + size.value.value;
      Ok((Entry(code, Attribute(id, b[start..end], required)), end))
  }

  /** The original TLV cost of an attribute, which compression must not evade. */
  function LogicalBytes(a: Attribute): nat { 7 + |a.id| + |a.value| }

  function LogicalTotal(attributes: seq<Attribute>): nat {
    if attributes == [] then 0 else LogicalBytes(attributes[0]) + LogicalTotal(attributes[1..])
  }

  lemma {:induction false} LogicalIsArea(attributes: seq<Attribute>)
    ensures LogicalTotal(attributes) == |Codec.AttributeArea(attributes)|
    decreases |attributes|
  {
    if attributes != [] {
      LogicalIsArea(attributes[1..]);
    }
  }

  /** `count` entries from the start of `b`, of which `logical` budget bytes are already used. */
  function ParseEntries(b: bytes, count: nat, logical: nat, limits: Limits): (r: Result<(seq<Entry>, nat)>)
    ensures r.Ok? ==> r.value.1 <= |b| && |r.value.0| == count
    ensures r.Err? ==> r.fault == ViolationFault
    decreases count
  {
    if count == 0 then Ok(([], 0))
    else
      var one := ParseEntry(b, limits);
      if one.Err? || logical + LogicalBytes(one.value.0.a) > limits.maxAttributeBytes then Err(ViolationFault)
      else
        var (entry, width) := one.value;
        var rest := ParseEntries(b[width..], count - 1, logical + LogicalBytes(entry.a), limits);
        if rest.Err? then rest else Ok(([entry] + rest.value.0, width + rest.value.1))
  }

  /** The attribute section: absent, or a non-zero count and that many entries. */
  function ParseSection(b: bytes, present: bool, limits: Limits): (r: Result<(seq<Entry>, nat)>)
    ensures r.Ok? ==> r.value.1 <= |b|
  {
    if !present then Ok(([], 0))
    else
      var count := ReadVarint(b, 32);
      if count.Err? || count.value.value == 0 || count.value.value > limits.maxAttributes then Err(ViolationFault)
      else
        var entries := ParseEntries(b[count.value.width..], count.value.value, 0, limits);
        if entries.Err? then entries else Ok((entries.value.0, count.value.width + entries.value.1))
  }

  function Shown(e: Entry): Attribute {
    if e.code == 0 then Codec.Decoded(e.a) else e.a
  }

  /** The attributes the application sees. */
  function ShownAll(entries: seq<Entry>): (r: seq<Attribute>)
    ensures |r| == |entries|
  {
    if entries == [] then [] else [Shown(entries[0])] + ShownAll(entries[1..])
  }

  function WrittenAll(attributes: seq<Attribute>): (r: seq<Entry>)
    ensures |r| == |attributes|
  {
    if attributes == [] then [] else [Written(attributes[0])] + WrittenAll(attributes[1..])
  }

  /** An entry the encoder could have produced: no stripped byte order mark, no spelled-out dictionary name. */
  predicate Canonical(e: Entry) {
    e.code == 0 ==> !Utf8.HasBom(e.a.id) && Code(e.a.id) == 0
  }

  predicate AllCanonical(entries: seq<Entry>) {
    forall i :: 0 <= i < |entries| ==> Canonical(entries[i])
  }

  // ---------------------------------------------------------------- frames

  function Flag(b: bool, weight: nat): nat { if b then weight else 0 }

  function Control(f: Frame): int {
    f.kind + Flag(f.attributes != [], HAS_ATTRIBUTES) + Flag(HeaderValue(f) != 0, HAS_HEADER_VALUE)
    + Flag(f.flags % 2 == 1, FRAGMENTED)
  }

  function CompactHeader(f: Frame): (r: bytes)
    requires PostHandshake(f.kind) && Codec.Numbered(f) && ShapeOk(f)
  {
    [COMPACT_MAGIC, Control(f)] + Varint(f.streamId) + Varint(f.sequence)
    + (if HeaderValue(f) == 0 then [] else Varint(HeaderValue(f)))
  }

  function EncodeCompact(f: Frame, limits: Limits): Result<bytes> {
    if !PostHandshake(f.kind) then Err(ViolationFault)
    else if !Codec.Numbered(f) then Err(RangeFault)
    else if !ShapeOk(f) then Err(ViolationFault)
    else if !Codec.AttributesFit(f.attributes, limits) then Err(RangeFault)
    else
      var b := CompactHeader(f) + Section(f.attributes) + f.payload;
      if |b| > limits.maxFrameBytes then Err(RangeFault) else Ok(b)
  }

  datatype CompactFields = CompactFields(kind: nat, fragmented: bool, attributes: bool, streamId: nat, sequence: nat, value: nat, width: nat)

  /** Stream id and sequence after the two leading bytes, and where they end. */
  function ReadIds(b: bytes): (r: Result<(nat, nat, nat)>)
    requires |b| >= 2
    ensures r.Ok? ==> r.value.2 <= |b|
  {
    var streamId := ReadVarint(b[2..], 64);
    if streamId.Err? then Err(ViolationFault)
    else
      var at := 2 + streamId.value.width;
      var sequence := ReadVarint(b[at..], 64);
      if sequence.Err? || sequence.value.value == 0 then Err(ViolationFault)
      else Ok((streamId.value.value, sequence.value.value, at + sequence.value.width))
  }

  /** The header value: absent, or a non-zero 32-bit varint. */
  function ReadValue(b: bytes, present: bool): (r: Result<Reading>)
    ensures r.Ok? ==> r.value.width <= |b|
  {
    if !present then Ok(Reading(0, 0))
    else
      var value := ReadVarint(b, 32);
      if value.Err? || value.value.value == 0 then Err(ViolationFault) else value
  }

  function ReadCompactHeader(b: bytes): (r: Result<CompactFields>)
    ensures r.Ok? ==> r.value.width <= |b|
  {
    if |b| < 4 || b[0] != COMPACT_MAGIC || !PostHandshake(b[1] % 32) then Err(ViolationFault)
    else
      var ids := ReadIds(b);
      if ids.Err? then Err(ViolationFault)
      else
        var value := ReadValue(b[ids.value.2..], b[1] / 64 % 2 == 1);
        if value.Err? then Err(ViolationFault)
        else Ok(CompactFields(b[1] % 32, b[1] / 128 == 1, b[1] / 32 % 2 == 1, ids.value.0, ids.value.1,
                              value.value.value, ids.value.2 + value.value.width))
  }

  function AssembleCompact(h: CompactFields, attributes: seq<Attribute>, payload: bytes): Frame {
    Frame(h.kind, h.streamId, h.sequence,
          if h.fragmented then DATA_FRAGMENTED_FLAG else 0,
          if h.kind == DEMAND then h.value else 0,
          if h.fragmented then h.value else 0,
          attributes, payload)
  }

  predicate ValueAllowed(h: CompactFields) {
    h.value == 0 || h.kind == DEMAND || (h.kind == DATA && h.fragmented)
  }

  /** The attribute entries of an encoded frame as on the wire, with the header before and the bytes read. */
  function WireEntries(b: bytes, limits: Limits): (r: Result<(CompactFields, seq<Entry>, nat)>)
    ensures r.Ok? ==> r.value.2 <= |b|
  {
    if |b| > limits.maxFrameBytes then Err(ViolationFault)
    else
      var header := ReadCompactHeader(b);
      if header.Err? then Err(ViolationFault)
      else
        var section := ParseSection(b[header.value.width..], header.value.attributes, limits);
        if section.Err? then Err(ViolationFault)
        else Ok((header.value, section.value.0, header.value.width + section.value.1))
  }

  function DecodeCompact(b: bytes, limits: Limits): Result<Frame> {
    var wire := WireEntries(b, limits);
    if wire.Err? then Err(ViolationFault)
    else
      var f := AssembleCompact(wire.value.0, ShownAll(wire.value.1), b[wire.value.2..]);
      if !ValueAllowed(wire.value.0) || !ShapeOk(f) then Err(ViolationFault) else Ok(f)
  }

  // ---------------------------------------------------------------- reading back what was written

  lemma TagParts(e: Entry)
    ensures Tag(e) / 2 == e.code && (Tag(e) % 2 == 1 <==> e.a.required)
    ensures 2 * e.code <= Tag(e) <= 2 * e.code + 1
  {
  }

  /** An entry reads back, whether its id is given by code or spelled out. */
  lemma ParseEntryWire(e: Entry, tail: bytes, limits: Limits)
    requires limits.Resolved() && Codec.AttributeFits(e.a, limits) && (e.code == 0 || e.code == Code(e.a.id))
    ensures ParseEntry(EntryWire(e) + tail, limits) == Ok((e, |EntryWire(e)|))
  {
    hide Utf8.Valid, Varint, ReadVarint, Code, Tag, ParseValue, ParseId;
    var b := EntryWire(e) + tail;
    var tag := Varint(Tag(e));
    TagParts(e);
    assert e.code <= |DICTIONARY|;
    assert b == tag + b[|tag|..];
    ReadWritten(Tag(e), 32, b[|tag|..]);
    IdWritten(b, |tag|, e, Varint(|e.a.value|) + e.a.value + tail, limits);
    var next := ParseId(b, |tag|, e.code, limits).value.1;
    ParseValueWritten(b, next, e.code, e.a, tail, limits);
  }

  lemma ParseEntryWritten(a: Attribute, tail: bytes, limits: Limits)
    requires limits.Resolved() && Codec.AttributeFits(a, limits)
    ensures ParseEntry(EntryBytes(a) + tail, limits) == Ok((Written(a), |EntryBytes(a)|))
  {
    hide ParseEntry, EntryWire, Code, Codec.AttributeFits;
    ParseEntryWire(Written(a), tail, limits);
  }

  lemma IdWritten(b: bytes, at: nat, e: Entry, tail: bytes, limits: Limits)
    requires limits.Resolved() && Codec.AttributeFits(e.a, limits) && (e.code == 0 || e.code == Code(e.a.id))
    requires 1 <= at <= |b| && b[at..] == (if e.code == 0 then Varint(|e.a.id|) + e.a.id else []) + tail
    ensures ParseId(b, at, e.code, limits) == Ok((e.a.id, |b| - |tail|))
    ensures b[|b| - |tail|..] == tail
  {
    hide Utf8.Valid, Varint, ReadVarint, Code;
    if e.code == 0 {
      var id := e.a.id;
      var size := Varint(|id|);
      assert b[at..] == size + (id + tail);
      ReadWritten(|id|, 32, id + tail);
      var start := at + |size|;
      assert b[start..] == b[at..][|size|..] == id + tail;
      assert b[start..start + |id|] == b[start..][..|id|] == id;
      assert b[|b| - |tail|..] == b[start..][|id|..];
    }
  }

  lemma ParseValueWritten(b: bytes, at: nat, code: nat, a: Attribute, tail: bytes, limits: Limits)
    requires 1 <= at <= |b| && b[at..] == Varint(|a.value|) + a.value + tail
    requires limits.Resolved() && |a.value| <= limits.maxAttributeValueBytes
    ensures ParseValue(b, at, code, a.id, a.required, limits)
         == Ok((Entry(code, a), at + |Varint(|a.value|)| + |a.value|))
  {
    hide Varint, ReadVarint;
    var size := Varint(|a.value|);
    assert b[at..] == size + (a.value + tail);
    ReadWritten(|a.value|, 32, a.value + tail);
    var start := at + |size|;
    assert b[start..] == b[at..][|size|..];
    assert b[start..start + |a.value|] == b[start..][..|a.value|] == a.value;
  }

  lemma {:induction false} ParseEntriesWritten(attributes: seq<Attribute>, logical: nat, tail: bytes, limits: Limits)
    requires limits.Resolved() && Codec.AllFit(attributes, limits)
    requires logical + LogicalTotal(attributes) <= limits.maxAttributeBytes
    ensures ParseEntries(Entries(attributes) + tail, |attributes|, logical, limits)
         == Ok((WrittenAll(attributes), |Entries(attributes)|))
    decreases |attributes|
  {
    hide ParseEntry, EntryBytes, Codec.AttributeFits, LogicalBytes, Code;
    if attributes != [] {
      var a := attributes[0];
      var rest := attributes[1..];
      var b := Entries(attributes) + tail;
      assert Codec.AttributeFits(a, limits);
      assert b == EntryBytes(a) + (Entries(rest) + tail);
      ParseEntryWritten(a, Entries(rest) + tail, limits);
      assert b[|EntryBytes(a)|..] == Entries(rest) + tail;
      ParseEntriesWritten(rest, logical + LogicalBytes(a), tail, limits);
    }
  }

  lemma ParseSectionWritten(attributes: seq<Attribute>, tail: bytes, limits: Limits)
    requires limits.Resolved() && Codec.AttributesFit(attributes, limits)
    ensures ParseSection(Section(attributes) + tail, attributes != [], limits)
         == Ok((WrittenAll(attributes), |Section(attributes)|))
  {
    hide Varint, ReadVarint, ParseEntries, Entries, Codec.AttributeFits;
    if attributes != [] {
      var count := Varint(|attributes|);
      var b := Section(attributes) + tail;
      assert b == count + (Entries(attributes) + tail);
      ReadWritten(|attributes|, 32, Entries(attributes) + tail);
      assert b[|count|..] == Entries(attributes) + tail;
      LogicalIsArea(attributes);
      ParseEntriesWritten(attributes, 0, tail, limits);
    }
  }

  lemma {:induction false} ShownWritten(attributes: seq<Attribute>)
    ensures ShownAll(WrittenAll(attributes)) == Codec.DecodedAll(attributes)
    decreases |attributes|
  {
    if attributes != [] {
      var code := Code(attributes[0].id);
      if code > 0 {
        DictionaryIds(code);
      }
      ShownWritten(attributes[1..]);
      assert WrittenAll(attributes)[1..] == WrittenAll(attributes[1..]);
    }
  }

  lemma ControlBits(f: Frame)
    requires PostHandshake(f.kind) && ShapeOk(f)
    ensures 0 <= Control(f) < 256
    ensures Control(f) % 32 == f.kind
    ensures Control(f) / 32 % 2 == 1 <==> f.attributes != []
    ensures Control(f) / 64 % 2 == 1 <==> HeaderValue(f) != 0
    ensures Control(f) / 128 == 1 <==> f.flags == DATA_FRAGMENTED_FLAG
  {
    var c := f.kind + Flag(f.attributes != [], 32) + Flag(HeaderValue(f) != 0, 64);
    assert c / 32 == Flag(f.attributes != [], 1) + Flag(HeaderValue(f) != 0, 2);
  }

  lemma ReadIdsWritten(lead: bytes, streamId: nat, sequence: nat, tail: bytes)
    requires |lead| == 2 && streamId <= MAX_U64 && 0 < sequence <= MAX_U64
    ensures ReadIds(lead + Varint(streamId) + Varint(sequence) + tail)
         == Ok((streamId, sequence, 2 + |Varint(streamId)| + |Varint(sequence)|))
  {
    hide Varint, ReadVarint;
    var id := Varint(streamId);
    var number := Varint(sequence);
    var b := lead + id + number + tail;
    Cuts(lead, id, number, tail, []);
    assert b == lead + id + number + tail + [];
    assert number + tail + [] == number + tail;
    ReadWritten(streamId, 64, number + tail);
    ReadWritten(sequence, 64, tail);
    assert tail + [] == tail;
  }

  /** The parts of a compact header: two bytes, the two ids, and the value if there is one. */
  function ValuePart(f: Frame): bytes
    requires HeaderValue(f) >= 0
  {
    if HeaderValue(f) == 0 then [] else Varint(HeaderValue(f))
  }

  lemma CompactHeaderParts(f: Frame, tail: bytes)
    requires PostHandshake(f.kind) && Codec.Numbered(f) && ShapeOk(f) && 0 <= Control(f) < 256
    ensures var lead, ids := [COMPACT_MAGIC, Control(f)], Varint(f.streamId) + Varint(f.sequence);
      var b := CompactHeader(f) + tail;
      && b == lead + Varint(f.streamId) + Varint(f.sequence) + (ValuePart(f) + tail)
      && |CompactHeader(f)| == 2 + |ids| + |ValuePart(f)|
      && b[0] == COMPACT_MAGIC && b[1] == Control(f)
      && b[2 + |ids|..] == ValuePart(f) + tail
  {
    hide Varint, Control, ShapeOk, KnownKind, Codec.Numbered, HeaderValue;
  }

  lemma CompactHeaderRead(f: Frame, tail: bytes)
    requires PostHandshake(f.kind) && Codec.Numbered(f) && ShapeOk(f)
    ensures ReadCompactHeader(CompactHeader(f) + tail)
         == Ok(CompactFields(f.kind, f.flags == DATA_FRAGMENTED_FLAG, f.attributes != [], f.streamId, f.sequence,
                             HeaderValue(f), |CompactHeader(f)|))
  {
    hide Varint, ReadVarint, ReadIds, ReadValue, Control, KnownKind, CompactHeader;
    ControlBits(f);
    CompactHeaderParts(f, tail);
    ReadIdsWritten([COMPACT_MAGIC, Control(f)], f.streamId, f.sequence, ValuePart(f) + tail);
    ReadValueWritten(HeaderValue(f), tail);
  }

  lemma ReadValueWritten(value: nat, tail: bytes)
    requires value <= MAX_U32
    ensures ReadValue((if value == 0 then [] else Varint(value)) + tail, value != 0)
         == Ok(Reading(value, if value == 0 then 0 else |Varint(value)|))
  {
    hide Varint, ReadVarint;
    if value != 0 {
      ReadWritten(value, 32, tail);
    }
  }

  /** In a well-shaped frame the header value and the fragmented flag determine the kind-specific fields. */
  lemma FlagsAndValue(f: Frame)
    ensures ShapeOk(f) && PostHandshake(f.kind) ==>
      && (f.flags == 0 || (f.kind == DATA && f.flags == DATA_FRAGMENTED_FLAG))
      && f.credit == (if f.kind == DEMAND then HeaderValue(f) else 0)
      && f.fragmentLength == (if f.flags == DATA_FRAGMENTED_FLAG then HeaderValue(f) else 0)
      && (HeaderValue(f) == 0 || f.kind == DEMAND || (f.kind == DATA && f.flags == DATA_FRAGMENTED_FLAG))
      && HeaderValue(f) >= 0
  {
  }

  /** Any frame the compact encoder accepts decodes, under any limits at least as wide, to what it says. */
  lemma DecodeCompactEncoded(f: Frame, limits: Limits, wider: Limits)
    requires limits.Resolved() && wider.Resolved() && limits.Within(wider)
    requires EncodeCompact(f, limits).Ok?
    ensures DecodeCompact(EncodeCompact(f, limits).value, wider)
         == Ok(f.(attributes := Codec.DecodedAll(f.attributes)))
  {
    hide ReadCompactHeader, ParseSection, Section, Codec.AttributeFits, ShapeOk;
    FlagsAndValue(f);
    var b := EncodeCompact(f, limits).value;
    var header := CompactHeader(f);
    var section := Section(f.attributes);
    CompactHeaderRead(f, section + f.payload);
    assert b == header + (section + f.payload);
    assert b[|header|..] == section + f.payload;
    Codec.FitsWider(f.attributes, limits, wider);
    ParseSectionWritten(f.attributes, f.payload, wider);
    ShownWritten(f.attributes);
    assert b[|header| + |section|..] == f.payload;
    Codec.ShapeIgnoresIds(f, f.(attributes := Codec.DecodedAll(f.attributes)));
  }

  /** Round trip: exactly the frames whose attribute ids carry no byte order mark come back unchanged. */
  lemma DecodeCompactEncodedIff(f: Frame, limits: Limits, wider: Limits)
    requires limits.Resolved() && wider.Resolved() && limits.Within(wider)
    requires EncodeCompact(f, limits).Ok?
    ensures DecodeCompact(EncodeCompact(f, limits).value, wider) == Ok(f) <==> Codec.NoBoms(f.attributes)
  {
    DecodeCompactEncoded(f, limits, wider);
    Codec.DecodedArea(f.attributes);
  }

  /** The compact codec refines the original one: same frames, same result, same attribute budget. */
  lemma CodecsAgree(f: Frame, limits: Limits, wider: Limits)
    requires limits.Resolved() && wider.Resolved() && limits.Within(wider)
    requires Codec.EncodeFrame(f, limits).Ok? && EncodeCompact(f, limits).Ok?
    requires Codec.NoBareBoms(f.attributes)
    ensures DecodeCompact(EncodeCompact(f, limits).value, wider)
         == Codec.DecodeFrame(Codec.EncodeFrame(f, limits).value, wider)
    ensures Codec.NoBoms(f.attributes)
        ==> DecodeCompact(EncodeCompact(f, limits).value, wider) == Ok(f)
    ensures LogicalTotal(f.attributes) == |Codec.AttributeArea(f.attributes)| <= limits.maxAttributeBytes
  {
    DecodeCompactEncoded(f, limits, wider);
    Codec.DecodeEncoded(f, limits, wider);
    Codec.DecodedArea(f.attributes);
    LogicalIsArea(f.attributes);
  }

  // ---------------------------------------------------------------- writing back what was read

  lemma ValueParsed(b: bytes, at: nat, code: nat, id: bytes, required: bool, limits: Limits)
    requires 1 <= at <= |b| && ParseValue(b, at, code, id, required, limits).Ok?
    ensures var (e, end) := ParseValue(b, at, code, id, required, limits).value;
      && at <= end
      && b[at..end] == Varint(|e.a.value|) + e.a.value
      && e == Entry(code, Attribute(id, e.a.value, required))
      && |e.a.value| <= limits.maxAttributeValueBytes
  {
    hide Varint, ReadVarint;
    var size := ReadVarint(b[at..], 32).value;
    WrittenRead(b[at..], 32);
    var start := at + size.width;
    var end := start + size.value;
    assert b[at..start] == b[at..][..size.width] == Varint(size.value);
    assert b[at..end] == b[at..start] + b[start..end];
  }

  lemma IdParsed(b: bytes, at: nat, code: nat, limits: Limits)
    requires 1 <= at <= |b| && ParseId(b, at, code, limits).Ok?
    ensures var (id, next) := ParseId(b, at, code, limits).value;
      && at <= next <= |b|
      && b[at..next] == (if code == 0 then Varint(|id|) + id else [])
      && Utf8.Valid(id) && 0 < |id| <= limits.maxAttributeIdBytes
      && code <= |DICTIONARY| && (code > 0 ==> id == DICTIONARY[code - 1])
  {
    hide Varint, ReadVarint, Utf8.Valid;
    if code == 0 {
      var size := ReadVarint(b[at..], 32).value;
      WrittenRead(b[at..], 32);
      var start := at + size.width;
      var next := start + size.value;
      assert b[at..start] == b[at..][..size.width] == Varint(size.value);
      assert b[at..next] == b[at..start] + b[start..next];
    } else {
      DictionaryIds(code);
    }
  }

  lemma EntryParsed(b: bytes, limits: Limits)
    requires ParseEntry(b, limits).Ok?
    ensures ParseEntry(b, limits).value.1 <= |b|
    ensures b[..ParseEntry(b, limits).value.1] == EntryWire(ParseEntry(b, limits).value.0)
    ensures Named(ParseEntry(b, limits).value.0, limits)
  {
    hide Varint, ReadVarint, ParseValue, ParseId, Tag, EntryWire, Named;
    var tag := ReadVarint(b, 32).value;
    WrittenRead(b, 32);
    EntryAfterTag(b, tag.value, tag.width, limits);
  }

  lemma EntryAfterTag(b: bytes, tag: nat, at: nat, limits: Limits)
    requires 1 <= at <= |b| && b[..at] == Varint(tag)
    requires ParseId(b, at, tag / 2, limits).Ok?
    requires var (id, next) := ParseId(b, at, tag / 2, limits).value;
      ParseValue(b, next, tag / 2, id, tag % 2 == 1, limits).Ok?
    ensures var (id, next) := ParseId(b, at, tag / 2, limits).value;
      var (e, width) := ParseValue(b, next, tag / 2, id, tag % 2 == 1, limits).value;
      width <= |b| && b[..width] == EntryWire(e) && Named(e, limits)
  {
    hide Varint, ReadVarint, ParseValue, ParseId, Tag, Utf8.Valid, EntryWire;
    var code := tag / 2;
    var required := tag % 2 == 1;
    IdParsed(b, at, code, limits);
    var (id, next) := ParseId(b, at, code, limits).value;
    ValueParsed(b, next, code, id, required, limits);
    var (e, width) := ParseValue(b, next, code, id, required, limits).value;
    TagParts(e);
    assert Tag(e) == tag;
    Pieces(b, at, next, width);
    EntryPieces(e, b[at..next], b[next..width]);
  }

  lemma EntryPieces(e: Entry, id: bytes, value: bytes)
    requires id == (if e.code == 0 then Varint(|e.a.id|) + e.a.id else []) && value == Varint(|e.a.value|) + e.a.value
    ensures EntryWire(e) == Varint(Tag(e)) + id + value
  {
    hide Varint, Tag;
  }

  lemma Pieces(b: bytes, i: nat, j: nat, k: nat)
    requires i <= j <= k <= |b|
    ensures b[..k] == b[..i] + b[i..j] + b[j..k]
  {
  }

  lemma {:induction false} EntriesParsed(b: bytes, count: nat, logical: nat, limits: Limits)
    requires ParseEntries(b, count, logical, limits).Ok?
    ensures b[..ParseEntries(b, count, logical, limits).value.1]
         == EntriesWire(ParseEntries(b, count, logical, limits).value.0)
    ensures Readable(ParseEntries(b, count, logical, limits).value.0, limits)
    ensures logical <= limits.maxAttributeBytes
        ==> logical + WireLogical(ParseEntries(b, count, logical, limits).value.0) <= limits.maxAttributeBytes
    decreases count
  {
    hide ParseEntry, EntryWire, Named;
    if count > 0 {
      var (e, width) := ParseEntry(b, limits).value;
      EntryParsed(b, limits);
      EntriesParsed(b[width..], count - 1, logical + LogicalBytes(e.a), limits);
      var (rest, more) := ParseEntries(b[width..], count - 1, logical + LogicalBytes(e.a), limits).value;
      var all := ParseEntries(b, count, logical, limits).value;
      assert all == ([e] + rest, width + more);
      assert ([e] + rest)[1..] == rest;
      assert b[..width + more] == b[..width] + b[width..][..more];
    }
  }

  /** What a parsed entry is known to satisfy: it fits, and a dictionary code names its id. */
  predicate Named(e: Entry, limits: Limits) {
    && Codec.AttributeFits(e.a, limits)
    && e.code <= |DICTIONARY|
    && (e.code > 0 ==> e.a.id == DICTIONARY[e.code - 1])
  }

  predicate Readable(entries: seq<Entry>, limits: Limits) {
    forall i :: 0 <= i < |entries| ==> Named(entries[i], limits)
  }

  function WireLogical(entries: seq<Entry>): nat {
    if entries == [] then 0 else LogicalBytes(entries[0].a) + WireLogical(entries[1..])
  }

  function SectionWire(entries: seq<Entry>): bytes {
    if entries == [] then [] else Varint(|entries|) + EntriesWire(entries)
  }

  lemma NothingWired()
    ensures WireLogical([]) == 0
  {
  }

  lemma SectionParsed(b: bytes, present: bool, limits: Limits)
    requires ParseSection(b, present, limits).Ok?
    ensures var (entries, width) := ParseSection(b, present, limits).value;
      && b[..width] == SectionWire(entries)
      && (present <==> entries != [])
      && |entries| <= limits.maxAttributes
      && Readable(entries, limits)
      && WireLogical(entries) <= limits.maxAttributeBytes
  {
    hide Varint, ReadVarint, ParseEntries, EntriesWire, WireLogical, Named;
    NothingWired();
    if present {
      var count := ReadVarint(b, 32).value;
      WrittenRead(b, 32);
      var (entries, more) := ParseEntries(b[count.width..], count.value, 0, limits).value;
      EntriesParsed(b[count.width..], count.value, 0, limits);
      assert b[..count.width + more] == b[..count.width] + b[count.width..][..more];
    }
  }

  /** Showing an entry and writing it again never lengthens it, and shortens it unless it was canonical. */
  lemma EntryReshown(e: Entry, limits: Limits)
    requires Named(e, limits)
    ensures Codec.AttributeFits(e.a, limits)
    ensures Canonical(e) ==> Written(Shown(e)) == e
    ensures |EntryBytes(Shown(e))| <= |EntryWire(e)|
    ensures !Canonical(e) ==> |EntryBytes(Shown(e))| < |EntryWire(e)|
    ensures LogicalBytes(Shown(e)) <= LogicalBytes(e.a)
  {
    hide Utf8.Valid;
    var shown := Shown(e);
    TagParts(Written(shown));
    TagParts(e);
    assert |Varint(Tag(Written(shown)))| == 1 && |Varint(Tag(e))| == 1;
    if e.code > 0 {
      DictionaryIds(e.code);
    } else {
      WidthMonotone(|shown.id|, |e.a.id|);
    }
  }

  lemma {:induction false} EntriesReshown(entries: seq<Entry>, limits: Limits)
    requires Readable(entries, limits)
    ensures AllCanonical(entries) ==>
      Entries(ShownAll(entries)) == EntriesWire(entries) && Codec.AllFit(ShownAll(entries), limits)
    ensures |Entries(ShownAll(entries))| <= |EntriesWire(entries)|
    ensures !AllCanonical(entries) ==> |Entries(ShownAll(entries))| < |EntriesWire(entries)|
    ensures LogicalTotal(ShownAll(entries)) <= WireLogical(entries)
    decreases |entries|
  {
    hide EntryWire, Codec.AttributeFits, Canonical, Shown, LogicalBytes, Named;
    if entries != [] {
      var e := entries[0];
      var rest := entries[1..];
      assert Named(e, limits);
      EntryReshown(e, limits);
      assert Readable(rest, limits);
      EntriesReshown(rest, limits);
      CanonicalCons(entries);
      var shown := ShownAll(entries);
      assert shown[0] == Shown(e) && shown[1..] == ShownAll(rest);
      if Canonical(e) {
        assert Shown(e) == e.a by { CanonicalShown(e); }
      }
      if AllCanonical(entries) {
        forall i | 0 <= i < |shown|
          ensures Codec.AttributeFits(shown[i], limits)
        {
          if i > 0 { assert shown[i] == ShownAll(rest)[i - 1]; }
        }
      }
    }
  }

  lemma CanonicalShown(e: Entry)
    requires Canonical(e)
    ensures Shown(e) == e.a
  {
  }

  lemma CanonicalCons(entries: seq<Entry>)
    requires entries != []
    ensures AllCanonical(entries) <==> Canonical(entries[0]) && AllCanonical(entries[1..])
  {
    if Canonical(entries[0]) && AllCanonical(entries[1..]) {
      forall i | 0 <= i < |entries|
        ensures Canonical(entries[i])
      {
        if i > 0 { assert entries[i] == entries[1..][i - 1]; }
      }
    }
    if AllCanonical(entries) {
      assert forall i :: 0 <= i < |entries[1..]| ==> entries[1..][i] == entries[i + 1];
    }
  }

  lemma IdsParsed(b: bytes)
    requires |b| >= 2 && ReadIds(b).Ok?
    ensures var (streamId, sequence, next) := ReadIds(b).value;
      && streamId <= MAX_U64 && 0 < sequence <= MAX_U64 && 2 <= next <= |b|
      && b[..next] == b[..2] + Varint(streamId) + Varint(sequence)
  {
    hide Varint, ReadVarint;
    var streamId := ReadVarint(b[2..], 64).value;
    WrittenRead(b[2..], 64);
    var at := 2 + streamId.width;
    var sequence := ReadVarint(b[at..], 64).value;
    WrittenRead(b[at..], 64);
    var next := at + sequence.width;
    assert b[2..at] == b[2..][..streamId.width] == Varint(streamId.value);
    assert b[at..next] == b[at..][..sequence.width] == Varint(sequence.value);
    assert b[..next] == b[..2] + b[2..at] + b[at..next];
  }

  lemma HeaderParsed(b: bytes, attributes: seq<Attribute>, payload: bytes)
    requires ReadCompactHeader(b).Ok?
    requires var h := ReadCompactHeader(b).value;
      ValueAllowed(h) && ShapeOk(AssembleCompact(h, attributes, payload)) && (h.attributes <==> attributes != [])
    ensures var h := ReadCompactHeader(b).value;
      var f := AssembleCompact(h, attributes, payload);
      && PostHandshake(f.kind) && Codec.Numbered(f)
      && h.width <= |b| && CompactHeader(f) == b[..h.width]
  {
    hide Varint, ReadVarint, ReadIds, ReadValue, KnownKind, Control, ShapeOk;
    var h := ReadCompactHeader(b).value;
    var f := AssembleCompact(h, attributes, payload);
    FlagsAndValue(f);
    IdsParsed(b);
    var next := ReadIds(b).value.2;
    ValueRead(b[next..], b[1] / 64 % 2 == 1);
    assert HeaderValue(f) == h.value;
    assert b[..h.width] == b[..next] + b[next..][..h.width - next];
    ControlOf(b[1], f);
    assert b[..2] == [COMPACT_MAGIC, Control(f)];
  }

  lemma ValueRead(b: bytes, present: bool)
    requires ReadValue(b, present).Ok?
    ensures var value := ReadValue(b, present).value;
      && (value.value != 0 <==> present)
      && b[..value.width] == if value.value == 0 then [] else Varint(value.value)
  {
    hide Varint, ReadVarint;
    if present {
      WrittenRead(b, 32);
    }
  }

  lemma ControlOf(c: byte, f: Frame)
    requires f.kind == c % 32 && (f.attributes != [] <==> c / 32 % 2 == 1) && (HeaderValue(f) != 0 <==> c / 64 % 2 == 1)
    requires f.flags % 2 == 1 <==> c / 128 == 1
    ensures Control(f) == c
  {
    hide HeaderValue;
    assert c / 32 == c / 32 % 2 + 2 * (c / 64 % 2) + 4 * (c / 128);
  }

  /**
   * Canonicity: re-encoding an accepted compact frame gives back the same bytes exactly when no
   * literal id started with a byte order mark or spelled a dictionary name.
   */
  lemma EncodeCompactDecodedIff(b: bytes, limits: Limits)
    requires DecodeCompact(b, limits).Ok?
    ensures WireEntries(b, limits).Ok?
    ensures EncodeCompact(DecodeCompact(b, limits).value, limits) == Ok(b)
       <==> AllCanonical(WireEntries(b, limits).value.1)
  {
    hide ReadCompactHeader, ParseSection, ShapeOk, EntriesWire, Entries, Varint, WireLogical,
      LogicalTotal, Readable, CompactHeader, Canonical;
    var f := DecodeCompact(b, limits).value;
    var (h, entries, end) := WireEntries(b, limits).value;
    var left := b[h.width..];
    SectionParsed(left, h.attributes, limits);
    HeaderParsed(b, f.attributes, f.payload);
    EntriesReshown(entries, limits);
    LogicalIsArea(f.attributes);
    var section := left[..end - h.width];
    assert b[..end] == b[..h.width] + section;
    assert b == b[..end] + f.payload;
    assert AssembleCompact(h, f.attributes, f.payload) == f;
    if AllCanonical(entries) {
      assert Section(f.attributes) == section;
      assert Codec.AttributesFit(f.attributes, limits);
    } else {
      assert |Section(f.attributes)| < |section|;
    }
  }

  // ---------------------------------------------------------------- a name spelled out

  /** A SIGNAL with one optional attribute, which has no value. */
  function Signal(id: bytes): Frame { Frame(SIGNAL, 0, 1, 0, 0, 0, [Attribute(id, [], false)], []) }

  /** The same in compact form, with the id spelled out. */
  function SpelledOut(id: bytes): bytes
    requires |id| < 128
  {
    [COMPACT_MAGIC, SIGNAL + HAS_ATTRIBUTES, 0, 1, 1, 0, |id|] + id + [0]
  }

  lemma SignalHeader(id: bytes)
    ensures CompactHeader(Signal(id)) == [COMPACT_MAGIC, SIGNAL + HAS_ATTRIBUTES, 0, 1]
  {
  }

  lemma SpelledEntry(id: bytes)
    requires |id| < 128
    ensures EntryWire(Entry(0, Attribute(id, [], false))) == [0, |id|] + id + [0]
  {
    hide Code;
    assert Varint(0) == [0] && Varint(|id|) == [|id|];
    assert [0] + ([|id|] + id) + [0] + [] == [0, |id|] + id + [0];
  }

  lemma OneEntry(e: Entry, limits: Limits)
    requires limits.Resolved() && Codec.AttributeFits(e.a, limits) && e.code == 0 && LogicalBytes(e.a) <= limits.maxAttributeBytes
    ensures ParseEntries(EntryWire(e), 1, 0, limits) == Ok(([e], |EntryWire(e)|))
  {
    hide ParseEntry, EntryWire, Code, Codec.AttributeFits;
    assert EntryWire(e) + [] == EntryWire(e) && [e] + [] == [e];
    ParseEntryWire(e, [], limits);
  }

  lemma OneEntrySection(e: Entry, limits: Limits)
    requires limits.Resolved() && Codec.AttributeFits(e.a, limits) && e.code == 0 && LogicalBytes(e.a) <= limits.maxAttributeBytes
    ensures ParseSection([1] + EntryWire(e), true, limits) == Ok(([e], 1 + |EntryWire(e)|))
  {
    hide ReadVarint, ParseEntries, EntryWire, Codec.AttributeFits;
    assert Varint(1) == [1];
    ReadWritten(1, 32, EntryWire(e));
    OneEntry(e, limits);
    assert ([1] + EntryWire(e))[1..] == EntryWire(e);
  }

  lemma SpelledRead(id: bytes, limits: Limits)
    requires 0 < |id| <= 15 && Utf8.Valid(id) && !Utf8.HasBom(id) && |id| <= limits.maxAttributeIdBytes
    requires limits.Resolved() && 7 + |id| <= limits.maxAttributeBytes
    ensures DecodeCompact(SpelledOut(id), limits) == Ok(Signal(id))
  {
    hide ParseSection, ReadCompactHeader, CompactHeader, Utf8.Valid, EntryWire;
    var b, f, e := SpelledOut(id), Signal(id), Entry(0, Attribute(id, [], false));
    var section := [1] + EntryWire(e);
    SignalHeader(id);
    SpelledEntry(id);
    assert b == CompactHeader(f) + section;
    CompactHeaderRead(f, section);
    assert b[4..] == section;
    OneEntrySection(e, limits);
    assert b[|b|..] == [];
    assert ShownAll([e]) == f.attributes by { assert [e][1..] == []; }
  }

  lemma SignalFits(id: bytes, limits: Limits)
    requires 0 < |id| <= 15 && Utf8.Valid(id) && |id| <= limits.maxAttributeIdBytes
    requires limits.Resolved() && 7 + |id| <= limits.maxAttributeBytes
    ensures Codec.AttributesFit(Signal(id).attributes, limits)
  {
    hide Utf8.Valid, Codec.AttributeArea;
    var a := Attribute(id, [], false);
    assert [a] + [] == [a];
    Codec.AreaCons(a, []);
    assert Codec.AttributeArea([]) == [] by { NoArea(); }
  }

  lemma NoArea()
    ensures Codec.AttributeArea([]) == []
  {
  }

  lemma SignalSection(a: Attribute)
    requires a.value == [] && !a.required && 0 < Code(a.id) < 64
    ensures Section([a]) == [1, 2 * Code(a.id), 0]
  {
    hide Code;
    assert [a][1..] == [] && Entries([]) == [];
    assert Varint(2 * Code(a.id)) == [2 * Code(a.id)] && Varint(0) == [0] && Varint(1) == [1];
    assert EntryBytes(a) == [2 * Code(a.id), 0];
    assert Entries([a]) == EntryBytes(a) + [];
  }

  lemma Joined(a: byte, b: byte, c: byte, d: byte, e: byte, f: byte, g: byte)
    ensures [a, b, c, d] + [e, f, g] + [] == [a, b, c, d, e, f, g]
  {
  }

  lemma SignalShape(id: bytes)
    ensures var f := Signal(id); PostHandshake(f.kind) && Codec.Numbered(f) && ShapeOk(f)
  {
  }

  lemma SignalWritten(id: bytes, limits: Limits)
    requires 0 < Code(id) < 64 && 0 < |id| <= 15 && Utf8.Valid(id) && |id| <= limits.maxAttributeIdBytes
    requires limits.Resolved() && 7 + |id| <= limits.maxAttributeBytes
    ensures EncodeCompact(Signal(id), limits) == Ok([COMPACT_MAGIC, SIGNAL + HAS_ATTRIBUTES, 0, 1, 1, 2 * Code(id), 0])
  {
    hide Code, Utf8.Valid, CompactHeader, Section, Codec.AttributesFit, ShapeOk, KnownKind, Codec.Numbered;
    Joined(COMPACT_MAGIC, SIGNAL + HAS_ATTRIBUTES, 0, 1, 1, 2 * Code(id), 0);
    SignalShape(id);
    SignalHeader(id);
    SignalFits(id, limits);
    SignalSection(Attribute(id, [], false));
  }

  /** A dictionary name spelled out is accepted, and the frame comes back shorter when it is encoded again. */
  lemma SpelledNameShrinks(code: nat, limits: Limits)
    requires 1 <= code <= |DICTIONARY| && limits.Resolved()
    requires |DICTIONARY[code - 1]| <= limits.maxAttributeIdBytes && 7 + |DICTIONARY[code - 1]| <= limits.maxAttributeBytes
    ensures |DICTIONARY[code - 1]| <= 15
    ensures DecodeCompact(SpelledOut(DICTIONARY[code - 1]), limits) == Ok(Signal(DICTIONARY[code - 1]))
    ensures EncodeCompact(Signal(DICTIONARY[code - 1]), limits)
         == Ok([COMPACT_MAGIC, SIGNAL + HAS_ATTRIBUTES, 0, 1, 1, 2 * code, 0])
  {
    hide DecodeCompact, EncodeCompact, SpelledOut, Code, Utf8.Valid;
    DictionaryIds(code);
    SpelledRead(DICTIONARY[code - 1], limits);
    SignalWritten(DICTIONARY[code - 1], limits);
  }

  // ---------------------------------------------------------------- the loops

  method MeasureEntry(a: Attribute) returns (n: nat)
    ensures n == |EntryBytes(a)|
  {
    hide Varint, Code;
    var e := Written(a);
    var tagBytes := VarintBytes(Tag(e));
    var sizeBytes := VarintBytes(|a.value|);
    n := tagBytes + sizeBytes + |a.value|;
    if e.code == 0 {
      var idBytes := VarintBytes(|a.id|);
      n := n + idBytes + |a.id|;
    }
  }

  /** `prepareAttributes`: checks the original TLV budget and measures the compact section. */
  method PrepareAttributes(attributes: seq<Attribute>, limits: Limits) returns (r: Result<nat>)
    ensures r == if Codec.AttributesFit(attributes, limits) then Ok(|Section(attributes)|) else Err(RangeFault)
  {
    hide Varint, Utf8.Valid, Code, EntryBytes, Codec.AttributeBytes;
    if |attributes| > limits.maxAttributes { return Err(RangeFault); }
    var logicalBytes := 0;
    var encodedBytes := 0;
    if |attributes| > 0 { encodedBytes := VarintBytes(|attributes|); }
    ghost var prefix := encodedBytes;
    var i := 0;
    while i < |attributes|
      invariant 0 <= i <= |attributes|
      invariant forall j :: 0 <= j < i ==> Codec.AttributeFits(attributes[j], limits)
      invariant logicalBytes == |Codec.AttributeArea(attributes[..i])| <= limits.maxAttributeBytes
      invariant encodedBytes == prefix + |Entries(attributes[..i])|
    {
      var a := attributes[i];
      Codec.AreaSplit(attributes, i);
      EntriesSplit(attributes, i);
      if !Utf8.Valid(a.id) || |a.id| == 0 || |a.id| > limits.maxAttributeIdBytes { return Err(RangeFault); }
      if |a.value| > limits.maxAttributeValueBytes { return Err(RangeFault); }
      logicalBytes := logicalBytes + 7 + |a.id| + |a.value|;
      if logicalBytes > limits.maxAttributeBytes { return Err(RangeFault); }
      var entryBytes := MeasureEntry(a);
      encodedBytes := encodedBytes + entryBytes;
      i := i + 1;
    }
    assert attributes[..i] == attributes;
    r := Ok(encodedBytes);
  }

  /** Writes a length-prefixed byte string. */
  method WriteSized(output: array<byte>, start: nat, data: bytes) returns (at: nat)
    requires start + |Varint(|data|)| + |data| <= output.Length
    modifies output
    ensures at == start + |Varint(|data|)| + |data|
    ensures output[..at] == old(output[..start]) + (Varint(|data|) + data)
  {
    hide Varint;
    at := WriteVarint(output, start, |data|);
    Put(output, at, data);
    at := at + |data|;
  }

  method WriteEntry(output: array<byte>, start: nat, a: Attribute) returns (at: nat)
    requires start + |EntryBytes(a)| <= output.Length
    modifies output
    ensures at == start + |EntryBytes(a)|
    ensures output[..at] == old(output[..start]) + EntryBytes(a)
  {
    hide Varint, Code, Tag;
    var e := Written(a);
    ghost var lead := output[..start];
    ghost var tag := Varint(Tag(e));
    ghost var id := if e.code == 0 then Varint(|a.id|) + a.id else [];
    ghost var value := Varint(|a.value|) + a.value;
    assert EntryBytes(a) == tag + id + value;
    at := WriteVarint(output, start, Tag(e));
    if e.code == 0 { at := WriteSized(output, at, a.id); }
    assert output[..at] == lead + tag + id;
    at := WriteSized(output, at, a.value);
    assert lead + tag + id + value == lead + (tag + id + value);
  }

  method WriteCompactHeader(output: array<byte>, f: Frame) returns (at: nat)
    requires PostHandshake(f.kind) && Codec.Numbered(f) && ShapeOk(f) && |CompactHeader(f)| <= output.Length
    modifies output
    ensures at == |CompactHeader(f)|
    ensures output[..at] == CompactHeader(f)
  {
    FlagsAndValue(f);
    ControlBits(f);
    hide Varint, KnownKind, ShapeOk, Control;
    Put(output, 0, [COMPACT_MAGIC]);
    Put(output, 1, [Control(f)]);
    assert output[..2] == [COMPACT_MAGIC, Control(f)];
    at := WriteVarint(output, 2, f.streamId);
    at := WriteVarint(output, at, f.sequence);
    if HeaderValue(f) != 0 { at := WriteVarint(output, at, HeaderValue(f)); }
  }

  /** `encodeCompactFrame`: measure, then write behind a moving cursor. */
  method WriteCompact(f: Frame, limits: Limits) returns (r: Result<bytes>)
    ensures r == EncodeCompact(f, limits)
  {
    hide Varint, KnownKind, ShapeOk, Section, Codec.AttributesFit;
    if !PostHandshake(f.kind) { return Err(ViolationFault); }
    if !Codec.Numbered(f) { return Err(RangeFault); }
    if !ShapeOk(f) { return Err(ViolationFault); }
    FlagsAndValue(f);
    ControlBits(f);
    var headerValue := HeaderValue(f);
    var prepared := PrepareAttributes(f.attributes, limits);
    if prepared.Err? { return Err(prepared.fault); }
    var idBytes := VarintBytes(f.streamId);
    var sequenceBytes := VarintBytes(f.sequence);
    var valueBytes := 0;
    if headerValue != 0 { valueBytes := VarintBytes(headerValue); }
    var length := 2 + idBytes + sequenceBytes + valueBytes + prepared.value + |f.payload|;
    if length > limits.maxFrameBytes { return Err(RangeFault); }
    var output := new byte[length];
    var at := WriteCompactHeader(output, f);
    NoSection();
    if |f.attributes| != 0 { at := WriteSection(output, at, f.attributes); }
    assert output[..at] == CompactHeader(f) + Section(f.attributes);
    Put(output, at, f.payload);
    assert output[..] == output[..at + |f.payload|];
    r := Ok(output[..]);
  }

  method WriteEntries(output: array<byte>, start: nat, attributes: seq<Attribute>) returns (at: nat)
    requires start + |Entries(attributes)| <= output.Length
    modifies output
    ensures at == start + |Entries(attributes)|
    ensures output[..at] == old(output[..start]) + Entries(attributes)
  {
    hide EntryBytes, Entries;
    at := start;
    var i := 0;
    assert attributes[..0] == [];
    NoEntries();
    while i < |attributes|
      invariant 0 <= i <= |attributes|
      invariant at == start + |Entries(attributes[..i])| <= output.Length
      invariant output[..at] == old(output[..start]) + Entries(attributes[..i])
    {
      EntriesSplit(attributes, i);
      at := WriteEntry(output, at, attributes[i]);
      i := i + 1;
    }
    assert attributes[..i] == attributes;
  }

  lemma NoSection()
    ensures Section([]) == []
  {
  }

  lemma NoEntries()
    ensures Entries([]) == []
  {
  }

  method WriteSection(output: array<byte>, start: nat, attributes: seq<Attribute>) returns (at: nat)
    requires attributes != [] && start + |Section(attributes)| <= output.Length
    modifies output
    ensures at == start + |Section(attributes)|
    ensures output[..at] == old(output[..start]) + Section(attributes)
  {
    hide Varint, Entries;
    at := WriteVarint(output, start, |attributes|);
    at := WriteEntries(output, at, attributes);
  }

  /** One round of the attribute loop of `decodeCompactFrame`, before the id is turned into text. */
  method ReadEntry(input: bytes, start: nat, limits: Limits) returns (r: Result<(Entry, nat)>)
    requires start <= |input|
    ensures r == ParseEntry(input[start..], limits)
  {
    hide Varint, ReadVarint, Utf8.Valid;
    ghost var b := input[start..];
    var tag := ReadAt(input, start, 32);
    if tag.Err? { return Err(ViolationFault); }
    var code := tag.value.value / 2;
    var at := start + tag.value.width;
    var id: bytes;
    if code == 0 {
      assert input[at..] == b[at - start..];
      var size := ReadAt(input, at, 32);
      if size.Err? { return Err(ViolationFault); }
      at := at + size.value.width;
      var idBytes := size.value.value;
      if idBytes == 0 || idBytes > limits.maxAttributeIdBytes || at + idBytes > |input| { return Err(ViolationFault); }
      id := input[at..at + idBytes];
      assert id == b[at - start..at - start + idBytes];
      if !Utf8.Valid(id) { return Err(ViolationFault); }
      at := at + idBytes;
    } else {
      if code > |DICTIONARY| { return Err(ViolationFault); }
      id := DICTIONARY[code - 1];
      if |id| > limits.maxAttributeIdBytes { return Err(ViolationFault); }
    }
    assert ParseId(b, tag.value.width, code, limits) == Ok((id, at - start));
    assert input[at..] == b[at - start..];
    var length := ReadAt(input, at, 32);
    if length.Err? { return Err(ViolationFault); }
    at := at + length.value.width;
    if length.value.value > limits.maxAttributeValueBytes || at + length.value.value > |input| {
      return Err(ViolationFault);
    }
    var value := input[at..at + length.value.value];
    assert value == b[at - start..at - start + length.value.value];
    at := at + length.value.value;
    r := Ok((Entry(code, Attribute(id, value, tag.value.value % 2 == 1)), at - start));
  }

  /** The entries read so far and their bytes, with what the rest comes to. */
  function Onto(wire: seq<Entry>, read: nat, rest: Result<(seq<Entry>, nat)>): Result<(seq<Entry>, nat)> {
    if rest.Err? then rest else Ok((wire + rest.value.0, read + rest.value.1))
  }

  lemma EntriesNext(wire: seq<Entry>, read: nat, b: bytes, count: nat, logical: nat, limits: Limits)
    ensures var whole, one := Onto(wire, read, ParseEntries(b, count, logical, limits)), ParseEntry(b, limits);
      if count == 0 then whole == Ok((wire, read))
      else if one.Err? || logical + LogicalBytes(one.value.0.a) > limits.maxAttributeBytes then whole == Err(ViolationFault)
      else
        var (e, width) := one.value;
        whole == Onto(wire + [e], read + width, ParseEntries(b[width..], count - 1, logical + LogicalBytes(e.a), limits))
  {
    hide ParseEntry, LogicalBytes;
    var one := ParseEntry(b, limits);
    if count == 0 {
      assert wire + [] == wire;
    } else if one.Ok? && logical + LogicalBytes(one.value.0.a) <= limits.maxAttributeBytes {
      var (e, width) := one.value;
      OntoCons(wire, read, e, width, ParseEntries(b[width..], count - 1, logical + LogicalBytes(e.a), limits));
    }
  }

  lemma OntoCons(wire: seq<Entry>, read: nat, e: Entry, width: nat, rest: Result<(seq<Entry>, nat)>)
    ensures Onto(wire, read, if rest.Err? then rest else Ok(([e] + rest.value.0, width + rest.value.1)))
         == Onto(wire + [e], read + width, rest)
  {
    assert rest.Ok? ==> wire + ([e] + rest.value.0) == (wire + [e]) + rest.value.0;
  }

  lemma OntoNothing(rest: Result<(seq<Entry>, nat)>)
    ensures Onto([], 0, rest) == rest
  {
    assert rest.Ok? ==> [] + rest.value.0 == rest.value.0;
  }

  /** The attribute loop: `count` entries, each charged its original TLV cost. */
  method ReadEntries(input: bytes, start: nat, count: nat, limits: Limits)
    returns (r: Result<(seq<Attribute>, nat)>)
    requires start <= |input|
    ensures var spec := ParseEntries(input[start..], count, 0, limits);
      && (r.Ok? <==> spec.Ok?)
      && (r.Ok? ==> r.value == (ShownAll(spec.value.0), spec.value.1))
  {
    hide ParseEntry, ParseEntries, Onto, Shown, ShownAll;
    var attributes: seq<Attribute> := [];
    ghost var wire: seq<Entry> := [];
    ghost var whole := ParseEntries(input[start..], count, 0, limits);
    var logicalBytes: nat := 0;
    var at := start;
    var index := 0;
    OntoNothing(whole);
    NothingShown();
    while index < count
      invariant 0 <= index <= count && start <= at <= |input|
      invariant attributes == ShownAll(wire)
      invariant whole == Onto(wire, at - start, ParseEntries(input[at..], count - index, logicalBytes, limits))
    {
      EntriesNext(wire, at - start, input[at..], count - index, logicalBytes, limits);
      var one := ReadEntry(input, at, limits);
      if one.Err? { return Err(ViolationFault); }
      var (entry, width) := one.value;
      logicalBytes := logicalBytes + 7 + |entry.a.id| + |entry.a.value|;
      if logicalBytes > limits.maxAttributeBytes { return Err(ViolationFault); }
      ghost var left := input[at..];
      at := at + width;
      assert input[at..] == left[width..];
      ShownAllConcat(wire, entry);
      attributes := attributes + [Shown(entry)];
      wire := wire + [entry];
      index := index + 1;
    }
    EntriesNext(wire, at - start, input[at..], 0, logicalBytes, limits);
    r := Ok((attributes, at - start));
  }

  lemma {:induction false} ShownAllConcat(entries: seq<Entry>, e: Entry)
    ensures ShownAll(entries + [e]) == ShownAll(entries) + [Shown(e)]
    decreases |entries|
  {
    if entries == [] {
      assert entries + [e] == [e];
      assert ShownAll([e]) == [Shown(e)] + ShownAll([]);
    } else {
      assert (entries + [e])[1..] == entries[1..] + [e];
      ShownAllConcat(entries[1..], e);
    }
  }

  method ReadSection(input: bytes, start: nat, present: bool, limits: Limits) returns (r: Result<(seq<Attribute>, nat)>)
    requires start <= |input|
    ensures var spec := ParseSection(input[start..], present, limits);
      && (r.Ok? <==> spec.Ok?)
      && (r.Ok? ==> r.value == (ShownAll(spec.value.0), spec.value.1))
  {
    hide ReadVarint, ParseEntries, ShownAll;
    NothingShown();
    if !present { return Ok(([], 0)); }
    var count := ReadAt(input, start, 32);
    if count.Err? || count.value.value == 0 || count.value.value > limits.maxAttributes { return Err(ViolationFault); }
    var at := start + count.value.width;
    assert input[at..] == input[start..][count.value.width..];
    var entries := ReadEntries(input, at, count.value.value, limits);
    if entries.Err? { return Err(ViolationFault); }
    r := Ok((entries.value.0, count.value.width + entries.value.1));
  }

  /** The header fields behind the moving cursor. */
  method ReadFields(input: bytes) returns (r: Result<CompactFields>)
    ensures r == ReadCompactHeader(input)
  {
    hide Varint, ReadVarint, KnownKind;
    if |input| < 4 || input[0] != COMPACT_MAGIC { return Err(ViolationFault); }
    var control := input[1];
    var kind := control % 32;
    if !PostHandshake(kind) { return Err(ViolationFault); }
    var at := 2;
    var streamId := ReadAt(input, at, 64);
    if streamId.Err? { return Err(ViolationFault); }
    at := at + streamId.value.width;
    var sequence := ReadAt(input, at, 64);
    if sequence.Err? || sequence.value.value == 0 { return Err(ViolationFault); }
    at := at + sequence.value.width;
    assert ReadIds(input) == Ok((streamId.value.value, sequence.value.value, at));
    var headerValue := 0;
    if control / 64 % 2 == 1 {
      var value := ReadAt(input, at, 32);
      if value.Err? || value.value.value == 0 { return Err(ViolationFault); }
      headerValue := value.value.value;
      at := at + value.value.width;
    }
    r := Ok(CompactFields(kind, control / 128 == 1, control / 32 % 2 == 1, streamId.value.value, sequence.value.value,
                          headerValue, at));
  }

  /** `decodeCompactFrame`: the cursor moves over header varints, the attribute loop, and the payload. */
  method ReadCompact(input: bytes, limits: Limits) returns (r: Result<Frame>)
    ensures r == DecodeCompact(input, limits)
  {
    hide ReadCompactHeader, ShapeOk, ParseSection, ShownAll;
    if |input| > limits.maxFrameBytes { return Err(ViolationFault); }
    var header := ReadFields(input);
    if header.Err? { return Err(ViolationFault); }
    var h := header.value;
    var section := ReadSection(input, h.width, h.attributes, limits);
    if section.Err? { return Err(ViolationFault); }
    var (attributes, read) := section.value;
    if h.value != 0 && h.kind != DEMAND && !(h.kind == DATA && h.fragmented) { return Err(ViolationFault); }
    var f := Frame(h.kind, h.streamId, h.sequence,
                   if h.fragmented then DATA_FRAGMENTED_FLAG else 0,
                   if h.kind == DEMAND then h.value else 0,
                   if h.fragmented then h.value else 0,
                   attributes, input[h.width + read..]);
    if !ShapeOk(f) { return Err(ViolationFault); }
    r := Ok(f);
  }

  lemma NothingShown()
    ensures ShownAll([]) == []
  {
  }
}
