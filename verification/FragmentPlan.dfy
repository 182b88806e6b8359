/**
 * How one logical item becomes frames: whole when it fits, otherwise a first slice and fragments,
 * with room reserved so that every frame encodes in either codec at any stream id and sequence.
 */
module FragmentPlan {
  import opened Bytes
  import opened Frames
  import Codec
  import Compact
  import Leb128

  /** What the session negotiated for sending. */
  datatype Outbound = Outbound(limits: Limits, compact: bool, fragmentation: bool, maxItemBytes: nat)
  {
    predicate Valid() { limits.Resolved() && maxItemBytes <= MAX_U32 }
  }

  datatype Refusal = ItemTooLarge | AttributesUnfit | AttributesTooLarge | FragmentationMissing | NoPayloadSpace

  datatype Planned = Planned(frames: seq<Body>) | Refused(why: Refusal)

  /** The wire frame a body becomes once it gets a sequence number; the text of terminators is left out. */
  function ToFrame(b: Body, sequence: int): Frame {
    match b
    case Open(id, attributes) => Frame(OPEN, id, sequence, 0, 0, 0, attributes, [])
    case Data(id, attributes, payload) => Frame(DATA, id, sequence, 0, 0, 0, attributes, payload)
    case First(id, total, attributes, payload) =>
      Frame(DATA, id, sequence, DATA_FRAGMENTED_FLAG, 0, total, attributes, payload)
    case Fragment(id, payload) => Frame(FRAGMENT, id, sequence, 0, 0, 0, [], payload)
    case Demand(id, credit) => Frame(DEMAND, id, sequence, 0, credit, 0, [], [])
    case Complete(id) => Frame(COMPLETE, id, sequence, 0, 0, 0, [], [])
    case Cancel(id) => Frame(CANCEL, id, sequence, 0, 0, 0, [], [])
    case Error(id, code) =>
      Frame(ERROR, id, sequence, 0, 0, 0, if code.None? then [] else [Attribute(Compact.ERROR_CODE, code.value, false)], [])
  }

  /** Attribute bytes to reserve: the larger of the two encodings when compact frames may be used. */
  function ReservedBytes(attributes: seq<Attribute>, compact: bool): nat {
    var legacy := |Codec.AttributeArea(attributes)|;
    if compact then Max(legacy, |Compact.Section(attributes)|) else legacy
  }

  /** Continuation fragments of at most `capacity` bytes each. */
  function Slices(id: StreamId, data: bytes, capacity: nat): seq<Body>
    requires capacity > 0
    decreases |data|
  {
    if data == [] then []
    else
      var take := Min(|data|, capacity);
      [Fragment(id, data[..take])] + Slices(id, data[take..], capacity)
  }

  function Plan(id: StreamId, item: Item, w: Outbound): Planned {
    if |item.data| > w.maxItemBytes then Refused(ItemTooLarge)
    else if !Codec.AttributesFit(item.attributes, w.limits) then Refused(AttributesUnfit)
    else
      var first := w.limits.maxFrameBytes - FRAME_HEADER_BYTES - ReservedBytes(item.attributes, w.compact);
      var capacity := w.limits.maxFrameBytes - FRAME_HEADER_BYTES;
      if first < 0 then Refused(AttributesTooLarge)
      else if |item.data| <= first then Planned([Data(id, item.attributes, item.data)])
      else if !w.fragmentation then Refused(FragmentationMissing)
      else if capacity <= 0 then Refused(NoPayloadSpace)
      else Planned([First(id, |item.data|, item.attributes, item.data[..first])]
                   + Slices(id, item.data[first..], capacity))
  }

  // ---------------------------------------------------------------- the slices are the item

  lemma {:induction false} SlicesAreFragments(id: StreamId, data: bytes, capacity: nat)
    requires capacity > 0
    ensures var s := Slices(id, data, capacity);
      && AreFragments(s, id)
      && (forall i :: 0 <= i < |s| ==> |s[i].payload| <= capacity)
      && (data != [] ==> s != [])
    decreases |data|
  {
    if data != [] {
      SlicesAreFragments(id, data[Min(|data|, capacity)..], capacity);
    }
  }

  lemma {:induction false} SlicesConcatenate(id: StreamId, data: bytes, capacity: nat)
    requires capacity > 0
    requires AreFragments(Slices(id, data, capacity), id)
    ensures Payloads(Slices(id, data, capacity)) == data
    decreases |data|
  {
    if data != [] {
      var take := Min(|data|, capacity);
      SlicesAreFragments(id, data[take..], capacity);
      SlicesConcatenate(id, data[take..], capacity);
      assert Slices(id, data, capacity)[1..] == Slices(id, data[take..], capacity);
      assert data == data[..take] + data[take..];
    }
  }

  /** A plan carries exactly its item: slices concatenate to the payload, attributes ride on the first frame. */
  lemma PlanCarries(id: StreamId, item: Item, w: Outbound)
    requires Plan(id, item, w).Planned?
    ensures Carries(Plan(id, item, w).frames, id, item)
    ensures |item.data| <= w.maxItemBytes
  {
    var frames := Plan(id, item, w).frames;
    if |frames| > 1 || frames[0].First? {
      var first := w.limits.maxFrameBytes - FRAME_HEADER_BYTES - ReservedBytes(item.attributes, w.compact);
      var capacity := w.limits.maxFrameBytes - FRAME_HEADER_BYTES;
      var rest := item.data[first..];
      SlicesAreFragments(id, rest, capacity);
      SlicesConcatenate(id, rest, capacity);
      assert frames[1..] == Slices(id, rest, capacity);
      assert item.data == item.data[..first] + rest;
    }
  }

  /** Every planned frame is one the decoder lets through: a first slice is shorter than its item. */
  lemma PlanLegit(id: StreamId, item: Item, w: Outbound)
    requires Plan(id, item, w).Planned?
    ensures forall i :: 0 <= i < |Plan(id, item, w).frames| ==>
      var b := Plan(id, item, w).frames[i]; b.IsData() && (b.First? ==> |b.payload| < b.total)
  {
    PlanCarries(id, item, w);
    var frames := Plan(id, item, w).frames;
    forall i | 0 <= i < |frames|
      ensures frames[i].IsData() && (frames[i].First? ==> |frames[i].payload| < frames[i].total)
    {
      if i > 0 {
        assert frames[i] == frames[1..][i - 1];
      }
    }
  }

  // ---------------------------------------------------------------- every frame encodes

  /** A compact header takes at most 27 bytes, against the 36 that are reserved. */
  lemma CompactHeaderBound(f: Frame)
    requires Compact.PostHandshake(f.kind) && Codec.Numbered(f) && ShapeOk(f)
    ensures |Compact.CompactHeader(f)| <= 27 < FRAME_HEADER_BYTES
  {
    Leb128.WidthBounds(f.streamId);
    Leb128.WidthBounds(f.sequence);
    Leb128.WidthBounds(HeaderValue(f));
  }

  predicate Encodes(f: Frame, w: Outbound) {
    && Codec.EncodeFrame(f, w.limits).Ok?
    && (w.compact ==> Compact.EncodeCompact(f, w.limits).Ok?)
  }

  lemma EncodesWhenReserved(f: Frame, w: Outbound)
    requires w.Valid()
    requires Compact.PostHandshake(f.kind) && Codec.Numbered(f) && ShapeOk(f)
    requires Codec.AttributesFit(f.attributes, w.limits)
    requires FRAME_HEADER_BYTES + ReservedBytes(f.attributes, w.compact) + |f.payload| <= w.limits.maxFrameBytes
    ensures Encodes(f, w)
  {
    hide ShapeOk, Codec.AttributesFit, Codec.AttributeArea, Compact.Section, Compact.CompactHeader, Codec.Header;
    CompactHeaderBound(f);
  }

  /**
   * All-or-nothing: whatever stream id and sequence numbers its frames get, a planned item encodes
   * completely, in the original form and in the compact form when that was negotiated.
   */
  lemma PlanEncodes(id: StreamId, item: Item, w: Outbound, i: nat, sequence: nat)
    requires w.Valid() && 0 < id <= MAX_U64 && 0 < sequence <= MAX_U64
    requires Plan(id, item, w).Planned? && i < |Plan(id, item, w).frames|
    ensures Encodes(ToFrame(Plan(id, item, w).frames[i], sequence), w)
  {
    hide Codec.AttributeFits, Compact.Section, Codec.AttributeArea;
    var frames := Plan(id, item, w).frames;
    var f := ToFrame(frames[i], sequence);
    var first := w.limits.maxFrameBytes - FRAME_HEADER_BYTES - ReservedBytes(item.attributes, w.compact);
    var capacity := w.limits.maxFrameBytes - FRAME_HEADER_BYTES;
    if i > 0 {
      SlicesAreFragments(id, item.data[first..], capacity);
      assert frames[i] == frames[1..][i - 1];
      NoAttributes();
    }
    EncodesWhenReserved(f, w);
  }

  lemma NoAttributes()
    ensures ReservedBytes([], true) == ReservedBytes([], false) == 0
  {
  }

  // ---------------------------------------------------------------- which items are planned, and how

  /**
   * A DATA frame with these attributes and this payload can be written: it encodes in the original form, and
   * where compact frames may be used there is room for their attribute section beside a full header.
   */
  predicate Writable(id: StreamId, attributes: seq<Attribute>, payload: bytes, w: Outbound) {
    && Codec.EncodeFrame(Frame(DATA, id, 1, 0, 0, 0, attributes, payload), w.limits).Ok?
    && (w.compact ==> FRAME_HEADER_BYTES + |Compact.Section(attributes)| + |payload| <= w.limits.maxFrameBytes)
  }

  lemma WritableIff(id: StreamId, attributes: seq<Attribute>, payload: bytes, w: Outbound)
    requires 0 < id <= MAX_U64
    ensures Writable(id, attributes, payload, w) <==>
      && Codec.AttributesFit(attributes, w.limits)
      && FRAME_HEADER_BYTES + ReservedBytes(attributes, w.compact) + |payload| <= w.limits.maxFrameBytes
  {
    hide Codec.AttributesFit, Codec.AttributeArea, Compact.Section, Codec.Header;
  }

  /** A FRAGMENT frame can carry at least one byte. */
  predicate FragmentsFit(id: StreamId, w: Outbound) {
    Codec.EncodeFrame(Frame(FRAGMENT, id, 1, 0, 0, 0, [], [0]), w.limits).Ok?
  }

  lemma FragmentsFitIff(id: StreamId, w: Outbound)
    requires 0 < id <= MAX_U64
    ensures FragmentsFit(id, w) <==> w.limits.maxFrameBytes > FRAME_HEADER_BYTES
  {
    hide Codec.Header;
  }

  /**
   * An item is planned if and only if the peer takes items of its size, its attributes can be written on an
   * empty DATA frame, and either it can be written whole or fragments may be sent and can carry something. It
   * goes whole whenever it can, and in fragments only where they were negotiated.
   */
  lemma PlannedIff(id: StreamId, item: Item, w: Outbound)
    requires 0 < id <= MAX_U64
    ensures var whole := Writable(id, item.attributes, item.data, w);
      && (Plan(id, item, w).Planned? <==>
            && |item.data| <= w.maxItemBytes && Writable(id, item.attributes, [], w)
            && (whole || (w.fragmentation && FragmentsFit(id, w))))
      && (Plan(id, item, w).Planned? ==>
            && (whole <==> Plan(id, item, w).frames == [Data(id, item.attributes, item.data)])
            && (|Plan(id, item, w).frames| > 1 ==> !whole && w.fragmentation)
            && (!whole ==> |Plan(id, item, w).frames| > 1))
  {
    hide Codec.AttributesFit, ReservedBytes, Writable, FragmentsFit;
    WritableIff(id, item.attributes, [], w);
    WritableIff(id, item.attributes, item.data, w);
    FragmentsFitIff(id, w);
    if Plan(id, item, w).Planned? && Plan(id, item, w).frames[0].First? {
      var first := w.limits.maxFrameBytes - FRAME_HEADER_BYTES - ReservedBytes(item.attributes, w.compact);
      SlicesAreFragments(id, item.data[first..], w.limits.maxFrameBytes - FRAME_HEADER_BYTES);
    }
  }

  /** Why an item is refused, in the order the reasons are looked for. */
  lemma RefusedBecause(id: StreamId, item: Item, w: Outbound)
    requires 0 < id <= MAX_U64 && Plan(id, item, w).Refused?
    ensures match Plan(id, item, w).why
      case ItemTooLarge => |item.data| > w.maxItemBytes
      case AttributesUnfit => |item.data| <= w.maxItemBytes && !Codec.AttributesFit(item.attributes, w.limits)
      case AttributesTooLarge => Codec.AttributesFit(item.attributes, w.limits) && !Writable(id, item.attributes, [], w)
      case FragmentationMissing =>
        Writable(id, item.attributes, [], w) && !Writable(id, item.attributes, item.data, w) && !w.fragmentation
      case NoPayloadSpace =>
        !Writable(id, item.attributes, item.data, w) && w.fragmentation && !FragmentsFit(id, w)
  {
    hide Codec.AttributesFit, ReservedBytes, Writable, FragmentsFit;
    WritableIff(id, item.attributes, [], w);
    WritableIff(id, item.attributes, item.data, w);
    FragmentsFitIff(id, w);
  }

  /** No frame is spent needlessly: every slice but the last is as long as its frame allows. */
  lemma PlanFills(id: StreamId, item: Item, w: Outbound, i: nat)
    requires 0 < id <= MAX_U64 && Plan(id, item, w).Planned? && i < |Plan(id, item, w).frames| - 1
    ensures var frames := Plan(id, item, w).frames;
      if i == 0 then
        frames[0].First? && forall more: byte :: !Writable(id, item.attributes, frames[0].payload + [more], w)
      else
        frames[i].Fragment? && FRAME_HEADER_BYTES + |frames[i].payload| == w.limits.maxFrameBytes
  {
    hide Codec.AttributesFit, ReservedBytes, Writable, Slices;
    var frames := Plan(id, item, w).frames;
    var first := w.limits.maxFrameBytes - FRAME_HEADER_BYTES - ReservedBytes(item.attributes, w.compact);
    var capacity := w.limits.maxFrameBytes - FRAME_HEADER_BYTES;
    if i == 0 {
      forall more: byte
        ensures !Writable(id, item.attributes, frames[0].payload + [more], w)
      {
        WritableIff(id, item.attributes, frames[0].payload + [more], w);
      }
    } else {
      SlicesAreFull(id, item.data[first..], capacity, i - 1);
    }
  }

  lemma {:induction false} SlicesAreFull(id: StreamId, data: bytes, capacity: nat, i: nat)
    requires capacity > 0 && i < |Slices(id, data, capacity)| - 1
    ensures Slices(id, data, capacity)[i].Fragment? && |Slices(id, data, capacity)[i].payload| == capacity
    decreases |data|
  {
    var rest := data[Min(|data|, capacity)..];
    assert Slices(id, data, capacity)[1..] == Slices(id, rest, capacity);
    if i > 0 {
      SlicesAreFull(id, rest, capacity, i - 1);
    }
  }

  // ---------------------------------------------------------------- the loop

  function Times(a: nat, b: nat): nat { a * b }

  lemma CeilBounds(n: nat, d: nat)
    requires d > 0
    ensures n <= Times((n + d - 1) / d, d) < n + d
  {
    var c := (n + d - 1) / d;
    assert n + d - 1 == d * c + (n + d - 1) % d;
  }

  lemma {:induction false} TimesStep(j: nat, c: nat, d: nat)
    requires j < c
    ensures Times(0, d) == 0
    ensures Times(j + 1, d) == Times(j, d) + d <= Times(c, d)
    decreases c
  {
    if j + 1 < c {
      TimesStep(j, c - 1, d);
    }
    assert Times(c, d) == Times(c - 1, d) + d;
  }

  lemma SliceStep(id: StreamId, data: bytes, offset: nat, capacity: nat)
    requires capacity > 0 && offset < |data|
    ensures Slices(id, data[offset..], capacity)
         == [Fragment(id, data[offset..Min(|data|, offset + capacity)])]
            + Slices(id, data[Min(|data|, offset + capacity)..], capacity)
  {
    var take := Min(|data| - offset, capacity);
    assert data[offset..][..take] == data[offset..Min(|data|, offset + capacity)];
    assert data[offset..][take..] == data[Min(|data|, offset + capacity)..];
  }

  /** `writeDataItem`: the refusals in order, then each frame computed from its index. */
  method PlanFrames(id: StreamId, item: Item, w: Outbound) returns (r: Planned)
    ensures r == Plan(id, item, w)
  {
    hide Codec.AttributesFit, Compact.Section, Codec.AttributeArea;
    var data := item.data;
    if |data| > w.maxItemBytes { return Refused(ItemTooLarge); }
    var legacy := Codec.MeasureAttributes(item.attributes, w.limits);
    if legacy.Err? { return Refused(AttributesUnfit); }
    var attributeBytes := legacy.value;
    if w.compact {
      var compact := Compact.PrepareAttributes(item.attributes, w.limits);
      attributeBytes := Max(legacy.value, compact.value);
    }
    var first := w.limits.maxFrameBytes - FRAME_HEADER_BYTES - attributeBytes;
    if first < 0 { return Refused(AttributesTooLarge); }
    if |data| <= first { return Planned([Data(id, item.attributes, data)]); }
    if !w.fragmentation { return Refused(FragmentationMissing); }
    var capacity := w.limits.maxFrameBytes - FRAME_HEADER_BYTES;
    if capacity <= 0 { return Refused(NoPayloadSpace); }
    var fragments := SliceFrames(id, data, first, capacity);
    r := Planned([First(id, |data|, item.attributes, data[..first])] + fragments);
  }

  /** The fragments after the first `first` payload bytes, each sliced out by its index. */
  method SliceFrames(id: StreamId, data: bytes, first: nat, capacity: nat) returns (frames: seq<Body>)
    requires first < |data| && capacity > 0
    ensures frames == Slices(id, data[first..], capacity)
  {
    hide Times, Slices;
    var remaining := |data| - first;
    var fragmentCount := (remaining + capacity - 1) / capacity;
    CeilBounds(remaining, capacity);
    frames := [];
    var offset := first;
    var index := 0;
    TimesStep(0, 1, capacity);
    while index < fragmentCount
      invariant 0 <= index <= fragmentCount && offset == first + Times(index, capacity)
      invariant frames + Slices(id, data[Min(|data|, offset)..], capacity) == Slices(id, data[first..], capacity)
    {
      TimesStep(index, fragmentCount, capacity);
      SliceStep(id, data, offset, capacity);
      ghost var before := frames;
      var end := Min(|data|, offset + capacity);
      frames := frames + [Fragment(id, data[offset..end])];
      assert before + ([frames[|before|]] + Slices(id, data[end..], capacity)) == frames + Slices(id, data[end..], capacity);
      index := index + 1;
      offset := first + Times(index, capacity);
    }
    NoSlices(id, capacity);
    assert data[|data|..] == [];
    assert frames + [] == frames;
  }

  lemma NoSlices(id: StreamId, capacity: nat)
    requires capacity > 0
    ensures Slices(id, [], capacity) == []
  {
  }
}
