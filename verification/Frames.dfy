/** Attributes, limits, and the stream-scoped frame bodies that two ready sessions exchange. */
module Frames {
  import opened Bytes

  datatype Attribute = Attribute(id: bytes, value: bytes, required: bool)

  /** The wire-level limits both codecs apply. */
  datatype Limits = Limits(
    maxFrameBytes: nat,
    maxAttributeBytes: nat,
    maxAttributes: nat,
    maxAttributeIdBytes: nat,
    maxAttributeValueBytes: nat)
  {
    /** What `resolveProtocolLimits` guarantees of these five limits. */
    predicate Resolved() {
      && FRAME_HEADER_BYTES <= maxFrameBytes <= MAX_U32
      && 0 < maxAttributeBytes < maxFrameBytes
      && 0 < maxAttributes <= MAX_U32
      && 0 < maxAttributeIdBytes <= MAX_U16
      && 0 < maxAttributeValueBytes <= maxAttributeBytes
    }

    predicate Within(other: Limits) {
      && maxFrameBytes <= other.maxFrameBytes
      && maxAttributeBytes <= other.maxAttributeBytes
      && maxAttributes <= other.maxAttributes
      && maxAttributeIdBytes <= other.maxAttributeIdBytes
      && maxAttributeValueBytes <= other.maxAttributeValueBytes
    }
  }

  const DEFAULT_LIMITS := Limits(16 * 1024 * 1024, 1024 * 1024, 256, 1024, 1024 * 1024)

  const PROTOCOL_MAGIC := 0x50525031
  const PROTOCOL_MAJOR := 1
  const PROTOCOL_MINOR := 0
  const FRAME_HEADER_BYTES := 36
  const DATA_FRAGMENTED_FLAG := 1

  const HELLO := 0x01
  const WELCOME := 0x02
  const CLOSE := 0x03
  const PING := 0x04
  const PONG := 0x05
  const OPEN := 0x10
  const DATA := 0x11
  const DEMAND := 0x12
  const COMPLETE := 0x13
  const CANCEL := 0x14
  const ERROR := 0x15
  const SIGNAL := 0x16
  const FRAGMENT := 0x17

  predicate KnownKind(kind: int) {
    kind in {HELLO, WELCOME, CLOSE, PING, PONG, OPEN, DATA, DEMAND, COMPLETE, CANCEL, ERROR, SIGNAL, FRAGMENT}
  }

  /** A frame with its optional fields at their defaults (0 and empty) when absent. */
  datatype Frame = Frame(
    kind: int,
    streamId: int,
    sequence: int,
    flags: int,
    credit: int,
    fragmentLength: int,
    attributes: seq<Attribute>,
    payload: bytes)

  /** `validateFrame`: the shape each kind must have. A kind outside the switch is not checked. */
  predicate ShapeOk(f: Frame) {
    && 0 <= f.flags <= 0xff
    && 0 <= f.credit <= MAX_U32
    && 0 <= f.fragmentLength <= MAX_U32
    && !(f.credit != 0 && f.fragmentLength != 0)
    && var bare := f.flags == 0 && f.credit == 0 && f.fragmentLength == 0;
       var noAttributes := f.attributes == [];
       var noPayload := f.payload == [];
       if f.kind == HELLO || f.kind == WELCOME then f.streamId == 0 && bare && noPayload
       else if f.kind == CLOSE then f.streamId == 0 && bare && noAttributes
       else if f.kind == PING || f.kind == PONG then f.streamId == 0 && bare && noAttributes && |f.payload| == 8
       else if f.kind == OPEN then f.streamId != 0 && bare && noPayload
       else if f.kind == DATA then
         && f.streamId != 0 && f.credit == 0 && f.flags <= DATA_FRAGMENTED_FLAG
         && (f.flags == 0 ==> f.fragmentLength == 0)
         && (f.flags == DATA_FRAGMENTED_FLAG ==> 0 < f.fragmentLength && |f.payload| < f.fragmentLength)
       else if f.kind == FRAGMENT then f.streamId != 0 && bare && noAttributes && !noPayload
       else if f.kind == DEMAND then
         f.streamId != 0 && f.flags == 0 && f.credit > 0 && f.fragmentLength == 0 && noAttributes && noPayload
       else if f.kind == COMPLETE then f.streamId != 0 && bare && noAttributes && noPayload
       else if f.kind == CANCEL then f.streamId != 0 && bare && noAttributes
       else if f.kind == ERROR then bare
       else if f.kind == SIGNAL then f.streamId == 0 && bare
       else true
  }

  /** The frame-specific header value both codecs carry. */
  function HeaderValue(f: Frame): int {
    if f.kind == DATA && f.flags == DATA_FRAGMENTED_FLAG then f.fragmentLength else f.credit
  }

  /** One logical DATA item: what `send` takes and what the receiver's queue yields. */
  datatype Item = Item(data: bytes, attributes: seq<Attribute>)

  type StreamId = nat

  /** A frame without its sequence number, for the seven stream-scoped kinds. */
  datatype Body =
    | Open(id: StreamId, attributes: seq<Attribute>)
    | Data(id: StreamId, attributes: seq<Attribute>, payload: bytes)
    | First(id: StreamId, total: nat, attributes: seq<Attribute>, payload: bytes)
    | Fragment(id: StreamId, payload: bytes)
    | Demand(id: StreamId, credit: nat)
    | Complete(id: StreamId)
    | Cancel(id: StreamId)
    | Error(id: StreamId, code: Option<bytes>)
  {
    /** DATA and FRAGMENT frames: the ones a cancelled sender no longer writes. */
    predicate IsData() { Data? || First? || Fragment? }

    predicate IsEnd() { Cancel? || Error? }
  }

  /** The payload bytes of the frames of one item, in order. */
  function Payloads(frames: seq<Body>): (r: bytes)
    requires forall i :: 0 <= i < |frames| ==> frames[i].IsData()
    decreases |frames|
  {
    if frames == [] then [] else assert frames[0].IsData(); frames[0].payload + Payloads(frames[1..])
  }

  /** The continuation part of a fragmented item: non-empty FRAGMENT frames for one stream. */
  predicate AreFragments(frames: seq<Body>, id: StreamId) {
    forall i :: 0 <= i < |frames| ==> frames[i].Fragment? && frames[i].id == id && frames[i].payload != []
  }

  /** The frames are one item on one stream, whole or as a first slice and its fragments. */
  predicate Carries(frames: seq<Body>, id: StreamId, item: Item) {
    || frames == [Data(id, item.attributes, item.data)]
    || (&& |frames| > 1
        && frames[0].First?
        && frames[0].id == id
        && frames[0].total == |item.data|
        && frames[0].attributes == item.attributes
        && AreFragments(frames[1..], id)
        && item.data == frames[0].payload + Payloads(frames[1..]))
  }
}
