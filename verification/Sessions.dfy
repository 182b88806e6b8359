/**
 * One ready PRP/1 session as a value, and each of its operations as a function on it.
 *
 * `outbox` is what waits in the session's `writeTail`: frames already decided on, in order, that get
 * their sequence number when they are written. A cancelled stream's unwritten DATA and FRAGMENT
 * frames leave it at once, since the write loop drops them. `sent` and `delivered` record, per
 * stream, the items accepted for sending and the items pushed to the application's queue;
 * `completed` and `finished` the streams whose end was sent, and whose end the application saw.
 */
module Sessions {
  import opened Bytes
  import opened Frames
  import opened StreamLink
  import FragmentPlan
  import Utf8

  const MAX_CREDIT := 0xffff_ffff

  datatype Stream = Stream(
    local: bool,
    retained: nat,
    inCredit: nat,
    outCredit: nat,
    inClosed: bool,
    outClosed: bool,
    partial: Reassembly)

  /**
   * `creditCap` is where a credit counter saturates: `Some(MAX_CREDIT)` in every session of the source. It
   * is a parameter so that a run can be compared with one in which nothing saturates.
   */
  datatype Config = Config(
    initiator: bool,
    maxInboundItemBytes: nat,
    maxInFlightReassemblyBytes: nat,
    maxInboundStreams: nat,
    maxRetainedStreamAttributeBytes: nat,
    maxRetiredStreams: nat,
    remoteMaxInboundStreams: nat,
    creditCap: Option<nat>,
    outbound: FragmentPlan.Outbound)

  datatype Peer = Peer(
    cfg: Config,
    streams: map<StreamId, Stream>,
    retired: map<StreamId, bool>,
    retiredOrder: seq<StreamId>,
    nextStreamId: nat,
    highestRemote: nat,
    outgoingSequence: nat,
    expectedSequence: nat,
    inFlight: int,
    localActive: int,
    remoteActive: int,
    retainedBytes: int,
    outbox: seq<Body>,
    sent: map<StreamId, seq<Item>>,
    delivered: map<StreamId, seq<Item>>,
    completed: set<StreamId>,
    finished: set<StreamId>)

  datatype Packet = Packet(sequence: nat, body: Body)

  /** The branches of the receive path that raise ProtocolViolationError. */
  datatype Violation =
    | UnexpectedSequence
    | NonContiguousOpen
    | UnknownStream
    | DataOnClosed
    | NewDataDuringItem
    | ExceededDemand
    | ItemTooLarge
    | FragmentOnClosed
    | FragmentWithoutItem
    | FragmentOverflow
    | ZeroDemand
    | CompleteDuringItem
    | UnnamedError

  datatype Outcome = Handled(peer: Peer) | Violated(why: Violation)

  /** What the application decides about a remote OPEN. */
  datatype Verdict = Accepts | AcceptorThrows(code: Option<bytes>) | NobodyAccepts(queueFull: bool)

  /** What the receive path does not decide itself: the application's verdict, and memory. */
  datatype Environment = Environment(verdict: Verdict, allocates: bool)

  // ---------------------------------------------------------------- helpers

  function Log(m: map<StreamId, seq<Item>>, s: StreamId): seq<Item> {
    if s in m then m[s] else []
  }

  predicate Below(n: nat, cap: Option<nat>) { cap.Some? ==> n <= cap.value }

  /** `addCredit`: saturates at the cap, 2^32 - 1. */
  function AddCredit(cap: Option<nat>, current: nat, amount: nat): nat {
    if cap.None? then current + amount else Min(cap.value, current + amount)
  }

  /** The code of an ERROR as `remoteDiagnostic` reads it: absent, or text that is not empty once decoded. */
  predicate Named(code: Option<bytes>) { code.None? || (Utf8.Valid(code.value) && Utf8.StripBom(code.value) != []) }

  /** "RESOURCE_EXHAUSTED" */
  function Exhausted(): Option<bytes> {
    Some([82, 69, 83, 79, 85, 82, 67, 69, 95, 69, 88, 72, 65, 85, 83, 84, 69, 68])
  }

  lemma ExhaustedNamed()
    ensures Named(Exhausted())
  {
    Utf8.AsciiIsValid(Exhausted().value);
    assert Exhausted().value[0] != Utf8.BOM[0];
  }

  /** Math.max(0, n), as every counter is decremented. */
  function Floor(n: int): int { Max(0, n) }

  function AttributeMemory(attributes: seq<Attribute>): nat {
    if attributes == [] then 0
    else |attributes[0].id| + |attributes[0].value| + 7 + AttributeMemory(attributes[1..])
  }

  function NewStream(attributes: seq<Attribute>, local: bool): Stream {
    Stream(local, AttributeMemory(attributes), 0, 0, false, false, NoItem)
  }

  function LocalParity(cfg: Config): nat { if cfg.initiator then 1 else 0 }

  function FirstRemote(cfg: Config): nat { if cfg.initiator then 2 else 1 }

  function ExpectedRemote(p: Peer): nat {
    if p.highestRemote == 0 then FirstRemote(p.cfg) else p.highestRemote + 2
  }

  predicate IsPast(p: Peer, s: StreamId) {
    && s > 0
    && if s % 2 == LocalParity(p.cfg) then s < p.nextStreamId else s <= p.highestRemote
  }

  /** What remains of the frames in `writeTail` when stream `s` is cancelled. */
  function Purge(q: seq<Body>, s: StreamId): seq<Body> {
    if q == [] then []
    else if q[0].id == s && q[0].IsData() then Purge(q[1..], s)
    else [q[0]] + Purge(q[1..], s)
  }

  /** A send on `s` has not finished: the stream's own `writeTail` holds back the next one. */
  predicate Busy(q: seq<Body>, s: StreamId) {
    exists i :: 0 <= i < |q| && q[i].id == s && q[i].IsData()
  }

  // ---------------------------------------------------------------- ending streams

  function Forget(p: Peer, s: StreamId): Peer {
    if s !in p.streams then p
    else
      var t := p.streams[s];
      p.(streams := p.streams - {s},
         localActive := if t.local then Floor(p.localActive - 1) else p.localActive,
         remoteActive := if t.local then p.remoteActive else Floor(p.remoteActive - 1),
         retainedBytes := Floor(p.retainedBytes - t.retained))
  }

  function Retire(p: Peer, s: StreamId, lenient: bool): Peer {
    if s in p.retired then p
    else
      var order := p.retiredOrder + [s];
      var retired := p.retired[s := lenient];
      if |order| > p.cfg.maxRetiredStreams then
        p.(retired := retired - {order[0]}, retiredOrder := order[1..])
      else
        p.(retired := retired, retiredOrder := order)
  }

  function ClearReassembly(p: Peer, s: StreamId): Peer
    requires s in p.streams
  {
    var t := p.streams[s];
    if t.partial.NoItem? then p
    else p.(inFlight := Floor(p.inFlight - t.partial.total), streams := p.streams[s := t.(partial := NoItem)])
  }

  function CancelStream(p: Peer, s: StreamId, lenient: bool): Peer
    requires s in p.streams
  {
    var q := Forget(ClearReassembly(p, s), s);
    Retire(q.(outbox := Purge(q.outbox, s)), s, lenient)
  }

  function ReleaseStream(p: Peer, s: StreamId): Peer
    requires s in p.streams
  {
    if p.streams[s].inClosed && p.streams[s].outClosed then Retire(Forget(p, s), s, false) else p
  }

  // ---------------------------------------------------------------- application calls

  /** Why `openNext` may refuse before it changes anything. */
  predicate MayOpen(p: Peer, attributes: seq<Attribute>) {
    && p.nextStreamId <= MAX_U64
    && p.localActive < p.cfg.remoteMaxInboundStreams
    && p.retainedBytes + AttributeMemory(attributes) <= p.cfg.maxRetainedStreamAttributeBytes
  }

  /** `openNext`; when the OPEN frame cannot be written the insertion is undone. */
  function OpenNext(p: Peer, attributes: seq<Attribute>, written: bool): Peer {
    if !MayOpen(p, attributes) || !written then p
    else
      var s := p.nextStreamId;
      p.(streams := p.streams[s := NewStream(attributes, true)],
         localActive := p.localActive + 1,
         retainedBytes := p.retainedBytes + AttributeMemory(attributes),
         nextStreamId := s + 2,
         outbox := p.outbox + [Open(s, attributes)])
  }

  function Request(p: Peer, s: StreamId, n: int): Peer {
    if !(1 <= n <= MAX_CREDIT) || s !in p.streams || p.streams[s].inClosed then p
    else
      var t := p.streams[s];
      p.(streams := p.streams[s := t.(inCredit := AddCredit(p.cfg.creditCap, t.inCredit, n))],
         outbox := p.outbox + [Demand(s, n)])
  }

  predicate MaySend(p: Peer, s: StreamId) {
    && s in p.streams
    && !p.streams[s].outClosed
    && p.streams[s].outCredit > 0
    && !Busy(p.outbox, s)
  }

  /** `send`: takes one credit and queues the item's frames; a refused plan gives the credit back. */
  function Send(p: Peer, s: StreamId, item: Item): Peer {
    if !MaySend(p, s) then p
    else
      var plan := FragmentPlan.Plan(s, item, p.cfg.outbound);
      if plan.Refused? then p
      else
        var t := p.streams[s];
        p.(streams := p.streams[s := t.(outCredit := t.outCredit - 1)],
           outbox := p.outbox + plan.frames,
           sent := p.sent[s := Log(p.sent, s) + [item]])
  }

  function CompleteOut(p: Peer, s: StreamId): Peer {
    if s !in p.streams || p.streams[s].outClosed || Busy(p.outbox, s) then p
    else
      var t := p.streams[s];
      ReleaseStream(p.(streams := p.streams[s := t.(outClosed := true)],
                       outbox := p.outbox + [Complete(s)],
                       completed := p.completed + {s}), s)
  }

  /** `cancel` and `fail`: the stream ends here at once, and a CANCEL or ERROR frame tells the peer. */
  function Terminate(p: Peer, s: StreamId, last: Body): Peer {
    if s !in p.streams then p
    else
      var q := CancelStream(p, s, true);
      q.(outbox := q.outbox + [last])
  }

  /** `writeFrameNow` on the next queued frame. */
  function Flush(p: Peer): Option<(Peer, Packet)> {
    if p.outbox == [] || p.outgoingSequence > MAX_U64 then None
    else Some((p.(outbox := p.outbox[1..], outgoingSequence := p.outgoingSequence + 1),
               Packet(p.outgoingSequence, p.outbox[0])))
  }

  // ---------------------------------------------------------------- frames from the peer

  function Receive(p: Peer, packet: Packet, env: Environment): Outcome {
    if packet.sequence != p.expectedSequence then Violated(UnexpectedSequence)
    else HandleFrame(p.(expectedSequence := p.expectedSequence + 1), packet.body, env)
  }

  function HandleFrame(p: Peer, b: Body, env: Environment): Outcome {
    if b.Open? then HandleOpen(p, b.id, b.attributes, env)
    else if b.id !in p.streams then HandleLate(p, b)
    else
      var t := p.streams[b.id];
      match b
      case Data(_, _, _) => HandleData(p, b, env)
      case First(_, _, _, _) => HandleData(p, b, env)
      case Fragment(_, _) => HandleFragment(p, b)
      case Demand(s, n) =>
        if n == 0 then Violated(ZeroDemand)
        else Handled(p.(streams := p.streams[s := t.(outCredit := AddCredit(p.cfg.creditCap, t.outCredit, n))]))
      case Complete(s) =>
        if t.partial.Partial? then Violated(CompleteDuringItem)
        else Handled(ReleaseStream(p.(streams := p.streams[s := t.(inClosed := true)],
                                      finished := p.finished + {s}), s))
      case Cancel(s) => Handled(CancelStream(p, s, false))
      case Error(s, code) => if !Named(code) then Violated(UnnamedError) else Handled(CancelStream(p, s, false))
  }

  /** Frames for a stream that is not in the map. */
  function HandleLate(p: Peer, b: Body): Outcome {
    var past := IsPast(p, b.id);
    if past && !b.IsData() then Handled(p)
    else if b.IsData() && (if b.id in p.retired then p.retired[b.id] else past) then Handled(p)
    else Violated(UnknownStream)
  }

  function Push(p: Peer, s: StreamId, item: Item): Peer {
    p.(delivered := p.delivered[s := Log(p.delivered, s) + [item]])
  }

  function HandleData(p: Peer, b: Body, env: Environment): Outcome
    requires (b.Data? || b.First?) && b.id in p.streams
  {
    var s := b.id;
    var t := p.streams[s];
    if t.inClosed then Violated(DataOnClosed)
    else if t.partial.Partial? then Violated(NewDataDuringItem)
    else if t.inCredit == 0 then Violated(ExceededDemand)
    else
      var spent := t.(inCredit := t.inCredit - 1);
      var q := p.(streams := p.streams[s := spent]);
      if b.Data? then
        if |b.payload| > p.cfg.maxInboundItemBytes then Violated(ItemTooLarge)
        else Handled(Push(q, s, Item(b.payload, b.attributes)))
      else if b.total > p.cfg.maxInboundItemBytes then Violated(ItemTooLarge)
      else if p.inFlight + b.total > p.cfg.maxInFlightReassemblyBytes || !env.allocates then
        Handled(Terminate(q, s, Error(s, Exhausted())))
      else
        Handled(q.(streams := q.streams[s := spent.(partial := Partial(b.payload, b.total, b.attributes))],
                   inFlight := p.inFlight + b.total))
  }

  function HandleFragment(p: Peer, b: Body): Outcome
    requires b.Fragment? && b.id in p.streams
  {
    var s := b.id;
    var t := p.streams[s];
    if t.inClosed then Violated(FragmentOnClosed)
    else if t.partial.NoItem? then Violated(FragmentWithoutItem)
    else if |t.partial.received| + |b.payload| > t.partial.total then Violated(FragmentOverflow)
    else
      var received := t.partial.received + b.payload;
      if |received| < t.partial.total then
        Handled(p.(streams := p.streams[s := t.(partial := t.partial.(received := received))]))
      else
        Handled(Push(ClearReassembly(p, s), s, Item(received, t.partial.attributes)))
  }

  function RejectOpen(p: Peer, s: StreamId, lenient: bool, code: Option<bytes>): Peer {
    var q := Retire(p, s, lenient);
    q.(outbox := q.outbox + [Error(s, code)])
  }

  function HandleOpen(p: Peer, s: StreamId, attributes: seq<Attribute>, env: Environment): Outcome {
    if s != ExpectedRemote(p) then Violated(NonContiguousOpen)
    else
      var q := p.(highestRemote := s);
      var memory := AttributeMemory(attributes);
      if p.remoteActive >= p.cfg.maxInboundStreams then Handled(RejectOpen(q, s, false, Exhausted()))
      else if p.retainedBytes + memory > p.cfg.maxRetainedStreamAttributeBytes then Handled(RejectOpen(q, s, false, Exhausted()))
      else if env.verdict.AcceptorThrows? then Handled(RejectOpen(q, s, true, env.verdict.code))
      else if env.verdict == NobodyAccepts(true) then Handled(RejectOpen(q, s, false, Exhausted()))
      else Handled(q.(streams := q.streams[s := NewStream(attributes, false)],
                      remoteActive := p.remoteActive + 1,
                      retainedBytes := p.retainedBytes + memory))
  }
}
