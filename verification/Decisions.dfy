/**
 * What a session decides, in every state it can reach against any peer: which calls and frames it takes,
 * what it answers, and which it must refuse. The conditions are in terms of what happened (streams that are
 * live, directions that ended, bytes on the wire), not of the counters and flags the session keeps.
 */
module Decisions {
  import opened Bytes
  import opened Frames
  import opened StreamLink
  import opened Sessions
  import opened Accounting
  import opened SessionRuns
  import opened StreamCounts
  import FragmentPlan
  import Codec

  /** Calls and arrivals that a session of this configuration went through without a violation. */
  ghost predicate Reaches(cfg: Config, inputs: seq<Input>) {
    ConfigOk(cfg) && Decodable(inputs) && FeedAll(Initial(cfg), inputs).Handled?
  }

  ghost function After(cfg: Config, inputs: seq<Input>): Peer
    requires Reaches(cfg, inputs)
  {
    FeedAll(Initial(cfg), inputs).peer
  }

  lemma Reached(cfg: Config, inputs: seq<Input>)
    requires Reaches(cfg, inputs)
    ensures Valid(After(cfg, inputs)) && After(cfg, inputs).cfg == cfg
  {
    hide Valid, FeedAll;
    InitialValid(cfg);
    FeedAllValid(Initial(cfg), inputs);
    ConfigKept(Initial(cfg), inputs);
  }

  lemma {:induction false} ConfigKept(p: Peer, inputs: seq<Input>)
    requires Valid(p) && Decodable(inputs) && FeedAll(p, inputs).Handled?
    ensures FeedAll(p, inputs).peer.cfg == p.cfg
    decreases |inputs|
  {
    hide Valid, Feed;
    if inputs != [] {
      FeedValid(p, inputs[0]);
      FeedConfig(p, inputs[0]);
      assert forall i :: 0 <= i < |inputs[1..]| ==> inputs[1..][i] == inputs[i + 1];
      ConfigKept(Feed(p, inputs[0]).peer, inputs[1..]);
    }
  }

  lemma FeedConfig(p: Peer, input: Input)
    requires Valid(p) && Feed(p, input).Handled?
    ensures Feed(p, input).peer.cfg == p.cfg
  {
    hide Valid, HandleFrame, OpenNext;
    match input
    case CallOpen(attributes, written) => OpenNextConfig(p, attributes, written);
    case WriteOne =>
    case Arrival(packet, env) => HandleFrontier(p.(expectedSequence := p.expectedSequence + 1), packet.body, env);
    case _ => CallFrontiers(p, input);
  }

  lemma OpenNextConfig(p: Peer, attributes: seq<Attribute>, written: bool)
    ensures OpenNext(p, attributes, written).cfg == p.cfg
  {
    hide AttributeMemory;
  }

  // ---------------------------------------------------------------- budgets and ids, from what is live

  /** What a stream's attributes are charged is what they take on the wire. */
  lemma {:induction false} MemoryIsWire(attributes: seq<Attribute>)
    ensures AttributeMemory(attributes) == |Codec.AttributeArea(attributes)|
    decreases |attributes|
  {
    if attributes != [] {
      MemoryIsWire(attributes[1..]);
    }
  }

  /** The attribute bytes held by the live streams. */
  ghost function Retained(p: Peer): nat { Total(p.streams, RetainedBytes) }

  /** The bytes promised to items being put together. */
  ghost function Promised(p: Peer): nat { Total(p.streams, ReservedBytes) }

  lemma CountersMean(p: Peer)
    requires Valid(p)
    ensures p.localActive == |Having(p.streams, true)| && p.remoteActive == |Having(p.streams, false)|
    ensures p.retainedBytes == Retained(p) && p.inFlight == Promised(p)
  {
    Aspects(p);
    hide Valid, Total, Having;
    assert CountersOk(p);
    CountIsTotal(p.streams, true);
    CountIsTotal(p.streams, false);
  }

  /** The next id of its side: not used yet, with none of that side left out before it. */
  predicate Contiguous(p: Peer, s: StreamId, local: bool) {
    && s > 0 && (s % 2 == LocalParity(p.cfg) <==> local) && !IsPast(p, s)
    && forall k :: 0 < k < s && k % 2 == s % 2 ==> IsPast(p, k)
  }

  lemma NoneLeftOut(p: Peer, s: StreamId, local: bool, k: StreamId)
    requires Contiguous(p, s, local) && 0 < k < s && (k % 2 == LocalParity(p.cfg) <==> local)
    ensures IsPast(p, k)
  {
    hide IsPast;
  }

  lemma NextIds(p: Peer, s: StreamId)
    requires Valid(p)
    ensures Contiguous(p, s, false) <==> s == ExpectedRemote(p)
    ensures Contiguous(p, s, true) <==> s == p.nextStreamId
  {
    FrontierFacts(p);
    var remote, local := ExpectedRemote(p), p.nextStreamId;
    if Contiguous(p, s, false) && s > remote {
      NoneLeftOut(p, s, false, remote);
    }
    if Contiguous(p, s, true) && s > local {
      NoneLeftOut(p, s, true, local);
    }
  }

  /** The initiator opens odd streams from 1 on, the acceptor even ones from 2 on. */
  lemma FirstIds(cfg: Config)
    requires ConfigOk(cfg)
    ensures var mine, theirs := if cfg.initiator then 1 else 2, if cfg.initiator then 2 else 1;
      && (forall s :: Contiguous(Initial(cfg), s, true) <==> s == mine)
      && (forall s :: Contiguous(Initial(cfg), s, false) <==> s == theirs)
  {
    InitialValid(cfg);
    hide Valid, ConfigOk, Contiguous;
    forall s
      ensures Contiguous(Initial(cfg), s, true) <==> s == if cfg.initiator then 1 else 2
      ensures Contiguous(Initial(cfg), s, false) <==> s == if cfg.initiator then 2 else 1
    {
      NextIds(Initial(cfg), s);
    }
  }

  // ---------------------------------------------------------------- OPEN

  /** A stream nothing has happened on yet. */
  predicate Fresh(t: Stream, attributes: seq<Attribute>, local: bool) {
    t == Stream(local, |Codec.AttributeArea(attributes)|, 0, 0, false, false, NoItem)
  }

  /** There is room for another stream of the peer's with these attributes. */
  ghost predicate HasRoom(p: Peer, attributes: seq<Attribute>) {
    && |Having(p.streams, false)| < p.cfg.maxInboundStreams
    && Retained(p) + |Codec.AttributeArea(attributes)| <= p.cfg.maxRetainedStreamAttributeBytes
  }

  /** The application takes the stream, or leaves it to a queue that is not full. */
  predicate Taken(verdict: Verdict) { verdict.Accepts? || (verdict.NobodyAccepts? && !verdict.queueFull) }

  lemma OpenAt(p: Peer, s: StreamId, attributes: seq<Attribute>, env: Environment)
    requires Valid(p)
    ensures HandleOpen(p, s, attributes, env).Handled? <==> Contiguous(p, s, false)
    ensures HandleOpen(p, s, attributes, env).Handled? ==>
      var q := HandleOpen(p, s, attributes, env).peer;
      var room := HasRoom(p, attributes);
      if room && Taken(env.verdict) then
        s in q.streams && Fresh(q.streams[s], attributes, false) && q.streams - {s} == p.streams && q.outbox == p.outbox
      else
        && s !in q.streams && q.streams == p.streams
        && q.outbox == p.outbox + [Error(s, if room && env.verdict.AcceptorThrows? then env.verdict.code else Exhausted())]
        && s in q.retired && q.retired[s] == (room && env.verdict.AcceptorThrows?)
  {
    hide Valid, Retained, Having, AttributeMemory, Codec.AttributeArea, Exhausted, IsPast, Contiguous, Retire, Distinct;
    NextIds(p, s);
    CountersMean(p);
    MemoryIsWire(attributes);
    if s == ExpectedRemote(p) {
      NextRemoteIsNew(p);
      NewHasNoTombstone(p, s);
      GravesKept(p);
      var past := p.(highestRemote := s);
      Buried(past, s, false);
      Buried(past, s, true);
      assert p.streams[s := NewStream(attributes, false)] - {s} == p.streams;
    }
  }

  lemma NewHasNoTombstone(p: Peer, s: StreamId)
    requires Valid(p) && !IsPast(p, s)
    ensures s !in p.retired && s !in p.streams
  {
    Aspects(p);
    hide Valid, IsPast;
    assert TombstonesOk(p);
    LiveIsPast(p);
  }

  // ---------------------------------------------------------------- tombstones

  function Newest(q: seq<StreamId>, n: nat): seq<StreamId> { if |q| <= n then q else q[|q| - n..] }

  /** Each tombstone has its place in the order of burial. */
  ghost predicate Graves(p: Peer) {
    && Distinct(p.retiredOrder) && (forall s :: s in p.retired <==> s in p.retiredOrder)
    && |p.retiredOrder| <= p.cfg.maxRetiredStreams && p.cfg.maxRetiredStreams > 0
  }

  lemma GravesKept(p: Peer)
    requires Valid(p)
    ensures Graves(p)
  {
    Aspects(p);
    hide Valid, Distinct, IsPast;
    assert TombstonesOk(p);
    FrontierFacts(p);
  }

  /** Burying a stream that has no tombstone: it gets one that says `lenient`, and the oldest over the limit goes. */
  lemma Buried(p: Peer, s: StreamId, lenient: bool)
    requires Graves(p) && s !in p.retired
    ensures var q := Retire(p, s, lenient);
      && q == p.(retired := q.retired, retiredOrder := q.retiredOrder)
      && q.retiredOrder == Newest(p.retiredOrder + [s], p.cfg.maxRetiredStreams)
      && s in q.retired && q.retired[s] == lenient
      && (forall k :: k in q.retired && k != s ==> k in p.retired && q.retired[k] == p.retired[k])
  {
    hide Distinct;
    var order := p.retiredOrder + [s];
    if |order| > p.cfg.maxRetiredStreams {
      assert order[0] in p.retiredOrder;
    }
  }

  /** A stream that ends here, and whether its late DATA is to be let pass. */
  datatype Ending = Ending(id: StreamId, lenient: bool)

  /** What the end of a stream, if any, did to the tombstones. */
  ghost predicate Buries(p: Peer, q: Peer, ending: Option<Ending>) {
    match ending
    case None => q.retired == p.retired && q.retiredOrder == p.retiredOrder
    case Some(e) =>
      && q.retiredOrder == Newest(p.retiredOrder + [e.id], p.cfg.maxRetiredStreams)
      && e.id in q.retired && q.retired[e.id] == e.lenient
      && (forall k :: k in q.retired && k != e.id ==> k in p.retired && q.retired[k] == p.retired[k])
  }

  lemma LiveHasNoTombstone(p: Peer, s: StreamId)
    requires Valid(p) && s in p.streams
    ensures s !in p.retired
  {
    Aspects(p);
    hide Valid, Distinct, IsPast;
    assert TombstonesOk(p);
  }

  lemma BuriedAfter(p: Peer, f: Peer, s: StreamId, lenient: bool)
    requires Graves(p) && s !in p.retired && f.retired == p.retired && f.retiredOrder == p.retiredOrder && f.cfg == p.cfg
    ensures Buries(p, Retire(f, s, lenient), Some(Ending(s, lenient)))
    ensures Retire(f, s, lenient).streams == f.streams && Retire(f, s, lenient).outbox == f.outbox
  {
    hide Retire, Distinct;
    Buried(f, s, lenient);
  }

  /** Only the DATA and FRAGMENT frames of the stream leave the queue. */
  lemma {:induction false} PurgeDrops(q: seq<Body>, s: StreamId, b: Body)
    ensures multiset(Purge(q, s))[b] == if b.id == s && (b.Data? || b.First? || b.Fragment?) then 0 else multiset(q)[b]
    decreases |q|
  {
    if q != [] {
      PurgeDrops(q[1..], s, b);
      assert q == [q[0]] + q[1..];
    }
  }

  lemma ClearedForgets(p: Peer, s: StreamId)
    requires s in p.streams
    ensures Forget(ClearReassembly(p, s), s).streams == p.streams - {s}
  {
  }

  lemma CancelAt(p: Peer, s: StreamId, lenient: bool)
    requires Valid(p) && s in p.streams
    ensures var q := CancelStream(p, s, lenient);
      && q.streams == p.streams - {s} && q.outbox == Purge(p.outbox, s)
      && Buries(p, q, Some(Ending(s, lenient)))
  {
    hide Valid, Retire, Purge, Distinct, ClearReassembly, Forget, Buries;
    ClearedForgets(p, s);
    LiveHasNoTombstone(p, s);
    GravesKept(p);
    ClearFrame(p, s);
    var c := ClearReassembly(p, s);
    ForgetFrame(c, s);
    var f := Forget(c, s).(outbox := Purge(p.outbox, s));
    assert f.streams == p.streams - {s};
    BuriedAfter(p, f, s, lenient);
  }

  lemma ReleaseAt(p: Peer, s: StreamId)
    requires s in p.streams && Graves(p) && s !in p.retired
    ensures var q := ReleaseStream(p, s);
      if p.streams[s].inClosed && p.streams[s].outClosed then
        q.streams == p.streams - {s} && q.outbox == p.outbox && Buries(p, q, Some(Ending(s, false)))
      else q == p
    ensures ReleaseStream(p, s).completed == p.completed && ReleaseStream(p, s).finished == p.finished && ReleaseStream(p, s).delivered == p.delivered
  {
    hide Retire, Distinct, Forget, Graves, Buries;
    ForgetFrame(p, s);
    BuriedAfter(p, Forget(p, s), s, false);
    RetireFrame(Forget(p, s), s, false);
  }

  // ---------------------------------------------------------------- calls

  /** A credit counter after `n` more: exact, or at the cap where that would be passed. */
  predicate Raised(cap: Option<nat>, before: nat, n: nat, after: nat) {
    Below(after, cap) && after <= before + n && (after == before + n || cap == Some(after))
  }

  /** A grant is taken for a live stream whose input has not ended, and for nothing else. */
  lemma RequestAt(p: Peer, s: StreamId, n: int)
    requires Valid(p)
    ensures var q := Request(p, s, n);
      if 1 <= n <= MAX_CREDIT && s in p.streams && s !in p.finished then
        && q.outbox == p.outbox + [Demand(s, n)]
        && s in q.streams && Raised(p.cfg.creditCap, p.streams[s].inCredit, n, q.streams[s].inCredit)
        && q.streams == p.streams[s := p.streams[s].(inCredit := q.streams[s].inCredit)]
        && q == p.(streams := q.streams, outbox := q.outbox)
      else q == p
  {
    hide Valid;
    if s in p.streams {
      LiveFacts(p, s);
    }
  }

  /** Every DATA and FRAGMENT frame of the stream has been written. */
  predicate WrittenOut(p: Peer, s: StreamId) {
    forall b :: b in p.outbox && b.id == s ==> !b.Data? && !b.First? && !b.Fragment?
  }

  lemma WrittenOutIff(p: Peer, s: StreamId)
    ensures WrittenOut(p, s) <==> !Busy(p.outbox, s)
  {
    if !WrittenOut(p, s) {
      var b :| b in p.outbox && b.id == s && b.IsData();
      var i :| 0 <= i < |p.outbox| && p.outbox[i] == b;
    }
  }

  /** The conditions of `FragmentPlan.PlannedIff`. */
  predicate Sendable(s: StreamId, item: Item, w: FragmentPlan.Outbound) {
    && |item.data| <= w.maxItemBytes && FragmentPlan.Writable(s, item.attributes, [], w)
    && (FragmentPlan.Writable(s, item.attributes, item.data, w) || (w.fragmentation && FragmentPlan.FragmentsFit(s, w)))
  }

  /**
   * An item is sent on a live stream whose output has not ended, with credit, when the item before it is on its
   * way and it can be written; then it costs one credit, and its frames carry exactly it.
   */
  lemma SendAt(p: Peer, s: StreamId, item: Item)
    requires Valid(p) && s <= MAX_U64
    ensures var q := Send(p, s, item);
      if s in p.streams && s !in p.completed && p.streams[s].outCredit > 0 && WrittenOut(p, s)
         && Sendable(s, item, p.cfg.outbound)
      then
        && p.outbox <= q.outbox && Carries(q.outbox[|p.outbox|..], s, item)
        && q.streams == p.streams[s := p.streams[s].(outCredit := p.streams[s].outCredit - 1)]
        && q.sent == p.sent[s := Log(p.sent, s) + [item]]
        && q == p.(streams := q.streams, outbox := q.outbox, sent := q.sent)
      else q == p
  {
    hide Valid, Busy, WrittenOut, FragmentPlan.Plan, FragmentPlan.Writable, FragmentPlan.FragmentsFit, Carries;
    WrittenOutIff(p, s);
    if s in p.streams {
      LiveFacts(p, s);
      FragmentPlan.PlannedIff(s, item, p.cfg.outbound);
      if FragmentPlan.Plan(s, item, p.cfg.outbound).Planned? {
        FragmentPlan.PlanCarries(s, item, p.cfg.outbound);
        var frames := FragmentPlan.Plan(s, item, p.cfg.outbound).frames;
        assert (p.outbox + frames)[|p.outbox|..] == frames;
      }
    }
  }

  /** Completing a direction ends the stream exactly when the other one has ended. */
  lemma CompleteAt(p: Peer, s: StreamId)
    requires Valid(p)
    ensures var q := CompleteOut(p, s);
      if s in p.streams && s !in p.completed && WrittenOut(p, s) then
        && q.outbox == p.outbox + [Complete(s)] && q.completed == p.completed + {s} && q.finished == p.finished
        && (if s in p.finished then q.streams == p.streams - {s} && Buries(p, q, Some(Ending(s, false)))
            else q.streams == p.streams[s := p.streams[s].(outClosed := true)] && Buries(p, q, None))
      else q == p
  {
    hide Valid, Busy, WrittenOut, ReleaseStream, Buries;
    WrittenOutIff(p, s);
    if s in p.streams && s !in p.completed && !Busy(p.outbox, s) {
      LiveFacts(p, s);
      LiveHasNoTombstone(p, s);
      GravesKept(p);
      var t := p.streams[s].(outClosed := true);
      var closed := p.(streams := p.streams[s := t], outbox := p.outbox + [Complete(s)], completed := p.completed + {s});
      ReleaseAt(closed, s);
      SameGraves(p, closed, ReleaseStream(closed, s), if t.inClosed then Some(Ending(s, false)) else None);
      assert p.streams[s := t] - {s} == p.streams - {s};
    } else if s in p.streams {
      LiveFacts(p, s);
    }
  }

  lemma SameGraves(p: Peer, q: Peer, r: Peer, ending: Option<Ending>)
    requires q.retired == p.retired && q.retiredOrder == p.retiredOrder && q.cfg == p.cfg
    requires if ending.None? then r == q else Buries(q, r, ending)
    ensures Buries(p, r, ending)
  {
  }

  /** `cancel` and `fail` end a live stream at once, drop its unwritten DATA, and let late DATA of the peer pass. */
  lemma TerminateAt(p: Peer, s: StreamId, last: Body)
    requires Valid(p)
    ensures var q := Terminate(p, s, last);
      if s in p.streams then
        && q.streams == p.streams - {s} && q.outbox == Purge(p.outbox, s) + [last]
        && Buries(p, q, Some(Ending(s, true)))
      else q == p
  {
    hide Valid, CancelStream, Purge;
    if s in p.streams {
      CancelAt(p, s, true);
    }
  }

  /** A stream is opened, with the next id of this side, while the peer's limit and this side's budget allow. */
  lemma OpenNextAt(p: Peer, s: StreamId, attributes: seq<Attribute>, written: bool)
    requires Valid(p) && Contiguous(p, s, true)
    ensures var q := OpenNext(p, attributes, written);
      if written && s <= MAX_U64 && |Having(p.streams, true)| < p.cfg.remoteMaxInboundStreams
         && Retained(p) + |Codec.AttributeArea(attributes)| <= p.cfg.maxRetainedStreamAttributeBytes
      then
        && q.outbox == p.outbox + [Open(s, attributes)] && IsPast(q, s)
        && s in q.streams && Fresh(q.streams[s], attributes, true) && q.streams - {s} == p.streams && Buries(p, q, None)
      else q == p
  {
    hide Valid, Retained, Having, AttributeMemory, Codec.AttributeArea;
    NextIds(p, s);
    FrontierFacts(p);
    CountersMean(p);
    MemoryIsWire(attributes);
    NewHasNoTombstone(p, s);
    assert p.streams[s := NewStream(attributes, true)] - {s} == p.streams;
  }

  // ---------------------------------------------------------------- frames

  /** The first frame of an item, whole or not, that must be refused on a live stream. */
  function NewItemFault(p: Peer, b: Body): Option<Violation>
    requires (b.Data? || b.First?) && b.id in p.streams
  {
    if b.id in p.finished then Some(DataOnClosed)
    else if p.streams[b.id].partial.Partial? then Some(NewDataDuringItem)
    else if p.streams[b.id].inCredit == 0 then Some(ExceededDemand)
    else if (if b.Data? then |b.payload| else b.total) > p.cfg.maxInboundItemBytes then Some(ItemTooLarge)
    else None
  }

  /**
   * Why a frame must be refused: one for a stream never opened; DATA after the peer ended the stream or both
   * sides completed it, as long as that is remembered; on a live stream an item after COMPLETE, inside another
   * item, beyond the demand or the size limit, a fragment of nothing or too long, a COMPLETE inside an item, no
   * demand at all, or an error that names nothing.
   */
  function Fault(p: Peer, b: Body): Option<Violation>
    requires !b.Open?
  {
    var s := b.id;
    if s !in p.streams then
      if !IsPast(p, s) && !(b.IsData() && s in p.retired) then Some(UnknownStream)
      else if b.IsData() && s in p.retired && !p.retired[s] then Some(UnknownStream)
      else None
    else
      match b
      case Data(_, _, _) => NewItemFault(p, b)
      case First(_, _, _, _) => NewItemFault(p, b)
      case Fragment(_, payload) =>
        if s in p.finished then Some(FragmentOnClosed)
        else if p.streams[s].partial.NoItem? then Some(FragmentWithoutItem)
        else if |p.streams[s].partial.received| + |payload| > p.streams[s].partial.total then Some(FragmentOverflow)
        else None
      case Demand(_, n) => if n == 0 then Some(ZeroDemand) else None
      case Complete(_) => if p.streams[s].partial.Partial? then Some(CompleteDuringItem) else None
      case Cancel(_) => None
      case Error(_, code) => if Named(code) then None else Some(UnnamedError)
  }

  /** A frame of an arbitrary peer is refused exactly for these faults. */
  lemma FaultAt(p: Peer, b: Body, env: Environment)
    requires Valid(p) && !b.Open?
    ensures match HandleFrame(p, b, env)
      case Violated(why) => Fault(p, b) == Some(why)
      case Handled(q) => Fault(p, b) == None
  {
    hide Valid, Terminate, CancelStream, ReleaseStream, ClearReassembly, Push, IsPast, Named, Exhausted;
    if b.id in p.streams {
      LiveFacts(p, b.id);
    }
  }

  /** The item a frame hands to the application, if it is the last of one. */
  function Completed(p: Peer, b: Body): Option<Item>
    requires b.id in p.streams
  {
    match b
    case Data(_, attributes, payload) => Some(Item(payload, attributes))
    case Fragment(_, payload) =>
      (match p.streams[b.id].partial
       case NoItem => None
       case Partial(received, total, attributes) =>
         if |received| + |payload| == total then Some(Item(received + payload, attributes)) else None)
    case _ => None
  }

  /** Room for the reassembly of an item of this length. */
  ghost predicate Reassembles(p: Peer, total: nat, env: Environment) {
    env.allocates && Promised(p) + total <= p.cfg.maxInFlightReassemblyBytes
  }

  /** A fragmented item that cannot be put together for lack of memory or budget. */
  ghost predicate Unaffordable(p: Peer, b: Body, env: Environment) { b.First? && !Reassembles(p, b.total, env) }

  lemma UnaffordableAt(p: Peer, b: Body, env: Environment)
    requires Valid(p) && b.First? && b.id in p.streams && HandleData(p, b, env).Handled? && Unaffordable(p, b, env)
    ensures var q := HandleData(p, b, env).peer;
      && q.streams == p.streams - {b.id} && q.outbox == Purge(p.outbox, b.id) + [Error(b.id, Exhausted())]
      && q.delivered == p.delivered && Buries(p, q, Some(Ending(b.id, true)))
  {
    hide Valid, Purge, Exhausted, Promised, CancelStream, Buries;
    var s := b.id;
    CountersMean(p);
    LiveFacts(p, s);
    var t := p.streams[s];
    var spent := p.(streams := p.streams[s := t.(inCredit := t.inCredit - 1)]);
    UpdateValid(p, s, t.(inCredit := t.inCredit - 1), p.inFlight);
    CancelAt(spent, s, true);
    CancelLedgers(spent, s, true);
    var q := CancelStream(spent, s, true);
    SameBurial(p, spent, q, q.(outbox := q.outbox + [Error(s, Exhausted())]), Some(Ending(s, true)));
    assert spent.streams - {s} == p.streams - {s};
  }

  lemma SameBurial(p: Peer, spent: Peer, q: Peer, r: Peer, ending: Option<Ending>)
    requires Buries(spent, q, ending)
    requires spent.retired == p.retired && spent.retiredOrder == p.retiredOrder && spent.cfg == p.cfg
    requires r.retired == q.retired && r.retiredOrder == q.retiredOrder
    ensures Buries(p, r, ending)
  {
  }

  lemma WholeAt(p: Peer, b: Body, env: Environment)
    requires Valid(p) && (b.Data? || b.First?) && b.id in p.streams && HandleData(p, b, env).Handled?
    requires !Unaffordable(p, b, env)
    ensures Passed(p, b, HandleData(p, b, env).peer)
  {
    hide Valid, Promised, Buries;
    CountersMean(p);
    Unburied(p, HandleData(p, b, env).peer);
  }

  lemma FragmentAt(p: Peer, b: Body)
    requires Valid(p) && b.Fragment? && b.id in p.streams && HandleFragment(p, b).Handled?
    ensures Passed(p, b, HandleFragment(p, b).peer)
  {
    hide Valid, ClearReassembly, Buries;
    LiveFacts(p, b.id);
    ClearFrame(p, b.id);
    ClearedCredit(p, b.id);
    Unburied(p, HandleFragment(p, b).peer);
  }

  lemma ClearedCredit(p: Peer, s: StreamId)
    requires s in p.streams
    ensures var q := ClearReassembly(p, s); q.streams.Keys == p.streams.Keys && q.streams[s].inCredit == p.streams[s].inCredit
  {
  }

  /** An item frame went through: a new item costs one credit, and an item goes to the application with its last frame. */
  ghost predicate Passed(p: Peer, b: Body, q: Peer)
    requires b.id in p.streams
  {
    && q.outbox == p.outbox && Buries(p, q, None) && q.streams.Keys == p.streams.Keys
    && q.delivered == (if Completed(p, b).None? then p.delivered
                       else p.delivered[b.id := Log(p.delivered, b.id) + [Completed(p, b).value]])
    && q.streams[b.id].inCredit == p.streams[b.id].inCredit - (if b.Fragment? then 0 else 1)
  }

  /** What an item frame that is taken does. */
  lemma DataAt(p: Peer, b: Body, env: Environment)
    requires Valid(p) && b.IsData() && b.id in p.streams && HandleFrame(p, b, env).Handled?
    ensures var s := b.id;
      var q := HandleFrame(p, b, env).peer;
      if Unaffordable(p, b, env) then
        && q.streams == p.streams - {s} && q.outbox == Purge(p.outbox, s) + [Error(s, Exhausted())]
        && q.delivered == p.delivered && Buries(p, q, Some(Ending(s, true)))
      else Passed(p, b, q)
  {
    hide Valid, HandleData, HandleFragment, Unaffordable, Buries, Exhausted, Purge;
    if b.Fragment? {
      OnlyFirst(p, b, env);
      FragmentAt(p, b);
    } else if Unaffordable(p, b, env) {
      OnlyFirst(p, b, env);
      UnaffordableAt(p, b, env);
    } else {
      WholeAt(p, b, env);
    }
  }

  lemma OnlyFirst(p: Peer, b: Body, env: Environment)
    ensures Unaffordable(p, b, env) ==> b.First?
  {
  }

  /** What the other frames of a live stream do when they are taken. */
  lemma SignalAt(p: Peer, b: Body, env: Environment)
    requires Valid(p) && !b.IsData() && !b.Open? && b.id in p.streams && HandleFrame(p, b, env).Handled?
    ensures var s := b.id;
      var q := HandleFrame(p, b, env).peer;
      && q.delivered == p.delivered && q.completed == p.completed
      && q.finished == (if b.Complete? then p.finished + {s} else p.finished)
      && match b
         case Demand(_, n) =>
           && q.outbox == p.outbox && Buries(p, q, None)
           && s in q.streams && Raised(p.cfg.creditCap, p.streams[s].outCredit, n, q.streams[s].outCredit)
           && q.streams == p.streams[s := p.streams[s].(outCredit := q.streams[s].outCredit)]
         case Complete(_) =>
           && q.outbox == p.outbox
           && (if s in p.completed then q.streams == p.streams - {s} && Buries(p, q, Some(Ending(s, false)))
               else q.streams == p.streams[s := p.streams[s].(inClosed := true)] && Buries(p, q, None))
         case _ => q.streams == p.streams - {s} && q.outbox == Purge(p.outbox, s) && Buries(p, q, Some(Ending(s, false)))
  {
    hide Valid, CancelStream, ReleaseStream, Purge, Named, Buries;
    var s := b.id;
    LiveFacts(p, s);
    match b
    case Demand(_, n) => Unburied(p, HandleFrame(p, b, env).peer);
    case Complete(_) =>
      LiveHasNoTombstone(p, s);
      GravesKept(p);
      var t := p.streams[s].(inClosed := true);
      var closed := p.(streams := p.streams[s := t], finished := p.finished + {s});
      ReleaseAt(closed, s);
      SameGraves(p, closed, ReleaseStream(closed, s), if t.outClosed then Some(Ending(s, false)) else None);
      assert p.streams[s := t] - {s} == p.streams - {s};
    case _ =>
      CancelAt(p, s, false);
      CancelLedgers(p, s, false);
  }

  lemma Unburied(p: Peer, q: Peer)
    requires q.retired == p.retired && q.retiredOrder == p.retiredOrder
    ensures Buries(p, q, None)
  {
  }

  lemma CancelLedgers(p: Peer, s: StreamId, lenient: bool)
    requires s in p.streams
    ensures var q := CancelStream(p, s, lenient);
      q.delivered == p.delivered && q.completed == p.completed && q.finished == p.finished && q.sent == p.sent
  {
    hide Retire, Purge;
    ClearFrame(p, s);
    ForgetFrame(ClearReassembly(p, s), s);
    hide ClearReassembly, Forget;
    RetireFrame(Forget(ClearReassembly(p, s), s).(outbox := Purge(Forget(ClearReassembly(p, s), s).outbox, s)), s, lenient);
  }

  // ---------------------------------------------------------------- over whole runs

  /** The stream an input ends or turns away, and how its late DATA is to be treated. */
  ghost function EndedBy(p: Peer, input: Input): Option<Ending>
    requires Feed(p, input).Handled?
  {
    var q := Feed(p, input).peer;
    match input
    case CallOpen(_, _) => None
    case CallRequest(_, _) => None
    case CallSend(_, _) => None
    case WriteOne => None
    case CallComplete(s) => if s in p.streams && s !in q.streams then Some(Ending(s, false)) else None
    case CallCancel(s) => if s in p.streams then Some(Ending(s, true)) else None
    case CallFail(s, _) => if s in p.streams then Some(Ending(s, true)) else None
    case Arrival(packet, env) =>
      var s := packet.body.id;
      if packet.body.Open? then
        if s in q.streams then None
        else Some(Ending(s, HasRoom(p, packet.body.attributes) && env.verdict.AcceptorThrows?))
      else if s in p.streams && s !in q.streams then Some(Ending(s, packet.body.First?))
      else None
  }

  lemma FeedBuries(p: Peer, input: Input)
    requires Valid(p) && (input.Arrival? ==> WellShaped(input.packet.body)) && Feed(p, input).Handled?
    ensures Buries(p, Feed(p, input).peer, EndedBy(p, input))
  {
    hide Valid, Buries, Terminate, CompleteOut, HandleFrame, Request, Send, OpenNext, HasRoom;
    match input
    case CallOpen(attributes, written) =>
      NextLocalIsNew(p);
      OpenBuriesNone(p, attributes, written);
    case CallRequest(s, n) => RequestAt(p, s, n); Unburied(p, Request(p, s, n));
    case CallSend(s, item) => SendBuriesNone(p, s, item);
    case CallComplete(s) => CompleteAt(p, s); CompleteBuries(p, s);
    case CallCancel(s) => TerminateBuries(p, s, Cancel(s));
    case CallFail(s, code) => TerminateBuries(p, s, Error(s, code));
    case WriteOne => Unburied(p, Feed(p, input).peer);
    case Arrival(packet, env) => ArrivalBuries(p, packet, env);
  }

  lemma OpenBuriesNone(p: Peer, attributes: seq<Attribute>, written: bool)
    ensures Buries(p, OpenNext(p, attributes, written), None)
  {
    hide AttributeMemory;
  }

  lemma SendBuriesNone(p: Peer, s: StreamId, item: Item)
    ensures Buries(p, Send(p, s, item), None)
  {
    hide FragmentPlan.Plan, Busy;
  }

  lemma CompleteBuries(p: Peer, s: StreamId)
    requires Valid(p)
    ensures var q := CompleteOut(p, s);
      Buries(p, q, if s in p.streams && s !in q.streams then Some(Ending(s, false)) else None)
  {
    hide Valid, CompleteOut, Busy, Buries;
    CompleteAt(p, s);
    Unburied(p, p);
  }

  lemma TerminateBuries(p: Peer, s: StreamId, last: Body)
    requires Valid(p)
    ensures Buries(p, Terminate(p, s, last), if s in p.streams then Some(Ending(s, true)) else None)
  {
    hide Valid, Terminate, Buries;
    TerminateAt(p, s, last);
    Unburied(p, p);
  }

  lemma ArrivalBuries(p: Peer, packet: Packet, env: Environment)
    requires Valid(p) && WellShaped(packet.body) && Feed(p, Arrival(packet, env)).Handled?
    ensures Buries(p, Feed(p, Arrival(packet, env)).peer, EndedBy(p, Arrival(packet, env)))
  {
    hide Valid, Buries, HandleData, HandleFragment, HandleOpen, CancelStream, ReleaseStream, HasRoom, Exhausted, Purge, Named;
    var b := packet.body;
    var counted := p.(expectedSequence := p.expectedSequence + 1);
    AdvanceReceived(p);
    var q := HandleFrame(counted, b, env).peer;
    var ending := EndedBy(p, Arrival(packet, env));
    if b.Open? {
      OpenBuries(counted, b.id, b.attributes, env);
      SameRoom(p, counted, b.attributes);
    } else if b.id !in p.streams {
      Unburied(counted, q);
    } else if b.IsData() {
      DataBuries(counted, b, env);
    } else {
      SignalAt(counted, b, env);
    }
    SameBurial(p, counted, q, q, ending);
  }

  lemma SameRoom(p: Peer, counted: Peer, attributes: seq<Attribute>)
    requires counted == p.(expectedSequence := counted.expectedSequence)
    ensures HasRoom(counted, attributes) <==> HasRoom(p, attributes)
  {
    hide Having, Total;
  }

  lemma OpenBuries(p: Peer, s: StreamId, attributes: seq<Attribute>, env: Environment)
    requires Valid(p) && HandleOpen(p, s, attributes, env).Handled?
    ensures var q := HandleOpen(p, s, attributes, env).peer;
      Buries(p, q, if s in q.streams then None
                   else Some(Ending(s, HasRoom(p, attributes) && env.verdict.AcceptorThrows?)))
  {
    hide Valid, AttributeMemory, Exhausted, Retire, Distinct, IsPast, Contiguous, HasRoom, Buries;
    OpenAt(p, s, attributes, env);
    NextIds(p, s);
    NextRemoteIsNew(p);
    NewHasNoTombstone(p, s);
    GravesKept(p);
    var past := p.(highestRemote := s);
    BuriedAfter(p, past, s, false);
    BuriedAfter(p, past, s, true);
    Unburied(p, past);
    var q := HandleOpen(p, s, attributes, env).peer;
    if s in q.streams {
      Unburied(p, q);
    } else {
      var lenient := q.retired[s];
      assert q.retired == Retire(past, s, lenient).retired by { Rejected(p, s, attributes, env); }
      Rejected(p, s, attributes, env);
      SameBurial(p, p, Retire(past, s, lenient), q, Some(Ending(s, lenient)));
    }
  }

  lemma Rejected(p: Peer, s: StreamId, attributes: seq<Attribute>, env: Environment)
    requires Valid(p) && HandleOpen(p, s, attributes, env).Handled?
    requires s !in HandleOpen(p, s, attributes, env).peer.streams
    requires s in HandleOpen(p, s, attributes, env).peer.retired
    ensures var q := HandleOpen(p, s, attributes, env).peer;
      var buried := Retire(p.(highestRemote := s), s, q.retired[s]);
      q.retired == buried.retired && q.retiredOrder == buried.retiredOrder
  {
    hide Valid, AttributeMemory, Exhausted, Distinct, IsPast;
    NextRemoteIsNew(p);
    NewHasNoTombstone(p, s);
    GravesKept(p);
    var past := p.(highestRemote := s);
    Buried(past, s, false);
    Buried(past, s, true);
    hide Retire;
  }

  lemma DataBuries(p: Peer, b: Body, env: Environment)
    requires Valid(p) && b.IsData() && b.id in p.streams && HandleFrame(p, b, env).Handled?
    ensures var q := HandleFrame(p, b, env).peer;
      Buries(p, q, if b.id !in q.streams then Some(Ending(b.id, b.First?)) else None)
  {
    hide Valid, HandleFrame, Unaffordable, Buries, Exhausted, Purge;
    DataAt(p, b, env);
    OnlyFirst(p, b, env);
  }

  ghost function Endings(p: Peer, inputs: seq<Input>): seq<Ending>
    requires FeedAll(p, inputs).Handled?
    decreases |inputs|
  {
    if inputs == [] then []
    else
      var ending := EndedBy(p, inputs[0]);
      (if ending.None? then [] else [ending.value]) + Endings(Feed(p, inputs[0]).peer, inputs[1..])
  }

  function Ids(log: seq<Ending>): seq<StreamId> { seq(|log|, i requires 0 <= i < |log| => log[i].id) }

  /** What was last said of the late DATA of this stream. */
  function Treatment(log: seq<Ending>, s: StreamId): Option<bool>
    decreases |log|
  {
    if log == [] then None
    else if log[|log| - 1].id == s then Some(log[|log| - 1].lenient)
    else Treatment(log[..|log| - 1], s)
  }

  /** The tombstones are those of the last streams that ended, and say how each of them did. */
  ghost predicate Remembers(p: Peer, log: seq<Ending>) {
    && p.retiredOrder == Newest(Ids(log), p.cfg.maxRetiredStreams)
    && forall s :: s in p.retired ==> Treatment(log, s) == Some(p.retired[s])
  }

  lemma NewestMore(q: seq<StreamId>, s: StreamId, n: nat)
    requires n > 0
    ensures Newest(Newest(q, n) + [s], n) == Newest(q + [s], n)
  {
    if |q| > n {
      assert (q[|q| - n..] + [s])[1..] == (q + [s])[|q| + 1 - n..];
    } else if |q| == n {
      assert q[0..] == q;
    }
  }

  lemma RemembersStep(p: Peer, q: Peer, log: seq<Ending>, ending: Option<Ending>)
    requires Remembers(p, log) && Buries(p, q, ending) && q.cfg == p.cfg && p.cfg.maxRetiredStreams > 0
    ensures Remembers(q, log + (if ending.None? then [] else [ending.value]))
  {
    if ending.None? {
      assert log + [] == log;
    } else {
      var more := log + [ending.value];
      assert Ids(more) == Ids(log) + [ending.value.id];
      assert more[..|more| - 1] == log;
      NewestMore(Ids(log), ending.value.id, p.cfg.maxRetiredStreams);
    }
  }

  lemma {:induction false} RemembersRun(p: Peer, inputs: seq<Input>, log: seq<Ending>)
    requires Valid(p) && Decodable(inputs) && FeedAll(p, inputs).Handled? && Remembers(p, log)
    ensures Remembers(FeedAll(p, inputs).peer, log + Endings(p, inputs))
    decreases |inputs|
  {
    hide Valid, Feed, EndedBy, Remembers, Buries;
    if inputs == [] {
      assert log + [] == log;
    } else {
      var q := Feed(p, inputs[0]).peer;
      var ending := EndedBy(p, inputs[0]);
      var now := if ending.None? then [] else [ending.value];
      FeedValid(p, inputs[0]);
      FeedConfig(p, inputs[0]);
      FeedBuries(p, inputs[0]);
      FrontierFacts(p);
      RemembersStep(p, q, log, ending);
      assert forall i :: 0 <= i < |inputs[1..]| ==> inputs[1..][i] == inputs[i + 1];
      RemembersRun(q, inputs[1..], log + now);
      assert log + now + Endings(q, inputs[1..]) == log + Endings(p, inputs);
    }
  }

  /**
   * Tombstones, over every run: there is one for each of the last `maxRetiredStreams` streams that ended or were
   * turned away, and it lets late DATA pass exactly where this side ended the stream by cancelling or failing it.
   */
  lemma TombstonesTell(cfg: Config, inputs: seq<Input>)
    requires Reaches(cfg, inputs)
    ensures var p := After(cfg, inputs);
      var log := Endings(Initial(cfg), inputs);
      && p.retiredOrder == Newest(Ids(log), cfg.maxRetiredStreams)
      && (forall s :: s in p.retired <==> s in p.retiredOrder)
      && (forall s :: s in p.retired ==> Treatment(log, s) == Some(p.retired[s]))
  {
    hide Valid, FeedAll, Endings, Distinct;
    Reached(cfg, inputs);
    InitialValid(cfg);
    assert Ids([]) == [];
    RemembersRun(Initial(cfg), inputs, []);
    assert [] + Endings(Initial(cfg), inputs) == Endings(Initial(cfg), inputs);
    GravesKept(After(cfg, inputs));
  }

  // ---------------------------------------------------------------- the frames of any peer, over whole runs

  /** The stream an input opens, going by the OPEN frame that is queued or arrives. */
  function Opens(p: Peer, input: Input): Option<StreamId>
    requires Feed(p, input).Handled?
  {
    var q := Feed(p, input).peer;
    match input
    case CallOpen(_, _) => if |q.outbox| > |p.outbox| then Some(q.outbox[|p.outbox|].id) else None
    case Arrival(packet, _) => if packet.body.Open? then Some(packet.body.id) else None
    case _ => None
  }

  ghost function Used(p: Peer, inputs: seq<Input>): set<StreamId>
    requires FeedAll(p, inputs).Handled?
    decreases |inputs|
  {
    if inputs == [] then {}
    else
      var s := Opens(p, inputs[0]);
      (if s.None? then {} else {s.value}) + Used(Feed(p, inputs[0]).peer, inputs[1..])
  }

  lemma UsedStep(p: Peer, input: Input, s: StreamId)
    requires Valid(p) && Feed(p, input).Handled?
    ensures IsPast(Feed(p, input).peer, s) <==> IsPast(p, s) || Opens(p, input) == Some(s)
  {
    hide Valid, HandleFrame;
    FrontierFacts(p);
    match input
    case CallOpen(attributes, written) => OpenUses(p, attributes, written, s);
    case WriteOne =>
    case Arrival(packet, env) => HandleFrontier(p.(expectedSequence := p.expectedSequence + 1), packet.body, env);
    case _ =>
      CallFrontiers(p, input);
      SamePast(p, Feed(p, input).peer);
  }

  lemma CallFrontiers(p: Peer, input: Input)
    requires !input.WriteOne? && !input.Arrival? && !input.CallOpen?
    ensures SameFrontiers(p, Feed(p, input).peer)
  {
    hide CancelStream, ReleaseStream, Busy, FragmentPlan.Plan;
    match input
    case CallComplete(s) =>
      if s in p.streams {
        ReleaseFrontier(p.(streams := p.streams[s := p.streams[s].(outClosed := true)],
                           outbox := p.outbox + [Complete(s)], completed := p.completed + {s}), s);
      }
    case CallCancel(s) => if s in p.streams { CancelFrontier(p, s, true); }
    case CallFail(s, _) => if s in p.streams { CancelFrontier(p, s, true); }
    case _ =>
  }

  lemma OpenUses(p: Peer, attributes: seq<Attribute>, written: bool, s: StreamId)
    requires Valid(p)
    ensures IsPast(OpenNext(p, attributes, written), s)
            <==> IsPast(p, s) || Opens(p, CallOpen(attributes, written)) == Some(s)
  {
    hide Valid, AttributeMemory;
    FrontierFacts(p);
  }

  lemma {:induction false} UsedRun(p: Peer, inputs: seq<Input>, s: StreamId)
    requires Valid(p) && Decodable(inputs) && FeedAll(p, inputs).Handled?
    ensures IsPast(FeedAll(p, inputs).peer, s) <==> IsPast(p, s) || s in Used(p, inputs)
    decreases |inputs|
  {
    hide Valid, Feed, IsPast, Opens;
    if inputs != [] {
      FeedValid(p, inputs[0]);
      UsedStep(p, inputs[0], s);
      assert forall i :: 0 <= i < |inputs[1..]| ==> inputs[1..][i] == inputs[i + 1];
      UsedRun(Feed(p, inputs[0]).peer, inputs[1..], s);
    }
  }

  function Arrivals(inputs: seq<Input>): nat {
    if inputs == [] then 0 else (if inputs[0].Arrival? then 1 else 0) + Arrivals(inputs[1..])
  }

  function Writes(p: Peer, inputs: seq<Input>): nat
    requires FeedAll(p, inputs).Handled?
    decreases |inputs|
  {
    if inputs == [] then 0
    else (if inputs[0].WriteOne? && Flush(p).Some? then 1 else 0) + Writes(Feed(p, inputs[0]).peer, inputs[1..])
  }

  predicate SameSequences(p: Peer, q: Peer) {
    q.expectedSequence == p.expectedSequence && q.outgoingSequence == p.outgoingSequence
  }

  lemma CancelSequences(p: Peer, s: StreamId, lenient: bool)
    requires s in p.streams
    ensures SameSequences(p, CancelStream(p, s, lenient))
  {
    hide Purge, Retire;
    ClearFrame(p, s);
    var f := Forget(ClearReassembly(p, s), s);
    RetireFrame(f.(outbox := Purge(f.outbox, s)), s, lenient);
  }

  lemma ReleaseSequences(p: Peer, s: StreamId)
    requires s in p.streams
    ensures SameSequences(p, ReleaseStream(p, s))
  {
    hide Retire;
    RetireFrame(Forget(p, s), s, false);
  }

  lemma DataSequences(p: Peer, b: Body, env: Environment)
    requires b.IsData() && b.id in p.streams && HandleFrame(p, b, env).Handled?
    ensures SameSequences(p, HandleFrame(p, b, env).peer)
  {
    hide CancelStream, ClearReassembly;
    if b.Fragment? {
      ClearFrame(p, b.id);
    } else {
      var t := p.streams[b.id];
      CancelSequences(p.(streams := p.streams[b.id := t.(inCredit := t.inCredit - 1)]), b.id, true);
    }
  }

  lemma HandleSequences(p: Peer, b: Body, env: Environment)
    requires HandleFrame(p, b, env).Handled?
    ensures SameSequences(p, HandleFrame(p, b, env).peer)
  {
    hide CancelStream, ReleaseStream, HandleData, HandleFragment, Retire, AttributeMemory;
    if b.Open? {
      RetireFrame(p.(highestRemote := b.id), b.id, true);
      RetireFrame(p.(highestRemote := b.id), b.id, false);
    } else if b.id in p.streams {
      match b
      case Demand(_, _) =>
      case Complete(s) =>
        ReleaseSequences(p.(streams := p.streams[s := p.streams[s].(inClosed := true)], finished := p.finished + {s}), s);
      case Cancel(s) => CancelSequences(p, s, false);
      case Error(s, _) => CancelSequences(p, s, false);
      case _ => DataSequences(p, b, env);
    }
  }

  lemma CallSequences(p: Peer, input: Input)
    requires !input.WriteOne? && !input.Arrival?
    ensures SameSequences(p, Feed(p, input).peer)
  {
    hide CancelStream, ReleaseStream, Busy, AttributeMemory, FragmentPlan.Plan;
    match input
    case CallComplete(s) =>
      if s in p.streams {
        ReleaseSequences(p.(streams := p.streams[s := p.streams[s].(outClosed := true)],
                            outbox := p.outbox + [Complete(s)], completed := p.completed + {s}), s);
      }
    case CallCancel(s) => if s in p.streams { CancelSequences(p, s, true); }
    case CallFail(s, _) => if s in p.streams { CancelSequences(p, s, true); }
    case _ =>
  }

  lemma {:induction false} SequencesCount(p: Peer, inputs: seq<Input>)
    requires FeedAll(p, inputs).Handled?
    ensures var q := FeedAll(p, inputs).peer;
      && q.expectedSequence == p.expectedSequence + Arrivals(inputs)
      && q.outgoingSequence == p.outgoingSequence + Writes(p, inputs)
    decreases |inputs|
  {
    hide HandleFrame, Terminate, CompleteOut, Request, Send, OpenNext;
    if inputs != [] {
      match inputs[0] {
        case Arrival(packet, env) =>
          HandleSequences(p.(expectedSequence := p.expectedSequence + 1), packet.body, env);
        case WriteOne =>
        case _ => CallSequences(p, inputs[0]);
      }
      SequencesCount(Feed(p, inputs[0]).peer, inputs[1..]);
    }
  }

  /**
   * The state in which frames are judged, over every run: the ids in use are those of the streams opened so far,
   * the next frame is numbered by how many have come, and the counters are what the live streams hold.
   */
  lemma StateTells(cfg: Config, inputs: seq<Input>, s: StreamId)
    requires Reaches(cfg, inputs)
    ensures var p := After(cfg, inputs);
      && (IsPast(p, s) <==> s in Used(Initial(cfg), inputs))
      && p.expectedSequence == 1 + Arrivals(inputs) && p.outgoingSequence == 1 + Writes(Initial(cfg), inputs)
      && p.localActive == |Having(p.streams, true)| && p.remoteActive == |Having(p.streams, false)|
      && p.retainedBytes == Retained(p) && p.inFlight == Promised(p)
  {
    hide Valid, FeedAll, Used, Writes, Arrivals, Having, Retained, Promised;
    Reached(cfg, inputs);
    InitialValid(cfg);
    UsedRun(Initial(cfg), inputs, s);
    SequencesCount(Initial(cfg), inputs);
    CountersMean(After(cfg, inputs));
  }

  /** In every reachable state, exactly these frames of an arbitrary peer break the session. */
  lemma FrameJudged(cfg: Config, inputs: seq<Input>, packet: Packet, env: Environment)
    requires Reaches(cfg, inputs)
    ensures var p := After(cfg, inputs);
      var b := packet.body;
      match Receive(p, packet, env)
      case Violated(why) =>
        if packet.sequence != 1 + Arrivals(inputs) then why == UnexpectedSequence
        else if b.Open? then why == NonContiguousOpen && !Contiguous(p, b.id, false)
        else Fault(p, b) == Some(why)
      case Handled(q) =>
        && packet.sequence == 1 + Arrivals(inputs)
        && if b.Open? then Contiguous(p, b.id, false) else Fault(p, b).None?
  {
    hide Valid, FeedAll, Arrivals, Contiguous, HandleFrame, Fault;
    var p := After(cfg, inputs);
    Reached(cfg, inputs);
    SequencesCount(Initial(cfg), inputs);
    AdvanceReceived(p);
    var counted := p.(expectedSequence := p.expectedSequence + 1);
    if packet.body.Open? {
      Misplaced(counted, packet.body, env);
      SameNext(p, counted, packet.body.id);
    } else {
      FaultAt(counted, packet.body, env);
      SameFault(p, counted, packet.body);
    }
  }

  lemma Misplaced(p: Peer, b: Body, env: Environment)
    requires Valid(p) && b.Open?
    ensures HandleFrame(p, b, env) == Violated(NonContiguousOpen) <==> !Contiguous(p, b.id, false)
    ensures HandleFrame(p, b, env).Handled? <==> Contiguous(p, b.id, false)
  {
    hide Valid, RejectOpen, AttributeMemory, Contiguous;
    NextIds(p, b.id);
  }

  lemma SameNext(p: Peer, counted: Peer, s: StreamId)
    requires counted == p.(expectedSequence := counted.expectedSequence)
    ensures Contiguous(counted, s, false) <==> Contiguous(p, s, false)
  {
    SamePast(p, counted);
    hide IsPast;
  }

  lemma SameFault(p: Peer, counted: Peer, b: Body)
    requires counted == p.(expectedSequence := counted.expectedSequence) && !b.Open?
    ensures Fault(counted, b) == Fault(p, b)
  {
    SamePast(p, counted);
    hide IsPast, Named;
  }

  /**
   * In every reachable state, an OPEN with the next id either gives a live stream, when there is room for it and
   * the application takes it or its queue has a place, and nothing is written back; or there is exactly one
   * ERROR for it, with the acceptor's code or RESOURCE_EXHAUSTED, and no stream.
   */
  lemma OpenDecided(cfg: Config, inputs: seq<Input>, packet: Packet, env: Environment)
    requires Reaches(cfg, inputs) && packet.body.Open? && packet.sequence == 1 + Arrivals(inputs)
    requires Contiguous(After(cfg, inputs), packet.body.id, false)
    ensures var p := After(cfg, inputs);
      var Open(s, attributes) := packet.body;
      var room := HasRoom(p, attributes);
      && Receive(p, packet, env).Handled?
      && var q := Receive(p, packet, env).peer;
      if room && Taken(env.verdict) then
        s in q.streams && Fresh(q.streams[s], attributes, false) && q.streams - {s} == p.streams && q.outbox == p.outbox
      else
        && s !in q.streams && q.streams == p.streams
        && q.outbox == p.outbox + [Error(s, if room && env.verdict.AcceptorThrows? then env.verdict.code else Exhausted())]
  {
    hide Valid, FeedAll, Arrivals, Contiguous, HandleOpen, HasRoom, Exhausted, Fresh;
    var p := After(cfg, inputs);
    Reached(cfg, inputs);
    SequencesCount(Initial(cfg), inputs);
    AdvanceReceived(p);
    var counted := p.(expectedSequence := p.expectedSequence + 1);
    SameNext(p, counted, packet.body.id);
    SameRoom(p, counted, packet.body.attributes);
    OpenAt(counted, packet.body.id, packet.body.attributes, env);
  }
}
