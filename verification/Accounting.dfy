/**
 * What every session operation keeps: the four resource counters equal the sums over the stream map
 * they stand for and stay within their limits; tombstones are bounded, duplicate-free and disjoint
 * from the live streams; every known id is behind its frontier.
 */
module Accounting {
  import opened Bytes
  import opened Frames
  import opened StreamLink
  import opened Totals
  import opened Sessions

  datatype Measure = ReservedBytes | RetainedBytes | LocalCount | RemoteCount

  function Weigh(measure: Measure, t: Stream): nat {
    match measure
    case ReservedBytes => if t.partial.Partial? then t.partial.total else 0
    case RetainedBytes => t.retained
    case LocalCount => if t.local then 1 else 0
    case RemoteCount => if t.local then 0 else 1
  }

  function Weights(streams: map<StreamId, Stream>, measure: Measure): map<nat, nat> {
    map s | s in streams :: Weigh(measure, streams[s])
  }

  ghost function Total(streams: map<StreamId, Stream>, measure: Measure): nat {
    Sum(Weights(streams, measure))
  }

  predicate ConfigOk(cfg: Config) {
    && cfg.maxRetiredStreams > 0
    && cfg.maxInboundItemBytes <= cfg.maxInFlightReassemblyBytes
    && cfg.outbound.Valid()
  }

  predicate StreamOk(t: Stream, cap: Option<nat>) {
    && !(t.inClosed && t.outClosed)
    && (t.inClosed ==> t.partial.NoItem?)
    && (t.partial.Partial? ==> |t.partial.received| < t.partial.total)
    && Below(t.inCredit, cap)
  }

  predicate Distinct(q: seq<StreamId>) {
    forall i, j :: 0 <= i < j < |q| ==> q[i] != q[j]
  }

  /** Tombstones: duplicate-free, bounded, disjoint from the live streams, all behind the frontier. */
  ghost predicate TombstonesOk(p: Peer) {
    && Distinct(p.retiredOrder)
    && (forall s :: s in p.retired <==> s in p.retiredOrder)
    && |p.retiredOrder| <= p.cfg.maxRetiredStreams
    && (forall s :: s in p.retired ==> s !in p.streams && IsPast(p, s))
  }

  predicate LiveOk(p: Peer, s: StreamId)
    requires s in p.streams
  {
    && IsPast(p, s)
    && StreamOk(p.streams[s], p.cfg.creditCap)
    && (p.streams[s].local <==> s % 2 == LocalParity(p.cfg))
  }

  ghost predicate StreamsOk(p: Peer) {
    forall s :: s in p.streams ==> LiveOk(p, s)
  }

  /** The four counters are exact and within their limits, so no decrement is ever floored. */
  ghost predicate CountersOk(p: Peer) {
    && p.inFlight == Total(p.streams, ReservedBytes) <= p.cfg.maxInFlightReassemblyBytes
    && p.retainedBytes == Total(p.streams, RetainedBytes) <= p.cfg.maxRetainedStreamAttributeBytes
    && p.localActive == Total(p.streams, LocalCount) <= p.cfg.remoteMaxInboundStreams
    && p.remoteActive == Total(p.streams, RemoteCount) <= p.cfg.maxInboundStreams
  }

  ghost predicate FrontiersOk(p: Peer) {
    && ConfigOk(p.cfg)
    && p.nextStreamId > 0
    && p.nextStreamId % 2 == LocalParity(p.cfg)
    && (p.highestRemote == 0 || p.highestRemote % 2 != LocalParity(p.cfg))
  }

  /** Nothing is recorded of an unknown stream, and the records of a live one agree with its flags. */
  ghost predicate LedgerOk(p: Peer) {
    && (forall s :: s in p.sent ==> IsPast(p, s))
    && (forall s :: s in p.delivered ==> IsPast(p, s))
    && (forall s :: s in p.completed ==> IsPast(p, s))
    && (forall s :: s in p.finished ==> IsPast(p, s))
    && (forall s :: s in p.streams ==> FlagsOk(p, s))
  }

  predicate FlagsOk(p: Peer, s: StreamId)
    requires s in p.streams
  {
    && (p.streams[s].outClosed <==> s in p.completed)
    && (p.streams[s].inClosed <==> s in p.finished)
  }

  datatype Aspect = Frontiers | LiveStreams | Tombstones | Counters | Ledger

  ghost predicate Keeps(p: Peer, aspect: Aspect) {
    match aspect
    case Frontiers => FrontiersOk(p)
    case LiveStreams => StreamsOk(p)
    case Tombstones => TombstonesOk(p)
    case Counters => CountersOk(p)
    case Ledger => LedgerOk(p)
  }

  ghost predicate Valid(p: Peer) { forall aspect: Aspect :: Keeps(p, aspect) }

  lemma Aspects(p: Peer)
    ensures Valid(p) <==>
      && Keeps(p, Frontiers) && Keeps(p, LiveStreams)
      && Keeps(p, Tombstones) && Keeps(p, Counters) && Keeps(p, Ledger)
  {
    hide Keeps;
    if Valid(p) {
      assert Keeps(p, Frontiers) && Keeps(p, LiveStreams);
      assert Keeps(p, Tombstones) && Keeps(p, Counters) && Keeps(p, Ledger);
    } else {
      var aspect: Aspect :| !Keeps(p, aspect);
      match aspect
      case Frontiers =>
      case LiveStreams =>
      case Tombstones =>
      case Counters =>
      case Ledger =>
    }
  }

  function Initial(cfg: Config): Peer {
    Peer(cfg, map[], map[], [], if cfg.initiator then 1 else 2, 0, 1, 1, 0, 0, 0, 0, [], map[], map[], {}, {})
  }

  lemma LiveFacts(p: Peer, s: StreamId)
    requires Valid(p) && s in p.streams
    ensures LiveOk(p, s) && FlagsOk(p, s)
    ensures p.inFlight <= p.cfg.maxInFlightReassemblyBytes
  {
    Aspects(p);
    hide Valid, Total, Distinct, IsPast, StreamOk, ConfigOk;
    assert LiveOk(p, s) by { assert StreamsOk(p); }
    assert FlagsOk(p, s) by { assert LedgerOk(p); }
    assert CountersOk(p);
  }

  lemma FrontierFacts(p: Peer)
    requires Valid(p)
    ensures ConfigOk(p.cfg)
    ensures p.nextStreamId > 0 && p.nextStreamId % 2 == LocalParity(p.cfg)
    ensures p.highestRemote == 0 || p.highestRemote % 2 != LocalParity(p.cfg)
  {
    Aspects(p);
  }

  lemma CountersNonNegative(p: Peer)
    requires Valid(p)
    ensures p.localActive >= 0 && p.remoteActive >= 0 && p.retainedBytes >= 0 && p.inFlight >= 0
  {
    Aspects(p);
    hide Valid;
    assert CountersOk(p);
  }

  lemma InitialValid(cfg: Config)
    requires ConfigOk(cfg)
    ensures Valid(Initial(cfg))
  {
    forall m: Measure
      ensures Weights(map[], m) == map[]
    {
    }
    Aspects(Initial(cfg));
  }

  lemma TotalInsert(streams: map<StreamId, Stream>, s: StreamId, t: Stream, measure: Measure)
    requires s !in streams
    ensures Total(streams[s := t], measure) == Total(streams, measure) + Weigh(measure, t)
  {
    SumInsert(Weights(streams, measure), s, Weigh(measure, t));
    assert Weights(streams[s := t], measure) == Weights(streams, measure)[s := Weigh(measure, t)];
  }

  lemma TotalUpdate(streams: map<StreamId, Stream>, s: StreamId, t: Stream, measure: Measure)
    requires s in streams
    ensures Total(streams[s := t], measure) + Weigh(measure, streams[s]) == Total(streams, measure) + Weigh(measure, t)
  {
    SumUpdate(Weights(streams, measure), s, Weigh(measure, t));
    assert Weights(streams[s := t], measure) == Weights(streams, measure)[s := Weigh(measure, t)];
  }

  lemma TotalRemove(streams: map<StreamId, Stream>, s: StreamId, measure: Measure)
    requires s in streams
    ensures Total(streams, measure) == Weigh(measure, streams[s]) + Total(streams - {s}, measure)
  {
    SumRemove(Weights(streams, measure), s);
    assert Weights(streams - {s}, measure) == Weights(streams, measure) - {s};
  }

  // ---------------------------------------------------------------- replacing, forgetting, retiring

  lemma UpdateCounters(p: Peer, s: StreamId, t: Stream, inFlight: int)
    requires Keeps(p, Counters) && s in p.streams
    requires t.local == p.streams[s].local && t.retained == p.streams[s].retained
    requires inFlight == p.inFlight - Weigh(ReservedBytes, p.streams[s]) + Weigh(ReservedBytes, t)
    requires inFlight <= p.cfg.maxInFlightReassemblyBytes
    ensures Keeps(p.(streams := p.streams[s := t], inFlight := inFlight), Counters)
  {
    hide Total;
    TotalUpdate(p.streams, s, t, ReservedBytes);
    TotalUpdate(p.streams, s, t, RetainedBytes);
    TotalUpdate(p.streams, s, t, LocalCount);
    TotalUpdate(p.streams, s, t, RemoteCount);
  }

  predicate SameFrontiers(p: Peer, q: Peer) {
    (p.cfg, p.nextStreamId, p.highestRemote) == (q.cfg, q.nextStreamId, q.highestRemote)
  }

  /** `IsPast` depends on the frontiers only. */
  lemma SamePast(p: Peer, q: Peer)
    requires SameFrontiers(p, q)
    ensures forall s :: IsPast(p, s) == IsPast(q, s)
  {
  }

  lemma TombstonesFrame(p: Peer, q: Peer)
    requires Keeps(p, Tombstones) && SameFrontiers(p, q)
    requires q.retired == p.retired && q.retiredOrder == p.retiredOrder && q.streams.Keys <= p.streams.Keys
    ensures Keeps(q, Tombstones)
  {
  }

  lemma StreamsFrame(p: Peer, q: Peer)
    requires Keeps(p, LiveStreams) && SameFrontiers(p, q)
    requires forall s :: s in q.streams ==>
      s in p.streams && q.streams[s] == p.streams[s]
    ensures Keeps(q, LiveStreams)
  {
    hide StreamOk;
    forall s | s in q.streams
      ensures LiveOk(q, s)
    {
      assert LiveOk(p, s);
    }
  }

  lemma StreamsUpdate(p: Peer, q: Peer, s: StreamId, t: Stream)
    requires Keeps(p, LiveStreams) && SameFrontiers(p, q) && s in p.streams
    requires q.streams == p.streams[s := t] && StreamOk(t, p.cfg.creditCap) && t.local == p.streams[s].local
    ensures Keeps(q, LiveStreams)
  {
    hide StreamOk;
    forall k | k in q.streams
      ensures LiveOk(q, k)
    {
      assert LiveOk(p, k);
      if k != s {
        assert q.streams[k] == p.streams[k];
      }
    }
  }

  lemma FrontiersFrame(p: Peer, q: Peer)
    requires Keeps(p, Frontiers) && SameFrontiers(p, q)
    ensures Keeps(q, Frontiers)
  {
  }

  predicate SameLedger(p: Peer, q: Peer) {
    (p.sent, p.delivered, p.completed, p.finished) == (q.sent, q.delivered, q.completed, q.finished)
  }

  predicate SameFlags(t: Stream, u: Stream) { t.inClosed == u.inClosed && t.outClosed == u.outClosed }

  lemma CountersFrame(p: Peer, q: Peer)
    requires Keeps(p, Counters)
    requires (p.cfg, p.streams, p.inFlight, p.localActive, p.remoteActive, p.retainedBytes)
          == (q.cfg, q.streams, q.inFlight, q.localActive, q.remoteActive, q.retainedBytes)
    ensures Keeps(q, Counters)
  {
    hide Total;
  }

  lemma LedgerFrame(p: Peer, q: Peer)
    requires Keeps(p, Ledger) && SameFrontiers(p, q) && SameLedger(p, q)
    requires forall s :: s in q.streams ==>
      s in p.streams && SameFlags(p.streams[s], q.streams[s])
    ensures Keeps(q, Ledger)
  {
    SamePast(p, q);
    hide IsPast;
    forall s | s in q.streams
      ensures FlagsOk(q, s)
    {
      assert FlagsOk(p, s);
    }
  }

  /** Replacing one live stream's record by another with the same identity. */
  lemma UpdateValid(p: Peer, s: StreamId, t: Stream, inFlight: int)
    requires Valid(p) && s in p.streams && StreamOk(t, p.cfg.creditCap)
    requires t.local == p.streams[s].local && t.retained == p.streams[s].retained && SameFlags(p.streams[s], t)
    requires inFlight == p.inFlight - Weigh(ReservedBytes, p.streams[s]) + Weigh(ReservedBytes, t)
    requires inFlight <= p.cfg.maxInFlightReassemblyBytes
    ensures Valid(p.(streams := p.streams[s := t], inFlight := inFlight))
  {
    hide Keeps, Valid, StreamOk, LiveOk, IsPast;
    var q := p.(streams := p.streams[s := t], inFlight := inFlight);
    assert q.streams.Keys == p.streams.Keys;
    Aspects(p);
    Aspects(q);
    UpdateCounters(p, s, t, inFlight);
    LedgerFrame(p, q);
    TombstonesFrame(p, q);
    FrontiersFrame(p, q);
    StreamsUpdate(p, q, s, t);
  }

  lemma ForgetCounters(p: Peer, s: StreamId)
    requires Keeps(p, Counters) && s in p.streams && p.streams[s].partial.NoItem?
    ensures Keeps(Forget(p, s), Counters)
  {
    hide Total;
    TotalRemove(p.streams, s, ReservedBytes);
    TotalRemove(p.streams, s, RetainedBytes);
    TotalRemove(p.streams, s, LocalCount);
    TotalRemove(p.streams, s, RemoteCount);
  }

  lemma ForgetValid(p: Peer, s: StreamId)
    requires Valid(p) && s in p.streams && p.streams[s].partial.NoItem?
    ensures Valid(Forget(p, s)) && s !in Forget(p, s).streams && IsPast(Forget(p, s), s)
  {
    LiveFacts(p, s);
    hide Keeps, Valid, StreamOk;
    var q := Forget(p, s);
    ForgetFrame(p, s);
    SamePast(p, q);
    hide IsPast, LiveOk, Forget;
    Aspects(p);
    Aspects(q);
    ForgetCounters(p, s);
    LedgerFrame(p, q);
    TombstonesFrame(p, q);
    FrontiersFrame(p, q);
    StreamsFrame(p, q);
  }

  lemma OrderKept(order: seq<StreamId>, s: StreamId)
    requires Distinct(order) && s !in order
    ensures Distinct(order + [s]) && Distinct((order + [s])[1..])
    ensures forall k :: k in order + [s] <==> k in order || k == s
    ensures forall k :: k in (order + [s])[1..] <==> (k in order || k == s) && k != (order + [s])[0]
  {
    var all := order + [s];
    assert all == [all[0]] + all[1..];
    assert forall i :: 0 <= i < |all[1..]| ==> all[1..][i] == all[i + 1];
    var rest := all[1..];
    hide *;
    assert all[0] !in rest;
    assert forall k :: k in all <==> k == all[0] || k in rest;
  }

  lemma RetireTombstones(p: Peer, s: StreamId, lenient: bool)
    requires Keeps(p, Tombstones) && p.cfg.maxRetiredStreams > 0 && s !in p.streams && IsPast(p, s)
    ensures Keeps(Retire(p, s, lenient), Tombstones)
  {
    if s !in p.retired {
      var q := Retire(p, s, lenient);
      RetireFrame(p, s, lenient);
      RetiredKeys(p, s, lenient);
      hide Distinct, IsPast, Retire;
      OrderKept(p.retiredOrder, s);
      SamePast(p, q);
      assert forall k :: k in q.retired <==> k in q.retiredOrder;
      assert forall k :: k in q.retired ==> k in p.retired || k == s;
    }
  }

  lemma RetiredKeys(p: Peer, s: StreamId, lenient: bool)
    requires s !in p.retired
    ensures var q := Retire(p, s, lenient);
      var order := p.retiredOrder + [s];
      && q.streams == p.streams
      && (forall k :: k in q.retired <==>
            (k in p.retired || k == s) && (|order| > p.cfg.maxRetiredStreams ==> k != order[0]))
      && q.retiredOrder == if |order| > p.cfg.maxRetiredStreams then order[1..] else order
  {
  }

  lemma RetireFrame(p: Peer, s: StreamId, lenient: bool)
    ensures var q := Retire(p, s, lenient);
      q == p.(retired := q.retired, retiredOrder := q.retiredOrder)
  {
  }

  lemma RetireValid(p: Peer, s: StreamId, lenient: bool)
    requires Valid(p) && s !in p.streams && IsPast(p, s)
    ensures Valid(Retire(p, s, lenient))
  {
    var q := Retire(p, s, lenient);
    RetireFrame(p, s, lenient);
    FrontierFacts(p);
    hide Keeps, Valid, Retire, IsPast;
    Aspects(p);
    Aspects(q);
    CountersFrame(p, q);
    RetireTombstones(p, s, lenient);
    LedgerFrame(p, q);
    FrontiersFrame(p, q);
    StreamsFrame(p, q);
  }

  lemma ClearValid(p: Peer, s: StreamId)
    requires Valid(p) && s in p.streams
    ensures Valid(ClearReassembly(p, s))
    ensures s in ClearReassembly(p, s).streams && ClearReassembly(p, s).streams[s] == p.streams[s].(partial := NoItem)
  {
    var t := p.streams[s];
    if t.partial.Partial? {
      LiveFacts(p, s);
      Aspects(p);
      hide Valid, Total, LiveOk;
      TotalAtLeast(p.streams, s, ReservedBytes);
      UpdateValid(p, s, t.(partial := NoItem), p.inFlight - Weigh(ReservedBytes, t));
    }
  }

  lemma OutboxValid(p: Peer, outbox: seq<Body>)
    requires Valid(p)
    ensures Valid(p.(outbox := outbox))
  {
    hide Keeps, Valid;
    var q := p.(outbox := outbox);
    Aspects(p);
    Aspects(q);
    CountersFrame(p, q);
    StreamsFrame(p, q);
    TombstonesFrame(p, q);
    FrontiersFrame(p, q);
    LedgerFrame(p, q);
  }

  lemma CancelValid(p: Peer, s: StreamId, lenient: bool)
    requires Valid(p) && s in p.streams
    ensures Valid(CancelStream(p, s, lenient))
  {
    hide Valid, ClearReassembly, Forget, Retire, IsPast;
    ClearValid(p, s);
    var q := Forget(ClearReassembly(p, s), s);
    ForgetValid(ClearReassembly(p, s), s);
    OutboxValid(q, Purge(q.outbox, s));
    SamePast(q, q.(outbox := Purge(q.outbox, s)));
    RetireValid(q.(outbox := Purge(q.outbox, s)), s, lenient);
  }

  lemma TotalAtLeast(streams: map<StreamId, Stream>, s: StreamId, measure: Measure)
    requires s in streams
    ensures Weigh(measure, streams[s]) <= Total(streams, measure)
  {
    SumAtLeast(Weights(streams, measure), s);
  }

  // ---------------------------------------------------------------- each operation

  lemma ForgetIgnoresFlags(p: Peer, s: StreamId, t: Stream, outbox: seq<Body>,
                           completed: set<StreamId>, finished: set<StreamId>)
    requires s in p.streams && t.local == p.streams[s].local && t.retained == p.streams[s].retained
    ensures Forget(p.(streams := p.streams[s := t], outbox := outbox, completed := completed, finished := finished), s)
         == Forget(p, s).(outbox := outbox, completed := completed, finished := finished)
  {
    assert p.streams[s := t] - {s} == p.streams - {s};
  }

  lemma LedgerMark(p: Peer, q: Peer, s: StreamId)
    requires Keeps(p, Ledger) && SameFrontiers(p, q) && IsPast(p, s)
    requires q.sent.Keys <= p.sent.Keys + {s} && q.delivered.Keys <= p.delivered.Keys + {s}
    requires p.completed <= q.completed <= p.completed + {s} && p.finished <= q.finished <= p.finished + {s}
    requires q.streams.Keys <= p.streams.Keys + {s}
    requires forall k :: k in q.streams && k != s ==> (k in p.streams && q.streams[k] == p.streams[k])
    requires s in q.streams ==> FlagsOk(q, s)
    ensures Keeps(q, Ledger)
  {
    SamePast(p, q);
    hide IsPast;
    forall k | k in q.streams
      ensures FlagsOk(q, k)
    {
      assert k != s ==> FlagsOk(p, k);
    }
  }

  lemma MarkValid(p: Peer, s: StreamId, outbox: seq<Body>, completed: set<StreamId>, finished: set<StreamId>)
    requires Valid(p) && s !in p.streams && IsPast(p, s)
    requires p.completed <= completed <= p.completed + {s} && p.finished <= finished <= p.finished + {s}
    ensures Valid(p.(outbox := outbox, completed := completed, finished := finished))
  {
    hide Keeps, Valid, IsPast;
    var q := p.(outbox := outbox, completed := completed, finished := finished);
    Aspects(p);
    Aspects(q);
    CountersFrame(p, q);
    StreamsFrame(p, q);
    TombstonesFrame(p, q);
    FrontiersFrame(p, q);
    LedgerMark(p, q, s);
  }

  lemma FlagsValid(p: Peer, s: StreamId, t: Stream, outbox: seq<Body>, completed: set<StreamId>, finished: set<StreamId>)
    requires Valid(p) && s in p.streams && StreamOk(t, p.cfg.creditCap)
    requires t == p.streams[s].(inClosed := t.inClosed, outClosed := t.outClosed)
    requires p.completed <= completed <= p.completed + {s} && p.finished <= finished <= p.finished + {s}
    requires (s in completed <==> t.outClosed) && (s in finished <==> t.inClosed)
    ensures Valid(p.(streams := p.streams[s := t], outbox := outbox, completed := completed, finished := finished))
  {
    LiveFacts(p, s);
    hide Keeps, Valid, LiveOk;
    var q := p.(streams := p.streams[s := t], outbox := outbox, completed := completed, finished := finished);
    Aspects(p);
    Aspects(q);
    assert q.streams.Keys == p.streams.Keys;
    FlagsCounters(p, s, t, outbox, completed, finished);
    StreamsUpdate(p, q, s, t);
    TombstonesFrame(p, q);
    FrontiersFrame(p, q);
    LedgerMark(p, q, s);
  }

  lemma FlagsCounters(p: Peer, s: StreamId, t: Stream, outbox: seq<Body>, completed: set<StreamId>, finished: set<StreamId>)
    requires Keeps(p, Counters) && s in p.streams
    requires t == p.streams[s].(inClosed := t.inClosed, outClosed := t.outClosed)
    ensures Keeps(p.(streams := p.streams[s := t], outbox := outbox, completed := completed, finished := finished), Counters)
  {
    UpdateCounters(p, s, t, p.inFlight);
  }

  /** Setting one of the two closed flags, and retiring the stream when that was the second. */
  lemma CloseValid(p: Peer, s: StreamId, t: Stream, outbox: seq<Body>, completed: set<StreamId>, finished: set<StreamId>)
    requires Valid(p) && s in p.streams
    requires t == p.streams[s].(inClosed := t.inClosed, outClosed := t.outClosed)
    requires t.inClosed ==> t.partial.NoItem?
    requires p.completed <= completed <= p.completed + {s} && p.finished <= finished <= p.finished + {s}
    requires (s in completed <==> t.outClosed) && (s in finished <==> t.inClosed)
    ensures Valid(ReleaseStream(p.(streams := p.streams[s := t], outbox := outbox,
                                   completed := completed, finished := finished), s))
  {
    LiveFacts(p, s);
    hide Valid, Forget, Retire, IsPast, LiveOk;
    if t.inClosed && t.outClosed {
      ForgetIgnoresFlags(p, s, t, outbox, completed, finished);
      ForgetValid(p, s);
      var q := Forget(p, s);
      ForgetFrame(p, s);
      MarkValid(q, s, outbox, completed, finished);
      var marked := q.(outbox := outbox, completed := completed, finished := finished);
      SamePast(q, marked);
      RetireValid(marked, s, false);
    } else {
      FlagsValid(p, s, t, outbox, completed, finished);
    }
  }

  lemma ForgetFrame(p: Peer, s: StreamId)
    ensures SameLedger(p, Forget(p, s)) && SameFrontiers(p, Forget(p, s))
    ensures var q := Forget(p, s);
      q.streams == p.streams - {s} && q.outbox == p.outbox
      && q.retired == p.retired && q.retiredOrder == p.retiredOrder
  {
  }

  lemma LiveIsPast(p: Peer)
    requires Valid(p)
    ensures forall s :: s in p.streams ==> IsPast(p, s)
  {
    Aspects(p);
    hide Valid, IsPast;
    forall s | s in p.streams
      ensures IsPast(p, s)
    {
      assert LiveOk(p, s);
    }
  }

  /** The next local id is new, and neither live nor retired. */
  lemma NextLocalIsNew(p: Peer)
    requires Valid(p)
    ensures var s := p.nextStreamId;
      && s % 2 == LocalParity(p.cfg)
      && s !in p.streams && s !in p.retired && s !in p.completed && s !in p.finished
      && IsPast(p.(nextStreamId := s + 2), s)
  {
    Aspects(p);
    LiveIsPast(p);
    assert !IsPast(p, p.nextStreamId);
  }

  lemma OpenValid(p: Peer, attributes: seq<Attribute>, written: bool)
    requires Valid(p)
    ensures Valid(OpenNext(p, attributes, written))
  {
    NextLocalIsNew(p);
    FrontierFacts(p);
    var s := p.nextStreamId;
    var q := p.(nextStreamId := s + 2, outbox := p.outbox + [Open(s, attributes)]);
    AdvanceValid(p, q);
    hide Valid, IsPast, AttributeMemory;
    if MayOpen(p, attributes) && written {
      InsertValid(q, s, NewStream(attributes, true));
      assert OpenNext(p, attributes, written)
          == q.(streams := q.streams[s := NewStream(attributes, true)], localActive := q.localActive + 1,
                remoteActive := q.remoteActive + 0, retainedBytes := q.retainedBytes + AttributeMemory(attributes));
    }
  }

  /** Moving a frontier forward keeps everything behind it. */
  lemma AdvanceValid(p: Peer, q: Peer)
    requires Valid(p)
    requires q == p.(nextStreamId := q.nextStreamId, highestRemote := q.highestRemote, outbox := q.outbox,
                     expectedSequence := q.expectedSequence, outgoingSequence := q.outgoingSequence)
    requires p.nextStreamId <= q.nextStreamId && p.highestRemote <= q.highestRemote
    requires q.nextStreamId % 2 == LocalParity(p.cfg)
    requires q.highestRemote == 0 || q.highestRemote % 2 != LocalParity(p.cfg)
    ensures Valid(q)
  {
    Aspects(p);
    Aspects(q);
    hide Valid, Total, StreamOk;
    assert forall s :: IsPast(p, s) ==> IsPast(q, s);
    forall s | s in q.streams
      ensures LiveOk(q, s)
    {
      assert LiveOk(p, s);
    }
    forall s | s in q.streams
      ensures FlagsOk(q, s)
    {
      assert FlagsOk(p, s);
    }
    assert LedgerOk(q);
    assert StreamsOk(q) && CountersOk(q) && FrontiersOk(q) && TombstonesOk(q);
  }

  lemma InsertCounters(p: Peer, s: StreamId, t: Stream)
    requires Keeps(p, Counters) && s !in p.streams && t.partial.NoItem?
    requires p.retainedBytes + t.retained <= p.cfg.maxRetainedStreamAttributeBytes
    requires if t.local then p.localActive < p.cfg.remoteMaxInboundStreams else p.remoteActive < p.cfg.maxInboundStreams
    ensures Keeps(p.(streams := p.streams[s := t],
                          localActive := p.localActive + (if t.local then 1 else 0),
                          remoteActive := p.remoteActive + (if t.local then 0 else 1),
                          retainedBytes := p.retainedBytes + t.retained), Counters)
  {
    hide Total;
    TotalInsert(p.streams, s, t, ReservedBytes);
    TotalInsert(p.streams, s, t, RetainedBytes);
    TotalInsert(p.streams, s, t, LocalCount);
    TotalInsert(p.streams, s, t, RemoteCount);
  }

  lemma InsertValid(p: Peer, s: StreamId, t: Stream)
    requires Valid(p) && s !in p.streams && s !in p.retired && IsPast(p, s)
    requires StreamOk(t, p.cfg.creditCap) && t.partial.NoItem? && !t.inClosed && !t.outClosed && s !in p.completed && s !in p.finished && (t.local <==> s % 2 == LocalParity(p.cfg))
    requires p.retainedBytes + t.retained <= p.cfg.maxRetainedStreamAttributeBytes
    requires if t.local then p.localActive < p.cfg.remoteMaxInboundStreams else p.remoteActive < p.cfg.maxInboundStreams
    ensures Valid(p.(streams := p.streams[s := t],
                     localActive := p.localActive + (if t.local then 1 else 0),
                     remoteActive := p.remoteActive + (if t.local then 0 else 1),
                     retainedBytes := p.retainedBytes + t.retained))
  {
    hide Keeps, Valid, IsPast, StreamOk;
    var q := p.(streams := p.streams[s := t],
                localActive := p.localActive + (if t.local then 1 else 0),
                remoteActive := p.remoteActive + (if t.local then 0 else 1),
                retainedBytes := p.retainedBytes + t.retained);
    Aspects(p);
    Aspects(q);
    InsertCounters(p, s, t);
    FrontiersFrame(p, q);
    TombstonesInsert(p, q, s);
    StreamsInsert(p, q, s, t);
    LedgerMark(p, q, s);
  }

  lemma TombstonesInsert(p: Peer, q: Peer, s: StreamId)
    requires Keeps(p, Tombstones) && SameFrontiers(p, q) && s !in p.retired
    requires q.retired == p.retired && q.retiredOrder == p.retiredOrder && q.streams.Keys == p.streams.Keys + {s}
    ensures Keeps(q, Tombstones)
  {
    SamePast(p, q);
    hide IsPast, Distinct;
  }

  lemma StreamsInsert(p: Peer, q: Peer, s: StreamId, t: Stream)
    requires Keeps(p, LiveStreams) && SameFrontiers(p, q) && IsPast(p, s)
    requires q.streams == p.streams[s := t] && StreamOk(t, p.cfg.creditCap) && (t.local <==> s % 2 == LocalParity(p.cfg))
    ensures Keeps(q, LiveStreams)
  {
    hide StreamOk;
    forall k | k in q.streams
      ensures LiveOk(q, k)
    {
      if k != s { assert LiveOk(p, k); }
    }
  }

  lemma RequestValid(p: Peer, s: StreamId, n: int)
    requires Valid(p)
    ensures Valid(Request(p, s, n))
  {
    if 1 <= n <= MAX_CREDIT && s in p.streams && !p.streams[s].inClosed {
      LiveFacts(p, s);
      hide Valid, LiveOk, IsPast;
      var t := p.streams[s];
      UpdateValid(p, s, t.(inCredit := AddCredit(p.cfg.creditCap, t.inCredit, n)), p.inFlight);
      OutboxValid(p.(streams := p.streams[s := t.(inCredit := AddCredit(p.cfg.creditCap, t.inCredit, n))], inFlight := p.inFlight),
                  p.outbox + [Demand(s, n)]);
    }
  }

  /** Recording an item on a stream whose id is already known. */
  lemma LogValid(p: Peer, s: StreamId, sent: map<StreamId, seq<Item>>, delivered: map<StreamId, seq<Item>>)
    requires Valid(p) && IsPast(p, s)
    requires sent.Keys <= p.sent.Keys + {s} && delivered.Keys <= p.delivered.Keys + {s}
    ensures Valid(p.(sent := sent, delivered := delivered))
  {
    if s in p.streams {
      LiveFacts(p, s);
    }
    hide Keeps, Valid, IsPast;
    var q := p.(sent := sent, delivered := delivered);
    Aspects(p);
    Aspects(q);
    CountersFrame(p, q);
    StreamsFrame(p, q);
    TombstonesFrame(p, q);
    FrontiersFrame(p, q);
    LedgerMark(p, q, s);
  }

  lemma SendValid(p: Peer, s: StreamId, item: Item)
    requires Valid(p)
    ensures Valid(Send(p, s, item))
  {
    if MaySend(p, s) {
      var t := p.streams[s];
      var u := t.(outCredit := t.outCredit - 1);
      LiveFacts(p, s);
      assert StreamOk(u, p.cfg.creditCap);
      assert IsPast(p, s);
      hide Valid, LiveOk, StreamOk, IsPast, FragmentPlan.Plan;
      UpdateValid(p, s, u, p.inFlight);
      var q := p.(streams := p.streams[s := u], inFlight := p.inFlight);
      assert IsPast(q, s) by { SamePast(p, q); }
      var sent := p.sent[s := Log(p.sent, s) + [item]];
      LogValid(q, s, sent, p.delivered);
      OutboxValid(q.(sent := sent, delivered := p.delivered), Send(p, s, item).outbox);
      assert Send(p, s, item) == p
          || Send(p, s, item) == q.(sent := sent, delivered := p.delivered).(outbox := Send(p, s, item).outbox);
    }
  }

  lemma CompleteValid(p: Peer, s: StreamId)
    requires Valid(p)
    ensures Valid(CompleteOut(p, s))
  {
    if s in p.streams && !p.streams[s].outClosed && !Busy(p.outbox, s) {
      LiveFacts(p, s);
      var t := p.streams[s].(outClosed := true);
      hide Valid, LiveOk, ReleaseStream;
      CloseValid(p, s, t, p.outbox + [Complete(s)], p.completed + {s}, p.finished);
      assert p.(streams := p.streams[s := t], outbox := p.outbox + [Complete(s)],
                completed := p.completed + {s}, finished := p.finished)
          == p.(streams := p.streams[s := t], outbox := p.outbox + [Complete(s)], completed := p.completed + {s});
    }
  }

  lemma TerminateValid(p: Peer, s: StreamId, last: Body)
    requires Valid(p)
    ensures Valid(Terminate(p, s, last))
  {
    if s in p.streams {
      hide Valid, CancelStream;
      CancelValid(p, s, true);
      var q := CancelStream(p, s, true);
      OutboxValid(q, q.outbox + [last]);
    }
  }

  lemma FlushValid(p: Peer)
    requires Valid(p) && Flush(p).Some?
    ensures Valid(Flush(p).value.0)
  {
    FrontierFacts(p);
    AdvanceValid(p, Flush(p).value.0);
  }

  lemma DataValid(p: Peer, b: Body, env: Environment)
    requires Valid(p) && (b.Data? || b.First?) && b.id in p.streams
    requires b.First? ==> |b.payload| < b.total
    requires HandleData(p, b, env).Handled?
    ensures Valid(HandleData(p, b, env).peer)
  {
    var s := b.id;
    var t := p.streams[s];
    var spent := t.(inCredit := t.inCredit - 1);
    var q := p.(streams := p.streams[s := spent]);
    LiveFacts(p, s);
    assert IsPast(p, s) && StreamOk(spent, p.cfg.creditCap);
    hide Valid, LiveOk, Terminate, IsPast;
    assert q == p.(streams := p.streams[s := spent], inFlight := p.inFlight);
    UpdateValid(p, s, spent, p.inFlight);
    if b.Data? {
      assert IsPast(q, s) by { SamePast(p, q); }
      LogValid(q, s, q.sent, q.delivered[s := Log(p.delivered, s) + [Item(b.payload, b.attributes)]]);
    } else {
      FirstValid(q, b, env);
    }
  }

  lemma FirstValid(q: Peer, b: Body, env: Environment)
    requires Valid(q) && b.First? && b.id in q.streams && |b.payload| < b.total
    requires q.streams[b.id].partial.NoItem? && !q.streams[b.id].inClosed
    ensures Valid(Terminate(q, b.id, Error(b.id, Exhausted())))
    ensures q.inFlight + b.total <= q.cfg.maxInFlightReassemblyBytes ==>
      Valid(q.(streams := q.streams[b.id := q.streams[b.id].(partial := Partial(b.payload, b.total, b.attributes))],
               inFlight := q.inFlight + b.total))
  {
    LiveFacts(q, b.id);
    hide Valid, LiveOk, Terminate, IsPast;
    TerminateValid(q, b.id, Error(b.id, Exhausted()));
    if q.inFlight + b.total <= q.cfg.maxInFlightReassemblyBytes {
      UpdateValid(q, b.id, q.streams[b.id].(partial := Partial(b.payload, b.total, b.attributes)), q.inFlight + b.total);
    }
  }

  lemma FragmentValid(p: Peer, b: Body)
    requires Valid(p) && b.Fragment? && b.id in p.streams
    requires HandleFragment(p, b).Handled?
    ensures Valid(HandleFragment(p, b).peer)
  {
    var s := b.id;
    var t := p.streams[s];
    LiveFacts(p, s);
    Aspects(p);
    assert p.inFlight <= p.cfg.maxInFlightReassemblyBytes;
    hide Valid, LiveOk, IsPast, ClearReassembly;
    var received := t.partial.received + b.payload;
    if |received| < t.partial.total {
      UpdateValid(p, s, t.(partial := t.partial.(received := received)), p.inFlight);
    } else {
      ClearValid(p, s);
      var q := ClearReassembly(p, s);
      ClearFrame(p, s);
      SamePast(p, q);
      LogValid(q, s, q.sent, q.delivered[s := Log(q.delivered, s) + [Item(received, t.partial.attributes)]]);
    }
  }

  lemma ClearFrame(p: Peer, s: StreamId)
    requires s in p.streams
    ensures var q := ClearReassembly(p, s); q == p.(streams := q.streams, inFlight := q.inFlight)
  {
  }

  lemma RejectValid(p: Peer, s: StreamId, lenient: bool, code: Option<bytes>)
    requires Valid(p) && s !in p.streams && IsPast(p, s)
    ensures Valid(RejectOpen(p, s, lenient, code))
  {
    hide Valid, IsPast, Retire;
    RetireValid(p, s, lenient);
    OutboxValid(Retire(p, s, lenient), Retire(p, s, lenient).outbox + [Error(s, code)]);
  }

  /** The next remote id is new, has the remote parity, and is neither live nor retired. */
  lemma NextRemoteIsNew(p: Peer)
    requires Valid(p)
    ensures var s := ExpectedRemote(p);
      && s > p.highestRemote && s % 2 != LocalParity(p.cfg)
      && !IsPast(p, s) && s !in p.streams && s !in p.retired && s !in p.completed && s !in p.finished
      && IsPast(p.(highestRemote := s), s)
  {
    Aspects(p);
    LiveIsPast(p);
    assert !IsPast(p, ExpectedRemote(p));
  }

  lemma OpenedValid(p: Peer, s: StreamId, attributes: seq<Attribute>, env: Environment)
    requires Valid(p) && HandleOpen(p, s, attributes, env).Handled?
    ensures Valid(HandleOpen(p, s, attributes, env).peer)
  {
    var q := p.(highestRemote := s);
    NextRemoteIsNew(p);
    FrontierFacts(p);
    AdvanceValid(p, q);
    hide Valid, IsPast, RejectOpen, AttributeMemory;
    RejectValid(q, s, false, Exhausted());
    if env.verdict.AcceptorThrows? {
      RejectValid(q, s, true, env.verdict.code);
    }
    var t := NewStream(attributes, false);
    if p.remoteActive < p.cfg.maxInboundStreams && p.retainedBytes + t.retained <= p.cfg.maxRetainedStreamAttributeBytes {
      InsertValid(q, s, t);
      assert q.localActive + 0 == q.localActive;
    }
  }

  /** A first slice is shorter than the item it announces: the frame decoder refuses any other. */
  predicate WellShaped(b: Body) { b.First? ==> |b.payload| < b.total }

  lemma HandleFrameValid(p: Peer, b: Body, env: Environment)
    requires Valid(p) && WellShaped(b) && HandleFrame(p, b, env).Handled?
    ensures Valid(HandleFrame(p, b, env).peer)
  {
    if b.Open? {
      OpenedValid(p, b.id, b.attributes, env);
    } else if b.id in p.streams {
      var s := b.id;
      var t := p.streams[s];
      LiveFacts(p, s);
      hide Valid, LiveOk, HandleData, HandleFragment, CancelStream, ReleaseStream;
      match b {
        case Data(_, _, _) => DataValid(p, b, env);
        case First(_, _, _, _) => DataValid(p, b, env);
        case Fragment(_, _) => FragmentValid(p, b);
        case Demand(_, n) =>
          UpdateValid(p, s, t.(outCredit := AddCredit(p.cfg.creditCap, t.outCredit, n)), p.inFlight);
        case Complete(_) =>
          CloseValid(p, s, t.(inClosed := true), p.outbox, p.completed, p.finished + {s});
          assert p.(streams := p.streams[s := t.(inClosed := true)], outbox := p.outbox,
                    completed := p.completed, finished := p.finished + {s})
              == p.(streams := p.streams[s := t.(inClosed := true)], finished := p.finished + {s});
        case Cancel(_) => CancelValid(p, s, false);
        case Error(_, _) => CancelValid(p, s, false);
      }
    }
  }

  lemma AdvanceReceived(p: Peer)
    requires Valid(p)
    ensures Valid(p.(expectedSequence := p.expectedSequence + 1))
  {
    FrontierFacts(p);
    AdvanceValid(p, p.(expectedSequence := p.expectedSequence + 1));
  }

  /** Whatever frame arrives, an accepted one leaves the session's accounts exact. */
  lemma ReceiveValid(p: Peer, packet: Packet, env: Environment)
    requires Valid(p) && WellShaped(packet.body) && Receive(p, packet, env).Handled?
    ensures Valid(Receive(p, packet, env).peer)
  {
    var q := p.(expectedSequence := p.expectedSequence + 1);
    AdvanceReceived(p);
    hide Valid, HandleFrame;
    HandleFrameValid(q, packet.body, env);
  }
}
