/** The effect of each session operation on the view of the stream it acts on. */
module Effects {
  import opened Bytes
  import opened Frames
  import opened StreamLink
  import opened Sessions
  import opened Accounting
  import opened Views
  import FragmentPlan

  /** Nothing moved but stream `s` and the outbox, which lost or gained frames of that stream only. */
  ghost predicate Moved(p: Peer, q: Peer, s: StreamId, purge: bool, frames: seq<Body>) {
    && (q.cfg, q.nextStreamId, q.highestRemote, q.outgoingSequence, q.expectedSequence)
       == (p.cfg, p.nextStreamId, p.highestRemote, p.outgoingSequence, p.expectedSequence)
    && q.outbox == Queued(p.outbox, s, purge, frames)
    && OthersKept(p, q, s)
  }

  lemma KeptTrans(p: Peer, q: Peer, r: Peer, s: StreamId)
    requires OthersKept(p, q, s) && OthersKept(q, r, s)
    ensures OthersKept(p, r, s)
  {
    forall k: StreamId | k != s
      ensures Kept(p, r, k)
    {
      assert Kept(p, q, k) && Kept(q, r, k);
    }
  }

  lemma RetireView(p: Peer, s: StreamId, lenient: bool)
    requires Valid(p) && s !in p.streams && s !in p.retired && IsPast(p, s)
    ensures var q := Retire(p, s, lenient);
      && OthersKept(p, q, s)
      && TxOf(q, s) == TxOf(p, s)
      && RxOf(q, s) == Gone(!lenient, s in p.finished, Log(p.delivered, s))
  {
    var q := Retire(p, s, lenient);
    RetireStrict(p, s, lenient);
    RetireFrame(p, s, lenient);
    hide Valid, Retire, Strict;
    OnlyStream(p, q, s);
    SamePast(p, q);
  }

  lemma RetireStrict(p: Peer, s: StreamId, lenient: bool)
    requires Valid(p) && s !in p.streams && s !in p.retired
    ensures var q := Retire(p, s, lenient);
      && Strict(q, s) == !lenient
      && forall k :: k != s && Strict(q, k) ==> Strict(p, k)
  {
    Aspects(p);
    FrontierFacts(p);
    hide Valid;
    assert TombstonesOk(p);
    var order := p.retiredOrder + [s];
    assert |order| > p.cfg.maxRetiredStreams ==> order[0] in p.retiredOrder;
  }

  lemma ForgetView(p: Peer, s: StreamId)
    requires Valid(p) && s in p.streams
    ensures var q := Forget(p, s);
      && OthersKept(p, q, s)
      && TxOf(q, s) == Done(TxOf(p, s).outClosed, TxOf(p, s).sent)
      && q.finished == p.finished && q.delivered == p.delivered
      && s !in q.streams && s !in q.retired && IsPast(q, s)
      && (RxOf(p, s).inClosed <==> s in p.finished)
  {
    LiveFacts(p, s);
    var q := Forget(p, s);
    ForgetFrame(p, s);
    SamePast(p, q);
    assert s !in p.retired by {
      Aspects(p);
      hide Valid;
      assert TombstonesOk(p);
    }
    hide Valid, Forget, IsPast;
    OnlyStream(p, q, s);
  }

  lemma ClearView(p: Peer, s: StreamId)
    requires s in p.streams
    ensures var q := ClearReassembly(p, s);
      && s in q.streams && q.streams[s] == p.streams[s].(partial := NoItem)
      && OthersKept(p, q, s)
      && TxOf(q, s) == TxOf(p, s)
      && RxOf(q, s) == RxOf(p, s).(partial := NoItem)
  {
    var q := ClearReassembly(p, s);
    ClearFrame(p, s);
    assert q.streams == p.streams[s := p.streams[s].(partial := NoItem)];
    hide ClearReassembly, IsPast;
    OnlyStream(p, q, s);
  }

  lemma OutboxView(p: Peer, outbox: seq<Body>, k: StreamId)
    ensures var q := p.(outbox := outbox);
      TxOf(q, k) == TxOf(p, k) && RxOf(q, k) == RxOf(p, k) && OthersKept(p, q, k)
  {
    var q := p.(outbox := outbox);
    SamePast(p, q);
    hide IsPast;
    forall j: StreamId | j != k
      ensures Kept(p, q, j)
    {
    }
  }

  lemma CancelView(p: Peer, s: StreamId, lenient: bool)
    requires Valid(p) && s in p.streams
    ensures var q := CancelStream(p, s, lenient);
      && Moved(p, q, s, true, [])
      && TxOf(q, s) == Done(TxOf(p, s).outClosed, TxOf(p, s).sent)
      && RxOf(q, s) == Gone(!lenient, RxOf(p, s).inClosed, RxOf(p, s).got)
  {
    hide Valid;
    var c := ClearReassembly(p, s);
    ClearValid(p, s);
    ClearView(p, s);
    ClearFrame(p, s);
    hide ClearReassembly;
    var f := Forget(c, s);
    ForgetValid(c, s);
    ForgetView(c, s);
    ForgetFrame(c, s);
    ForgetOrder(c, s);
    var o := f.(outbox := Purge(f.outbox, s));
    OutboxValid(f, o.outbox);
    OutboxView(f, o.outbox, s);
    SamePast(f, o);
    hide Forget, IsPast, TxOf, RxOf;
    RetireView(o, s, lenient);
    RetireFrame(o, s, lenient);
    hide Retire;
    KeptTrans(p, c, f, s);
    KeptTrans(p, f, o, s);
    KeptTrans(p, o, Retire(o, s, lenient), s);
  }

  lemma ForgetOrder(p: Peer, s: StreamId)
    ensures var q := Forget(p, s);
      (q.outgoingSequence, q.expectedSequence) == (p.outgoingSequence, p.expectedSequence)
  {
  }

  // ---------------------------------------------------------------- application calls

  /** Replacing the record of one live stream, with whatever goes to the outbox and the ledger. */
  lemma RecordView(p: Peer, q: Peer, s: StreamId, t: Stream)
    requires s in p.streams
    requires q == p.(streams := p.streams[s := t], outbox := q.outbox, inFlight := q.inFlight, sent := q.sent,
                     delivered := q.delivered, completed := q.completed, finished := q.finished)
    requires forall k :: k != s ==>
      && Log(q.sent, k) == Log(p.sent, k) && Log(q.delivered, k) == Log(p.delivered, k)
      && (k in q.completed <==> k in p.completed) && (k in q.finished <==> k in p.finished)
    ensures OthersKept(p, q, s)
    ensures TxOf(q, s) == Active(t.outCredit, t.outClosed, Log(q.sent, s))
    ensures RxOf(q, s) == Live(t.inCredit, t.inClosed, t.outClosed, t.partial, Log(q.delivered, s))
  {
    SamePast(p, q);
    hide IsPast;
    OnlyStream(p, q, s);
  }

  lemma RequestView(p: Peer, s: StreamId, n: int)
    requires s in p.streams && 1 <= n <= MAX_CREDIT && !p.streams[s].inClosed
    ensures var q := Request(p, s, n);
      && Moved(p, q, s, false, [Demand(s, n)])
      && TxOf(q, s) == TxOf(p, s)
      && RxOf(q, s) == RxOf(p, s).(credit := AddCredit(p.cfg.creditCap, RxOf(p, s).credit, n))
  {
    hide IsPast;
    var t := p.streams[s];
    RecordView(p, Request(p, s, n), s, t.(inCredit := AddCredit(p.cfg.creditCap, t.inCredit, n)));
  }

  lemma SendView(p: Peer, s: StreamId, item: Item)
    requires MaySend(p, s)
    requires FragmentPlan.Plan(s, item, p.cfg.outbound).Planned?
    ensures var q := Send(p, s, item);
      && Moved(p, q, s, false, FragmentPlan.Plan(s, item, p.cfg.outbound).frames)
      && TxOf(q, s) == Active(TxOf(p, s).credit - 1, false, TxOf(p, s).sent + [item])
      && RxOf(q, s) == RxOf(p, s)
  {
    hide IsPast, FragmentPlan.Plan, Busy;
    var t := p.streams[s];
    RecordView(p, Send(p, s, item), s, t.(outCredit := t.outCredit - 1));
  }

  lemma MarkView(p: Peer, s: StreamId, outbox: seq<Body>, completed: set<StreamId>, finished: set<StreamId>)
    requires p.completed <= completed <= p.completed + {s} && p.finished <= finished <= p.finished + {s}
    ensures OthersKept(p, p.(outbox := outbox, completed := completed, finished := finished), s)
  {
    var q := p.(outbox := outbox, completed := completed, finished := finished);
    SamePast(p, q);
    hide IsPast;
    OnlyStream(p, q, s);
  }

  /** Both directions are now closed: the stream is forgotten, and its tombstone refuses late DATA. */
  lemma ReleaseView(p: Peer, s: StreamId, t: Stream, frames: seq<Body>, completed: set<StreamId>, finished: set<StreamId>)
    requires Valid(p) && s in p.streams
    requires t == p.streams[s].(inClosed := true, outClosed := true) && t.partial.NoItem?
    requires p.completed <= completed <= p.completed + {s} && p.finished <= finished <= p.finished + {s}
    requires s in completed && s in finished
    ensures var q := ReleaseStream(p.(streams := p.streams[s := t], outbox := p.outbox + frames,
                                      completed := completed, finished := finished), s);
      && Moved(p, q, s, false, frames)
      && TxOf(q, s) == Done(true, TxOf(p, s).sent)
      && RxOf(q, s) == Gone(true, true, RxOf(p, s).got)
  {
    hide Valid;
    ForgetIgnoresFlags(p, s, t, p.outbox + frames, completed, finished);
    var f := Forget(p, s);
    ForgetValid(p, s);
    ForgetView(p, s);
    ForgetFrame(p, s);
    ForgetOrder(p, s);
    hide Forget;
    var m := f.(outbox := p.outbox + frames, completed := completed, finished := finished);
    MarkValid(f, s, p.outbox + frames, completed, finished);
    MarkView(f, s, p.outbox + frames, completed, finished);
    SamePast(f, m);
    hide IsPast;
    RetireView(m, s, false);
    RetireFrame(m, s, false);
    hide Retire;
    KeptTrans(p, f, m, s);
    KeptTrans(p, m, Retire(m, s, false), s);
  }

  lemma CompleteView(p: Peer, s: StreamId)
    requires Valid(p) && s in p.streams && !p.streams[s].outClosed && !Busy(p.outbox, s)
    ensures var q := CompleteOut(p, s);
      var rx := RxOf(p, s);
      && Moved(p, q, s, false, [Complete(s)])
      && TxOf(q, s) == (if rx.inClosed then Done(true, TxOf(p, s).sent) else TxOf(p, s).(outClosed := true))
      && RxOf(q, s) == (if rx.inClosed then Gone(true, true, rx.got) else rx.(outClosed := true))
  {
    LiveFacts(p, s);
    var t := p.streams[s].(outClosed := true);
    var marked := p.(streams := p.streams[s := t], outbox := p.outbox + [Complete(s)], completed := p.completed + {s});
    hide Valid, IsPast, Busy;
    if t.inClosed {
      hide ReleaseStream;
      ReleaseView(p, s, t, [Complete(s)], p.completed + {s}, p.finished);
      assert marked == p.(streams := p.streams[s := t], outbox := p.outbox + [Complete(s)],
                          completed := p.completed + {s}, finished := p.finished);
    } else {
      RecordView(p, marked, s, t);
    }
  }

  lemma TerminateView(p: Peer, s: StreamId, last: Body)
    requires Valid(p) && s in p.streams
    ensures var q := Terminate(p, s, last);
      && Moved(p, q, s, true, [last])
      && TxOf(q, s) == Done(TxOf(p, s).outClosed, TxOf(p, s).sent)
      && RxOf(q, s) == Gone(false, RxOf(p, s).inClosed, RxOf(p, s).got)
  {
    hide Valid, IsPast;
    CancelView(p, s, true);
    var q := CancelStream(p, s, true);
    hide CancelStream;
    OutboxView(q, q.outbox + [last], s);
    hide TxOf, RxOf;
    KeptTrans(p, q, q.(outbox := q.outbox + [last]), s);
  }

  /** A newly opened stream: nothing sent, nothing received, no credit either way. */
  lemma OpenView(p: Peer, attributes: seq<Attribute>)
    requires Valid(p) && MayOpen(p, attributes)
    ensures var q := OpenNext(p, attributes, true);
      var s := p.nextStreamId;
      && OthersKept(p, q, s)
      && TxOf(p, s) == Idle && RxOf(p, s) == Unopened
      && TxOf(q, s) == Active(0, false, [])
      && RxOf(q, s) == Live(0, false, false, NoItem, [])
  {
    var s := p.nextStreamId;
    NextLocalIsNew(p);
    NewIsUnknown(p, s);
    hide Valid, MayOpen, AttributeMemory;
    var q := OpenNext(p, attributes, true);
    forall k | k != s
      ensures IsPast(q, k) == IsPast(p, k)
    {
      FrontierKept(p, q, s, k);
    }
    hide IsPast;
    OnlyStream(p, q, s);
  }

  lemma NewIsUnknown(p: Peer, s: StreamId)
    requires Valid(p) && s !in p.streams && !IsPast(p, s)
    ensures TxOf(p, s) == Idle && RxOf(p, s) == Unopened
    ensures Log(p.sent, s) == [] && Log(p.delivered, s) == [] && s !in p.completed && s !in p.finished
  {
    Aspects(p);
    hide Valid;
    assert LedgerOk(p);
  }

  /** Moving a frontier by one stream reveals that stream only. */
  lemma FrontierKept(p: Peer, q: Peer, s: StreamId, k: StreamId)
    requires q.cfg == p.cfg && k != s
    requires || (q.highestRemote == p.highestRemote && s == p.nextStreamId && q.nextStreamId == s + 2
                 && s % 2 == LocalParity(p.cfg))
             || (q.nextStreamId == p.nextStreamId && q.highestRemote == s == ExpectedRemote(p)
                 && s % 2 != LocalParity(p.cfg) && (p.highestRemote == 0 || p.highestRemote % 2 != LocalParity(p.cfg)))
    ensures IsPast(p, k) == IsPast(q, k)
  {
  }

  // ---------------------------------------------------------------- frames from the peer

  /** `Moved`, but for the remote frontier, which an OPEN moves. */
  ghost predicate Reacted(p: Peer, q: Peer, s: StreamId, purge: bool, frames: seq<Body>) {
    && (q.cfg, q.nextStreamId, q.outgoingSequence, q.expectedSequence)
       == (p.cfg, p.nextStreamId, p.outgoingSequence, p.expectedSequence)
    && q.outbox == Queued(p.outbox, s, purge, frames)
    && OthersKept(p, q, s)
  }

  /** How a session answers a frame: it takes it, gives the stream up, or refuses to open it. */
  datatype Reaction = Take | GiveUp | Accept | Refuse(code: Option<bytes>)

  ghost predicate Reacts(p: Peer, q: Peer, b: Body, reaction: Reaction) {
    match reaction
    case Take =>
      && Moved(p, q, b.id, false, [])
      && TxOf(q, b.id) == TxOf(p, b.id)
      && RxOf(p, b.id).Live?
      && Some(RxOf(q, b.id)) == LiveStep(RxOf(p, b.id), b, p.cfg.maxInboundItemBytes)
    case GiveUp =>
      && b.First? && Moved(p, q, b.id, true, [Error(b.id, Exhausted())])
      && TxOf(p, b.id).Active? && TxOf(q, b.id) == Done(TxOf(p, b.id).outClosed, TxOf(p, b.id).sent)
      && RxOf(p, b.id).Live? && RxOf(q, b.id) == Gone(false, RxOf(p, b.id).inClosed, RxOf(p, b.id).got)
    case Accept =>
      && Reacted(p, q, b.id, false, []) && q.highestRemote == b.id
      && TxOf(q, b.id) == Active(0, false, [])
      && RxOf(q, b.id) == Live(0, false, false, NoItem, [])
    case Refuse(code) =>
      && Reacted(p, q, b.id, false, [Error(b.id, code)]) && q.highestRemote == b.id
      && TxOf(q, b.id) == Done(false, [])
      && RxOf(q, b.id) in {Gone(true, false, []), Gone(false, false, [])}
  }

  /** DATA, whole or first slice, that the receiver's view accepts. */
  lemma DataView(p: Peer, b: Body, env: Environment) returns (reaction: Reaction)
    requires Valid(p) && (b.Data? || b.First?) && b.id in p.streams && WellShaped(b)
    requires LiveStep(RxOf(p, b.id), b, p.cfg.maxInboundItemBytes).Some?
    ensures HandleData(p, b, env).Handled? && Reacts(p, HandleData(p, b, env).peer, b, reaction)
    ensures reaction == Take || reaction == GiveUp
  {
    var s := b.id;
    hide Valid, Reacts, Terminate;
    if b.First? && (p.inFlight + b.total > p.cfg.maxInFlightReassemblyBytes || !env.allocates) {
      reaction := GiveUp;
      GiveUpView(p, b);
    } else {
      reaction := Take;
      TakeView(p, b, env);
    }
  }

  lemma GiveUpView(p: Peer, b: Body)
    requires Valid(p) && b.First? && b.id in p.streams && p.streams[b.id].inCredit > 0
    ensures var t := p.streams[b.id];
      Reacts(p, Terminate(p.(streams := p.streams[b.id := t.(inCredit := t.inCredit - 1)]), b.id, Error(b.id, Exhausted())), b, GiveUp)
  {
    var s := b.id;
    var t := p.streams[s];
    var spent := t.(inCredit := t.inCredit - 1);
    var q := p.(streams := p.streams[s := spent]);
    LiveFacts(p, s);
    hide Valid, Terminate, IsPast;
    RecordView(p, q, s, spent);
    assert q == p.(streams := p.streams[s := spent], inFlight := p.inFlight);
    UpdateValid(p, s, spent, p.inFlight);
    TerminateView(q, s, Error(s, Exhausted()));
    KeptTrans(p, q, Terminate(q, s, Error(s, Exhausted())), s);
  }

  lemma TakeView(p: Peer, b: Body, env: Environment)
    requires (b.Data? || b.First?) && b.id in p.streams
    requires LiveStep(RxOf(p, b.id), b, p.cfg.maxInboundItemBytes).Some?
    requires b.First? ==> p.inFlight + b.total <= p.cfg.maxInFlightReassemblyBytes && env.allocates
    ensures HandleData(p, b, env).Handled? && Reacts(p, HandleData(p, b, env).peer, b, Take)
  {
    var s := b.id;
    var t := p.streams[s];
    var spent := t.(inCredit := t.inCredit - 1);
    var r := HandleData(p, b, env).peer;
    hide IsPast;
    assert p.outbox + [] == p.outbox;
    if b.Data? {
      RecordView(p, r, s, spent);
    } else {
      var kept := spent.(partial := Partial(b.payload, b.total, b.attributes));
      assert p.streams[s := spent][s := kept] == p.streams[s := kept];
      RecordView(p, r, s, kept);
    }
  }

  lemma FragmentView(p: Peer, b: Body)
    requires Valid(p) && b.Fragment? && b.id in p.streams
    requires LiveStep(RxOf(p, b.id), b, p.cfg.maxInboundItemBytes).Some?
    ensures var out := HandleFragment(p, b);
      && out.Handled?
      && Moved(p, out.peer, b.id, false, [])
      && TxOf(out.peer, b.id) == TxOf(p, b.id)
      && Some(RxOf(out.peer, b.id)) == LiveStep(RxOf(p, b.id), b, p.cfg.maxInboundItemBytes)
  {
    var s := b.id;
    var t := p.streams[s];
    hide Valid, IsPast;
    var received := t.partial.received + b.payload;
    var r := HandleFragment(p, b).peer;
    if |received| < t.partial.total {
      RecordView(p, r, s, t.(partial := t.partial.(received := received)));
    } else {
      RecordView(p, r, s, t.(partial := NoItem));
    }
  }

  lemma DemandView(p: Peer, s: StreamId, n: nat, env: Environment)
    requires s in p.streams && n > 0
    ensures var out := HandleFrame(p, Demand(s, n), env);
      && out.Handled?
      && Moved(p, out.peer, s, false, [])
      && TxOf(out.peer, s) == TxOf(p, s).(credit := AddCredit(p.cfg.creditCap, TxOf(p, s).credit, n))
      && RxOf(out.peer, s) == RxOf(p, s)
  {
    var t := p.streams[s];
    hide IsPast;
    RecordView(p, HandleFrame(p, Demand(s, n), env).peer, s, t.(outCredit := AddCredit(p.cfg.creditCap, t.outCredit, n)));
  }

  lemma FinishView(p: Peer, s: StreamId, env: Environment)
    requires Valid(p) && s in p.streams && p.streams[s].partial.NoItem?
    ensures var out := HandleFrame(p, Complete(s), env);
      && out.Handled?
      && Moved(p, out.peer, s, false, [])
      && TxOf(out.peer, s) == (if TxOf(p, s).outClosed then Done(true, TxOf(p, s).sent) else TxOf(p, s))
      && Some(RxOf(out.peer, s)) == LiveStep(RxOf(p, s), Complete(s), p.cfg.maxInboundItemBytes)
  {
    LiveFacts(p, s);
    var t := p.streams[s].(inClosed := true);
    var marked := p.(streams := p.streams[s := t], finished := p.finished + {s});
    hide Valid, IsPast;
    if t.outClosed {
      hide ReleaseStream;
      ReleaseView(p, s, t, [], p.completed, p.finished + {s});
      assert p.outbox + [] == p.outbox;
      assert marked == p.(streams := p.streams[s := t], outbox := p.outbox + [],
                          completed := p.completed, finished := p.finished + {s});
    } else {
      RecordView(p, marked, s, t);
      assert p.outbox + [] == p.outbox;
    }
  }

  lemma RejectView(p: Peer, s: StreamId, lenient: bool, code: Option<bytes>)
    requires Valid(p) && s !in p.streams && s !in p.retired && IsPast(p, s)
    requires s !in p.completed && s !in p.finished && Log(p.sent, s) == [] && Log(p.delivered, s) == []
    ensures var q := RejectOpen(p, s, lenient, code);
      && Moved(p, q, s, false, [Error(s, code)])
      && TxOf(q, s) == Done(false, [])
      && RxOf(q, s) == Gone(!lenient, false, [])
  {
    hide Valid;
    RetireView(p, s, lenient);
    RetireFrame(p, s, lenient);
    var q := Retire(p, s, lenient);
    hide Retire, IsPast;
    OutboxView(q, q.outbox + [Error(s, code)], s);
    KeptTrans(p, q, q.(outbox := q.outbox + [Error(s, code)]), s);
  }

  lemma NewRemote(p: Peer, s: StreamId)
    requires Valid(p) && s == ExpectedRemote(p)
    ensures var q := p.(highestRemote := s);
      && Valid(q) && OthersKept(p, q, s) && IsPast(q, s)
      && s !in p.streams && s !in p.retired && s !in p.completed && s !in p.finished
      && Log(p.sent, s) == [] && Log(p.delivered, s) == []
      && TxOf(p, s) == Idle && RxOf(p, s) == Unopened
  {
    NextRemoteIsNew(p);
    FrontierFacts(p);
    NewIsUnknown(p, s);
    var q := p.(highestRemote := s);
    AdvanceValid(p, q);
    forall k | k != s
      ensures IsPast(q, k) == IsPast(p, k)
    {
      FrontierKept(p, q, s, k);
    }
    hide Valid, IsPast;
    OnlyStream(p, q, s);
  }

  lemma RefuseView(p: Peer, b: Body, lenient: bool, code: Option<bytes>)
    requires Valid(p) && b.id == ExpectedRemote(p)
    ensures Reacts(p, RejectOpen(p.(highestRemote := b.id), b.id, lenient, code), b, Refuse(code))
  {
    hide Valid;
    var s := b.id;
    var q := p.(highestRemote := s);
    NewRemote(p, s);
    hide IsPast, ExpectedRemote;
    RejectView(q, s, lenient, code);
    KeptTrans(p, q, RejectOpen(q, s, lenient, code), s);
  }

  lemma AcceptView(p: Peer, b: Body)
    requires Valid(p) && b.Open? && b.id == ExpectedRemote(p)
    ensures var q := p.(highestRemote := b.id);
      var r := q.(streams := q.streams[b.id := NewStream(b.attributes, false)],
                  remoteActive := p.remoteActive + 1,
                  retainedBytes := p.retainedBytes + AttributeMemory(b.attributes));
      Reacts(p, r, b, Accept)
  {
    hide Valid, AttributeMemory;
    var s := b.id;
    var q := p.(highestRemote := s);
    var r := q.(streams := q.streams[s := NewStream(b.attributes, false)],
                remoteActive := p.remoteActive + 1,
                retainedBytes := p.retainedBytes + AttributeMemory(b.attributes));
    NewRemote(p, s);
    SamePast(q, r);
    hide IsPast, ExpectedRemote;
    assert p.outbox + [] == p.outbox;
    OnlyStream(q, r, s);
    KeptTrans(p, q, r, s);
  }

  /** An OPEN with the expected id is either taken on, or answered with ERROR and retired. */
  lemma OpenedView(p: Peer, b: Body, env: Environment) returns (reaction: Reaction)
    requires Valid(p) && b.Open? && b.id == ExpectedRemote(p)
    ensures TxOf(p, b.id) == Idle && RxOf(p, b.id) == Unopened
    ensures HandleFrame(p, b, env).Handled? && Reacts(p, HandleFrame(p, b, env).peer, b, reaction)
    ensures reaction == Accept || reaction.Refuse?
  {
    hide Valid, AttributeMemory, Reacts, RejectOpen;
    NewRemote(p, b.id);
    hide IsPast;
    var full := p.remoteActive >= p.cfg.maxInboundStreams
      || p.retainedBytes + AttributeMemory(b.attributes) > p.cfg.maxRetainedStreamAttributeBytes;
    if full || env.verdict == NobodyAccepts(true) {
      reaction := Refuse(Exhausted());
      RefuseView(p, b, false, Exhausted());
    } else if env.verdict.AcceptorThrows? {
      reaction := Refuse(env.verdict.code);
      RefuseView(p, b, true, env.verdict.code);
    } else {
      reaction := Accept;
      AcceptView(p, b);
    }
  }
}
