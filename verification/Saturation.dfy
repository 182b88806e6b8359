/**
 * Runs in which credit counters may saturate. Beside such a run goes one in which nothing saturates: the
 * same sessions with the same frames, but richer in credit. What does not speak of credit holds of the
 * richer run, and so of every run.
 */
module Saturation {
  import opened Bytes
  import opened Frames
  import opened StreamLink
  import opened Sessions
  import opened TwoPeers
  import opened Runs
  import opened OpenLimits
  import opened StreamCounts
  import FragmentPlan

  /** The same stream with at least as much credit either way. */
  predicate Enriched(t: Stream, u: Stream) {
    && t.inCredit <= u.inCredit && t.outCredit <= u.outCredit
    && u == t.(inCredit := u.inCredit, outCredit := u.outCredit)
  }

  predicate AllEnriched(m: map<StreamId, Stream>, n: map<StreamId, Stream>) {
    n.Keys == m.Keys && forall s :: s in m ==> Enriched(m[s], n[s])
  }

  /** The same session with at least as much credit on every stream, and counters that never saturate. */
  predicate Richer(p: Peer, q: Peer) {
    && q == p.(cfg := p.cfg.(creditCap := None), streams := q.streams)
    && AllEnriched(p.streams, q.streams)
  }

  predicate RicherSystem(sys: System, rich: System) {
    Richer(sys.a, rich.a) && Richer(sys.b, rich.b) && rich.ab == sys.ab && rich.ba == sys.ba
  }

  // ---------------------------------------------------------------- operations keep one session richer

  lemma UpdateRicher(m: map<StreamId, Stream>, n: map<StreamId, Stream>, s: StreamId, t: Stream, u: Stream)
    requires AllEnriched(m, n) && Enriched(t, u)
    ensures AllEnriched(m[s := t], n[s := u])
  {
  }

  lemma AsRich(t: Stream)
    ensures Enriched(t, t)
  {
  }

  lemma ForgetRicher(p: Peer, q: Peer, s: StreamId)
    requires Richer(p, q)
    ensures Richer(Forget(p, s), Forget(q, s))
  {
  }

  lemma SameFrame(p: Peer, q: Peer)
    requires Richer(p, q)
    ensures ExpectedRemote(q) == ExpectedRemote(p) && q.remoteActive == p.remoteActive && q.retainedBytes == p.retainedBytes
    ensures q.retired == p.retired && q.retiredOrder == p.retiredOrder
    ensures q.cfg == p.cfg.(creditCap := None)
  {
  }

  lemma RetireRicher(p: Peer, q: Peer, s: StreamId, lenient: bool)
    requires Richer(p, q)
    ensures Richer(Retire(p, s, lenient), Retire(q, s, lenient))
  {
    hide AllEnriched, Richer;
    SameFrame(p, q);
    RetiredRicher(p, q, Retire(p, s, lenient).retired, Retire(p, s, lenient).retiredOrder);
  }

  lemma RetiredRicher(p: Peer, q: Peer, retired: map<StreamId, bool>, order: seq<StreamId>)
    requires Richer(p, q)
    ensures Richer(p.(retired := retired, retiredOrder := order), q.(retired := retired, retiredOrder := order))
  {
    hide AllEnriched;
  }

  lemma ClearRicher(p: Peer, q: Peer, s: StreamId)
    requires Richer(p, q) && s in p.streams
    ensures Richer(ClearReassembly(p, s), ClearReassembly(q, s))
  {
    var t, u := p.streams[s], q.streams[s];
    UpdateRicher(p.streams, q.streams, s, t.(partial := NoItem), u.(partial := NoItem));
  }

  lemma CancelRicher(p: Peer, q: Peer, s: StreamId, lenient: bool)
    requires Richer(p, q) && s in p.streams
    ensures Richer(CancelStream(p, s, lenient), CancelStream(q, s, lenient))
  {
    ClearRicher(p, q, s);
    var c, d := ClearReassembly(p, s), ClearReassembly(q, s);
    ForgetRicher(c, d, s);
    var f, g := Forget(c, s), Forget(d, s);
    hide ClearReassembly, Forget;
    RetireRicher(f.(outbox := Purge(f.outbox, s)), g.(outbox := Purge(g.outbox, s)), s, lenient);
    hide Retire;
  }

  lemma ReleaseRicher(p: Peer, q: Peer, s: StreamId)
    requires Richer(p, q) && s in p.streams
    ensures Richer(ReleaseStream(p, s), ReleaseStream(q, s))
  {
    ForgetRicher(p, q, s);
    var f, g := Forget(p, s), Forget(q, s);
    assert Enriched(p.streams[s], q.streams[s]);
    hide Forget;
    RetireRicher(f, g, s, false);
    hide Retire;
  }

  lemma OpenRicher(p: Peer, q: Peer, attributes: seq<Attribute>, written: bool)
    requires Richer(p, q)
    ensures Richer(OpenNext(p, attributes, written), OpenNext(q, attributes, written))
  {
    hide AttributeMemory;
    var t := NewStream(attributes, true);
    UpdateRicher(p.streams, q.streams, p.nextStreamId, t, t);
  }

  lemma RequestRicher(p: Peer, q: Peer, s: StreamId, n: int)
    requires Richer(p, q)
    ensures Richer(Request(p, s, n), Request(q, s, n))
  {
    if 1 <= n <= MAX_CREDIT && s in p.streams {
      var t, u := p.streams[s], q.streams[s];
      assert Enriched(t, u);
      UpdateRicher(p.streams, q.streams, s, t.(inCredit := AddCredit(p.cfg.creditCap, t.inCredit, n)),
                   u.(inCredit := AddCredit(None, u.inCredit, n)));
    }
  }

  /** A send that finds credit finds it in the richer session too; one that waits is left out there. */
  lemma SendRicher(p: Peer, q: Peer, s: StreamId, item: Item)
    requires Richer(p, q)
    ensures Richer(Send(p, s, item), if MaySend(p, s) then Send(q, s, item) else q)
  {
    hide FragmentPlan.Plan, Busy;
    if MaySend(p, s) {
      var t, u := p.streams[s], q.streams[s];
      assert Enriched(t, u);
      UpdateRicher(p.streams, q.streams, s, t.(outCredit := t.outCredit - 1), u.(outCredit := u.outCredit - 1));
    }
  }

  lemma CompleteRicher(p: Peer, q: Peer, s: StreamId)
    requires Richer(p, q)
    ensures Richer(CompleteOut(p, s), CompleteOut(q, s))
  {
    hide ReleaseStream, Busy;
    if s in p.streams {
      var t, u := p.streams[s], q.streams[s];
      assert Enriched(t, u);
      UpdateRicher(p.streams, q.streams, s, t.(outClosed := true), u.(outClosed := true));
      var completed := p.completed + {s};
      ReleaseRicher(p.(streams := p.streams[s := t.(outClosed := true)], outbox := p.outbox + [Complete(s)], completed := completed),
                    q.(streams := q.streams[s := u.(outClosed := true)], outbox := q.outbox + [Complete(s)], completed := completed), s);
    }
  }

  lemma TerminateRicher(p: Peer, q: Peer, s: StreamId, last: Body)
    requires Richer(p, q)
    ensures Richer(Terminate(p, s, last), Terminate(q, s, last))
  {
    hide CancelStream;
    if s in p.streams {
      CancelRicher(p, q, s, true);
    }
  }

  /** What one session accepts, the richer one accepts, with the same effect; it objects to the same, but for demand. */
  predicate Follows(out: Outcome, rich: Outcome) {
    match out
    case Handled(p) => rich.Handled? && Richer(p, rich.peer)
    case Violated(why) => why == ExceededDemand || rich == Violated(why)
  }

  lemma DataRicher(p: Peer, q: Peer, b: Body, env: Environment)
    requires Richer(p, q) && (b.Data? || b.First?) && b.id in p.streams
    ensures Follows(HandleData(p, b, env), HandleData(q, b, env))
  {
    hide Terminate, Exhausted, AllEnriched;
    var s := b.id;
    EnrichedAt(p, q, s);
    var t, u := p.streams[s], q.streams[s];
    if t.inCredit > 0 {
      var spent, saved := t.(inCredit := t.inCredit - 1), u.(inCredit := u.inCredit - 1);
      UpdateRicher(p.streams, q.streams, s, spent, saved);
      if b.First? {
        TerminateRicher(p.(streams := p.streams[s := spent]), q.(streams := q.streams[s := saved]), s, Error(s, Exhausted()));
        var partial := Partial(b.payload, b.total, b.attributes);
        UpdateRicher(p.streams[s := spent], q.streams[s := saved], s, spent.(partial := partial), saved.(partial := partial));
      }
    }
  }

  lemma EnrichedAt(p: Peer, q: Peer, s: StreamId)
    requires Richer(p, q)
    ensures s in p.streams <==> s in q.streams
    ensures s in p.streams ==> Enriched(p.streams[s], q.streams[s])
  {
  }

  lemma FragmentRicher(p: Peer, q: Peer, b: Body)
    requires Richer(p, q) && b.Fragment? && b.id in p.streams
    ensures Follows(HandleFragment(p, b), HandleFragment(q, b))
  {
    hide ClearReassembly, AllEnriched;
    var s := b.id;
    EnrichedAt(p, q, s);
    var t, u := p.streams[s], q.streams[s];
    ClearRicher(p, q, s);
    if t.partial.Partial? {
      var received := t.partial.(received := t.partial.received + b.payload);
      UpdateRicher(p.streams, q.streams, s, t.(partial := received), u.(partial := received));
    }
  }

  lemma RejectRicher(p: Peer, q: Peer, s: StreamId, lenient: bool, code: Option<bytes>)
    requires Richer(p, q)
    ensures Richer(RejectOpen(p, s, lenient, code), RejectOpen(q, s, lenient, code))
  {
    RetireRicher(p, q, s, lenient);
    hide Retire;
  }

  lemma MovedRicher(p: Peer, q: Peer, s: StreamId)
    requires Richer(p, q)
    ensures Richer(p.(highestRemote := s), q.(highestRemote := s))
  {
  }

  lemma AdmitRicher(p: Peer, q: Peer, s: StreamId, t: Stream, memory: nat)
    requires Richer(p, q)
    ensures Richer(p.(streams := p.streams[s := t], remoteActive := p.remoteActive + 1, retainedBytes := p.retainedBytes + memory),
                   q.(streams := q.streams[s := t], remoteActive := q.remoteActive + 1, retainedBytes := q.retainedBytes + memory))
  {
    AsRich(t);
    UpdateRicher(p.streams, q.streams, s, t, t);
  }

  lemma OpenedRicher(p: Peer, q: Peer, s: StreamId, attributes: seq<Attribute>, env: Environment)
    requires Richer(p, q)
    ensures Follows(HandleOpen(p, s, attributes, env), HandleOpen(q, s, attributes, env))
  {
    hide RejectOpen, AttributeMemory, Exhausted, Richer, NewStream;
    SameFrame(p, q);
    var p', q' := p.(highestRemote := s), q.(highestRemote := s);
    MovedRicher(p, q, s);
    RejectRicher(p', q', s, false, Exhausted());
    if env.verdict.AcceptorThrows? {
      RejectRicher(p', q', s, true, env.verdict.code);
    }
    AdmitRicher(p', q', s, NewStream(attributes, false), AttributeMemory(attributes));
  }

  lemma HandleRicher(p: Peer, q: Peer, b: Body, env: Environment)
    requires Richer(p, q)
    ensures Follows(HandleFrame(p, b, env), HandleFrame(q, b, env))
  {
    hide CancelStream, ReleaseStream, HandleData, HandleFragment, HandleOpen, Named, AllEnriched;
    EnrichedAt(p, q, b.id);
    if b.Open? {
      OpenedRicher(p, q, b.id, b.attributes, env);
    } else if b.id in p.streams {
      var t, u := p.streams[b.id], q.streams[b.id];
      match b
      case Data(_, _, _) => DataRicher(p, q, b, env);
      case First(_, _, _, _) => DataRicher(p, q, b, env);
      case Fragment(_, _) => FragmentRicher(p, q, b);
      case Demand(s, n) =>
        UpdateRicher(p.streams, q.streams, s, t.(outCredit := AddCredit(p.cfg.creditCap, t.outCredit, n)),
                     u.(outCredit := AddCredit(None, u.outCredit, n)));
      case Complete(s) =>
        UpdateRicher(p.streams, q.streams, s, t.(inClosed := true), u.(inClosed := true));
        ReleaseRicher(p.(streams := p.streams[s := t.(inClosed := true)], finished := p.finished + {s}),
                      q.(streams := q.streams[s := u.(inClosed := true)], finished := q.finished + {s}), s);
      case Cancel(s) => CancelRicher(p, q, s, false);
      case Error(s, _) => CancelRicher(p, q, s, false);
    }
  }

  // ---------------------------------------------------------------- runs

  /** The richer system does the same, but for a send that the other has no credit for. */
  function Shadow(sys: System, rich: System, action: Action): Next {
    if action.DoSend? && !MaySend(sys.a, action.id) then Went(rich) else Act(rich, action)
  }

  lemma ActRicher(sys: System, rich: System, action: Action)
    requires RicherSystem(sys, rich)
    ensures match Act(sys, action)
      case Went(next) => Shadow(sys, rich, action).Went? && RicherSystem(next, Shadow(sys, rich, action).sys)
      case Broke(why) => why == ExceededDemand || Shadow(sys, rich, action) == Broke(why)
  {
    hide Richer, OpenNext, Request, Send, MaySend, CompleteOut, Terminate, HandleFrame;
    match action
    case DoOpen(attributes, written) => OpenRicher(sys.a, rich.a, attributes, written);
    case DoRequest(s, n) => RequestRicher(sys.a, rich.a, s, n);
    case DoSend(s, item) => SendRicher(sys.a, rich.a, s, item);
    case DoComplete(s) => CompleteRicher(sys.a, rich.a, s);
    case DoCancel(s) => TerminateRicher(sys.a, rich.a, s, Cancel(s));
    case DoFail(s, code) => TerminateRicher(sys.a, rich.a, s, Error(s, code));
    case DoFlush => FlushRicher(sys.a, rich.a);
    case DoReceive(env) =>
      if sys.ba != [] {
        ReceiveRicher(sys.a, rich.a, sys.ba[0], env);
      }
  }

  lemma FlushRicher(p: Peer, q: Peer)
    requires Richer(p, q)
    ensures match Flush(p)
      case None => Flush(q).None?
      case Some(written) => Flush(q).Some? && Flush(q).value.1 == written.1 && Richer(written.0, Flush(q).value.0)
  {
  }

  lemma ReceiveRicher(p: Peer, q: Peer, packet: Packet, env: Environment)
    requires Richer(p, q)
    ensures Follows(Receive(p, packet, env), Receive(q, packet, env))
  {
    hide HandleFrame;
    HandleRicher(p.(expectedSequence := p.expectedSequence + 1), q.(expectedSequence := q.expectedSequence + 1),
                 packet.body, env);
  }

  /** What the richer run keeps. */
  ghost predicate Sound(sys: System, rich: System) { RicherSystem(sys, rich) && Inv(rich) && Roomy(rich) }

  lemma ShadowSound(sys: System, rich: System, action: Action)
    requires Sound(sys, rich) && Act(sys, action).Went?
    ensures Shadow(sys, rich, action).Went?
    ensures Sound(Act(sys, action).sys, Shadow(sys, rich, action).sys)
  {
    hide Inv, Roomy, Act;
    ActRicher(sys, rich, action);
    assert !Clips(rich.a, action);
    if Shadow(sys, rich, action) == Act(rich, action) {
      ActInv(rich, action);
      ActRoomy(rich, action);
    }
  }

  lemma SoundFlip(sys: System, rich: System)
    requires Sound(sys, rich)
    ensures Sound(Flip(sys), Flip(rich))
  {
    hide Inv, RoomFrom, Richer;
    InvFlip(rich);
  }

  lemma HappenSound(sys: System, rich: System, event: Event) returns (after: System)
    requires Sound(sys, rich) && Happen(sys, event).Went?
    ensures Sound(Happen(sys, event).sys, after)
  {
    hide Sound, Act, Shadow;
    var side, beside := Side(sys, event.first), Side(rich, event.first);
    SoundFlip(sys, rich);
    ShadowSound(side, beside, event.action);
    var next := Shadow(side, beside, event.action).sys;
    SoundFlip(Act(side, event.action).sys, next);
    after := Side(next, event.first);
  }

  /** Every run is accompanied by a richer one that keeps the invariant. */
  lemma {:induction false} Accompanied(sys: System, rich: System, run: seq<Event>) returns (end: System)
    requires Sound(sys, rich) && Execute(sys, run).Went?
    ensures Sound(Execute(sys, run).sys, end)
    decreases |run|
  {
    hide Sound, Happen;
    end := rich;
    if run != [] {
      var after := HappenSound(sys, rich, run[0]);
      end := Accompanied(Happen(sys, run[0]).sys, after, run[1..]);
    }
  }

  /** A violation in any run is one of demand, or of an error whose code decodes to nothing. */
  lemma ActBreaks(sys: System, rich: System, action: Action)
    requires Sound(sys, rich) && Act(sys, action).Broke?
    ensures Act(sys, action).why in {ExceededDemand, UnnamedError}
  {
    hide Inv, Roomy, Act;
    ActRicher(sys, rich, action);
    if Shadow(sys, rich, action) == Act(rich, action) {
      ActInv(rich, action);
    }
  }

  lemma {:induction false} RunBreaks(sys: System, rich: System, run: seq<Event>)
    requires Sound(sys, rich) && Execute(sys, run).Broke?
    ensures Execute(sys, run).why in {ExceededDemand, UnnamedError}
    decreases |run|
  {
    hide Sound, Act;
    var event := run[0];
    if Happen(sys, event).Went? {
      var after := HappenSound(sys, rich, event);
      RunBreaks(Happen(sys, event).sys, after, run[1..]);
    } else {
      SoundFlip(sys, rich);
      ActBreaks(Side(sys, event.first), Side(rich, event.first), event.action);
    }
  }

  lemma StartSound(a: Config, b: Config)
    requires MayMeet(a, b)
    ensures Sound(Start(a, b), Start(a.(creditCap := None), b.(creditCap := None)))
  {
    var rich := Start(a.(creditCap := None), b.(creditCap := None));
    StartInv(a.(creditCap := None), b.(creditCap := None));
    hide Inv;
    assert Pipe(rich.a, []) == [] && Pipe(rich.b, []) == [];
  }

  /**
   * No other violation can arise between two conforming sessions, whatever saturates and whatever codes the
   * errors carry. `NoViolation` excludes the one kind by `Unclipped` and the other by `AllPolite`.
   */
  lemma OnlyDemandOrNames(a: Config, b: Config, run: seq<Event>)
    requires MayMeet(a, b) && Execute(Start(a, b), run).Broke?
    ensures Execute(Start(a, b), run).why in {ExceededDemand, UnnamedError}
  {
    StartSound(a, b);
    hide Sound, Execute, MayMeet;
    RunBreaks(Start(a, b), Start(a.(creditCap := None), b.(creditCap := None)), run);
  }

  /**
   * Exactly-once in-order delivery, in every state any run reaches and for every stream: what one side's
   * application received is a prefix of what the other's sent, and once the end of the stream has
   * been reported it is all of it, whatever was cancelled, retired or evicted since.
   */
  lemma InOrderDelivery(a: Config, b: Config, run: seq<Event>, s: StreamId)
    requires MayMeet(a, b) && Execute(Start(a, b), run).Went?
    ensures var sys := Execute(Start(a, b), run).sys;
      && Log(sys.b.delivered, s) <= Log(sys.a.sent, s)
      && (s in sys.b.finished ==> s in sys.a.completed && Log(sys.b.delivered, s) == Log(sys.a.sent, s))
      && Log(sys.a.delivered, s) <= Log(sys.b.sent, s)
      && (s in sys.a.finished ==> s in sys.b.completed && Log(sys.a.delivered, s) == Log(sys.b.sent, s))
  {
    StartSound(a, b);
    hide Inv, Roomy, Execute;
    var end := Accompanied(Start(a, b), Start(a.(creditCap := None), b.(creditCap := None)), run);
    InvFlip(end);
    DeliveredForth(end, s);
    DeliveredForth(Flip(end), s);
  }

  /**
   * Whenever the next frame for a session is an OPEN, its live remote streams are fewer than its limit:
   * the `maxInboundStreams` branch of `handleOpen` is never taken against a conforming opener.
   */
  lemma OpenNeverOverLimit(a: Config, b: Config, run: seq<Event>)
    requires MayMeet(a, b) && Execute(Start(a, b), run).Went?
    ensures var sys := Execute(Start(a, b), run).sys;
      && (sys.ba != [] && sys.ba[0].body.Open? ==> sys.a.remoteActive < sys.a.cfg.maxInboundStreams)
      && (sys.ab != [] && sys.ab[0].body.Open? ==> sys.b.remoteActive < sys.b.cfg.maxInboundStreams)
  {
    StartSound(a, b);
    hide Inv, RoomFrom, Execute;
    var end := Accompanied(Start(a, b), Start(a.(creditCap := None), b.(creditCap := None)), run);
    InvFlip(end);
    if end.ba != [] && end.ba[0].body.Open? {
      HeadHasRoom(end);
    }
    if end.ab != [] && end.ab[0].body.Open? {
      HeadHasRoom(Flip(end));
    }
  }
}
