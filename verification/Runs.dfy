/**
 * Runs of two conforming sessions: any interleaving of application calls, frame writes and frame
 * deliveries on either side, with any answer of the application to an OPEN and any memory refusal.
 */
module Runs {
  import opened Bytes
  import opened Frames
  import opened StreamLink
  import opened Sessions
  import opened Accounting
  import opened Views
  import opened TwoPeers
  import Moves
  import Steps
  import Receiving
  import opened Diagnostics

  datatype Action =
    | DoOpen(attributes: seq<Attribute>, written: bool)
    | DoRequest(id: StreamId, n: int)
    | DoSend(id: StreamId, item: Item)
    | DoComplete(id: StreamId)
    | DoCancel(id: StreamId)
    | DoFail(id: StreamId, code: Option<bytes>)
    | DoFlush
    | DoReceive(env: Environment)

  /** One side acts: session a when `first`, otherwise session b. */
  datatype Event = Event(first: bool, action: Action)

  datatype Next = Went(sys: System) | Broke(why: Violation)

  function Act(sys: System, action: Action): Next {
    match action
    case DoOpen(attributes, written) => Went(sys.(a := OpenNext(sys.a, attributes, written)))
    case DoRequest(s, n) => Went(sys.(a := Request(sys.a, s, n)))
    case DoSend(s, item) => Went(sys.(a := Send(sys.a, s, item)))
    case DoComplete(s) => Went(sys.(a := CompleteOut(sys.a, s)))
    case DoCancel(s) => Went(sys.(a := Terminate(sys.a, s, Cancel(s))))
    case DoFail(s, code) => Went(sys.(a := Terminate(sys.a, s, Error(s, code))))
    case DoFlush =>
      (match Flush(sys.a)
       case None => Went(sys)
       case Some(written) => Went(sys.(a := written.0, ab := sys.ab + [written.1])))
    case DoReceive(env) =>
      if sys.ba == [] then Went(sys)
      else
        match Receive(sys.a, sys.ba[0], env)
        case Violated(why) => Broke(why)
        case Handled(a') => Went(sys.(a := a', ba := sys.ba[1..]))
  }

  function Side(sys: System, first: bool): System { if first then sys else Flip(sys) }

  function Happen(sys: System, event: Event): Next {
    match Act(Side(sys, event.first), event.action)
    case Broke(why) => Broke(why)
    case Went(next) => Went(Side(next, event.first))
  }

  function Execute(sys: System, run: seq<Event>): Next
    decreases |run|
  {
    if run == [] then Went(sys)
    else
      match Happen(sys, run[0])
      case Broke(why) => Broke(why)
      case Went(next) => Execute(next, run[1..])
  }

  /** The call would push a stream's inbound credit past the cap, 2^32 - 1, where `addCredit` saturates. */
  predicate Clips(p: Peer, action: Action) {
    && action.DoRequest?
    && action.id in p.streams
    && 1 <= action.n <= MAX_CREDIT
    && !Below(p.streams[action.id].inCredit + action.n, p.cfg.creditCap)
  }

  predicate Unclipped(sys: System, run: seq<Event>)
    decreases |run|
  {
    run == []
    || (&& !Clips(Side(sys, run[0].first).a, run[0].action)
        && var next := Happen(sys, run[0]);
           (next.Went? ==> Unclipped(next.sys, run[1..])))
  }

  /** Neither `fail` nor an acceptor that throws leaves its error unnamed. */
  predicate Polite(action: Action) {
    match action
    case DoFail(_, code) => Named(code)
    case DoReceive(env) => Courteous(env)
    case _ => true
  }

  predicate AllPolite(run: seq<Event>) { forall i :: 0 <= i < |run| ==> Polite(run[i].action) }

  lemma ActInv(sys: System, action: Action)
    requires Inv(sys) && !Clips(sys.a, action)
    ensures match Act(sys, action)
      case Went(next) => Inv(next)
      case Broke(why) =>
        why == UnnamedError && action.DoReceive? && sys.ba != [] && Receiving.Misnamed(sys.a, sys.ba[0].body)
  {
    hide Inv, OpenNext, Request, Send, CompleteOut, Terminate, Flush, Receive, Receiving.Misnamed;
    match action
    case DoOpen(attributes, written) => Steps.OpenStep(sys, attributes, written);
    case DoRequest(s, n) => Steps.RequestStep(sys, s, n);
    case DoSend(s, item) => Steps.SendStep(sys, s, item);
    case DoComplete(s) => Steps.CompleteStep(sys, s);
    case DoCancel(s) => Steps.TerminateStep(sys, s, Cancel(s));
    case DoFail(s, code) => Steps.TerminateStep(sys, s, Error(s, code));
    case DoFlush =>
      if Flush(sys.a).Some? {
        Steps.FlushStep(sys);
      }
    case DoReceive(env) =>
      if sys.ba != [] {
        Receiving.ReceiveStep(sys, env);
      }
  }

  lemma HappenInv(sys: System, event: Event)
    requires Inv(sys) && !Clips(Side(sys, event.first).a, event.action)
    ensures match Happen(sys, event) case Went(next) => Inv(next) case Broke(why) => why == UnnamedError
  {
    hide Inv, Act;
    InvFlip(sys);
    ActInv(Side(sys, event.first), event.action);
    if Act(Side(sys, event.first), event.action).Went? {
      InvFlip(Act(Side(sys, event.first), event.action).sys);
    }
  }

  lemma {:induction false} ExecuteInv(sys: System, run: seq<Event>)
    requires Inv(sys) && Unclipped(sys, run)
    ensures match Execute(sys, run) case Went(end) => Inv(end) case Broke(why) => why == UnnamedError
    decreases |run|
  {
    hide Inv, Happen;
    if run != [] {
      HappenInv(sys, run[0]);
      if Happen(sys, run[0]).Went? {
        ExecuteInv(Happen(sys, run[0]).sys, run[1..]);
      }
    }
  }

  // ---------------------------------------------------------------- named errors

  predicate AllNamed(sys: System) { NamedOnly(Pipe(sys.a, sys.ab)) && NamedOnly(Pipe(sys.b, sys.ba)) }

  lemma NamedParts(x: Peer, wire: seq<Packet>)
    ensures NamedOnly(Pipe(x, wire)) <==> NamedOnly(Bodies(wire)) && NamedOnly(x.outbox)
  {
    hide Named;
    var q := Pipe(x, wire);
    assert forall i :: 0 <= i < |wire| ==> q[i] == Bodies(wire)[i];
    assert forall i :: 0 <= i < |x.outbox| ==> q[|wire| + i] == x.outbox[i];
  }

  lemma ActNamed(sys: System, action: Action)
    requires AllNamed(sys) && Polite(action) && Act(sys, action).Went?
    ensures AllNamed(Act(sys, action).sys)
  {
    var next := Act(sys, action).sys;
    NamedParts(sys.a, sys.ab);
    NamedParts(sys.b, sys.ba);
    NamedParts(next.a, next.ab);
    NamedParts(next.b, next.ba);
    hide Named, Pipe, Bodies, OpenNext, Request, Send, CompleteOut, Terminate;
    match action
    case DoOpen(attributes, written) => CallsNamed(sys.a, 0, 0, Item([], []), attributes, written);
    case DoRequest(s, n) => CallsNamed(sys.a, s, n, Item([], []), [], false);
    case DoSend(s, item) => CallsNamed(sys.a, s, 0, item, [], false);
    case DoComplete(s) => CompleteNamed(sys.a, s);
    case DoCancel(s) => TerminateNamed(sys.a, s, Cancel(s));
    case DoFail(s, code) => TerminateNamed(sys.a, s, Error(s, code));
    case DoFlush => FlushNamed(sys);
    case DoReceive(env) => ReceiveNamed(sys, env);
  }

  lemma FlushNamed(sys: System)
    requires NamedOnly(Bodies(sys.ab)) && NamedOnly(sys.a.outbox)
    ensures var next := Act(sys, DoFlush).sys; NamedOnly(Bodies(next.ab)) && NamedOnly(next.a.outbox) && next.b == sys.b && next.ba == sys.ba
  {
    hide Named;
    if Flush(sys.a).Some? {
      var b := sys.a.outbox[0];
      assert Bodies(sys.ab + [Flush(sys.a).value.1]) == Bodies(sys.ab) + [b];
      NamedMore(Bodies(sys.ab), [b]);
      NamedMore(sys.a.outbox, []);
    }
  }

  lemma ReceiveNamed(sys: System, env: Environment)
    requires NamedOnly(Bodies(sys.ba)) && NamedOnly(sys.a.outbox) && Courteous(env) && Act(sys, DoReceive(env)).Went?
    ensures var next := Act(sys, DoReceive(env)).sys;
      NamedOnly(Bodies(next.ba)) && NamedOnly(next.a.outbox) && next.b == sys.b && next.ab == sys.ab
  {
    hide Named, HandleFrame;
    if sys.ba != [] {
      HandleNamed(sys.a.(expectedSequence := sys.a.expectedSequence + 1), sys.ba[0].body, env);
      assert Bodies(sys.ba)[1..] == Bodies(sys.ba[1..]);
      NamedMore(Bodies(sys.ba), []);
    }
  }

  lemma {:induction false} ExecuteNamed(sys: System, run: seq<Event>)
    requires Inv(sys) && AllNamed(sys) && Unclipped(sys, run) && AllPolite(run)
    ensures Execute(sys, run).Went?
    decreases |run|
  {
    hide Inv, AllNamed, Polite, Happen;
    if run != [] {
      NamedStep(sys, run[0]);
      ExecuteNamed(Happen(sys, run[0]).sys, run[1..]);
    }
  }

  lemma NamedStep(sys: System, event: Event)
    requires Inv(sys) && AllNamed(sys) && Polite(event.action) && !Clips(Side(sys, event.first).a, event.action)
    ensures Happen(sys, event).Went? && AllNamed(Happen(sys, event).sys) && Inv(Happen(sys, event).sys)
  {
    hide Inv, Act, NamedOnly, Polite, Clips;
    var side := Side(sys, event.first);
    HappenInv(sys, event);
    InvFlip(sys);
    ActInv(side, event.action);
    if Act(side, event.action).Broke? {
      NamedHead(side);
    } else {
      ActNamed(side, event.action);
    }
  }

  lemma NamedHead(sys: System)
    requires AllNamed(sys) && sys.ba != []
    ensures !Receiving.Misnamed(sys.a, sys.ba[0].body)
  {
    assert Pipe(sys.b, sys.ba)[0] == sys.ba[0].body;
  }

  // ---------------------------------------------------------------- what runs keep

  /** Two sessions that may meet: resolved limits, and each configured with what the other announced. */
  predicate MayMeet(a: Config, b: Config) { ConfigOk(a) && ConfigOk(b) && Paired(a, b) }

  /**
   * No interleaving of two conforming sessions ever raises a protocol violation on either side:
   * sequence numbers, OPEN ids, known streams, closed streams, demand, item sizes, reassembly and error
   * codes all check out, as long as no `request` saturates a credit counter and errors are named.
   */
  lemma NoViolation(a: Config, b: Config, run: seq<Event>)
    requires MayMeet(a, b) && Unclipped(Start(a, b), run) && AllPolite(run)
    ensures Execute(Start(a, b), run).Went?
  {
    StartInv(a, b);
    ExecuteNamed(Start(a, b), run);
  }

  /** Whatever codes the errors carry, the violation for an unreadable code is the only one that can arise. */
  lemma OnlyUnnamedErrors(a: Config, b: Config, run: seq<Event>)
    requires MayMeet(a, b) && Unclipped(Start(a, b), run)
    ensures var end := Execute(Start(a, b), run); end.Broke? ==> end.why == UnnamedError
  {
    StartInv(a, b);
    ExecuteInv(Start(a, b), run);
  }

  /** How the ledgers of a valid session show in its views. */
  lemma Ledgers(p: Peer, s: StreamId)
    requires Valid(p)
    ensures Got(RxOf(p, s)) == Log(p.delivered, s)
    ensures Finished(RxOf(p, s)) <==> s in p.finished
    ensures TxOf(p, s).Idle? ==> Log(p.sent, s) == [] && s !in p.completed
    ensures !TxOf(p, s).Idle? ==> TxOf(p, s).sent == Log(p.sent, s)
    ensures TxOf(p, s).Active? ==> (TxOf(p, s).outClosed <==> s in p.completed)
    ensures TxOf(p, s).Done? ==> (TxOf(p, s).completed <==> s in p.completed)
  {
    Aspects(p);
    if s in p.streams {
      LiveFacts(p, s);
    }
    hide Valid, LiveOk;
    assert LedgerOk(p);
  }

  lemma DeliveredForth(sys: System, s: StreamId)
    requires Inv(sys)
    ensures Log(sys.b.delivered, s) <= Log(sys.a.sent, s)
    ensures s in sys.b.finished ==> s in sys.a.completed && Log(sys.b.delivered, s) == Log(sys.a.sent, s)
  {
    var out, back := Pipe(sys.a, sys.ab), Pipe(sys.b, sys.ba);
    Steps.StreamFacts(sys, s);
    Moves.Ties(sys.a, sys.b, out, back, s);
    Moves.TiedMeans(sys.a, sys.b, out, back, s);
    Ledgers(sys.a, s);
    Ledgers(sys.b, s);
    hide Inv, Valid, Moves.Settled, Moves.Tied, Coupled, TxOf, RxOf;
    Delivery(TxOf(sys.a, s), RxOf(sys.b, s), Rel(out, s), DemandSum(back, s), sys.b.cfg.maxInboundItemBytes);
  }

  /**
   * Demand conservation: while a stream is live on both sides, every credit the receiver granted and has
   * not charged is with the sender, or in a DEMAND on its way to it, or spent on an item on its way back,
   * however that item is fragmented and whichever directions have ended.
   */
  lemma DemandConserved(a: Config, b: Config, run: seq<Event>, s: StreamId)
    requires MayMeet(a, b) && Unclipped(Start(a, b), run) && Execute(Start(a, b), run).Went?
    ensures var sys := Execute(Start(a, b), run).sys;
      s in sys.a.streams && s in sys.b.streams ==>
        && sys.b.streams[s].inCredit
           == sys.a.streams[s].outCredit + Charges(Rel(Pipe(sys.a, sys.ab), s)) + DemandSum(Pipe(sys.b, sys.ba), s)
        && sys.a.streams[s].inCredit
           == sys.b.streams[s].outCredit + Charges(Rel(Pipe(sys.b, sys.ba), s)) + DemandSum(Pipe(sys.a, sys.ab), s)
  {
    StartInv(a, b);
    ExecuteInv(Start(a, b), run);
    var sys := Execute(Start(a, b), run).sys;
    InvFlip(sys);
    hide Inv;
    if s in sys.a.streams && s in sys.b.streams {
      ConservedForth(sys, s);
      ConservedForth(Flip(sys), s);
    }
  }

  lemma ConservedForth(sys: System, s: StreamId)
    requires Inv(sys) && s in sys.a.streams && s in sys.b.streams
    ensures sys.b.streams[s].inCredit
         == sys.a.streams[s].outCredit + Charges(Rel(Pipe(sys.a, sys.ab), s)) + DemandSum(Pipe(sys.b, sys.ba), s)
  {
    var out, back := Pipe(sys.a, sys.ab), Pipe(sys.b, sys.ba);
    Steps.StreamFacts(sys, s);
    Moves.Ties(sys.a, sys.b, out, back, s);
    Moves.TiedMeans(sys.a, sys.b, out, back, s);
    hide Inv, Valid, Moves.Settled, Moves.Tied, Coupled;
    Conservation(TxOf(sys.a, s), RxOf(sys.b, s), Rel(out, s), DemandSum(back, s), sys.b.cfg.maxInboundItemBytes);
  }
}
