/**
 * What a receiver granted, against what it got: the demand requested on a stream over a whole run bounds
 * the items delivered on it, and is accounted for to the last credit while nothing saturates.
 */
module Grants {
  import opened Bytes
  import opened Frames
  import opened StreamLink
  import opened Sessions
  import opened Accounting
  import opened Views
  import opened Effects
  import opened SessionRuns
  import opened TwoPeers
  import opened Runs
  import Receiving

  /** Demand used up or still to be used: items delivered, an item under way, and credit. */
  function Held(rx: Rx): nat {
    match rx
    case Unopened => 0
    case Live(credit, _, _, partial, got) => |got| + (if partial.Partial? then 1 else 0) + credit
    case Gone(_, _, got) => |got|
  }

  /** The demand that an input grants on stream `s`. */
  function Grant(p: Peer, input: Input, s: StreamId): nat {
    if && input.CallRequest? && input.id == s && 1 <= input.n <= MAX_CREDIT
       && s in p.streams && !p.streams[s].inClosed
    then input.n else 0
  }

  /** The demand granted on stream `s` by the requests of a run. */
  function Granted(p: Peer, inputs: seq<Input>, s: StreamId): nat
    decreases |inputs|
  {
    if inputs == [] then 0
    else
      var out := Feed(p, inputs[0]);
      Grant(p, inputs[0], s) + if out.Violated? then 0 else Granted(out.peer, inputs[1..], s)
  }

  predicate Saturates(p: Peer, input: Input) {
    input.CallRequest? && Clips(p, DoRequest(input.id, input.n))
  }

  predicate NeverSaturates(p: Peer, inputs: seq<Input>)
    decreases |inputs|
  {
    inputs == []
    || (!Saturates(p, inputs[0]) && var out := Feed(p, inputs[0]); (out.Handled? ==> NeverSaturates(out.peer, inputs[1..])))
  }

  // ---------------------------------------------------------------- one step

  /** From `p` to `q`, demand `n` was granted on `s`: none of it appears from nowhere, and none is lost on a live stream. */
  predicate Balances(p: Peer, q: Peer, s: StreamId, n: nat, exact: bool) {
    && Held(RxOf(q, s)) <= Held(RxOf(p, s)) + n
    && (exact && (RxOf(q, s).Live? || !RxOf(p, s).Live?) ==> Held(RxOf(q, s)) == Held(RxOf(p, s)) + n)
  }

  lemma OthersHeld(p: Peer, q: Peer, t: StreamId, s: StreamId)
    requires OthersKept(p, q, t) && s != t
    ensures Held(RxOf(q, s)) == Held(RxOf(p, s))
  {
    assert Kept(p, q, s);
    hide TxOf, RxOf;
  }

  lemma StepHeld(rx: Rx, b: Body, maxItem: nat)
    requires rx.Live? && LiveStep(rx, b, maxItem).Some?
    ensures var next := LiveStep(rx, b, maxItem).value;
      Held(next) <= Held(rx) && (next.Live? ==> Held(next) == Held(rx))
  {
  }

  lemma SameKept(p: Peer, q: Peer, s: StreamId)
    requires RxOf(q, s) == RxOf(p, s)
    ensures Balances(p, q, s, 0, true)
  {
  }

  lemma RequestKept(p: Peer, s: StreamId, n: int, k: StreamId)
    ensures Balances(p, Request(p, s, n), k, Grant(p, CallRequest(s, n), k), !Saturates(p, CallRequest(s, n)))
  {
    if 1 <= n <= MAX_CREDIT && s in p.streams && !p.streams[s].inClosed {
      RequestView(p, s, n);
      if k != s {
        OthersHeld(p, Request(p, s, n), s, k);
      }
      hide Request;
    }
  }

  lemma OpenKept(p: Peer, attributes: seq<Attribute>, written: bool, k: StreamId)
    requires Valid(p)
    ensures Balances(p, OpenNext(p, attributes, written), k, 0, true)
  {
    hide Valid, AttributeMemory;
    if MayOpen(p, attributes) && written {
      OpenView(p, attributes);
      if k != p.nextStreamId {
        OthersHeld(p, OpenNext(p, attributes, true), p.nextStreamId, k);
      }
      hide OpenNext, RxOf;
    }
  }

  lemma SendKept(p: Peer, s: StreamId, item: Item, k: StreamId)
    ensures Balances(p, Send(p, s, item), k, 0, true)
  {
    hide Effects.FragmentPlan.Plan, Busy;
    if Send(p, s, item) != p {
      SendView(p, s, item);
      if k != s {
        OthersHeld(p, Send(p, s, item), s, k);
      }
    }
    hide Send, RxOf;
  }

  lemma CompleteKept(p: Peer, s: StreamId, k: StreamId)
    requires Valid(p)
    ensures Balances(p, CompleteOut(p, s), k, 0, true)
  {
    hide Valid, Busy, ReleaseStream;
    if s in p.streams && !p.streams[s].outClosed && !Busy(p.outbox, s) {
      CompleteView(p, s);
      if k != s {
        OthersHeld(p, CompleteOut(p, s), s, k);
      }
      TwoSidesLive(p, s);
      hide CompleteOut, RxOf;
    }
  }

  lemma TwoSidesLive(p: Peer, s: StreamId)
    requires s in p.streams
    ensures RxOf(p, s).Live?
  {
  }

  lemma TerminateKept(p: Peer, s: StreamId, last: Body, k: StreamId)
    requires Valid(p)
    ensures Balances(p, Terminate(p, s, last), k, 0, true)
  {
    hide Valid, CancelStream;
    if s in p.streams {
      TerminateView(p, s, last);
      if k != s {
        OthersHeld(p, Terminate(p, s, last), s, k);
      }
      TwoSidesLive(p, s);
      hide Terminate, RxOf;
    }
  }

  lemma ReactKept(p: Peer, q: Peer, b: Body, reaction: Reaction, k: StreamId)
    requires Reacts(p, q, b, reaction) && (reaction == Accept || reaction.Refuse? ==> RxOf(p, b.id) == Unopened)
    ensures Balances(p, q, k, 0, true)
  {
    hide TxOf, RxOf, Queued, LiveStep;
    if k != b.id {
      OthersHeld(p, q, b.id, k);
    } else if reaction == Take {
      StepHeld(RxOf(p, b.id), b, p.cfg.maxInboundItemBytes);
    }
  }

  lemma HandleKept(p: Peer, b: Body, env: Environment, k: StreamId)
    requires Valid(p) && WellShaped(b) && HandleFrame(p, b, env).Handled?
    ensures Balances(p, HandleFrame(p, b, env).peer, k, 0, true)
  {
    hide Valid, Balances;
    if b.Open? {
      hide AttributeMemory, RejectOpen;
      var reaction := OpenedView(p, b, env);
      hide HandleFrame, Reacts;
      ReactKept(p, HandleFrame(p, b, env).peer, b, reaction, k);
    } else if b.id !in p.streams {
      SameKept(p, p, k);
    } else {
      LiveKept(p, b, env, k);
    }
  }

  lemma LiveKept(p: Peer, b: Body, env: Environment, k: StreamId)
    requires Valid(p) && WellShaped(b) && !b.Open? && b.id in p.streams && HandleFrame(p, b, env).Handled?
    ensures Balances(p, HandleFrame(p, b, env).peer, k, 0, true)
  {
    var q := HandleFrame(p, b, env).peer;
    hide Valid, CancelStream, ReleaseStream, Terminate, ClearReassembly, Balances;
    TwoSidesLive(p, b.id);
    match b {
      case Data(_, _, _) =>
        var reaction := DataView(p, b, env);
        ReactKept(p, q, b, reaction, k);
      case First(_, _, _, _) =>
        var reaction := DataView(p, b, env);
        ReactKept(p, q, b, reaction, k);
      case Fragment(_, _) =>
        FragmentView(p, b);
        MovedKept(p, q, b, k);
      case Demand(s, n) =>
        DemandView(p, s, n, env);
        MovedKept(p, q, b, k);
      case Complete(s) =>
        FinishView(p, s, env);
        MovedKept(p, q, b, k);
      case Cancel(s) =>
        CancelView(p, s, false);
        MovedKept(p, q, b, k);
      case Error(s, _) =>
        CancelView(p, s, false);
        MovedKept(p, q, b, k);
    }
  }

  lemma MovedKept(p: Peer, q: Peer, b: Body, k: StreamId)
    requires OthersKept(p, q, b.id) && RxOf(p, b.id).Live?
    requires Some(RxOf(q, b.id)) == LiveStep(RxOf(p, b.id), b, p.cfg.maxInboundItemBytes)
    ensures Balances(p, q, k, 0, true)
  {
    hide TxOf, RxOf, LiveStep;
    if k != b.id {
      OthersHeld(p, q, b.id, k);
    } else {
      StepHeld(RxOf(p, b.id), b, p.cfg.maxInboundItemBytes);
    }
  }

  lemma FlushKept(p: Peer, k: StreamId)
    ensures Flush(p).Some? ==> Balances(p, Flush(p).value.0, k, 0, true)
  {
    hide IsPast;
    if Flush(p).Some? {
      SamePast(p, Flush(p).value.0);
    }
  }

  lemma FeedKept(p: Peer, input: Input, k: StreamId)
    requires Valid(p) && (input.Arrival? ==> WellShaped(input.packet.body)) && Feed(p, input).Handled?
    ensures Balances(p, Feed(p, input).peer, k, Grant(p, input, k), !Saturates(p, input))
  {
    hide Valid, OpenNext, Request, Send, CompleteOut, Terminate, Flush, HandleFrame, Balances, Clips;
    match input
    case CallOpen(attributes, written) => OpenKept(p, attributes, written, k);
    case CallRequest(s, n) => RequestKept(p, s, n, k);
    case CallSend(s, item) => SendKept(p, s, item, k);
    case CallComplete(s) => CompleteKept(p, s, k);
    case CallCancel(s) => TerminateKept(p, s, Cancel(s), k);
    case CallFail(s, code) => TerminateKept(p, s, Error(s, code), k);
    case WriteOne =>
      FlushKept(p, k);
      SameKept(p, p, k);
    case Arrival(packet, env) => ArrivalKept(p, packet, env, k);
  }

  lemma ArrivalKept(p: Peer, packet: Packet, env: Environment, k: StreamId)
    requires Valid(p) && WellShaped(packet.body) && Receive(p, packet, env).Handled?
    ensures Balances(p, Receive(p, packet, env).peer, k, 0, true)
  {
    hide Valid, HandleFrame, RxOf, Held;
    var counted := p.(expectedSequence := p.expectedSequence + 1);
    AdvanceReceived(p);
    CountedView(p, k);
    HandleKept(counted, packet.body, env, k);
  }

  lemma CountedView(p: Peer, k: StreamId)
    ensures RxOf(p.(expectedSequence := p.expectedSequence + 1), k) == RxOf(p, k)
  {
  }

  // ---------------------------------------------------------------- whole runs of one session

  lemma TailDecodable(inputs: seq<Input>)
    requires Decodable(inputs) && inputs != []
    ensures Decodable(inputs[1..]) && (inputs[0].Arrival? ==> WellShaped(inputs[0].packet.body))
  {
    forall i | 0 <= i < |inputs[1..]| && inputs[1..][i].Arrival?
      ensures WellShaped(inputs[1..][i].packet.body)
    {
      assert inputs[1..][i] == inputs[i + 1];
    }
  }

  lemma {:induction false} RunHeld(p: Peer, inputs: seq<Input>, s: StreamId)
    requires Valid(p) && Decodable(inputs) && FeedAll(p, inputs).Handled?
    ensures var q := FeedAll(p, inputs).peer;
      && Held(RxOf(q, s)) <= Held(RxOf(p, s)) + Granted(p, inputs, s)
      && (NeverSaturates(p, inputs) && RxOf(q, s).Live? ==>
            Held(RxOf(q, s)) == Held(RxOf(p, s)) + Granted(p, inputs, s))
    decreases |inputs|
  {
    if inputs != [] {
      TailDecodable(inputs);
      FeedValid(p, inputs[0]);
      FeedKept(p, inputs[0], s);
      var next := Feed(p, inputs[0]).peer;
      RunHeld(next, inputs[1..], s);
      if RxOf(p, s).Live? && !RxOf(next, s).Live? {
        EndedStays(p, inputs, s);
      }
      hide Feed, Valid, RxOf, Held, Grant, Saturates;
    }
  }

  /** A stream that an input has ended is not live at the end of the run. */
  lemma EndedStays(p: Peer, inputs: seq<Input>, s: StreamId)
    requires Valid(p) && Decodable(inputs) && FeedAll(p, inputs).Handled? && inputs != []
    requires RxOf(p, s).Live? && !RxOf(Feed(p, inputs[0]).peer, s).Live?
    ensures !RxOf(FeedAll(p, inputs).peer, s).Live?
  {
    TailDecodable(inputs);
    FeedValid(p, inputs[0]);
    FeedOnward(p, inputs[0]);
    LiveIsPast(p);
    hide Valid, Feed, IsPast, WellShaped;
    NeverReopened(Feed(p, inputs[0]).peer, inputs[1..], s);
  }

  /**
   * Delivered items never exceed granted demand, whatever the peer sends: the items delivered on a stream,
   * one more if an item is under way, and the credit left are together no more than the demand its requests
   * granted. While the stream is live and nothing has saturated, they are exactly that.
   */
  lemma GrantedBounds(cfg: Config, inputs: seq<Input>, s: StreamId)
    requires ConfigOk(cfg) && Decodable(inputs) && FeedAll(Initial(cfg), inputs).Handled?
    ensures var p := FeedAll(Initial(cfg), inputs).peer;
      var granted := Granted(Initial(cfg), inputs, s);
      if s in p.streams then
        var held := |Log(p.delivered, s)| + (if p.streams[s].partial.Partial? then 1 else 0) + p.streams[s].inCredit;
        held <= granted && (NeverSaturates(Initial(cfg), inputs) ==> held == granted)
      else |Log(p.delivered, s)| <= granted
  {
    InitialValid(cfg);
    FeedAllValid(Initial(cfg), inputs);
    var p := FeedAll(Initial(cfg), inputs).peer;
    RunHeld(Initial(cfg), inputs, s);
    assert RxOf(Initial(cfg), s) == Unopened;
    Ledgers(p, s);
    hide FeedAll, Granted, NeverSaturates, Valid, IsPast;
  }

  // ---------------------------------------------------------------- runs of two sessions

  /** What an action of session a is to that session alone. */
  function InputOf(sys: System, action: Action): Input {
    match action
    case DoOpen(attributes, written) => CallOpen(attributes, written)
    case DoRequest(s, n) => CallRequest(s, n)
    case DoSend(s, item) => CallSend(s, item)
    case DoComplete(s) => CallComplete(s)
    case DoCancel(s) => CallCancel(s)
    case DoFail(s, code) => CallFail(s, code)
    case DoFlush => WriteOne
    case DoReceive(env) => if sys.ba == [] then CallRequest(0, 0) else Arrival(sys.ba[0], env)
  }

  /** One side's part in a run. */
  function Inputs(sys: System, run: seq<Event>, first: bool): seq<Input>
    decreases |run|
  {
    if run == [] then []
    else
      match Happen(sys, run[0])
      case Broke(_) => []
      case Went(next) =>
        var rest := Inputs(next, run[1..], first);
        if run[0].first == first then [InputOf(Side(sys, first), run[0].action)] + rest else rest
  }

  lemma ActFeeds(sys: System, action: Action)
    requires Act(sys, action).Went?
    ensures Feed(sys.a, InputOf(sys, action)) == Handled(Act(sys, action).sys.a) && Act(sys, action).sys.b == sys.b
  {
    hide OpenNext, Send, CompleteOut, Terminate, HandleFrame;
  }

  lemma InputDecodable(sys: System, action: Action)
    requires Inv(sys)
    ensures InputOf(sys, action).Arrival? ==> WellShaped(InputOf(sys, action).packet.body)
  {
    hide Core;
    if action.DoReceive? && sys.ba != [] {
      Receiving.HeadKnown(sys);
    }
  }

  /** Each side of a run of two is a run of one session. */
  lemma {:induction false} Projected(sys: System, run: seq<Event>, first: bool)
    requires Inv(sys) && Unclipped(sys, run) && Execute(sys, run).Went?
    ensures var inputs := Inputs(sys, run, first);
      && FeedAll(Side(sys, first).a, inputs) == Handled(Side(Execute(sys, run).sys, first).a)
      && Decodable(inputs) && NeverSaturates(Side(sys, first).a, inputs)
    decreases |run|
  {
    if run != [] {
      var next := Happen(sys, run[0]).sys;
      HappenInv(sys, run[0]);
      hide Inv;
      Projected(next, run[1..], first);
      HappenFeeds(sys, run[0], first);
      var rest := Inputs(next, run[1..], first);
      if run[0].first == first {
        var input := InputOf(Side(sys, first), run[0].action);
        ConsInputs(Side(sys, first).a, input, rest);
      }
      hide Happen, Feed, InputOf;
    }
  }

  lemma ConsInputs(p: Peer, input: Input, rest: seq<Input>)
    requires Feed(p, input).Handled? && !Saturates(p, input)
    ensures var q := Feed(p, input).peer;
      && FeedAll(p, [input] + rest) == FeedAll(q, rest)
      && (NeverSaturates(q, rest) ==> NeverSaturates(p, [input] + rest))
    ensures Decodable(rest) && (input.Arrival? ==> WellShaped(input.packet.body)) ==> Decodable([input] + rest)
  {
    hide Feed, WellShaped;
    assert ([input] + rest)[1..] == rest;
  }

  lemma HappenFeeds(sys: System, event: Event, first: bool)
    requires Inv(sys) && !Clips(Side(sys, event.first).a, event.action) && Happen(sys, event).Went?
    ensures var p, q := Side(sys, first).a, Side(Happen(sys, event).sys, first).a;
      var input := InputOf(Side(sys, first), event.action);
      if event.first != first then q == p
      else Feed(p, input) == Handled(q) && !Saturates(p, input) && (input.Arrival? ==> WellShaped(input.packet.body))
  {
    var side := Side(sys, event.first);
    InvFlip(sys);
    hide Inv, Act, Feed;
    ActFeeds(side, event.action);
    InputDecodable(side, event.action);
  }

  /**
   * Every credit ever granted on a live stream of an unsaturated run is accounted for: it paid for an item
   * that was delivered, or for one the receiver is putting together, or it is with the sender, or spent on an
   * item on its way, or in a DEMAND on its way.
   */
  lemma GrantsAccounted(a: Config, b: Config, run: seq<Event>, s: StreamId)
    requires MayMeet(a, b) && Unclipped(Start(a, b), run) && Execute(Start(a, b), run).Went?
    ensures var sys := Execute(Start(a, b), run).sys;
      s in sys.a.streams && s in sys.b.streams ==>
        Granted(Initial(b), Inputs(Start(a, b), run, false), s)
        == |Log(sys.b.delivered, s)| + (if sys.b.streams[s].partial.Partial? then 1 else 0)
           + sys.a.streams[s].outCredit + Charges(Rel(Pipe(sys.a, sys.ab), s)) + DemandSum(Pipe(sys.b, sys.ba), s)
  {
    StartInv(a, b);
    DemandConserved(a, b, run, s);
    Projected(Start(a, b), run, false);
    GrantedBounds(b, Inputs(Start(a, b), run, false), s);
    hide Inv, Execute, Inputs, Granted, FeedAll, NeverSaturates, Rel, DemandSum, Pipe;
  }
}
