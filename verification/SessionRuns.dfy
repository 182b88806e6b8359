/**
 * Runs of one session against any peer whatever: the frames that arrive are arbitrary, as long as
 * they pass the frame decoder. What the session accepts keeps its accounts exact and its ids unique.
 */
module SessionRuns {
  import opened Bytes
  import opened Frames
  import opened Sessions
  import opened Accounting
  import OpenLimits

  datatype Input =
    | CallOpen(attributes: seq<Attribute>, written: bool)
    | CallRequest(id: StreamId, n: int)
    | CallSend(id: StreamId, item: Item)
    | CallComplete(id: StreamId)
    | CallCancel(id: StreamId)
    | CallFail(id: StreamId, code: Option<bytes>)
    | WriteOne
    | Arrival(packet: Packet, env: Environment)

  function Feed(p: Peer, input: Input): Outcome {
    match input
    case CallOpen(attributes, written) => Handled(OpenNext(p, attributes, written))
    case CallRequest(s, n) => Handled(Request(p, s, n))
    case CallSend(s, item) => Handled(Send(p, s, item))
    case CallComplete(s) => Handled(CompleteOut(p, s))
    case CallCancel(s) => Handled(Terminate(p, s, Cancel(s)))
    case CallFail(s, code) => Handled(Terminate(p, s, Error(s, code)))
    case WriteOne => Handled(if Flush(p).Some? then Flush(p).value.0 else p)
    case Arrival(packet, env) => Receive(p, packet, env)
  }

  function FeedAll(p: Peer, inputs: seq<Input>): Outcome
    decreases |inputs|
  {
    if inputs == [] then Handled(p)
    else
      match Feed(p, inputs[0])
      case Violated(why) => Violated(why)
      case Handled(q) => FeedAll(q, inputs[1..])
  }

  /** The frames that arrive have passed the decoder. */
  predicate Decodable(inputs: seq<Input>) {
    forall i :: 0 <= i < |inputs| && inputs[i].Arrival? ==> WellShaped(inputs[i].packet.body)
  }

  lemma FeedValid(p: Peer, input: Input)
    requires Valid(p) && (input.Arrival? ==> WellShaped(input.packet.body)) && Feed(p, input).Handled?
    ensures Valid(Feed(p, input).peer)
  {
    hide Valid, OpenNext, Request, Send, CompleteOut, Terminate, Flush, Receive;
    match input
    case CallOpen(attributes, written) => OpenValid(p, attributes, written);
    case CallRequest(s, n) => RequestValid(p, s, n);
    case CallSend(s, item) => SendValid(p, s, item);
    case CallComplete(s) => CompleteValid(p, s);
    case CallCancel(s) => TerminateValid(p, s, Cancel(s));
    case CallFail(s, code) => TerminateValid(p, s, Error(s, code));
    case WriteOne =>
      if Flush(p).Some? {
        FlushValid(p);
      }
    case Arrival(packet, env) => ReceiveValid(p, packet, env);
  }

  lemma {:induction false} FeedAllValid(p: Peer, inputs: seq<Input>)
    requires Valid(p) && Decodable(inputs) && FeedAll(p, inputs).Handled?
    ensures Valid(FeedAll(p, inputs).peer)
    decreases |inputs|
  {
    hide Valid, Feed;
    if inputs != [] {
      FeedValid(p, inputs[0]);
      forall i | 0 <= i < |inputs[1..]| && inputs[1..][i].Arrival?
        ensures WellShaped(inputs[1..][i].packet.body)
      {
        assert inputs[1..][i] == inputs[i + 1];
      }
      FeedAllValid(Feed(p, inputs[0]).peer, inputs[1..]);
    }
  }

  /**
   * Exact accounting: however calls and frames interleave and whatever the peer sends, in every state
   * short of a violation the four counters are the sums over the stream map they stand for, within
   * their limits, and the tombstones are bounded, duplicate-free and disjoint from the live streams.
   */
  lemma AccountsExact(cfg: Config, inputs: seq<Input>)
    requires ConfigOk(cfg) && Decodable(inputs) && FeedAll(Initial(cfg), inputs).Handled?
    ensures var p := FeedAll(Initial(cfg), inputs).peer;
      && p.inFlight == Total(p.streams, ReservedBytes) <= p.cfg.maxInFlightReassemblyBytes
      && p.retainedBytes == Total(p.streams, RetainedBytes) <= p.cfg.maxRetainedStreamAttributeBytes
      && p.localActive == Total(p.streams, LocalCount) <= p.cfg.remoteMaxInboundStreams
      && p.remoteActive == Total(p.streams, RemoteCount) <= p.cfg.maxInboundStreams
    ensures var p := FeedAll(Initial(cfg), inputs).peer;
      && (forall i, j :: 0 <= i < j < |p.retiredOrder| ==> p.retiredOrder[i] != p.retiredOrder[j])
      && (forall s :: s in p.retired <==> s in p.retiredOrder)
      && |p.retiredOrder| <= p.cfg.maxRetiredStreams
      && (forall s :: s in p.retired ==> s !in p.streams && IsPast(p, s))
      && (forall s :: s in p.streams ==> IsPast(p, s))
  {
    InitialValid(cfg);
    FeedAllValid(Initial(cfg), inputs);
    var p := FeedAll(Initial(cfg), inputs).peer;
    Aspects(p);
    hide Valid, FeedAll, Total, IsPast, StreamOk;
    assert CountersOk(p);
    assert TombstonesOk(p);
    forall s | s in p.streams
      ensures IsPast(p, s)
    {
      LiveFacts(p, s);
    }
  }

  /** No decrement of a counter is ever floored at zero: what is given back was counted. */
  lemma NeverFloored(p: Peer, s: StreamId)
    requires Valid(p) && s in p.streams
    ensures var t := p.streams[s];
      && (t.local ==> Floor(p.localActive - 1) == p.localActive - 1)
      && (!t.local ==> Floor(p.remoteActive - 1) == p.remoteActive - 1)
      && Floor(p.retainedBytes - t.retained) == p.retainedBytes - t.retained
      && (t.partial.Partial? ==> Floor(p.inFlight - t.partial.total) == p.inFlight - t.partial.total)
  {
    Aspects(p);
    hide Valid, Total;
    assert CountersOk(p);
    TotalAtLeast(p.streams, s, ReservedBytes);
    TotalAtLeast(p.streams, s, RetainedBytes);
    TotalAtLeast(p.streams, s, LocalCount);
    TotalAtLeast(p.streams, s, RemoteCount);
  }

  // ---------------------------------------------------------------- ids are used once

  /** A known id stays known; a stream that appears had an unknown id. */
  ghost predicate Onward(p: Peer, q: Peer) {
    forall s :: (IsPast(p, s) ==> IsPast(q, s)) && (IsPast(p, s) && s !in p.streams ==> s !in q.streams)
  }

  lemma ArrivalOnward(p: Peer, b: Body, env: Environment)
    requires Valid(p) && HandleFrame(p, b, env).Handled?
    ensures Onward(p, HandleFrame(p, b, env).peer)
  {
    var q := HandleFrame(p, b, env).peer;
    var purge, frames := OpenLimits.HandleShape(p, b, env);
    HandleFrontier(p, b, env);
    NextRemoteIsNew(p);
    hide Valid, HandleFrame;
    forall s
      ensures (IsPast(p, s) ==> IsPast(q, s)) && (IsPast(p, s) && s !in p.streams ==> s !in q.streams)
    {
    }
  }

  lemma OpenFrontier(p: Peer, s: StreamId, attributes: seq<Attribute>, env: Environment)
    requires HandleOpen(p, s, attributes, env).Handled?
    ensures var q := HandleOpen(p, s, attributes, env).peer;
      (q.cfg, q.nextStreamId, q.highestRemote) == (p.cfg, p.nextStreamId, s)
    ensures s == ExpectedRemote(p)
  {
    hide Retire, AttributeMemory;
    RetireFrame(p.(highestRemote := s), s, true);
    RetireFrame(p.(highestRemote := s), s, false);
  }

  lemma HandleFrontier(p: Peer, b: Body, env: Environment)
    requires HandleFrame(p, b, env).Handled?
    ensures var q := HandleFrame(p, b, env).peer;
      (q.cfg, q.nextStreamId, q.highestRemote) == (p.cfg, p.nextStreamId, if b.Open? then b.id else p.highestRemote)
    ensures b.Open? ==> b.id == ExpectedRemote(p)
  {
    hide CancelStream, ReleaseStream, HandleData, HandleFragment, HandleOpen;
    if b.Open? {
      OpenFrontier(p, b.id, b.attributes, env);
    } else if b.id in p.streams {
      match b
      case Data(_, _, _) => DataFrontier(p, b, env);
      case First(_, _, _, _) => DataFrontier(p, b, env);
      case Fragment(_, _) => FragmentFrontier(p, b);
      case Demand(_, _) =>
      case Complete(s) =>
        ReleaseFrontier(p.(streams := p.streams[s := p.streams[s].(inClosed := true)], finished := p.finished + {s}), s);
      case Cancel(s) => CancelFrontier(p, s, false);
      case Error(s, _) => CancelFrontier(p, s, false);
    }
  }

  lemma DataFrontier(p: Peer, b: Body, env: Environment)
    requires (b.Data? || b.First?) && b.id in p.streams && HandleData(p, b, env).Handled?
    ensures SameFrontiers(p, HandleData(p, b, env).peer)
  {
    var t := p.streams[b.id];
    CancelFrontier(p.(streams := p.streams[b.id := t.(inCredit := t.inCredit - 1)]), b.id, true);
    hide CancelStream;
  }

  lemma FragmentFrontier(p: Peer, b: Body)
    requires b.Fragment? && b.id in p.streams && HandleFragment(p, b).Handled?
    ensures SameFrontiers(p, HandleFragment(p, b).peer)
  {
  }

  lemma CancelFrontier(p: Peer, s: StreamId, lenient: bool)
    requires s in p.streams
    ensures SameFrontiers(p, CancelStream(p, s, lenient))
  {
    var c := ClearReassembly(p, s);
    ClearFrame(p, s);
    ForgetFrame(c, s);
    var f := Forget(c, s);
    hide ClearReassembly, Forget;
    RetireFrame(f.(outbox := Purge(f.outbox, s)), s, lenient);
  }

  lemma ReleaseFrontier(p: Peer, s: StreamId)
    requires s in p.streams
    ensures SameFrontiers(p, ReleaseStream(p, s))
  {
    ForgetFrame(p, s);
    RetireFrame(Forget(p, s), s, false);
  }

  lemma CallOnward(p: Peer, q: Peer, s: StreamId, purge: bool, frames: seq<Body>)
    requires OpenLimits.Shaped(p, q, s, purge, frames, []) && SameFrontiers(p, q)
    ensures Onward(p, q)
  {
    SamePast(p, q);
  }

  lemma TerminateOnward(p: Peer, s: StreamId, last: Body)
    requires !last.Open?
    ensures Onward(p, Terminate(p, s, last))
  {
    if s in p.streams {
      OpenLimits.TerminateShape(p, s, last);
      CancelFrontier(p, s, true);
      hide CancelStream;
      CallOnward(p, Terminate(p, s, last), s, true, [last]);
    }
  }

  lemma CompleteOnward(p: Peer, s: StreamId)
    ensures Onward(p, CompleteOut(p, s))
  {
    var frames := OpenLimits.CompleteShape(p, s);
    if CompleteOut(p, s) != p {
      ReleaseFrontier(p.(streams := p.streams[s := p.streams[s].(outClosed := true)],
                         outbox := p.outbox + [Complete(s)], completed := p.completed + {s}), s);
    }
    hide ReleaseStream, Busy;
    CallOnward(p, CompleteOut(p, s), s, false, frames);
  }

  lemma FeedOnward(p: Peer, input: Input)
    requires Valid(p) && Feed(p, input).Handled?
    ensures Onward(p, Feed(p, input).peer)
  {
    hide Terminate, CompleteOut, HandleFrame;
    match input
    case CallOpen(attributes, written) =>
      NextLocalIsNew(p);
      hide Valid, AttributeMemory;
    case CallRequest(s, n) =>
      var frames := OpenLimits.RequestShape(p, s, n);
      CallOnward(p, Request(p, s, n), s, false, frames);
    case CallSend(s, item) =>
      var frames := OpenLimits.SendShape(p, s, item);
      CallOnward(p, Send(p, s, item), s, false, frames);
    case CallComplete(s) => CompleteOnward(p, s);
    case CallCancel(s) => TerminateOnward(p, s, Cancel(s));
    case CallFail(s, code) => TerminateOnward(p, s, Error(s, code));
    case WriteOne =>
    case Arrival(packet, env) =>
      var counted := p.(expectedSequence := p.expectedSequence + 1);
      AdvanceReceived(p);
      SamePast(p, counted);
      ArrivalOnward(counted, packet.body, env);
      hide Valid, IsPast;
      forall s
        ensures (IsPast(p, s) ==> IsPast(Feed(p, input).peer, s))
        ensures IsPast(p, s) && s !in p.streams ==> s !in Feed(p, input).peer.streams
      {
      }
  }

  /** An id that has been used is never live again, however long ago its tombstone was evicted. */
  lemma {:induction false} NeverReopened(p: Peer, inputs: seq<Input>, s: StreamId)
    requires Valid(p) && Decodable(inputs) && FeedAll(p, inputs).Handled?
    requires IsPast(p, s) && s !in p.streams
    ensures IsPast(FeedAll(p, inputs).peer, s) && s !in FeedAll(p, inputs).peer.streams
    decreases |inputs|
  {
    if inputs != [] {
      FeedValid(p, inputs[0]);
      FeedOnward(p, inputs[0]);
      forall i | 0 <= i < |inputs[1..]| && inputs[1..][i].Arrival?
        ensures WellShaped(inputs[1..][i].packet.body)
      {
        assert inputs[1..][i] == inputs[i + 1];
      }
      hide Valid, Feed, IsPast;
      NeverReopened(Feed(p, inputs[0]).peer, inputs[1..], s);
    }
  }
}
