/** What every step of two sessions keeps: an OPEN finds its receiver below its stream limit (see `Saturation`). */
module OpenLimits {
  import opened Bytes
  import opened Frames
  import opened StreamLink
  import opened Sessions
  import opened Accounting
  import opened Views
  import opened TwoPeers
  import opened Runs
  import opened StreamCounts
  import Steps
  import FragmentPlan

  ghost predicate Roomy(sys: System) {
    && RoomFrom(sys.b, [], Pipe(sys.a, sys.ab), LocalParity(sys.a.cfg))
    && RoomFrom(sys.a, [], Pipe(sys.b, sys.ba), LocalParity(sys.b.cfg))
  }

  // ---------------------------------------------------------------- what operations do to streams and outbox

  /** The outbox lost DATA of `s` or gained frames other than OPEN; no stream appeared but by `head`. */
  ghost predicate Shaped(p: Peer, q: Peer, s: StreamId, purge: bool, frames: seq<Body>, head: seq<Body>) {
    && q.cfg == p.cfg
    && q.outbox == Queued(p.outbox, s, purge, frames) && NoOpen(frames)
    && (forall t :: t in q.streams ==>
          Opens(head, t) || (t in p.streams && (p.streams[t].outClosed ==> q.streams[t].outClosed)))
  }

  lemma CancelShape(p: Peer, s: StreamId, lenient: bool)
    requires s in p.streams
    ensures var q := CancelStream(p, s, lenient);
      q.cfg == p.cfg && q.outbox == Purge(p.outbox, s) && q.streams == p.streams - {s}
  {
    var c := ClearReassembly(p, s);
    ClearFrame(p, s);
    ForgetFrame(c, s);
    var f := Forget(c, s);
    assert f.streams == p.streams - {s};
    hide ClearReassembly, Forget;
    RetireFrame(f.(outbox := Purge(f.outbox, s)), s, lenient);
  }

  lemma ReleaseShape(p: Peer, s: StreamId)
    requires s in p.streams
    ensures var q := ReleaseStream(p, s);
      && q.cfg == p.cfg && q.outbox == p.outbox
      && q.streams == if p.streams[s].inClosed && p.streams[s].outClosed then p.streams - {s} else p.streams
  {
    ForgetFrame(p, s);
    RetireFrame(Forget(p, s), s, false);
  }

  lemma TerminateShape(p: Peer, s: StreamId, last: Body)
    requires !last.Open?
    ensures var q := Terminate(p, s, last);
      s in p.streams ==> Shaped(p, q, s, true, [last], []) && q.streams == p.streams - {s}
  {
    if s in p.streams {
      CancelShape(p, s, true);
    }
  }

  lemma RejectShape(p: Peer, s: StreamId, lenient: bool, code: Option<bytes>)
    ensures var q := RejectOpen(p, s, lenient, code);
      q.cfg == p.cfg && q.streams == p.streams && q.outbox == p.outbox + [Error(s, code)]
  {
    RetireFrame(p, s, lenient);
    hide Retire;
  }

  lemma GrownShape(p: Peer, q: Peer, s: StreamId, frames: seq<Body>, head: seq<Body>)
    requires q.cfg == p.cfg && q.outbox == p.outbox + frames && NoOpen(frames)
    requires forall t :: t in q.streams ==>
      Opens(head, t) || (t in p.streams && (p.streams[t].outClosed ==> q.streams[t].outClosed))
    ensures Shaped(p, q, s, false, frames, head)
  {
  }

  lemma OpenShape(p: Peer, b: Body, env: Environment) returns (frames: seq<Body>)
    requires b.Open? && HandleFrame(p, b, env).Handled?
    ensures Shaped(p, HandleFrame(p, b, env).peer, b.id, false, frames, [b])
  {
    hide RejectOpen, AttributeMemory, Shaped, NoOpen;
    var q, past := HandleFrame(p, b, env).peer, p.(highestRemote := b.id);
    RejectShape(past, b.id, false, Exhausted());
    if env.verdict.AcceptorThrows? {
      RejectShape(past, b.id, true, env.verdict.code);
    }
    frames := q.outbox[|p.outbox|..];
    assert p.outbox + [] == p.outbox;
    assert [b][0].Open? && [b][0].id == b.id;
    assert frames == [] || frames == [q.outbox[|p.outbox|]];
    assert NoOpen(frames) by { EndsDoNotOpen(frames, b.id); }
    GrownShape(p, q, b.id, frames, [b]);
  }

  lemma EndsDoNotOpen(frames: seq<Body>, s: StreamId)
    requires forall i :: 0 <= i < |frames| ==> frames[i].Error?
    ensures NoOpen(frames)
  {
  }

  lemma DataShape(p: Peer, b: Body, env: Environment) returns (purge: bool, frames: seq<Body>)
    requires (b.Data? || b.First?) && b.id in p.streams && HandleData(p, b, env).Handled?
    ensures Shaped(p, HandleData(p, b, env).peer, b.id, purge, frames, [b])
  {
    hide Terminate, Purge, Shaped;
    var t := p.streams[b.id];
    var q := p.(streams := p.streams[b.id := t.(inCredit := t.inCredit - 1)]);
    var r := HandleData(p, b, env).peer;
    TerminateShape(q, b.id, Error(b.id, Exhausted()));
    purge := b.id !in r.streams;
    if purge {
      frames := [Error(b.id, Exhausted())];
      WiderShape(p, q, r, b.id, frames, [b]);
    } else {
      frames := [];
      assert p.outbox + [] == p.outbox;
      GrownShape(p, r, b.id, [], [b]);
    }
  }

  lemma WiderShape(p: Peer, q: Peer, r: Peer, s: StreamId, frames: seq<Body>, head: seq<Body>)
    requires Shaped(q, r, s, true, frames, []) && q.cfg == p.cfg && q.outbox == p.outbox
    requires forall t :: t in q.streams ==> t in p.streams && q.streams[t].outClosed == p.streams[t].outClosed
    ensures Shaped(p, r, s, true, frames, head)
  {
    hide Purge;
  }

  lemma FragmentShape(p: Peer, b: Body)
    requires b.Fragment? && b.id in p.streams && HandleFragment(p, b).Handled?
    ensures Shaped(p, HandleFragment(p, b).peer, b.id, false, [], [b])
  {
    assert p.outbox + [] == p.outbox;
  }

  lemma HandleShape(p: Peer, b: Body, env: Environment) returns (purge: bool, frames: seq<Body>)
    requires HandleFrame(p, b, env).Handled?
    ensures var q := HandleFrame(p, b, env).peer;
      && Shaped(p, q, b.id, purge, frames, [b])
      && (!b.Open? && Ends(p, b.id, b) ==> b.id !in q.streams)
  {
    purge, frames := false, [];
    assert p.outbox + [] == p.outbox;
    hide Retire, Forget, ClearReassembly, Queued;
    assert Queued(p.outbox, b.id, false, []) == p.outbox by { assert Queued(p.outbox, b.id, false, []) == p.outbox + []; }
    if b.Open? {
      frames := OpenShape(p, b, env);
    } else if b.id in p.streams {
      hide CancelStream, ReleaseStream, Terminate;
      match b
      case Data(_, _, _) => purge, frames := DataShape(p, b, env);
      case First(_, _, _, _) => purge, frames := DataShape(p, b, env);
      case Fragment(_, _) => FragmentShape(p, b);
      case Demand(s, n) =>
      case Complete(s) =>
        ReleaseShape(p.(streams := p.streams[s := p.streams[s].(inClosed := true)], finished := p.finished + {s}), s);
      case Cancel(s) =>
        purge := true;
        CancelShape(p, s, false);
        assert Queued(p.outbox, s, true, []) == Purge(p.outbox, s) + [] == Purge(p.outbox, s);
      case Error(s, _) =>
        purge := true;
        CancelShape(p, s, false);
        assert Queued(p.outbox, s, true, []) == Purge(p.outbox, s) + [] == Purge(p.outbox, s);
    }
  }

  // ---------------------------------------------------------------- steps keep room

  /** Both directions, after a step of session a that wrote no OPEN. */
  lemma ShapedRoomy(sys: System, a': Peer, s: StreamId, purge: bool, frames: seq<Body>, head: seq<Body>, ba: seq<Packet>)
    requires Core(sys) && Roomy(sys) && Shaped(sys.a, a', s, purge, frames, head)
    requires || (head == [] && ba == sys.ba)
             || (sys.ba != [] && head == [sys.ba[0].body] && ba == sys.ba[1..])
    requires head != [] && !head[0].Open? && Ends(sys.a, head[0].id, head[0]) ==> head[0].id !in a'.streams
    ensures Roomy(sys.(a := a', ba := ba))
  {
    var rest := Pipe(sys.b, ba);
    if head == [] {
      assert Pipe(sys.b, sys.ba) == [] + rest;
    } else {
      Steps.PipeTail(sys.b, sys.ba);
      assert Pipe(sys.b, sys.ba) == head + rest;
    }
    hide Core, RoomFrom, Queued;
    assert Shrinks(sys, a', head, rest);
    hide Shrinks;
    RoomShrinks(sys, a', head, rest);
    RoomQueued(sys.b, Bodies(sys.ab), sys.a.outbox, s, purge, frames, LocalParity(sys.a.cfg));
  }

  lemma OpenRoomy(sys: System, attributes: seq<Attribute>)
    requires Inv(sys) && Roomy(sys) && MayOpen(sys.a, attributes)
    ensures Roomy(sys.(a := OpenNext(sys.a, attributes, true)))
  {
    var a' := OpenNext(sys.a, attributes, true);
    var s := sys.a.nextStreamId;
    var open := Open(s, attributes);
    var out, back := Pipe(sys.a, sys.ab), Pipe(sys.b, sys.ba);
    assert Piece(sys, Peers);
    NextLocalIsNew(sys.a);
    RoomForNext(sys);
    hide Core, RoomFrom, AttributeMemory;
    assert Pipe(a', sys.ab) == out + [open];
    RoomOpened(sys.b, out, open, LocalParity(sys.a.cfg));
    assert [] + back == back;
    assert Shrinks(sys, a', [], back) by {
      assert Narrower(sys.a, a', [], LocalParity(sys.b.cfg));
    }
    RoomShrinks(sys, a', [], back);
  }

  lemma ReceiveRoomy(sys: System, env: Environment)
    requires Inv(sys) && Roomy(sys) && sys.ba != [] && Receive(sys.a, sys.ba[0], env).Handled?
    ensures Roomy(sys.(a := Receive(sys.a, sys.ba[0], env).peer, ba := sys.ba[1..]))
  {
    var b := sys.ba[0].body;
    var counted := sys.a.(expectedSequence := sys.a.expectedSequence + 1);
    var a' := Receive(sys.a, sys.ba[0], env).peer;
    hide Core, RoomFrom;
    var purge, frames := HandleShape(counted, b, env);
    assert Shaped(sys.a, a', b.id, purge, frames, [b]);
    hide Shaped, HandleFrame;
    ShapedRoomy(sys, a', b.id, purge, frames, [b], sys.ba[1..]);
  }

  lemma FlushRoomy(sys: System)
    requires Inv(sys) && Roomy(sys) && Flush(sys.a).Some?
    ensures var (a', packet) := Flush(sys.a).value; Roomy(sys.(a := a', ab := sys.ab + [packet]))
  {
    var (a', packet) := Flush(sys.a).value;
    assert Bodies(sys.ab + [packet]) == Bodies(sys.ab) + [packet.body];
    assert Pipe(a', sys.ab + [packet]) == Pipe(sys.a, sys.ab);
    var back := Pipe(sys.b, sys.ba);
    assert [] + back == back;
    hide Core, RoomFrom;
    assert Shrinks(sys, a', [], back);
    RoomShrinks(sys, a', [], back);
  }

  lemma SendShape(p: Peer, s: StreamId, item: Item) returns (frames: seq<Body>)
    ensures Shaped(p, Send(p, s, item), s, false, frames, [])
  {
    assert p.outbox + [] == p.outbox;
    frames := [];
    if MaySend(p, s) && FragmentPlan.Plan(s, item, p.cfg.outbound).Planned? {
      FragmentPlan.PlanLegit(s, item, p.cfg.outbound);
      frames := FragmentPlan.Plan(s, item, p.cfg.outbound).frames;
    }
    hide FragmentPlan.Plan, Busy;
  }

  lemma CompleteShape(p: Peer, s: StreamId) returns (frames: seq<Body>)
    ensures Shaped(p, CompleteOut(p, s), s, false, frames, [])
  {
    assert p.outbox + [] == p.outbox;
    hide ReleaseStream, Busy;
    frames := [];
    if s in p.streams && !p.streams[s].outClosed && !Busy(p.outbox, s) {
      frames := [Complete(s)];
      ReleaseShape(p.(streams := p.streams[s := p.streams[s].(outClosed := true)],
                      outbox := p.outbox + frames, completed := p.completed + {s}), s);
    }
  }

  lemma RequestShape(p: Peer, s: StreamId, n: int) returns (frames: seq<Body>)
    ensures Shaped(p, Request(p, s, n), s, false, frames, [])
  {
    assert p.outbox + [] == p.outbox;
    frames := if Request(p, s, n) == p then [] else [Demand(s, n)];
  }

  lemma EndRoomy(sys: System, s: StreamId, last: Body)
    requires Core(sys) && Roomy(sys) && !last.Open?
    ensures Roomy(sys.(a := Terminate(sys.a, s, last)))
  {
    hide Core, RoomFrom, CancelStream;
    if s in sys.a.streams {
      TerminateShape(sys.a, s, last);
      hide Terminate, Shaped;
      ShapedRoomy(sys, Terminate(sys.a, s, last), s, true, [last], [], sys.ba);
    }
  }

  lemma ActRoomy(sys: System, action: Action)
    requires Inv(sys) && Roomy(sys) && Act(sys, action).Went?
    ensures Roomy(Act(sys, action).sys)
  {
    hide Roomy, OpenNext, Request, Send, CompleteOut, Terminate, Flush, Receive, Shaped;
    match action
    case DoOpen(attributes, written) =>
      OpenTried(sys.a, attributes, written);
      if MayOpen(sys.a, attributes) && written {
        OpenRoomy(sys, attributes);
      }
    case DoRequest(s, n) =>
      var frames := RequestShape(sys.a, s, n);
      ShapedRoomy(sys, Request(sys.a, s, n), s, false, frames, [], sys.ba);
    case DoSend(s, item) =>
      var frames := SendShape(sys.a, s, item);
      ShapedRoomy(sys, Send(sys.a, s, item), s, false, frames, [], sys.ba);
    case DoComplete(s) =>
      var frames := CompleteShape(sys.a, s);
      ShapedRoomy(sys, CompleteOut(sys.a, s), s, false, frames, [], sys.ba);
    case DoCancel(s) => EndRoomy(sys, s, Cancel(s));
    case DoFail(s, code) => EndRoomy(sys, s, Error(s, code));
    case DoFlush =>
      if Flush(sys.a).Some? {
        FlushRoomy(sys);
      }
    case DoReceive(env) =>
      if sys.ba != [] {
        ReceiveRoomy(sys, env);
      }
  }

  lemma OpenTried(p: Peer, attributes: seq<Attribute>, written: bool)
    ensures !(MayOpen(p, attributes) && written) ==> OpenNext(p, attributes, written) == p
    ensures MayOpen(p, attributes) && written ==> OpenNext(p, attributes, written) == OpenNext(p, attributes, true)
  {
  }

  lemma HeadHasRoom(sys: System)
    requires Inv(sys) && Roomy(sys) && sys.ba != [] && sys.ba[0].body.Open?
    ensures sys.a.remoteActive < sys.a.cfg.maxInboundStreams
  {
    var parity := LocalParity(sys.b.cfg);
    Steps.PipeTail(sys.b, sys.ba);
    assert Piece(sys, Peers);
    hide Inv;
    Aspects(sys.a);
    assert CountersOk(sys.a);
    CountIsTotal(sys.a.streams, false);
    forall t | t in Having(sys.a.streams, false)
      ensures t in Alive(sys.a, [], parity)
    {
      LiveFacts(sys.a, t);
      AliveMeans(sys.a, [], parity, t);
    }
    Fewer(Having(sys.a.streams, false), Alive(sys.a, [], parity));
  }
}
