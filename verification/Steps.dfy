/** How one step of either session preserves the two-peer invariant. */
module Steps {
  import opened Frames
  import opened StreamLink
  import opened Sessions
  import opened Accounting
  import opened Views
  import opened Effects
  import opened Pipes
  import opened TwoPeers
  import opened Moves
  import FragmentPlan

  // ---------------------------------------------------------------- the other streams

  lemma OthersJoined(x: Peer, x': Peer, y: Peer, out: seq<Body>, out': seq<Body>,
                     back: seq<Body>, back': seq<Body>, s: StreamId)
    requires OthersKept(x, x', s) && x'.cfg == x.cfg
    requires Holds(x, y, out, back, Coupling) && Holds(y, x, back, out, Coupling)
    requires SameElsewhere(out, out', s) && SameElsewhere(back, back', s)
    requires Joined(x', y, out', back', s) && Joined(y, x', back', out', s)
    ensures Holds(x', y, out', back', Coupling) && Holds(y, x', back', out', Coupling)
  {
    forall k: StreamId
      ensures Joined(x', y, out', back', k) && Joined(y, x', back', out', k)
    {
      if k != s {
        assert Joined(x, y, out, back, k) && Joined(y, x, back, out, k) && Kept(x, x', k);
        hide TxOf, RxOf, Coupled;
        if RxOf(x, k).Gone? {
          RxEvict(TxOf(y, k), RxOf(x, k), Rel(back, k), DemandSum(out, k), x.cfg.maxInboundItemBytes);
        }
      }
    }
  }

  // ---------------------------------------------------------------- one step of session a

  lemma BackElsewhere(sys: System, next: System, s: StreamId)
    requires next.b == sys.b
    requires next.ba == sys.ba || (sys.ba != [] && next.ba == sys.ba[1..] && sys.ba[0].body.id == s)
    ensures SameElsewhere(Pipe(sys.b, sys.ba), Pipe(next.b, next.ba), s)
  {
    var back := Pipe(sys.b, sys.ba);
    if next.ba != sys.ba {
      PipeTail(sys.b, sys.ba);
      TailElsewhere(back);
    }
  }

  lemma PipeTail(y: Peer, wire: seq<Packet>)
    requires wire != []
    ensures Pipe(y, wire) != [] && Pipe(y, wire)[0] == wire[0].body && Pipe(y, wire)[1..] == Pipe(y, wire[1..])
  {
  }

  lemma StepUnwritten(x: Peer, x': Peer, y: Peer, out: seq<Body>, back: seq<Body>, out': seq<Body>, back': seq<Body>,
                      s: StreamId, purge: bool, frames: seq<Body>)
    requires Holds(x, y, out, back, Unwritten)
    requires x'.outbox == Queued(x.outbox, s, purge, frames)
    requires forall i :: 0 <= i < |frames| ==> frames[i].id == s
    requires Tidy(Rel(x'.outbox, s))
    ensures Holds(x', y, out', back', Unwritten)
  {
    QueuedElsewhere([], x.outbox, s, purge, frames);
    assert [] + x.outbox == x.outbox && [] + x'.outbox == x'.outbox;
    hide Tidy, Queued;
  }

  /** Every frame in the pipe is about a stream the sender knows. */
  lemma StepKnown(sys: System, next: System, s: StreamId, purge: bool, frames: seq<Body>)
    requires Holds(sys.a, sys.b, Pipe(sys.a, sys.ab), Pipe(sys.b, sys.ba), Known)
    requires Holds(sys.b, sys.a, Pipe(sys.b, sys.ba), Pipe(sys.a, sys.ab), Known)
    requires next.b == sys.b && next.ab == sys.ab
    requires next.ba == sys.ba || (sys.ba != [] && next.ba == sys.ba[1..])
    requires next.a.outbox == Queued(sys.a.outbox, s, purge, frames)
    requires forall i :: 0 <= i < |frames| ==> frames[i].id == s && Legit(frames[i])
    requires frames != [] ==> IsPast(next.a, s)
    requires forall k :: IsPast(sys.a, k) ==> IsPast(next.a, k)
    ensures Holds(next.a, next.b, Pipe(next.a, next.ab), Pipe(next.b, next.ba), Known)
    ensures Holds(next.b, next.a, Pipe(next.b, next.ba), Pipe(next.a, next.ab), Known)
  {
    hide IsPast, Legit;
    var out, out' := Pipe(sys.a, sys.ab), Pipe(next.a, next.ab);
    forall i | 0 <= i < |out'|
      ensures IsPast(next.a, out'[i].id) && Legit(out'[i])
    {
      QueuedMember(Bodies(sys.ab), sys.a.outbox, s, purge, frames, i);
    }
    if next.ba != sys.ba {
      PipeTail(sys.b, sys.ba);
    }
  }

  lemma QueuedMember(wire: seq<Body>, outbox: seq<Body>, s: StreamId, purge: bool, frames: seq<Body>, i: nat)
    requires i < |wire + Queued(outbox, s, purge, frames)|
    ensures var b := (wire + Queued(outbox, s, purge, frames))[i]; b in wire + outbox || b in frames
  {
    var kept := if purge then Purge(outbox, s) else outbox;
    if |wire| <= i < |wire| + |kept| {
      PurgeMember(outbox, s);
      assert kept[i - |wire|] in kept;
    }
  }

  lemma {:induction false} PurgeMember(q: seq<Body>, s: StreamId)
    ensures forall b :: b in Purge(q, s) ==> b in q
    decreases |q|
  {
    if q != [] {
      PurgeMember(q[1..], s);
    }
  }

  /**
   * One step of session a, on stream `s`: what the step does not touch stays coupled, and what it
   * does is coupled by hypothesis.
   */
  lemma Step(sys: System, next: System, s: StreamId, purge: bool, frames: seq<Body>)
    requires Core(sys) && Valid(next.a)
    requires next.b == sys.b && next.ab == sys.ab && next.a.cfg == sys.a.cfg
    requires next.ba == sys.ba || (sys.ba != [] && next.ba == sys.ba[1..] && sys.ba[0].body.id == s)
    requires OthersKept(sys.a, next.a, s)
    requires next.a.outbox == Queued(sys.a.outbox, s, purge, frames)
    requires forall i :: 0 <= i < |frames| ==> frames[i].id == s && Legit(frames[i])
    requires frames != [] ==> IsPast(next.a, s)
    requires forall k :: IsPast(sys.a, k) ==> IsPast(next.a, k)
    requires Holds(next.a, next.b, Pipe(next.a, next.ab), Pipe(next.b, next.ba), Opening)
    requires Holds(next.b, next.a, Pipe(next.b, next.ba), Pipe(next.a, next.ab), Opening)
    requires Settled(next.a, next.b, Pipe(next.a, next.ab), Pipe(next.b, next.ba), s)
    ensures Core(next)
  {
    var out, back := Pipe(sys.a, sys.ab), Pipe(sys.b, sys.ba);
    var out', back' := Pipe(next.a, next.ab), Pipe(next.b, next.ba);
    Pieces(sys);
    Pieces(next);
    Facets(sys.a, sys.b, out, back);
    Facets(sys.b, sys.a, back, out);
    Facets(next.a, next.b, out', back');
    Facets(next.b, next.a, back', out');
    Ties(next.a, next.b, out', back', s);
    assert Piece(sys, Peers) && Piece(sys, Forth) && Piece(sys, Back);
    assert Piece(next, Peers);
    assert Tied(next.a, next.b, out', back', s, Writing);
    assert Joined(next.a, next.b, out', back', s) by { assert Tied(next.a, next.b, out', back', s, Sending); }
    assert Joined(next.b, next.a, back', out', s) by { assert Tied(next.a, next.b, out', back', s, Receiving); }
    hide Core, Valid, Joined, IsPast, Legit, Settled;
    assert Linked(sys.a, sys.b, out, back) && Linked(sys.b, sys.a, back, out);
    hide Linked;
    QueuedElsewhere(Bodies(sys.ab), sys.a.outbox, s, purge, frames);
    BackElsewhere(sys, next, s);
    OthersJoined(sys.a, next.a, sys.b, out, out', back, back', s);
    StepUnwritten(sys.a, next.a, sys.b, out, back, out', back', s, purge, frames);
    StepKnown(sys, next, s, purge, frames);
    assert Holds(next.b, next.a, back', out', Unwritten);
    assert Piece(next, Forth) && Piece(next, Back);
  }

  /** A step in which session a receives nothing: only its outbox and its view of `s` change. */
  lemma LocalStep(sys: System, a': Peer, s: StreamId, purge: bool, frames: seq<Body>)
    requires Inv(sys) && Valid(a') && Moved(sys.a, a', s, purge, frames) && IsPast(sys.a, s)
    requires forall i :: 0 <= i < |frames| ==> frames[i].id == s && Legit(frames[i]) && !frames[i].Open?
    requires Settled(a', sys.b, Pipe(a', sys.ab), Pipe(sys.b, sys.ba), s)
    ensures Inv(sys.(a := a'))
  {
    hide Valid, Linked, Settled, Core, Legit;
    QueuedOpening(sys, a', s, purge, frames);
    SamePast(sys.a, a');
    hide IsPast, Piece, Holds;
    Step(sys, sys.(a := a'), s, purge, frames);
  }

  /** Frames other than OPEN, about a known stream, do not disturb the order of the OPENs. */
  lemma QueuedOpening(sys: System, a': Peer, s: StreamId, purge: bool, frames: seq<Body>)
    requires Core(sys) && Moved(sys.a, a', s, purge, frames) && IsPast(sys.a, s)
    requires forall i :: 0 <= i < |frames| ==> frames[i].id == s && !frames[i].Open?
    ensures Holds(a', sys.b, Pipe(a', sys.ab), Pipe(sys.b, sys.ba), Opening)
    ensures Holds(sys.b, a', Pipe(sys.b, sys.ba), Pipe(a', sys.ab), Opening)
  {
    assert Piece(sys, Forth) && Piece(sys, Back);
    hide Core, OthersKept, Queued;
    assert Holds(sys.a, sys.b, Pipe(sys.a, sys.ab), Pipe(sys.b, sys.ba), Opening);
    assert Holds(sys.b, sys.a, Pipe(sys.b, sys.ba), Pipe(sys.a, sys.ab), Opening);
    hide Linked;
    OpensQueued(Bodies(sys.ab), sys.a.outbox, s, purge, frames, ExpectedRemote(sys.b), LocalParity(sys.a.cfg));
  }

  lemma StreamFacts(sys: System, s: StreamId)
    requires Core(sys)
    ensures Settled(sys.a, sys.b, Pipe(sys.a, sys.ab), Pipe(sys.b, sys.ba), s)
    ensures Valid(sys.a) && Valid(sys.b) && Paired(sys.a.cfg, sys.b.cfg)
  {
    assert Piece(sys, Forth) && Piece(sys, Back) && Piece(sys, Peers);
    var out, back := Pipe(sys.a, sys.ab), Pipe(sys.b, sys.ba);
    Ties(sys.a, sys.b, out, back, s);
    hide Core, Valid, Joined, Tidy, Rel, Settled;
    assert Holds(sys.a, sys.b, out, back, Coupling) && Holds(sys.b, sys.a, back, out, Coupling);
    assert Holds(sys.a, sys.b, out, back, Unwritten);
  }

  // ---------------------------------------------------------------- application calls

  lemma RequestStep(sys: System, s: StreamId, n: int)
    requires Inv(sys)
    requires s in sys.a.streams && 1 <= n <= MAX_CREDIT ==> Below(sys.a.streams[s].inCredit + n, sys.a.cfg.creditCap)
    ensures Inv(sys.(a := Request(sys.a, s, n)))
  {
    hide Core, Valid, Settled, IsPast;
    if !(1 <= n <= MAX_CREDIT) || s !in sys.a.streams || sys.a.streams[s].inClosed {
      assert sys.(a := Request(sys.a, s, n)) == sys;
      return;
    }
    StreamFacts(sys, s);
    LiveFacts(sys.a, s);
    RequestValid(sys.a, s, n);
    RequestView(sys.a, s, n);
    RequestMove(sys.a, Request(sys.a, s, n), sys.b, Bodies(sys.ab), Pipe(sys.b, sys.ba), s, n);
    hide Request;
    LocalStep(sys, Request(sys.a, s, n), s, false, [Demand(s, n)]);
  }

  lemma SendStep(sys: System, s: StreamId, item: Item)
    requires Inv(sys)
    ensures Inv(sys.(a := Send(sys.a, s, item)))
  {
    var plan := FragmentPlan.Plan(s, item, sys.a.cfg.outbound);
    if plan.Planned? {
      FragmentPlan.PlanCarries(s, item, sys.a.cfg.outbound);
      FragmentPlan.PlanLegit(s, item, sys.a.cfg.outbound);
      CarriesIsData(plan.frames, s, item);
    }
    hide FragmentPlan.Plan, Core, Valid, Settled, IsPast, Busy;
    if !MaySend(sys.a, s) || plan.Refused? {
      assert sys.(a := Send(sys.a, s, item)) == sys;
      return;
    }
    StreamFacts(sys, s);
    LiveFacts(sys.a, s);
    SendValid(sys.a, s, item);
    SendView(sys.a, s, item);
    SendMove(sys.a, Send(sys.a, s, item), sys.b, Bodies(sys.ab), Pipe(sys.b, sys.ba), s, plan.frames, item);
    hide Send, Carries;
    LocalStep(sys, Send(sys.a, s, item), s, false, plan.frames);
  }

  lemma CompleteStep(sys: System, s: StreamId)
    requires Inv(sys)
    ensures Inv(sys.(a := CompleteOut(sys.a, s)))
  {
    if s !in sys.a.streams || sys.a.streams[s].outClosed || Busy(sys.a.outbox, s) {
      assert sys.(a := CompleteOut(sys.a, s)) == sys;
      return;
    }
    StreamFacts(sys, s);
    LiveFacts(sys.a, s);
    hide Core, Valid, Settled, IsPast, CompleteOut, Busy;
    CompleteValid(sys.a, s);
    CompleteView(sys.a, s);
    CompleteMove(sys.a, CompleteOut(sys.a, s), sys.b, Bodies(sys.ab), Pipe(sys.b, sys.ba), s);
    LocalStep(sys, CompleteOut(sys.a, s), s, false, [Complete(s)]);
  }

  lemma TerminateStep(sys: System, s: StreamId, last: Body)
    requires Inv(sys) && last.IsEnd() && last.id == s
    ensures Inv(sys.(a := Terminate(sys.a, s, last)))
  {
    hide Core, Valid, Settled, IsPast, CancelStream;
    if s !in sys.a.streams {
      assert sys.(a := Terminate(sys.a, s, last)) == sys;
      return;
    }
    StreamFacts(sys, s);
    LiveFacts(sys.a, s);
    TerminateValid(sys.a, s, last);
    TerminateView(sys.a, s, last);
    TerminateMove(sys.a, Terminate(sys.a, s, last), sys.b, Bodies(sys.ab), Pipe(sys.b, sys.ba), s, last);
    hide Terminate;
    LocalStep(sys, Terminate(sys.a, s, last), s, true, [last]);
  }

  // ---------------------------------------------------------------- opening

  lemma OpenOpening(sys: System, attributes: seq<Attribute>)
    requires Core(sys) && MayOpen(sys.a, attributes)
    ensures var a' := OpenNext(sys.a, attributes, true);
      && Holds(a', sys.b, Pipe(a', sys.ab), Pipe(sys.b, sys.ba), Opening)
      && Holds(sys.b, a', Pipe(sys.b, sys.ba), Pipe(a', sys.ab), Opening)
  {
    assert Piece(sys, Forth) && Piece(sys, Back);
    hide Core, MayOpen, AttributeMemory;
    assert Holds(sys.a, sys.b, Pipe(sys.a, sys.ab), Pipe(sys.b, sys.ba), Opening);
    assert Holds(sys.b, sys.a, Pipe(sys.b, sys.ba), Pipe(sys.a, sys.ab), Opening);
    hide Linked;
    var s := sys.a.nextStreamId;
    var next, parity := ExpectedRemote(sys.b), LocalParity(sys.a.cfg);
    var last := [Open(s, attributes)];
    OpensConcat(Pipe(sys.a, sys.ab), last, next, parity);
    assert Bodies(sys.ab) + (sys.a.outbox + last) == Pipe(sys.a, sys.ab) + last;
    assert last[1..] == [];
  }

  lemma OpenPast(x: Peer, attributes: seq<Attribute>)
    requires MayOpen(x, attributes)
    ensures var q := OpenNext(x, attributes, true);
      && (forall k :: IsPast(x, k) ==> IsPast(q, k))
      && (q.cfg, q.expectedSequence, q.outgoingSequence) == (x.cfg, x.expectedSequence, x.outgoingSequence)
      && q.outbox == Queued(x.outbox, x.nextStreamId, false, [Open(x.nextStreamId, attributes)])
  {
  }

  /** The other peer knows nothing of an id that has not been opened. */
  lemma UnopenedBefore(sys: System, s: StreamId)
    requires Core(sys) && s == sys.a.nextStreamId
    ensures TxOf(sys.b, s) == Idle && RxOf(sys.b, s) == Unopened
  {
    assert Piece(sys, Forth) && Piece(sys, Peers);
    hide Core;
    assert Holds(sys.a, sys.b, Pipe(sys.a, sys.ab), Pipe(sys.b, sys.ba), Opening);
    FrontierFacts(sys.a);
    FrontierFacts(sys.b);
    hide Linked;
    OpenEndGrows(Pipe(sys.a, sys.ab), ExpectedRemote(sys.b));
    if s in sys.b.streams {
      LiveFacts(sys.b, s);
    }
  }

  lemma OpenStep(sys: System, attributes: seq<Attribute>, written: bool)
    requires Inv(sys)
    ensures Inv(sys.(a := OpenNext(sys.a, attributes, written)))
  {
    hide Core, Valid, Settled, AttributeMemory;
    if !MayOpen(sys.a, attributes) || !written {
      assert sys.(a := OpenNext(sys.a, attributes, written)) == sys;
      return;
    }
    var s := sys.a.nextStreamId;
    var frames := [Open(s, attributes)];
    var a' := OpenNext(sys.a, attributes, true);
    StreamFacts(sys, s);
    OpenOpening(sys, attributes);
    OpenValid(sys.a, attributes, true);
    OpenView(sys.a, attributes);
    NextLocalIsNew(sys.a);
    UnopenedBefore(sys, s);
    OpenPast(sys.a, attributes);
    assert IsPast(a', s);
    hide IsPast, MayOpen, OpenNext, Holds, Piece, TxOf, RxOf;
    OpenMove(sys.a, a', sys.b, Bodies(sys.ab), Pipe(sys.b, sys.ba), s, attributes);
    Step(sys, sys.(a := a'), s, false, frames);
  }

  // ---------------------------------------------------------------- writing

  /** Writing a frame moves it from the outbox to the wire: the pipe stays the same. */
  lemma FlushStep(sys: System)
    requires Inv(sys) && Flush(sys.a).Some?
    ensures var (a', packet) := Flush(sys.a).value; Inv(sys.(a := a', ab := sys.ab + [packet]))
  {
    var (a', packet) := Flush(sys.a).value;
    var next := sys.(a := a', ab := sys.ab + [packet]);
    assert Bodies(next.ab) == Bodies(sys.ab) + [packet.body];
    assert Pipe(next.a, next.ab) == Pipe(sys.a, sys.ab);
    assert Piece(sys, Peers) && Piece(sys, Forth) && Piece(sys, Back);
    Pieces(next);
    FlushValid(sys.a);
    hide Core, Valid;
    FlushLinked(sys.a, sys.b, Pipe(sys.a, sys.ab), Pipe(sys.b, sys.ba));
  }

  lemma FlushLinked(x: Peer, y: Peer, out: seq<Body>, back: seq<Body>)
    requires Linked(x, y, out, back) && Linked(y, x, back, out) && Flush(x).Some?
    ensures Linked(Flush(x).value.0, y, out, back) && Linked(y, Flush(x).value.0, back, out)
  {
    var x' := Flush(x).value.0;
    Facets(x, y, out, back);
    Facets(y, x, back, out);
    Facets(x', y, out, back);
    Facets(y, x', back, out);
    SamePast(x, x');
    hide Linked, IsPast, Legit;
    forall k: StreamId
      ensures Joined(x', y, out, back, k) && Joined(y, x', back, out, k)
    {
      assert Joined(x, y, out, back, k) && Joined(y, x, back, out, k);
    }
    hide Joined;
    forall k
      ensures Tidy(Rel(x'.outbox, k))
    {
      assert Tidy(Rel(x.outbox, k));
      var r := Rel(x.outbox, k);
      assert Rel(x'.outbox, k) == r || Rel(x'.outbox, k) == r[1..];
    }
    assert Holds(x', y, out, back, Known) && Holds(y, x', back, out, Known);
  }
}
