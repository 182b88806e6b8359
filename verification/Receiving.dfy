/** A frame at the head of a channel is always accepted, and accepting it preserves the invariant. */
module Receiving {
  import opened Frames
  import opened StreamLink
  import opened Sessions
  import opened Accounting
  import opened Views
  import opened Effects
  import opened TwoPeers
  import opened Moves
  import opened Steps

  /** Handling a frame neither writes nor counts frames. */
  predicate SameCounts(p: Peer, q: Peer) {
    (q.outgoingSequence, q.expectedSequence) == (p.outgoingSequence, p.expectedSequence)
  }

  /** The one frame a conforming sender can be blamed for: an ERROR whose code decodes to nothing. */
  predicate Misnamed(p: Peer, b: Body) { b.Error? && b.id in p.streams && !Named(b.code) }

  /** What the frame at the head of the channel refers to is known, or is the next OPEN. */
  lemma HeadKnown(sys: System)
    requires Core(sys) && sys.ba != []
    ensures var b := sys.ba[0].body;
      && Legit(b)
      && (b.Open? ==> b.id == ExpectedRemote(sys.a))
      && (!b.Open? ==> IsPast(sys.a, b.id))
  {
    assert Piece(sys, Forth) && Piece(sys, Back) && Piece(sys, Peers);
    hide Core;
    var out, back := Pipe(sys.a, sys.ab), Pipe(sys.b, sys.ba);
    assert Holds(sys.a, sys.b, out, back, Opening);
    assert Holds(sys.b, sys.a, back, out, Opening) && Holds(sys.b, sys.a, back, out, Known);
    hide Linked;
    PipeTail(sys.b, sys.ba);
    FrontierFacts(sys.a);
    FrontierFacts(sys.b);
    hide Valid;
    OpenEndGrows(out, ExpectedRemote(sys.b));
  }

  /** Dropping the head of the peer's pipe, and queueing frames of a known stream in one's own. */
  lemma ReactOpening(sys: System, a': Peer, purge: bool, frames: seq<Body>)
    requires Core(sys) && sys.ba != [] && !sys.ba[0].body.Open?
    requires Moved(sys.a, a', sys.ba[0].body.id, purge, frames) && IsPast(sys.a, sys.ba[0].body.id)
    requires forall i :: 0 <= i < |frames| ==> frames[i].id == sys.ba[0].body.id && !frames[i].Open?
    ensures Holds(a', sys.b, Pipe(a', sys.ab), Pipe(sys.b, sys.ba[1..]), Opening)
    ensures Holds(sys.b, a', Pipe(sys.b, sys.ba[1..]), Pipe(a', sys.ab), Opening)
  {
    QueuedOpening(sys, a', sys.ba[0].body.id, purge, frames);
    PipeTail(sys.b, sys.ba);
  }

  /** A frame other than OPEN has been handled. */
  lemma ReactStep(sys: System, a': Peer, purge: bool, frames: seq<Body>)
    requires Core(sys) && sys.ba != [] && !sys.ba[0].body.Open?
    requires Valid(a') && Moved(sys.a, a', sys.ba[0].body.id, purge, frames) && IsPast(sys.a, sys.ba[0].body.id)
    requires forall i :: 0 <= i < |frames| ==>
      frames[i].id == sys.ba[0].body.id && Legit(frames[i]) && !frames[i].Open?
    requires Settled(a', sys.b, Pipe(a', sys.ab), Pipe(sys.b, sys.ba)[1..], sys.ba[0].body.id)
    ensures Core(sys.(a := a', ba := sys.ba[1..]))
  {
    hide Valid, Settled, Core, Legit;
    ReactOpening(sys, a', purge, frames);
    SamePast(sys.a, a');
    PipeTail(sys.b, sys.ba);
    hide IsPast, Piece, Holds, Pipe;
    Step(sys, sys.(a := a', ba := sys.ba[1..]), sys.ba[0].body.id, purge, frames);
  }

  /** What `HeadKnown` and `StreamFacts` say of the frame about to be handled. */
  lemma HeadFacts(sys: System)
    requires Core(sys) && sys.ba != []
    ensures var b := sys.ba[0].body;
      && Settled(sys.a, sys.b, Pipe(sys.a, sys.ab), Pipe(sys.b, sys.ba), b.id)
      && Valid(sys.a) && Valid(sys.b) && sys.a.cfg.creditCap == sys.b.cfg.creditCap
      && Pipe(sys.b, sys.ba) != [] && Pipe(sys.b, sys.ba)[0] == b
      && Legit(b)
      && (!b.Open? ==> IsPast(sys.a, b.id))
      && (!b.Demand? ==> RxStep(RxOf(sys.a, b.id), b, sys.a.cfg.maxInboundItemBytes).Some?)
  {
    var s := sys.ba[0].body.id;
    HeadKnown(sys);
    StreamFacts(sys, s);
    PipeTail(sys.b, sys.ba);
    var out, back := Pipe(sys.a, sys.ab), Pipe(sys.b, sys.ba);
    Ties(sys.a, sys.b, out, back, s);
    TiedMeans(sys.a, sys.b, out, back, s);
    hide Core, Settled, Tied, Coupled, TxOf, RxOf, IsPast, Legit;
    HeadOf(back, s);
    hide Rel, DemandSum;
    if !back[0].Demand? {
      RxReceive(TxOf(sys.b, s), RxOf(sys.a, s), Rel(back, s), DemandSum(out, s), sys.a.cfg.maxInboundItemBytes);
    }
  }

  lemma NoMove(p: Peer, s: StreamId)
    ensures Moved(p, p, s, false, [])
  {
    assert p.outbox + [] == p.outbox;
  }

  lemma LateStep(sys: System, env: Environment)
    requires Core(sys) && sys.ba != [] && !sys.ba[0].body.Open? && sys.ba[0].body.id !in sys.a.streams
    ensures HandleFrame(sys.a, sys.ba[0].body, env) == Handled(sys.a)
    ensures Core(sys.(ba := sys.ba[1..]))
  {
    var b := sys.ba[0].body;
    HeadFacts(sys);
    hide Core, Valid, Settled, IsPast;
    LateMove(sys.a, sys.b, Pipe(sys.a, sys.ab), Pipe(sys.b, sys.ba), b.id);
    assert HandleFrame(sys.a, b, env) == Handled(sys.a);
    NoMove(sys.a, b.id);
    hide HandleFrame, Moved, Pipe;
    ReactStep(sys, sys.a, false, []);
    assert sys.(a := sys.a, ba := sys.ba[1..]) == sys.(ba := sys.ba[1..]);
  }

  lemma DataStep(sys: System, env: Environment)
    requires Core(sys) && sys.ba != [] && (sys.ba[0].body.Data? || sys.ba[0].body.First?)
    requires sys.ba[0].body.id in sys.a.streams
    ensures var out := HandleFrame(sys.a, sys.ba[0].body, env);
      out.Handled? && SameCounts(sys.a, out.peer) && Core(sys.(a := out.peer, ba := sys.ba[1..]))
  {
    var b := sys.ba[0].body;
    HeadFacts(sys);
    hide Core, Valid, Settled, IsPast;
    var reaction := DataView(sys.a, b, env);
    HandleFrameValid(sys.a, b, env);
    var a' := HandleFrame(sys.a, b, env).peer;
    hide HandleFrame;
    assert sys.a.outbox + [] == sys.a.outbox;
    match reaction {
      case Take =>
        TakeMove(sys.a, a', sys.b, Bodies(sys.ab), Pipe(sys.b, sys.ba), b.id);
        ReactStep(sys, a', false, []);
      case GiveUp =>
        GiveUpMove(sys.a, a', sys.b, Bodies(sys.ab), Pipe(sys.b, sys.ba), b.id);
        ReactStep(sys, a', true, [Error(b.id, Exhausted())]);
    }
  }

  lemma FragmentStep(sys: System, env: Environment)
    requires Core(sys) && sys.ba != [] && sys.ba[0].body.Fragment? && sys.ba[0].body.id in sys.a.streams
    ensures var out := HandleFrame(sys.a, sys.ba[0].body, env);
      out.Handled? && SameCounts(sys.a, out.peer) && Core(sys.(a := out.peer, ba := sys.ba[1..]))
  {
    var b := sys.ba[0].body;
    HeadFacts(sys);
    hide Core, Valid, Settled, IsPast;
    FragmentView(sys.a, b);
    HandleFrameValid(sys.a, b, env);
    var a' := HandleFrame(sys.a, b, env).peer;
    hide HandleFrame, HandleFragment;
    assert sys.a.outbox + [] == sys.a.outbox;
    TakeMove(sys.a, a', sys.b, Bodies(sys.ab), Pipe(sys.b, sys.ba), b.id);
    ReactStep(sys, a', false, []);
  }

  lemma DemandStep(sys: System, env: Environment)
    requires Core(sys) && sys.ba != [] && sys.ba[0].body.Demand? && sys.ba[0].body.id in sys.a.streams
    ensures var out := HandleFrame(sys.a, sys.ba[0].body, env);
      out.Handled? && SameCounts(sys.a, out.peer) && Core(sys.(a := out.peer, ba := sys.ba[1..]))
  {
    var b := sys.ba[0].body;
    HeadFacts(sys);
    if b.id in sys.b.streams {
      LiveFacts(sys.b, b.id);
    }
    hide Core, Valid, Settled, IsPast;
    DemandView(sys.a, b.id, b.credit, env);
    HandleFrameValid(sys.a, b, env);
    var a' := HandleFrame(sys.a, b, env).peer;
    hide HandleFrame;
    assert sys.a.outbox + [] == sys.a.outbox;
    DemandMove(sys.a, a', sys.b, Bodies(sys.ab), Pipe(sys.b, sys.ba), b.id);
    ReactStep(sys, a', false, []);
  }

  lemma FinishStep(sys: System, env: Environment)
    requires Core(sys) && sys.ba != [] && sys.ba[0].body.Complete? && sys.ba[0].body.id in sys.a.streams
    ensures var out := HandleFrame(sys.a, sys.ba[0].body, env);
      out.Handled? && SameCounts(sys.a, out.peer) && Core(sys.(a := out.peer, ba := sys.ba[1..]))
  {
    var b := sys.ba[0].body;
    HeadFacts(sys);
    hide Core, Valid, Settled, IsPast;
    FinishView(sys.a, b.id, env);
    HandleFrameValid(sys.a, b, env);
    var a' := HandleFrame(sys.a, b, env).peer;
    hide HandleFrame;
    assert sys.a.outbox + [] == sys.a.outbox;
    FinishMove(sys.a, a', sys.b, Bodies(sys.ab), Pipe(sys.b, sys.ba), b.id);
    ReactStep(sys, a', false, []);
  }

  lemma EndStep(sys: System, env: Environment)
    requires Core(sys) && sys.ba != [] && sys.ba[0].body.IsEnd() && sys.ba[0].body.id in sys.a.streams
    requires !Misnamed(sys.a, sys.ba[0].body)
    ensures var out := HandleFrame(sys.a, sys.ba[0].body, env);
      out.Handled? && SameCounts(sys.a, out.peer) && Core(sys.(a := out.peer, ba := sys.ba[1..]))
  {
    var b := sys.ba[0].body;
    HeadFacts(sys);
    hide Core, Valid, Settled, IsPast, CancelStream;
    CancelView(sys.a, b.id, false);
    CancelValid(sys.a, b.id, false);
    var a' := HandleFrame(sys.a, b, env).peer;
    assert a' == CancelStream(sys.a, b.id, false);
    hide HandleFrame;
    EndMove(sys.a, a', sys.b, Bodies(sys.ab), Pipe(sys.b, sys.ba), b.id);
    ReactStep(sys, a', true, []);
  }

  // ---------------------------------------------------------------- OPEN

  lemma OpenedOpening(sys: System, a': Peer, frames: seq<Body>)
    requires Core(sys) && sys.ba != [] && sys.ba[0].body.Open?
    requires Reacted(sys.a, a', sys.ba[0].body.id, false, frames) && a'.highestRemote == sys.ba[0].body.id
    requires forall i :: 0 <= i < |frames| ==> frames[i].id == sys.ba[0].body.id && !frames[i].Open?
    ensures Holds(a', sys.b, Pipe(a', sys.ab), Pipe(sys.b, sys.ba[1..]), Opening)
    ensures Holds(sys.b, a', Pipe(sys.b, sys.ba[1..]), Pipe(a', sys.ab), Opening)
    ensures forall k :: IsPast(sys.a, k) ==> IsPast(a', k)
    ensures IsPast(a', sys.ba[0].body.id)
  {
    hide OthersKept, Queued;
    var s := sys.ba[0].body.id;
    HeadKnown(sys);
    assert Piece(sys, Forth) && Piece(sys, Back) && Piece(sys, Peers);
    var out, back := Pipe(sys.a, sys.ab), Pipe(sys.b, sys.ba);
    NextRemoteIsNew(sys.a);
    hide Core, Valid;
    assert Holds(sys.a, sys.b, out, back, Opening) && Holds(sys.b, sys.a, back, out, Opening);
    hide Linked;
    PipeTail(sys.b, sys.ba);
    OpensQueued(Bodies(sys.ab), sys.a.outbox, s, false, frames, ExpectedRemote(sys.b), LocalParity(sys.a.cfg));
  }

  lemma OpenedStep(sys: System, env: Environment)
    requires Core(sys) && sys.ba != [] && sys.ba[0].body.Open?
    ensures var out := HandleFrame(sys.a, sys.ba[0].body, env);
      out.Handled? && SameCounts(sys.a, out.peer) && Core(sys.(a := out.peer, ba := sys.ba[1..]))
  {
    var b := sys.ba[0].body;
    var s := b.id;
    HeadFacts(sys);
    HeadKnown(sys);
    hide Core, Valid, Settled, IsPast, ExpectedRemote;
    var reaction := OpenedView(sys.a, b, env);
    HandleFrameValid(sys.a, b, env);
    var a' := HandleFrame(sys.a, b, env).peer;
    var next := sys.(a := a', ba := sys.ba[1..]);
    var frames := if reaction == Accept then [] else [Error(s, reaction.code)];
    hide HandleFrame;
    assert sys.a.outbox + [] == sys.a.outbox;
    OpenedOpening(sys, a', frames);
    PipeTail(sys.b, sys.ba);
    if reaction == Accept {
      AcceptMove(sys.a, a', sys.b, Bodies(sys.ab), Pipe(sys.b, sys.ba), s);
    } else {
      RefuseMove(sys.a, a', sys.b, Bodies(sys.ab), Pipe(sys.b, sys.ba), s, reaction.code);
    }
    hide Holds, Piece, TxOf, RxOf;
    Step(sys, next, s, false, frames);
  }

  // ---------------------------------------------------------------- any frame

  lemma HandleStep(sys: System, env: Environment)
    requires Core(sys) && sys.ba != [] && !Misnamed(sys.a, sys.ba[0].body)
    ensures var out := HandleFrame(sys.a, sys.ba[0].body, env);
      out.Handled? && SameCounts(sys.a, out.peer) && Core(sys.(a := out.peer, ba := sys.ba[1..]))
  {
    var b := sys.ba[0].body;
    hide Core, HandleFrame;
    if b.Open? {
      OpenedStep(sys, env);
    } else if b.id !in sys.a.streams {
      LateStep(sys, env);
    } else {
      match b {
        case Data(_, _, _) => DataStep(sys, env);
        case First(_, _, _, _) => DataStep(sys, env);
        case Fragment(_, _) => FragmentStep(sys, env);
        case Demand(_, _) => DemandStep(sys, env);
        case Complete(_) => FinishStep(sys, env);
        case Cancel(_) => EndStep(sys, env);
        case Error(_, _) => EndStep(sys, env);
      }
    }
  }

  /** Counting the frame as received changes nothing else. */
  lemma CountedCore(sys: System)
    requires Core(sys)
    ensures Core(sys.(a := sys.a.(expectedSequence := sys.a.expectedSequence + 1)))
  {
    var x, y := sys.a, sys.b;
    var x' := x.(expectedSequence := x.expectedSequence + 1);
    var next := sys.(a := x');
    var out, back := Pipe(x, sys.ab), Pipe(y, sys.ba);
    assert Piece(sys, Peers) && Piece(sys, Forth) && Piece(sys, Back);
    Pieces(next);
    AdvanceReceived(x);
    SamePast(x, x');
    hide Core, Valid, IsPast, Legit;
    Facets(x, y, out, back);
    Facets(y, x, back, out);
    Facets(x', y, out, back);
    Facets(y, x', back, out);
    assert Linked(x, y, out, back) && Linked(y, x, back, out);
    hide Linked;
    forall k: StreamId
      ensures Joined(x', y, out, back, k) && Joined(y, x', back, out, k)
    {
      assert Joined(x, y, out, back, k) && Joined(y, x, back, out, k);
    }
    hide Joined, Tidy;
    assert Holds(x', y, out, back, Known) && Holds(y, x', back, out, Known);
    assert Holds(x', y, out, back, Unwritten) && Holds(y, x', back, out, Unwritten);
    assert Holds(x', y, out, back, Opening) && Holds(y, x', back, out, Opening);
  }

  /**
   * The next frame on the wire is accepted whatever the application decides, unless it is an ERROR whose
   * code decodes to nothing, for a stream that is still live.
   */
  lemma ReceiveStep(sys: System, env: Environment)
    requires Inv(sys) && sys.ba != []
    ensures var out := Receive(sys.a, sys.ba[0], env);
      if Misnamed(sys.a, sys.ba[0].body) then out == Violated(UnnamedError)
      else out.Handled? && Inv(sys.(a := out.peer, ba := sys.ba[1..]))
  {
    var counted := sys.(a := sys.a.(expectedSequence := sys.a.expectedSequence + 1));
    if !Misnamed(sys.a, sys.ba[0].body) {
      CountedCore(sys);
      HandleStep(counted, env);
      hide Core, HandleFrame;
      var a' := Receive(sys.a, sys.ba[0], env).peer;
      assert sys.(a := a', ba := sys.ba[1..]) == counted.(a := a', ba := sys.ba[1..]);
    }
  }
}
