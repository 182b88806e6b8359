/**
 * Two ready sessions joined by two FIFO channels, and the invariant that ties them together.
 *
 * `Pipe` is everything one session has decided to send and the other has not processed: the frames on
 * the wire followed by those still in its `writeTail`. Stream by stream and direction by direction,
 * `Joined` says that the pipe couples the sender's view of the stream to the receiver's.
 */
module TwoPeers {
  import opened Frames
  import opened StreamLink
  import opened Sessions
  import opened Accounting
  import opened Views

  datatype System = System(a: Peer, b: Peer, ab: seq<Packet>, ba: seq<Packet>)

  function Flip(sys: System): System { System(sys.b, sys.a, sys.ba, sys.ab) }

  function Bodies(wire: seq<Packet>): (r: seq<Body>)
    ensures |r| == |wire|
  {
    seq(|wire|, i requires 0 <= i < |wire| => wire[i].body)
  }

  function Pipe(x: Peer, wire: seq<Packet>): seq<Body> { Bodies(wire) + x.outbox }

  // ---------------------------------------------------------------- OPEN frames in a pipe

  /** The id that follows the OPENs in `q`, when they start at `next`. */
  function OpenEnd(q: seq<Body>, next: nat): nat
    decreases |q|
  {
    if q == [] then next else OpenEnd(q[1..], if q[0].Open? then next + 2 else next)
  }

  /** OPENs are contiguous from `next`, and no frame of the sender's own streams precedes its OPEN. */
  predicate OpensFrom(q: seq<Body>, next: nat, parity: nat)
    decreases |q|
  {
    q == []
    || (if q[0].Open? then q[0].id == next && OpensFrom(q[1..], next + 2, parity)
        else (q[0].id % 2 == parity ==> q[0].id < next) && OpensFrom(q[1..], next, parity))
  }

  lemma {:induction false} OpensConcat(a: seq<Body>, b: seq<Body>, next: nat, parity: nat)
    ensures OpenEnd(a + b, next) == OpenEnd(b, OpenEnd(a, next))
    ensures OpensFrom(a + b, next, parity) <==> OpensFrom(a, next, parity) && OpensFrom(b, OpenEnd(a, next), parity)
    decreases |a|
  {
    if a == [] {
      assert a + b == b;
    } else {
      assert (a + b)[0] == a[0] && (a + b)[1..] == a[1..] + b;
      OpensConcat(a[1..], b, if a[0].Open? then next + 2 else next, parity);
    }
  }

  lemma {:induction false} OpensPurge(q: seq<Body>, s: StreamId, next: nat, parity: nat)
    requires OpensFrom(q, next, parity)
    ensures OpensFrom(Purge(q, s), next, parity) && OpenEnd(Purge(q, s), next) == OpenEnd(q, next)
    decreases |q|
  {
    if q != [] {
      OpensPurge(q[1..], s, if q[0].Open? then next + 2 else next, parity);
      if !(q[0].id == s && q[0].IsData()) {
        assert Purge(q, s)[1..] == Purge(q[1..], s);
      }
    }
  }

  lemma {:induction false} OpensNone(frames: seq<Body>, s: StreamId, next: nat, parity: nat)
    requires forall i :: 0 <= i < |frames| ==> !frames[i].Open? && frames[i].id == s
    requires s % 2 == parity ==> s < next
    ensures OpensFrom(frames, next, parity) && OpenEnd(frames, next) == next
    decreases |frames|
  {
    if frames != [] {
      OpensNone(frames[1..], s, next, parity);
    }
  }

  lemma {:induction false} OpenEndGrows(q: seq<Body>, next: nat)
    ensures OpenEnd(q, next) >= next
    decreases |q|
  {
    if q != [] {
      OpenEndGrows(q[1..], if q[0].Open? then next + 2 else next);
    }
  }

  lemma OpensQueued(wire: seq<Body>, outbox: seq<Body>, s: StreamId, purge: bool, frames: seq<Body>, next: nat, parity: nat)
    requires OpensFrom(wire + outbox, next, parity)
    requires forall i :: 0 <= i < |frames| ==> !frames[i].Open? && frames[i].id == s
    requires s % 2 == parity ==> s < OpenEnd(wire + outbox, next)
    ensures var q := wire + Queued(outbox, s, purge, frames);
      OpensFrom(q, next, parity) && OpenEnd(q, next) == OpenEnd(wire + outbox, next)
  {
    var mid := OpenEnd(wire, next);
    OpensConcat(wire, outbox, next, parity);
    OpensPurge(outbox, s, mid, parity);
    OpensNone(frames, s, OpenEnd(outbox, mid), parity);
    OpensConcat(if purge then Purge(outbox, s) else outbox, frames, mid, parity);
    OpensConcat(wire, Queued(outbox, s, purge, frames), next, parity);
  }

  // ---------------------------------------------------------------- one direction of the link

  /** What the frame decoder guarantees of the two kinds whose content the receive path relies on. */
  predicate Legit(b: Body) { WellShaped(b) && (b.Demand? ==> b.credit > 0) }

  ghost predicate Joined(x: Peer, y: Peer, out: seq<Body>, back: seq<Body>, k: StreamId) {
    Coupled(TxOf(x, k), RxOf(y, k), Rel(out, k), DemandSum(back, k), y.cfg.maxInboundItemBytes)
  }

  datatype Facet = Opening | Known | Unwritten | Coupling

  /** Session `x` sends to `y`: `out` is its pipe, `back` the pipe of `y`. */
  ghost predicate Holds(x: Peer, y: Peer, out: seq<Body>, back: seq<Body>, facet: Facet) {
    match facet
    case Opening =>
      && OpensFrom(out, ExpectedRemote(y), LocalParity(x.cfg))
      && OpenEnd(out, ExpectedRemote(y)) == x.nextStreamId
    case Known => forall i :: 0 <= i < |out| ==> IsPast(x, out[i].id) && Legit(out[i])
    case Unwritten => forall k :: Tidy(Rel(x.outbox, k))
    case Coupling => forall k: StreamId :: Joined(x, y, out, back, k)
  }

  /** Frames are numbered consecutively, from the number the receiver expects to the sender's next. */
  predicate Numbered(x: Peer, y: Peer, wire: seq<Packet>) {
    && (forall i :: 0 <= i < |wire| ==> wire[i].sequence == y.expectedSequence + i)
    && x.outgoingSequence == y.expectedSequence + |wire|
  }

  /** Opposite origins, and each side obeys the limits the other announced. */
  predicate Paired(a: Config, b: Config) {
    && a.initiator != b.initiator
    && a.creditCap == b.creditCap
    && a.outbound.maxItemBytes <= b.maxInboundItemBytes
    && b.outbound.maxItemBytes <= a.maxInboundItemBytes
    && a.remoteMaxInboundStreams <= b.maxInboundStreams
    && b.remoteMaxInboundStreams <= a.maxInboundStreams
  }

  ghost predicate Linked(x: Peer, y: Peer, out: seq<Body>, back: seq<Body>) {
    forall facet: Facet :: Holds(x, y, out, back, facet)
  }

  datatype Part = Peers | Forth | Back

  ghost predicate Piece(sys: System, part: Part) {
    match part
    case Peers => Valid(sys.a) && Valid(sys.b) && Paired(sys.a.cfg, sys.b.cfg)
    case Forth => Linked(sys.a, sys.b, Pipe(sys.a, sys.ab), Pipe(sys.b, sys.ba))
    case Back => Linked(sys.b, sys.a, Pipe(sys.b, sys.ba), Pipe(sys.a, sys.ab))
  }

  /** Everything but the numbering of the frames on the wires. */
  ghost predicate Core(sys: System) { forall part: Part :: Piece(sys, part) }

  ghost predicate Inv(sys: System) {
    && Core(sys)
    && Numbered(sys.a, sys.b, sys.ab)
    && Numbered(sys.b, sys.a, sys.ba)
  }

  lemma Pieces(sys: System)
    ensures Core(sys) <==> Piece(sys, Peers) && Piece(sys, Forth) && Piece(sys, Back)
  {
    hide Piece;
    if Core(sys) {
      assert Piece(sys, Peers) && Piece(sys, Forth) && Piece(sys, Back);
    } else {
      var part: Part :| !Piece(sys, part);
      match part
      case Peers =>
      case Forth =>
      case Back =>
    }
  }

  lemma Facets(x: Peer, y: Peer, out: seq<Body>, back: seq<Body>)
    ensures Linked(x, y, out, back) <==>
      && Holds(x, y, out, back, Opening) && Holds(x, y, out, back, Known)
      && Holds(x, y, out, back, Unwritten) && Holds(x, y, out, back, Coupling)
  {
    hide Holds;
    if Linked(x, y, out, back) {
      assert Holds(x, y, out, back, Opening) && Holds(x, y, out, back, Known);
      assert Holds(x, y, out, back, Unwritten) && Holds(x, y, out, back, Coupling);
    } else {
      var facet: Facet :| !Holds(x, y, out, back, facet);
      match facet
      case Opening =>
      case Known =>
      case Unwritten =>
      case Coupling =>
    }
  }

  lemma InvFlip(sys: System)
    requires Inv(sys)
    ensures Inv(Flip(sys))
  {
    Pieces(sys);
    Pieces(Flip(sys));
    hide Core, Valid, Linked;
    assert Piece(sys, Peers) && Piece(sys, Forth) && Piece(sys, Back);
  }

  /** Two sessions that have just completed the handshake. */
  function Start(a: Config, b: Config): System {
    System(Initial(a), Initial(b), [], [])
  }

  lemma StartInv(a: Config, b: Config)
    requires ConfigOk(a) && ConfigOk(b) && Paired(a, b)
    ensures Inv(Start(a, b))
  {
    var sys := Start(a, b);
    InitialValid(a);
    InitialValid(b);
    StartLinked(a, b);
    StartLinked(b, a);
    Pieces(sys);
    hide Core, Valid, Linked;
    assert Pipe(sys.a, sys.ab) == [] && Pipe(sys.b, sys.ba) == [];
  }

  lemma StartLinked(a: Config, b: Config)
    requires a.initiator != b.initiator
    ensures Linked(Initial(a), Initial(b), [], [])
  {
    var x, y := Initial(a), Initial(b);
    forall k: StreamId
      ensures Joined(x, y, [], [], k)
    {
      assert !IsPast(x, k) && !IsPast(y, k);
    }
    Facets(x, y, [], []);
    hide Linked;
    assert Holds(x, y, [], [], Unwritten) by {
      assert forall k :: Rel([], k) == [];
    }
  }
}
