/**
 * Why an opener that obeys the announced stream limit is never refused for exceeding it.
 *
 * For each OPEN in a pipe, the streams that will still be live at the receiver when it processes that
 * OPEN are fewer than its limit: they are among those the opener counted when it decided to open.
 */
module StreamCounts {
  import opened Frames
  import opened StreamLink
  import opened Sessions
  import opened Accounting
  import opened Views
  import opened TwoPeers
  import Moves
  import Steps

  predicate Opens(q: seq<Body>, t: StreamId) { exists i :: 0 <= i < |q| && q[i].Open? && q[i].id == t }

  /** This frame ends stream `t` at `y` once it is processed there. */
  predicate Ends(y: Peer, t: StreamId, f: Body) {
    && f.id == t
    && (f.IsEnd() || (f.Complete? && t in y.streams && y.streams[t].outClosed))
  }

  /** Stream `t` is still to be live at `y` after `before`. */
  predicate Lives(y: Peer, before: seq<Body>, t: StreamId) {
    && (t in y.streams || Opens(before, t))
    && forall i :: 0 <= i < |before| ==> !Ends(y, t, before[i])
  }

  function OpenIds(q: seq<Body>): set<StreamId> {
    set i | 0 <= i < |q| && q[i].Open? :: q[i].id
  }

  function Alive(y: Peer, before: seq<Body>, parity: nat): set<StreamId> {
    set t | t in y.streams.Keys + OpenIds(before) && t % 2 == parity && Lives(y, before, t)
  }

  /** At every OPEN of the pipe `out` of `x`, the receiver has room. */
  ghost predicate Room(x: Peer, y: Peer, out: seq<Body>) {
    forall i :: 0 <= i < |out| && out[i].Open? ==>
      |Alive(y, out[..i], LocalParity(x.cfg))| < y.cfg.maxInboundStreams
  }

  lemma AliveMeans(y: Peer, before: seq<Body>, parity: nat, t: StreamId)
    ensures t in Alive(y, before, parity) <==> t % 2 == parity && Lives(y, before, t)
  {
  }

  lemma Fewer(a: set<StreamId>, b: set<StreamId>)
    requires a <= b
    ensures |a| <= |b|
    decreases b
  {
    if a != b {
      var t :| t in b && t !in a;
      Fewer(a, b - {t});
    }
  }

  // ---------------------------------------------------------------- counting

  function Having(streams: map<StreamId, Stream>, local: bool): set<StreamId> {
    set s | s in streams && streams[s].local == local
  }

  lemma EmptyTotal(measure: Measure)
    ensures Total(map[], measure) == 0
  {
    assert Weights(map[], measure) == map[];
  }

  /** The session's two stream counters are cardinalities. */
  lemma {:induction false} CountIsTotal(streams: map<StreamId, Stream>, local: bool)
    ensures Total(streams, if local then LocalCount else RemoteCount) == |Having(streams, local)|
    decreases |streams|
  {
    var measure := if local then LocalCount else RemoteCount;
    hide Total;
    if streams == map[] {
      EmptyTotal(measure);
      assert Having(streams, local) == {};
    } else {
      var s :| s in streams;
      TotalRemove(streams, s, measure);
      CountIsTotal(streams - {s}, local);
      HavingStep(streams, s, local);
    }
  }

  lemma HavingStep(streams: map<StreamId, Stream>, s: StreamId, local: bool)
    requires s in streams
    ensures |Having(streams, local)| == |Having(streams - {s}, local)| + (if streams[s].local == local then 1 else 0)
  {
    var rest := Having(streams - {s}, local);
    if streams[s].local == local {
      assert Having(streams, local) == rest + {s};
    } else {
      assert Having(streams, local) == rest;
    }
  }

  // ---------------------------------------------------------------- the opener's count covers the receiver's

  lemma OpenerKnows(sys: System, t: StreamId)
    requires Core(sys) && t % 2 == LocalParity(sys.a.cfg)
    requires t in sys.b.streams || Opens(Pipe(sys.a, sys.ab), t)
    ensures IsPast(sys.a, t)
  {
    var out, back := Pipe(sys.a, sys.ab), Pipe(sys.b, sys.ba);
    assert Piece(sys, Peers) && Piece(sys, Forth);
    hide Core;
    assert Holds(sys.a, sys.b, out, back, Opening) && Holds(sys.a, sys.b, out, back, Known);
    hide Linked;
    if t in sys.b.streams {
      LiveFacts(sys.b, t);
      FrontierFacts(sys.b);
      OpenEndGrows(out, ExpectedRemote(sys.b));
    }
  }

  lemma AliveAtSender(sys: System, t: StreamId)
    requires Core(sys) && t % 2 == LocalParity(sys.a.cfg) && Lives(sys.b, Pipe(sys.a, sys.ab), t)
    ensures t in sys.a.streams
  {
    var out, back := Pipe(sys.a, sys.ab), Pipe(sys.b, sys.ba);
    var max := sys.b.cfg.maxInboundItemBytes;
    var q, tx, rx := Rel(out, t), TxOf(sys.a, t), RxOf(sys.b, t);
    Steps.StreamFacts(sys, t);
    OpenerKnows(sys, t);
    Moves.Ties(sys.a, sys.b, out, back, t);
    Moves.TiedMeans(sys.a, sys.b, out, back, t);
    hide Core, Valid, Moves.Settled, Moves.Tied, IsPast;
    forall i | 0 <= i < |q|
      ensures !q[i].IsEnd() && (q[i].Complete? ==> !(rx.Live? && rx.outClosed))
    {
      RelMember(out, t, i);
    }
    if rx.Live? {
      RunStaysLive(rx, q, max);
      assert Run(rx, q, max).value.Live?;
    } else {
      assert Opens(out, t);
      OpenInRel(out, t);
      RunMonotone(rx, q, max);
      var first := RxStep(rx, q[0], max).value;
      RunStaysLive(first, q[1..], max);
      assert Run(rx, q, max).value.Live?;
    }
  }

  lemma {:induction false} OpenInRel(q: seq<Body>, t: StreamId)
    requires Opens(q, t)
    ensures !NoOpen(Rel(q, t))
    decreases |q|
  {
    var i :| 0 <= i < |q| && q[i].Open? && q[i].id == t;
    if i == 0 {
      assert Rel(q, t)[0] == q[0];
    } else {
      assert q[1..][i - 1] == q[i];
      OpenInRel(q[1..], t);
      var first := if q[0].id == t && !q[0].Demand? then [q[0]] else [];
      var j :| 0 <= j < |Rel(q[1..], t)| && Rel(q[1..], t)[j].Open?;
      assert Rel(q, t)[j + |first|] == Rel(q[1..], t)[j];
    }
  }

  /** Everything the receiver will still have is something the opener has now. */
  lemma RoomForNext(sys: System)
    requires Core(sys) && sys.a.localActive < sys.a.cfg.remoteMaxInboundStreams
    ensures |Alive(sys.b, Pipe(sys.a, sys.ab), LocalParity(sys.a.cfg))| < sys.b.cfg.maxInboundStreams
  {
    var out, parity := Pipe(sys.a, sys.ab), LocalParity(sys.a.cfg);
    assert Piece(sys, Peers);
    hide Core;
    Aspects(sys.a);
    assert CountersOk(sys.a);
    CountIsTotal(sys.a.streams, true);
    forall t | t in Alive(sys.b, out, parity)
      ensures t in Having(sys.a.streams, true)
    {
      AliveMeans(sys.b, out, parity, t);
      AliveAtSender(sys, t);
      LiveFacts(sys.a, t);
    }
    Fewer(Alive(sys.b, out, parity), Having(sys.a.streams, true));
  }

  // ---------------------------------------------------------------- the sender's moves

  /** `Alive` only looks at which frames other than DATA are in `before`. */
  ghost predicate SameMarks(b: seq<Body>, c: seq<Body>) {
    forall f: Body :: !f.IsData() ==> (f in b <==> f in c)
  }

  lemma AliveSame(y: Peer, b: seq<Body>, c: seq<Body>, parity: nat)
    requires SameMarks(b, c)
    ensures Alive(y, b, parity) == Alive(y, c, parity)
  {
    forall t
      ensures t in Alive(y, b, parity) <==> t in Alive(y, c, parity)
    {
      AliveMeans(y, b, parity, t);
      AliveMeans(y, c, parity, t);
      LivesSame(y, b, c, t);
      LivesSame(y, c, b, t);
    }
  }

  lemma LivesSame(y: Peer, b: seq<Body>, c: seq<Body>, t: StreamId)
    requires SameMarks(b, c)
    ensures Lives(y, b, t) ==> Lives(y, c, t)
  {
    if Lives(y, b, t) {
      if Opens(b, t) {
        var i :| 0 <= i < |b| && b[i].Open? && b[i].id == t;
        assert b[i] in c;
      }
      forall i | 0 <= i < |c|
        ensures !Ends(y, t, c[i])
      {
        if !c[i].IsData() {
          assert c[i] in c;
          var j :| 0 <= j < |b| && b[j] == c[i];
        }
      }
    }
  }

  /** `Room` as a recursion on the pipe, after `before`. */
  ghost predicate RoomFrom(y: Peer, before: seq<Body>, rest: seq<Body>, parity: nat)
    decreases |rest|
  {
    rest == []
    || (&& (rest[0].Open? ==> |Alive(y, before, parity)| < y.cfg.maxInboundStreams)
        && RoomFrom(y, before + [rest[0]], rest[1..], parity))
  }

  lemma {:induction false} RoomIsFrom(y: Peer, before: seq<Body>, rest: seq<Body>, parity: nat)
    ensures RoomFrom(y, before, rest, parity) <==>
      forall i :: 0 <= i < |rest| && rest[i].Open? ==>
        |Alive(y, before + rest[..i], parity)| < y.cfg.maxInboundStreams
    decreases |rest|
  {
    hide Alive;
    if rest != [] {
      var next := before + [rest[0]];
      RoomIsFrom(y, next, rest[1..], parity);
      assert before + rest[..0] == before;
      forall i | 0 < i < |rest|
        ensures before + rest[..i] == next + rest[1..][..i - 1] && rest[i] == rest[1..][i - 1]
      {
      }
      forall i | 0 <= i < |rest[1..]|
        ensures next + rest[1..][..i] == before + rest[..i + 1] && rest[1..][i] == rest[i + 1]
      {
      }
    }
  }

  lemma {:induction false} RoomConcat(y: Peer, before: seq<Body>, p: seq<Body>, q: seq<Body>, parity: nat)
    ensures RoomFrom(y, before, p + q, parity) <==> RoomFrom(y, before, p, parity) && RoomFrom(y, before + p, q, parity)
    decreases |p|
  {
    if p == [] {
      assert p + q == q && before + p == before;
    } else {
      assert (p + q)[0] == p[0] && (p + q)[1..] == p[1..] + q;
      RoomConcat(y, before + [p[0]], p[1..], q, parity);
      assert before + [p[0]] + p[1..] == before + p;
    }
  }

  lemma {:induction false} RoomPurge(y: Peer, b: seq<Body>, c: seq<Body>, rest: seq<Body>, s: StreamId, parity: nat)
    requires RoomFrom(y, b, rest, parity) && SameMarks(b, c)
    ensures RoomFrom(y, c, Purge(rest, s), parity)
    decreases |rest|
  {
    if rest != [] {
      var f := rest[0];
      AliveSame(y, b, c, parity);
      hide Alive;
      if f.id == s && f.IsData() {
        RoomPurge(y, b + [f], c, rest[1..], s, parity);
      } else {
        RoomPurge(y, b + [f], c + [f], rest[1..], s, parity);
        assert Purge(rest, s) == [f] + Purge(rest[1..], s);
      }
    }
  }

  lemma {:induction false} RoomNone(y: Peer, before: seq<Body>, frames: seq<Body>, parity: nat)
    requires NoOpen(frames)
    ensures RoomFrom(y, before, frames, parity)
    decreases |frames|
  {
    if frames != [] {
      RoomNone(y, before + [frames[0]], frames[1..], parity);
    }
  }

  /** Dropping DATA and queueing frames other than OPEN costs no room. */
  lemma RoomQueued(y: Peer, wire: seq<Body>, outbox: seq<Body>, s: StreamId, purge: bool, frames: seq<Body>, parity: nat)
    requires RoomFrom(y, [], wire + outbox, parity) && NoOpen(frames)
    ensures RoomFrom(y, [], wire + Queued(outbox, s, purge, frames), parity)
  {
    var kept := if purge then Purge(outbox, s) else outbox;
    RoomConcat(y, [], wire, outbox, parity);
    RoomPurge(y, [] + wire, [] + wire, outbox, s, parity);
    RoomNone(y, [] + wire + kept, frames, parity);
    RoomConcat(y, [] + wire, kept, frames, parity);
    RoomConcat(y, [], wire, kept + frames, parity);
  }

  lemma RoomOpened(y: Peer, out: seq<Body>, open: Body, parity: nat)
    requires RoomFrom(y, [], out, parity) && |Alive(y, out, parity)| < y.cfg.maxInboundStreams
    ensures RoomFrom(y, [], out + [open], parity)
  {
    RoomConcat(y, [], out, [open], parity);
    assert [] + out == out && [open][1..] == [];
  }

  // ---------------------------------------------------------------- the receiver's moves

  /** Of the peer's streams, `q` has no other than `p`, and none reopened for output. */
  predicate Narrower(p: Peer, q: Peer, head: seq<Body>, parity: nat) {
    forall t :: t in q.streams && t % 2 == parity ==>
      Opens(head, t) || (t in p.streams && (p.streams[t].outClosed ==> q.streams[t].outClosed))
  }

  /** Processing `head` (at most one frame) leaves no more alive than was foreseen. */
  lemma LivesShrinks(p: Peer, q: Peer, head: seq<Body>, ext: seq<Body>, t: StreamId, parity: nat)
    requires Narrower(p, q, head, parity) && t % 2 == parity
    requires Opens(head, t) || Opens(ext, t) ==> t !in p.streams
    requires forall i :: 0 <= i < |head| && Ends(p, t, head[i]) ==> t !in q.streams && !Opens(ext, t)
    requires Lives(q, ext, t)
    ensures Lives(p, head + ext, t)
  {
    var all := head + ext;
    assert t in p.streams || Opens(all, t) by {
      if Opens(head, t) {
        var i :| 0 <= i < |head| && head[i].Open? && head[i].id == t;
        assert all[i] == head[i];
      } else if Opens(ext, t) {
        var i :| 0 <= i < |ext| && ext[i].Open? && ext[i].id == t;
        assert all[|head| + i] == ext[i];
      }
    }
    forall i | 0 <= i < |all|
      ensures !Ends(p, t, all[i])
    {
      if i >= |head| {
        assert all[i] == ext[i - |head|] && !Ends(q, t, ext[i - |head|]);
      }
    }
  }

  lemma {:induction false} OpensAtLeast(q: seq<Body>, next: nat, parity: nat, t: StreamId)
    requires OpensFrom(q, next, parity) && Opens(q, t)
    ensures t >= next
    decreases |q|
  {
    var i :| 0 <= i < |q| && q[i].Open? && q[i].id == t;
    if i > 0 {
      assert q[1..][i - 1] == q[i];
      OpensAtLeast(q[1..], if q[0].Open? then next + 2 else next, parity, t);
    }
  }

  /** An id that an OPEN in flight will use is not live at its receiver. */
  lemma OpenIsNew(sys: System, t: StreamId)
    requires Core(sys) && t in sys.a.streams && t % 2 == LocalParity(sys.b.cfg)
    ensures !Opens(Pipe(sys.b, sys.ba), t)
  {
    var back := Pipe(sys.b, sys.ba);
    assert Piece(sys, Peers) && Piece(sys, Back);
    hide Core;
    assert Holds(sys.b, sys.a, back, Pipe(sys.a, sys.ab), Opening);
    hide Linked;
    LiveFacts(sys.a, t);
    FrontierFacts(sys.a);
    if Opens(back, t) {
      OpensAtLeast(back, ExpectedRemote(sys.a), LocalParity(sys.b.cfg), t);
    }
  }

  /** Session a becomes a', having processed `head`: what the step must satisfy. */
  ghost predicate Shrinks(sys: System, a': Peer, head: seq<Body>, rest: seq<Body>) {
    && Core(sys) && a'.cfg == sys.a.cfg
    && Pipe(sys.b, sys.ba) == head + rest && |head| <= 1
    && Narrower(sys.a, a', head, LocalParity(sys.b.cfg))
    && (head != [] && !head[0].Open? && Ends(sys.a, head[0].id, head[0]) ==> head[0].id !in a'.streams)
  }

  lemma AliveShrinks(sys: System, a': Peer, head: seq<Body>, rest: seq<Body>, i: nat, t: StreamId)
    requires Shrinks(sys, a', head, rest) && i <= |rest| && t % 2 == LocalParity(sys.b.cfg)
    requires Lives(a', rest[..i], t)
    ensures Lives(sys.a, head + rest[..i], t)
  {
    PrefixOpens(head, rest, i, t);
    if t in sys.a.streams {
      OpenIsNew(sys, t);
    }
    if head != [] && Ends(sys.a, t, head[0]) {
      assert (head + rest)[1..] == rest;
      EndedIsOld(sys, rest, t);
    }
    hide Core;
    LivesShrinks(sys.a, a', head, rest[..i], t, LocalParity(sys.b.cfg));
  }

  lemma FewerAlive(sys: System, a': Peer, head: seq<Body>, rest: seq<Body>, i: nat)
    requires Shrinks(sys, a', head, rest) && i <= |rest|
    ensures var parity := LocalParity(sys.b.cfg); |Alive(a', rest[..i], parity)| <= |Alive(sys.a, head + rest[..i], parity)|
  {
    hide Core, Narrower, Alive, Lives, Pipe, Ends;
    var parity := LocalParity(sys.b.cfg);
    var now, before := Alive(a', rest[..i], parity), Alive(sys.a, head + rest[..i], parity);
    forall t | t in now
      ensures t in before
    {
      AliveMeans(a', rest[..i], parity, t);
      AliveMeans(sys.a, head + rest[..i], parity, t);
      AliveShrinks(sys, a', head, rest, i, t);
    }
    Fewer(now, before);
  }

  lemma RoomAt(y: Peer, rest: seq<Body>, parity: nat, i: nat)
    requires RoomFrom(y, [], rest, parity) && i < |rest| && rest[i].Open?
    ensures |Alive(y, rest[..i], parity)| < y.cfg.maxInboundStreams
  {
    hide RoomFrom, Alive;
    RoomIsFrom(y, [], rest, parity);
    assert [] + rest[..i] == rest[..i];
  }

  lemma RoomEverywhere(y: Peer, rest: seq<Body>, parity: nat)
    requires forall i :: 0 <= i < |rest| && rest[i].Open? ==> |Alive(y, rest[..i], parity)| < y.cfg.maxInboundStreams
    ensures RoomFrom(y, [], rest, parity)
  {
    hide RoomFrom, Alive;
    RoomIsFrom(y, [], rest, parity);
    assert forall i :: 0 <= i < |rest| ==> [] + rest[..i] == rest[..i];
  }

  /** The receiver's side of a step: nothing it does reduces the room its peer counts on. */
  lemma RoomShrinks(sys: System, a': Peer, head: seq<Body>, rest: seq<Body>)
    requires Shrinks(sys, a', head, rest)
    requires RoomFrom(sys.a, [], head + rest, LocalParity(sys.b.cfg))
    ensures RoomFrom(a', [], rest, LocalParity(sys.b.cfg))
  {
    hide Core, Narrower, RoomFrom, Alive, Pipe, Ends;
    var parity := LocalParity(sys.b.cfg);
    forall i | 0 <= i < |rest| && rest[i].Open?
      ensures |Alive(a', rest[..i], parity)| < a'.cfg.maxInboundStreams
    {
      RoomAt(sys.a, head + rest, parity, |head| + i);
      assert (head + rest)[..|head| + i] == head + rest[..i];
      FewerAlive(sys, a', head, rest, i);
    }
    RoomEverywhere(a', rest, parity);
  }

  lemma PrefixOpens(head: seq<Body>, rest: seq<Body>, i: nat, t: StreamId)
    requires i <= |rest|
    ensures Opens(head, t) || Opens(rest[..i], t) ==> Opens(head + rest, t)
    ensures Opens(rest[..i], t) ==> Opens(rest, t)
  {
    if Opens(head, t) {
      var j :| 0 <= j < |head| && head[j].Open? && head[j].id == t;
      assert (head + rest)[j] == head[j];
    }
    if Opens(rest[..i], t) {
      var j :| 0 <= j < i && rest[..i][j].Open? && rest[..i][j].id == t;
      assert (head + rest)[|head| + j] == rest[j];
    }
  }

  /** A stream that the head of the pipe ends is not opened again further on. */
  lemma EndedIsOld(sys: System, rest: seq<Body>, t: StreamId)
    requires Core(sys) && t % 2 == LocalParity(sys.b.cfg)
    requires var back := Pipe(sys.b, sys.ba); back != [] && back[1..] == rest && back[0].id == t && !back[0].Open?
    ensures !Opens(rest, t)
  {
    assert Piece(sys, Back);
    var back := Pipe(sys.b, sys.ba);
    hide Core;
    assert Holds(sys.b, sys.a, back, Pipe(sys.a, sys.ab), Opening);
    hide Linked;
    if Opens(rest, t) {
      OpensAtLeast(rest, ExpectedRemote(sys.a), LocalParity(sys.b.cfg), t);
    }
  }
}
