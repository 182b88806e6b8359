/**
 * One stream as the two sessions see it, in both directions at once, and the moves that keep it
 * coupled. Session `x` moves; `wire` is what it has written and `y` has not processed, `back` the
 * whole pipe of `y`.
 */
module Moves {
  import opened Bytes
  import opened Frames
  import opened StreamLink
  import opened Sessions
  import opened Views
  import opened Pipes
  import opened TwoPeers

  datatype Tie = Sending | Receiving | Writing

  ghost predicate Tied(x: Peer, y: Peer, out: seq<Body>, back: seq<Body>, s: StreamId, tie: Tie) {
    match tie
    case Sending => Joined(x, y, out, back, s)
    case Receiving => Joined(y, x, back, out, s)
    case Writing => Tidy(Rel(x.outbox, s))
  }

  ghost predicate Settled(x: Peer, y: Peer, out: seq<Body>, back: seq<Body>, s: StreamId) {
    forall tie: Tie :: Tied(x, y, out, back, s, tie)
  }

  lemma Ties(x: Peer, y: Peer, out: seq<Body>, back: seq<Body>, s: StreamId)
    ensures Settled(x, y, out, back, s) <==>
      Tied(x, y, out, back, s, Sending) && Tied(x, y, out, back, s, Receiving) && Tied(x, y, out, back, s, Writing)
  {
    hide Tied;
    if Settled(x, y, out, back, s) {
      assert Tied(x, y, out, back, s, Sending) && Tied(x, y, out, back, s, Receiving) && Tied(x, y, out, back, s, Writing);
    } else {
      var tie: Tie :| !Tied(x, y, out, back, s, tie);
      match tie
      case Sending =>
      case Receiving =>
      case Writing =>
    }
  }

  /** Coupling of one direction, with the arguments spelled out. */
  lemma TiedMeans(x: Peer, y: Peer, out: seq<Body>, back: seq<Body>, s: StreamId)
    ensures Tied(x, y, out, back, s, Sending)
       <==> Coupled(TxOf(x, s), RxOf(y, s), Rel(out, s), DemandSum(back, s), y.cfg.maxInboundItemBytes)
    ensures Tied(x, y, out, back, s, Receiving)
       <==> Coupled(TxOf(y, s), RxOf(x, s), Rel(back, s), DemandSum(out, s), x.cfg.maxInboundItemBytes)
    ensures Tied(x, y, out, back, s, Writing) <==> Tidy(Rel(x.outbox, s))
  {
  }

  // ---------------------------------------------------------------- application calls

  lemma RequestMove(x: Peer, x': Peer, y: Peer, wire: seq<Body>, back: seq<Body>, s: StreamId, n: nat)
    requires Settled(x, y, wire + x.outbox, back, s) && x'.cfg == x.cfg
    requires x'.outbox == Queued(x.outbox, s, false, [Demand(s, n)])
    requires RxOf(x, s).Live? && !RxOf(x, s).inClosed
    requires TxOf(x', s) == TxOf(x, s) && RxOf(x', s) == RxOf(x, s).(credit := RxOf(x, s).credit + n)
    ensures Settled(x', y, wire + x'.outbox, back, s)
  {
    hide Settled, Tied, TxOf, RxOf, Coupled, Rel, DemandSum, Queued;
    var out, out' := wire + x.outbox, wire + x'.outbox;
    Ties(x, y, out, back, s);
    Ties(x', y, out', back, s);
    TiedMeans(x, y, out, back, s);
    TiedMeans(x', y, out', back, s);
    DemandPipe(wire, x.outbox, s, n);
    RxRequest(TxOf(y, s), RxOf(x, s), Rel(back, s), DemandSum(out, s), x.cfg.maxInboundItemBytes, n);
  }

  lemma SendMove(x: Peer, x': Peer, y: Peer, wire: seq<Body>, back: seq<Body>, s: StreamId, frames: seq<Body>, item: Item)
    requires Settled(x, y, wire + x.outbox, back, s) && x'.cfg == x.cfg
    requires x'.outbox == Queued(x.outbox, s, false, frames)
    requires Carries(frames, s, item) && |item.data| <= y.cfg.maxInboundItemBytes
    requires TxOf(x, s).Active? && !TxOf(x, s).outClosed && TxOf(x, s).credit > 0
    requires TxOf(x', s) == Active(TxOf(x, s).credit - 1, false, TxOf(x, s).sent + [item]) && RxOf(x', s) == RxOf(x, s)
    ensures Settled(x', y, wire + x'.outbox, back, s)
  {
    hide Settled, Tied, TxOf, RxOf, Coupled, Rel, DemandSum, Queued;
    var out, out' := wire + x.outbox, wire + x'.outbox;
    Ties(x, y, out, back, s);
    Ties(x', y, out', back, s);
    TiedMeans(x, y, out, back, s);
    TiedMeans(x', y, out', back, s);
    ItemPipe(wire, x.outbox, s, frames, item);
    TxSend(TxOf(x, s), RxOf(y, s), Rel(out, s), DemandSum(back, s), y.cfg.maxInboundItemBytes, frames, s, item);
  }

  /** The two views a session has of one stream go together. */
  lemma TwoSides(p: Peer, s: StreamId)
    ensures TxOf(p, s).Active? <==> RxOf(p, s).Live?
    ensures TxOf(p, s).Idle? <==> RxOf(p, s).Unopened?
    ensures RxOf(p, s).Live? ==> TxOf(p, s).outClosed == RxOf(p, s).outClosed
  {
  }

  lemma CompleteMove(x: Peer, x': Peer, y: Peer, wire: seq<Body>, back: seq<Body>, s: StreamId)
    requires Settled(x, y, wire + x.outbox, back, s) && x'.cfg == x.cfg
    requires x'.outbox == Queued(x.outbox, s, false, [Complete(s)]) && !Busy(x.outbox, s)
    requires TxOf(x, s).Active? && !TxOf(x, s).outClosed
    requires RxOf(x, s).Live? && (RxOf(x, s).inClosed ==> RxOf(x, s).partial.NoItem?)
    requires TxOf(x', s) == if RxOf(x, s).inClosed then Done(true, TxOf(x, s).sent) else TxOf(x, s).(outClosed := true)
    requires RxOf(x', s)
          == if RxOf(x, s).inClosed then Gone(true, true, RxOf(x, s).got) else RxOf(x, s).(outClosed := true)
    ensures Settled(x', y, wire + x'.outbox, back, s)
  {
    var frames := [Complete(s)];
    TwoSides(x, s);
    TwoSides(y, s);
    var out, out' := wire + x.outbox, wire + x'.outbox;
    Ties(x, y, out, back, s);
    Ties(x', y, out', back, s);
    TiedMeans(x, y, out, back, s);
    TiedMeans(x', y, out', back, s);
    hide Settled, Tied, TxOf, RxOf, Coupled;
    NotBusy(x.outbox, s);
    RelOwn(frames, s);
    PipeGrown(wire, x.outbox, s, frames);
    TidyQueued(x.outbox, s, false, frames);
    hide Rel, DemandSum, Queued, Busy;
    var tx, rx := TxOf(x, s), RxOf(x, s);
    TxComplete(tx, RxOf(y, s), Rel(out, s), DemandSum(back, s), y.cfg.maxInboundItemBytes, s);
    RxComplete(TxOf(y, s), rx, Rel(back, s), DemandSum(out, s), x.cfg.maxInboundItemBytes);
    if rx.inClosed {
      InputClosed(TxOf(y, s), rx, Rel(back, s), DemandSum(out, s), x.cfg.maxInboundItemBytes);
      TxRelease(tx.(outClosed := true), RxOf(y, s), Rel(out, s) + frames, DemandSum(back, s), y.cfg.maxInboundItemBytes);
    }
  }

  lemma TerminateMove(x: Peer, x': Peer, y: Peer, wire: seq<Body>, back: seq<Body>, s: StreamId, last: Body)
    requires Settled(x, y, wire + x.outbox, back, s) && x'.cfg == x.cfg
    requires x'.outbox == Queued(x.outbox, s, true, [last]) && last.IsEnd() && last.id == s
    requires TxOf(x, s).Active? && RxOf(x, s).Live?
    requires TxOf(x', s) == Done(TxOf(x, s).outClosed, TxOf(x, s).sent)
    requires RxOf(x', s) == Gone(false, RxOf(x, s).inClosed, RxOf(x, s).got)
    ensures Settled(x', y, wire + x'.outbox, back, s)
  {
    hide Settled, Tied, TxOf, RxOf, Coupled, Rel, DemandSum, Queued;
    var out, out' := wire + x.outbox, wire + x'.outbox;
    Ties(x, y, out, back, s);
    Ties(x', y, out', back, s);
    TiedMeans(x, y, out, back, s);
    TiedMeans(x', y, out', back, s);
    var keep := EndPipe(wire, x.outbox, s, last);
    TxCancel(TxOf(x, s), RxOf(y, s), Rel(out, s), keep, DemandSum(back, s), y.cfg.maxInboundItemBytes, last);
    RxCancel(TxOf(y, s), RxOf(x, s), Rel(back, s), DemandSum(out, s), x.cfg.maxInboundItemBytes);
  }

  /** The first frame of a stream that had none. */
  lemma NothingWritten(wire: seq<Body>, outbox: seq<Body>, s: StreamId, frames: seq<Body>)
    requires Rel(wire + outbox, s) == []
    requires |frames| == 1 && frames[0].id == s && !frames[0].Demand?
    ensures var all := Queued(outbox, s, false, frames);
      && Tidy(Rel(all, s))
      && Rel(wire + all, s) == frames
      && DemandSum(wire + all, s) == DemandSum(wire + outbox, s)
  {
    RelOwn(frames, s);
    PipeGrown(wire, outbox, s, frames);
    RelConcat(wire, outbox, s);
    RelConcat(outbox, frames, s);
    hide Rel, DemandSum;
    assert Rel(outbox, s) == [] && [] + frames == frames;
  }

  lemma OpenMove(x: Peer, x': Peer, y: Peer, wire: seq<Body>, back: seq<Body>, s: StreamId, attributes: seq<Attribute>)
    requires Settled(x, y, wire + x.outbox, back, s) && x'.cfg == x.cfg
    requires x'.outbox == Queued(x.outbox, s, false, [Open(s, attributes)])
    requires TxOf(x, s) == Idle && RxOf(x, s) == Unopened && TxOf(y, s) == Idle && RxOf(y, s) == Unopened
    requires TxOf(x', s) == Active(0, false, []) && RxOf(x', s) == Live(0, false, false, NoItem, [])
    ensures Settled(x', y, wire + x'.outbox, back, s)
  {
    var frames := [Open(s, attributes)];
    var out, out' := wire + x.outbox, wire + x'.outbox;
    Ties(x, y, out, back, s);
    Ties(x', y, out', back, s);
    TiedMeans(x, y, out, back, s);
    TiedMeans(x', y, out', back, s);
    hide Settled, Tied, TxOf, RxOf, Coupled;
    CoupledRuns(TxOf(x, s), RxOf(y, s), Rel(out, s), DemandSum(back, s), y.cfg.maxInboundItemBytes);
    CoupledRuns(TxOf(y, s), RxOf(x, s), Rel(back, s), DemandSum(out, s), x.cfg.maxInboundItemBytes);
    NothingWritten(wire, x.outbox, s, frames);
    hide Rel, DemandSum, Queued;
    TxOpen(RxOf(y, s), DemandSum(back, s), y.cfg.maxInboundItemBytes, s, attributes);
    RxOpened(DemandSum(out, s), x.cfg.maxInboundItemBytes);
  }

  // ---------------------------------------------------------------- frames from the peer

  lemma HeadOf(back: seq<Body>, s: StreamId)
    requires back != [] && back[0].id == s
    ensures back[0].Demand? ==>
      Rel(back[1..], s) == Rel(back, s) && DemandSum(back, s) == back[0].credit + DemandSum(back[1..], s)
    ensures !back[0].Demand? ==>
      && Rel(back, s) != [] && Rel(back, s)[0] == back[0] && Rel(back, s)[1..] == Rel(back[1..], s)
      && DemandSum(back[1..], s) == DemandSum(back, s)
  {
  }

  /** The view takes in the frame and the sending side is not concerned. */
  lemma TakeMove(x: Peer, x': Peer, y: Peer, wire: seq<Body>, back: seq<Body>, s: StreamId)
    requires Settled(x, y, wire + x.outbox, back, s) && x'.cfg == x.cfg && x'.outbox == x.outbox
    requires back != [] && back[0].id == s && !back[0].Demand?
    requires TxOf(x', s) == TxOf(x, s)
    requires Some(RxOf(x', s)) == RxStep(RxOf(x, s), back[0], x.cfg.maxInboundItemBytes)
    ensures Settled(x', y, wire + x'.outbox, back[1..], s)
  {
    var out, out', rest := wire + x.outbox, wire + x'.outbox, back[1..];
    Ties(x, y, out, back, s);
    Ties(x', y, out', rest, s);
    TiedMeans(x, y, out, back, s);
    TiedMeans(x', y, out', rest, s);
    hide Settled, Tied, TxOf, RxOf, Coupled;
    HeadOf(back, s);
    hide Rel, DemandSum;
    RxReceive(TxOf(y, s), RxOf(x, s), Rel(back, s), DemandSum(out, s), x.cfg.maxInboundItemBytes);
  }

  lemma GiveUpMove(x: Peer, x': Peer, y: Peer, wire: seq<Body>, back: seq<Body>, s: StreamId)
    requires Settled(x, y, wire + x.outbox, back, s) && x'.cfg == x.cfg
    requires x'.outbox == Queued(x.outbox, s, true, [Error(s, Exhausted())])
    requires back != [] && back[0].id == s && back[0].First?
    requires TxOf(x, s).Active? && RxOf(x, s).Live?
    requires TxOf(x', s) == Done(TxOf(x, s).outClosed, TxOf(x, s).sent)
    requires RxOf(x', s) == Gone(false, RxOf(x, s).inClosed, RxOf(x, s).got)
    ensures Settled(x', y, wire + x'.outbox, back[1..], s)
  {
    TerminateMove(x, x', y, wire, back, s, Error(s, Exhausted()));
    TakeMove(x', x', y, wire, back, s);
  }

  lemma DemandMove(x: Peer, x': Peer, y: Peer, wire: seq<Body>, back: seq<Body>, s: StreamId)
    requires Settled(x, y, wire + x.outbox, back, s) && x'.cfg == x.cfg && x'.outbox == x.outbox
    requires back != [] && back[0].id == s && back[0].Demand?
    requires RxOf(y, s).Live? ==> Below(RxOf(y, s).credit, x.cfg.creditCap)
    requires RxOf(x', s) == RxOf(x, s) && TxOf(x, s).Active?
    requires TxOf(x', s) == TxOf(x, s).(credit := AddCredit(x.cfg.creditCap, TxOf(x, s).credit, back[0].credit))
    ensures Settled(x', y, wire + x'.outbox, back[1..], s)
  {
    var out, out', rest := wire + x.outbox, wire + x'.outbox, back[1..];
    Ties(x, y, out, back, s);
    Ties(x', y, out', rest, s);
    TiedMeans(x, y, out, back, s);
    TiedMeans(x', y, out', rest, s);
    hide Settled, Tied, TxOf, RxOf, Coupled;
    HeadOf(back, s);
    hide Rel, DemandSum;
    var tx, ry, max := TxOf(x, s), RxOf(y, s), y.cfg.maxInboundItemBytes;
    CoupledRuns(tx, ry, Rel(out, s), DemandSum(back, s), max);
    if x.cfg.creditCap.Some? && (ry.Live? || Run(ry, Rel(out, s), max).value.Live?) {
      CreditBound(tx, ry, Rel(out, s), DemandSum(back, s), max, x.cfg.creditCap.value);
    }
    TxDemand(tx, ry, Rel(out, s), DemandSum(back, s), max, back[0].credit, TxOf(x', s).credit);
  }

  lemma CoupledRuns(tx: Tx, rx: Rx, q: seq<Body>, demand: nat, maxItem: nat)
    requires Coupled(tx, rx, q, demand, maxItem)
    ensures Run(rx, q, maxItem).Some?
    ensures q != [] ==> !tx.Idle?
    ensures tx.Active? ==> NoEnd(q) && (!tx.outClosed ==> NoComplete(q))
    ensures tx.Idle? ==> q == []
  {
  }

  /** COMPLETE: the input ends, and the stream with it when the output had ended. */
  lemma FinishMove(x: Peer, x': Peer, y: Peer, wire: seq<Body>, back: seq<Body>, s: StreamId)
    requires Settled(x, y, wire + x.outbox, back, s) && x'.cfg == x.cfg && x'.outbox == x.outbox
    requires back != [] && back[0] == Complete(s)
    requires TxOf(x, s).Active?
    requires TxOf(x', s) == if TxOf(x, s).outClosed then Done(true, TxOf(x, s).sent) else TxOf(x, s)
    requires Some(RxOf(x', s)) == RxStep(RxOf(x, s), back[0], x.cfg.maxInboundItemBytes)
    ensures Settled(x', y, wire + x'.outbox, back[1..], s)
  {
    TwoSides(x, s);
    TwoSides(y, s);
    var out, out', rest := wire + x.outbox, wire + x'.outbox, back[1..];
    Ties(x, y, out, back, s);
    Ties(x', y, out', rest, s);
    TiedMeans(x, y, out, back, s);
    TiedMeans(x', y, out', rest, s);
    hide Settled, Tied, TxOf, RxOf, Coupled;
    HeadOf(back, s);
    hide Rel, DemandSum;
    CoupledRuns(TxOf(y, s), RxOf(x, s), Rel(back, s), DemandSum(out, s), x.cfg.maxInboundItemBytes);
    RxReceive(TxOf(y, s), RxOf(x, s), Rel(back, s), DemandSum(out, s), x.cfg.maxInboundItemBytes);
    if TxOf(x, s).outClosed {
      TxRelease(TxOf(x, s), RxOf(y, s), Rel(out, s), DemandSum(back, s), y.cfg.maxInboundItemBytes);
    }
  }

  /** CANCEL or ERROR: the peer is gone, so unwritten DATA is dropped and nothing more is sent. */
  lemma EndMove(x: Peer, x': Peer, y: Peer, wire: seq<Body>, back: seq<Body>, s: StreamId)
    requires Settled(x, y, wire + x.outbox, back, s) && x'.cfg == x.cfg
    requires x'.outbox == Queued(x.outbox, s, true, [])
    requires back != [] && back[0].id == s && back[0].IsEnd()
    requires TxOf(x, s).Active? && RxOf(x, s).Live?
    requires TxOf(x', s) == Done(TxOf(x, s).outClosed, TxOf(x, s).sent)
    requires RxOf(x', s) == Gone(true, RxOf(x, s).inClosed, RxOf(x, s).got)
    ensures Settled(x', y, wire + x'.outbox, back[1..], s)
  {
    TwoSides(y, s);
    var out, out', rest := wire + x.outbox, wire + x'.outbox, back[1..];
    Ties(x, y, out, back, s);
    Ties(x', y, out', rest, s);
    TiedMeans(x, y, out, back, s);
    TiedMeans(x', y, out', rest, s);
    hide Settled, Tied, TxOf, RxOf, Coupled;
    HeadOf(back, s);
    TidyQueued(x.outbox, s, true, []);
    var keep := QueuedOwn(wire, x.outbox, s, true, []);
    assert Rel([], s) == [] && Rel(out, s)[..keep] + [] == Rel(out, s)[..keep];
    assert DemandSum([], s) == 0;
    hide Rel, DemandSum, Queued, AllData;
    CoupledRuns(TxOf(y, s), RxOf(x, s), Rel(back, s), DemandSum(out, s), x.cfg.maxInboundItemBytes);
    RxReceive(TxOf(y, s), RxOf(x, s), Rel(back, s), DemandSum(out, s), x.cfg.maxInboundItemBytes);
    TxStopped(TxOf(x, s), RxOf(y, s), Rel(out, s), keep, DemandSum(back, s), y.cfg.maxInboundItemBytes);
  }

  /** A frame for a stream that is no longer known changes nothing. */
  lemma LateMove(x: Peer, y: Peer, out: seq<Body>, back: seq<Body>, s: StreamId)
    requires Settled(x, y, out, back, s)
    requires back != [] && back[0].id == s && RxOf(x, s).Gone?
    ensures Settled(x, y, out, back[1..], s)
    ensures !back[0].Demand? ==> RxStep(RxOf(x, s), back[0], x.cfg.maxInboundItemBytes) == Some(RxOf(x, s))
  {
    TwoSides(x, s);
    var rest := back[1..];
    Ties(x, y, out, back, s);
    Ties(x, y, out, rest, s);
    TiedMeans(x, y, out, back, s);
    TiedMeans(x, y, out, rest, s);
    hide Settled, Tied, TxOf, RxOf, Coupled;
    HeadOf(back, s);
    hide Rel, DemandSum;
    if back[0].Demand? {
      TxLateDemand(TxOf(x, s), RxOf(y, s), Rel(out, s), DemandSum(back, s), y.cfg.maxInboundItemBytes, DemandSum(rest, s));
    } else {
      RxReceive(TxOf(y, s), RxOf(x, s), Rel(back, s), DemandSum(out, s), x.cfg.maxInboundItemBytes);
    }
  }

  lemma AcceptMove(x: Peer, x': Peer, y: Peer, wire: seq<Body>, back: seq<Body>, s: StreamId)
    requires Settled(x, y, wire + x.outbox, back, s) && x'.cfg == x.cfg && x'.outbox == x.outbox
    requires back != [] && back[0].id == s && back[0].Open?
    requires TxOf(x, s) == Idle && RxOf(x, s) == Unopened
    requires TxOf(x', s) == Active(0, false, []) && RxOf(x', s) == Live(0, false, false, NoItem, [])
    ensures Settled(x', y, wire + x'.outbox, back[1..], s)
  {
    TwoSides(y, s);
    var out, out', rest := wire + x.outbox, wire + x'.outbox, back[1..];
    Ties(x, y, out, back, s);
    Ties(x', y, out', rest, s);
    TiedMeans(x, y, out, back, s);
    TiedMeans(x', y, out', rest, s);
    hide Settled, Tied, TxOf, RxOf, Coupled;
    HeadOf(back, s);
    hide Rel, DemandSum;
    CoupledRuns(TxOf(y, s), RxOf(x, s), Rel(back, s), DemandSum(out, s), x.cfg.maxInboundItemBytes);
    CoupledRuns(TxOf(x, s), RxOf(y, s), Rel(out, s), DemandSum(back, s), y.cfg.maxInboundItemBytes);
    RxReceive(TxOf(y, s), RxOf(x, s), Rel(back, s), DemandSum(out, s), x.cfg.maxInboundItemBytes);
    TxAccept(RxOf(y, s), DemandSum(back, s), y.cfg.maxInboundItemBytes);
  }

  lemma RefuseMove(x: Peer, x': Peer, y: Peer, wire: seq<Body>, back: seq<Body>, s: StreamId, code: Option<bytes>)
    requires Settled(x, y, wire + x.outbox, back, s) && x'.cfg == x.cfg
    requires x'.outbox == Queued(x.outbox, s, false, [Error(s, code)])
    requires back != [] && back[0].id == s && back[0].Open?
    requires TxOf(x, s) == Idle && RxOf(x, s) == Unopened
    requires TxOf(x', s) == Done(false, []) && RxOf(x', s) in {Gone(true, false, []), Gone(false, false, [])}
    ensures Settled(x', y, wire + x'.outbox, back[1..], s)
  {
    var frames := [Error(s, code)];
    TwoSides(y, s);
    var out, out', rest := wire + x.outbox, wire + x'.outbox, back[1..];
    Ties(x, y, out, back, s);
    Ties(x', y, out', rest, s);
    TiedMeans(x, y, out, back, s);
    TiedMeans(x', y, out', rest, s);
    hide Settled, Tied, TxOf, RxOf, Coupled;
    HeadOf(back, s);
    CoupledRuns(TxOf(y, s), RxOf(x, s), Rel(back, s), DemandSum(out, s), x.cfg.maxInboundItemBytes);
    CoupledRuns(TxOf(x, s), RxOf(y, s), Rel(out, s), DemandSum(back, s), y.cfg.maxInboundItemBytes);
    NothingWritten(wire, x.outbox, s, frames);
    hide Rel, DemandSum, Queued;
    RxReject(TxOf(y, s), RxOf(x, s), Rel(back, s), DemandSum(out, s), x.cfg.maxInboundItemBytes, RxOf(x', s).strict);
    TxReject(RxOf(y, s), DemandSum(back, s), y.cfg.maxInboundItemBytes, Error(s, code));
  }
}
