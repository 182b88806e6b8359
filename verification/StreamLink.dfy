/**
 * One direction of one stream: a sender, a FIFO of frames on their way, and a receiver.
 *
 * `RxStep` is the receiver's reaction to one frame, `Run` its reaction to everything in flight.
 * `Coupled` says that the frames in flight lead the receiver, without a protocol violation, to a
 * state that agrees with the sender. Each lemma below shows that one local move of either side
 * keeps the two coupled.
 */
module StreamLink {
  import opened Bytes
  import opened Frames

  datatype Reassembly = NoItem | Partial(received: bytes, total: nat, attributes: seq<Attribute>)

  /**
   * What the receiving peer knows of the stream. `strict` is a tombstone that refuses late DATA;
   * `finished` that the end of the input reached the application before the stream was forgotten.
   */
  datatype Rx =
    | Unopened
    | Live(credit: nat, inClosed: bool, outClosed: bool, partial: Reassembly, got: seq<Item>)
    | Gone(strict: bool, finished: bool, got: seq<Item>)

  /** What the sending peer knows of the stream; `completed` that COMPLETE was among what it sent. */
  datatype Tx =
    | Idle
    | Active(credit: nat, outClosed: bool, sent: seq<Item>)
    | Done(completed: bool, sent: seq<Item>)

  /** Reaction of a live receiver; `None` is a protocol violation. */
  function LiveStep(rx: Rx, b: Body, maxItem: nat): Option<Rx>
    requires rx.Live?
  {
    match b
    case Open(_, _) => None
    case Data(_, attributes, payload) =>
      if rx.inClosed || rx.partial.Partial? || rx.credit == 0 || |payload| > maxItem then None
      else Some(rx.(credit := rx.credit - 1, got := rx.got + [Item(payload, attributes)]))
    case First(_, total, attributes, payload) =>
      if rx.inClosed || rx.partial.Partial? || rx.credit == 0 || total > maxItem then None
      else Some(rx.(credit := rx.credit - 1, partial := Partial(payload, total, attributes)))
    case Fragment(_, payload) =>
      if rx.inClosed || rx.partial.NoItem? || |rx.partial.received| + |payload| > rx.partial.total then None
      else
        var received := rx.partial.received + payload;
        if |received| == rx.partial.total then
          Some(rx.(partial := NoItem, got := rx.got + [Item(received, rx.partial.attributes)]))
        else
          Some(rx.(partial := rx.partial.(received := received)))
    case Demand(_, _) => Some(rx)
    case Complete(_) =>
      if rx.partial.Partial? then None
      else if rx.outClosed then Some(Gone(true, true, rx.got))
      else Some(rx.(inClosed := true))
    case Cancel(_) => Some(Gone(true, rx.inClosed, rx.got))
    case Error(_, _) => Some(Gone(true, rx.inClosed, rx.got))
  }

  function RxStep(rx: Rx, b: Body, maxItem: nat): Option<Rx> {
    match rx
    case Unopened => if b.Open? then Some(Live(0, false, false, NoItem, [])) else None
    case Live(_, _, _, _, _) => LiveStep(rx, b, maxItem)
    case Gone(strict, _, _) => if b.Open? || (strict && b.IsData()) then None else Some(rx)
  }

  function Run(rx: Rx, q: seq<Body>, maxItem: nat): Option<Rx>
    decreases |q|
  {
    if q == [] then Some(rx)
    else
      var next := RxStep(rx, q[0], maxItem);
      if next.None? then None else Run(next.value, q[1..], maxItem)
  }

  /** Items received so far, whatever became of the stream. */
  function Got(rx: Rx): seq<Item> {
    if rx.Unopened? then [] else rx.got
  }

  /** The receiver's application has seen the end of the input. */
  predicate Finished(rx: Rx) { (rx.Live? && rx.inClosed) || (rx.Gone? && rx.finished) }

  /** Frames in flight that no live sender has written. */
  predicate NoEnd(q: seq<Body>) { forall i :: 0 <= i < |q| ==> !q[i].IsEnd() }

  predicate NoComplete(q: seq<Body>) { forall i :: 0 <= i < |q| ==> !q[i].Complete? }

  predicate NoData(q: seq<Body>) { forall i :: 0 <= i < |q| ==> !q[i].IsData() }

  predicate AllData(q: seq<Body>) { forall i :: 0 <= i < |q| ==> q[i].IsData() }

  predicate NoOpen(q: seq<Body>) { forall i :: 0 <= i < |q| ==> !q[i].Open? }

  /** How many items in flight have yet to be charged to the receiver. */
  function Charges(q: seq<Body>): nat
    decreases |q|
  {
    if q == [] then 0 else (if q[0].Data? || q[0].First? then 1 else 0) + Charges(q[1..])
  }

  /** Credit left with the receiver is with the sender, spent on an item under way, or granted and under way. */
  predicate Charged(tx: Tx, rx: Rx, q: seq<Body>, demand: nat) {
    tx.Active? && rx.Live? ==> rx.credit == tx.credit + Charges(q) + demand
  }

  /**
   * The sender's and the receiver's knowledge fit the frames `q` in flight between them, with
   * `demand` the credit in flight the other way.
   */
  predicate Coupled(tx: Tx, rx: Rx, q: seq<Body>, demand: nat, maxItem: nat) {
    var end := Run(rx, q, maxItem);
    && (rx.Unopened? ==> demand == 0)
    && (rx.Live? ==> !(rx.inClosed && rx.outClosed))
    && end.Some?
    && Charged(tx, rx, q, demand)
    && match tx
       case Idle =>
         && q == []
         && (rx.Live? ==> rx.credit == demand && !rx.inClosed && rx.partial.NoItem? && rx.got == [])
         && (rx.Gone? ==> !rx.strict && !rx.finished && rx.got == [])
       case Active(credit, outClosed, sent) =>
         && NoEnd(q)
         && (!outClosed ==> NoComplete(q))
         && !end.value.Unopened?
         && (end.value.Live? ==>
               && end.value.credit == credit + demand
               && end.value.inClosed == outClosed
               && end.value.partial.NoItem?
               && end.value.got == sent)
         && (end.value.Gone? ==>
               && end.value.got <= sent
               && (end.value.finished ==> outClosed && end.value.got == sent)
               && (end.value.strict && !outClosed ==> credit == 0 && demand == 0))
       case Done(completed, sent) =>
         && end.value.Gone?
         && end.value.got <= sent
         && (end.value.finished ==> completed && end.value.got == sent)
  }

  // ---------------------------------------------------------------- facts about Run

  lemma {:induction false} RunConcat(rx: Rx, a: seq<Body>, b: seq<Body>, maxItem: nat)
    ensures Run(rx, a + b, maxItem)
         == (var mid := Run(rx, a, maxItem); if mid.None? then None else Run(mid.value, b, maxItem))
    decreases |a|
  {
    if a == [] {
      assert a + b == b;
    } else {
      assert (a + b)[0] == a[0] && (a + b)[1..] == a[1..] + b;
      var next := RxStep(rx, a[0], maxItem);
      if next.Some? {
        RunConcat(next.value, a[1..], b, maxItem);
      }
    }
  }

  lemma {:induction false} ChargesConcat(a: seq<Body>, b: seq<Body>)
    ensures Charges(a + b) == Charges(a) + Charges(b)
    decreases |a|
  {
    if a == [] {
      assert a + b == b;
    } else {
      assert (a + b)[0] == a[0] && (a + b)[1..] == a[1..] + b;
      ChargesConcat(a[1..], b);
    }
  }

  /** One item is one charge, however many frames carry it. */
  lemma ItemCharge(frames: seq<Body>, id: StreamId, item: Item)
    requires Carries(frames, id, item)
    ensures Charges(frames) == 1
  {
    FragmentsFree(frames[1..], id);
  }

  lemma {:induction false} FragmentsFree(frames: seq<Body>, id: StreamId)
    requires AreFragments(frames, id)
    ensures Charges(frames) == 0
    decreases |frames|
  {
    if frames != [] {
      FragmentsFree(frames[1..], id);
    }
  }

  lemma RunOne(rx: Rx, b: Body, maxItem: nat)
    ensures Run(rx, [b], maxItem) == RxStep(rx, b, maxItem)
  {
    var next := RxStep(rx, b, maxItem);
    assert [b][1..] == [];
    if next.Some? {
      assert Run(next.value, [], maxItem) == next;
    }
  }

  /** Items are only ever appended, and nothing returns to `Unopened`. */
  lemma {:induction false} RunMonotone(rx: Rx, q: seq<Body>, maxItem: nat)
    requires Run(rx, q, maxItem).Some?
    ensures Got(rx) <= Got(Run(rx, q, maxItem).value)
    ensures !rx.Unopened? ==> !Run(rx, q, maxItem).value.Unopened?
    ensures q != [] ==> !Run(rx, q, maxItem).value.Unopened?
    ensures !rx.Unopened? ==> NoOpen(q)
    ensures rx.Gone? ==> Run(rx, q, maxItem).value == rx
    decreases |q|
  {
    if q != [] {
      var next := RxStep(rx, q[0], maxItem).value;
      RunMonotone(next, q[1..], maxItem);
      assert NoOpen(q[1..]);
      forall i | 0 <= i < |q| && !rx.Unopened?
        ensures !q[i].Open?
      {
        if i > 0 {
          assert q[i] == q[1..][i - 1];
        }
      }
    }
  }

  /** While no terminator is in flight and the reverse direction is open, a live receiver stays live. */
  lemma {:induction false} RunStaysLive(rx: Rx, q: seq<Body>, maxItem: nat)
    requires rx.Live? && Run(rx, q, maxItem).Some? && NoEnd(q)
    requires NoComplete(q) || !rx.outClosed
    ensures var z := Run(rx, q, maxItem).value;
      && z.Live?
      && z.outClosed == rx.outClosed
      && z.credit <= rx.credit
      && (rx.inClosed ==> z.inClosed && z.credit == rx.credit)
      && (NoComplete(q) ==> z.inClosed == rx.inClosed)
    decreases |q|
  {
    if q != [] {
      var next := RxStep(rx, q[0], maxItem).value;
      assert !q[0].IsEnd();
      RunStaysLive(next, q[1..], maxItem);
    }
  }

  /** A live receiver with no credit, or already closed, and no item under way is owed no DATA. */
  lemma {:induction false} RunNeedsCredit(rx: Rx, q: seq<Body>, maxItem: nat)
    requires rx.Live? && rx.partial.NoItem? && (rx.credit == 0 || rx.inClosed)
    requires Run(rx, q, maxItem).Some?
    ensures NoData(q)
    ensures Got(Run(rx, q, maxItem).value) == rx.got
    decreases |q|
  {
    if q != [] {
      var next := RxStep(rx, q[0], maxItem).value;
      if next.Live? {
        RunNeedsCredit(next, q[1..], maxItem);
      } else {
        RunGoneStrict(next, q[1..], maxItem);
      }
      forall i | 0 <= i < |q|
        ensures !q[i].IsData()
      {
        if i > 0 {
          assert q[i] == q[1..][i - 1];
        }
      }
    }
  }

  /** A strict tombstone that survives a run met no DATA. */
  lemma {:induction false} RunGoneStrict(rx: Rx, q: seq<Body>, maxItem: nat)
    requires rx.Gone? && rx.strict && Run(rx, q, maxItem).Some?
    ensures NoData(q) && NoOpen(q) && Run(rx, q, maxItem).value == rx
    decreases |q|
  {
    if q != [] {
      RunGoneStrict(rx, q[1..], maxItem);
      forall i | 0 <= i < |q|
        ensures !q[i].IsData() && !q[i].Open?
      {
        if i > 0 {
          assert q[i] == q[1..][i - 1];
        }
      }
    }
  }

  /** A receiver whose stream is gone tolerates whatever its tombstone allows. */
  lemma {:induction false} RunGone(rx: Rx, q: seq<Body>, maxItem: nat)
    requires rx.Gone? && NoOpen(q) && (!rx.strict || NoData(q))
    ensures Run(rx, q, maxItem) == Some(rx)
    decreases |q|
  {
    if q != [] {
      assert RxStep(rx, q[0], maxItem) == Some(rx);
      RunGone(rx, q[1..], maxItem);
    }
  }

  /** Extra credit is neither consumed nor lost on the way. */
  lemma {:induction false} RunExtraCredit(rx: Rx, q: seq<Body>, more: nat, maxItem: nat)
    requires rx.Live? && Run(rx, q, maxItem).Some?
    ensures var z := Run(rx, q, maxItem).value;
      Run(rx.(credit := rx.credit + more), q, maxItem)
      == Some(if z.Live? then z.(credit := z.credit + more) else z)
    decreases |q|
  {
    if q != [] {
      var next := RxStep(rx, q[0], maxItem).value;
      var richer := rx.(credit := rx.credit + more);
      assert RxStep(richer, q[0], maxItem)
          == Some(if next.Live? then next.(credit := next.credit + more) else next);
      if next.Live? {
        RunExtraCredit(next, q[1..], more, maxItem);
      } else {
        RunMonotone(next, q[1..], maxItem);
      }
    }
  }

  /** Closing the reverse direction turns a closed-for-input outcome into a retired one. */
  lemma {:induction false} RunOutClosed(rx: Rx, q: seq<Body>, maxItem: nat)
    requires rx.Live? && !rx.outClosed && !rx.inClosed && Run(rx, q, maxItem).Some?
    ensures var z := Run(rx, q, maxItem).value;
      Run(rx.(outClosed := true), q, maxItem)
      == Some(if z.Live? then (if z.inClosed then Gone(true, true, z.got) else z.(outClosed := true)) else z)
    decreases |q|
  {
    if q != [] {
      var next := RxStep(rx, q[0], maxItem).value;
      var closed := rx.(outClosed := true);
      if q[0].Complete? {
        assert RxStep(closed, q[0], maxItem) == Some(Gone(true, true, rx.got));
        assert next.inClosed && next.partial.NoItem?;
        RunNeedsCredit(next, q[1..], maxItem);
        RunMonotone(next, q[1..], maxItem);
        RunGone(Gone(true, true, rx.got), q[1..], maxItem);
        RunClosedEnds(next, q[1..], maxItem);
      } else if next.Live? {
        assert RxStep(closed, q[0], maxItem) == Some(next.(outClosed := true));
        RunOutClosed(next, q[1..], maxItem);
      } else {
        assert RxStep(closed, q[0], maxItem) == Some(next);
        RunMonotone(next, q[1..], maxItem);
      }
    }
  }

  /** From an input-closed state a run ends input-closed, or in a strict tombstone. */
  lemma {:induction false} RunClosedEnds(rx: Rx, q: seq<Body>, maxItem: nat)
    requires rx.Live? && rx.inClosed && rx.partial.NoItem? && Run(rx, q, maxItem).Some?
    ensures var z := Run(rx, q, maxItem).value;
      if z.Live? then z.inClosed && z.got == rx.got else z == Gone(true, true, rx.got)
    decreases |q|
  {
    if q != [] {
      var next := RxStep(rx, q[0], maxItem).value;
      if next.Live? {
        RunClosedEnds(next, q[1..], maxItem);
      } else {
        RunMonotone(next, q[1..], maxItem);
      }
    }
  }

  // ---------------------------------------------------------------- one whole item

  lemma {:induction false} RunFragments(rx: Rx, fragments: seq<Body>, id: StreamId, maxItem: nat)
    requires rx.Live? && rx.partial.Partial? && !rx.inClosed
    requires fragments != [] && AreFragments(fragments, id)
    requires |rx.partial.received| + |Payloads(fragments)| == rx.partial.total
    ensures Run(rx, fragments, maxItem)
         == Some(rx.(partial := NoItem,
                     got := rx.got + [Item(rx.partial.received + Payloads(fragments), rx.partial.attributes)]))
    decreases |fragments|
  {
    var payload := fragments[0].payload;
    var rest := fragments[1..];
    assert AreFragments(rest, id);
    var next := RxStep(rx, fragments[0], maxItem).value;
    if rest == [] {
      assert Payloads(fragments) == payload + [] == payload;
    } else {
      assert Payloads(rest) == rest[0].payload + Payloads(rest[1..]);
      assert next == rx.(partial := rx.partial.(received := rx.partial.received + payload));
      RunFragments(next, rest, id, maxItem);
      assert rx.partial.received + payload + Payloads(rest) == rx.partial.received + Payloads(fragments);
    }
  }

  /** The frames of one item cost one credit and deliver exactly that item, once. */
  lemma RunItem(rx: Rx, frames: seq<Body>, id: StreamId, item: Item, maxItem: nat)
    requires rx.Live? && rx.partial.NoItem? && !rx.inClosed && rx.credit > 0
    requires Carries(frames, id, item) && |item.data| <= maxItem
    ensures Run(rx, frames, maxItem) == Some(rx.(credit := rx.credit - 1, got := rx.got + [item]))
  {
    if |frames| == 1 {
      RunOne(rx, frames[0], maxItem);
    } else {
      var next := RxStep(rx, frames[0], maxItem).value;
      RunFragments(next, frames[1..], id, maxItem);
    }
  }

  lemma CarriesIsData(frames: seq<Body>, id: StreamId, item: Item)
    requires Carries(frames, id, item)
    ensures AllData(frames)
    ensures forall i :: 0 <= i < |frames| ==> frames[i].id == id
  {
    forall i | 0 <= i < |frames|
      ensures frames[i].IsData() && frames[i].id == id
    {
      if i > 0 {
        assert frames[i] == frames[1..][i - 1];
      }
    }
  }

  // ---------------------------------------------------------------- moves of the sender

  lemma TxSend(tx: Tx, rx: Rx, q: seq<Body>, demand: nat, maxItem: nat, frames: seq<Body>, id: StreamId, item: Item)
    requires Coupled(tx, rx, q, demand, maxItem)
    requires tx.Active? && !tx.outClosed && tx.credit > 0
    requires Carries(frames, id, item) && |item.data| <= maxItem
    ensures Coupled(Active(tx.credit - 1, false, tx.sent + [item]), rx, q + frames, demand, maxItem)
  {
    var z := Run(rx, q, maxItem).value;
    RunConcat(rx, q, frames, maxItem);
    CarriesIsData(frames, id, item);
    ItemCharge(frames, id, item);
    ChargesConcat(q, frames);
    if z.Live? {
      RunItem(z, frames, id, item, maxItem);
    } else {
      RunGone(z, frames, maxItem);
    }
  }

  lemma TxComplete(tx: Tx, rx: Rx, q: seq<Body>, demand: nat, maxItem: nat, id: StreamId)
    requires Coupled(tx, rx, q, demand, maxItem)
    requires tx.Active? && !tx.outClosed
    ensures Coupled(tx.(outClosed := true), rx, q + [Complete(id)], demand, maxItem)
  {
    var z := Run(rx, q, maxItem).value;
    RunConcat(rx, q, [Complete(id)], maxItem);
    ChargesConcat(q, [Complete(id)]);
    RunOne(z, Complete(id), maxItem);
  }

  /** A cancelling sender drops its unwritten DATA (`q[keep..]`) and appends a terminator. */
  lemma TxCancel(tx: Tx, rx: Rx, q: seq<Body>, keep: nat, demand: nat, maxItem: nat, last: Body)
    requires Coupled(tx, rx, q, demand, maxItem)
    requires tx.Active? && keep <= |q| && AllData(q[keep..]) && last.IsEnd()
    ensures Coupled(Done(tx.outClosed, tx.sent), rx, q[..keep] + [last], demand, maxItem)
  {
    TxTruncated(tx, rx, q, keep, demand, maxItem);
    var y := Run(rx, q[..keep], maxItem).value;
    RunConcat(rx, q[..keep], [last], maxItem);
    RunOne(y, last, maxItem);
  }

  /** What the written part of the pipeline leads to when the unwritten DATA is dropped. */
  lemma TxTruncated(tx: Tx, rx: Rx, q: seq<Body>, keep: nat, demand: nat, maxItem: nat)
    requires Coupled(tx, rx, q, demand, maxItem)
    requires tx.Active? && keep <= |q| && AllData(q[keep..])
    ensures Run(rx, q[..keep], maxItem).Some?
    ensures var y := Run(rx, q[..keep], maxItem).value;
      !y.Unopened? && y.got <= tx.sent && (Finished(y) ==> tx.outClosed && y.got == tx.sent)
  {
    assert q == q[..keep] + q[keep..];
    RunConcat(rx, q[..keep], q[keep..], maxItem);
    var y := Run(rx, q[..keep], maxItem).value;
    RunMonotone(y, q[keep..], maxItem);
    if y.Live? && y.inClosed {
      RunAfterFinish(y, q[keep..], maxItem);
    }
  }

  /** After the end of its input a receiver takes no further item, and stays finished. */
  lemma {:induction false} RunAfterFinish(rx: Rx, q: seq<Body>, maxItem: nat)
    requires Finished(rx) && Run(rx, q, maxItem).Some?
    ensures var z := Run(rx, q, maxItem).value; Finished(z) && Got(z) == Got(rx)
    decreases |q|
  {
    if q != [] {
      RunAfterFinish(RxStep(rx, q[0], maxItem).value, q[1..], maxItem);
    }
  }

  /** A sender told by the receiver that the stream is over drops its unwritten DATA and stops. */
  lemma TxStopped(tx: Tx, rx: Rx, q: seq<Body>, keep: nat, demand: nat, maxItem: nat)
    requires Coupled(tx, rx, q, demand, maxItem)
    requires tx.Active? && rx.Gone? && keep <= |q| && AllData(q[keep..])
    ensures Coupled(Done(tx.outClosed, tx.sent), rx, q[..keep], demand, maxItem)
  {
    TxTruncated(tx, rx, q, keep, demand, maxItem);
    RunMonotone(rx, q[..keep], maxItem);
  }

  /** A sender with both directions closed retires the stream: the receiver ends up doing so too. */
  lemma TxRelease(tx: Tx, rx: Rx, q: seq<Body>, demand: nat, maxItem: nat)
    requires Coupled(tx, rx, q, demand, maxItem)
    requires tx.Active? && tx.outClosed && (rx.Live? ==> rx.outClosed) && !rx.Unopened?
    ensures Coupled(Done(true, tx.sent), rx, q, demand, maxItem)
  {
    RunNeverBothClosed(rx, q, maxItem);
  }

  lemma {:induction false} RunNeverBothClosed(rx: Rx, q: seq<Body>, maxItem: nat)
    requires !rx.Unopened? && Run(rx, q, maxItem).Some?
    requires rx.Live? ==> rx.outClosed && !rx.inClosed
    ensures var z := Run(rx, q, maxItem).value; z.Gone? || (z.Live? && !z.inClosed)
    decreases |q|
  {
    if q != [] {
      RunNeverBothClosed(RxStep(rx, q[0], maxItem).value, q[1..], maxItem);
    }
  }

  /** Granted credit arrives: it leaves the reverse pipeline and becomes spendable. */
  lemma TxDemand(tx: Tx, rx: Rx, q: seq<Body>, demand: nat, maxItem: nat, n: nat, credit: nat)
    requires Coupled(tx, rx, q, demand, maxItem)
    requires tx.Active? && n <= demand
    requires credit <= tx.credit + n
    requires rx.Live? || Run(rx, q, maxItem).value.Live? ==> credit == tx.credit + n
    ensures Coupled(tx.(credit := credit), rx, q, demand - n, maxItem)
  {
  }

  /** A live receiver at the end of the pipeline has at least the sender's credit. */
  lemma CreditBound(tx: Tx, rx: Rx, q: seq<Body>, demand: nat, maxItem: nat, max: nat)
    requires Coupled(tx, rx, q, demand, maxItem)
    requires tx.Active? && (rx.Live? ==> rx.credit <= max)
    requires rx.Live? || Run(rx, q, maxItem).value.Live?
    ensures tx.credit + demand <= max
  {
    RunCreditBound(rx, q, max, maxItem);
  }

  lemma {:induction false} RunCreditBound(rx: Rx, q: seq<Body>, max: nat, maxItem: nat)
    requires Run(rx, q, maxItem).Some? && (rx.Live? ==> rx.credit <= max)
    ensures var z := Run(rx, q, maxItem).value; z.Live? ==> z.credit <= max
    decreases |q|
  {
    if q != [] {
      RunCreditBound(RxStep(rx, q[0], maxItem).value, q[1..], max, maxItem);
    }
  }

  lemma TxOpen(rx: Rx, demand: nat, maxItem: nat, id: StreamId, attributes: seq<Attribute>)
    requires Coupled(Idle, rx, [], demand, maxItem) && rx.Unopened?
    ensures Coupled(Active(0, false, []), rx, [Open(id, attributes)], demand, maxItem)
  {
    RunOne(rx, Open(id, attributes), maxItem);
  }

  lemma TxAccept(rx: Rx, demand: nat, maxItem: nat)
    requires Coupled(Idle, rx, [], demand, maxItem) && !rx.Unopened?
    ensures Coupled(Active(0, false, []), rx, [], demand, maxItem)
  {
  }

  /** A peer that refuses an OPEN answers with ERROR and never sends anything else. */
  lemma TxReject(rx: Rx, demand: nat, maxItem: nat, last: Body)
    requires Coupled(Idle, rx, [], demand, maxItem) && !rx.Unopened? && last.IsEnd()
    ensures Coupled(Done(false, []), rx, [last], demand, maxItem)
  {
    RunOne(rx, last, maxItem);
  }

  lemma TxLateDemand(tx: Tx, rx: Rx, q: seq<Body>, demand: nat, maxItem: nat, left: nat)
    requires Coupled(tx, rx, q, demand, maxItem) && tx.Done? && left <= demand
    ensures Coupled(tx, rx, q, left, maxItem)
  {
  }

  // ---------------------------------------------------------------- moves of the receiver

  lemma RxRequest(tx: Tx, rx: Rx, q: seq<Body>, demand: nat, maxItem: nat, n: nat)
    requires Coupled(tx, rx, q, demand, maxItem)
    requires rx.Live? && !rx.inClosed
    ensures Coupled(tx, rx.(credit := rx.credit + n), q, demand + n, maxItem)
  {
    RunExtraCredit(rx, q, n, maxItem);
    var z := Run(rx, q, maxItem).value;
    if z.Gone? && tx.Active? && !tx.outClosed {
      RunStaysLive(rx, q, maxItem);
      assert false;
    }
  }

  /** Local cancellation, failure, or a resource refusal: a lenient tombstone accepts all that is in flight. */
  lemma RxCancel(tx: Tx, rx: Rx, q: seq<Body>, demand: nat, maxItem: nat)
    requires Coupled(tx, rx, q, demand, maxItem)
    requires rx.Live?
    ensures Coupled(tx, Gone(false, rx.inClosed, rx.got), q, demand, maxItem)
  {
    RunMonotone(rx, q, maxItem);
    RunGone(Gone(false, rx.inClosed, rx.got), q, maxItem);
    if rx.inClosed {
      RunAfterFinish(rx, q, maxItem);
    }
  }

  lemma RxComplete(tx: Tx, rx: Rx, q: seq<Body>, demand: nat, maxItem: nat)
    requires Coupled(tx, rx, q, demand, maxItem)
    requires rx.Live? && !rx.outClosed && (rx.inClosed ==> rx.partial.NoItem?)
    ensures Coupled(tx, if rx.inClosed then Gone(true, true, rx.got) else rx.(outClosed := true), q, demand, maxItem)
  {
    if rx.inClosed {
      RunNeedsCredit(rx, q, maxItem);
      RunMonotone(rx, q, maxItem);
      RunGone(Gone(true, true, rx.got), q, maxItem);
      RunAfterFinish(rx, q, maxItem);
      if tx.Active? {
        RunStaysLive(rx, q, maxItem);
      }
    } else {
      RunOutClosed(rx, q, maxItem);
    }
  }

  lemma RxEvict(tx: Tx, rx: Rx, q: seq<Body>, demand: nat, maxItem: nat)
    requires Coupled(tx, rx, q, demand, maxItem)
    requires rx.Gone?
    ensures Coupled(tx, rx.(strict := false), q, demand, maxItem)
  {
    RunMonotone(rx, q, maxItem);
    RunGone(rx.(strict := false), q, maxItem);
  }

  /** The next frame in flight is one the receiver accepts. */
  lemma RxReceive(tx: Tx, rx: Rx, q: seq<Body>, demand: nat, maxItem: nat)
    requires Coupled(tx, rx, q, demand, maxItem)
    requires q != []
    ensures RxStep(rx, q[0], maxItem).Some?
    ensures Coupled(tx, RxStep(rx, q[0], maxItem).value, q[1..], demand, maxItem)
  {
    if tx.Active? {
      assert NoEnd(q[1..]);
      if rx.Unopened? {
        OpenedUncharged(q[1..], maxItem);
      }
    }
  }

  /** A stream just opened has no credit, and while its sender is live no item is under way either. */
  lemma OpenedUncharged(q: seq<Body>, maxItem: nat)
    requires Run(Live(0, false, false, NoItem, []), q, maxItem).Some? && NoEnd(q)
    ensures Run(Live(0, false, false, NoItem, []), q, maxItem).value.Live?
    ensures Run(Live(0, false, false, NoItem, []), q, maxItem).value.credit == 0 == Charges(q)
  {
    var rx := Live(0, false, false, NoItem, []);
    RunStaysLive(rx, q, maxItem);
    RunCharges(rx, q, maxItem);
  }

  /** The receiver refuses an OPEN: nothing that follows can be DATA, so either tombstone will do. */
  lemma RxReject(tx: Tx, rx: Rx, q: seq<Body>, demand: nat, maxItem: nat, strict: bool)
    requires Coupled(tx, rx, q, demand, maxItem)
    requires q != [] && q[0].Open?
    ensures rx.Unopened?
    ensures Coupled(tx, Gone(strict, false, []), q[1..], demand, maxItem)
  {
    var taken := Live(0, false, false, NoItem, []);
    var rest := q[1..];
    RunNeedsCredit(taken, rest, maxItem);
    RunMonotone(taken, rest, maxItem);
    RunGone(Gone(strict, false, []), rest, maxItem);
    if tx.Active? {
      assert NoEnd(rest);
      RunStaysLive(taken, rest, maxItem);
    }
  }

  /** A peer that opens a stream itself starts listening on it at once. */
  lemma RxOpened(demand: nat, maxItem: nat)
    requires Coupled(Idle, Unopened, [], demand, maxItem)
    ensures Coupled(Idle, Live(0, false, false, NoItem, []), [], demand, maxItem)
  {
  }

  // ---------------------------------------------------------------- what coupling is for

  /** A live receiver that saw COMPLETE has a sender that is finished or gone. */
  lemma InputClosed(tx: Tx, rx: Rx, q: seq<Body>, demand: nat, maxItem: nat)
    requires Coupled(tx, rx, q, demand, maxItem)
    requires rx.Live? && rx.inClosed
    ensures tx.Done? || (tx.Active? && tx.outClosed)
  {
    if tx.Active? && !tx.outClosed {
      RunStaysLive(rx, q, maxItem);
    }
  }

  /** In-order delivery: what was delivered is a prefix of what was sent, and all of it at the end of input. */
  lemma Delivery(tx: Tx, rx: Rx, q: seq<Body>, demand: nat, maxItem: nat)
    requires Coupled(tx, rx, q, demand, maxItem)
    ensures Got(rx) <= (if tx.Idle? then [] else tx.sent)
    ensures Finished(rx) ==> !tx.Idle? && Got(rx) == tx.sent
    ensures Finished(rx) ==> if tx.Active? then tx.outClosed else tx.completed
  {
    RunMonotone(rx, q, maxItem);
    if Finished(rx) {
      RunAfterFinish(rx, q, maxItem);
    }
  }

  lemma {:induction false} RunCharges(rx: Rx, q: seq<Body>, maxItem: nat)
    requires rx.Live? && Run(rx, q, maxItem).Some? && Run(rx, q, maxItem).value.Live?
    ensures rx.credit == Run(rx, q, maxItem).value.credit + Charges(q)
    decreases |q|
  {
    if q != [] {
      var next := RxStep(rx, q[0], maxItem).value;
      if next.Gone? {
        RunMonotone(next, q[1..], maxItem);
      }
      RunCharges(next, q[1..], maxItem);
    }
  }

  /** Demand conservation, whatever is in flight and whichever ends are closed. */
  lemma Conservation(tx: Tx, rx: Rx, q: seq<Body>, demand: nat, maxItem: nat)
    requires Coupled(tx, rx, q, demand, maxItem) && tx.Active? && rx.Live?
    ensures rx.credit == tx.credit + Charges(q) + demand
  {
  }
}
