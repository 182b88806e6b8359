/**
 * The session as an object: fields updated in place by the methods of the session and its streams.
 * Each method is proved to do to `View()` what the function of the same name in `Sessions` does.
 */
module Session {
  import opened Bytes
  import opened Frames
  import opened StreamLink
  import FragmentPlan
  import S = Sessions
  import A = Accounting

  class StreamState {
    const id: StreamId
    const local: bool
    const retained: nat
    var inCredit: nat
    var outCredit: nat
    var inClosed: bool
    var outClosed: bool
    var cancelled: bool
    var partial: Reassembly

    constructor (id: StreamId, attributes: seq<Attribute>, local: bool)
      ensures this.id == id && !cancelled
      ensures Snapshot() == S.NewStream(attributes, local)
    {
      this.id := id;
      this.local := local;
      retained := S.AttributeMemory(attributes);
      inCredit, outCredit := 0, 0;
      inClosed, outClosed, cancelled := false, false, false;
      partial := NoItem;
    }

    function Snapshot(): S.Stream
      reads this
    {
      S.Stream(local, retained, inCredit, outCredit, inClosed, outClosed, partial)
    }

    method Stop()
      modifies this`cancelled, this`inClosed, this`outClosed
      ensures cancelled && !Live()
    {
      cancelled, inClosed, outClosed := true, true, true;
    }

    /** Neither cancelled nor closed in both directions. */
    predicate Live()
      reads this
    {
      !cancelled && !(inClosed && outClosed)
    }
  }

  class Session {
    const cfg: S.Config
    var streams: map<StreamId, StreamState>
    var retired: map<StreamId, bool>
    var retiredOrder: seq<StreamId>
    var nextStreamId: nat
    var highestRemote: nat
    var outgoingSequence: nat
    var expectedSequence: nat
    var inFlight: int
    var localActive: int
    var remoteActive: int
    var retainedBytes: int
    var outbox: seq<Body>
    var delivered: map<StreamId, seq<Item>>
    ghost var sent: map<StreamId, seq<Item>>
    ghost var completed: set<StreamId>
    ghost var finished: set<StreamId>

    ghost function Streams(): map<StreamId, S.Stream>
      reads this`streams, streams.Values
    {
      map s | s in streams :: streams[s].Snapshot()
    }

    ghost function View(): S.Peer
      reads this, streams.Values
    {
      S.Peer(cfg, Streams(), retired, retiredOrder, nextStreamId, highestRemote, outgoingSequence, expectedSequence,
             inFlight, localActive, remoteActive, retainedBytes, outbox, sent, delivered, completed, finished)
    }

    /** Each stream is kept under its own id, so no two ids share a record; credit never exceeds 2^32 - 1. */
    ghost predicate Valid()
      reads this`streams, streams.Values
    {
      && cfg.creditCap == Some(S.MAX_CREDIT)
      && forall s :: s in streams ==> streams[s].id == s && streams[s].outCredit <= S.MAX_CREDIT
    }

    constructor (cfg: S.Config)
      requires cfg.creditCap == Some(S.MAX_CREDIT)
      ensures Valid()
      ensures View() == S.Peer(cfg, map[], map[], [], if cfg.initiator then 1 else 2, 0, 1, 1, 0, 0, 0, 0, [],
                               map[], map[], {}, {})
    {
      this.cfg := cfg;
      streams, retired, retiredOrder := map[], map[], [];
      nextStreamId, highestRemote := if cfg.initiator then 1 else 2, 0;
      outgoingSequence, expectedSequence := 1, 1;
      inFlight, localActive, remoteActive, retainedBytes := 0, 0, 0, 0;
      outbox, delivered, sent := [], map[], map[];
      completed, finished := {}, {};
    }

    /** The live stream with this id: what the handle an application holds refers to. */
    ghost predicate Has(s: StreamId, t: StreamState)
      reads this`streams, streams.Values
    {
      Valid() && s in streams && streams[s] == t
    }

    method Retire(s: StreamId, lenient: bool)
      modifies this`retired, this`retiredOrder
      ensures View() == S.Retire(old(View()), s, lenient)
    {
      if s !in retired {
        retired := retired[s := lenient];
        retiredOrder := retiredOrder + [s];
        if |retiredOrder| > cfg.maxRetiredStreams {
          var oldest := retiredOrder[0];
          retiredOrder := retiredOrder[1..];
          retired := retired - {oldest};
        }
      }
    }

    method ClearReassembly(t: StreamState)
      requires Has(t.id, t)
      modifies this`inFlight, t`partial
      ensures Has(t.id, t) && t.partial.NoItem?
      ensures View() == S.ClearReassembly(old(View()), t.id)
    {
      if t.partial.Partial? {
        inFlight := S.Floor(inFlight - t.partial.total);
        t.partial := NoItem;
        assert Streams() == old(Streams())[t.id := t.Snapshot()];
      }
    }

    /** `streams.delete`, with the counters that follow from it. */
    method Forget(t: StreamState)
      requires Has(t.id, t)
      modifies this`streams, this`localActive, this`remoteActive, this`retainedBytes
      ensures Valid() && t.id !in streams && t !in streams.Values
      ensures View() == S.Forget(old(View()), t.id)
    {
      hide S.Floor;
      streams := streams - {t.id};
      assert Streams() == old(Streams()) - {t.id};
      Uncount(t);
    }

    method Uncount(t: StreamState)
      modifies this`localActive, this`remoteActive, this`retainedBytes
      ensures var p := old(View());
        View() == p.(localActive := if t.local then S.Floor(p.localActive - 1) else p.localActive,
                     remoteActive := if t.local then p.remoteActive else S.Floor(p.remoteActive - 1),
                     retainedBytes := S.Floor(p.retainedBytes - t.retained))
    {
      if t.local {
        localActive := S.Floor(localActive - 1);
      } else {
        remoteActive := S.Floor(remoteActive - 1);
      }
      retainedBytes := S.Floor(retainedBytes - t.retained);
    }

    /** The write loop skips the DATA and FRAGMENT frames of a cancelled stream. */
    method DropUnwritten(s: StreamId)
      modifies this`outbox
      ensures View() == old(View()).(outbox := S.Purge(old(View()).outbox, s))
    {
      outbox := S.Purge(outbox, s);
    }

    method CancelStream(t: StreamState, lenient: bool)
      requires Has(t.id, t)
      modifies this`streams, this`retired, this`retiredOrder, this`inFlight, this`localActive, this`remoteActive
      modifies this`retainedBytes, this`outbox, t`inClosed, t`outClosed, t`cancelled, t`partial
      ensures Valid() && t.cancelled
      ensures View() == S.CancelStream(old(View()), t.id, lenient)
    {
      hide S.ClearReassembly, S.Forget, S.Retire, S.Purge, Has;
      ClearReassembly(t);
      Forget(t);
      t.Stop();
      DropUnwritten(t.id);
      Retire(t.id, lenient);
    }

    method ReleaseStream(t: StreamState)
      requires Has(t.id, t)
      modifies this`streams, this`retired, this`retiredOrder, this`localActive, this`remoteActive, this`retainedBytes
      ensures Valid()
      ensures View() == S.ReleaseStream(old(View()), t.id)
    {
      if t.inClosed && t.outClosed {
        Forget(t);
        Retire(t.id, false);
      }
    }

    // -------------------------------------------------------------- application calls

    /** The record changed in place: the view changes at its id only. */
    twostate lemma OnlyRecord(t: StreamState)
      requires old(Has(t.id, t)) && Has(t.id, t) && streams == old(streams)
      requires forall u :: u in streams.Values && u != t ==> unchanged(u)
      ensures Streams() == old(Streams())[t.id := t.Snapshot()]
    {
      forall k | k in streams && k != t.id
        ensures streams[k].Snapshot() == old(streams[k].Snapshot())
      {
        assert streams[k].id == k;
        assert streams[k] in streams.Values;
      }
    }

    method Request(s: StreamId, n: int)
      requires Valid()
      modifies this`outbox, if s in streams then {streams[s]} else {}
      ensures Valid() && streams == old(streams)
      ensures View() == S.Request(old(View()), s, n)
    {
      if 1 <= n <= S.MAX_CREDIT && s in streams {
        var t := streams[s];
        if !t.inClosed {
          t.inCredit := S.AddCredit(cfg.creditCap, t.inCredit, n);
          outbox := outbox + [Demand(s, n)];
          OnlyRecord(t);
        }
      }
    }

    method Send(s: StreamId, item: Item) returns (refused: bool)
      requires Valid()
      modifies this`outbox, this`sent, if s in streams then {streams[s]} else {}
      ensures Valid() && streams == old(streams)
      ensures View() == S.Send(old(View()), s, item)
      ensures refused <==> !(old(S.MaySend(View(), s)) && FragmentPlan.Plan(s, item, cfg.outbound).Planned?)
    {
      hide FragmentPlan.Plan, S.Busy;
      refused := true;
      if s in streams && !streams[s].outClosed && streams[s].outCredit > 0 && !S.Busy(outbox, s) {
        refused := SendItem(streams[s], item);
      }
    }

    /** One credit is taken first, and given back when the item cannot be planned. */
    method SendItem(t: StreamState, item: Item) returns (refused: bool)
      requires Has(t.id, t) && t.outCredit > 0
      modifies this`outbox, this`sent, t`outCredit
      ensures Has(t.id, t) && streams == old(streams)
      ensures refused <==> FragmentPlan.Plan(t.id, item, cfg.outbound).Refused?
      ensures refused ==> View() == old(View())
      ensures !refused ==>
        (var p := old(View());
        View() == p.(streams := p.streams[t.id := p.streams[t.id].(outCredit := p.streams[t.id].outCredit - 1)],
                     outbox := p.outbox + FragmentPlan.Plan(t.id, item, cfg.outbound).frames,
                     sent := p.sent[t.id := S.Log(p.sent, t.id) + [item]]))
    {
      hide FragmentPlan.Plan, S.Log, S.AddCredit, View, Streams;
      ghost var p := View();
      SnapshotOf(t);
      TakeCredit(t);
      ghost var q := View();
      refused := WritePlan(t.id, item);
      if refused {
        GiveBack(t);
        CreditBack(p, q, View(), t.id);
      }
    }

    lemma SnapshotOf(t: StreamState)
      requires Has(t.id, t)
      ensures t.id in View().streams && View().streams[t.id] == t.Snapshot() && t.outCredit <= S.MAX_CREDIT
    {
    }

    /** The frames of the item, if it can be planned. */
    method WritePlan(s: StreamId, item: Item) returns (refused: bool)
      modifies this`outbox, this`sent
      ensures refused <==> FragmentPlan.Plan(s, item, cfg.outbound).Refused?
      ensures refused ==> View() == old(View())
      ensures !refused ==>
        (var p := old(View());
        View() == p.(outbox := p.outbox + FragmentPlan.Plan(s, item, cfg.outbound).frames,
                     sent := p.sent[s := S.Log(p.sent, s) + [item]]))
    {
      hide FragmentPlan.Plan, S.Log, View;
      var plan := FragmentPlan.PlanFrames(s, item, cfg.outbound);
      refused := plan.Refused?;
      if !refused {
        Enqueue(s, plan.frames, item);
      }
    }

    /** One credit taken and given back leaves the session as it was. */
    static lemma CreditBack(p: S.Peer, q: S.Peer, r: S.Peer, s: StreamId)
      requires s in p.streams && p.streams[s].outCredit > 0
      requires q == p.(streams := p.streams[s := p.streams[s].(outCredit := p.streams[s].outCredit - 1)])
      requires r == q.(streams := q.streams[s := q.streams[s].(outCredit := q.streams[s].outCredit + 1)])
      ensures r == p
    {
      assert r.streams == p.streams;
    }

    method TakeCredit(t: StreamState)
      requires Has(t.id, t) && t.outCredit > 0
      modifies t`outCredit
      ensures Has(t.id, t) && t.outCredit == old(t.outCredit) - 1
      ensures var p := old(View());
        View() == p.(streams := p.streams[t.id := p.streams[t.id].(outCredit := p.streams[t.id].outCredit - 1)])
    {
      t.outCredit := t.outCredit - 1;
      OnlyRecord(t);
    }

    method GiveBack(t: StreamState)
      requires Has(t.id, t) && t.outCredit < S.MAX_CREDIT
      modifies t`outCredit
      ensures Has(t.id, t)
      ensures var p := old(View());
        View() == p.(streams := p.streams[t.id := p.streams[t.id].(outCredit := p.streams[t.id].outCredit + 1)])
    {
      t.outCredit := S.AddCredit(cfg.creditCap, t.outCredit, 1);
      OnlyRecord(t);
    }

    method Enqueue(s: StreamId, frames: seq<Body>, item: Item)
      modifies this`outbox, this`sent
      ensures var p := old(View());
        View() == p.(outbox := p.outbox + frames, sent := p.sent[s := S.Log(p.sent, s) + [item]])
    {
      outbox := outbox + frames;
      sent := sent[s := S.Log(sent, s) + [item]];
    }

    method Complete(s: StreamId)
      requires Valid()
      modifies this, if s in streams then {streams[s]} else {}
      ensures Valid()
      ensures View() == S.CompleteOut(old(View()), s)
    {
      if s in streams && !streams[s].outClosed && !S.Busy(outbox, s) {
        var t := streams[s];
        WriteComplete(t);
        ReleaseStream(t);
      }
    }

    method WriteComplete(t: StreamState)
      requires Has(t.id, t)
      modifies this`outbox, this`completed, t`outClosed
      ensures Has(t.id, t) && streams == old(streams)
      ensures var p := old(View());
        View() == p.(streams := p.streams[t.id := p.streams[t.id].(outClosed := true)],
                     outbox := p.outbox + [Body.Complete(t.id)], completed := p.completed + {t.id})
    {
      outbox := outbox + [Body.Complete(t.id)];
      t.outClosed := true;
      completed := completed + {t.id};
      OnlyRecord(t);
    }

    /** `cancel` and `fail`, which differ in the frame they write. */
    method Terminate(s: StreamId, last: Body)
      requires Valid()
      modifies this, if s in streams then {streams[s]} else {}
      ensures Valid()
      ensures View() == S.Terminate(old(View()), s, last)
    {
      if s in streams {
        CancelStream(streams[s], true);
        Write(last);
      }
    }

    method Write(b: Body)
      modifies this`outbox
      ensures View() == old(View()).(outbox := old(View()).outbox + [b])
    {
      outbox := outbox + [b];
    }

    /** The stream is inserted before the OPEN frame is written, and taken out again if that fails. */
    method Open(attributes: seq<Attribute>, written: bool) returns (accepted: bool)
      requires Valid() && A.Valid(View())
      modifies this
      ensures Valid()
      ensures View() == S.OpenNext(old(View()), attributes, written)
      ensures accepted <==> old(S.MayOpen(View(), attributes)) && written
    {
      hide S.AttributeMemory, Has, A.Valid, S.IsPast, S.Forget;
      A.NextLocalIsNew(View());
      A.CountersNonNegative(View());
      accepted := false;
      if nextStreamId <= MAX_U64 && localActive < cfg.remoteMaxInboundStreams {
        var t := new StreamState(nextStreamId, attributes, true);
        if retainedBytes + t.retained <= cfg.maxRetainedStreamAttributeBytes {
          InsertAndWrite(t, attributes, written);
          accepted := written;
        }
      }
    }

    method InsertAndWrite(t: StreamState, attributes: seq<Attribute>, written: bool)
      requires Valid() && t.id == nextStreamId && t.id !in streams && t.Snapshot() == S.NewStream(attributes, true)
      requires localActive >= 0 && retainedBytes >= 0
      modifies this`streams, this`localActive, this`remoteActive, this`retainedBytes, this`nextStreamId, this`outbox
      ensures Valid()
      ensures var p := old(View());
        View() == if !written then p else
             p.(streams := p.streams[p.nextStreamId := S.NewStream(attributes, true)],
                localActive := p.localActive + 1,
                retainedBytes := p.retainedBytes + S.AttributeMemory(attributes),
                nextStreamId := p.nextStreamId + 2,
                outbox := p.outbox + [Body.Open(p.nextStreamId, attributes)])
    {
      hide S.AttributeMemory, S.Forget;
      Insert(t);
      if written {
        Announce(attributes);
      } else {
        InsertUndone(old(View()), t.id, t.Snapshot());
        Forget(t);
      }
    }

    method Announce(attributes: seq<Attribute>)
      modifies this`nextStreamId, this`outbox
      ensures var p := old(View());
        View() == p.(nextStreamId := p.nextStreamId + 2, outbox := p.outbox + [Body.Open(p.nextStreamId, attributes)])
    {
      outbox := outbox + [Body.Open(nextStreamId, attributes)];
      nextStreamId := nextStreamId + 2;
    }

    /** Taking out what was just inserted restores every counter exactly. */
    static lemma InsertUndone(p: S.Peer, s: StreamId, t: S.Stream)
      requires s !in p.streams && t.local && p.localActive >= 0 && p.retainedBytes >= 0
      ensures S.Forget(p.(streams := p.streams[s := t],
                          localActive := p.localActive + (if t.local then 1 else 0),
                          remoteActive := p.remoteActive + (if t.local then 0 else 1),
                          retainedBytes := p.retainedBytes + t.retained), s) == p
    {
      assert p.streams[s := t] - {s} == p.streams;
    }

    /** `streams.set`, with the counters that follow from it. */
    method Insert(t: StreamState)
      requires Valid() && t.id !in streams && t.outCredit <= S.MAX_CREDIT
      modifies this`streams, this`localActive, this`remoteActive, this`retainedBytes
      ensures Has(t.id, t)
      ensures var p := old(View());
        View() == p.(streams := p.streams[t.id := t.Snapshot()],
                     localActive := p.localActive + (if t.local then 1 else 0),
                     remoteActive := p.remoteActive + (if t.local then 0 else 1),
                     retainedBytes := p.retainedBytes + t.retained)
    {
      streams := streams[t.id := t];
      assert Streams() == old(Streams())[t.id := t.Snapshot()];
      Count(t);
    }

    method Count(t: StreamState)
      modifies this`localActive, this`remoteActive, this`retainedBytes
      ensures var p := old(View());
        View() == p.(localActive := p.localActive + (if t.local then 1 else 0),
                     remoteActive := p.remoteActive + (if t.local then 0 else 1),
                     retainedBytes := p.retainedBytes + t.retained)
    {
      if t.local {
        localActive := localActive + 1;
      } else {
        remoteActive := remoteActive + 1;
      }
      retainedBytes := retainedBytes + t.retained;
    }

    method WriteNext() returns (packet: Option<S.Packet>)
      requires Valid()
      modifies this`outbox, this`outgoingSequence
      ensures Valid()
      ensures match S.Flush(old(View()))
        case None => packet.None? && View() == old(View())
        case Some(flushed) => packet == Some(flushed.1) && View() == flushed.0
    {
      packet := None;
      if outbox != [] && outgoingSequence <= MAX_U64 {
        packet := Some(S.Packet(outgoingSequence, outbox[0]));
        outbox := outbox[1..];
        outgoingSequence := outgoingSequence + 1;
      }
    }

    // -------------------------------------------------------------- frames from the peer

    /** What the method did agrees with what the specification says of the same frame. */
    ghost predicate Agrees(spec: S.Outcome, why: Option<S.Violation>)
      reads this, streams.Values
    {
      match spec
      case Violated(reason) => why == Some(reason)
      case Handled(after) => why == None && View() == after && Valid()
    }

    method Push(s: StreamId, item: Item)
      modifies this`delivered
      ensures View() == S.Push(old(View()), s, item)
    {
      delivered := delivered[s := S.Log(delivered, s) + [item]];
    }

    method HandleData(t: StreamState, b: Body, env: S.Environment) returns (why: Option<S.Violation>)
      requires Has(t.id, t) && (b.Data? || b.First?) && b.id == t.id
      modifies this, t
      ensures Agrees(S.HandleData(old(View()), b, env), why)
    {
      hide S.Terminate, S.Push, S.Exhausted, View, Streams;
      SnapshotOf(t);
      OpenFields();
      if t.inClosed {
        return Some(S.DataOnClosed);
      } else if t.partial.Partial? {
        return Some(S.NewDataDuringItem);
      } else if t.inCredit == 0 {
        return Some(S.ExceededDemand);
      }
      var total := if b.Data? then |b.payload| else b.total;
      if total > cfg.maxInboundItemBytes {
        return Some(S.ItemTooLarge);
      }
      why := None;
      Spend(t);
      if b.Data? {
        Push(t.id, Item(b.payload, b.attributes));
      } else {
        Begin(t, Partial(b.payload, b.total, b.attributes), env);
      }
    }

    /** The first slice of an item: reassembly begins, or the stream fails for lack of room. */
    method Begin(t: StreamState, partial: Reassembly, env: S.Environment)
      requires Has(t.id, t) && partial.Partial?
      modifies this, t
      ensures Valid()
      ensures var p := old(View());
        View() == if p.inFlight + partial.total > p.cfg.maxInFlightReassemblyBytes || !env.allocates
                  then S.Terminate(p, t.id, Body.Error(t.id, S.Exhausted()))
                  else p.(streams := p.streams[t.id := p.streams[t.id].(partial := partial)],
                          inFlight := p.inFlight + partial.total)
    {
      hide S.Terminate;
      if inFlight + partial.total > cfg.maxInFlightReassemblyBytes || !env.allocates {
        Terminate(t.id, Body.Error(t.id, S.Exhausted()));
      } else {
        Reserve(t, partial);
      }
    }

    method Spend(t: StreamState)
      requires Has(t.id, t) && t.inCredit > 0
      modifies t`inCredit
      ensures Has(t.id, t)
      ensures var p := old(View());
        View() == p.(streams := p.streams[t.id := p.streams[t.id].(inCredit := p.streams[t.id].inCredit - 1)])
    {
      t.inCredit := t.inCredit - 1;
      OnlyRecord(t);
    }

    method Reserve(t: StreamState, partial: Reassembly)
      requires Has(t.id, t) && partial.Partial?
      modifies this`inFlight, t`partial
      ensures Has(t.id, t)
      ensures var p := old(View());
        View() == p.(streams := p.streams[t.id := p.streams[t.id].(partial := partial)],
                     inFlight := p.inFlight + partial.total)
    {
      t.partial := partial;
      inFlight := inFlight + partial.total;
      OnlyRecord(t);
    }

    method HandleFragment(t: StreamState, b: Body) returns (why: Option<S.Violation>)
      requires Has(t.id, t) && b.Fragment? && b.id == t.id
      modifies this, t
      ensures Agrees(S.HandleFragment(old(View()), b), why)
    {
      if t.inClosed {
        return Some(S.FragmentOnClosed);
      } else if t.partial.NoItem? {
        return Some(S.FragmentWithoutItem);
      } else if |t.partial.received| + |b.payload| > t.partial.total {
        return Some(S.FragmentOverflow);
      }
      why := None;
      var received, attributes := t.partial.received + b.payload, t.partial.attributes;
      if |received| < t.partial.total {
        t.partial := t.partial.(received := received);
        OnlyRecord(t);
      } else {
        ClearReassembly(t);
        Push(t.id, Item(received, attributes));
      }
    }

    method AddOutCredit(t: StreamState, n: nat)
      requires Has(t.id, t)
      modifies t`outCredit
      ensures Has(t.id, t)
      ensures var p := old(View());
        View() == p.(streams := p.streams[t.id :=
                       p.streams[t.id].(outCredit := S.AddCredit(p.cfg.creditCap, p.streams[t.id].outCredit, n))])
    {
      t.outCredit := S.AddCredit(cfg.creditCap, t.outCredit, n);
      OnlyRecord(t);
    }

    method CloseIn(t: StreamState)
      requires Has(t.id, t)
      modifies this`finished, t`inClosed
      ensures Has(t.id, t)
      ensures var p := old(View());
        View() == p.(streams := p.streams[t.id := p.streams[t.id].(inClosed := true)], finished := p.finished + {t.id})
    {
      t.inClosed := true;
      finished := finished + {t.id};
      OnlyRecord(t);
    }

    method HandleStreamFrame(t: StreamState, b: Body, env: S.Environment) returns (why: Option<S.Violation>)
      requires Has(t.id, t) && b.id == t.id && !b.Open?
      modifies this, t
      ensures Agrees(S.HandleFrame(old(View()), b, env), why)
    {
      hide S.HandleData, S.HandleFragment, S.CancelStream, S.ReleaseStream, S.Named;
      match b {
        case Data(_, _, _) => why := HandleData(t, b, env);
        case First(_, _, _, _) => why := HandleData(t, b, env);
        case Fragment(_, _) => why := HandleFragment(t, b);
        case Demand(_, n) =>
          if n == 0 {
            return Some(S.ZeroDemand);
          }
          AddOutCredit(t, n);
          why := None;
        case Complete(_) =>
          if t.partial.Partial? {
            return Some(S.CompleteDuringItem);
          }
          CloseIn(t);
          ReleaseStream(t);
          why := None;
        case Cancel(_) =>
          CancelStream(t, false);
          why := None;
        case Error(_, code) =>
          if !S.Named(code) {
            return Some(S.UnnamedError);
          }
          CancelStream(t, false);
          why := None;
      }
    }

    /** A frame for a stream that is not in the map: ignored if it may still be on its way. */
    method HandleLate(b: Body) returns (why: Option<S.Violation>)
      requires Valid() && !b.Open? && b.id !in streams
      ensures Agrees(S.HandleLate(View(), b), why)
    {
      var past := b.id > 0
        && (if b.id % 2 == S.LocalParity(cfg) then b.id < nextStreamId else b.id <= highestRemote);
      if past && !b.IsData() {
        return None;
      }
      if b.IsData() && (if b.id in retired then retired[b.id] else past) {
        return None;
      }
      why := Some(S.UnknownStream);
    }

    method RejectOpen(s: StreamId, lenient: bool, code: Option<bytes>)
      requires Valid()
      modifies this`retired, this`retiredOrder, this`outbox
      ensures Valid()
      ensures View() == S.RejectOpen(old(View()), s, lenient, code)
    {
      hide S.Retire;
      Retire(s, lenient);
      Write(Body.Error(s, code));
    }

    lemma OpenFields()
      ensures View().cfg == cfg && View().highestRemote == highestRemote && View().remoteActive == remoteActive
    {
    }

    method Advance(s: StreamId)
      modifies this`highestRemote
      ensures highestRemote == s && View() == old(View()).(highestRemote := s)
    {
      highestRemote := s;
    }

    method HandleOpen(s: StreamId, attributes: seq<Attribute>, env: S.Environment) returns (why: Option<S.Violation>)
      requires Valid() && (s == S.ExpectedRemote(View()) ==> s !in streams)
      modifies this
      ensures Agrees(S.HandleOpen(old(View()), s, attributes, env), why)
    {
      hide S.RejectOpen, S.AttributeMemory, S.Exhausted, View, Streams;
      OpenFields();
      var expected := if highestRemote == 0 then S.FirstRemote(cfg) else highestRemote + 2;
      if s != expected {
        return Some(S.NonContiguousOpen);
      }
      why := None;
      Advance(s);
      OpenFields();
      if remoteActive >= cfg.maxInboundStreams {
        RejectOpen(s, false, S.Exhausted());
      } else {
        var t := new StreamState(s, attributes, false);
        Admit(t, env);
      }
    }

    /** A new remote stream is offered to the application, if its attributes can be kept. */
    method Admit(t: StreamState, env: S.Environment)
      requires Valid() && t.id !in streams && !t.local && t.outCredit <= S.MAX_CREDIT
      modifies this
      ensures Valid()
      ensures var p := old(View());
        View() == if p.retainedBytes + t.retained > p.cfg.maxRetainedStreamAttributeBytes then S.RejectOpen(p, t.id, false, S.Exhausted())
                  else if env.verdict.AcceptorThrows? then S.RejectOpen(p, t.id, true, env.verdict.code)
                  else if env.verdict == S.NobodyAccepts(true) then S.RejectOpen(p, t.id, false, S.Exhausted())
                  else p.(streams := p.streams[t.id := t.Snapshot()], remoteActive := p.remoteActive + 1,
                          retainedBytes := p.retainedBytes + t.retained)
    {
      hide S.RejectOpen, S.Exhausted;
      if retainedBytes + t.retained > cfg.maxRetainedStreamAttributeBytes {
        RejectOpen(t.id, false, S.Exhausted());
      } else if env.verdict.AcceptorThrows? {
        RejectOpen(t.id, true, env.verdict.code);
      } else if env.verdict == S.NobodyAccepts(true) {
        RejectOpen(t.id, false, S.Exhausted());
      } else {
        Insert(t);
      }
    }

    method HandleFrame(b: Body, env: S.Environment) returns (why: Option<S.Violation>)
      requires Valid() && (b.Open? && b.id == S.ExpectedRemote(View()) ==> b.id !in streams)
      modifies this, streams.Values
      ensures Agrees(S.HandleFrame(old(View()), b, env), why)
    {
      hide S.HandleOpen, S.HandleLate;
      if b.Open? {
        why := HandleOpen(b.id, b.attributes, env);
      } else if b.id in streams {
        why := HandleStreamFrame(streams[b.id], b, env);
      } else {
        why := HandleLate(b);
      }
    }

    /** The body of the read loop for one frame. */
    method Receive(packet: S.Packet, env: S.Environment) returns (why: Option<S.Violation>)
      requires Valid() && A.Valid(View())
      modifies this, streams.Values
      ensures Agrees(S.Receive(old(View()), packet, env), why)
    {
      hide S.HandleFrame, A.Valid, S.IsPast;
      A.NextRemoteIsNew(View());
      if packet.sequence != expectedSequence {
        return Some(S.UnexpectedSequence);
      }
      CountFrame();
      why := HandleFrame(packet.body, env);
    }

    method CountFrame()
      modifies this`expectedSequence
      ensures View() == old(View()).(expectedSequence := old(View()).expectedSequence + 1)
    {
      expectedSequence := expectedSequence + 1;
    }
  }
}
