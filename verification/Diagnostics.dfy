/**
 * The codes that ERROR frames carry. A code the peer decodes to nothing is the one thing an application
 * can put on the wire that the peer's session answers with a protocol violation; a session whose
 * application names its errors never writes one.
 */
module Diagnostics {
  import opened Bytes
  import opened Frames
  import opened Sessions
  import opened Accounting
  import FragmentPlan
  import Steps
  import Utf8

  predicate NamedOnly(q: seq<Body>) { forall i :: 0 <= i < |q| && q[i].Error? ==> Named(q[i].code) }

  /** What an application may answer to an OPEN without leaving an error unnamed. */
  predicate Courteous(env: Environment) { env.verdict.AcceptorThrows? ==> Named(env.verdict.code) }

  /** A code is unreadable exactly when it is empty, a bare byte order mark, or not UTF-8. */
  lemma NamedIff(code: bytes)
    ensures Named(Some(code)) <==> Utf8.Valid(code) && code != [] && code != Utf8.BOM
  {
  }

  lemma NamedMore(q: seq<Body>, frames: seq<Body>)
    requires NamedOnly(q) && NamedOnly(frames)
    ensures NamedOnly(q + frames)
    ensures q != [] ==> NamedOnly(q[1..])
  {
    hide Named;
  }

  lemma NamedPurged(q: seq<Body>, s: StreamId)
    requires NamedOnly(q)
    ensures NamedOnly(Purge(q, s))
  {
    hide Named;
    Steps.PurgeMember(q, s);
    forall i | 0 <= i < |Purge(q, s)| && Purge(q, s)[i].Error?
      ensures Named(Purge(q, s)[i].code)
    {
      assert Purge(q, s)[i] in q;
    }
  }

  lemma CancelNamed(p: Peer, s: StreamId, lenient: bool)
    requires NamedOnly(p.outbox) && s in p.streams
    ensures NamedOnly(CancelStream(p, s, lenient).outbox)
  {
    var c := ClearReassembly(p, s);
    ClearFrame(p, s);
    ForgetFrame(c, s);
    var f := Forget(c, s);
    NamedPurged(p.outbox, s);
    hide ClearReassembly, Forget, NamedOnly;
    RetireFrame(f.(outbox := Purge(f.outbox, s)), s, lenient);
  }

  lemma ReleaseNamed(p: Peer, s: StreamId)
    requires NamedOnly(p.outbox) && s in p.streams
    ensures NamedOnly(ReleaseStream(p, s).outbox)
  {
    ForgetFrame(p, s);
    RetireFrame(Forget(p, s), s, false);
  }

  lemma TerminateNamed(p: Peer, s: StreamId, last: Body)
    requires NamedOnly(p.outbox) && NamedOnly([last])
    ensures NamedOnly(Terminate(p, s, last).outbox)
  {
    if s in p.streams {
      CancelNamed(p, s, true);
      hide CancelStream;
      NamedMore(CancelStream(p, s, true).outbox, [last]);
    }
  }

  lemma CallsNamed(p: Peer, s: StreamId, n: int, item: Item, attributes: seq<Attribute>, written: bool)
    requires NamedOnly(p.outbox)
    ensures NamedOnly(OpenNext(p, attributes, written).outbox)
    ensures NamedOnly(Request(p, s, n).outbox)
    ensures NamedOnly(Send(p, s, item).outbox)
  {
    var plan := FragmentPlan.Plan(s, item, p.cfg.outbound);
    if plan.Planned? {
      FragmentPlan.PlanLegit(s, item, p.cfg.outbound);
      NamedMore(p.outbox, plan.frames);
    }
    hide FragmentPlan.Plan, Named;
  }

  lemma CompleteNamed(p: Peer, s: StreamId)
    requires NamedOnly(p.outbox)
    ensures NamedOnly(CompleteOut(p, s).outbox)
  {
    hide ReleaseStream, Busy;
    if s in p.streams && !p.streams[s].outClosed && !Busy(p.outbox, s) {
      NamedMore(p.outbox, [Complete(s)]);
      var t := p.streams[s];
      ReleaseNamed(p.(streams := p.streams[s := t.(outClosed := true)], outbox := p.outbox + [Complete(s)],
                      completed := p.completed + {s}), s);
    }
  }

  lemma RejectNamed(p: Peer, s: StreamId, lenient: bool, code: Option<bytes>)
    requires NamedOnly(p.outbox) && Named(code)
    ensures NamedOnly(RejectOpen(p, s, lenient, code).outbox)
  {
    RetireFrame(p, s, lenient);
    NamedMore(p.outbox, [Error(s, code)]);
  }

  lemma HandleNamed(p: Peer, b: Body, env: Environment)
    requires NamedOnly(p.outbox) && Courteous(env) && HandleFrame(p, b, env).Handled?
    ensures NamedOnly(HandleFrame(p, b, env).peer.outbox)
  {
    ExhaustedNamed();
    hide Named, Exhausted, NamedOnly;
    if b.Open? {
      OpenNamed(p, b.id, b.attributes, env);
    } else if b.id in p.streams {
      hide CancelStream, ReleaseStream;
      match b
      case Data(_, _, _) => DataNamed(p, b, env);
      case First(_, _, _, _) => DataNamed(p, b, env);
      case Fragment(_, _) =>
      case Demand(_, _) =>
      case Complete(s) =>
        ReleaseNamed(p.(streams := p.streams[s := p.streams[s].(inClosed := true)], finished := p.finished + {s}), s);
      case Cancel(s) => CancelNamed(p, s, false);
      case Error(s, _) => CancelNamed(p, s, false);
    }
  }

  lemma OpenNamed(p: Peer, s: StreamId, attributes: seq<Attribute>, env: Environment)
    requires NamedOnly(p.outbox) && Courteous(env) && Named(Exhausted()) && HandleOpen(p, s, attributes, env).Handled?
    ensures NamedOnly(HandleOpen(p, s, attributes, env).peer.outbox)
  {
    hide Named, Exhausted, NamedOnly, AttributeMemory, RejectOpen;
    var q := p.(highestRemote := s);
    RejectNamed(q, s, false, Exhausted());
    if env.verdict.AcceptorThrows? {
      RejectNamed(q, s, true, env.verdict.code);
    }
  }

  lemma DataNamed(p: Peer, b: Body, env: Environment)
    requires NamedOnly(p.outbox) && Named(Exhausted())
    requires (b.Data? || b.First?) && b.id in p.streams && HandleData(p, b, env).Handled?
    ensures NamedOnly(HandleData(p, b, env).peer.outbox)
  {
    hide Terminate, Exhausted, Named, NamedOnly;
    var t := p.streams[b.id];
    OneNamed(b.id, Exhausted());
    TerminateNamed(p.(streams := p.streams[b.id := t.(inCredit := t.inCredit - 1)]), b.id, Error(b.id, Exhausted()));
  }

  lemma OneNamed(s: StreamId, code: Option<bytes>)
    requires Named(code)
    ensures NamedOnly([Error(s, code)])
  {
  }
}
