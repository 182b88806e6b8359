/**
 * What one session knows of one stream, as the two ends of `StreamLink` see it, and how each session
 * operation changes it: the stream it acts on moves, every other stream stays as it was, except that
 * making room for a tombstone may drop the oldest one.
 */
module Views {
  import opened Frames
  import opened StreamLink
  import opened Sessions

  function TxOf(p: Peer, s: StreamId): Tx {
    if s in p.streams then Active(p.streams[s].outCredit, p.streams[s].outClosed, Log(p.sent, s))
    else if IsPast(p, s) then Done(s in p.completed, Log(p.sent, s))
    else Idle
  }

  predicate Strict(p: Peer, s: StreamId) { s in p.retired && !p.retired[s] }

  function RxOf(p: Peer, s: StreamId): Rx {
    if s in p.streams then
      var t := p.streams[s];
      Live(t.inCredit, t.inClosed, t.outClosed, t.partial, Log(p.delivered, s))
    else if IsPast(p, s) then Gone(Strict(p, s), s in p.finished, Log(p.delivered, s))
    else Unopened
  }

  /** The frames of stream `s` in `q` that concern its data, its end or its opening. */
  function Rel(q: seq<Body>, s: StreamId): seq<Body>
    decreases |q|
  {
    if q == [] then []
    else (if q[0].id == s && !q[0].Demand? then [q[0]] else []) + Rel(q[1..], s)
  }

  /** Credit granted for stream `s` by the DEMAND frames in `q`. */
  function DemandSum(q: seq<Body>, s: StreamId): nat
    decreases |q|
  {
    if q == [] then 0
    else (if q[0].id == s && q[0].Demand? then q[0].credit else 0) + DemandSum(q[1..], s)
  }

  /** Unwritten DATA of a stream is never followed by another of its frames. */
  predicate Tidy(r: seq<Body>) {
    forall i, j :: 0 <= i < j < |r| && r[i].IsData() ==> r[j].IsData()
  }

  // ---------------------------------------------------------------- frames of one stream

  lemma RelConcat(a: seq<Body>, b: seq<Body>, s: StreamId)
    ensures Rel(a + b, s) == Rel(a, s) + Rel(b, s)
    ensures DemandSum(a + b, s) == DemandSum(a, s) + DemandSum(b, s)
  {
    RelJoin(a, b, s);
    DemandJoin(a, b, s);
  }

  lemma {:induction false} RelJoin(a: seq<Body>, b: seq<Body>, s: StreamId)
    ensures Rel(a + b, s) == Rel(a, s) + Rel(b, s)
    decreases |a|
  {
    if a == [] {
      assert a + b == b;
    } else {
      assert (a + b)[0] == a[0] && (a + b)[1..] == a[1..] + b;
      RelJoin(a[1..], b, s);
      var first := if a[0].id == s && !a[0].Demand? then [a[0]] else [];
      assert first + (Rel(a[1..], s) + Rel(b, s)) == first + Rel(a[1..], s) + Rel(b, s);
    }
  }

  lemma {:induction false} DemandJoin(a: seq<Body>, b: seq<Body>, s: StreamId)
    ensures DemandSum(a + b, s) == DemandSum(a, s) + DemandSum(b, s)
    decreases |a|
  {
    if a == [] {
      assert a + b == b;
    } else {
      assert (a + b)[0] == a[0] && (a + b)[1..] == a[1..] + b;
      DemandJoin(a[1..], b, s);
    }
  }

  lemma {:induction false} RelOwn(q: seq<Body>, s: StreamId)
    requires forall i :: 0 <= i < |q| ==> q[i].id == s && !q[i].Demand?
    ensures Rel(q, s) == q && DemandSum(q, s) == 0
    decreases |q|
  {
    if q != [] {
      RelOwn(q[1..], s);
    }
  }

  lemma {:induction false} RelOther(q: seq<Body>, s: StreamId)
    requires forall i :: 0 <= i < |q| ==> q[i].id != s
    ensures Rel(q, s) == [] && DemandSum(q, s) == 0
    decreases |q|
  {
    if q != [] {
      RelOther(q[1..], s);
    }
  }

  /** The frames `Rel` picks are frames of `q`. */
  lemma {:induction false} RelMember(q: seq<Body>, s: StreamId, i: nat)
    requires i < |Rel(q, s)|
    ensures Rel(q, s)[i] in q && Rel(q, s)[i].id == s && !Rel(q, s)[i].Demand?
    decreases |q|
  {
    var first := if q[0].id == s && !q[0].Demand? then [q[0]] else [];
    if i >= |first| {
      RelMember(q[1..], s, i - |first|);
      assert Rel(q, s)[i] == Rel(q[1..], s)[i - |first|];
    }
  }

  lemma {:induction false} PurgeOthers(q: seq<Body>, s: StreamId, k: StreamId)
    requires k != s
    ensures Rel(Purge(q, s), k) == Rel(q, k)
    decreases |q|
  {
    if q != [] {
      PurgeOthers(q[1..], s, k);
      var rest := Purge(q[1..], s);
      if !(q[0].id == s && q[0].IsData()) {
        assert Purge(q, s)[1..] == rest;
      }
    }
  }

  lemma {:induction false} PurgeDemand(q: seq<Body>, s: StreamId, k: StreamId)
    ensures DemandSum(Purge(q, s), k) == DemandSum(q, k)
    decreases |q|
  {
    if q != [] {
      PurgeDemand(q[1..], s, k);
      var rest := Purge(q[1..], s);
      if !(q[0].id == s && q[0].IsData()) {
        assert Purge(q, s)[1..] == rest;
      }
    }
  }

  function WithoutData(r: seq<Body>): seq<Body>
    decreases |r|
  {
    if r == [] then [] else (if r[0].IsData() then [] else [r[0]]) + WithoutData(r[1..])
  }

  lemma {:induction false} PurgeOwn(q: seq<Body>, s: StreamId)
    ensures Rel(Purge(q, s), s) == WithoutData(Rel(q, s))
    decreases |q|
  {
    if q != [] {
      PurgeOwn(q[1..], s);
      var rest := Purge(q[1..], s);
      if q[0].id == s && !q[0].Demand? {
        assert Rel(q, s)[1..] == Rel(q[1..], s);
      } else {
        assert Rel(q, s) == Rel(q[1..], s);
      }
      if !(q[0].id == s && q[0].IsData()) {
        assert Purge(q, s)[1..] == rest;
      }
    }
  }

  /** How many frames precede the first DATA. */
  function Lead(r: seq<Body>): (n: nat)
    ensures n <= |r|
    decreases |r|
  {
    if r == [] || r[0].IsData() then 0 else 1 + Lead(r[1..])
  }

  /** Of tidy frames, those that are not DATA are exactly the ones that precede it. */
  lemma {:induction false} TidyLead(r: seq<Body>)
    requires Tidy(r)
    ensures WithoutData(r) == r[..Lead(r)] && AllData(r[Lead(r)..]) && NoData(r[..Lead(r)])
    decreases |r|
  {
    if r != [] {
      var rest := r[1..];
      if r[0].IsData() {
        forall i | 0 <= i < |r|
          ensures r[i].IsData()
        {
        }
        AllDataDropped(r);
      } else {
        assert Tidy(rest);
        TidyLead(rest);
        var n := Lead(rest);
        assert r[..n + 1] == [r[0]] + rest[..n] && r[n + 1..] == rest[n..];
      }
    }
  }

  lemma {:induction false} AllDataDropped(r: seq<Body>)
    requires AllData(r)
    ensures WithoutData(r) == []
    decreases |r|
  {
    if r != [] {
      AllDataDropped(r[1..]);
    }
  }

  /** Cancelling keeps what precedes the unwritten DATA of a tidy outbox, and nothing after it. */
  lemma PurgeKeeps(q: seq<Body>, s: StreamId)
    requires Tidy(Rel(q, s))
    ensures var r := Rel(q, s);
      Rel(Purge(q, s), s) == r[..Lead(r)] && AllData(r[Lead(r)..]) && NoData(r[..Lead(r)])
  {
    PurgeOwn(q, s);
    TidyLead(Rel(q, s));
  }

  /** A stream that is not busy has no unwritten DATA. */
  lemma NotBusy(q: seq<Body>, s: StreamId)
    requires !Busy(q, s)
    ensures NoData(Rel(q, s))
  {
    forall i | 0 <= i < |Rel(q, s)|
      ensures !Rel(q, s)[i].IsData()
    {
      RelMember(q, s, i);
    }
  }

  // ---------------------------------------------------------------- other streams

  /** The same view, or one whose tombstone has been evicted. */
  predicate Softer(a: Rx, b: Rx) { b == a || (a.Gone? && b == a.(strict := false)) }

  /** An operation on stream `s` leaves the view of every other stream alone. */
  ghost predicate OthersKept(p: Peer, q: Peer, s: StreamId) {
    forall k: StreamId :: k != s ==> Kept(p, q, k)
  }

  predicate Kept(p: Peer, q: Peer, k: StreamId) { TxOf(q, k) == TxOf(p, k) && Softer(RxOf(p, k), RxOf(q, k)) }

  /** The outbox after dropping the unwritten DATA of `s`, if it was, and queueing `frames`. */
  function Queued(outbox: seq<Body>, s: StreamId, purge: bool, frames: seq<Body>): seq<Body> {
    (if purge then Purge(outbox, s) else outbox) + frames
  }

  lemma OnlyStream(p: Peer, q: Peer, s: StreamId)
    requires forall k :: k != s ==> IsPast(q, k) == IsPast(p, k)
    requires q.streams.Keys - {s} == p.streams.Keys - {s}
    requires forall k :: k in p.streams && k != s ==> (k in q.streams && q.streams[k] == p.streams[k])
    requires forall k :: k != s ==>
      && Log(q.sent, k) == Log(p.sent, k) && Log(q.delivered, k) == Log(p.delivered, k)
      && (k in q.completed <==> k in p.completed) && (k in q.finished <==> k in p.finished)
      && (Strict(q, k) ==> Strict(p, k))
    ensures OthersKept(p, q, s)
  {
    forall k: StreamId | k != s
      ensures Kept(p, q, k)
    {
      assert k in p.streams <==> k in q.streams by {
        assert k in p.streams.Keys - {s} <==> k in q.streams.Keys - {s};
      }
    }
  }
}
