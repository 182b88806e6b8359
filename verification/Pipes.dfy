/** What dropping and queueing frames does to the pipe of one session, stream by stream. */
module Pipes {
  import opened Frames
  import opened StreamLink
  import opened Sessions
  import opened Views

  /** Two pipes that differ in frames of stream `s` only. */
  ghost predicate SameElsewhere(q: seq<Body>, r: seq<Body>, s: StreamId) {
    forall k: StreamId :: k != s ==> (Rel(r, k) == Rel(q, k) && DemandSum(r, k) == DemandSum(q, k))
  }

  lemma QueuedElsewhere(wire: seq<Body>, outbox: seq<Body>, s: StreamId, purge: bool, frames: seq<Body>)
    requires forall i :: 0 <= i < |frames| ==> frames[i].id == s
    ensures SameElsewhere(wire + outbox, wire + Queued(outbox, s, purge, frames), s)
  {
    forall k: StreamId | k != s
      ensures Rel(wire + Queued(outbox, s, purge, frames), k) == Rel(wire + outbox, k)
      ensures DemandSum(wire + Queued(outbox, s, purge, frames), k) == DemandSum(wire + outbox, k)
    {
      var kept := if purge then Purge(outbox, s) else outbox;
      PurgeOthers(outbox, s, k);
      PurgeDemand(outbox, s, k);
      RelOther(frames, k);
      RelConcat(kept, frames, k);
      RelConcat(wire, kept + frames, k);
      RelConcat(wire, outbox, k);
      assert Rel(kept, k) + [] == Rel(kept, k);
    }
  }

  lemma PrefixOfSum<T>(w: seq<T>, o: seq<T>, n: nat, f: seq<T>)
    requires n <= |o|
    ensures (w + o)[..|w| + n] + f == w + (o[..n] + f) && (w + o)[|w| + n..] == o[n..]
  {
  }

  lemma QueuedParts(wire: seq<Body>, outbox: seq<Body>, s: StreamId, purge: bool, frames: seq<Body>)
    ensures var kept := Queued(outbox, s, purge, []);
      && Rel(wire + Queued(outbox, s, purge, frames), s) == Rel(wire, s) + (Rel(kept, s) + Rel(frames, s))
      && DemandSum(wire + Queued(outbox, s, purge, frames), s)
         == DemandSum(wire, s) + DemandSum(kept, s) + DemandSum(frames, s)
  {
    var kept := Queued(outbox, s, purge, []);
    assert kept + frames == Queued(outbox, s, purge, frames) by {
      assert outbox + [] == outbox && Purge(outbox, s) + [] == Purge(outbox, s);
    }
    hide Rel, DemandSum, Queued;
    RelConcat(kept, frames, s);
    RelConcat(wire, kept + frames, s);
  }

  /** The frames of `s` itself: what was on the wire stays, unwritten DATA may go, new frames follow. */
  lemma QueuedOwn(wire: seq<Body>, outbox: seq<Body>, s: StreamId, purge: bool, frames: seq<Body>) returns (keep: nat)
    requires Tidy(Rel(outbox, s))
    ensures var r := Rel(wire + outbox, s);
      && keep <= |r|
      && Rel(wire + Queued(outbox, s, purge, frames), s) == r[..keep] + Rel(frames, s)
      && AllData(r[keep..])
      && (!purge ==> keep == |r|)
    ensures DemandSum(wire + Queued(outbox, s, purge, frames), s) == DemandSum(wire + outbox, s) + DemandSum(frames, s)
  {
    var w, o := Rel(wire, s), Rel(outbox, s);
    var lead := if purge then Lead(o) else |o|;
    keep := |w| + lead;
    KeptOwn(outbox, s, purge);
    hide Rel, DemandSum, Lead, Queued, Tidy, AllData;
    RelConcat(wire, outbox, s);
    QueuedParts(wire, outbox, s, purge, frames);
    PrefixOfSum(w, o, lead, Rel(frames, s));
  }

  lemma KeptOwn(outbox: seq<Body>, s: StreamId, purge: bool)
    requires Tidy(Rel(outbox, s))
    ensures var o := Rel(outbox, s);
      var kept := Queued(outbox, s, purge, []);
      var lead := if purge then Lead(o) else |o|;
      && Rel(kept, s) == o[..lead] && AllData(o[lead..])
      && DemandSum(kept, s) == DemandSum(outbox, s)
  {
    PurgeKeeps(outbox, s);
    PurgeDemand(outbox, s, s);
    assert outbox + [] == outbox && Purge(outbox, s) + [] == Purge(outbox, s);
  }

  lemma PipeGrown(wire: seq<Body>, outbox: seq<Body>, s: StreamId, frames: seq<Body>)
    ensures Rel(wire + Queued(outbox, s, false, frames), s) == Rel(wire + outbox, s) + Rel(frames, s)
    ensures DemandSum(wire + Queued(outbox, s, false, frames), s) == DemandSum(wire + outbox, s) + DemandSum(frames, s)
  {
    RelConcat(wire + outbox, frames, s);
    assert wire + (outbox + frames) == wire + outbox + frames;
  }

  /** New frames of `s` keep its outbox tidy if they are DATA, or if no unwritten DATA is left. */
  lemma TidyQueued(outbox: seq<Body>, s: StreamId, purge: bool, frames: seq<Body>)
    requires Tidy(Rel(outbox, s))
    requires AllData(Rel(frames, s)) || (Tidy(Rel(frames, s)) && (purge || NoData(Rel(outbox, s))))
    ensures Tidy(Rel(Queued(outbox, s, purge, frames), s))
  {
    KeptOwn(outbox, s, purge);
    PurgeKeeps(outbox, s);
    QueuedParts([], outbox, s, purge, frames);
    assert [] + Queued(outbox, s, purge, frames) == Queued(outbox, s, purge, frames);
    hide Lead, Queued;
  }

  /** A terminator drops the unwritten DATA of its stream and follows what is left. */
  lemma EndPipe(wire: seq<Body>, outbox: seq<Body>, s: StreamId, last: Body) returns (keep: nat)
    requires Tidy(Rel(outbox, s)) && last.IsEnd() && last.id == s
    ensures var r, all := Rel(wire + outbox, s), Queued(outbox, s, true, [last]);
      && keep <= |r| && Rel(wire + all, s) == r[..keep] + [last] && AllData(r[keep..])
      && DemandSum(wire + all, s) == DemandSum(wire + outbox, s)
      && Tidy(Rel(all, s))
  {
    RelOwn([last], s);
    hide Rel, DemandSum, Queued;
    TidyQueued(outbox, s, true, [last]);
    keep := QueuedOwn(wire, outbox, s, true, [last]);
  }

  lemma ItemPipe(wire: seq<Body>, outbox: seq<Body>, s: StreamId, frames: seq<Body>, item: Item)
    requires Tidy(Rel(outbox, s)) && Carries(frames, s, item)
    ensures var all := Queued(outbox, s, false, frames);
      && Rel(wire + all, s) == Rel(wire + outbox, s) + frames
      && DemandSum(wire + all, s) == DemandSum(wire + outbox, s)
      && Tidy(Rel(all, s))
  {
    CarriesIsData(frames, s, item);
    RelOwn(frames, s);
    hide Rel, DemandSum, Queued, Carries;
    PipeGrown(wire, outbox, s, frames);
    TidyQueued(outbox, s, false, frames);
  }

  lemma OneDemand(s: StreamId, n: nat)
    ensures Rel([Demand(s, n)], s) == [] && DemandSum([Demand(s, n)], s) == n
  {
    assert [Demand(s, n)][1..] == [];
  }

  lemma DemandPipe(wire: seq<Body>, outbox: seq<Body>, s: StreamId, n: nat)
    requires Tidy(Rel(outbox, s))
    ensures var all := Queued(outbox, s, false, [Demand(s, n)]);
      && Rel(wire + all, s) == Rel(wire + outbox, s)
      && DemandSum(wire + all, s) == DemandSum(wire + outbox, s) + n
      && Tidy(Rel(all, s))
  {
    var frames := [Demand(s, n)];
    OneDemand(s, n);
    hide Rel, DemandSum, Queued;
    PipeGrown(wire, outbox, s, frames);
    assert Rel(wire + outbox, s) + [] == Rel(wire + outbox, s);
    TidyQueued(outbox, s, false, frames);
  }

  lemma TailElsewhere(q: seq<Body>)
    requires q != []
    ensures SameElsewhere(q, q[1..], q[0].id)
  {
  }
}
