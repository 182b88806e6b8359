/**
 * The RSocket session's request starts and reassembly, as an object updated in place, and the law its
 * wire ids obey: whatever starts fail, the ids on the wire have no gap, so the peer accepts each of them.
 */
module RSocketSession {
  import opened Bytes
  import opened RSocketCodec
  import opened RSocketFragments
  import R = RSocketReassembly

  /** What a stream asks to put on the wire first. */
  datatype Request = Request(kind: Kind, initialRequestN: nat, complete: bool, metadata: bytes, data: bytes)

  function RequestFrame(r: Request, id: nat): Frame {
    Frame(r.kind, id, NO_FLAGS.(complete := r.complete && r.kind.RequestChannel?), r.initialRequestN,
          Some(r.metadata), Some(r.data))
  }

  /** The requester's first id: odd for the side that connected. */
  function FirstId(initiator: bool): nat { if initiator then 1 else 2 }

  datatype Starter = Starter(maxFrameBytes: nat, maxItemBytes: nat, next: nat)

  /** `sendInitialRequestNow`: the id is committed only when the request has been written. */
  function Start(s: Starter, r: Request): (Starter, seq<Frame>)
    requires s.maxFrameBytes >= MIN_MAX_FRAME
  {
    if s.next > MAX_U31 || |r.metadata| + |r.data| > s.maxItemBytes then (s, [])
    else
      var frames := Fragments(RequestFrame(r, s.next), s.maxFrameBytes);
      if Encode(frames[0]).Err? then (s, []) else (s.(next := s.next + 2), frames)
  }

  function StartAll(s: Starter, requests: seq<Request>): seq<Frame>
    requires s.maxFrameBytes >= MIN_MAX_FRAME
    decreases |requests|
  {
    if requests == [] then []
    else
      var (after, frames) := Start(s, requests[0]);
      frames + StartAll(after, requests[1..])
  }

  /** `acceptRemoteRequestId`, for a session of this origin; `None` is the violation. */
  function AcceptId(initiator: bool, highest: nat, id: nat): Option<nat> {
    if id != Expected(initiator, highest) then None else Some(id)
  }

  function Expected(initiator: bool, highest: nat): nat {
    if highest == 0 then if initiator then 2 else 1 else highest + 2
  }

  /** The frames of a request run as the peer's id check sees them. */
  function AcceptAll(initiator: bool, highest: nat, frames: seq<Frame>): Option<nat>
    decreases |frames|
  {
    if frames == [] then Some(highest)
    else if frames[0].kind.Payload? then AcceptAll(initiator, highest, frames[1..])
    else
      match AcceptId(initiator, highest, frames[0].streamId)
      case None => None
      case Some(next) => AcceptAll(initiator, next, frames[1..])
  }

  lemma {:induction false} AcceptConcat(initiator: bool, highest: nat, a: seq<Frame>, b: seq<Frame>)
    ensures AcceptAll(initiator, highest, a + b)
         == (var mid := AcceptAll(initiator, highest, a);
             if mid.None? then None else AcceptAll(initiator, mid.value, b))
    decreases |a|
  {
    if a == [] {
      assert a + b == b;
    } else {
      assert (a + b)[0] == a[0] && (a + b)[1..] == a[1..] + b;
      if a[0].kind.Payload? {
        AcceptConcat(initiator, highest, a[1..], b);
      } else if a[0].streamId == Expected(initiator, highest) {
        AcceptConcat(initiator, a[0].streamId, a[1..], b);
      }
    }
  }

  lemma {:induction false} AcceptPayloads(initiator: bool, highest: nat, frames: seq<Frame>)
    requires forall i :: 0 <= i < |frames| ==> frames[i].kind.Payload?
    ensures AcceptAll(initiator, highest, frames) == Some(highest)
    decreases |frames|
  {
    if frames != [] {
      AcceptPayloads(initiator, highest, frames[1..]);
    }
  }

  lemma {:induction false} AllPayloads(f: Frame, metadata: bytes, data: bytes, max: nat)
    requires max >= MIN_MAX_FRAME
    ensures forall i :: 0 <= i < |Continuations(f, metadata, data, max)| ==>
      Continuations(f, metadata, data, max)[i].kind.Payload?
    decreases |metadata| + |data|
  {
    if metadata != [] || data != [] {
      ContinuationsStep(f, metadata, data, max);
      var piece := TakePiece(max - HEADER_BYTES, metadata, data);
      AllPayloads(f, piece.moreMetadata, piece.moreData, max);
    }
  }

  /** One request, however many fragments, is one id check. */
  lemma RequestAccepted(initiator: bool, highest: nat, f: Frame, max: nat)
    requires max >= MIN_MAX_FRAME && !f.kind.Payload? && f.streamId == Expected(initiator, highest)
    ensures AcceptAll(initiator, highest, Fragments(f, max)) == Some(f.streamId)
  {
    var frames := Fragments(f, max);
    var piece := TakePiece(FirstCapacity(f, max), Content(f.metadata), Content(f.data));
    AllPayloads(f, piece.moreMetadata, piece.moreData, max);
    AcceptPayloads(initiator, f.streamId, frames[1..]);
  }

  /**
   * Gapless ids: over any run of starts, of which some are refused, too large or unencodable, the peer's
   * check accepts every request that reaches the wire.
   */
  lemma {:induction false} StartsAccepted(s: Starter, requests: seq<Request>, initiator: bool, highest: nat)
    requires s.maxFrameBytes >= MIN_MAX_FRAME && s.next == Expected(initiator, highest)
    requires forall i :: 0 <= i < |requests| ==> !requests[i].kind.Payload?
    ensures AcceptAll(initiator, highest, StartAll(s, requests)).Some?
    decreases |requests|
  {
    if requests != [] {
      var (after, frames) := Start(s, requests[0]);
      AcceptConcat(initiator, highest, frames, StartAll(after, requests[1..]));
      RequestAccepted(initiator, highest, RequestFrame(requests[0], s.next), s.maxFrameBytes);
      hide Fragments, Encode;
      StartsAccepted(after, requests[1..], initiator, if frames == [] then highest else s.next);
    }
  }

  /** A request that fails to start has written nothing: if its first fragment encodes, they all do. */
  lemma StartAllOrNothing(s: Starter, r: Request)
    requires MIN_MAX_FRAME <= s.maxFrameBytes <= MAX_FRAME_BYTES && !r.kind.Payload? && s.next > 0
    ensures forall i :: 0 <= i < |Start(s, r).1| ==>
      Encode(Start(s, r).1[i]).Ok? && |Encode(Start(s, r).1[i]).value| <= s.maxFrameBytes
  {
    FragmentsEncode(RequestFrame(r, s.next), s.maxFrameBytes);
  }

  /**
   * The first ids of two sessions that have just met fit together: whatever one of them starts, the other,
   * of the opposite origin, accepts.
   */
  lemma FreshStartsAccepted(initiator: bool, maxFrameBytes: nat, maxItemBytes: nat, requests: seq<Request>)
    requires maxFrameBytes >= MIN_MAX_FRAME && forall i :: 0 <= i < |requests| ==> !requests[i].kind.Payload?
    ensures AcceptAll(!initiator, 0, StartAll(Starter(maxFrameBytes, maxItemBytes, FirstId(initiator)), requests)).Some?
  {
    StartsAccepted(Starter(maxFrameBytes, maxItemBytes, FirstId(initiator)), requests, !initiator, 0);
  }

  /** The ids of the requests among these frames, in order. */
  function RequestIds(frames: seq<Frame>): seq<nat>
    decreases |frames|
  {
    if frames == [] then []
    else (if frames[0].kind.Payload? then [] else [frames[0].streamId]) + RequestIds(frames[1..])
  }

  lemma {:induction false} AcceptedIff(initiator: bool, highest: nat, frames: seq<Frame>)
    ensures AcceptAll(initiator, highest, frames).Some? <==>
      forall k :: 0 <= k < |RequestIds(frames)| ==> RequestIds(frames)[k] == Expected(initiator, highest) + 2 * k
    decreases |frames|
  {
    if frames != [] {
      var f, rest := frames[0], frames[1..];
      if f.kind.Payload? {
        assert RequestIds(frames) == RequestIds(rest);
        AcceptedIff(initiator, highest, rest);
      } else {
        var ids, tail := RequestIds(frames), RequestIds(rest);
        assert ids == [f.streamId] + tail;
        if f.streamId == Expected(initiator, highest) {
          AcceptedIff(initiator, f.streamId, rest);
          assert forall k :: 0 <= k < |tail| ==> tail[k] == ids[k + 1];
          assert forall k :: 1 <= k < |ids| ==> ids[k] == tail[k - 1];
        } else {
          assert ids[0] != Expected(initiator, highest) + 2 * 0;
        }
      }
    }
  }

  /** A fresh session accepts a run of requests if and only if their ids are those of the peer's side, none left out. */
  lemma AcceptedInOrder(initiator: bool, frames: seq<Frame>)
    ensures AcceptAll(initiator, 0, frames).Some? <==>
      forall k :: 0 <= k < |RequestIds(frames)| ==> RequestIds(frames)[k] == (if initiator then 2 else 1) + 2 * k
  {
    AcceptedIff(initiator, 0, frames);
  }

  /** A start is refused exactly for an exhausted id space, an oversized payload or an impossible request count. */
  lemma StartRefusedIff(s: Starter, r: Request)
    requires MIN_MAX_FRAME <= s.maxFrameBytes <= MAX_FRAME_BYTES && !r.kind.Payload? && s.next > 0
    ensures var refused :=
        || s.next > MAX_U31
        || |r.metadata| + |r.data| > s.maxItemBytes
        || (Counted(r.kind) && !(0 < r.initialRequestN <= MAX_U31));
      if refused then Start(s, r) == (s, []) else Start(s, r).0 == s.(next := s.next + 2) && Start(s, r).1 != []
  {
    FragmentsEncode(RequestFrame(r, s.next), s.maxFrameBytes);
  }

  /** What a started request asks for, as the responder gets it. */
  predicate Asks(g: Frame, r: Request, id: nat) {
    && g.kind == r.kind && g.streamId == id && !g.flags.follows
    && (Counted(r.kind) ==> g.initialRequestN == r.initialRequestN)
    && Content(g.metadata) == r.metadata && Content(g.data) == r.data
    && (r.kind.RequestChannel? ==> g.flags.complete == r.complete)
  }

  /** The bytes of a request frame before its metadata. */
  function Head(kind: Kind): nat { HEADER_BYTES + (if Counted(kind) then 4 else 0) + 3 }

  /** The request fits one frame, or its routing metadata fits the fragments that may carry it. */
  predicate RouteFits(s: Starter, r: Request) {
    || Head(r.kind) + |r.metadata| + |r.data| <= s.maxFrameBytes
    || Head(r.kind) + |r.metadata|
       <= s.maxFrameBytes + (if r.kind.RequestResponse? then 0 else s.maxFrameBytes - HEADER_BYTES - 3)
  }

  /**
   * A request that starts reaches a responder with room for it whole, as what was asked, and leaves its
   * budgets as they were, if and only if its metadata fits; otherwise the responder refuses a fragment.
   */
  lemma StartDelivers(s: Starter, r: Request, p: R.Pool)
    requires MIN_MAX_FRAME <= s.maxFrameBytes <= MAX_FRAME_BYTES && !r.kind.Payload? && s.next > 0
    requires Start(s, r).1 != []
    requires s.next !in p.assemblies && p.inFlightBytes >= 0 && p.inFlightCount >= 0
    requires R.HasRoom(p, s.next, |r.metadata| + |r.data|, |Start(s, r).1|)
    ensures var fed := R.Feed(p, R.Received(Start(s, r).1));
      if RouteFits(s, r) then
        fed.Ended? && fed.outcome.Whole? && fed.outcome.pool == p && Asks(fed.outcome.frame, r, s.next)
      else R.Refused(fed)
  {
    hide Fragments, R.Received, R.Feed, Encode;
    var f := RequestFrame(r, s.next);
    StartRefusedIff(s, r);
    R.RoundTripIff(p, f, s.maxFrameBytes);
    assert R.MetadataFits(f, s.maxFrameBytes) <==> RouteFits(s, r);
  }

  // ---------------------------------------------------------------- the object

  class Session {
    const initiator: bool
    const maxFrameBytes: nat
    const maxItemBytes: nat
    const maxInFlightBytes: nat
    var nextWireStreamId: nat
    var highestRemoteStreamId: nat
    var streams: set<nat>
    var assemblies: map<nat, R.Assembly>
    var inFlightBytes: int
    var inFlightCount: int
    var lane: seq<Frame>

    constructor (initiator: bool, maxFrameBytes: nat, maxItemBytes: nat, maxInFlightBytes: nat)
      requires MIN_MAX_FRAME <= maxFrameBytes <= MAX_FRAME_BYTES
      ensures this.maxFrameBytes == maxFrameBytes
      ensures Pool() == R.Pool(maxItemBytes, maxInFlightBytes, map[], 0, 0)
      ensures Starts() == Starter(maxFrameBytes, maxItemBytes, FirstId(initiator)) && highestRemoteStreamId == 0
      ensures this.initiator == initiator && lane == [] && streams == {}
    {
      this.initiator, this.maxFrameBytes, this.maxItemBytes := initiator, maxFrameBytes, maxItemBytes;
      this.maxInFlightBytes := maxInFlightBytes;
      nextWireStreamId, highestRemoteStreamId, streams := FirstId(initiator), 0, {};
      assemblies, inFlightBytes, inFlightCount, lane := map[], 0, 0, [];
    }

    function Pool(): R.Pool
      reads this
    {
      R.Pool(maxItemBytes, maxInFlightBytes, assemblies, inFlightBytes, inFlightCount)
    }

    function Starts(): Starter
      reads this
    {
      Starter(maxFrameBytes, maxItemBytes, nextWireStreamId)
    }

    /** The stream is registered before its first bytes are written, and taken out again if they are not. */
    method SendInitialRequest(r: Request) returns (started: bool)
      requires maxFrameBytes >= MIN_MAX_FRAME && nextWireStreamId !in streams
      modifies this`nextWireStreamId, this`streams, this`lane
      ensures (Starts(), lane) == (Start(old(Starts()), r).0, old(lane) + Start(old(Starts()), r).1)
      ensures streams == if started then old(streams) + {old(nextWireStreamId)} else old(streams)
      ensures started <==> nextWireStreamId == old(nextWireStreamId) + 2
    {
      started := false;
      assert lane + [] == lane;
      if nextWireStreamId > MAX_U31 || |r.metadata| + |r.data| > maxItemBytes {
        return;
      }
      var id := nextWireStreamId;
      streams := streams + {id};
      var frames := FragmentFrame(RequestFrame(r, id), maxFrameBytes);
      hide Fragments;
      var first := WriteFrame(frames[0]);
      if first.Err? {
        streams := streams - {id};
        return;
      }
      lane := lane + frames;
      nextWireStreamId := id + 2;
      started := true;
    }

    method AcceptRemoteRequestId(id: nat) returns (ok: bool)
      modifies this`highestRemoteStreamId
      ensures AcceptId(initiator, old(highestRemoteStreamId), id)
           == if ok then Some(highestRemoteStreamId) else None
      ensures !ok ==> highestRemoteStreamId == old(highestRemoteStreamId)
    {
      var expected := if highestRemoteStreamId == 0 then if initiator then 2 else 1 else highestRemoteStreamId + 2;
      ok := id == expected;
      if ok {
        highestRemoteStreamId := id;
      }
    }

    method DropFragmentAssembly(id: nat)
      modifies this`assemblies, this`inFlightBytes, this`inFlightCount
      ensures Pool() == R.Drop(old(Pool()), id)
    {
      if id in assemblies {
        var a := assemblies[id];
        assemblies := assemblies - {id};
        inFlightBytes := Max(0, inFlightBytes - |a.metadata| - |a.data|);
        inFlightCount := Max(0, inFlightCount - a.fragments);
      }
    }

    method AppendFragment(f: Frame) returns (r: R.Outcome)
      requires f.streamId in assemblies
      modifies this`assemblies, this`inFlightBytes, this`inFlightCount
      ensures r == R.Append(old(Pool()), f) && Pool() == r.pool
    {
      var a := assemblies[f.streamId];
      var metadata, data := Content(f.metadata), Content(f.data);
      var added := |metadata| + |data|;
      if |a.metadata| + |a.data| + added > maxItemBytes {
        DropFragmentAssembly(f.streamId);
        return R.Violation(Pool());
      }
      if inFlightBytes + added > maxInFlightBytes || inFlightCount + 1 > R.MAX_FRAGMENTS {
        DropFragmentAssembly(f.streamId);
        return R.Exhausted(Pool());
      }
      if metadata != [] {
        if a.dataStarted {
          return R.Violation(Pool());
        }
        a := a.(metadata := a.metadata + metadata);
      }
      if f.data.Some? {
        a := a.(dataStarted := true, data := a.data + data);
      }
      assert a.metadata + [] == a.metadata && a.data + [] == a.data;
      a := a.(fragments := a.fragments + 1);
      assemblies := assemblies[f.streamId := a];
      inFlightBytes := inFlightBytes + added;
      inFlightCount := inFlightCount + 1;
      r := R.Pending(Pool());
    }

    method Reassemble(f: Frame) returns (r: R.Outcome)
      modifies this`assemblies, this`inFlightBytes, this`inFlightCount
      ensures r == R.Reassemble(old(Pool()), f) && Pool() == r.pool
    {
      var follows := f.flags.follows && !(f.kind.Payload? && f.flags.complete);
      var existing := f.streamId in assemblies;
      if !existing && !follows {
        return R.Whole(Pool(), f);
      }
      if existing && !f.kind.Payload? {
        return R.Violation(Pool());
      }
      if !existing {
        assemblies := assemblies[f.streamId := R.Fresh(f)];
      }
      hide R.Append, R.Drop;
      r := AppendFragment(f);
      if r.Pending? && !follows {
        var a := assemblies[f.streamId];
        DropFragmentAssembly(f.streamId);
        r := R.Whole(Pool(), R.Join(a, f));
      }
    }
  }
}
