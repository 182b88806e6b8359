/**
 * Reassembly of RSocket fragments under shared byte and fragment budgets, and the round trip with
 * `RSocketFragments`: through the codec, a fragmented frame comes back whole, once, at its last fragment.
 */
module RSocketReassembly {
  import opened Bytes
  import opened RSocketCodec
  import opened RSocketFragments
  import Totals

  const MAX_FRAGMENTS := 65_536

  datatype Assembly = Assembly(
    kind: Kind,
    flags: Flags,
    initialRequestN: nat,
    metadata: bytes,
    data: bytes,
    dataStarted: bool,
    fragments: nat)

  datatype Pool = Pool(
    maxItemBytes: nat,
    maxInFlightBytes: nat,
    assemblies: map<nat, Assembly>,
    inFlightBytes: int,
    inFlightCount: int)

  /** What a frame leads to: nothing yet, a whole frame, a refusal for lack of room, or a violation. */
  datatype Outcome =
    | Pending(pool: Pool)
    | Whole(pool: Pool, frame: Frame)
    | Exhausted(pool: Pool)
    | Violation(pool: Pool)

  function Size(a: Assembly): nat { |a.metadata| + |a.data| }

  function Drop(p: Pool, id: nat): Pool {
    if id !in p.assemblies then p
    else
      var a := p.assemblies[id];
      p.(assemblies := p.assemblies - {id},
         inFlightBytes := Max(0, p.inFlightBytes - Size(a)),
         inFlightCount := Max(0, p.inFlightCount - a.fragments))
  }

  /** FOLLOWS, which COMPLETE on a PAYLOAD overrides. */
  predicate Follows(f: Frame) { f.flags.follows && !(f.kind.Payload? && f.flags.complete) }

  function Fresh(f: Frame): Assembly {
    Assembly(f.kind, f.flags.(follows := false), f.initialRequestN, [], [], false, 0)
  }

  function Added(a: Assembly, f: Frame): Assembly {
    a.(metadata := a.metadata + Content(f.metadata), data := a.data + Content(f.data),
       dataStarted := a.dataStarted || f.data.Some?, fragments := a.fragments + 1)
  }

  /** `appendFragment` on an assembly that is in the map. */
  function Append(p: Pool, f: Frame): Outcome
    requires f.streamId in p.assemblies
  {
    var a := p.assemblies[f.streamId];
    var added := |Content(f.metadata)| + |Content(f.data)|;
    if Size(a) + added > p.maxItemBytes then Violation(Drop(p, f.streamId))
    else if p.inFlightBytes + added > p.maxInFlightBytes || p.inFlightCount + 1 > MAX_FRAGMENTS then
      Exhausted(Drop(p, f.streamId))
    else if Content(f.metadata) != [] && a.dataStarted then Violation(p)
    else
      Pending(p.(assemblies := p.assemblies[f.streamId := Added(a, f)],
                 inFlightBytes := p.inFlightBytes + added,
                 inFlightCount := p.inFlightCount + 1))
  }

  /** The reassembled frame, `last` being its final fragment. */
  function Join(a: Assembly, last: Frame): Frame {
    Frame(a.kind, last.streamId,
          a.flags.(next := a.flags.next || last.flags.next, complete := a.flags.complete || last.flags.complete,
                   follows := false),
          a.initialRequestN, if a.metadata == [] then None else Some(a.metadata), Some(a.data))
  }

  function Reassemble(p: Pool, f: Frame): Outcome {
    var id := f.streamId;
    if id !in p.assemblies && !Follows(f) then Whole(p, f)
    else if id in p.assemblies && !f.kind.Payload? then Violation(p)
    else
      var open := if id in p.assemblies then p else p.(assemblies := p.assemblies[id := Fresh(f)]);
      match Append(open, f)
      case Violation(q) => Violation(q)
      case Exhausted(q) => Exhausted(q)
      case Whole(q, frame) => Whole(q, frame)
      case Pending(q) => if Follows(f) then Pending(q) else Whole(Drop(q, id), Join(q.assemblies[id], f))
  }

  // ---------------------------------------------------------------- accounting

  function Sizes(m: map<nat, Assembly>): map<nat, nat> { map id | id in m :: Size(m[id]) }

  function Counts(m: map<nat, Assembly>): map<nat, nat> { map id | id in m :: m[id].fragments }

  /** Both counters are the sums over the assemblies, within their bounds. */
  ghost predicate Exact(p: Pool) {
    && p.inFlightBytes == Totals.Sum(Sizes(p.assemblies)) <= p.maxInFlightBytes
    && p.inFlightCount == Totals.Sum(Counts(p.assemblies)) <= MAX_FRAGMENTS
  }

  lemma SumsOfUpdate(m: map<nat, Assembly>, id: nat, a: Assembly)
    requires id in m
    ensures Totals.Sum(Sizes(m[id := a])) + Size(m[id]) == Totals.Sum(Sizes(m)) + Size(a)
    ensures Totals.Sum(Counts(m[id := a])) + m[id].fragments == Totals.Sum(Counts(m)) + a.fragments
  {
    Totals.SumUpdate(Sizes(m), id, Size(a));
    Totals.SumUpdate(Counts(m), id, a.fragments);
    assert Sizes(m[id := a]) == Sizes(m)[id := Size(a)];
    assert Counts(m[id := a]) == Counts(m)[id := a.fragments];
  }

  lemma SumsOfInsert(m: map<nat, Assembly>, id: nat, a: Assembly)
    requires id !in m && Size(a) == 0 && a.fragments == 0
    ensures Totals.Sum(Sizes(m[id := a])) == Totals.Sum(Sizes(m))
    ensures Totals.Sum(Counts(m[id := a])) == Totals.Sum(Counts(m))
  {
    Totals.SumInsert(Sizes(m), id, 0);
    Totals.SumInsert(Counts(m), id, 0);
    assert Sizes(m[id := a]) == Sizes(m)[id := 0];
    assert Counts(m[id := a]) == Counts(m)[id := 0];
  }

  lemma SumsOfRemove(m: map<nat, Assembly>, id: nat)
    requires id in m
    ensures Totals.Sum(Sizes(m)) == Size(m[id]) + Totals.Sum(Sizes(m - {id}))
    ensures Totals.Sum(Counts(m)) == m[id].fragments + Totals.Sum(Counts(m - {id}))
  {
    Totals.SumRemove(Sizes(m), id);
    Totals.SumRemove(Counts(m), id);
    assert Sizes(m - {id}) == Sizes(m) - {id};
    assert Counts(m - {id}) == Counts(m) - {id};
  }

  lemma DropExact(p: Pool, id: nat)
    requires Exact(p)
    ensures Exact(Drop(p, id))
  {
    hide Sizes, Counts;
    if id in p.assemblies {
      SumsOfRemove(p.assemblies, id);
    }
  }

  lemma AppendExact(p: Pool, f: Frame)
    requires Exact(p) && f.streamId in p.assemblies
    ensures Exact(Append(p, f).pool)
  {
    DropExact(p, f.streamId);
    hide Sizes, Counts, Drop;
    SumsOfUpdate(p.assemblies, f.streamId, Added(p.assemblies[f.streamId], f));
  }

  /** Whatever the frame and whatever becomes of it, the budgets stay exact and bounded. */
  lemma ReassembleExact(p: Pool, f: Frame)
    requires Exact(p)
    ensures Exact(Reassemble(p, f).pool)
  {
    var id := f.streamId;
    var open := if id in p.assemblies then p else p.(assemblies := p.assemblies[id := Fresh(f)]);
    if id !in p.assemblies {
      SumsOfInsert(p.assemblies, id, Fresh(f));
    }
    AppendExact(open, f);
    hide Sizes, Counts;
    var next := Append(open, f);
    if next.Pending? {
      DropExact(next.pool, id);
    }
    hide Drop, Append, Exact;
  }

  /** What touches the assemblies: a frame of an item, or the end of a stream (CANCEL, ERROR or `terminate`). */
  datatype Event = Arrives(f: Frame) | Ends(id: nat)

  /** The pool after a run; a violation is the last thing that happens in it. */
  function RunAll(p: Pool, events: seq<Event>): Pool
    decreases |events|
  {
    if events == [] then p
    else
      match events[0]
      case Ends(id) => RunAll(Drop(p, id), events[1..])
      case Arrives(f) =>
        var out := Reassemble(p, f);
        if out.Violation? then out.pool else RunAll(out.pool, events[1..])
  }

  /** In every run, against any peer, both budgets are the sums over the assemblies and within their bounds. */
  lemma {:induction false} BudgetsExact(p: Pool, events: seq<Event>)
    requires Exact(p)
    ensures Exact(RunAll(p, events))
    decreases |events|
  {
    hide Exact, Reassemble, Drop;
    if events != [] {
      match events[0]
      case Ends(id) =>
        DropExact(p, id);
        BudgetsExact(Drop(p, id), events[1..]);
      case Arrives(f) =>
        ReassembleExact(p, f);
        if !Reassemble(p, f).Violation? {
          BudgetsExact(Reassemble(p, f).pool, events[1..]);
        }
    }
  }

  /** A decrement of either budget is never floored at zero. */
  lemma DropsWhatWasCounted(p: Pool, id: nat)
    requires Exact(p) && id in p.assemblies
    ensures Drop(p, id).inFlightBytes == p.inFlightBytes - Size(p.assemblies[id])
    ensures Drop(p, id).inFlightCount == p.inFlightCount - p.assemblies[id].fragments
  {
    SumsOfRemove(p.assemblies, id);
  }

  // ---------------------------------------------------------------- the round trip

  /** The frames as the receiver decodes them. */
  function Received(frames: seq<Frame>): seq<Frame>
    decreases |frames|
  {
    if frames == [] then [] else [OnWire(frames[0])] + Received(frames[1..])
  }

  /** What successive fragments end in, or the frame handed out before the last of them. */
  datatype Fed = Ended(outcome: Outcome) | Early(pool: Pool, frame: Frame)

  predicate Refused(fed: Fed) { fed.Ended? && fed.outcome.Violation? }

  function Feed(p: Pool, frames: seq<Frame>): Fed
    decreases |frames|
  {
    if frames == [] then Ended(Pending(p))
    else
      match Reassemble(p, frames[0])
      case Pending(q) => Feed(q, frames[1..])
      case Whole(q, f) => if |frames| == 1 then Ended(Whole(q, f)) else Early(q, f)
      case Exhausted(q) => Ended(Exhausted(q))
      case Violation(q) => Ended(Violation(q))
  }

  /** Room for what is still to come on stream `id`. */
  predicate HasRoom(p: Pool, id: nat, bytes: nat, fragments: nat) {
    && (id in p.assemblies ==> Size(p.assemblies[id]) + bytes <= p.maxItemBytes)
    && bytes <= p.maxItemBytes
    && p.inFlightBytes + bytes <= p.maxInFlightBytes
    && p.inFlightCount + fragments <= MAX_FRAGMENTS
    && (id in p.assemblies ==>
          Size(p.assemblies[id]) <= p.inFlightBytes && p.assemblies[id].fragments <= p.inFlightCount)
  }

  lemma PieceParts(capacity: nat, metadata: bytes, data: bytes)
    requires capacity > 3
    ensures var piece := TakePiece(capacity, metadata, data);
      && Content(piece.metadata) + piece.moreMetadata == metadata
      && Content(piece.data) + piece.moreData == data
  {
  }

  lemma Assoc(a: bytes, b: bytes, c: bytes)
    ensures a + b + c == a + (b + c)
  {
  }

  lemma PieceAdds(a: Assembly, capacity: nat, metadata: bytes, data: bytes)
    requires capacity > 3
    ensures var piece := TakePiece(capacity, metadata, data);
      && a.metadata + Content(piece.metadata) + piece.moreMetadata == a.metadata + metadata
      && a.data + Content(piece.data) + piece.moreData == a.data + data
      && |Content(piece.metadata)| + |Content(piece.data)| + |piece.moreMetadata| + |piece.moreData|
         == |metadata| + |data|
  {
    var piece := TakePiece(capacity, metadata, data);
    PieceParts(capacity, metadata, data);
    hide TakePiece, Content;
    Assoc(a.metadata, Content(piece.metadata), piece.moreMetadata);
    Assoc(a.data, Content(piece.data), piece.moreData);
  }

  /** What a complete assembly is joined to. */
  function Joined(a: Assembly, id: nat, metadata: bytes, data: bytes, complete: bool): Frame {
    Frame(a.kind, id,
          a.flags.(next := true, complete := a.flags.complete || complete, follows := false),
          a.initialRequestN, if metadata == [] then None else Some(metadata), Some(data))
  }

  /** One continuation fragment that is accepted. */
  lemma TakeFragment(p: Pool, f: Frame, metadata: bytes, data: bytes, max: nat)
    requires max >= MIN_MAX_FRAME && f.streamId in p.assemblies && (metadata != [] || data != [])
    requires HasRoom(p, f.streamId, |metadata| + |data|, 1)
    requires metadata == [] || !p.assemblies[f.streamId].dataStarted
    ensures var piece := TakePiece(max - HEADER_BYTES, metadata, data);
      var g := OnWire(Fragment(f, Payload, 0, piece));
      var a := p.assemblies[f.streamId];
      var q := p.(assemblies := p.assemblies[f.streamId := Added(a, g)],
                  inFlightBytes := p.inFlightBytes + |Content(piece.metadata)| + |Content(piece.data)|,
                  inFlightCount := p.inFlightCount + 1);
      && Follows(g) == piece.More() && g.data.Some?
      && Content(g.metadata) == Content(piece.metadata) && Content(g.data) == Content(piece.data)
      && Reassemble(p, g) == if piece.More() then Pending(q) else Whole(Drop(q, f.streamId), Join(Added(a, g), g))
  {
    var piece := TakePiece(max - HEADER_BYTES, metadata, data);
    PieceAdds(p.assemblies[f.streamId], max - HEADER_BYTES, metadata, data);
    assert metadata == [] ==> Content(piece.metadata) == [];
  }

  /** Data has begun: a fragment that still carries metadata is refused. */
  lemma RefuseFragment(p: Pool, f: Frame, metadata: bytes, data: bytes, max: nat)
    requires max >= MIN_MAX_FRAME && f.streamId in p.assemblies && metadata != []
    requires HasRoom(p, f.streamId, |metadata| + |data|, 1) && p.assemblies[f.streamId].dataStarted
    ensures Reassemble(p, OnWire(Fragment(f, Payload, 0, TakePiece(max - HEADER_BYTES, metadata, data)))).Violation?
  {
    PieceAdds(p.assemblies[f.streamId], max - HEADER_BYTES, metadata, data);
  }

  /** Dropping after one more fragment gives back what dropping before it would. */
  lemma DropSame(p: Pool, q: Pool, id: nat)
    requires id in p.assemblies && id in q.assemblies
    requires q == p.(assemblies := p.assemblies[id := q.assemblies[id]], inFlightBytes := q.inFlightBytes, inFlightCount := q.inFlightCount)
    requires q.inFlightBytes - Size(q.assemblies[id]) == p.inFlightBytes - Size(p.assemblies[id])
    requires q.inFlightCount - q.assemblies[id].fragments == p.inFlightCount - p.assemblies[id].fragments
    ensures Drop(q, id) == Drop(p, id)
  {
    assert p.assemblies[id := q.assemblies[id]] - {id} == p.assemblies - {id};
  }

  /** The pool after one continuation fragment has been taken in. */
  function After(p: Pool, f: Frame, piece: Piece): Pool
    requires f.streamId in p.assemblies
  {
    p.(assemblies := p.assemblies[f.streamId := Added(p.assemblies[f.streamId], OnWire(Fragment(f, Payload, 0, piece)))],
       inFlightBytes := p.inFlightBytes + |Content(piece.metadata)| + |Content(piece.data)|,
       inFlightCount := p.inFlightCount + 1)
  }

  lemma AfterFacts(p: Pool, f: Frame, metadata: bytes, data: bytes, max: nat, more: nat)
    requires max >= MIN_MAX_FRAME && f.streamId in p.assemblies && (metadata != [] || data != [])
    requires HasRoom(p, f.streamId, |metadata| + |data|, 1 + more)
    ensures var piece := TakePiece(max - HEADER_BYTES, metadata, data);
      var q := After(p, f, piece);
      && f.streamId in q.assemblies
      && var a, b := p.assemblies[f.streamId], q.assemblies[f.streamId];
      && HasRoom(q, f.streamId, |piece.moreMetadata| + |piece.moreData|, more)
      && Drop(q, f.streamId) == Drop(p, f.streamId)
      && (b.kind, b.flags, b.initialRequestN, b.dataStarted) == (a.kind, a.flags, a.initialRequestN, true)
      && b.metadata + piece.moreMetadata == a.metadata + metadata && b.data + piece.moreData == a.data + data
  {
    hide TakePiece, Drop;
    var piece := TakePiece(max - HEADER_BYTES, metadata, data);
    PieceAdds(p.assemblies[f.streamId], max - HEADER_BYTES, metadata, data);
    var q := After(p, f, piece);
    DropSame(p, q, f.streamId);
  }

  lemma FeedFirst(p: Pool, f: Frame, metadata: bytes, data: bytes, max: nat)
    requires max >= MIN_MAX_FRAME && f.streamId in p.assemblies && (metadata != [] || data != [])
    requires HasRoom(p, f.streamId, |metadata| + |data|, 1)
    ensures var piece := TakePiece(max - HEADER_BYTES, metadata, data);
      var fed := Feed(p, Received(Continuations(f, metadata, data, max)));
      var q := After(p, f, piece);
      if metadata != [] && p.assemblies[f.streamId].dataStarted then Refused(fed)
      else if piece.More() then fed == Feed(q, Received(Continuations(f, piece.moreMetadata, piece.moreData, max)))
      else fed == Ended(Whole(Drop(q, f.streamId), Join(q.assemblies[f.streamId], OnWire(Fragment(f, Payload, 0, piece)))))
  {
    hide TakePiece, Drop, Reassemble, Continuations, Received, Feed, Added, Join;
    var piece := TakePiece(max - HEADER_BYTES, metadata, data);
    var first := Fragment(f, Payload, 0, piece);
    var rest := Continuations(f, piece.moreMetadata, piece.moreData, max);
    ContinuationsStep(f, metadata, data, max);
    ReceivedStep(first, rest);
    NoContinuations(f, max);
    FeedStep(p, OnWire(first), Received(rest));
    if metadata != [] && p.assemblies[f.streamId].dataStarted {
      RefuseFragment(p, f, metadata, data, max);
    } else {
      TakeFragment(p, f, metadata, data, max);
    }
  }

  lemma FeedStep(p: Pool, g: Frame, rest: seq<Frame>)
    ensures var next := Reassemble(p, g);
      Feed(p, [g] + rest) == if next.Pending? then Feed(next.pool, rest)
                             else if next.Whole? && rest != [] then Early(next.pool, next.frame)
                             else Ended(next)
  {
    assert ([g] + rest)[1..] == rest;
  }

  /** What feeding the continuations of `metadata` and `data` to assembly `a` must come to. */
  predicate Comes(p: Pool, f: Frame, metadata: bytes, data: bytes, max: nat, fed: Fed)
    requires f.streamId in p.assemblies
  {
    var a := p.assemblies[f.streamId];
    if metadata == [] || (!a.dataStarted && |metadata| <= max - HEADER_BYTES - 3) then
      fed == Ended(Whole(Drop(p, f.streamId),
                         Joined(a, f.streamId, a.metadata + metadata, a.data + data, KeepsComplete(f))))
    else Refused(fed)
  }

  lemma {:induction false} FeedContinuations(p: Pool, f: Frame, metadata: bytes, data: bytes, max: nat)
    requires max >= MIN_MAX_FRAME && f.streamId in p.assemblies && (metadata != [] || data != [])
    requires HasRoom(p, f.streamId, |metadata| + |data|, |Continuations(f, metadata, data, max)|)
    ensures Comes(p, f, metadata, data, max, Feed(p, Received(Continuations(f, metadata, data, max))))
    decreases |metadata| + |data|
  {
    hide TakePiece, Drop, Continuations, Feed, Received, After;
    var a := p.assemblies[f.streamId];
    var piece := TakePiece(max - HEADER_BYTES, metadata, data);
    var rest := Continuations(f, piece.moreMetadata, piece.moreData, max);
    ContinuationsStep(f, metadata, data, max);
    FeedFirst(p, f, metadata, data, max);
    AfterFacts(p, f, metadata, data, max, |rest|);
    MetadataLeft(max - HEADER_BYTES, metadata, data);
    NoContinuations(f, max);
    var q := After(p, f, piece);
    if piece.More() {
      if metadata == [] || !a.dataStarted {
        FeedContinuations(q, f, piece.moreMetadata, piece.moreData, max);
      }
    } else {
      assert q.assemblies[f.streamId].metadata + [] == q.assemblies[f.streamId].metadata;
      assert q.assemblies[f.streamId].data + [] == q.assemblies[f.streamId].data;
    }
  }

  lemma MetadataLeft(capacity: nat, metadata: bytes, data: bytes)
    requires capacity > 3
    ensures TakePiece(capacity, metadata, data).moreMetadata == [] <==> |metadata| <= capacity - 3
  {
  }

  lemma ReceivedStep(first: Frame, rest: seq<Frame>)
    ensures Received([first] + rest) == [OnWire(first)] + Received(rest)
    ensures |Received([first] + rest)| == 1 + |rest|
  {
    assert ([first] + rest)[1..] == rest;
    ReceivedLength(rest);
  }

  lemma {:induction false} ReceivedLength(frames: seq<Frame>)
    ensures |Received(frames)| == |frames|
    decreases |frames|
  {
    if frames != [] {
      ReceivedLength(frames[1..]);
    }
  }

  /** Everything the application sees of a request or PAYLOAD frame. */
  predicate Same(f: Frame, g: Frame) {
    && g.kind == f.kind && g.streamId == f.streamId
    && (Counted(f.kind) ==> g.initialRequestN == f.initialRequestN)
    && Content(g.metadata) == Content(f.metadata) && Content(g.data) == Content(f.data)
    && (f.kind.Payload? || f.kind.RequestChannel? ==> g.flags.complete == f.flags.complete)
    && (f.kind.Payload? ==> g.flags.next)
    && !g.flags.follows
  }

  /**
   * A first fragment of these kinds is decoded with a data field even when it holds metadata only,
   * so the receiver believes that the data has begun.
   */
  predicate StartsData(kind: Kind) { kind.RequestResponse? || kind.Payload? }

  /** Room for the metadata in the fragments that may carry it: the first, and for some kinds the second. */
  predicate MetadataFits(f: Frame, max: nat)
    requires max >= MIN_MAX_FRAME
  {
    || EncodedBytes(f) <= max
    || |Content(f.metadata)| <= FirstCapacity(f, max) - 3
                                + (if StartsData(f.kind) then 0 else max - HEADER_BYTES - 3)
  }

  /** A logical item as the session sends it. */
  predicate Sendable(f: Frame) { Writable(f) && !f.flags.follows && (f.kind.Payload? ==> f.flags.next) }

  /** The first fragment as the receiver sees it. */
  lemma FirstSeen(f: Frame, max: nat)
    requires max >= MIN_MAX_FRAME && Sendable(f) && EncodedBytes(f) > max
    ensures var piece := TakePiece(FirstCapacity(f, max), Content(f.metadata), Content(f.data));
      var g := OnWire(Fragment(f, f.kind, f.initialRequestN, piece));
      && (g.kind, g.streamId) == (f.kind, f.streamId)
      && (Counted(f.kind) ==> g.initialRequestN == f.initialRequestN)
      && g.flags.follows == Follows(g) == piece.More() && g.flags.complete == (!piece.More() && KeepsComplete(f))
      && Content(g.metadata) == Content(piece.metadata) && Content(g.data) == Content(piece.data)
      && (piece.moreMetadata != [] ==> g.data.Some? == StartsData(f.kind))
      && (f.kind.Payload? ==> g.flags.next)
  {
    MetadataFirst(FirstCapacity(f, max), Content(f.metadata), Content(f.data));
    hide TakePiece;
  }

  /** A new assembly, once its first fragment is in. */
  function Begun(p: Pool, g: Frame): Pool {
    p.(assemblies := p.assemblies[g.streamId := Added(Fresh(g), g)],
       inFlightBytes := p.inFlightBytes + |Content(g.metadata)| + |Content(g.data)|,
       inFlightCount := p.inFlightCount + 1)
  }

  lemma Begins(p: Pool, g: Frame)
    requires g.streamId !in p.assemblies && Follows(g) && p.inFlightBytes >= 0 && p.inFlightCount >= 0
    requires |Content(g.metadata)| + |Content(g.data)| <= p.maxItemBytes
    requires p.inFlightBytes + |Content(g.metadata)| + |Content(g.data)| <= p.maxInFlightBytes
    requires p.inFlightCount + 1 <= MAX_FRAGMENTS
    ensures Reassemble(p, g) == Pending(Begun(p, g)) && Drop(Begun(p, g), g.streamId) == p
  {
    var a := Added(Fresh(g), g);
    assert p.assemblies[g.streamId := Fresh(g)][g.streamId := a] == p.assemblies[g.streamId := a];
    assert p.assemblies[g.streamId := a] - {g.streamId} == p.assemblies;
  }

  lemma MetadataFirst(capacity: nat, metadata: bytes, data: bytes)
    requires capacity > 3
    ensures var piece := TakePiece(capacity, metadata, data);
      && (piece.moreMetadata != [] ==> piece.data == None)
      && (piece.moreMetadata == [] <==> |metadata| <= capacity - 3)
      && (piece.moreMetadata != [] ==> |piece.moreMetadata| == |metadata| - (capacity - 3))
  {
  }

  /** The first of several fragments starts an assembly, and the others are fed to it. */
  lemma FeedFragments(p: Pool, f: Frame, max: nat)
    requires max >= MIN_MAX_FRAME && Sendable(f) && EncodedBytes(f) > max
    requires f.streamId !in p.assemblies && p.inFlightBytes >= 0 && p.inFlightCount >= 0
    requires HasRoom(p, f.streamId, |Content(f.metadata)| + |Content(f.data)|, |Fragments(f, max)|)
    ensures var piece := TakePiece(FirstCapacity(f, max), Content(f.metadata), Content(f.data));
      var g := OnWire(Fragment(f, f.kind, f.initialRequestN, piece));
      var fed := Feed(p, Received(Fragments(f, max)));
      && g.streamId == f.streamId
      && if piece.More() then Comes(Begun(p, g), f, piece.moreMetadata, piece.moreData, max, fed) && Drop(Begun(p, g), f.streamId) == p
         else fed == Ended(Whole(p, g))
  {
    var m, d := Content(f.metadata), Content(f.data);
    var piece := TakePiece(FirstCapacity(f, max), m, d);
    var first := Fragment(f, f.kind, f.initialRequestN, piece);
    var g := OnWire(first);
    var rest := Continuations(f, piece.moreMetadata, piece.moreData, max);
    FirstSeen(f, max);
    PieceAdds(Fresh(g), FirstCapacity(f, max), m, d);
    NoContinuations(f, max);
    ReceivedStep(first, rest);
    FeedStep(p, g, Received(rest));
    hide TakePiece, Continuations, Received, Feed, Fragment, OnWire, Comes;
    if piece.More() {
      Begins(p, g);
      hide Reassemble, Drop;
      FeedContinuations(Begun(p, g), f, piece.moreMetadata, piece.moreData, max);
    }
  }

  /** The last fragment brought the item back whole, the budgets as they were, or a fragment was refused. */
  predicate Returned(p: Pool, f: Frame, fits: bool, fed: Fed) {
    match fed
    case Ended(Whole(q, g)) => fits && q == p && Same(f, g)
    case Ended(Violation(_)) => !fits
    case Ended(Pending(_)) => false
    case Ended(Exhausted(_)) => false
    case Early(_, _) => false
  }

  lemma UnfragmentedReturns(p: Pool, f: Frame, max: nat)
    requires max >= MIN_MAX_FRAME && Sendable(f) && EncodedBytes(f) <= max && f.streamId !in p.assemblies
    ensures Returned(p, f, true, Feed(p, Received(Fragments(f, max))))
  {
    assert Fragments(f, max) == [f] + [];
    ReceivedStep(f, []);
    FeedStep(p, OnWire(f), []);
  }

  /** What is fed to the assembly begun with the first fragment `g`, of which `piece` was the content. */
  lemma ContinuedReturns(p: Pool, f: Frame, max: nat, piece: Piece, g: Frame, fed: Fed)
    requires max >= MIN_MAX_FRAME && Sendable(f) && EncodedBytes(f) > max && g.streamId == f.streamId
    requires piece == TakePiece(FirstCapacity(f, max), Content(f.metadata), Content(f.data)) && piece.More()
    requires g == OnWire(Fragment(f, f.kind, f.initialRequestN, piece))
    requires Comes(Begun(p, g), f, piece.moreMetadata, piece.moreData, max, fed) && Drop(Begun(p, g), f.streamId) == p
    ensures Returned(p, f, MetadataFits(f, max), fed)
  {
    var m, d := Content(f.metadata), Content(f.data);
    FirstSeen(f, max);
    PieceParts(FirstCapacity(f, max), m, d);
    MetadataFirst(FirstCapacity(f, max), m, d);
    hide TakePiece, Fragment, OnWire, Drop, Same;
    var a := Added(Fresh(g), g);
    assert [] + Content(g.metadata) == Content(g.metadata) && [] + Content(g.data) == Content(g.data);
    JoinedSame(f, a, m, d);
  }

  lemma FragmentedReturns(p: Pool, f: Frame, max: nat)
    requires max >= MIN_MAX_FRAME && Sendable(f) && EncodedBytes(f) > max
    requires f.streamId !in p.assemblies && p.inFlightBytes >= 0 && p.inFlightCount >= 0
    requires HasRoom(p, f.streamId, |Content(f.metadata)| + |Content(f.data)|, |Fragments(f, max)|)
    ensures Returned(p, f, MetadataFits(f, max), Feed(p, Received(Fragments(f, max))))
  {
    hide TakePiece, Fragments, Received, Feed, Fragment, OnWire, Drop, Same, Begun, Comes;
    var m, d := Content(f.metadata), Content(f.data);
    var piece := TakePiece(FirstCapacity(f, max), m, d);
    var g := OnWire(Fragment(f, f.kind, f.initialRequestN, piece));
    FeedFragments(p, f, max);
    if piece.More() {
      ContinuedReturns(p, f, max, piece, g, Feed(p, Received(Fragments(f, max))));
    } else {
      FirstSeen(f, max);
      PieceParts(FirstCapacity(f, max), m, d);
      MetadataFirst(FirstCapacity(f, max), m, d);
      assert m == Content(g.metadata) + [] && d == Content(g.data) + [];
      SameFirst(f, g);
    }
  }

  lemma JoinedSame(f: Frame, a: Assembly, m: bytes, d: bytes)
    requires Sendable(f) && m == Content(f.metadata) && d == Content(f.data)
    requires a.kind == f.kind && !a.flags.complete && (Counted(f.kind) ==> a.initialRequestN == f.initialRequestN)
    ensures Same(f, Joined(a, f.streamId, m, d, KeepsComplete(f)))
  {
  }

  lemma SameFirst(f: Frame, g: Frame)
    requires Sendable(f) && (g.kind, g.streamId) == (f.kind, f.streamId)
    requires Counted(f.kind) ==> g.initialRequestN == f.initialRequestN
    requires !g.flags.follows && g.flags.complete == KeepsComplete(f) && (f.kind.Payload? ==> g.flags.next)
    requires Content(g.metadata) == Content(f.metadata) && Content(g.data) == Content(f.data)
    ensures Same(f, g)
  {
  }

  /**
   * The round trip: the fragments of an item, decoded one by one, yield nothing until the last and then
   * the item, and leave the budgets as they were, if and only if its metadata fits the fragments that may
   * carry metadata; otherwise the receiver reports a violation.
   */
  lemma RoundTripIff(p: Pool, f: Frame, max: nat)
    requires MIN_MAX_FRAME <= max <= MAX_FRAME_BYTES && Sendable(f)
    requires f.streamId !in p.assemblies && p.inFlightBytes >= 0 && p.inFlightCount >= 0
    requires HasRoom(p, f.streamId, |Content(f.metadata)| + |Content(f.data)|, |Fragments(f, max)|)
    ensures Returned(p, f, MetadataFits(f, max), Feed(p, Received(Fragments(f, max))))
  {
    hide Returned, Feed, Received, Fragments;
    if EncodedBytes(f) <= max {
      UnfragmentedReturns(p, f, max);
    } else {
      FragmentedReturns(p, f, max);
    }
  }

  /** `Received` is what the codec makes of the fragments. */
  lemma {:induction false} ReceivedIsDecoded(frames: seq<Frame>, i: nat)
    requires i < |frames| && Encode(frames[i]).Ok? && FlagsOk(frames[i])
    ensures |Received(frames)| == |frames|
    ensures Decode(Encode(frames[i]).value) == Decoded(Received(frames)[i])
    decreases |frames|
  {
    ReceivedLength(frames);
    if i == 0 {
      DecodeEncodedIff(frames[0]);
    } else {
      ReceivedIsDecoded(frames[1..], i - 1);
    }
  }

  /** The condition matters: a request whose routing metadata outgrows one small fragment is refused by its own codec. */
  lemma LongMetadataRefused()
    ensures var f := Frame(RequestResponse, 1, NO_FLAGS, 0, Some(seq(100, i => 7 as byte)), Some([]));
      Sendable(f) && Refused(Feed(Pool(1000, 1000, map[], 0, 0), Received(Fragments(f, 64))))
  {
    var f := Frame(RequestResponse, 1, NO_FLAGS, 0, Some(seq(100, i => 7 as byte)), Some([]));
    var p := Pool(1000, 1000, map[], 0, 0);
    FewFragments(f, Content(f.metadata), [], 64);
    assert |Fragments(f, 64)| <= 101;
    hide Fragments, Received, Feed;
    RoundTripIff(p, f, 64);
  }

  lemma {:induction false} FewFragments(f: Frame, metadata: bytes, data: bytes, max: nat)
    requires max >= MIN_MAX_FRAME
    ensures |Continuations(f, metadata, data, max)| <= |metadata| + |data|
    decreases |metadata| + |data|
  {
    if metadata != [] || data != [] {
      ContinuationsStep(f, metadata, data, max);
      var piece := TakePiece(max - HEADER_BYTES, metadata, data);
      hide TakePiece;
      FewFragments(f, piece.moreMetadata, piece.moreData, max);
    }
  }
}
