/**
 * What becomes of each RSocket fragment of an arbitrary peer, in every run: held back, handed out as part of
 * a whole item, or refused. The conditions are in terms of the fragments that came before it, not of the
 * assembly that is kept of them.
 */
module RSocketDecisions {
  import opened Bytes
  import opened RSocketCodec
  import opened RSocketReassembly
  import Totals

  /** The fragments of the items that are not whole yet, by stream. */
  type Open = map<nat, seq<Frame>>

  function Before(open: Open, id: nat): seq<Frame> { if id in open then open[id] else [] }

  function Metadata(frames: seq<Frame>): bytes {
    if frames == [] then [] else Content(frames[0].metadata) + Metadata(frames[1..])
  }

  function Data(frames: seq<Frame>): bytes {
    if frames == [] then [] else Content(frames[0].data) + Data(frames[1..])
  }

  predicate HasData(frames: seq<Frame>) { exists i :: 0 <= i < |frames| && frames[i].data.Some? }

  /** The fragments left open after one more event. */
  function Left(p: Pool, open: Open, event: Event): Open {
    match event
    case Ends(id) => open - {id}
    case Arrives(f) =>
      match Reassemble(p, f)
      case Pending(_) => open[f.streamId := Before(open, f.streamId) + [f]]
      case _ => open - {f.streamId}
  }

  function Next(p: Pool, event: Event): Pool {
    match event
    case Ends(id) => Drop(p, id)
    case Arrives(f) => Reassemble(p, f).pool
  }

  /** No frame of the run is a violation, so the session is still there at its end. */
  predicate Survives(p: Pool, events: seq<Event>)
    decreases |events|
  {
    events == []
    || (!(events[0].Arrives? && Reassemble(p, events[0].f).Violation?) && Survives(Next(p, events[0]), events[1..]))
  }

  function LeftAll(p: Pool, open: Open, events: seq<Event>): Open
    decreases |events|
  {
    if events == [] then open else LeftAll(Next(p, events[0]), Left(p, open, events[0]), events[1..])
  }

  predicate Kept(a: Assembly, frames: seq<Frame>) {
    && frames != []
    && a.kind == frames[0].kind && a.initialRequestN == frames[0].initialRequestN
    && a.flags == frames[0].flags.(follows := false)
    && a.metadata == Metadata(frames) && a.data == Data(frames)
    && (a.dataStarted <==> HasData(frames)) && a.fragments == |frames|
  }

  /** The assemblies are made of the open fragments. */
  ghost predicate Holds(p: Pool, open: Open) {
    && p.assemblies.Keys == open.Keys
    && forall id :: id in open ==> Kept(p.assemblies[id], open[id])
  }

  lemma {:induction false} MetadataMore(frames: seq<Frame>, f: Frame)
    ensures Metadata(frames + [f]) == Metadata(frames) + Content(f.metadata)
    ensures Data(frames + [f]) == Data(frames) + Content(f.data)
    decreases |frames|
  {
    if frames == [] {
      assert [f][1..] == [];
      assert frames + [f] == [f];
      assert Content(f.metadata) + [] == Content(f.metadata) && Content(f.data) + [] == Content(f.data);
    } else {
      assert (frames + [f])[1..] == frames[1..] + [f];
      MetadataMore(frames[1..], f);
    }
  }

  lemma KeptMore(a: Assembly, frames: seq<Frame>, f: Frame)
    requires Kept(a, frames)
    ensures Kept(Added(a, f), frames + [f])
  {
    MetadataMore(frames, f);
    if HasData(frames) {
      var i :| 0 <= i < |frames| && frames[i].data.Some?;
      assert (frames + [f])[i].data.Some?;
    }
    if f.data.Some? {
      assert (frames + [f])[|frames|].data.Some?;
    }
  }

  lemma KeptFirst(f: Frame)
    ensures Kept(Added(Fresh(f), f), [f])
  {
    MetadataMore([], f);
    assert [] + [f] == [f];
    assert [f][0].data.Some? <==> f.data.Some?;
  }

  /** Why a fragment is refused. */
  datatype Refusal = NotAPayload | TooLong | NoRoom | MetadataAfterData

  /**
   * The first reason, in the order they are looked for, why a fragment that belongs to an item cannot be taken:
   * it is a request inside an item, the item gets too long, there is no room for it beside the other items,
   * or it has metadata after some data.
   */
  function Objection(p: Pool, before: seq<Frame>, f: Frame): Option<Refusal> {
    var all := before + [f];
    if before != [] && !f.kind.Payload? then Some(NotAPayload)
    else if |Metadata(all)| + |Data(all)| > p.maxItemBytes then Some(TooLong)
    else if || p.inFlightBytes + |Content(f.metadata)| + |Content(f.data)| > p.maxInFlightBytes
            || p.inFlightCount + 1 > MAX_FRAGMENTS
    then Some(NoRoom)
    else if HasData(before) && Content(f.metadata) != [] then Some(MetadataAfterData)
    else None
  }

  /** More of the item is to come: FOLLOWS, except on a PAYLOAD that completes its stream. */
  predicate Continues(f: Frame) { f.flags.follows && (f.kind.Payload? ==> !f.flags.complete) }

  /** The item its fragments make up. */
  predicate Makes(all: seq<Frame>, g: Frame)
    requires all != []
  {
    var first, last := all[0], all[|all| - 1];
    && g.kind == first.kind && g.streamId == last.streamId && g.initialRequestN == first.initialRequestN
    && Content(g.metadata) == Metadata(all) && (g.metadata.Some? ==> g.metadata.value != [])
    && g.data == Some(Data(all))
    && g.flags == first.flags.(next := first.flags.next || last.flags.next, follows := false,
                               complete := first.flags.complete || last.flags.complete)
  }

  /** The assembly that a fragment is added to: the one of its stream, or a new one. */
  predicate Base(a: Assembly, before: seq<Frame>, f: Frame) {
    if before == [] then a == Fresh(f) else Kept(a, before)
  }

  lemma BaseMeans(a: Assembly, before: seq<Frame>, f: Frame)
    requires Base(a, before, f)
    ensures a.metadata == Metadata(before) && a.data == Data(before) && (a.dataStarted <==> HasData(before))
    ensures Kept(Added(a, f), before + [f])
    ensures Metadata(before + [f]) == a.metadata + Content(f.metadata)
    ensures Data(before + [f]) == a.data + Content(f.data)
  {
    MetadataMore(before, f);
    if before == [] {
      assert before + [f] == [f];
      KeptFirst(f);
    } else {
      KeptMore(a, before, f);
    }
  }

  /** What adding the fragment comes to. */
  lemma AppendFate(p: Pool, before: seq<Frame>, f: Frame)
    requires f.streamId in p.assemblies && Base(p.assemblies[f.streamId], before, f)
    requires before == [] || f.kind.Payload?
    ensures var id := f.streamId;
      var objection := Objection(p, before, f);
      match Append(p, f)
      case Pending(q) => objection == None && q.assemblies == p.assemblies[id := Added(p.assemblies[id], f)]
      case Exhausted(q) => objection == Some(NoRoom) && q.assemblies == p.assemblies - {id}
      case Violation(q) => objection in {Some(TooLong), Some(MetadataAfterData)}
      case Whole(_, _) => false
  {
    BaseMeans(p.assemblies[f.streamId], before, f);
    hide HasData, Metadata, Data, Kept, Fresh;
  }

  /** The pool a fragment is added to. */
  function Ready(p: Pool, f: Frame): Pool {
    if f.streamId in p.assemblies then p else p.(assemblies := p.assemblies[f.streamId := Fresh(f)])
  }

  lemma ReadyBase(p: Pool, open: Open, f: Frame)
    requires Holds(p, open)
    ensures Base(Ready(p, f).assemblies[f.streamId], Before(open, f.streamId), f)
  {
    hide HasData, Metadata, Data;
  }

  lemma HeldBack(p: Pool, open: Open, f: Frame, q: Pool)
    requires Holds(p, open)
    requires q.assemblies == Ready(p, f).assemblies[f.streamId := Added(Ready(p, f).assemblies[f.streamId], f)]
    ensures Holds(q, open[f.streamId := Before(open, f.streamId) + [f]])
  {
    ReadyBase(p, open, f);
    BaseMeans(Ready(p, f).assemblies[f.streamId], Before(open, f.streamId), f);
    hide Kept, Base, HasData, Metadata, Data;
  }

  lemma LetGo(p: Pool, open: Open, id: nat, q: Pool)
    requires Holds(p, open) && q.assemblies == p.assemblies - {id}
    ensures Holds(q, open - {id})
  {
    hide Kept;
  }

  lemma Joins(a: Assembly, all: seq<Frame>)
    requires Kept(a, all)
    ensures Makes(all, Join(a, all[|all| - 1]))
  {
    hide HasData, Metadata, Data;
  }

  /** What becomes of a fragment that belongs to an item. */
  lemma FragmentFate(p: Pool, open: Open, f: Frame)
    requires Holds(p, open) && (Before(open, f.streamId) != [] || Continues(f))
    ensures var before := Before(open, f.streamId);
      var objection := Objection(p, before, f);
      match Reassemble(p, f)
      case Whole(q, g) =>
        objection == None && !Continues(f) && Makes(before + [f], g) && q.assemblies == p.assemblies - {f.streamId}
      case Pending(q) =>
        && objection == None && Continues(f)
        && q.assemblies == Ready(p, f).assemblies[f.streamId := Added(Ready(p, f).assemblies[f.streamId], f)]
      case Exhausted(q) => objection == Some(NoRoom) && q.assemblies == p.assemblies - {f.streamId}
      case Violation(q) => objection in {Some(NotAPayload), Some(TooLong), Some(MetadataAfterData)}
  {
    var id := f.streamId;
    var before := Before(open, id);
    assert id in p.assemblies <==> before != [];
    if before == [] || f.kind.Payload? {
      var ready := Ready(p, f);
      ReadyBase(p, open, f);
      AppendFate(ready, before, f);
      BaseMeans(ready.assemblies[id], before, f);
      if Append(ready, f).Pending? && !Continues(f) {
        Joins(Append(ready, f).pool.assemblies[id], before + [f]);
      }
      assert ready.assemblies[id := Added(ready.assemblies[id], f)] - {id} == p.assemblies - {id};
      assert ready.assemblies - {id} == p.assemblies - {id};
      hide Append, Join, Makes, Kept, HasData, Metadata, Data, Added, Fresh, Base;
    }
  }

  lemma NothingOpen(p: Pool, open: Open, id: nat)
    requires Holds(p, open) && Before(open, id) == []
    ensures id !in p.assemblies && open - {id} == open
  {
    hide HasData, Metadata, Data;
  }

  /** What becomes of any frame, and what that leaves open. */
  lemma Fate(p: Pool, open: Open, f: Frame)
    requires Holds(p, open)
    ensures var before := Before(open, f.streamId);
      var objection := Objection(p, before, f);
      match Reassemble(p, f)
      case Whole(q, g) =>
        if before == [] && !Continues(f) then g == f && q == p
        else objection == None && !Continues(f) && Makes(before + [f], g)
      case Pending(q) => objection == None && Continues(f)
      case Exhausted(q) => (before != [] || Continues(f)) && objection == Some(NoRoom)
      case Violation(q) =>
        (before != [] || Continues(f)) && objection in {Some(NotAPayload), Some(TooLong), Some(MetadataAfterData)}
    ensures !Reassemble(p, f).Violation? ==> Holds(Reassemble(p, f).pool, Left(p, open, Arrives(f)))
  {
    var id := f.streamId;
    hide Objection, Makes, Kept, Append, Join, Added;
    if Before(open, id) != [] || Continues(f) {
      FragmentFate(p, open, f);
      var out := Reassemble(p, f);
      hide Reassemble;
      match out
      case Pending(q) => HeldBack(p, open, f, q);
      case Whole(q, g) => LetGo(p, open, id, q);
      case Exhausted(q) => LetGo(p, open, id, q);
      case Violation(q) =>
    } else {
      NothingOpen(p, open, id);
    }
  }

  lemma StepHolds(p: Pool, open: Open, event: Event)
    requires Holds(p, open) && !(event.Arrives? && Reassemble(p, event.f).Violation?)
    ensures Holds(Next(p, event), Left(p, open, event))
  {
    hide Holds, Reassemble;
    match event
    case Ends(id) => EndHolds(p, open, id);
    case Arrives(f) => Fate(p, open, f);
  }

  lemma EndHolds(p: Pool, open: Open, id: nat)
    requires Holds(p, open)
    ensures Holds(Drop(p, id), open - {id})
  {
    hide Kept;
    if id !in open {
      assert open - {id} == open;
    } else {
      LetGo(p, open, id, Drop(p, id));
    }
  }

  lemma {:induction false} RunHolds(p: Pool, open: Open, events: seq<Event>)
    requires Holds(p, open) && Survives(p, events)
    ensures Holds(RunAll(p, events), LeftAll(p, open, events))
    decreases |events|
  {
    hide Holds, Reassemble, Left, Drop;
    if events != [] {
      StepHolds(p, open, events[0]);
      RunHolds(Next(p, events[0]), Left(p, open, events[0]), events[1..]);
    }
  }

  /** The bytes and the fragments that the open items hold. */
  function Held(open: Open): map<nat, nat> { map id | id in open :: |Metadata(open[id])| + |Data(open[id])| }

  function Pieces(open: Open): map<nat, nat> { map id | id in open :: |open[id]| }

  lemma HeldExact(p: Pool, open: Open)
    requires Holds(p, open) && Exact(p)
    ensures p.inFlightBytes == Totals.Sum(Held(open)) && p.inFlightCount == Totals.Sum(Pieces(open))
  {
    hide Holds, Sizes, Counts, Held, Pieces;
    HeldSizes(p, open);
    HeldCounts(p, open);
  }

  lemma HeldSizes(p: Pool, open: Open)
    requires Holds(p, open)
    ensures Sizes(p.assemblies) == Held(open)
  {
    hide HasData, Metadata, Data;
  }

  lemma HeldCounts(p: Pool, open: Open)
    requires Holds(p, open)
    ensures Counts(p.assemblies) == Pieces(open)
  {
    hide HasData, Metadata, Data;
  }

  /**
   * In every run against any peer: a frame outside any item, and not the start of one, is handed on as it is. Any
   * other is refused exactly for the first objection there is to it; if there is none it is held back when more
   * fragments follow, and completes its item otherwise, which is then made of all its fragments in order. The
   * room that objections speak of is what the open items leave of the two budgets.
   */
  lemma FateInRun(maxItemBytes: nat, maxInFlightBytes: nat, events: seq<Event>, f: Frame)
    requires Survives(Pool(maxItemBytes, maxInFlightBytes, map[], 0, 0), events)
    ensures var start := Pool(maxItemBytes, maxInFlightBytes, map[], 0, 0);
      var p, open := RunAll(start, events), LeftAll(start, map[], events);
      var before := Before(open, f.streamId);
      var objection := Objection(p, before, f);
      && p.inFlightBytes == Totals.Sum(Held(open)) && p.inFlightCount == Totals.Sum(Pieces(open))
      && p.maxItemBytes == maxItemBytes && p.maxInFlightBytes == maxInFlightBytes
      && match Reassemble(p, f)
         case Whole(q, g) =>
           if before == [] && !Continues(f) then g == f && q == p
           else objection == None && !Continues(f) && Makes(before + [f], g)
         case Pending(q) => objection == None && Continues(f)
         case Exhausted(q) => (before != [] || Continues(f)) && objection == Some(NoRoom)
         case Violation(q) =>
           (before != [] || Continues(f)) && objection in {Some(NotAPayload), Some(TooLong), Some(MetadataAfterData)}
  {
    hide Reassemble, RunAll, LeftAll, Survives, Held, Pieces, Objection, Makes, Continues, Kept, Sizes, Counts;
    var start := Pool(maxItemBytes, maxInFlightBytes, map[], 0, 0);
    EmptyExact(start);
    RunHolds(start, map[], events);
    BudgetsExact(start, events);
    BoundsKept(start, events);
    HeldExact(RunAll(start, events), LeftAll(start, map[], events));
    Fate(RunAll(start, events), LeftAll(start, map[], events), f);
  }

  lemma EmptyExact(p: Pool)
    requires p.assemblies == map[] && p.inFlightBytes == 0 && p.inFlightCount == 0
    ensures Exact(p)
  {
    assert Sizes(p.assemblies) == map[] && Counts(p.assemblies) == map[];
  }

  lemma {:induction false} BoundsKept(p: Pool, events: seq<Event>)
    ensures RunAll(p, events).maxItemBytes == p.maxItemBytes && RunAll(p, events).maxInFlightBytes == p.maxInFlightBytes
    decreases |events|
  {
    if events != [] {
      match events[0]
      case Ends(id) => BoundsKept(Drop(p, id), events[1..]);
      case Arrives(f) =>
        ReassembleBounds(p, f);
        hide Reassemble;
        if !Reassemble(p, f).Violation? {
          BoundsKept(Reassemble(p, f).pool, events[1..]);
        }
    }
  }

  lemma ReassembleBounds(p: Pool, f: Frame)
    ensures var q := Reassemble(p, f).pool; q.maxItemBytes == p.maxItemBytes && q.maxInFlightBytes == p.maxInFlightBytes
  {
  }
}
