/**
 * The bounded, back-pressured queue between a transport and its session, as a value and transitions.
 *
 * Deferred promises are numbers: `waiters` are `next()` calls waiting for a frame, `spaceWaiters` are
 * `pushWait` calls waiting for space, `woken` those whose promise has been resolved but which have not
 * resumed yet. `pushWait` is therefore two transitions, split at its await. `accepted` and `delivered`
 * record the frames taken in and given out; `delivered[k]` went to the k-th `next()` call.
 */
module FrameQueues {
  import opened Bytes

  datatype Bounds = Bounds(maxFrameBytes: nat, maxBufferedFrames: nat, maxBufferedBytes: nat)

  datatype Queue = Queue(
    bounds: Bounds,
    values: seq<bytes>,
    waiters: seq<nat>,
    spaceWaiters: seq<nat>,
    bufferedBytes: int,
    ended: bool,
    failed: bool,
    pending: map<nat, bytes>,
    woken: set<nat>,
    calls: nat,
    nexts: nat,
    accepted: seq<bytes>,
    delivered: seq<bytes>)

  datatype Pushed = Taken | Suspended(call: nat) | Refused | Closed | TooLarge

  datatype Got = Value(frame: bytes) | Waiting(ticket: nat) | Done | Failed

  function Total(values: seq<bytes>): nat
    decreases |values|
  {
    if values == [] then 0 else |values[0]| + Total(values[1..])
  }

  function Empty(bounds: Bounds): Queue {
    Queue(bounds, [], [], [], 0, false, false, map[], {}, 0, 0, [], [])
  }

  predicate HasSpace(q: Queue, size: nat) {
    |q.values| < q.bounds.maxBufferedFrames && q.bufferedBytes + size <= q.bounds.maxBufferedBytes
  }

  /** A frame goes to the longest-waiting consumer. */
  function Hand(q: Queue, frame: bytes): Queue
    requires q.waiters != []
  {
    q.(waiters := q.waiters[1..], accepted := q.accepted + [frame], delivered := q.delivered + [frame])
  }

  /** A frame is buffered. */
  function Keep(q: Queue, frame: bytes): Queue {
    q.(values := q.values + [frame], bufferedBytes := q.bufferedBytes + |frame|, accepted := q.accepted + [frame])
  }

  /** `tryPush`, and `pushOrThrow` but for how it reports `Refused`. */
  function TryPush(q: Queue, frame: bytes): (Queue, Pushed) {
    if q.ended then (q, Closed)
    else if |frame| > q.bounds.maxFrameBytes then (q, TooLarge)
    else if q.waiters != [] then (Hand(q, frame), Taken)
    else if HasSpace(q, |frame|) then (Keep(q, frame), Taken)
    else (q, Refused)
  }

  function Suspend(q: Queue, call: nat, frame: bytes): Queue {
    q.(spaceWaiters := q.spaceWaiters + [call], pending := q.pending[call := frame])
  }

  /** `pushWait` up to its await. */
  function PushWait(q: Queue, frame: bytes): (Queue, Pushed) {
    if q.ended then (q, Closed)
    else if |frame| > q.bounds.maxFrameBytes then (q, TooLarge)
    else if q.waiters != [] then (Hand(q, frame), Taken)
    else if HasSpace(q, |frame|) then (Keep(q, frame), Taken)
    else (Suspend(q, q.calls, frame).(calls := q.calls + 1), Suspended(q.calls))
  }

  /** `pushWait` from its await on, for a call whose promise was resolved. */
  function Resume(q: Queue, call: nat): (Queue, Pushed)
    requires call in q.woken && call in q.pending
  {
    var frame := q.pending[call];
    var awake := q.(woken := q.woken - {call}, pending := q.pending - {call});
    if q.ended then (awake, Closed)
    else if q.waiters != [] then (Hand(awake, frame), Taken)
    else if HasSpace(q, |frame|) then (Keep(awake, frame), Taken)
    else (Suspend(awake, call, frame), Suspended(call))
  }

  function Next(q: Queue): (Queue, Got) {
    if q.values != [] then
      (q.(values := q.values[1..],
          bufferedBytes := q.bufferedBytes - |q.values[0]|,
          spaceWaiters := [],
          woken := q.woken + (set call | call in q.spaceWaiters),
          nexts := q.nexts + 1,
          delivered := q.delivered + [q.values[0]]),
       Value(q.values[0]))
    else if q.ended then (q, if q.failed then Failed else Done)
    else (q.(waiters := q.waiters + [q.nexts], nexts := q.nexts + 1), Waiting(q.nexts))
  }

  /** The calls that are not asleep. */
  function Unsuspended(pending: map<nat, bytes>, spaceWaiters: seq<nat>): map<nat, bytes> {
    map call | call in pending && call !in spaceWaiters :: pending[call]
  }

  /** Suspended calls are rejected with the queue; a call already woken finds out when it resumes. */
  function End(q: Queue, failed: bool, discard: bool): Queue {
    if q.ended then q
    else
      q.(ended := true, failed := failed,
         values := if discard then [] else q.values,
         bufferedBytes := if discard then 0 else q.bufferedBytes,
         waiters := [],
         spaceWaiters := [],
         pending := Unsuspended(q.pending, q.spaceWaiters))
  }

  // ---------------------------------------------------------------- the invariant

  /** A frame of any admissible size fits an empty buffer. */
  predicate Roomy(b: Bounds) { b.maxBufferedFrames > 0 && b.maxFrameBytes <= b.maxBufferedBytes }

  predicate Exact(q: Queue) {
    && q.bufferedBytes == Total(q.values)
    && |q.values| <= q.bounds.maxBufferedFrames
    && q.bufferedBytes <= q.bounds.maxBufferedBytes
  }

  /** Consumers wait only on an empty buffer, and are served in the order they called. */
  predicate Served(q: Queue) {
    && (q.waiters != [] ==> q.values == [])
    && |q.delivered| + |q.waiters| <= q.nexts
    && (!q.ended ==> |q.delivered| + |q.waiters| == q.nexts)
    && (forall i :: 0 <= i < |q.waiters| ==> q.waiters[i] == |q.delivered| + i)
    && (q.ended ==> q.waiters == [] && q.spaceWaiters == [])
  }

  /** Suspended calls are known, distinct, and either asleep or woken. */
  predicate Asleep(q: Queue) {
    && (forall i :: 0 <= i < |q.spaceWaiters| ==> q.spaceWaiters[i] in q.pending && q.spaceWaiters[i] !in q.woken)
    && (forall i, j :: 0 <= i < j < |q.spaceWaiters| ==> q.spaceWaiters[i] != q.spaceWaiters[j])
    && (forall call :: call in q.woken ==> call in q.pending)
    && (forall call :: call in q.pending ==>
          call < q.calls && (call in q.woken || call in q.spaceWaiters) && |q.pending[call]| <= q.bounds.maxFrameBytes)
  }

  /** Nothing is lost, duplicated or reordered. */
  predicate Conserved(q: Queue) {
    if q.ended then q.delivered + q.values <= q.accepted else q.accepted == q.delivered + q.values
  }

  predicate Valid(q: Queue) { Exact(q) && Served(q) && Asleep(q) && Conserved(q) }

  /** A producer that sleeps has a frame in the buffer whose removal will wake it. */
  predicate NoneStranded(q: Queue) { q.spaceWaiters != [] ==> q.values != [] }

  lemma {:induction false} TotalAppend(values: seq<bytes>, frame: bytes)
    ensures Total(values + [frame]) == Total(values) + |frame|
    decreases |values|
  {
    if values == [] {
      assert [frame][1..] == [];
    } else {
      assert (values + [frame])[1..] == values[1..] + [frame];
      TotalAppend(values[1..], frame);
    }
  }

  lemma KeepValid(q: Queue, frame: bytes)
    requires Valid(q) && !q.ended && q.waiters == [] && HasSpace(q, |frame|)
    ensures Valid(Keep(q, frame))
  {
    TotalAppend(q.values, frame);
    assert q.delivered + (q.values + [frame]) == q.delivered + q.values + [frame];
  }

  lemma HandValid(q: Queue, frame: bytes)
    requires Valid(q) && !q.ended && q.waiters != []
    ensures Valid(Hand(q, frame))
  {
    assert q.delivered + [] == q.delivered;
  }

  lemma SuspendValid(q: Queue, call: nat, frame: bytes, calls: nat)
    requires Valid(q) && !q.ended && |frame| <= q.bounds.maxFrameBytes
    requires call !in q.pending && call !in q.woken && call !in q.spaceWaiters && call < calls && q.calls <= calls
    ensures Valid(Suspend(q, call, frame).(calls := calls))
  {
    var r := Suspend(q, call, frame).(calls := calls);
    forall i | 0 <= i < |r.spaceWaiters|
      ensures r.spaceWaiters[i] in r.pending && r.spaceWaiters[i] !in r.woken
    {
    }
    forall c | c in r.pending
      ensures c < calls && (c in r.woken || c in r.spaceWaiters) && |r.pending[c]| <= r.bounds.maxFrameBytes
    {
      if c == call {
        assert r.spaceWaiters[|q.spaceWaiters|] == call;
      }
    }
  }

  lemma TryPushValid(q: Queue, frame: bytes)
    requires Valid(q)
    ensures Valid(TryPush(q, frame).0)
  {
    if !q.ended {
      if q.waiters != [] {
        HandValid(q, frame);
      } else if HasSpace(q, |frame|) {
        KeepValid(q, frame);
      }
    }
  }

  lemma PushWaitValid(q: Queue, frame: bytes)
    requires Valid(q)
    ensures Valid(PushWait(q, frame).0)
  {
    TryPushValid(q, frame);
    if TryPush(q, frame).1 == Refused {
      assert q.calls !in q.spaceWaiters;
      SuspendValid(q, q.calls, frame, q.calls + 1);
    }
  }

  lemma AwakeValid(q: Queue, call: nat)
    requires Valid(q) && call in q.woken
    ensures Valid(q.(woken := q.woken - {call}, pending := q.pending - {call}))
    ensures call !in q.spaceWaiters
  {
  }

  lemma ResumeValid(q: Queue, call: nat)
    requires Valid(q) && call in q.woken
    ensures Valid(Resume(q, call).0)
  {
    var frame := q.pending[call];
    var awake := q.(woken := q.woken - {call}, pending := q.pending - {call});
    AwakeValid(q, call);
    if !q.ended {
      if q.waiters != [] {
        HandValid(awake, frame);
      } else if HasSpace(q, |frame|) {
        KeepValid(awake, frame);
      } else {
        SuspendValid(awake, call, frame, q.calls);
        assert Suspend(awake, call, frame).(calls := q.calls) == Suspend(awake, call, frame);
      }
    }
  }

  lemma NextValid(q: Queue)
    requires Valid(q)
    ensures Valid(Next(q).0)
  {
    if q.values != [] {
      var r := Next(q).0;
      assert q.values == [q.values[0]] + q.values[1..];
      assert q.delivered + q.values == r.delivered + r.values;
    }
  }

  lemma EndValid(q: Queue, failed: bool, discard: bool)
    requires Valid(q)
    ensures Valid(End(q, failed, discard))
  {
    if !q.ended && discard {
      assert q.delivered + [] == q.delivered;
      assert q.delivered <= q.delivered + q.values;
    }
  }

  // ---------------------------------------------------------------- runs

  datatype Op = OpTry(frame: bytes) | OpPush(frame: bytes) | OpResume(call: nat) | OpNext | OpEnd(failed: bool, discard: bool)

  function Do(q: Queue, op: Op): Queue {
    match op
    case OpTry(frame) => TryPush(q, frame).0
    case OpPush(frame) => PushWait(q, frame).0
    case OpResume(call) => if call in q.woken && call in q.pending then Resume(q, call).0 else q
    case OpNext => Next(q).0
    case OpEnd(failed, discard) => End(q, failed, discard)
  }

  function DoAll(q: Queue, ops: seq<Op>): Queue
    decreases |ops|
  {
    if ops == [] then q else DoAll(Do(q, ops[0]), ops[1..])
  }

  lemma DoValid(q: Queue, op: Op)
    requires Valid(q)
    ensures Valid(Do(q, op))
  {
    hide Valid;
    match op
    case OpTry(frame) => TryPushValid(q, frame);
    case OpPush(frame) => PushWaitValid(q, frame);
    case OpResume(call) =>
      if call in q.woken && call in q.pending {
        ResumeValid(q, call);
      }
    case OpNext => NextValid(q);
    case OpEnd(failed, discard) => EndValid(q, failed, discard);
  }

  lemma {:induction false} DoAllValid(q: Queue, ops: seq<Op>)
    requires Valid(q)
    ensures Valid(DoAll(q, ops)) && DoAll(q, ops).bounds == q.bounds
    decreases |ops|
  {
    if ops != [] {
      DoValid(q, ops[0]);
      hide Valid;
      DoAllValid(Do(q, ops[0]), ops[1..]);
    }
  }

  /**
   * In every interleaving of producers, consumers and closing: the byte count is exact, both bounds
   * hold, consumers wait only when the buffer is empty, and what was given out followed by what is
   * buffered is what was taken in, in order, each frame once (short of a discarded tail).
   */
  lemma QueueInvariant(bounds: Bounds, ops: seq<Op>)
    ensures var q := DoAll(Empty(bounds), ops);
      && q.bufferedBytes == Total(q.values) <= bounds.maxBufferedBytes && |q.values| <= bounds.maxBufferedFrames
      && (q.waiters != [] ==> q.values == [])
      && q.delivered + q.values <= q.accepted
      && (!q.ended ==> q.accepted == q.delivered + q.values)
  {
    DoAllValid(Empty(bounds), ops);
  }

  // ---------------------------------------------------------------- what is lost, and what is taken

  /** The frames an operation throws away: what is buffered when the queue is closed with `discard`. */
  function Dropped(q: Queue, op: Op): seq<bytes> { if op.OpEnd? && op.discard && !q.ended then q.values else [] }

  function Lost(q: Queue, ops: seq<Op>): seq<bytes>
    decreases |ops|
  {
    if ops == [] then [] else Dropped(q, ops[0]) + Lost(Do(q, ops[0]), ops[1..])
  }

  /** Every frame taken in was given out, is buffered, or was thrown away by a close, in this order. */
  predicate Whole(q: Queue, lost: seq<bytes>) {
    && q.accepted == q.delivered + q.values + lost
    && (lost != [] ==> q.ended && q.values == [])
  }

  lemma WholeStep(q: Queue, op: Op, lost: seq<bytes>)
    requires Valid(q) && Whole(q, lost)
    ensures Whole(Do(q, op), lost + Dropped(q, op))
  {
    hide Exact, Asleep, HasSpace, Unsuspended;
    assert lost + [] == lost && q.delivered + q.values + [] == q.delivered + q.values;
    match op
    case OpTry(frame) => TakenWhole(q, frame);
    case OpPush(frame) => TakenWhole(q, frame);
    case OpResume(call) =>
      if call in q.pending {
        TakenWhole(q, q.pending[call]);
      }
    case OpNext =>
      if q.values != [] {
        assert q.values == [q.values[0]] + q.values[1..];
        assert q.delivered + q.values == q.delivered + [q.values[0]] + q.values[1..];
      }
    case OpEnd(failed, discard) =>
      if discard && !q.ended {
        assert lost == [] && lost + q.values == q.values && q.delivered + [] == q.delivered;
      }
  }

  lemma TakenWhole(q: Queue, frame: bytes)
    requires !q.ended ==> Whole(q, [])
    ensures !q.ended ==> q.accepted + [frame] == q.delivered + (q.values + [frame]) + []
    ensures !q.ended && q.values == [] ==> q.accepted + [frame] == q.delivered + [frame] + [] + []
  {
    if !q.ended {
      assert q.delivered + q.values + [] == q.delivered + q.values;
      assert q.delivered + (q.values + [frame]) + [] == q.delivered + q.values + [frame];
    }
  }

  lemma {:induction false} WholeRun(q: Queue, ops: seq<Op>, lost: seq<bytes>)
    requires Valid(q) && Whole(q, lost)
    ensures Whole(DoAll(q, ops), lost + Lost(q, ops))
    decreases |ops|
  {
    hide Valid, Do, Dropped, Whole;
    if ops == [] {
      assert lost + [] == lost;
    } else {
      WholeStep(q, ops[0], lost);
      DoValid(q, ops[0]);
      WholeRun(Do(q, ops[0]), ops[1..], lost + Dropped(q, ops[0]));
      assert lost + Dropped(q, ops[0]) + Lost(Do(q, ops[0]), ops[1..]) == lost + Lost(q, ops);
    }
  }

  /**
   * Nothing is lost but what a close with `discard` throws away: over every run, the frames taken in are those
   * given out, then those still buffered, then those thrown away; and `next()` answers with the next frame, or
   * with the end of the queue only when there is none.
   */
  lemma NothingLost(bounds: Bounds, ops: seq<Op>)
    ensures var q, lost := DoAll(Empty(bounds), ops), Lost(Empty(bounds), ops);
      && q.accepted == q.delivered + q.values + lost
      && (Next(q).1.Value? <==> |q.delivered| + |lost| < |q.accepted|)
      && (Next(q).1.Value? ==> Next(q).1.frame == q.accepted[|q.delivered|])
      && (Next(q).1.Done? || Next(q).1.Failed? <==> q.ended && q.accepted == q.delivered + lost)
  {
    hide DoAll, Lost, Exact, Asleep;
    assert Valid(Empty(bounds)) && Whole(Empty(bounds), []) by { EmptyWhole(bounds); }
    WholeRun(Empty(bounds), ops, []);
    assert [] + Lost(Empty(bounds), ops) == Lost(Empty(bounds), ops);
    LeftToGive(DoAll(Empty(bounds), ops), Lost(Empty(bounds), ops));
  }

  lemma EmptyWhole(bounds: Bounds)
    ensures Valid(Empty(bounds)) && Whole(Empty(bounds), [])
  {
  }

  lemma LeftToGive(q: Queue, lost: seq<bytes>)
    requires Whole(q, lost)
    ensures Next(q).1.Value? <==> |q.delivered| + |lost| < |q.accepted|
    ensures Next(q).1.Value? ==> Next(q).1.frame == q.accepted[|q.delivered|]
    ensures Next(q).1.Done? || Next(q).1.Failed? <==> q.ended && q.accepted == q.delivered + lost
  {
    assert |q.accepted| == |q.delivered| + |q.values| + |lost|;
    if q.values == [] {
      assert q.delivered + [] + lost == q.delivered + lost;
    } else {
      assert q.accepted[|q.delivered|] == q.values[0];
    }
  }

  /** The first close decides how the queue ends. */
  lemma {:induction false} EndsAsFirstClosed(q: Queue, ops: seq<Op>)
    ensures q.ended ==> DoAll(q, ops).ended && DoAll(q, ops).failed == q.failed
    ensures !q.ended ==> (DoAll(q, ops).ended <==> exists k :: 0 <= k < |ops| && ops[k].OpEnd?)
    ensures forall k :: !q.ended && 0 <= k < |ops| && ops[k].OpEnd? && (forall j :: 0 <= j < k ==> !ops[j].OpEnd?) ==>
      DoAll(q, ops).failed == ops[k].failed
    decreases |ops|
  {
    if ops != [] {
      var r, rest := Do(q, ops[0]), ops[1..];
      assert r.ended <==> q.ended || ops[0].OpEnd?;
      assert q.ended ==> r.failed == q.failed;
      assert !q.ended && ops[0].OpEnd? ==> r.failed == ops[0].failed;
      EndsAsFirstClosed(r, rest);
      hide Do;
      assert forall k :: 0 <= k < |rest| ==> rest[k] == ops[k + 1];
      forall k | !q.ended && 0 <= k < |ops| && ops[k].OpEnd? && (forall j :: 0 <= j < k ==> !ops[j].OpEnd?)
        ensures DoAll(q, ops).failed == ops[k].failed
      {
        if k > 0 {
          assert rest[k - 1] == ops[k] && forall j :: 0 <= j < k - 1 ==> !rest[j].OpEnd?;
        }
      }
      if k :| 0 <= k < |ops| && ops[k].OpEnd? && k > 0 {
        assert rest[k - 1].OpEnd?;
      }
    }
  }

  /** The frames taken in and not given out. */
  function Buffered(q: Queue): seq<bytes>
    requires |q.delivered| <= |q.accepted|
  {
    q.accepted[|q.delivered|..]
  }

  /** A frame of this size would be taken, by the ledgers. */
  predicate Takes(q: Queue, size: nat)
    requires |q.delivered| <= |q.accepted|
  {
    && !q.ended && size <= q.bounds.maxFrameBytes
    && (|| |q.delivered| < q.nexts
        || (|Buffered(q)| < q.bounds.maxBufferedFrames && Total(Buffered(q)) + size <= q.bounds.maxBufferedBytes))
  }

  lemma TakesIff(q: Queue, frame: bytes)
    requires Valid(q)
    ensures |q.delivered| <= |q.accepted|
    ensures TryPush(q, frame).1 == Taken <==> Takes(q, |frame|)
  {
    hide Asleep, Total;
    assert |q.delivered + q.values| <= |q.accepted|;
    if !q.ended {
      assert Buffered(q) == q.values;
    }
  }

  /**
   * Which pushes are taken, over every run: on an open queue, those of admissible size for which a `next()` is
   * waiting or both bounds leave room. Any other push leaves the frames as they were, and `pushWait` waits
   * exactly where `tryPush` is refused.
   */
  lemma PushDecided(bounds: Bounds, ops: seq<Op>, frame: bytes)
    ensures var q := DoAll(Empty(bounds), ops);
      var (r, pushed) := TryPush(q, frame);
      && q.bounds == bounds && |q.delivered| <= |q.accepted|
      && (pushed == Taken <==> Takes(q, |frame|))
      && (pushed == Closed <==> q.ended)
      && (pushed == TooLarge <==> !q.ended && |frame| > bounds.maxFrameBytes)
      && r.accepted == (if pushed == Taken then q.accepted + [frame] else q.accepted)
      && (PushWait(q, frame).1.Suspended? <==> pushed == Refused)
      && (pushed != Refused ==> PushWait(q, frame) == (r, pushed))
  {
    hide DoAll, Takes, HasSpace;
    assert Valid(Empty(bounds)) by { EmptyWhole(bounds); }
    DoAllValid(Empty(bounds), ops);
    TakesIff(DoAll(Empty(bounds), ops), frame);
  }

  lemma ResumeTakesIff(q: Queue, call: nat)
    requires Valid(q) && call in q.woken
    ensures call in q.pending && |q.pending[call]| <= q.bounds.maxFrameBytes && |q.delivered| <= |q.accepted|
    ensures Resume(q, call).1 == Taken <==> Takes(q, |q.pending[call]|)
  {
    hide Total;
    assert |q.delivered + q.values| <= |q.accepted|;
    if !q.ended {
      assert Buffered(q) == q.values;
    }
  }

  /**
   * What becomes of a woken `pushWait`, over every run: it is refused if the queue has been closed, its frame is
   * taken if a push of it would be, and it goes back to sleep with it otherwise.
   */
  lemma ResumeDecided(bounds: Bounds, ops: seq<Op>, call: nat)
    requires call in DoAll(Empty(bounds), ops).woken
    ensures var q := DoAll(Empty(bounds), ops);
      && call in q.pending && |q.delivered| <= |q.accepted|
      && var (r, pushed) := Resume(q, call);
      && (pushed == Closed <==> q.ended)
      && (pushed == Taken <==> Takes(q, |q.pending[call]|))
      && (pushed != Closed && pushed != Taken ==> pushed == Suspended(call))
      && r.accepted == (if pushed == Taken then q.accepted + [q.pending[call]] else q.accepted)
      && r.pending == (if pushed == Suspended(call) then q.pending else q.pending - {call})
      && r.spaceWaiters == (if pushed == Suspended(call) then q.spaceWaiters + [call] else q.spaceWaiters)
  {
    hide DoAll, Takes, HasSpace;
    assert Valid(Empty(bounds)) by { EmptyWhole(bounds); }
    DoAllValid(Empty(bounds), ops);
    var q := DoAll(Empty(bounds), ops);
    ResumeTakesIff(q, call);
    assert (q.pending - {call})[call := q.pending[call]] == q.pending;
  }

  // ---------------------------------------------------------------- which call gets which frame

  /** A `next()` call, by its number, and the frame it got. */
  datatype Answer = Answer(ticket: nat, frame: bytes)

  /** The consumer an operation answers, if any. */
  function AnswerOf(q: Queue, op: Op): seq<Answer> {
    match op
    case OpTry(frame) => if TryPush(q, frame).1.Taken? && q.waiters != [] then [Answer(q.waiters[0], frame)] else []
    case OpPush(frame) => if PushWait(q, frame).1.Taken? && q.waiters != [] then [Answer(q.waiters[0], frame)] else []
    case OpResume(call) =>
      if call in q.woken && call in q.pending && Resume(q, call).1.Taken? && q.waiters != []
      then [Answer(q.waiters[0], q.pending[call])] else []
    case OpNext => if Next(q).1.Value? then [Answer(q.nexts, Next(q).1.frame)] else []
    case OpEnd(_, _) => []
  }

  function Answers(q: Queue, ops: seq<Op>): seq<Answer>
    decreases |ops|
  {
    if ops == [] then [] else AnswerOf(q, ops[0]) + Answers(Do(q, ops[0]), ops[1..])
  }

  /** The answers so far: one for each frame given out, to calls in the order they were made. */
  predicate Answered(q: Queue, log: seq<Answer>) {
    && |log| == |q.delivered|
    && (forall k :: 0 <= k < |log| ==> log[k].frame == q.delivered[k] && log[k].ticket < q.nexts)
    && (forall j, k :: 0 <= j < k < |log| ==> log[j].ticket < log[k].ticket)
    && (!q.ended ==> forall k :: 0 <= k < |log| ==> log[k].ticket == k)
  }

  /** At most one call is answered: the oldest that waits, or the one being made. */
  predicate Answering(q: Queue, r: Queue, now: seq<Answer>) {
    && |now| <= 1 && r.nexts >= q.nexts && (q.ended ==> r.ended)
    && r.delivered == q.delivered + (if now == [] then [] else [now[0].frame])
    && (now != [] ==> now[0].ticket < r.nexts && (if q.ended then now[0].ticket == q.nexts else now[0].ticket == |q.delivered|))
  }

  lemma DoAnswering(q: Queue, op: Op)
    requires Served(q)
    ensures Answering(q, Do(q, op), AnswerOf(q, op))
  {
    assert q.delivered + [] == q.delivered;
  }

  lemma AnsweringKeeps(q: Queue, r: Queue, log: seq<Answer>, now: seq<Answer>)
    requires Answered(q, log) && Answering(q, r, now)
    ensures Answered(r, log + now)
  {
    assert log + [] == log;
  }

  lemma AnswerStep(q: Queue, op: Op, log: seq<Answer>)
    requires Valid(q) && Answered(q, log)
    ensures Answered(Do(q, op), log + AnswerOf(q, op))
  {
    hide Do, AnswerOf, Exact, Asleep, Conserved;
    DoAnswering(q, op);
    AnsweringKeeps(q, Do(q, op), log, AnswerOf(q, op));
  }

  lemma {:induction false} AnswersRun(q: Queue, ops: seq<Op>, log: seq<Answer>)
    requires Valid(q) && Answered(q, log)
    ensures Answered(DoAll(q, ops), log + Answers(q, ops))
    decreases |ops|
  {
    hide Valid, Do, AnswerOf, Answered;
    if ops == [] {
      assert log + [] == log;
    } else {
      var now, later := AnswerOf(q, ops[0]), Answers(Do(q, ops[0]), ops[1..]);
      assert log + now + later == log + (now + later);
      AnswerStep(q, ops[0], log);
      DoValid(q, ops[0]);
      AnswersRun(Do(q, ops[0]), ops[1..], log + now);
    }
  }

  lemma AnsweredTaken(q: Queue, log: seq<Answer>)
    requires Valid(q) && Answered(q, log)
    ensures |log| <= |q.accepted| && forall k :: 0 <= k < |log| ==> log[k].frame == q.accepted[k]
  {
    hide Exact, Served, Asleep;
    assert q.delivered <= q.delivered + q.values;
  }

  /**
   * Over every run, the k-th `next()` call to be answered gets the k-th frame taken in; calls are answered in
   * the order they were made, and while the queue is open without leaving one out.
   */
  lemma ServedInOrder(bounds: Bounds, ops: seq<Op>)
    ensures var q, log := DoAll(Empty(bounds), ops), Answers(Empty(bounds), ops);
      && |log| == |q.delivered| <= |q.accepted|
      && (forall k :: 0 <= k < |log| ==> log[k].frame == q.accepted[k])
      && (forall j, k :: 0 <= j < k < |log| ==> log[j].ticket < log[k].ticket)
      && (!q.ended ==> forall k :: 0 <= k < |log| ==> log[k].ticket == k)
  {
    hide DoAll, Answers;
    assert Valid(Empty(bounds)) && Answered(Empty(bounds), []);
    hide Valid, Empty;
    DoAllValid(Empty(bounds), ops);
    AnswersRun(Empty(bounds), ops, []);
    assert [] + Answers(Empty(bounds), ops) == Answers(Empty(bounds), ops);
    AnsweredTaken(DoAll(Empty(bounds), ops), Answers(Empty(bounds), ops));
  }

  // ---------------------------------------------------------------- nobody is stranded

  lemma DoNotStranded(q: Queue, op: Op)
    requires Valid(q) && NoneStranded(q) && Roomy(q.bounds)
    ensures NoneStranded(Do(q, op))
  {
    if q.values == [] {
      assert Total(q.values) == 0;
    }
    match op
    case OpTry(frame) =>
    case OpPush(frame) =>
    case OpResume(call) =>
    case OpNext =>
    case OpEnd(failed, discard) =>
  }

  lemma {:induction false} DoAllNotStranded(q: Queue, ops: seq<Op>)
    requires Valid(q) && NoneStranded(q) && Roomy(q.bounds)
    ensures NoneStranded(DoAll(q, ops))
    decreases |ops|
  {
    if ops != [] {
      DoValid(q, ops[0]);
      DoNotStranded(q, ops[0]);
      hide Valid, NoneStranded;
      DoAllNotStranded(Do(q, ops[0]), ops[1..]);
    }
  }

  lemma EmptyStrandsNone(bounds: Bounds)
    ensures NoneStranded(Empty(bounds))
  {
  }

  lemma StrandedAlone(bounds: Bounds, frame: bytes)
    requires !Roomy(bounds) && |frame| == bounds.maxFrameBytes
    ensures !NoneStranded(DoAll(Empty(bounds), [OpPush(frame)]))
  {
    var q := Do(Empty(bounds), OpPush(frame));
    assert q.spaceWaiters == [0] && q.values == [];
    assert [OpPush(frame)][1..] == [];
    assert DoAll(Empty(bounds), [OpPush(frame)]) == q;
  }

  /**
   * A producer can never be left asleep beside an empty buffer, where no `next()` would wake it,
   * if and only if the buffer can hold one frame of any admissible size.
   */
  lemma NoneStrandedIff(bounds: Bounds)
    ensures (forall ops :: NoneStranded(DoAll(Empty(bounds), ops))) <==> Roomy(bounds)
  {
    hide Do, DoAll, NoneStranded;
    if Roomy(bounds) {
      assert NoneStranded(Empty(bounds)) by { EmptyStrandsNone(bounds); }
      forall ops
        ensures NoneStranded(DoAll(Empty(bounds), ops))
      {
        DoAllNotStranded(Empty(bounds), ops);
      }
    } else {
      StrandedAlone(bounds, seq(bounds.maxFrameBytes, i => 0 as byte));
    }
  }

  /** `bufferBytesFor`, the default byte bound. */
  function DefaultBytes(maxFrameBytes: nat): nat {
    Max(maxFrameBytes, Max(64 * 1024, Min(64 * 1024 * 1024, maxFrameBytes * 2)))
  }

  lemma DefaultsAreRoomy(maxFrameBytes: nat)
    ensures Roomy(Bounds(maxFrameBytes, 64, DefaultBytes(maxFrameBytes)))
  {
  }

  // ---------------------------------------------------------------- order of offers

  /**
   * Who offered what: the frames offered, in order; the number of the offer each suspended call made; and the
   * numbers of the offers in the order they were taken in.
   */
  datatype Book = Book(offered: seq<bytes>, waiting: map<nat, nat>, order: seq<nat>)

  const BLANK := Book([], map[], [])

  function TakenAtOnce(book: Book, frame: bytes): Book {
    book.(offered := book.offered + [frame], order := book.order + [|book.offered|])
  }

  /** An offer counts when it is taken or its producer is suspended, not when it is refused. */
  function Enter(q: Queue, op: Op, book: Book): Book {
    match op
    case OpTry(frame) => if TryPush(q, frame).1.Taken? then TakenAtOnce(book, frame) else book
    case OpPush(frame) =>
      var pushed := PushWait(q, frame).1;
      if pushed.Taken? then TakenAtOnce(book, frame)
      else if pushed.Suspended? then
        book.(offered := book.offered + [frame], waiting := book.waiting[pushed.call := |book.offered|])
      else book
    case OpResume(call) =>
      if call in q.woken && call in q.pending && call in book.waiting && Resume(q, call).1.Taken?
      then book.(order := book.order + [book.waiting[call]]) else book
    case OpNext => book
    case OpEnd(_, _) => book
  }

  function EnterAll(q: Queue, ops: seq<Op>, book: Book): Book
    decreases |ops|
  {
    if ops == [] then book else EnterAll(Do(q, ops[0]), ops[1..], Enter(q, ops[0], book))
  }

  /** Offers have been taken in the order they were made, none skipped. */
  predicate InTurn(order: seq<nat>) { forall i :: 0 <= i < |order| ==> order[i] == i }

  /** The queue would take a frame of this size at once: somebody waits for it, or there is space. */
  predicate TakesNow(q: Queue, size: nat) {
    !q.ended && size <= q.bounds.maxFrameBytes && (q.waiters != [] || HasSpace(q, size))
  }

  /** The guard a caller can check: a push that is taken beside a suspended one, a resume before an older one. */
  predicate Overtakes(q: Queue, op: Op) {
    match op
    case OpTry(frame) => TakesNow(q, |frame|) && q.pending != map[]
    case OpPush(frame) => TakesNow(q, |frame|) && q.pending != map[]
    case OpResume(call) =>
      && call in q.woken && call in q.pending
      && TakesNow(q, |q.pending[call]|) && exists c :: c in q.pending && c < call
    case OpNext => false
    case OpEnd(_, _) => false
  }

  predicate NoneOvertakes(q: Queue, ops: seq<Op>)
    decreases |ops|
  {
    ops == [] || (!Overtakes(q, ops[0]) && NoneOvertakes(Do(q, ops[0]), ops[1..]))
  }

  /** What is taken in are the offers the book says, and the suspended calls hold the offers they made. */
  predicate Booked(accepted: seq<bytes>, pending: map<nat, bytes>, book: Book) {
    && |book.order| == |accepted|
    && (forall i :: 0 <= i < |accepted| ==> book.order[i] < |book.offered| && accepted[i] == book.offered[book.order[i]])
    && (forall c :: c in pending ==>
          c in book.waiting && book.waiting[c] < |book.offered| && book.offered[book.waiting[c]] == pending[c])
  }

  predicate Claimed(pending: map<nat, bytes>, book: Book, k: nat) {
    exists c :: c in pending && c in book.waiting && book.waiting[c] == k
  }

  /** While all went in turn: the offers not taken yet are those of the suspended calls, in the order of the calls. */
  predicate Queueing(pending: map<nat, bytes>, book: Book) {
    && (forall c :: c in pending ==> c in book.waiting && |book.order| <= book.waiting[c] < |book.offered|)
    && (forall c, d :: c in pending && d in pending && c < d ==> book.waiting[c] < book.waiting[d])
    && (forall k :: |book.order| <= k < |book.offered| ==> Claimed(pending, book, k))
  }

  predicate Kept(q: Queue, book: Book) {
    && Booked(q.accepted, q.pending, book)
    && |book.order| <= |book.offered|
    && (!q.ended ==> Queueing(q.pending, book))
  }

  /** What an operation can do to the calls and the frames taken in, with what the book records of it. */
  datatype Change = NoChange | Ended | AtOnce(frame: bytes) | Sleeps(frame: bytes) | Wakes(call: nat)

  predicate Effect(q: Queue, r: Queue, book: Book, after: Book, change: Change) {
    match change
    case NoChange => r.accepted == q.accepted && r.pending == q.pending && after == book && r.ended == q.ended
    case Ended =>
      && r.ended && r.accepted == q.accepted && after == book
      && (forall c :: c in r.pending ==> c in q.pending && r.pending[c] == q.pending[c])
    case AtOnce(frame) =>
      && !q.ended && !r.ended && r.pending == q.pending
      && r.accepted == q.accepted + [frame] && after == TakenAtOnce(book, frame)
    case Sleeps(frame) =>
      && !q.ended && !r.ended && r.accepted == q.accepted && r.pending == q.pending[q.calls := frame]
      && after == book.(offered := book.offered + [frame], waiting := book.waiting[q.calls := |book.offered|])
    case Wakes(c) =>
      && !q.ended && !r.ended && c in q.pending && c in book.waiting && r.pending == q.pending - {c}
      && r.accepted == q.accepted + [q.pending[c]] && after == book.(order := book.order + [book.waiting[c]])
  }

  lemma DoEffect(q: Queue, op: Op, book: Book) returns (change: Change)
    requires Booked(q.accepted, q.pending, book)
    ensures Effect(q, Do(q, op), book, Enter(q, op, book), change)
  {
    change := if !q.ended && Do(q, op).ended then Ended else NoChange;
    match op {
      case OpTry(frame) => if TryPush(q, frame).1.Taken? { change := AtOnce(frame); }
      case OpPush(frame) =>
        if PushWait(q, frame).1.Taken? {
          change := AtOnce(frame);
        } else if PushWait(q, frame).1.Suspended? {
          change := Sleeps(frame);
        }
      case OpResume(call) =>
        if call in q.woken && call in q.pending {
          if Resume(q, call).1.Taken? {
            change := Wakes(call);
          } else if q.ended {
            change := Ended;
          } else {
            assert Do(q, op).pending == q.pending;
          }
        }
      case OpNext =>
      case OpEnd(failed, discard) =>
    }
  }

  lemma BookedStep(q: Queue, r: Queue, book: Book, after: Book, change: Change)
    requires Booked(q.accepted, q.pending, book) && Effect(q, r, book, after, change) && q.calls !in q.pending
    ensures Booked(r.accepted, r.pending, after)
  {
  }

  /** The oldest suspended call made the oldest offer not taken yet. */
  lemma NextClaimed(pending: map<nat, bytes>, book: Book)
    requires Queueing(pending, book) && |book.order| <= |book.offered|
    ensures pending == map[] <==> |book.order| == |book.offered|
    ensures forall c :: c in pending ==> (book.waiting[c] > |book.order| <==> exists d :: d in pending && d < c)
  {
    forall c | c in pending
      ensures book.waiting[c] > |book.order| <==> exists d :: d in pending && d < c
    {
      assert Claimed(pending, book, |book.order|);
    }
    if |book.order| < |book.offered| {
      assert Claimed(pending, book, |book.order|);
    }
  }

  lemma SleepsQueueing(pending: map<nat, bytes>, book: Book, call: nat, frame: bytes)
    requires Queueing(pending, book) && |book.order| <= |book.offered| && forall c :: c in pending ==> c < call
    ensures Queueing(pending[call := frame],
              book.(offered := book.offered + [frame], waiting := book.waiting[call := |book.offered|]))
  {
    var later, after :=
      pending[call := frame], book.(offered := book.offered + [frame], waiting := book.waiting[call := |book.offered|]);
    forall k | |after.order| <= k < |after.offered|
      ensures Claimed(later, after, k)
    {
      if k < |book.offered| {
        assert Claimed(pending, book, k);
        var c :| c in pending && c in book.waiting && book.waiting[c] == k;
        assert c in later && after.waiting[c] == k;
      } else {
        assert call in later && after.waiting[call] == k;
      }
    }
  }

  lemma WakesQueueing(pending: map<nat, bytes>, book: Book, call: nat)
    requires Queueing(pending, book) && call in pending && book.waiting[call] == |book.order|
    ensures Queueing(pending - {call}, book.(order := book.order + [book.waiting[call]]))
  {
    var later, after := pending - {call}, book.(order := book.order + [book.waiting[call]]);
    forall k | |after.order| <= k < |after.offered|
      ensures Claimed(later, after, k)
    {
      assert Claimed(pending, book, k);
      var c :| c in pending && c in book.waiting && book.waiting[c] == k;
      assert c in later;
    }
  }

  lemma QueueingStep(q: Queue, r: Queue, book: Book, after: Book, change: Change)
    requires Queueing(q.pending, book) && Effect(q, r, book, after, change) && !q.ended && !r.ended
    requires |book.order| <= |book.offered| && (forall c :: c in q.pending ==> c < q.calls)
    requires InTurn(after.order)
    ensures Queueing(r.pending, after) && |after.order| <= |after.offered|
  {
    if change.AtOnce? || change.Wakes? {
      assert after.order[|book.order|] == |book.order|;
    }
    match change
    case NoChange =>
    case Ended =>
    case AtOnce(frame) => NextClaimed(q.pending, book);
    case Sleeps(frame) =>
      hide Queueing;
      SleepsQueueing(q.pending, book, q.calls, frame);
    case Wakes(c) =>
      WakesQueueing(q.pending, book, c);
  }

  /** In turn so far, an operation that takes an offer takes the next one, exactly when it does not overtake. */
  lemma TurnStep(q: Queue, op: Op, book: Book)
    requires Valid(q) && Kept(q, book) && InTurn(book.order)
    ensures InTurn(Enter(q, op, book).order) <==> !Overtakes(q, op)
  {
    hide Exact, Served, Conserved, Booked, Enter, InTurn;
    var after := Enter(q, op, book);
    EnterOrder(q, op, book);
    if after.order != book.order {
      OneMoreInTurn(book.order, after.order[|book.order|]);
      NextClaimed(q.pending, book);
    }
  }

  lemma OneMoreInTurn(order: seq<nat>, next: nat)
    requires InTurn(order)
    ensures InTurn(order + [next]) <==> next == |order|
  {
    assert (order + [next])[|order|] == next;
  }

  /** The offer an operation takes in, if it takes one in. */
  lemma EnterOrder(q: Queue, op: Op, book: Book)
    requires Asleep(q)
    requires !q.ended ==> forall c :: c in q.pending ==> c in book.waiting
    ensures Enter(q, op, book).order ==
      match op
      case OpTry(frame) => if TakesNow(q, |frame|) then book.order + [|book.offered|] else book.order
      case OpPush(frame) => if TakesNow(q, |frame|) then book.order + [|book.offered|] else book.order
      case OpResume(call) =>
        if call in q.woken && call in q.pending && TakesNow(q, |q.pending[call]|) then book.order + [book.waiting[call]]
        else book.order
      case OpNext => book.order
      case OpEnd(_, _) => book.order
  {
  }

  lemma KeptStep(q: Queue, op: Op, book: Book)
    requires Valid(q) && Kept(q, book) && InTurn(book.order) && !Overtakes(q, op)
    ensures Kept(Do(q, op), Enter(q, op, book)) && InTurn(Enter(q, op, book).order)
  {
    var r, after := Do(q, op), Enter(q, op, book);
    var change := DoEffect(q, op, book);
    TurnStep(q, op, book);
    assert q.calls !in q.pending && forall c :: c in q.pending ==> c < q.calls;
    hide Do, Enter, Overtakes, Valid, Booked, Queueing, InTurn;
    BookedStep(q, r, book, after, change);
    if !r.ended {
      QueueingStep(q, r, book, after, change);
    }
  }

  /** Once an offer has gone out of turn, no later operation mends it. */
  lemma {:induction false} OrderGrows(q: Queue, ops: seq<Op>, book: Book)
    ensures book.order <= EnterAll(q, ops, book).order
    decreases |ops|
  {
    if ops != [] {
      assert book.order <= Enter(q, ops[0], book).order;
      hide Do, Enter;
      OrderGrows(Do(q, ops[0]), ops[1..], Enter(q, ops[0], book));
    }
  }

  lemma {:induction false} TurnRun(q: Queue, ops: seq<Op>, book: Book)
    requires Valid(q) && Kept(q, book) && InTurn(book.order)
    ensures InTurn(EnterAll(q, ops, book).order) <==> NoneOvertakes(q, ops)
    ensures NoneOvertakes(q, ops) ==> Kept(DoAll(q, ops), EnterAll(q, ops, book))
    decreases |ops|
  {
    hide Valid, Kept, Do, Enter, Overtakes;
    if ops != [] {
      var r, after := Do(q, ops[0]), Enter(q, ops[0], book);
      DoValid(q, ops[0]);
      TurnStep(q, ops[0], book);
      if Overtakes(q, ops[0]) {
        OrderGrows(r, ops[1..], after);
        StaysOutOfTurn(after.order, EnterAll(r, ops[1..], after).order);
      } else {
        KeptStep(q, ops[0], book);
        TurnRun(r, ops[1..], after);
      }
    }
  }

  lemma StaysOutOfTurn(order: seq<nat>, longer: seq<nat>)
    requires order <= longer && !InTurn(order)
    ensures !InTurn(longer)
  {
    var i :| 0 <= i < |order| && order[i] != i;
    assert longer[i] == order[i];
  }

  /**
   * First in, first out, over any mix of producers: frames are taken in the order they were offered, none
   * skipped, if and only if no operation overtakes a suspended offer.
   */
  lemma FifoIff(bounds: Bounds, ops: seq<Op>)
    ensures InTurn(EnterAll(Empty(bounds), ops, BLANK).order) <==> NoneOvertakes(Empty(bounds), ops)
  {
    hide DoAll, EnterAll, NoneOvertakes;
    TurnRun(Empty(bounds), ops, BLANK);
  }

  lemma InTurnDelivery(q: Queue, book: Book)
    requires Valid(q) && Kept(q, book) && InTurn(book.order)
    ensures q.delivered <= book.offered
  {
    hide Exact, Served, Asleep, Queueing;
    assert q.delivered <= q.delivered + q.values;
    assert forall i :: 0 <= i < |q.accepted| ==> book.order[i] == i && q.accepted[i] == book.offered[i];
  }

  /** And then what consumers get is what was offered, from the first offer on. */
  lemma FifoDelivery(bounds: Bounds, ops: seq<Op>)
    requires NoneOvertakes(Empty(bounds), ops)
    ensures DoAll(Empty(bounds), ops).delivered <= EnterAll(Empty(bounds), ops, BLANK).offered
  {
    hide DoAll, EnterAll, NoneOvertakes;
    assert Valid(Empty(bounds)) && Kept(Empty(bounds), BLANK);
    hide Valid, Empty, Kept;
    TurnRun(Empty(bounds), ops, BLANK);
    DoAllValid(Empty(bounds), ops);
    InTurnDelivery(DoAll(Empty(bounds), ops), EnterAll(Empty(bounds), ops, BLANK));
  }

  // ---------------------------------------------------------------- one producer

  /** A producer, pushing either way, that does not push while a `pushWait` of its own is suspended. */
  predicate Patient(q: Queue, ops: seq<Op>)
    decreases |ops|
  {
    ops == []
    || (&& (ops[0].OpTry? || ops[0].OpPush? ==> q.pending == map[])
        && Patient(Do(q, ops[0]), ops[1..]))
  }

  predicate OneCall(q: Queue) { forall c, d :: c in q.pending && d in q.pending ==> c == d }

  lemma {:induction false} PatientNeverOvertakes(q: Queue, ops: seq<Op>)
    requires Patient(q, ops) && OneCall(q)
    ensures NoneOvertakes(q, ops)
    decreases |ops|
  {
    hide Do, OneCall, Overtakes;
    if ops != [] {
      PatientStep(q, ops[0]);
      PatientNeverOvertakes(Do(q, ops[0]), ops[1..]);
    }
  }

  lemma PatientStep(q: Queue, op: Op)
    requires OneCall(q) && (op.OpTry? || op.OpPush? ==> q.pending == map[])
    ensures OneCall(Do(q, op)) && !Overtakes(q, op)
  {
  }

  /** One patient producer: consumers receive its frames in the order it offered them, none skipped. */
  lemma SingleProducerFifo(bounds: Bounds, ops: seq<Op>)
    requires Patient(Empty(bounds), ops)
    ensures DoAll(Empty(bounds), ops).delivered <= EnterAll(Empty(bounds), ops, BLANK).offered
  {
    PatientNeverOvertakes(Empty(bounds), ops);
    FifoDelivery(bounds, ops);
  }

  /** After pushes of two, three and one byte into four: the second is suspended, the third is in the buffer. */
  function Overtaken(): Queue {
    Queue(Bounds(3, 4, 4), [[1, 1], [3]], [], [0], 3, false, false, map[0 := [2, 2, 2]], {}, 1, 0, [[1, 1], [3]], [])
  }

  lemma PushesOvertake(ops: seq<Op>)
    requires |ops| >= 3 && ops[0] == OpPush([1, 1]) && ops[1] == OpPush([2, 2, 2]) && ops[2] == OpPush([3])
    ensures DoAll(Empty(Bounds(3, 4, 4)), ops) == DoAll(Overtaken(), ops[3..])
  {
    var q0 := Empty(Bounds(3, 4, 4));
    var q1 := Do(q0, ops[0]);
    var q2 := Do(q1, ops[1]);
    assert Do(q2, ops[2]) == Overtaken();
    hide Do, Overtaken;
    assert DoAll(q2, ops[2..]) == DoAll(Overtaken(), ops[3..]) by { assert ops[2..][1..] == ops[3..]; }
    assert DoAll(q1, ops[1..]) == DoAll(q2, ops[2..]) by { assert ops[1..][1..] == ops[2..]; }
  }

  lemma ResumedLate()
    ensures var q := Do(Do(Do(Do(Overtaken(), OpNext), OpResume(0)), OpNext), OpNext);
      q.delivered == [[1, 1], [3], [2, 2, 2]]
  {
    var q4 := Do(Overtaken(), OpNext);
    assert q4.woken == {0} && q4.values == [[3]] && q4.bufferedBytes == 1;
    var q5 := Do(q4, OpResume(0));
    assert q5.values == [[3], [2, 2, 2]];
  }

  /** Without that patience a small frame overtakes a large one that is waiting for space. */
  lemma ImpatientOvertakes()
    ensures var q := DoAll(Empty(Bounds(3, 4, 4)), [OpPush([1, 1]), OpPush([2, 2, 2]), OpPush([3]), OpNext, OpResume(0), OpNext, OpNext]);
      q.delivered == [[1, 1], [3], [2, 2, 2]]
  {
    hide Do, Overtaken;
    var ops := [OpPush([1, 1]), OpPush([2, 2, 2]), OpPush([3]), OpNext, OpResume(0), OpNext, OpNext];
    PushesOvertake(ops);
    DoFour(Overtaken(), ops[3..]);
    ResumedLate();
  }

  lemma DoFour(q: Queue, ops: seq<Op>)
    requires |ops| == 4
    ensures DoAll(q, ops) == Do(Do(Do(Do(q, ops[0]), ops[1]), ops[2]), ops[3])
  {
    hide Do;
    var q2 := Do(Do(q, ops[0]), ops[1]);
    assert ops[1..][1..] == ops[2..] && ops[2..][1..] == ops[3..] && ops[3..][1..] == [];
    assert DoAll(Do(q2, ops[2]), ops[3..]) == Do(Do(q2, ops[2]), ops[3]);
    assert DoAll(q2, ops[2..]) == DoAll(Do(q2, ops[2]), ops[3..]);
  }
}
