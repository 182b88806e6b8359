/**
 * `sendLatest`: sends to one route are coalesced while an earlier one is in flight.
 *
 * Calls are numbered, and the value of a call is as new as its number. A drain takes the newest value and
 * everyone waiting, sends, and settles them; `drainLatest` is split at its await.
 */
module LatestSends {
  import opened Bytes

  /** The send in flight: the call whose value it carries, and the calls it will settle. */
  datatype Flight = Flight(value: nat, waiters: seq<nat>)

  datatype Settled = Resolved(newest: nat) | Rejected(newest: nat)

  /** One route's entry, `None` when the map has none; `active` counts the drains under way. */
  datatype Entry = Entry(value: nat, waiters: seq<nat>, running: bool)

  datatype Route = Route(
    calls: nat,
    entry: Option<Entry>,
    flight: Option<Flight>,
    active: nat,
    sent: set<nat>,
    settled: map<nat, Settled>)

  const QUIET := Route(0, None, None, 0, {}, map[])

  /** The turn of the drain loop up to its await, or the end of the drain. */
  function Drain(r: Route): Route
    requires r.entry.Some?
  {
    var e := r.entry.value;
    if e.waiters != [] then
      r.(entry := Some(e.(waiters := [])), flight := Some(Flight(e.value, e.waiters)))
    else
      r.(entry := None, flight := None, active := if r.active > 0 then r.active - 1 else 0)
  }

  function SendLatest(r: Route): Route {
    var call := r.calls;
    var e := if r.entry.None? then Entry(call, [], false) else r.entry.value.(value := call);
    var waiting := e.(waiters := e.waiters + [call]);
    if waiting.running then r.(calls := call + 1, entry := Some(waiting))
    else Drain(r.(calls := call + 1, entry := Some(waiting.(running := true)), active := r.active + 1))
  }

  function SettleAll(settled: map<nat, Settled>, waiters: seq<nat>, outcome: Settled): map<nat, Settled> {
    settled + map w | w in waiters :: outcome
  }

  /** The carrier accepts or refuses the datagram in flight. */
  function SendDone(r: Route, ok: bool): Route
    requires r.flight.Some? && r.entry.Some?
  {
    var f := r.flight.value;
    Drain(r.(sent := if ok then r.sent + {f.value} else r.sent,
             settled := SettleAll(r.settled, f.waiters, if ok then Resolved(f.value) else Rejected(f.value))))
  }

  // ---------------------------------------------------------------- the invariant

  function InFlight(r: Route): seq<nat> { if r.flight.None? then [] else r.flight.value.waiters }

  function Queued(r: Route): seq<nat> { if r.entry.None? then [] else r.entry.value.waiters }

  /** At most one drain is active, and while it is there is a send in flight and an entry in the map. */
  predicate OneDrain(r: Route) {
    && r.active == (if r.flight.Some? then 1 else 0)
    && (r.flight.Some? <==> r.entry.Some?)
    && (r.entry.Some? ==>
          && r.entry.value.running && r.calls > 0 && r.entry.value.value == r.calls - 1
          && r.flight.value.value < r.calls
          && (r.entry.value.waiters == [] ==> r.flight.value.value == r.calls - 1))
  }

  /** Calls in flight are no newer than the value sent; calls still queued are newer. */
  predicate Ordered(r: Route) {
    && (forall w :: w in InFlight(r) ==> w <= r.flight.value.value)
    && (forall w :: w in Queued(r) ==> r.flight.Some? && r.flight.value.value < w < r.calls)
  }

  /** Every call made is either settled or still waiting, never both. */
  predicate Accounted(r: Route) {
    && (forall c :: 0 <= c < r.calls ==> (c in r.settled || c in InFlight(r) || c in Queued(r)))
    && (forall c :: c in r.settled ==> c < r.calls && c !in InFlight(r) && c !in Queued(r))
  }

  /** A resolved call was superseded by nothing but newer values, and one of them, or its own, was sent. */
  predicate Covered(r: Route, c: nat)
    requires c in r.settled
  {
    match r.settled[c]
    case Resolved(newest) => c <= newest < r.calls && newest in r.sent
    case Rejected(newest) => c <= newest < r.calls
  }

  predicate AllCovered(r: Route) { forall c :: c in r.settled ==> Covered(r, c) }

  predicate Valid(r: Route) { OneDrain(r) && Ordered(r) && Accounted(r) && AllCovered(r) }

  lemma SendLatestValid(r: Route)
    requires Valid(r)
    ensures Valid(SendLatest(r))
  {
    var q := SendLatest(r);
    if r.entry.Some? {
      assert InFlight(q) == InFlight(r) && Queued(q) == Queued(r) + [r.calls];
    } else {
      assert InFlight(r) == [] && Queued(r) == [];
      assert [] + [r.calls] == [r.calls];
      assert InFlight(q) == [r.calls] && Queued(q) == [];
    }
    forall c | 0 <= c < q.calls
      ensures c in q.settled || c in InFlight(q) || c in Queued(q)
    {
      if c < r.calls {
        assert c in r.settled || c in InFlight(r) || c in Queued(r);
      }
    }
    forall c | c in q.settled
      ensures Covered(q, c)
    {
      assert Covered(r, c);
    }
  }

  lemma SendDoneValid(r: Route, ok: bool)
    requires Valid(r) && r.flight.Some?
    ensures Valid(SendDone(r, ok))
  {
    var f := r.flight.value;
    var q := SendDone(r, ok);
    assert forall w :: w in InFlight(q) || w in Queued(q) <==> w in Queued(r);
    assert forall c :: c in q.settled <==> c in r.settled || c in InFlight(r);
    forall c | c in q.settled
      ensures Covered(q, c)
    {
      if c !in f.waiters {
        assert Covered(r, c);
      }
    }
  }

  // ---------------------------------------------------------------- runs

  /** A call, or the completion of the send in flight. */
  datatype Step = Call | Done(ok: bool)

  function Take(r: Route, step: Step): Route {
    match step
    case Call => SendLatest(r)
    case Done(ok) => if r.flight.Some? && r.entry.Some? then SendDone(r, ok) else r
  }

  function TakeAll(r: Route, steps: seq<Step>): Route
    decreases |steps|
  {
    if steps == [] then r else TakeAll(Take(r, steps[0]), steps[1..])
  }

  lemma TakeValid(r: Route, step: Step)
    requires Valid(r)
    ensures Valid(Take(r, step))
  {
    match step
    case Call => SendLatestValid(r);
    case Done(ok) =>
      if r.flight.Some? {
        SendDoneValid(r, ok);
      }
  }

  lemma {:induction false} TakeAllValid(r: Route, steps: seq<Step>)
    requires Valid(r)
    ensures Valid(TakeAll(r, steps))
    decreases |steps|
  {
    hide Valid, Take;
    if steps != [] {
      TakeValid(r, steps[0]);
      TakeAllValid(Take(r, steps[0]), steps[1..]);
    }
  }

  /**
   * In every run at most one drain is active; a call that resolved was covered by a successful send of its
   * own value or a newer one; and when no drain is active nobody is left waiting.
   */
  lemma LatestWins(steps: seq<Step>)
    ensures var r := TakeAll(QUIET, steps);
      && r.active <= 1
      && (forall c :: c in r.settled && r.settled[c].Resolved? ==> c <= r.settled[c].newest && r.settled[c].newest in r.sent)
      && (r.active == 0 ==> forall c :: 0 <= c < r.calls ==> c in r.settled)
  {
    TakeAllValid(QUIET, steps);
    var r := TakeAll(QUIET, steps);
    forall c | c in r.settled && r.settled[c].Resolved?
      ensures c <= r.settled[c].newest && r.settled[c].newest in r.sent
    {
      assert Covered(r, c);
    }
  }

  // ---------------------------------------------------------------- who is told what

  /** A value handed to the carrier, and whether the carrier took it. */
  datatype Attempt = Attempt(value: nat, ok: bool)

  function AttemptOf(r: Route, step: Step): seq<Attempt> {
    if step.Done? && r.flight.Some? && r.entry.Some? then [Attempt(r.flight.value.value, step.ok)] else []
  }

  function Attempts(r: Route, steps: seq<Step>): seq<Attempt>
    decreases |steps|
  {
    if steps == [] then [] else AttemptOf(r, steps[0]) + Attempts(Take(r, steps[0]), steps[1..])
  }

  /** How the first attempt with a value at least as new as call `c` went. */
  function Verdict(log: seq<Attempt>, c: nat): Option<Settled>
    decreases |log|
  {
    if log == [] then None
    else if log[0].value >= c then Some(if log[0].ok then Resolved(log[0].value) else Rejected(log[0].value))
    else Verdict(log[1..], c)
  }

  lemma {:induction false} VerdictMore(log: seq<Attempt>, a: Attempt, c: nat)
    ensures Verdict(log + [a], c)
         == if Verdict(log, c).Some? then Verdict(log, c)
            else if a.value >= c then Some(if a.ok then Resolved(a.value) else Rejected(a.value)) else None
    decreases |log|
  {
    if log == [] {
      assert [] + [a] == [a];
    } else {
      assert (log + [a])[1..] == log[1..] + [a];
      VerdictMore(log[1..], a, c);
    }
  }

  /** The callers know of the attempts so far, each of the first that could be its own. */
  predicate Told(r: Route, log: seq<Attempt>) {
    && (forall k :: 0 <= k < |log| ==> log[k].value < r.calls)
    && (forall c :: 0 <= c < r.calls ==> Verdict(log, c) == if c in r.settled then Some(r.settled[c]) else None)
  }

  lemma {:induction false} NoVerdict(log: seq<Attempt>, c: nat)
    requires forall k :: 0 <= k < |log| ==> log[k].value < c
    ensures Verdict(log, c) == None
    decreases |log|
  {
    if log != [] {
      NoVerdict(log[1..], c);
    }
  }

  lemma ToldStep(r: Route, step: Step, log: seq<Attempt>)
    requires Valid(r) && Told(r, log)
    ensures Told(Take(r, step), log + AttemptOf(r, step))
  {
    var q := Take(r, step);
    assert log + [] == log;
    match step
    case Call => NoVerdict(log, r.calls);
    case Done(ok) =>
      if r.flight.Some? {
        var f := r.flight.value;
        forall c | 0 <= c < r.calls
          ensures Verdict(log + AttemptOf(r, step), c) == if c in q.settled then Some(q.settled[c]) else None
        {
          VerdictMore(log, Attempt(f.value, ok), c);
          assert c in r.settled || c in InFlight(r) || c in Queued(r);
        }
      }
  }

  lemma {:induction false} ToldRun(r: Route, steps: seq<Step>, log: seq<Attempt>)
    requires Valid(r) && Told(r, log)
    ensures Told(TakeAll(r, steps), log + Attempts(r, steps))
    decreases |steps|
  {
    hide Valid, Take, Told, AttemptOf;
    if steps == [] {
      assert log + [] == log;
    } else {
      TakeValid(r, steps[0]);
      ToldStep(r, steps[0], log);
      ToldRun(Take(r, steps[0]), steps[1..], log + AttemptOf(r, steps[0]));
      assert log + AttemptOf(r, steps[0]) + Attempts(Take(r, steps[0]), steps[1..]) == log + Attempts(r, steps);
    }
  }

  /**
   * Every caller is told the fate of the first value handed over that is its own or a newer one: it resolves
   * if the carrier took that value and is rejected if not, and it waits while there is none.
   */
  lemma SettledByFirst(steps: seq<Step>, c: nat)
    requires c < TakeAll(QUIET, steps).calls
    ensures var r, log := TakeAll(QUIET, steps), Attempts(QUIET, steps);
      Verdict(log, c) == if c in r.settled then Some(r.settled[c]) else None
  {
    ToldRun(QUIET, steps, []);
    assert [] + Attempts(QUIET, steps) == Attempts(QUIET, steps);
  }

  /** What is handed over is always the newest value there is, at once when nothing is under way. */
  lemma NewestGoes(steps: seq<Step>, step: Step)
    ensures var r := TakeAll(QUIET, steps);
      var q := Take(r, step);
      && (q.flight.Some? && q.flight != r.flight ==> q.flight.value.value == q.calls - 1)
      && (q.flight.None? <==> q.active == 0)
      && (r.flight.None? && step.Call? ==> q.flight == Some(Flight(r.calls, [r.calls])))
  {
    TakeAllValid(QUIET, steps);
    TakeValid(TakeAll(QUIET, steps), step);
    hide TakeAll;
    assert forall c: nat :: [] + [c] == [c];
  }

  // ---------------------------------------------------------------- the object

  class Sender {
    var entryPresent: bool
    var value: nat
    var waiters: seq<nat>
    var running: bool
    var flight: Option<Flight>
    ghost var calls: nat
    ghost var active: nat
    ghost var sent: set<nat>
    ghost var settled: map<nat, Settled>

    ghost function View(): Route
      reads this
    {
      Route(calls, if entryPresent then Some(Entry(value, waiters, running)) else None, flight, active, sent, settled)
    }

    constructor ()
      ensures View() == QUIET
    {
      entryPresent, value, waiters, running, flight := false, 0, [], false, None;
      calls, active, sent, settled := 0, 0, {}, map[];
    }

    /** `sendLatest`; `newest` is the value of this call, known by its number. */
    method Offer(newest: nat)
      requires newest == calls
      modifies this
      ensures View() == SendLatest(old(View()))
    {
      calls := calls + 1;
      if !entryPresent {
        entryPresent, waiters, running := true, [], false;
      }
      value := newest;
      waiters := waiters + [newest];
      if !running {
        running := true;
        active := active + 1;
        DrainLatest();
      }
    }

    /** The drain loop from one await to the next. */
    method DrainLatest()
      requires entryPresent
      modifies this
      ensures View() == Drain(old(View()))
    {
      if waiters != [] {
        flight := Some(Flight(value, waiters));
        waiters := [];
      } else {
        running, entryPresent, flight := false, false, None;
        active := if active > 0 then active - 1 else 0;
      }
    }

    /** The carrier has answered. */
    method Carried(ok: bool)
      requires flight.Some? && entryPresent
      modifies this
      ensures View() == SendDone(old(View()), ok)
    {
      var f := flight.value;
      sent := if ok then sent + {f.value} else sent;
      settled := SettleAll(settled, f.waiters, if ok then Resolved(f.value) else Rejected(f.value));
      DrainLatest();
    }
  }
}
