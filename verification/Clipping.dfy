/**
 * Why `NoViolation` excludes runs in which `request` saturates a credit counter, and errors that name
 * nothing. Saturation is exactly what breaks the balance of granted and spendable credit, and one saturated
 * request is enough for a conforming sender to end up exceeding the receiver's demand; one `fail` with an
 * empty code is enough for the peer to be accused.
 */
module Clipping {
  import opened Bytes
  import opened Frames
  import opened StreamLink
  import opened Sessions
  import opened Accounting
  import opened Views
  import opened TwoPeers
  import opened Runs
  import Pipes
  import FragmentPlan

  /** Session a's receiving side of stream `s` accounts for all the credit it granted. */
  predicate Balanced(sys: System, s: StreamId)
    requires s in sys.a.streams && s in sys.b.streams
  {
    sys.a.streams[s].inCredit
    == sys.b.streams[s].outCredit + Charges(Rel(Pipe(sys.b, sys.ba), s)) + DemandSum(Pipe(sys.a, sys.ab), s)
  }

  /** A request keeps the balance if and only if it does not saturate the counter. */
  lemma RequestBalancedIff(sys: System, s: StreamId, n: nat)
    requires Inv(sys) && s in sys.a.streams && s in sys.b.streams
    requires !sys.a.streams[s].inClosed && 1 <= n <= MAX_CREDIT
    ensures Balanced(sys.(a := Request(sys.a, s, n)), s) <==> Below(sys.a.streams[s].inCredit + n, sys.a.cfg.creditCap)
  {
    InvFlip(sys);
    hide Inv;
    ConservedForth(Flip(sys), s);
    var a' := Request(sys.a, s, n);
    var frames := [Demand(s, n)];
    assert a'.outbox == Queued(sys.a.outbox, s, false, frames);
    Pipes.PipeGrown(Bodies(sys.ab), sys.a.outbox, s, frames);
    assert frames[1..] == [];
    assert DemandSum(frames, s) == n;
  }

  // ---------------------------------------------------------------- a run that saturates once

  const LIMITS := FragmentPlan.Outbound(DEFAULT_LIMITS, false, false, 10)
  const CAP := Some(MAX_CREDIT)
  const OPENER := Config(true, 10, 10, 1, 0, 1, 1, CAP, LIMITS)
  const TAKER := Config(false, 10, 10, 1, 0, 1, 1, CAP, LIMITS)
  const NOTHING := Item([], [])
  const AGREE := Environment(Accepts, true)

  function Items(n: nat): seq<Item> { seq(n, i => NOTHING) }

  /** The opener with `credit` left, having written `n` items on stream 1 and read `m` frames. */
  function Opener(credit: nat, n: nat, m: nat): Peer {
    Peer(OPENER, map[1 := Stream(true, 0, 0, credit, false, false, NoItem)], map[], [], 3, 0, n + 2, m + 1,
         0, 1, 0, 0, [], if n == 0 then map[] else map[1 := Items(n)], map[], {}, {})
  }

  /** The acceptor with `credit` left to be used, having taken `n` items and written `m` frames. */
  function Taker(credit: nat, n: nat, m: nat): Peer {
    Peer(TAKER, map[1 := Stream(false, 0, credit, 0, false, false, NoItem)], map[], [], 2, 1, m + 1, n + 2,
         0, 0, 1, 0, [], map[], if n == 0 then map[] else map[1 := Items(n)], {}, {})
  }

  function Opened(): seq<Event> {
    [Event(true, DoOpen([], true)), Event(true, DoFlush), Event(false, DoReceive(AGREE))]
  }

  /** One event of a run. */
  lemma Then(sys: System, run: seq<Event>, next: System)
    requires run != [] && Happen(sys, run[0]) == Went(next)
    ensures Execute(sys, run) == Execute(next, run[1..])
  {
  }

  lemma Last(sys: System, run: seq<Event>, end: Next)
    requires |run| == 1 && Happen(sys, run[0]) == end
    ensures Execute(sys, run) == end
  {
    hide Happen;
    assert run[1..] == [];
  }

  /** The opener with its OPEN not written yet. */
  function Announcing(): Peer { Opener(0, 0, 0).(outbox := [Open(1, [])], outgoingSequence := 1) }

  lemma OpenCalled()
    ensures OpenNext(Initial(OPENER), [], true) == Announcing()
  {
    var p, t := Initial(OPENER), Stream(true, 0, 0, 0, false, false, NoItem);
    assert AttributeMemory([]) == 0;
    hide AttributeMemory;
    assert MayOpen(p, []);
    FirstStream(p.streams, t);
    assert p.outbox + [Open(1, [])] == [Open(1, [])];
  }

  lemma FirstStream(none: map<StreamId, Stream>, t: Stream)
    requires none == map[]
    ensures none[1 := t] == map[1 := t]
  {
  }

  lemma OpenWritten()
    ensures Flush(Announcing()) == Some((Opener(0, 0, 0), Packet(1, Open(1, []))))
  {
    assert [Open(1, [])][1..] == [];
  }

  lemma OpenTaken()
    ensures Receive(Initial(TAKER), Packet(1, Open(1, [])), AGREE) == Handled(Taker(0, 0, 0))
  {
    assert NewStream([], false) == Stream(false, 0, 0, 0, false, false, NoItem);
  }

  lemma Opening()
    ensures Execute(Start(OPENER, TAKER), Opened()) == Went(System(Opener(0, 0, 0), Taker(0, 0, 0), [], []))
  {
    hide Execute, Initial, Opener, Taker, Announcing, OpenNext, Flush, Receive;
    var run := Opened();
    var sys := Start(OPENER, TAKER);
    OpenCalled();
    OpenWritten();
    OpenTaken();
    Then(sys, run, sys.(a := Announcing()));
    Then(sys.(a := Announcing()), run[1..], System(Opener(0, 0, 0), sys.b, [Packet(1, Open(1, []))], []));
    Last(System(Opener(0, 0, 0), sys.b, [Packet(1, Open(1, []))], []), run[2..],
         Went(System(Opener(0, 0, 0), Taker(0, 0, 0), [], [])));
  }

  /** The two sessions between rounds: nothing on either wire. */
  function Pair(spendable: nat, granted: nat, n: nat, m: nat): System {
    System(Opener(spendable, n, m), Taker(granted, n, m), [], [])
  }

  function ItemRound(): seq<Event> {
    [Event(true, DoSend(1, NOTHING)), Event(true, DoFlush), Event(false, DoReceive(AGREE))]
  }

  lemma SendNothing(credit: nat, n: nat, m: nat)
    requires credit > 0
    ensures Send(Opener(credit, n, m), 1, NOTHING)
         == Opener(credit - 1, n + 1, m).(outbox := [Data(1, [], [])], outgoingSequence := n + 2)
  {
    assert FragmentPlan.Plan(1, NOTHING, LIMITS) == FragmentPlan.Planned([Data(1, [], [])]);
    hide FragmentPlan.Plan;
    assert Items(n) + [NOTHING] == Items(n + 1);
    var p := Opener(credit, n, m);
    assert !Busy(p.outbox, 1);
    assert p.streams[1 := p.streams[1].(outCredit := credit - 1)] == Opener(credit - 1, n + 1, m).streams;
    assert p.sent[1 := Log(p.sent, 1) + [NOTHING]] == Opener(credit - 1, n + 1, m).sent;
  }

  lemma TakeNothing(credit: nat, n: nat, m: nat)
    ensures var out := Receive(Taker(credit, n, m), Packet(n + 2, Data(1, [], [])), AGREE);
      out == if credit == 0 then Violated(ExceededDemand) else Handled(Taker(credit - 1, n + 1, m))
  {
    assert Items(n) + [NOTHING] == Items(n + 1);
    if credit > 0 {
      var p := Taker(credit, n, m);
      assert p.streams[1 := p.streams[1].(inCredit := credit - 1)] == Taker(credit - 1, n + 1, m).streams;
      assert p.delivered[1 := Log(p.delivered, 1) + [NOTHING]] == Taker(credit - 1, n + 1, m).delivered;
    }
  }

  lemma FlushNothing(credit: nat, n: nat, m: nat)
    requires n + 2 <= MAX_U64
    ensures Flush(Opener(credit, n + 1, m).(outbox := [Data(1, [], [])], outgoingSequence := n + 2))
         == Some((Opener(credit, n + 1, m), Packet(n + 2, Data(1, [], []))))
  {
    assert [Data(1, [], [])][1..] == [];
  }

  /** One item sent and taken; without granted credit, taking it is a violation. */
  lemma Round(spendable: nat, granted: nat, n: nat, m: nat)
    requires spendable > 0 && n + 2 <= MAX_U64
    ensures Execute(Pair(spendable, granted, n, m), ItemRound())
         == if granted == 0 then Broke(ExceededDemand) else Went(Pair(spendable - 1, granted - 1, n + 1, m))
  {
    hide Send, Flush, Receive, Opener, Taker, Execute;
    SendNothing(spendable, n, m);
    FlushNothing(spendable - 1, n, m);
    TakeNothing(granted, n, m);
    var run := ItemRound();
    var s0 := Pair(spendable, granted, n, m);
    var s1 := s0.(a := Send(s0.a, 1, NOTHING));
    var s2 := System(Opener(spendable - 1, n + 1, m), s0.b, [Packet(n + 2, Data(1, [], []))], []);
    assert [] + [Packet(n + 2, Data(1, [], []))] == [Packet(n + 2, Data(1, [], []))];
    assert s2.ab[1..] == [];
    Then(s0, run, s1);
    Then(s1, run[1..], s2);
    Last(s2, run[2..], if granted == 0 then Broke(ExceededDemand) else Went(Pair(spendable - 1, granted - 1, n + 1, m)));
  }

  function Rounds(n: nat): seq<Event> { if n == 0 then [] else ItemRound() + Rounds(n - 1) }

  lemma {:induction false} ExecuteConcat(sys: System, p: seq<Event>, q: seq<Event>)
    ensures Execute(sys, p + q)
         == (match Execute(sys, p) case Broke(why) => Broke(why) case Went(next) => Execute(next, q))
    decreases |p|
  {
    hide Happen;
    if p == [] {
      assert p + q == q;
    } else {
      assert (p + q)[0] == p[0] && (p + q)[1..] == p[1..] + q;
      var next := Happen(sys, p[0]);
      if next.Went? {
        ExecuteConcat(next.sys, p[1..], q);
      }
    }
  }

  /** Spending more than was granted ends in the violation. */
  lemma {:induction false} Overspend(spendable: nat, granted: nat, n: nat, m: nat)
    requires spendable > granted && n + granted + 2 <= MAX_U64
    ensures Execute(Pair(spendable, granted, n, m), Rounds(granted + 1)) == Broke(ExceededDemand)
    decreases granted
  {
    hide Execute, ItemRound, Pair;
    Round(spendable, granted, n, m);
    ExecuteConcat(Pair(spendable, granted, n, m), ItemRound(), Rounds(granted));
    if granted > 0 {
      Overspend(spendable - 1, granted - 1, n + 1, m);
    }
  }

  // ---------------------------------------------------------------- granting credit

  function Grant(n: nat): seq<Event> {
    [Event(false, DoRequest(1, n)), Event(false, DoFlush), Event(true, DoReceive(AGREE))]
  }

  lemma Asked(granted: nat, k: nat, m: nat, n: nat)
    requires 1 <= n <= MAX_CREDIT && m + 1 <= MAX_U64
    ensures var p := Request(Taker(granted, k, m), 1, n);
      Flush(p) == Some((Taker(AddCredit(CAP, granted, n), k, m + 1), Packet(m + 1, Demand(1, n))))
  {
    var p := Taker(granted, k, m);
    assert p.streams[1 := p.streams[1].(inCredit := AddCredit(CAP, granted, n))] == Taker(AddCredit(CAP, granted, n), k, m).streams;
    assert [] + [Demand(1, n)] == [Demand(1, n)] && [Demand(1, n)][1..] == [];
  }

  lemma Granted(spendable: nat, k: nat, m: nat, n: nat)
    requires 1 <= n
    ensures Receive(Opener(spendable, k, m), Packet(m + 1, Demand(1, n)), AGREE)
         == Handled(Opener(AddCredit(CAP, spendable, n), k, m + 1))
  {
    var p := Opener(spendable, k, m);
    assert p.streams[1 := p.streams[1].(outCredit := AddCredit(CAP, spendable, n))] == Opener(AddCredit(CAP, spendable, n), k, m).streams;
  }

  lemma GrantRound(spendable: nat, granted: nat, k: nat, m: nat, n: nat)
    requires 1 <= n <= MAX_CREDIT && m + 1 <= MAX_U64
    ensures Execute(Pair(spendable, granted, k, m), Grant(n))
         == Went(Pair(AddCredit(CAP, spendable, n), AddCredit(CAP, granted, n), k, m + 1))
  {
    Asked(granted, k, m, n);
    Granted(spendable, k, m, n);
    var run := Grant(n);
    var s0 := Pair(spendable, granted, k, m);
    var s1 := s0.(b := Request(s0.b, 1, n));
    var s2 := System(s0.a, Taker(AddCredit(CAP, granted, n), k, m + 1), [], [Packet(m + 1, Demand(1, n))]);
    hide Request, Flush, Receive, Opener, Taker, AddCredit, Execute;
    assert [] + [Packet(m + 1, Demand(1, n))] == [Packet(m + 1, Demand(1, n))];
    assert s2.ba[1..] == [];
    Then(s0, run, s1);
    Then(s1, run[1..], s2);
    Last(s2, run[2..], Went(Pair(AddCredit(CAP, spendable, n), AddCredit(CAP, granted, n), k, m + 1)));
  }

  /** A request crosses an item on the way: it is made before the item arrives, and read after it was sent. */
  function Ask(): seq<Event> {
    [Event(false, DoRequest(1, 1)), Event(false, DoFlush), Event(true, DoSend(1, NOTHING))]
  }

  function Cross(): seq<Event> {
    [Event(true, DoFlush), Event(true, DoReceive(AGREE)), Event(false, DoReceive(AGREE))]
  }

  function Midway(spendable: nat, granted: nat, k: nat, m: nat): System {
    System(Send(Opener(spendable, k, m), 1, NOTHING), Taker(AddCredit(CAP, granted, 1), k, m + 1), [],
           [Packet(m + 1, Demand(1, 1))])
  }

  lemma Asking(spendable: nat, granted: nat, k: nat, m: nat)
    requires m + 1 <= MAX_U64
    ensures Execute(Pair(spendable, granted, k, m), Ask()) == Went(Midway(spendable, granted, k, m))
  {
    Asked(granted, k, m, 1);
    var demand := Packet(m + 1, Demand(1, 1));
    var run := Ask();
    var s0 := Pair(spendable, granted, k, m);
    var s1 := s0.(b := Request(s0.b, 1, 1));
    var s2 := System(s0.a, Taker(AddCredit(CAP, granted, 1), k, m + 1), [], [demand]);
    hide Request, Flush, Receive, Opener, Taker, AddCredit, Send, Execute;
    assert [] + [demand] == [demand];
    Then(s0, run, s1);
    Then(s1, run[1..], s2);
    Last(s2, run[2..], Went(Midway(spendable, granted, k, m)));
  }

  lemma Crossing(spendable: nat, granted: nat, k: nat, m: nat)
    requires spendable > 0 && granted > 0 && k + 2 <= MAX_U64
    ensures Execute(Midway(spendable, granted, k, m), Cross())
         == Went(Pair(AddCredit(CAP, spendable - 1, 1), AddCredit(CAP, granted, 1) - 1, k + 1, m + 1))
  {
    CrossFirst(spendable, granted, k, m);
    CrossSecond(spendable, granted, k, m);
    CrossLast(spendable, granted, k, m);
    var run := Cross();
    var s0, s1, s2 := Midway(spendable, granted, k, m), CrossSent(spendable, granted, k, m), CrossGranted(spendable, granted, k, m);
    hide Happen, Opener, Taker, AddCredit, Execute, Midway, CrossSent, CrossGranted;
    Then(s0, run, s1);
    Then(s1, run[1..], s2);
    Last(s2, run[2..], Went(Pair(AddCredit(CAP, spendable - 1, 1), AddCredit(CAP, granted, 1) - 1, k + 1, m + 1)));
  }

  function CrossSent(spendable: nat, granted: nat, k: nat, m: nat): System
    requires spendable > 0
  {
    System(Opener(spendable - 1, k + 1, m), Midway(spendable, granted, k, m).b, [Packet(k + 2, Data(1, [], []))],
           [Packet(m + 1, Demand(1, 1))])
  }

  function CrossGranted(spendable: nat, granted: nat, k: nat, m: nat): System
    requires spendable > 0
  {
    System(Opener(AddCredit(CAP, spendable - 1, 1), k + 1, m + 1), Midway(spendable, granted, k, m).b,
           [Packet(k + 2, Data(1, [], []))], [])
  }

  lemma CrossFirst(spendable: nat, granted: nat, k: nat, m: nat)
    requires spendable > 0 && k + 2 <= MAX_U64
    ensures Happen(Midway(spendable, granted, k, m), Cross()[0]) == Went(CrossSent(spendable, granted, k, m))
  {
    SendNothing(spendable, k, m);
    FlushNothing(spendable - 1, k, m);
    var item := Packet(k + 2, Data(1, [], []));
    hide Request, Flush, Receive, Opener, Taker, AddCredit, Send;
    assert [] + [item] == [item];
  }

  lemma CrossSecond(spendable: nat, granted: nat, k: nat, m: nat)
    requires spendable > 0
    ensures Happen(CrossSent(spendable, granted, k, m), Cross()[1]) == Went(CrossGranted(spendable, granted, k, m))
  {
    Granted(spendable - 1, k + 1, m, 1);
    hide Request, Flush, Receive, Opener, Taker, AddCredit, Send;
    assert [Packet(m + 1, Demand(1, 1))][1..] == [];
  }

  lemma CrossLast(spendable: nat, granted: nat, k: nat, m: nat)
    requires spendable > 0 && granted > 0
    ensures Happen(CrossGranted(spendable, granted, k, m), Cross()[2])
         == Went(Pair(AddCredit(CAP, spendable - 1, 1), AddCredit(CAP, granted, 1) - 1, k + 1, m + 1))
  {
    var more := AddCredit(CAP, granted, 1);
    TakeNothing(more, k, m + 1);
    assert more > 0;
    hide Request, Flush, Receive, Opener, Taker, AddCredit, Send;
    assert [Packet(k + 2, Data(1, [], []))][1..] == [];
  }

  /**
   * `NoViolation` fails without its hypothesis: after the counter saturates once, a sender that only
   * ever spends credit it was granted is accused of exceeding demand.
   */
  lemma SaturationCanViolate()
    ensures MayMeet(OPENER, TAKER)
    ensures exists run :: Execute(Start(OPENER, TAKER), run) == Broke(ExceededDemand)
  {
    hide Execute, Rounds, Opener, Taker, Opened, Ask, Cross, Midway, Grant, ItemRound;
    var start := Start(OPENER, TAKER);
    Opening();
    GrantRound(0, 0, 0, 0, MAX_CREDIT);
    Asking(MAX_CREDIT, MAX_CREDIT, 0, 1);
    Crossing(MAX_CREDIT, MAX_CREDIT, 0, 1);
    Overspend(MAX_CREDIT, MAX_CREDIT - 1, 1, 2);
    var granted := Opened() + Grant(MAX_CREDIT);
    var asked := granted + Ask();
    var crossed := asked + Cross();
    var run := crossed + Rounds(MAX_CREDIT);
    hide Start;
    ExecuteConcat(start, Opened(), Grant(MAX_CREDIT));
    ExecuteConcat(start, granted, Ask());
    ExecuteConcat(start, asked, Cross());
    ExecuteConcat(start, crossed, Rounds(MAX_CREDIT));
    assert Execute(start, run) == Broke(ExceededDemand);
  }

  // ---------------------------------------------------------------- an error that names nothing

  function Failing(code: Option<bytes>): seq<Event> {
    [Event(true, DoFail(1, code)), Event(true, DoFlush), Event(false, DoReceive(AGREE))]
  }

  lemma FailWritten(code: Option<bytes>)
    ensures var p := Terminate(Opener(0, 0, 0), 1, Error(1, code));
      Flush(p).Some? && Flush(p).value.1 == Packet(2, Error(1, code))
  {
    var p := Opener(0, 0, 0);
    var f := Forget(ClearReassembly(p, 1), 1);
    assert f.outbox == [] && Purge(f.outbox, 1) == [];
    assert CancelStream(p, 1, true).outbox == [];
  }

  lemma UnnamedTaken(code: Option<bytes>)
    requires !Named(code)
    ensures Receive(Taker(0, 0, 0), Packet(2, Error(1, code)), AGREE) == Violated(UnnamedError)
  {
    hide Named;
  }

  /**
   * `NoViolation` fails without its other hypothesis: one `fail` with a code that decodes to nothing (empty,
   * or a bare byte order mark) ends the peer's session with a protocol violation.
   */
  lemma UnnamedErrorViolates(code: Option<bytes>)
    requires !Named(code)
    ensures MayMeet(OPENER, TAKER)
    ensures Execute(Start(OPENER, TAKER), Opened() + Failing(code)) == Broke(UnnamedError)
  {
    Opening();
    ExecuteConcat(Start(OPENER, TAKER), Opened(), Failing(code));
    hide Terminate, Execute, Flush, Receive, Opener, Taker, Named, Opened;
    FailWritten(code);
    UnnamedTaken(code);
    var run := Failing(code);
    var s0 := System(Opener(0, 0, 0), Taker(0, 0, 0), [], []);
    var p := Terminate(s0.a, 1, Error(1, code));
    var packet := Packet(2, Error(1, code));
    assert [] + [packet] == [packet];
    var s1, s2 := s0.(a := p), System(Flush(p).value.0, s0.b, [packet], []);
    Then(s0, run, s1);
    Then(s1, run[1..], s2);
    Last(s2, run[2..], Broke(UnnamedError));
  }
}
