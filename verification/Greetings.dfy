/**
 * What each side makes of a greeting, whoever sent it: exactly which HELLO and WELCOME frames are taken, in
 * terms of what is in them.
 */
module Greetings {
  import opened Bytes
  import opened Frames
  import opened Capabilities
  import opened Handshakes
  import Utf8
  import PeerLimits

  // ---------------------------------------------------------------- the session id

  /** The session id is at place `k` and nowhere else, and nothing else that must be understood is unknown. */
  predicate NamedAt(attributes: seq<Attribute>, k: nat, sid: bytes) {
    && k < |attributes| && attributes[k].id == SESSION_ID && attributes[k].required
    && Utf8.StrictText(attributes[k].value) == Some(sid) && sid != []
    && forall j :: 0 <= j < |attributes| && j != k ==>
         attributes[j].id != SESSION_ID && (attributes[j].required ==> IsOffer(attributes[j]))
  }

  lemma {:induction false} NoneById(attributes: seq<Attribute>, id: bytes)
    requires forall j :: 0 <= j < |attributes| ==> attributes[j].id != id
    ensures ById(attributes, id) == []
    decreases |attributes|
  {
    if attributes != [] {
      NoneById(attributes[1..], id);
    }
  }

  lemma {:induction false} OneById(attributes: seq<Attribute>, id: bytes, k: nat)
    requires k < |attributes| && attributes[k].id == id
    requires forall j :: 0 <= j < |attributes| && j != k ==> attributes[j].id != id
    ensures ById(attributes, id) == [attributes[k]]
    decreases |attributes|
  {
    var rest := attributes[1..];
    assert forall j :: 0 <= j < |rest| ==> rest[j] == attributes[j + 1];
    if k == 0 {
      NoneById(rest, id);
    } else {
      OneById(rest, id, k - 1);
    }
  }

  lemma {:induction false} SomeById(attributes: seq<Attribute>, id: bytes, j: nat)
    requires j < |attributes| && attributes[j].id == id
    ensures ById(attributes, id) != []
    decreases |attributes|
  {
    if j > 0 {
      SomeById(attributes[1..], id, j - 1);
    }
  }

  /** The only attribute with an id is where it is found. */
  lemma {:induction false} PlaceById(attributes: seq<Attribute>, id: bytes) returns (k: nat)
    requires |ById(attributes, id)| == 1
    ensures k < |attributes| && attributes[k].id == id && ById(attributes, id) == [attributes[k]]
    ensures forall j :: 0 <= j < |attributes| && j != k ==> attributes[j].id != id
    decreases |attributes|
  {
    var rest := attributes[1..];
    assert forall j :: 0 <= j < |rest| ==> rest[j] == attributes[j + 1];
    if attributes[0].id == id {
      k := 0;
      forall j | 0 <= j < |rest|
        ensures rest[j].id != id
      {
        if rest[j].id == id {
          SomeById(rest, id, j);
        }
      }
    } else {
      var there := PlaceById(rest, id);
      k := there + 1;
    }
  }

  /** A greeting is taken to be of this session if and only if it names it so. */
  lemma NamedIff(attributes: seq<Attribute>, sid: bytes)
    ensures SessionIdOf(attributes) == Some(sid) <==> exists k :: NamedAt(attributes, k, sid)
  {
    hide IsOffer;
    if SessionIdOf(attributes) == Some(sid) {
      var k := PlaceById(attributes, SESSION_ID);
      assert NamedAt(attributes, k, sid);
    }
    if k: nat :| NamedAt(attributes, k, sid) {
      OneById(attributes, SESSION_ID, k);
    }
  }

  // ---------------------------------------------------------------- the capabilities

  /** All that either side insists on is in a version that both have. */
  ghost predicate Meets(p: Party, offers: seq<Offer>) {
    && LocalOk(p.local)
    && (forall k :: 0 <= k < |offers| && offers[k].required ==> Shared(p.local, offers, offers[k].descriptor.id))
    && (forall id :: id in p.require ==> Shared(p.local, offers, id))
  }

  /** The offer of an id, when there is one for each. */
  lemma {:induction false} OnlyOffer(offers: seq<Offer>, k: nat)
    requires k < |offers|
    requires forall i, j :: 0 <= i < j < |offers| ==> offers[i].descriptor.id != offers[j].descriptor.id
    ensures FindOffer(offers, offers[k].descriptor.id) == Some(offers[k])
    decreases |offers|
  {
    var rest := offers[1..];
    assert forall j :: 0 <= j < |rest| ==> rest[j] == offers[j + 1];
    if k > 0 {
      OnlyOffer(rest, k - 1);
    } else {
      FindOfferIff(rest, offers[0].descriptor.id);
    }
  }

  lemma SharedKnown(local: seq<Descriptor>, offers: seq<Offer>, id: bytes)
    ensures Shared(local, offers, id) ==> FindLocal(local, id).Some? && FindOffer(offers, id).Some? && InOffers(offers, id)
  {
    FindOfferIff(offers, id);
  }

  /** A negotiation on offers of different capabilities, all that is required here being known here. */
  lemma NegotiationMeets(p: Party, offers: seq<Offer>)
    requires Distinct(offers, {}) && Offered(p)
    ensures Negotiate(p.local, offers, p.require).Agreed? <==> Meets(p, offers)
  {
    NegotiatesIff(p.local, offers, p.require);
    forall id
      ensures Shared(p.local, offers, id) ==>
        FindLocal(p.local, id).Some? && FindOffer(offers, id).Some? && InOffers(offers, id)
      ensures FindOffer(offers, id).Some? <==> InOffers(offers, id)
      ensures FindOffer(offers, id).Some? ==> FindOffer(offers, id).value in offers && FindOffer(offers, id).value.descriptor.id == id
    {
      SharedKnown(p.local, offers, id);
      FindOfferIff(offers, id);
    }
    forall k | 0 <= k < |offers|
      ensures FindOffer(offers, offers[k].descriptor.id) == Some(offers[k])
    {
      OnlyOffer(offers, k);
    }
    hide Negotiate, Shared, FindLocal, FindOffer, InOffers;
  }

  /** The limits that the offers announce. */
  predicate Announces(offers: seq<Offer>, a: PeerLimits.Announced) {
    && PeerLimits.Resolved(a)
    && exists k :: 0 <= k < |offers| && offers[k].descriptor.id == LIMITS_ID && offers[k].descriptor.parameters == PeerLimits.Encode(a)
  }

  /** The greeting offers what both sides insist on, and says what its side takes. */
  ghost predicate Suits(t: Terms, attributes: seq<Attribute>, offers: seq<Offer>, a: PeerLimits.Announced) {
    OffersAmong(attributes) == Spelled(offers) && Distinct(offers, {}) && Meets(t.party, offers) && Announces(offers, a)
  }

  lemma LimitsMeet(t: Terms, offers: seq<Offer>, settled: seq<Settled>, a: PeerLimits.Announced)
    requires Conforming(t) && Distinct(offers, {}) && Negotiate(t.party.local, offers, t.party.require) == Agreed(settled)
    ensures RemoteOf(settled, LIMITS_ID).Some?
    ensures Announces(offers, a) <==> PeerLimits.Decode(RemoteOf(settled, LIMITS_ID).value.parameters) == Some(a)
  {
    NegotiationMeets(t.party, offers);
    SharedIff(t.party.local, offers, LIMITS_ID);
    SettleRemote(t.party.local, offers, t.party.require, LIMITS_ID);
    FindOfferIff(offers, LIMITS_ID);
    var found := FindOffer(offers, LIMITS_ID).value;
    PeerLimits.AnnouncedIff(found.descriptor.parameters, a);
    forall k | 0 <= k < |offers| && offers[k].descriptor.id == LIMITS_ID
      ensures offers[k] == found
    {
      OnlyOffer(offers, k);
    }
    hide PeerLimits.Decode, PeerLimits.Encode, Conforming, Distinct, Settle, Shared, FindLocal;
  }

  /** What each side asks of a greeting's offers, for any configuration and any attributes. */
  lemma WelcomeMeets(p: Party, attributes: seq<Attribute>, offers: seq<Offer>)
    requires OffersAmong(attributes) == Spelled(offers) && Distinct(offers, {})
    ensures AcceptWelcome(p, attributes).Agreed? <==> Meets(p, offers)
    ensures AcceptWelcome(p, attributes).Agreed? ==> AcceptWelcome(p, attributes) == Negotiate(p.local, offers, p.require)
  {
    ParsedIff(attributes, {}, offers);
    var answer := Negotiate(p.local, offers, p.require);
    if answer.Agreed? {
      forall id
        ensures VersionOf(answer.settled, id).Some? <==> Shared(p.local, offers, id)
      {
        SettleMeans(p.local, offers, p.require, id);
        SharedIff(p.local, offers, id);
      }
      hide Negotiate, Shared, VersionOf, Distinct, Spelled, ParseOffers, OffersAmong;
      RequiredMeet(p, offers);
      if Meets(p, offers) {
        KnowsAll(p, offers);
      }
    } else if Meets(p, offers) {
      KnowsAll(p, offers);
      NegotiationMeets(p, offers);
    }
  }

  /** Meeting a configuration's demands takes a configuration that knows what it demands. */
  lemma KnowsAll(p: Party, offers: seq<Offer>)
    requires Meets(p, offers)
    ensures Offered(p)
  {
    forall id | id in p.require
      ensures FindLocal(p.local, id).Some?
    {
      SharedKnown(p.local, offers, id);
    }
    hide Shared, FindLocal;
  }

  lemma RequiredMeet(p: Party, offers: seq<Offer>)
    requires Distinct(offers, {}) && Negotiate(p.local, offers, p.require).Agreed?
    ensures (forall id :: id in p.require ==> Shared(p.local, offers, id)) <==> Meets(p, offers)
  {
    if forall id :: id in p.require ==> Shared(p.local, offers, id) {
      forall id | id in p.require
        ensures FindLocal(p.local, id).Some?
      {
        SharedKnown(p.local, offers, id);
      }
      assert Offered(p);
      NegotiationMeets(p, offers);
    }
    hide Negotiate, Shared, FindLocal, Distinct;
  }

  lemma HelloMeets(p: Party, attributes: seq<Attribute>, offers: seq<Offer>)
    requires OffersAmong(attributes) == Spelled(offers) && Distinct(offers, {}) && Offered(p)
    ensures AcceptHello(p, attributes).Agreed? <==> Meets(p, offers)
    ensures AcceptHello(p, attributes) == Negotiate(p.local, offers, p.require)
  {
    ParsedIff(attributes, {}, offers);
    NegotiationMeets(p, offers);
  }

  // ---------------------------------------------------------------- the greetings

  /**
   * Whoever sent it, a WELCOME makes an initiator ready if and only if it names the session, offers what either
   * side insists on in versions both have, announces limits, and the extensions attach. The limits for sending
   * are then those of both sides. Otherwise the initiator detaches, with an ERROR as it can write one.
   */
  lemma WelcomeJudged(t: Terms, sid: bytes, side: Side, f: Frame, answer: Answer)
    requires Conforming(t)
    ensures var taken := TakeWelcome(t, sid, side, f, answer);
      && taken.Taken?
      && (taken.side.phase.Ready? <==>
            && answer.attaches && (exists k :: NamedAt(f.attributes, k, sid))
            && exists offers, a :: Suits(t, f.attributes, offers, a))
      && (forall offers, a :: taken.side.phase.Ready? && Suits(t, f.attributes, offers, a) ==>
            taken.side.outbound == PeerLimits.Outbound(t.own.limits, a.limits) && taken.reply == [])
      && (!taken.side.phase.Ready? ==> taken.side.phase.Detached? && taken.reply == Posted(side, Refusal(2, answer)))
  {
    hide SessionIdOf, NamedAt, AcceptWelcome, LimitsFor, Suits, Posted, Conforming, PeerLimits.Outbound, Refusal;
    NamedIff(f.attributes, sid);
    WelcomeSuits(t, f.attributes);
  }

  lemma WelcomeSuits(t: Terms, attributes: seq<Attribute>)
    requires Conforming(t)
    ensures var outcome := AcceptWelcome(t.party, attributes);
      && (outcome.Agreed? && LimitsFor(t.own.limits, outcome.settled).Some? <==>
            exists offers, a :: Suits(t, attributes, offers, a))
      && (forall offers, a :: Suits(t, attributes, offers, a) ==>
            LimitsFor(t.own.limits, outcome.settled) == Some(PeerLimits.Outbound(t.own.limits, a.limits)))
  {
    var outcome := AcceptWelcome(t.party, attributes);
    forall offers, a | Suits(t, attributes, offers, a)
      ensures outcome.Agreed? && LimitsFor(t.own.limits, outcome.settled) == Some(PeerLimits.Outbound(t.own.limits, a.limits))
    {
      WelcomeMeets(t.party, attributes, offers);
      LimitsMeet(t, offers, outcome.settled, a);
    }
    if outcome.Agreed? && LimitsFor(t.own.limits, outcome.settled).Some? {
      var offers := ParseOffers(attributes, {}).value;
      ParsedIff(attributes, {}, offers);
      WelcomeMeets(t.party, attributes, offers);
      var a := PeerLimits.Decode(RemoteOf(outcome.settled, LIMITS_ID).value.parameters).value;
      LimitsMeet(t, offers, outcome.settled, a);
      assert Suits(t, attributes, offers, a);
    }
  }

  /** The WELCOME that an acceptor would answer these offers with. */
  function Answering(t: Terms, sid: bytes, offers: seq<Offer>): seq<Sent> {
    match Negotiate(t.party.local, offers, t.party.require)
    case Agreed(settled) => OnBootstrap(Greeting(WELCOME, sid, Welcome(t.party, settled)))
    case _ => []
  }

  /** What makes a HELLO acceptable: the same as a WELCOME, but for any session id, and that its answer fits. */
  ghost predicate Answerable(t: Terms, attributes: seq<Attribute>, k: nat, sid: bytes, offers: seq<Offer>, a: PeerLimits.Announced) {
    NamedAt(attributes, k, sid) && Suits(t, attributes, offers, a) && Answering(t, sid, offers) != []
  }

  /**
   * Whoever sent it, a HELLO makes an acceptor ready, and is answered with the WELCOME, if and only if it names a
   * session, offers what either side insists on in versions both have, announces limits, the extensions attach
   * and the WELCOME fits. Otherwise the acceptor detaches, with an ERROR if that fits.
   */
  lemma HelloJudged(t: Terms, side: Side, f: Frame, answer: Answer)
    requires Conforming(t) && side.phase.Connecting?
    ensures var taken := TakeHello(t, side, f, answer);
      && taken.Taken?
      && (taken.side.phase.Ready? <==>
            answer.attaches && exists k, sid, offers, a :: Answerable(t, f.attributes, k, sid, offers, a))
      && (forall k, sid, offers, a :: taken.side.phase.Ready? && Answerable(t, f.attributes, k, sid, offers, a) ==>
            && taken.side.outbound == PeerLimits.Outbound(t.own.limits, a.limits)
            && taken.reply == Answering(t, sid, offers))
      && (!taken.side.phase.Ready? ==> taken.side.phase.Detached? && taken.reply == OnBootstrap(Refusal(1, answer)))
  {
    hide SessionIdOf, NamedAt, AcceptHello, LimitsFor, Suits, Posted, Conforming, PeerLimits.Outbound, Negotiate,
         OnBootstrap, Welcome;
    PostedConnecting(side, Refusal(1, answer));
    HelloSuits(t, f.attributes);
    var outcome := AcceptHello(t.party, f.attributes);
    if SessionIdOf(f.attributes).Some? {
      var sid := SessionIdOf(f.attributes).value;
      NamedIff(f.attributes, sid);
      if outcome.Agreed? && LimitsFor(t.own.limits, outcome.settled).Some? {
        var limits := LimitsFor(t.own.limits, outcome.settled).value;
        var next := side.(settled := outcome.settled, outbound := limits);
        PostedConnecting(next, Greeting(WELCOME, sid, Welcome(t.party, outcome.settled)));
        PostedConnecting(next, Refusal(1, answer));
        var k: nat :| NamedAt(f.attributes, k, sid);
        var offers, a :| Suits(t, f.attributes, offers, a);
        assert Answering(t, sid, offers) != [] ==> Answerable(t, f.attributes, k, sid, offers, a);
      }
    }
    forall k, sid | NamedAt(f.attributes, k, sid)
      ensures SessionIdOf(f.attributes) == Some(sid)
    {
      NamedIff(f.attributes, sid);
    }
  }

  lemma HelloSuits(t: Terms, attributes: seq<Attribute>)
    requires Conforming(t)
    ensures var outcome := AcceptHello(t.party, attributes);
      && (outcome.Agreed? && LimitsFor(t.own.limits, outcome.settled).Some? <==>
            exists offers, a :: Suits(t, attributes, offers, a))
      && (forall offers, a :: Suits(t, attributes, offers, a) ==>
            && outcome == Negotiate(t.party.local, offers, t.party.require) && outcome.Agreed?
            && LimitsFor(t.own.limits, outcome.settled) == Some(PeerLimits.Outbound(t.own.limits, a.limits)))
  {
    var outcome := AcceptHello(t.party, attributes);
    forall offers, a | Suits(t, attributes, offers, a)
      ensures outcome == Negotiate(t.party.local, offers, t.party.require) && outcome.Agreed?
      ensures LimitsFor(t.own.limits, outcome.settled) == Some(PeerLimits.Outbound(t.own.limits, a.limits))
    {
      HelloMeets(t.party, attributes, offers);
      LimitsMeet(t, offers, outcome.settled, a);
    }
    if outcome.Agreed? && LimitsFor(t.own.limits, outcome.settled).Some? {
      var offers := ParseOffers(attributes, {}).value;
      ParsedIff(attributes, {}, offers);
      HelloMeets(t.party, attributes, offers);
      var a := PeerLimits.Decode(RemoteOf(outcome.settled, LIMITS_ID).value.parameters).value;
      LimitsMeet(t, offers, outcome.settled, a);
      assert Suits(t, attributes, offers, a);
    }
  }

  // ---------------------------------------------------------------- once

  /** The one frame that a connecting side waits for. */
  predicate Awaited(initiator: bool, f: Frame) { f.kind == if initiator then WELCOME else HELLO }

  /**
   * What a side takes: while it connects its greeting, once it is ready anything but a greeting, and a session
   * ERROR always. Everything else is untimely.
   */
  lemma TimelyIff(t: Terms, initiator: bool, sid: bytes, side: Side, f: Frame, answer: Answer)
    requires !side.phase.Detached?
    ensures Take(t, initiator, sid, side, f, answer).Taken? <==>
      || (f.kind == ERROR && f.streamId == 0)
      || (side.phase.Connecting? && Awaited(initiator, f))
      || (side.phase.Ready? && f.kind != HELLO && f.kind != WELCOME)
  {
    hide SessionIdOf, AcceptHello, AcceptWelcome, LimitsFor, Posted, Welcome;
  }

  ghost predicate SameTerms(before: Side, after: Side) {
    !before.phase.Connecting? ==> !after.phase.Connecting? && after.settled == before.settled && after.outbound == before.outbound
  }

  lemma TakeSettled(t: Terms, initiator: bool, sid: bytes, side: Side, f: Frame, answer: Answer)
    requires !side.phase.Connecting? && Take(t, initiator, sid, side, f, answer).Taken?
    ensures SameTerms(side, Take(t, initiator, sid, side, f, answer).side)
  {
    hide SessionIdOf, AcceptHello, AcceptWelcome, LimitsFor, Posted, Welcome;
  }

  lemma HappenSettled(i: Terms, a: Terms, sid: bytes, w: World, event: Event)
    requires Happen(i, a, sid, w, event).Went?
    ensures var next := Happen(i, a, sid, w, event).w; SameTerms(w.i, next.i) && SameTerms(w.a, next.a)
  {
    hide Take, Posted, ReadAs;
    if event.Read? {
      var side, lane := if event.byInitiator then w.i else w.a, if event.byInitiator then w.toI else w.toA;
      if !side.phase.Connecting? && lane != [] {
        var taken := Take(if event.byInitiator then i else a, event.byInitiator, sid, side, Shown(lane[0].frame), event.answer);
        if taken.Taken? {
          TakeSettled(if event.byInitiator then i else a, event.byInitiator, sid, side, Shown(lane[0].frame), event.answer);
        }
      }
    }
  }

  /** What was settled stays settled: no event of any run changes the capabilities or limits of a side that is ready. */
  lemma {:induction false} SettledForGood(i: Terms, a: Terms, sid: bytes, w: World, run: seq<Event>)
    requires Execute(i, a, sid, w, run).Went?
    ensures var end := Execute(i, a, sid, w, run).w; SameTerms(w.i, end.i) && SameTerms(w.a, end.a)
    decreases |run|
  {
    hide Happen;
    if run != [] {
      HappenSettled(i, a, sid, w, run[0]);
      SettledForGood(i, a, sid, Happen(i, a, sid, w, run[0]).w, run[1..]);
    }
  }
}
