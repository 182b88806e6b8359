/**
 * The handshake on the wire: which codec each side writes with and reads with, from the HELLO to the
 * frames of a ready session. What a side writes is kept beside its bytes, so that a run can tell
 * whether the reader made of them what the writer meant.
 */
module Handshakes {
  import opened Bytes
  import opened Frames
  import opened Capabilities
  import Utf8
  import Codec
  import Compact
  import PeerLimits

  const SESSION_ID := Compact.SESSION_ID

  /** "prp.core.limits" */
  const LIMITS_ID: bytes := [112, 114, 112, 46, 99, 111, 114, 101, 46, 108, 105, 109, 105, 116, 115]

  /** "prp.core.compact-frames" */
  const COMPACT_ID: bytes :=
    [112, 114, 112, 46, 99, 111, 114, 101, 46, 99, 111, 109, 112, 97, 99, 116, 45, 102, 114, 97, 109, 101, 115]

  /** The envelope both sides use before they know each other's limits. */
  const BOOTSTRAP := Limits(64 * 1024, 60 * 1024, 256, 1024, 16 * 1024)

  /** One side's configuration: its capabilities, and the limits it announces. */
  datatype Terms = Terms(party: Party, own: PeerLimits.Announced)

  /** What a runtime guarantees: the limits are offered and insisted on, with their announcement as parameters. */
  predicate Conforming(t: Terms) {
    && LocalOk(t.party.local) && Offered(t.party) && PeerLimits.Resolved(t.own)
    && LIMITS_ID in t.party.require
    && FindLocal(t.party.local, LIMITS_ID) == Some(Descriptor(LIMITS_ID, 1, 1, PeerLimits.Encode(t.own)))
  }

  predicate SessionIdOk(sid: bytes) { sid != [] && Utf8.Valid(sid) && !Utf8.HasBom(sid) }

  datatype Phase = Connecting | Ready | Detached

  datatype Side = Side(phase: Phase, settled: seq<Settled>, outbound: Limits)

  /** A frame as written, and its bytes. */
  datatype Sent = Sent(frame: Frame, raw: bytes)

  datatype World = World(i: Side, a: Side, toA: seq<Sent>, toI: seq<Sent>, greeted: bool)

  /** Whether the extensions of a side attach; if not, the code and message of its session ERROR. */
  datatype Answer = Answer(attaches: bool, code: bytes, message: bytes)

  datatype Event =
    | Greet
    | Write(byInitiator: bool, f: Frame)
    | Read(byInitiator: bool, answer: Answer)

  /** What a reader is to make of a frame: its strict text decoder drops a byte order mark that leads an id. */
  function Shown(f: Frame): Frame { f.(attributes := Codec.DecodedAll(f.attributes)) }

  /** The reader rejects the bytes or takes them for another frame; or the frame comes before its time. */
  datatype Mishap = Misread | Untimely

  datatype Next = Went(w: World) | Broke(why: Mishap)

  // ---------------------------------------------------------------- writing and reading

  predicate UsesCompact(settled: seq<Settled>) { VersionOf(settled, COMPACT_ID).Some? }

  /** The codec choice of `writeFrameNow`. */
  function Encoded(side: Side, f: Frame): Result<bytes> {
    var bootstrap := f.kind == HELLO || f.kind == WELCOME || (f.kind == ERROR && f.streamId == 0 && side.phase.Connecting?);
    if !bootstrap && side.phase.Ready? && UsesCompact(side.settled) then Compact.EncodeCompact(f, side.outbound)
    else Codec.EncodeFrame(f, if bootstrap then BOOTSTRAP else side.outbound)
  }

  /** The codec choice of `readLoop`; a compact frame that was not negotiated fails the legacy magic. */
  function ReadAs(side: Side, own: Limits, raw: bytes): Result<Frame> {
    if side.phase.Ready? && UsesCompact(side.settled) then Compact.DecodeCompact(raw, own)
    else Codec.DecodeFrame(raw, if side.phase.Connecting? then BOOTSTRAP else own)
  }

  function Posted(side: Side, f: Frame): seq<Sent> {
    var raw := Encoded(side, f);
    if raw.Ok? then [Sent(f, raw.value)] else []
  }

  // ---------------------------------------------------------------- the handshake frames

  function Greeting(kind: int, sid: bytes, offers: seq<Attribute>): Frame {
    Frame(kind, 0, 1, 0, 0, 0, [Attribute(SESSION_ID, sid, true)] + offers, [])
  }

  function Hello(t: Terms, sid: bytes): Frame {
    Greeting(HELLO, sid, ToAttributes(t.party.local, t.party.require))
  }

  function Refusal(sequence: nat, answer: Answer): Frame {
    Frame(ERROR, 0, sequence, 0, 0, 0, [Attribute(Compact.ERROR_CODE, answer.code, false)], answer.message)
  }

  function ById(attributes: seq<Attribute>, id: bytes): seq<Attribute>
    decreases |attributes|
  {
    if attributes == [] then []
    else (if attributes[0].id == id then [attributes[0]] else []) + ById(attributes[1..], id)
  }

  /** `validateHandshakeAttributes`. */
  function SessionIdOf(attributes: seq<Attribute>): Option<bytes> {
    var ids := ById(attributes, SESSION_ID);
    if |ids| != 1 || !ids[0].required then None
    else if exists k :: 0 <= k < |attributes| && attributes[k].required && attributes[k].id != SESSION_ID && !IsOffer(attributes[k])
    then None
    else
      var text := Utf8.StrictText(ids[0].value);
      if text.None? || text.value == [] then None else text
  }

  function RemoteOf(settled: seq<Settled>, id: bytes): Option<Descriptor>
    decreases |settled|
  {
    if settled == [] then None else if settled[0].id == id then Some(settled[0].remote) else RemoteOf(settled[1..], id)
  }

  /** `applyPeerLimits`. */
  function LimitsFor(own: Limits, settled: seq<Settled>): Option<Limits> {
    var remote := RemoteOf(settled, LIMITS_ID);
    if remote.None? then None
    else
      var theirs := PeerLimits.Decode(remote.value.parameters);
      if theirs.None? then None else Some(PeerLimits.Outbound(own, theirs.value.limits))
  }

  datatype Taken = Taken(side: Side, reply: seq<Sent>) | Early

  function Refuse(side: Side, sequence: nat, answer: Answer): Taken {
    Taken(side.(phase := Detached), Posted(side, Refusal(sequence, answer)))
  }

  /** `handleHello`. */
  function TakeHello(t: Terms, side: Side, f: Frame, answer: Answer): Taken {
    var sid, outcome := SessionIdOf(f.attributes), AcceptHello(t.party, f.attributes);
    if sid.None? || !outcome.Agreed? || LimitsFor(t.own.limits, outcome.settled).None? || !answer.attaches then
      Refuse(side, 1, answer)
    else
      SendWelcome(t, side.(settled := outcome.settled, outbound := LimitsFor(t.own.limits, outcome.settled).value),
                  sid.value, answer)
  }

  /** The WELCOME is written by a side that is still connecting; once it is out, the side is ready. */
  function SendWelcome(t: Terms, side: Side, sid: bytes, answer: Answer): Taken {
    var written := Posted(side, Greeting(WELCOME, sid, Welcome(t.party, side.settled)));
    if written == [] then Refuse(side, 1, answer) else Taken(side.(phase := Ready), written)
  }

  /** `handleWelcome`. */
  function TakeWelcome(t: Terms, sid: bytes, side: Side, f: Frame, answer: Answer): Taken {
    var echoed, outcome := SessionIdOf(f.attributes), AcceptWelcome(t.party, f.attributes);
    if echoed != Some(sid) || !outcome.Agreed? || LimitsFor(t.own.limits, outcome.settled).None? || !answer.attaches then
      Refuse(side, 2, answer)
    else
      Taken(side.(phase := Ready, settled := outcome.settled, outbound := LimitsFor(t.own.limits, outcome.settled).value), [])
  }

  /** `handleFrame`, as far as the handshake goes; the rest is the business of a ready session. */
  function Take(t: Terms, initiator: bool, sid: bytes, side: Side, f: Frame, answer: Answer): Taken {
    if f.kind == HELLO then
      if initiator || !side.phase.Connecting? then Early else TakeHello(t, side, f, answer)
    else if f.kind == WELCOME then
      if !initiator || !side.phase.Connecting? then Early else TakeWelcome(t, sid, side, f, answer)
    else if f.kind == ERROR && f.streamId == 0 then Taken(side.(phase := Detached), [])
    else if !side.phase.Ready? then Early
    else if f.kind == CLOSE then Taken(side.(phase := Detached), [])
    else Taken(side, [])
  }

  function Happen(i: Terms, a: Terms, sid: bytes, w: World, event: Event): Next {
    match event
    case Greet =>
      if w.greeted || !w.i.phase.Connecting? then Went(w)
      else
        var hello := Posted(w.i, Hello(i, sid));
        if hello == [] then Went(w.(i := w.i.(phase := Detached), greeted := true))
        else Went(w.(toA := w.toA + hello, greeted := true))
    case Write(byInitiator, f) =>
      var side := if byInitiator then w.i else w.a;
      if !side.phase.Ready? || !Compact.PostHandshake(f.kind) then Went(w)
      else if byInitiator then Went(w.(toA := w.toA + Posted(side, f)))
      else Went(w.(toI := w.toI + Posted(side, f)))
    case Read(byInitiator, answer) =>
      var side, own := if byInitiator then w.i else w.a, if byInitiator then i else a;
      var lane := if byInitiator then w.toI else w.toA;
      if side.phase.Detached? || lane == [] then Went(w)
      else if ReadAs(side, own.own.limits, lane[0].raw) != Ok(Shown(lane[0].frame)) then Broke(Misread)
      else
        match Take(own, byInitiator, sid, side, Shown(lane[0].frame), answer)
        case Early => Broke(Untimely)
        case Taken(next, reply) =>
          if byInitiator then Went(w.(i := next, toI := w.toI[1..], toA := w.toA + reply))
          else Went(w.(a := next, toA := w.toA[1..], toI := w.toI + reply))
  }

  function Execute(i: Terms, a: Terms, sid: bytes, w: World, run: seq<Event>): Next
    decreases |run|
  {
    if run == [] then Went(w)
    else
      match Happen(i, a, sid, w, run[0])
      case Broke(why) => Broke(why)
      case Went(next) => Execute(i, a, sid, next, run[1..])
  }

  function Begin(i: Terms, a: Terms): World {
    World(Side(Connecting, [], i.own.limits), Side(Connecting, [], a.own.limits), [], [], false)
  }

  // ---------------------------------------------------------------- what both sides come to

  /** The acceptor's settlement, a function of the two configurations. */
  function Accord(i: Terms, a: Terms): Outcome { AcceptHello(a.party, ToAttributes(i.party.local, i.party.require)) }

  predicate InAccord(i: Terms, a: Terms, side: Side, mine: Terms, theirs: Terms) {
    && Accord(i, a).Agreed?
    && UsesCompact(side.settled) == UsesCompact(Accord(i, a).settled)
    && side.outbound == PeerLimits.Outbound(mine.own.limits, theirs.own.limits)
  }

  predicate ReadsBack(s: Sent, compact: bool, own: Limits) {
    && Compact.PostHandshake(s.frame.kind)
    && (if compact then Compact.DecodeCompact(s.raw, own) else Codec.DecodeFrame(s.raw, own)) == Ok(Shown(s.frame))
  }

  predicate AllReadBack(lane: seq<Sent>, compact: bool, own: Limits) {
    forall k :: 0 <= k < |lane| ==> ReadsBack(lane[k], compact, own)
  }

  predicate Opens(s: Sent, f: Frame) { s.frame == f == Shown(f) && Codec.DecodeFrame(s.raw, BOOTSTRAP) == Ok(f) }

  /** A session ERROR of a side that gave up while connecting. */
  predicate GivesUp(s: Sent) {
    s.frame.kind == ERROR && s.frame.streamId == 0 && Codec.DecodeFrame(s.raw, BOOTSTRAP) == Ok(Shown(s.frame))
  }

  lemma {:induction false} SettleRemote(local: seq<Descriptor>, offers: seq<Offer>, require: set<bytes>, id: bytes)
    requires DistinctIds(local) && Settle(local, offers, require).Some?
    ensures RemoteOf(Settle(local, offers, require).value, id)
         == if Common(local, offers, id).None? then None else Some(FindOffer(offers, id).value.descriptor)
    decreases |local|
  {
    if local != [] {
      SettleRemote(local[1..], offers, require, id);
      FirstOnly(local);
      var found := FindOffer(offers, local[0].id);
      if found.Some? && Overlap(local[0], found.value.descriptor) {
        var settled := Settle(local, offers, require).value;
        assert settled[1..] == Settle(local[1..], offers, require).value;
      }
    }
  }

  lemma {:induction false} NarrowedParameters(local: seq<Descriptor>, offers: seq<Offer>, require: set<bytes>, id: bytes)
    requires DistinctIds(local) && Settle(local, offers, require).Some?
    ensures var d := FindLocal(Narrowed(Settle(local, offers, require).value), id);
      d.Some? ==> FindLocal(local, id).Some? && d.value.parameters == FindLocal(local, id).value.parameters
    decreases |local|
  {
    if local != [] {
      NarrowedParameters(local[1..], offers, require, id);
      FirstOnly(local);
      FindLocalMeans(local[1..], id);
      var settled := Settle(local, offers, require).value;
      var rest := Settle(local[1..], offers, require).value;
      if settled != rest {
        assert Narrowed(settled)[1..] == Narrowed(rest);
      }
    }
  }

  // ---------------------------------------------------------------- the greetings carry what they say

  lemma {:induction false} OffersAreNoIds(ds: seq<Descriptor>, require: set<bytes>)
    ensures ById(ToAttributes(ds, require), SESSION_ID) == []
    ensures forall k :: 0 <= k < |ds| ==> IsOffer(ToAttributes(ds, require)[k]) && ToAttributes(ds, require)[k].id[4] == 99
    decreases |ds|
  {
    if ds != [] {
      assert ToAttributes(ds, require)[1..] == ToAttributes(ds[1..], require);
      OffersAreNoIds(ds[1..], require);
      assert (PREFIX + ds[0].id)[4] == PREFIX[4] && SESSION_ID[4] == 115;
      forall k | 0 <= k < |ds|
        ensures IsOffer(ToAttributes(ds, require)[k]) && ToAttributes(ds, require)[k].id[4] == 99
      {
        assert (PREFIX + ds[k].id)[..|PREFIX|] == PREFIX;
      }
    }
  }

  /** The session id of a greeting is found, and nothing in it is an unknown required attribute. */
  lemma GreetingNamed(sid: bytes, ds: seq<Descriptor>, require: set<bytes>)
    requires SessionIdOk(sid)
    ensures SessionIdOf([Attribute(SESSION_ID, sid, true)] + ToAttributes(ds, require)) == Some(sid)
  {
    var first, offers := Attribute(SESSION_ID, sid, true), ToAttributes(ds, require);
    OffersAreNoIds(ds, require);
    assert ([first] + offers)[1..] == offers;
    assert [first] + [] == [first];
    forall k | 0 <= k < |[first] + offers|
      ensures ([first] + offers)[k].id == SESSION_ID || IsOffer(([first] + offers)[k])
    {
      if k > 0 {
        assert ([first] + offers)[k] == offers[k - 1];
      }
    }
  }

  lemma GreetingOffers(sid: bytes, ds: seq<Descriptor>, require: set<bytes>)
    ensures ParseOffers([Attribute(SESSION_ID, sid, true)] + ToAttributes(ds, require), {})
         == ParseOffers(ToAttributes(ds, require), {})
  {
    assert SESSION_ID[4] != PREFIX[4];
    ParseSkips(Attribute(SESSION_ID, sid, true), ToAttributes(ds, require));
  }

  lemma GreetingRead(side: Side, kind: int, sid: bytes, ds: seq<Descriptor>, require: set<bytes>)
    requires kind == HELLO || kind == WELCOME
    ensures var f := Greeting(kind, sid, ToAttributes(ds, require));
      forall s :: s in Posted(side, f) ==> Opens(s, f)
  {
    var f := Greeting(kind, sid, ToAttributes(ds, require));
    OffersAreNoIds(ds, require);
    forall k | 0 <= k < |f.attributes|
      ensures !Utf8.HasBom(f.attributes[k].id)
    {
      assert PREFIX[0] == SESSION_ID[0] != Utf8.BOM[0];
      if k > 0 {
        assert f.attributes[k] == ToAttributes(ds, require)[k - 1];
        assert f.attributes[k].id[0] == PREFIX[0];
      }
    }
    Codec.DecodedArea(f.attributes);
    hide Codec.EncodeFrame, Codec.DecodeFrame;
    if Posted(side, f) != [] {
      Codec.DecodeEncodedIff(f, BOOTSTRAP, BOOTSTRAP);
    }
  }

  lemma RefusalRead(side: Side, sequence: nat, answer: Answer)
    requires side.phase.Connecting?
    ensures var q := Posted(side, Refusal(sequence, answer)); q == [] || (|q| == 1 && GivesUp(q[0]))
  {
    var f := Refusal(sequence, answer);
    assert Compact.ERROR_CODE[0] != Utf8.BOM[0];
    Codec.DecodedArea(f.attributes);
    hide Codec.EncodeFrame, Codec.DecodeFrame;
    if Posted(side, f) != [] {
      Codec.DecodeEncodedIff(f, BOOTSTRAP, BOOTSTRAP);
    }
  }

  // ---------------------------------------------------------------- both ends of the handshake

  /** The limits capability is insisted on, so it is settled whenever anything is. */
  lemma LimitsSettled(i: Terms, a: Terms)
    requires Conforming(i) && Conforming(a) && Accord(i, a).Agreed?
    ensures VersionOf(Accord(i, a).settled, LIMITS_ID).Some?
    ensures LimitsFor(a.own.limits, Accord(i, a).settled) == Some(PeerLimits.Outbound(a.own.limits, i.own.limits))
  {
    var settled := Accord(i, a).settled;
    ParseWritten(i.party.local, i.party.require, {});
    var offered := Offers(i.party.local, i.party.require);
    hide Settle, ParseOffers;
    RequiredSettled(i.party, a.party, settled, LIMITS_ID);
    SettleMeans(a.party.local, offered, a.party.require, LIMITS_ID);
    SettleRemote(a.party.local, offered, a.party.require, LIMITS_ID);
    FindOfferWritten(i.party.local, i.party.require, LIMITS_ID);
    PeerLimits.AnnouncementRoundTrip(i.own);
  }

  /** What the initiator makes of the WELCOME that follows. */
  lemma WelcomeSettled(i: Terms, a: Terms)
    requires Conforming(i) && Conforming(a) && Accord(i, a).Agreed?
    ensures var answer := AcceptWelcome(i.party, Welcome(a.party, Accord(i, a).settled));
      && answer.Agreed?
      && UsesCompact(answer.settled) == UsesCompact(Accord(i, a).settled)
      && LimitsFor(i.own.limits, answer.settled) == Some(PeerLimits.Outbound(i.own.limits, a.own.limits))
  {
    var settled := Accord(i, a).settled;
    var answer := AcceptWelcome(i.party, Welcome(a.party, settled));
    var offered := Offers(i.party.local, i.party.require);
    ParseWritten(i.party.local, i.party.require, {});
    HandshakeAgrees(i.party, a.party);
    NarrowedOk(a.party.local, offered, a.party.require);
    ParseWritten(Narrowed(settled), a.party.require, {});
    var back := Offers(Narrowed(settled), a.party.require);
    hide Settle, ParseOffers;
    LimitsSettled(i, a);
    CommonAgrees(i.party, a.party, settled, LIMITS_ID);
    SettleRemote(i.party.local, back, i.party.require, LIMITS_ID);
    FindOfferWritten(Narrowed(settled), a.party.require, LIMITS_ID);
    NarrowedParameters(a.party.local, offered, a.party.require, LIMITS_ID);
    PeerLimits.AnnouncementRoundTrip(a.own);
  }

  // ---------------------------------------------------------------- runs

  predicate Compacted(i: Terms, a: Terms) { Accord(i, a).Agreed? && UsesCompact(Accord(i, a).settled) }

  predicate WelcomeAhead(i: Terms, a: Terms, sid: bytes, toI: seq<Sent>) {
    && Accord(i, a).Agreed? && toI != []
    && Opens(toI[0], Greeting(WELCOME, sid, Welcome(a.party, Accord(i, a).settled)))
    && AllReadBack(toI[1..], Compacted(i, a), i.own.limits)
  }

  /** What the lane to the acceptor can hold, by the acceptor's phase. */
  predicate LaneToA(i: Terms, a: Terms, sid: bytes, w: World) {
    match w.a.phase
    case Connecting => w.toI == [] && (w.toA == [] || (|w.toA| == 1 && w.greeted && Opens(w.toA[0], Hello(i, sid))))
    case Ready => InAccord(i, a, w.a, a, i) && AllReadBack(w.toA, Compacted(i, a), a.own.limits)
    case Detached => true
  }

  /** What the lane to the initiator can hold, by the phases of both. */
  predicate LaneToI(i: Terms, a: Terms, sid: bytes, w: World) {
    match w.i.phase
    case Connecting =>
      (match w.a.phase
       case Connecting => w.greeted || w.toA == []
       case Ready => w.greeted && w.toA == [] && WelcomeAhead(i, a, sid, w.toI)
       case Detached => w.greeted && (w.toI == [] || (|w.toI| == 1 && GivesUp(w.toI[0]))))
    case Ready => !w.a.phase.Connecting? && InAccord(i, a, w.i, i, a) && AllReadBack(w.toI, Compacted(i, a), i.own.limits)
    case Detached => true
  }

  predicate Inv(i: Terms, a: Terms, sid: bytes, w: World) { LaneToA(i, a, sid, w) && LaneToI(i, a, sid, w) }

  /** Some version of compact frames lies in the range each side offered. */
  ghost predicate BothOffer(i: Terms, a: Terms) {
    exists v: nat :: Capabilities.Within(i.party.local, COMPACT_ID, v) && Capabilities.Within(a.party.local, COMPACT_ID, v)
  }

  lemma CompactSettled(i: Terms, a: Terms)
    requires Conforming(i) && Accord(i, a).Agreed?
    ensures UsesCompact(Accord(i, a).settled) <==> BothOffer(i, a)
  {
    HandshakeAgrees(i.party, a.party);
    hide Accord;
    var version := VersionOf(Accord(i, a).settled, COMPACT_ID);
    assert Best(i.party, a.party, COMPACT_ID, version);
    if version.Some? {
      assert Capabilities.Within(i.party.local, COMPACT_ID, version.value);
    }
  }

  /** An id that is nothing but a byte order mark is refused in the original format, and there alone. */
  ghost predicate Legible(i: Terms, a: Terms, f: Frame) { Codec.NoBareBoms(f.attributes) || BothOffer(i, a) }

  /** A frame written by a ready side reads back on the other, whichever codec was settled. */
  lemma WrittenReadsBack(i: Terms, a: Terms, side: Side, mine: Terms, theirs: Terms, f: Frame)
    requires Conforming(i) && PeerLimits.Resolved(mine.own) && PeerLimits.Resolved(theirs.own)
    requires side.phase.Ready? && InAccord(i, a, side, mine, theirs)
    requires Compact.PostHandshake(f.kind) && Legible(i, a, f)
    ensures AllReadBack(Posted(side, f), Compacted(i, a), theirs.own.limits)
  {
    hide Codec.EncodeFrame, Codec.DecodeFrame, Compact.EncodeCompact, Compact.DecodeCompact, Accord, BothOffer, Codec.NoBareBoms;
    PeerLimits.OutboundWithin(mine.own.limits, theirs.own.limits);
    CompactSettled(i, a);
    if Posted(side, f) != [] {
      if UsesCompact(side.settled) {
        Compact.DecodeCompactEncoded(f, side.outbound, theirs.own.limits);
      } else {
        Codec.DecodeEncoded(f, side.outbound, theirs.own.limits);
      }
    }
  }

  lemma HelloTaken(i: Terms, a: Terms, sid: bytes, side: Side, answer: Answer)
    requires Conforming(i) && Conforming(a) && SessionIdOk(sid) && side.phase.Connecting?
    ensures var taken := TakeHello(a, side, Hello(i, sid), answer);
      && taken.Taken?
      && (taken.side.phase.Ready? ==> InAccord(i, a, taken.side, a, i) && WelcomeAhead(i, a, sid, taken.reply))
      && (!taken.side.phase.Ready? ==>
            taken.side.phase.Detached? && (taken.reply == [] || (|taken.reply| == 1 && GivesUp(taken.reply[0]))))
  {
    GreetingNamed(sid, i.party.local, i.party.require);
    GreetingOffers(sid, i.party.local, i.party.require);
    RefusalRead(side, 1, answer);
    assert AcceptHello(a.party, Hello(i, sid).attributes) == Accord(i, a);
    if Accord(i, a).Agreed? {
      LimitsSettled(i, a);
      var settled := Accord(i, a).settled;
      hide Accord, AcceptHello, SessionIdOf, LimitsFor, SendWelcome, Posted, Conforming;
      WelcomeSent(i, a, sid, side.(settled := settled, outbound := LimitsFor(a.own.limits, settled).value), answer);
    }
  }

  lemma WelcomeSent(i: Terms, a: Terms, sid: bytes, side: Side, answer: Answer)
    requires Accord(i, a).Agreed? && side.phase.Connecting? && side.settled == Accord(i, a).settled
    requires side.outbound == PeerLimits.Outbound(a.own.limits, i.own.limits)
    ensures var taken := SendWelcome(a, side, sid, answer);
      && taken.Taken?
      && (taken.side.phase.Ready? ==> InAccord(i, a, taken.side, a, i) && WelcomeAhead(i, a, sid, taken.reply))
      && (!taken.side.phase.Ready? ==>
            taken.side.phase.Detached? && (taken.reply == [] || (|taken.reply| == 1 && GivesUp(taken.reply[0]))))
  {
    hide Accord, Encoded, GivesUp, Opens, Refusal, Narrowed, ToAttributes;
    RefusalRead(side, 1, answer);
    GreetingRead(side, WELCOME, sid, Narrowed(side.settled), a.party.require);
    var written := Posted(side, Greeting(WELCOME, sid, Welcome(a.party, side.settled)));
    assert |written| <= 1;
    if written != [] {
      assert written[1..] == [] && written[0] in written;
    }
  }

  lemma WelcomeTaken(i: Terms, a: Terms, sid: bytes, side: Side, answer: Answer)
    requires Conforming(i) && Conforming(a) && SessionIdOk(sid) && Accord(i, a).Agreed? && answer.attaches
    ensures var taken := TakeWelcome(i, sid, side, Greeting(WELCOME, sid, Welcome(a.party, Accord(i, a).settled)), answer);
      taken.Taken? && taken.side.phase.Ready? && taken.reply == [] && InAccord(i, a, taken.side, i, a)
  {
    var settled := Accord(i, a).settled;
    GreetingNamed(sid, Narrowed(settled), a.party.require);
    GreetingOffers(sid, Narrowed(settled), a.party.require);
    WelcomeSettled(i, a);
  }

  /** A handshake frame as it goes out, if it can. */
  function OnBootstrap(f: Frame): seq<Sent> {
    var raw := Codec.EncodeFrame(f, BOOTSTRAP);
    if raw.Ok? then [Sent(f, raw.value)] else []
  }

  lemma PostedConnecting(side: Side, f: Frame)
    requires side.phase.Connecting? && (f.kind == WELCOME || (f.kind == ERROR && f.streamId == 0))
    ensures Posted(side, f) == OnBootstrap(f)
  {
    hide Codec.EncodeFrame, Compact.EncodeCompact;
  }

  /**
   * A HELLO makes the acceptor ready if and only if the two configurations agree, its extensions attach and
   * its WELCOME fits; then that is its answer. Otherwise it detaches, and its answer is an ERROR, if that fits.
   */
  lemma HelloReadyIff(i: Terms, a: Terms, sid: bytes, side: Side, answer: Answer)
    requires Conforming(i) && Conforming(a) && SessionIdOk(sid) && side.phase.Connecting?
    ensures var taken := TakeHello(a, side, Hello(i, sid), answer);
      && taken.Taken?
      && (if Accord(i, a).Agreed? && answer.attaches
             && OnBootstrap(Greeting(WELCOME, sid, Welcome(a.party, Accord(i, a).settled))) != []
          then
            && taken.side.phase.Ready? && taken.side.settled == Accord(i, a).settled
            && taken.reply == OnBootstrap(Greeting(WELCOME, sid, Welcome(a.party, Accord(i, a).settled)))
          else taken.side.phase.Detached? && taken.reply == OnBootstrap(Refusal(1, answer)))
  {
    hide Conforming, Accord, AcceptHello, SessionIdOf, LimitsFor, Welcome, Posted, OnBootstrap, PeerLimits.Outbound;
    GreetingNamed(sid, i.party.local, i.party.require);
    GreetingOffers(sid, i.party.local, i.party.require);
    HelloMeans(i, a, sid);
    PostedConnecting(side, Refusal(1, answer));
    if Accord(i, a).Agreed? {
      LimitsSettled(i, a);
      var settled := Accord(i, a).settled;
      var next := side.(settled := settled, outbound := LimitsFor(a.own.limits, settled).value);
      PostedConnecting(next, Greeting(WELCOME, sid, Welcome(a.party, settled)));
      PostedConnecting(next, Refusal(1, answer));
    }
  }

  lemma HelloMeans(i: Terms, a: Terms, sid: bytes)
    ensures AcceptHello(a.party, Hello(i, sid).attributes) == Accord(i, a)
  {
    GreetingOffers(sid, i.party.local, i.party.require);
  }

  /**
   * Whether the acceptor, ready already, can read the ERROR of an initiator whose extensions do not attach:
   * the frame is in the original format, and the acceptor's own limits apply to it.
   */
  ghost predicate Audible(i: Terms, a: Terms, answer: Answer) {
    Codec.EncodeFrame(Refusal(2, answer), BOOTSTRAP).Ok? ==>
      !BothOffer(i, a) && Codec.EncodeFrame(Refusal(2, answer), a.own.limits).Ok?
  }

  ghost predicate Smooth(i: Terms, a: Terms, event: Event) {
    && (event.Write? ==> Legible(i, a, event.f))
    && (event.Read? && event.byInitiator ==> event.answer.attaches || Audible(i, a, event.answer))
  }

  lemma GreetKeeps(i: Terms, a: Terms, sid: bytes, w: World)
    requires Inv(i, a, sid, w)
    ensures Happen(i, a, sid, w, Greet).Went? && Inv(i, a, sid, Happen(i, a, sid, w, Greet).w)
  {
    if !w.greeted && w.i.phase.Connecting? {
      GreetingRead(w.i, HELLO, sid, i.party.local, i.party.require);
      hide Accord, Codec.EncodeFrame, Codec.DecodeFrame;
      var hello := Posted(w.i, Hello(i, sid));
      if hello != [] {
        assert hello[0] in hello && w.toA + hello == hello;
      }
    }
  }

  lemma ReadBackMore(lane: seq<Sent>, more: seq<Sent>, compact: bool, own: Limits)
    requires AllReadBack(lane, compact, own) && AllReadBack(more, compact, own)
    ensures AllReadBack(lane + more, compact, own)
    ensures lane != [] ==> AllReadBack(lane[1..], compact, own)
  {
    hide ReadsBack;
  }

  lemma WriteKeeps(i: Terms, a: Terms, sid: bytes, w: World, event: Event)
    requires Conforming(i) && Conforming(a) && Inv(i, a, sid, w) && event.Write? && Smooth(i, a, event)
    ensures Happen(i, a, sid, w, event).Went? && Inv(i, a, sid, Happen(i, a, sid, w, event).w)
  {
    hide Accord, Encoded, ReadsBack, Opens, GivesUp, ToAttributes, Narrowed, Legible, Shown;
    var side := if event.byInitiator then w.i else w.a;
    if side.phase.Ready? && Compact.PostHandshake(event.f.kind) {
      if event.byInitiator {
        WrittenReadsBack(i, a, w.i, i, a, event.f);
      } else {
        WrittenReadsBack(i, a, w.a, a, i, event.f);
      }
      hide Posted;
      var posted := Posted(side, event.f);
      if w.a.phase.Ready? && event.byInitiator {
        ReadBackMore(w.toA, posted, Compacted(i, a), a.own.limits);
      } else if !event.byInitiator {
        if w.i.phase.Ready? {
          ReadBackMore(w.toI, posted, Compacted(i, a), i.own.limits);
        } else if w.i.phase.Connecting? {
          assert (w.toI + posted)[1..] == w.toI[1..] + posted;
          ReadBackMore(w.toI[1..], posted, Compacted(i, a), i.own.limits);
        }
      }
    }
  }

  lemma AcceptorReads(i: Terms, a: Terms, sid: bytes, w: World, answer: Answer)
    requires Conforming(i) && Conforming(a) && SessionIdOk(sid) && Inv(i, a, sid, w)
    ensures var next := Happen(i, a, sid, w, Read(false, answer)); next.Went? && Inv(i, a, sid, next.w)
  {
    hide Accord, TakeHello, TakeWelcome, Codec.DecodeFrame, Compact.DecodeCompact, ToAttributes;
    if w.a.phase.Connecting? && w.toA != [] {
      HelloTaken(i, a, sid, w.a, answer);
      assert w.toA[1..] == [];
      var reply := TakeHello(a, w.a, Hello(i, sid), answer).reply;
      assert w.toI + reply == reply;
    } else if w.a.phase.Ready? && w.toA != [] {
      assert ReadsBack(w.toA[0], Compacted(i, a), a.own.limits);
      ReadBackMore(w.toA, [], Compacted(i, a), a.own.limits);
      assert w.toI + [] == w.toI;
    }
  }

  lemma InitiatorReads(i: Terms, a: Terms, sid: bytes, w: World, answer: Answer)
    requires Conforming(i) && Conforming(a) && SessionIdOk(sid) && Inv(i, a, sid, w)
    requires answer.attaches || Audible(i, a, answer)
    ensures var next := Happen(i, a, sid, w, Read(true, answer)); next.Went? && Inv(i, a, sid, next.w)
  {
    hide Accord, TakeHello, TakeWelcome, Codec.DecodeFrame, Compact.DecodeCompact, ToAttributes, Narrowed, Audible;
    assert w.toA + [] == w.toA;
    if w.i.phase.Connecting? && w.toI != [] {
      if w.a.phase.Ready? {
        if answer.attaches {
          WelcomeRead(i, a, sid, w, answer);
        } else {
          WelcomeRefused(i, a, sid, w, answer);
        }
      }
    } else if w.i.phase.Ready? && w.toI != [] {
      assert ReadsBack(w.toI[0], Compacted(i, a), i.own.limits);
      ReadBackMore(w.toI, [], Compacted(i, a), i.own.limits);
    }
  }

  lemma WelcomeRead(i: Terms, a: Terms, sid: bytes, w: World, answer: Answer)
    requires Conforming(i) && Conforming(a) && SessionIdOk(sid) && Inv(i, a, sid, w) && answer.attaches
    requires w.i.phase.Connecting? && w.a.phase.Ready?
    ensures var next := Happen(i, a, sid, w, Read(true, answer)); next.Went? && Inv(i, a, sid, next.w)
  {
    hide Accord, TakeHello, TakeWelcome, Codec.DecodeFrame, Compact.DecodeCompact, ToAttributes, Narrowed;
    WelcomeTaken(i, a, sid, w.i, answer);
    assert w.toA + [] == w.toA;
  }

  /** The frame of the refusal, if its side could write it. */
  function LateRefusal(answer: Answer): seq<Sent> {
    var raw := Codec.EncodeFrame(Refusal(2, answer), BOOTSTRAP);
    if raw.Ok? then [Sent(Refusal(2, answer), raw.value)] else []
  }

  lemma RefusedLate(i: Terms, a: Terms, sid: bytes, w: World, answer: Answer)
    requires Inv(i, a, sid, w) && w.i.phase.Connecting? && w.a.phase.Ready? && !answer.attaches
    ensures var refused := Happen(i, a, sid, w, Read(true, answer));
      && refused.Went? && refused.w.i.phase.Detached? && refused.w.a == w.a
      && refused.w.toA == LateRefusal(answer)
  {
    hide Accord, TakeHello, AcceptWelcome, SessionIdOf, LimitsFor, ToAttributes, Narrowed;
    hide Codec.EncodeFrame, Codec.DecodeFrame, Compact.DecodeCompact, Compact.EncodeCompact;
    assert Posted(w.i, Refusal(2, answer)) == LateRefusal(answer);
    assert w.toA + LateRefusal(answer) == LateRefusal(answer);
  }

  lemma RefusalReadsBack(i: Terms, a: Terms, answer: Answer)
    requires Conforming(i) && Conforming(a) && Accord(i, a).Agreed? && Audible(i, a, answer)
    ensures AllReadBack(LateRefusal(answer), Compacted(i, a), a.own.limits)
  {
    hide Accord, BothOffer, Codec.EncodeFrame, Codec.DecodeFrame, Compact.DecodeCompact;
    var f := Refusal(2, answer);
    RefusalIsPlain(answer);
    CompactSettled(i, a);
    if LateRefusal(answer) != [] {
      Codec.AcceptedIffFits(f, BOOTSTRAP, a.own.limits);
    }
  }

  lemma RefusalIsPlain(answer: Answer)
    ensures var f := Refusal(2, answer); Codec.NoBareBoms(f.attributes) && Codec.NoBoms(f.attributes) && Shown(f) == f
  {
    var f := Refusal(2, answer);
    assert Compact.ERROR_CODE[0] != Utf8.BOM[0];
    Codec.DecodedArea(f.attributes);
  }

  lemma WelcomeRefused(i: Terms, a: Terms, sid: bytes, w: World, answer: Answer)
    requires Conforming(i) && Conforming(a) && Inv(i, a, sid, w) && !answer.attaches && Audible(i, a, answer)
    requires w.i.phase.Connecting? && w.a.phase.Ready?
    ensures var next := Happen(i, a, sid, w, Read(true, answer)); next.Went? && Inv(i, a, sid, next.w)
  {
    hide Accord, Happen, Audible, LateRefusal, ReadsBack, Opens;
    RefusedLate(i, a, sid, w, answer);
    RefusalReadsBack(i, a, answer);
  }

  lemma {:induction false} ExecuteKeeps(i: Terms, a: Terms, sid: bytes, w: World, run: seq<Event>)
    requires Conforming(i) && Conforming(a) && SessionIdOk(sid) && Inv(i, a, sid, w)
    requires forall k :: 0 <= k < |run| ==> Smooth(i, a, run[k])
    ensures Execute(i, a, sid, w, run).Went? && Inv(i, a, sid, Execute(i, a, sid, w, run).w)
    decreases |run|
  {
    hide Inv, Happen, Conforming, Smooth;
    if run != [] {
      HappenKeeps(i, a, sid, w, run[0]);
      ExecuteKeeps(i, a, sid, Happen(i, a, sid, w, run[0]).w, run[1..]);
    }
  }

  lemma HappenKeeps(i: Terms, a: Terms, sid: bytes, w: World, event: Event)
    requires Conforming(i) && Conforming(a) && SessionIdOk(sid) && Inv(i, a, sid, w) && Smooth(i, a, event)
    ensures Happen(i, a, sid, w, event).Went? && Inv(i, a, sid, Happen(i, a, sid, w, event).w)
  {
    hide Inv, Happen, Conforming;
    match event
    case Greet => GreetKeeps(i, a, sid, w);
    case Write(byInitiator, f) => WriteKeeps(i, a, sid, w, event);
    case Read(byInitiator, answer) =>
      if byInitiator {
        InitiatorReads(i, a, sid, w, answer);
      } else {
        AcceptorReads(i, a, sid, w, answer);
      }
  }

  lemma BeginKeeps(i: Terms, a: Terms, sid: bytes)
    ensures Inv(i, a, sid, Begin(i, a))
  {
    hide Accord;
  }

  lemma ReadySides(i: Terms, a: Terms, sid: bytes, w: World)
    requires Conforming(i) && Conforming(a) && Inv(i, a, sid, w) && w.i.phase.Ready? && w.a.phase.Ready?
    ensures (UsesCompact(w.i.settled) <==> BothOffer(i, a)) && (UsesCompact(w.a.settled) <==> BothOffer(i, a))
    ensures w.i.outbound.Within(a.own.limits) && w.a.outbound.Within(i.own.limits)
  {
    hide Accord, AllReadBack, BothOffer, PeerLimits.Outbound;
    CompactSettled(i, a);
    PeerLimits.OutboundWithin(i.own.limits, a.own.limits);
    PeerLimits.OutboundWithin(a.own.limits, i.own.limits);
  }

  /**
   * In every run of two conforming configurations, however writes and reads interleave around the
   * handshake, each frame is read with the codec it was written with: the reader decodes it to what
   * the writer meant, and none comes before its time. Once both are ready they agree on the codec,
   * and each keeps within the limits of both. What the events must be free of is what the reader cannot
   * make sense of: a bare byte order mark as an id in the original format, and a late refusal that comes
   * in the wrong format or exceeds the acceptor's limits.
   */
  lemma CodecsInStep(i: Terms, a: Terms, sid: bytes, run: seq<Event>)
    requires Conforming(i) && Conforming(a) && SessionIdOk(sid)
    requires forall k :: 0 <= k < |run| ==> Smooth(i, a, run[k])
    ensures Execute(i, a, sid, Begin(i, a), run).Went?
    ensures var w := Execute(i, a, sid, Begin(i, a), run).w;
      w.i.phase.Ready? && w.a.phase.Ready? ==>
        && (UsesCompact(w.i.settled) <==> BothOffer(i, a)) && (UsesCompact(w.a.settled) <==> BothOffer(i, a))
        && w.i.outbound.Within(a.own.limits) && w.a.outbound.Within(i.own.limits)
  {
    hide Conforming, SessionIdOk, Inv, Execute, Smooth, BothOffer;
    BeginKeeps(i, a, sid);
    ExecuteKeeps(i, a, sid, Begin(i, a), run);
    var w := Execute(i, a, sid, Begin(i, a), run).w;
    if w.i.phase.Ready? && w.a.phase.Ready? {
      ReadySides(i, a, sid, w);
    }
  }
}
