/**
 * An initiator whose extensions fail to attach, once the acceptor is ready: what becomes of its session ERROR,
 * over the states of any handshake and over a whole run from the start.
 */
module LateRefusals {
  import opened Bytes
  import opened Frames
  import opened Capabilities
  import opened Handshakes
  import Utf8
  import Codec
  import Compact
  import PeerLimits

  lemma MagicByte()
    ensures BigEndian(PROTOCOL_MAGIC, 4)[0] == 0x50
  {
    assert BigEndian(0x50, 1) == BigEndian(0, 0) + [0x50];
    assert BigEndian(0x5052, 2)[0] == BigEndian(0x50, 1)[0];
    assert BigEndian(0x505250, 3)[0] == BigEndian(0x5052, 2)[0];
    assert BigEndian(PROTOCOL_MAGIC, 4)[0] == BigEndian(0x505250, 3)[0];
  }

  lemma LegacyStarts(f: Frame, limits: Limits)
    requires Codec.EncodeFrame(f, limits).Ok?
    ensures Codec.EncodeFrame(f, limits).value != [] && Codec.EncodeFrame(f, limits).value[0] == 0x50
  {
    MagicByte();
    Codec.ShapeRanges(f);
    hide BigEndian, Codec.AttributeArea, Codec.AttributesFit;
    assert Codec.EncodeFrame(f, limits).value[0] == Codec.Header(f, |Codec.AttributeArea(f.attributes)|)[0];
    assert Codec.Header(f, |Codec.AttributeArea(f.attributes)|)[0] == BigEndian(PROTOCOL_MAGIC, 4)[0];
  }

  /** The two formats cannot be confused: their first bytes differ. */
  lemma LegacyIsNotCompact(f: Frame, limits: Limits, own: Limits)
    requires Codec.EncodeFrame(f, limits).Ok?
    ensures Compact.DecodeCompact(Codec.EncodeFrame(f, limits).value, own).Err?
  {
    LegacyStarts(f, limits);
    hide Codec.EncodeFrame, Compact.ReadIds, Compact.ReadValue, Compact.ParseSection, ShapeOk;
  }

  lemma RefusalArrives(i: Terms, a: Terms, sid: bytes, w: World, answer: Answer, later: Answer)
    requires w.a.phase.Ready? && a.own.limits.Resolved() && w.toA == LateRefusal(answer)
    ensures var next := Happen(i, a, sid, w, Read(false, later));
      if w.toA == [] then next == Went(w)
      else if UsesCompact(w.a.settled) || Codec.EncodeFrame(Refusal(2, answer), a.own.limits).Err? then next == Broke(Misread)
      else next.Went? && next.w.a.phase.Detached?
  {
    hide Codec.EncodeFrame, Codec.DecodeFrame, Compact.DecodeCompact, TakeHello, TakeWelcome, VersionOf;
    var f := Refusal(2, answer);
    RefusalIsPlain(answer);
    if w.toA != [] {
      if UsesCompact(w.a.settled) {
        LegacyIsNotCompact(f, BOOTSTRAP, a.own.limits);
      } else {
        Codec.AcceptedIffFits(f, BOOTSTRAP, a.own.limits);
      }
    }
  }

  /**
   * An initiator whose extensions do not attach refuses the WELCOME with an ERROR in the original form,
   * while the acceptor is ready already. Once written, the acceptor makes sense of it if and only if compact
   * frames were not settled and the frame fits the acceptor's own limits.
   */
  lemma LateRefusalReadIff(i: Terms, a: Terms, sid: bytes, w: World, answer: Answer, later: Answer)
    requires Conforming(i) && Conforming(a) && Inv(i, a, sid, w)
    requires w.i.phase.Connecting? && w.a.phase.Ready? && !answer.attaches
    ensures var refused := Happen(i, a, sid, w, Read(true, answer));
      && refused.Went? && refused.w.i.phase.Detached?
      && var next := Happen(i, a, sid, refused.w, Read(false, later));
         if Codec.EncodeFrame(Refusal(2, answer), BOOTSTRAP).Err? then next == Went(refused.w)
         else if BothOffer(i, a) || Codec.EncodeFrame(Refusal(2, answer), a.own.limits).Err? then next == Broke(Misread)
         else next.Went? && next.w.a.phase.Detached?
  {
    RefusedLate(i, a, sid, w, answer);
    hide Happen, BothOffer, Codec.EncodeFrame;
    CompactSettled(i, a);
    RefusalArrives(i, a, sid, Happen(i, a, sid, w, Read(true, answer)).w, answer, later);
  }

  /** The handshake as it goes when both greetings can be written and the acceptor's extensions attach. */
  predicate GreetingsFit(i: Terms, a: Terms, sid: bytes) {
    && Accord(i, a).Agreed?
    && Codec.EncodeFrame(Hello(i, sid), BOOTSTRAP).Ok?
    && Codec.EncodeFrame(Greeting(WELCOME, sid, Welcome(a.party, Accord(i, a).settled)), BOOTSTRAP).Ok?
  }

  const ATTACHED := Answer(true, [], [])

  lemma Greeted(i: Terms, a: Terms, sid: bytes)
    requires Conforming(i) && Conforming(a) && SessionIdOk(sid) && GreetingsFit(i, a, sid)
    ensures var next := Happen(i, a, sid, Begin(i, a), Greet);
      && next.Went? && Inv(i, a, sid, next.w) && next.w.i.phase.Connecting? && next.w.a.phase.Connecting?
      && |next.w.toA| == 1
  {
    hide Accord, Codec.EncodeFrame, Codec.DecodeFrame, ToAttributes, Conforming;
    assert Inv(i, a, sid, Begin(i, a));
    GreetKeeps(i, a, sid, Begin(i, a));
    assert Posted(Begin(i, a).i, Hello(i, sid)) == [Sent(Hello(i, sid), Codec.EncodeFrame(Hello(i, sid), BOOTSTRAP).value)];
  }

  lemma HelloAnswered(i: Terms, a: Terms, sid: bytes, side: Side)
    requires Conforming(i) && Conforming(a) && SessionIdOk(sid) && GreetingsFit(i, a, sid) && side.phase.Connecting?
    ensures var taken := TakeHello(a, side, Hello(i, sid), ATTACHED); taken.Taken? && taken.side.phase.Ready?
  {
    hide Accord, Conforming, TakeHello, Codec.EncodeFrame;
    HelloReadyIff(i, a, sid, side, ATTACHED);
  }

  lemma Welcomed(i: Terms, a: Terms, sid: bytes, w: World)
    requires Conforming(i) && Conforming(a) && SessionIdOk(sid) && GreetingsFit(i, a, sid)
    requires Inv(i, a, sid, w) && w.i.phase.Connecting? && w.a.phase.Connecting? && |w.toA| == 1
    ensures var next := Happen(i, a, sid, w, Read(false, ATTACHED));
      && next.Went? && Inv(i, a, sid, next.w) && next.w.i.phase.Connecting? && next.w.a.phase.Ready?
  {
    hide Accord, TakeHello, TakeWelcome, Codec.DecodeFrame, Codec.EncodeFrame, ToAttributes, Narrowed;
    AcceptorReads(i, a, sid, w, ATTACHED);
    HelloAnswered(i, a, sid, w.a);
    assert w.toA[0].frame == Hello(i, sid);
  }

  /**
   * From the start: greeted, welcomed, refused by the initiator's extensions. The run ends with the acceptor
   * unable to read the refusal exactly when both offered compact frames, or the frame is over its own limits.
   */
  lemma LateRefusalRun(i: Terms, a: Terms, sid: bytes, answer: Answer, later: Answer)
    requires Conforming(i) && Conforming(a) && SessionIdOk(sid) && GreetingsFit(i, a, sid)
    requires !answer.attaches && Codec.EncodeFrame(Refusal(2, answer), BOOTSTRAP).Ok?
    ensures Execute(i, a, sid, Begin(i, a), [Greet, Read(false, ATTACHED), Read(true, answer), Read(false, later)]) == Broke(Misread)
       <==> BothOffer(i, a) || Codec.EncodeFrame(Refusal(2, answer), a.own.limits).Err?
  {
    hide Accord, Happen, Codec.EncodeFrame, BothOffer, Conforming, GreetingsFit, SessionIdOk;
    var run := [Greet, Read(false, ATTACHED), Read(true, answer), Read(false, later)];
    Greeted(i, a, sid);
    var w1 := Happen(i, a, sid, Begin(i, a), run[0]).w;
    Welcomed(i, a, sid, w1);
    var w2 := Happen(i, a, sid, w1, run[1]).w;
    LateRefusalReadIff(i, a, sid, w2, answer, later);
    var w3 := Happen(i, a, sid, w2, run[2]).w;
    FourEvents(i, a, sid, Begin(i, a), run);
  }

  lemma FourEvents(i: Terms, a: Terms, sid: bytes, w: World, run: seq<Event>)
    requires |run| == 4
    requires Happen(i, a, sid, w, run[0]).Went?
    requires Happen(i, a, sid, Happen(i, a, sid, w, run[0]).w, run[1]).Went?
    requires var w2 := Happen(i, a, sid, Happen(i, a, sid, w, run[0]).w, run[1]).w; Happen(i, a, sid, w2, run[2]).Went?
    ensures var w2 := Happen(i, a, sid, Happen(i, a, sid, w, run[0]).w, run[1]).w;
      Execute(i, a, sid, w, run) == Happen(i, a, sid, Happen(i, a, sid, w2, run[2]).w, run[3])
  {
    hide Happen;
    var w1 := Happen(i, a, sid, w, run[0]).w;
    var w2 := Happen(i, a, sid, w1, run[1]).w;
    var w3 := Happen(i, a, sid, w2, run[2]).w;
    var last := run[3..];
    assert last[1..] == [] && run[2..][1..] == last && run[1..][1..] == run[2..];
    assert Execute(i, a, sid, w3, last) == Happen(i, a, sid, w3, run[3]);
    assert Execute(i, a, sid, w2, run[2..]) == Execute(i, a, sid, w3, last);
  }

  // ---------------------------------------------------------------- such a run exists

  predicate Small(d: Descriptor) {
    |d.id| <= 100 && |d.parameters| <= 100 && forall k :: 0 <= k < |d.id| ==> d.id[k] < 0x80
  }

  lemma SmallFits(d: Descriptor, require: set<bytes>)
    requires Small(d)
    ensures Codec.AttributeFits(ToAttribute(d, require), BOOTSTRAP)
    ensures |Codec.AttributeBytes(ToAttribute(d, require))| <= 226
  {
    Utf8.AsciiIsValid(PREFIX + d.id);
  }

  lemma {:induction false} OffersFit(ds: seq<Descriptor>, require: set<bytes>)
    requires forall k :: 0 <= k < |ds| ==> Small(ds[k])
    ensures |ToAttributes(ds, require)| == |ds| && Codec.AllFit(ToAttributes(ds, require), BOOTSTRAP)
    ensures |Codec.AttributeArea(ToAttributes(ds, require))| <= 226 * |ds|
    decreases |ds|
  {
    hide Small, Codec.AttributeFits, Codec.AttributeBytes, ToAttribute;
    var attributes := ToAttributes(ds, require);
    forall k | 0 <= k < |ds|
      ensures Codec.AttributeFits(attributes[k], BOOTSTRAP)
    {
      SmallFits(ds[k], require);
    }
    if ds != [] {
      SmallFits(ds[0], require);
      assert attributes[1..] == ToAttributes(ds[1..], require);
      OffersFit(ds[1..], require);
    }
  }

  lemma FirstFits(first: Attribute, rest: seq<Attribute>)
    requires Codec.AttributeFits(first, BOOTSTRAP) && Codec.AllFit(rest, BOOTSTRAP) && |rest| <= 100
    requires |first.id| <= 15 && |first.value| <= 100 && |Codec.AttributeArea(rest)| <= 22600
    ensures Codec.AttributesFit([first] + rest, BOOTSTRAP) && |Codec.AttributeArea([first] + rest)| <= 22722
  {
    hide Codec.AttributeFits, Codec.AttributeArea;
    Codec.AreaCons(first, rest);
  }

  lemma GreetingFits(kind: int, sid: bytes, ds: seq<Descriptor>, require: set<bytes>)
    requires (kind == HELLO || kind == WELCOME) && |sid| <= 100 && |ds| <= 100
    requires forall k :: 0 <= k < |ds| ==> Small(ds[k])
    ensures Codec.EncodeFrame(Greeting(kind, sid, ToAttributes(ds, require)), BOOTSTRAP).Ok?
  {
    hide Small, Utf8.Valid, Codec.AttributeArea, Codec.AttributesFit;
    OffersFit(ds, require);
    Compact.NamesArePlain();
    Compact.PlainIsValid(SESSION_ID);
    FirstFits(Attribute(SESSION_ID, sid, true), ToAttributes(ds, require));
  }

  /** A conforming configuration agrees with itself, and settles on what it offers. */
  lemma SelfAgrees(t: Terms)
    requires Conforming(t)
    ensures Accord(t, t).Agreed?
  {
    var local, require := t.party.local, t.party.require;
    ParseWritten(local, require, {});
    var offers := Offers(local, require);
    forall k | 0 <= k < |local|
      ensures FindOffer(offers, local[k].id) == Some(Offer(local[k], local[k].id in require))
      ensures FindLocal(local, local[k].id).Some?
    {
      FindOfferWritten(local, require, local[k].id);
      FoundLocal(local, k);
    }
    forall id | id in require
      ensures FindOffer(offers, id).Some?
    {
      FindOfferWritten(local, require, id);
    }
    SettleIff(local, offers, require);
  }

  lemma NarrowedSmall(t: Terms)
    requires Conforming(t) && Accord(t, t).Agreed? && forall k :: 0 <= k < |t.party.local| ==> Small(t.party.local[k])
    ensures var narrowed := Narrowed(Accord(t, t).settled);
      |narrowed| <= |t.party.local| && forall k :: 0 <= k < |narrowed| ==> Small(narrowed[k])
  {
    var local, require := t.party.local, t.party.require;
    ParseWritten(local, require, {});
    SettleFrom(local, Offers(local, require), require);
  }

  /** Two peers of one configuration, with the limits and compact frames as their capabilities. */
  function Ordinary(): Terms {
    var own := PeerLimits.Announced(BOOTSTRAP, 1, 1);
    Terms(Party([Descriptor(LIMITS_ID, 1, 1, PeerLimits.Encode(own)), Descriptor(COMPACT_ID, 1, 1, [])], {LIMITS_ID}), own)
  }

  lemma OrdinaryConforms()
    ensures Conforming(Ordinary()) && BothOffer(Ordinary(), Ordinary())
  {
    hide PeerLimits.Encode;
    var t := Ordinary();
    assert |LIMITS_ID| == 15 && |COMPACT_ID| == 23;
    assert FindLocal(t.party.local, LIMITS_ID) == Some(t.party.local[0]);
    assert t.party.local[1..][0] == t.party.local[1];
    assert FindLocal(t.party.local, COMPACT_ID) == Some(t.party.local[1]);
    assert Capabilities.Within(t.party.local, COMPACT_ID, 1);
  }

  lemma OrdinaryIsSmall()
    ensures var local := Ordinary().party.local; |local| == 2 && Small(local[0]) && Small(local[1])
  {
    assert forall k :: 0 <= k < |LIMITS_ID| ==> LIMITS_ID[k] < 0x80;
    assert forall k :: 0 <= k < |COMPACT_ID| ==> COMPACT_ID[k] < 0x80;
  }

  lemma RefusalFits(answer: Answer)
    requires |answer.code| <= 100 && |answer.message| <= 100
    ensures Codec.EncodeFrame(Refusal(2, answer), BOOTSTRAP).Ok?
  {
    hide Utf8.Valid, Codec.AttributesFit;
    Compact.NamesArePlain();
    Compact.PlainIsValid(Compact.ERROR_CODE);
    var first := Attribute(Compact.ERROR_CODE, answer.code, false);
    FirstFits(first, []);
    assert [first] + [] == [first];
  }

  /** Such a refusal, of an ordinary configuration, breaks the acceptor. */
  lemma LateRefusalMisread(answer: Answer, later: Answer)
    requires !answer.attaches && |answer.code| <= 100 && |answer.message| <= 100
    ensures var run := [Greet, Read(false, ATTACHED), Read(true, answer), Read(false, later)];
      Execute(Ordinary(), Ordinary(), [97], Begin(Ordinary(), Ordinary()), run) == Broke(Misread)
  {
    hide Conforming, Accord, Small, Codec.EncodeFrame, Execute, BothOffer, Ordinary, Utf8.Valid;
    var t := Ordinary();
    OrdinaryConforms();
    OrdinaryIsSmall();
    SelfAgrees(t);
    NarrowedSmall(t);
    GreetingFits(HELLO, [97], t.party.local, t.party.require);
    GreetingFits(WELCOME, [97], Narrowed(Accord(t, t).settled), t.party.require);
    RefusalFits(answer);
    Utf8.AsciiIsValid([97]);
    LateRefusalRun(t, t, [97], answer, later);
  }
}
