/**
 * Capability negotiation: what a HELLO offers, what the acceptor settles on, and what the initiator
 * makes of the WELCOME that tells it so.
 */
module Capabilities {
  import opened Bytes
  import opened Frames

  /** Absent parameters and empty ones are the same on the wire. */
  datatype Descriptor = Descriptor(id: bytes, minVersion: nat, maxVersion: nat, parameters: bytes)

  datatype Offer = Offer(descriptor: Descriptor, required: bool)

  datatype Settled = Settled(id: bytes, version: nat, local: Descriptor, remote: Descriptor)

  /** An agreement, a local configuration error, or a mismatch with the peer. */
  datatype Outcome = Agreed(settled: seq<Settled>) | BadLocal | Mismatch

  /** "prp.capability/" */
  const PREFIX: bytes := [112, 114, 112, 46, 99, 97, 112, 97, 98, 105, 108, 105, 116, 121, 47]

  predicate ValidDescriptor(d: Descriptor) { d.id != [] && d.minVersion <= d.maxVersion <= MAX_U16 }

  predicate DistinctIds(ds: seq<Descriptor>) {
    forall i, j :: 0 <= i < j < |ds| ==> ds[i].id != ds[j].id
  }

  predicate LocalOk(ds: seq<Descriptor>) {
    (forall i :: 0 <= i < |ds| ==> ValidDescriptor(ds[i])) && DistinctIds(ds)
  }

  // ---------------------------------------------------------------- offers as attributes

  function EncodeRange(d: Descriptor): bytes {
    BigEndian(d.minVersion, 2) + BigEndian(d.maxVersion, 2) + d.parameters
  }

  function DecodeRange(id: bytes, value: bytes): Option<Descriptor> {
    if id == [] || |value| < 4 then None
    else
      var low, high := FromBigEndian(value[..2]), FromBigEndian(value[2..4]);
      if high < low then None else Some(Descriptor(id, low, high, value[4..]))
  }

  lemma RangeRoundTrip(d: Descriptor)
    requires ValidDescriptor(d)
    ensures DecodeRange(d.id, EncodeRange(d)) == Some(d)
  {
    Pow256Values();
    BigEndianRoundTrip(d.minVersion, 2);
    BigEndianRoundTrip(d.maxVersion, 2);
    var value := EncodeRange(d);
    assert value[..2] == BigEndian(d.minVersion, 2) && value[2..4] == BigEndian(d.maxVersion, 2);
    assert value[4..] == d.parameters;
  }

  function ToAttribute(d: Descriptor, require: set<bytes>): Attribute {
    Attribute(PREFIX + d.id, EncodeRange(d), d.id in require)
  }

  function ToAttributes(ds: seq<Descriptor>, require: set<bytes>): seq<Attribute> {
    seq(|ds|, i requires 0 <= i < |ds| => ToAttribute(ds[i], require))
  }

  predicate IsOffer(a: Attribute) { PREFIX <= a.id }

  /** `capabilitiesFromAttributes`; `None` is the violation. `seen` are the ids met so far. */
  function ParseOffers(attributes: seq<Attribute>, seen: set<bytes>): Option<seq<Offer>>
    decreases |attributes|
  {
    if attributes == [] then Some([])
    else if !IsOffer(attributes[0]) then ParseOffers(attributes[1..], seen)
    else
      var id := attributes[0].id[|PREFIX|..];
      var d := DecodeRange(id, attributes[0].value);
      if id == [] || id in seen || d.None? then None
      else
        var rest := ParseOffers(attributes[1..], seen + {id});
        if rest.None? then None else Some([Offer(d.value, attributes[0].required)] + rest.value)
  }

  function Offers(ds: seq<Descriptor>, require: set<bytes>): seq<Offer> {
    seq(|ds|, i requires 0 <= i < |ds| => Offer(ds[i], ds[i].id in require))
  }

  lemma {:induction false} ParseWritten(ds: seq<Descriptor>, require: set<bytes>, seen: set<bytes>)
    requires LocalOk(ds) && forall i :: 0 <= i < |ds| ==> ds[i].id !in seen
    ensures ParseOffers(ToAttributes(ds, require), seen) == Some(Offers(ds, require))
    decreases |ds|
  {
    var attributes := ToAttributes(ds, require);
    if ds != [] {
      var d, rest := ds[0], ds[1..];
      RangeRoundTrip(d);
      assert attributes[0].id[|PREFIX|..] == d.id;
      assert attributes[1..] == ToAttributes(rest, require);
      ParseWritten(rest, require, seen + {d.id});
      assert Offers(ds, require) == [Offer(d, d.id in require)] + Offers(rest, require);
    }
  }

  /** The attributes that are offers. */
  function OffersAmong(attributes: seq<Attribute>): seq<Attribute> {
    if attributes == [] then []
    else (if IsOffer(attributes[0]) then [attributes[0]] else []) + OffersAmong(attributes[1..])
  }

  function Spelled(offers: seq<Offer>): seq<Attribute> {
    seq(|offers|, i requires 0 <= i < |offers| =>
      Attribute(PREFIX + offers[i].descriptor.id, EncodeRange(offers[i].descriptor), offers[i].required))
  }

  /** Valid offers of different capabilities, none of them among those seen. */
  predicate Distinct(offers: seq<Offer>, seen: set<bytes>) {
    && (forall i :: 0 <= i < |offers| ==> ValidDescriptor(offers[i].descriptor) && offers[i].descriptor.id !in seen)
    && (forall i, j :: 0 <= i < j < |offers| ==> offers[i].descriptor.id != offers[j].descriptor.id)
  }

  lemma RangeIff(id: bytes, value: bytes, d: Descriptor)
    ensures DecodeRange(id, value) == Some(d) <==> d.id == id && ValidDescriptor(d) && value == EncodeRange(d)
  {
    Pow256Values();
    if DecodeRange(id, value) == Some(d) {
      FromBigEndianRoundTrip(value[..2]);
      FromBigEndianRoundTrip(value[2..4]);
      assert value == value[..2] + value[2..4] + value[4..];
    }
    if d.id == id && ValidDescriptor(d) {
      RangeRoundTrip(d);
    }
  }

  lemma SpelledCons(offers: seq<Offer>)
    requires offers != []
    ensures Spelled(offers)
         == [Attribute(PREFIX + offers[0].descriptor.id, EncodeRange(offers[0].descriptor), offers[0].required)]
            + Spelled(offers[1..])
  {
  }

  /** Attributes are taken for these offers if and only if the offers among them spell just these, each once. */
  lemma {:induction false} ParsedIff(attributes: seq<Attribute>, seen: set<bytes>, offers: seq<Offer>)
    ensures ParseOffers(attributes, seen) == Some(offers) <==>
      OffersAmong(attributes) == Spelled(offers) && Distinct(offers, seen)
    decreases |attributes|
  {
    if attributes == [] {
      assert Spelled([]) == [];
    } else if !IsOffer(attributes[0]) {
      ParsedIff(attributes[1..], seen, offers);
    } else {
      ParsedOffer(attributes, seen, offers);
    }
  }

  lemma {:induction false} ParsedOffer(attributes: seq<Attribute>, seen: set<bytes>, offers: seq<Offer>)
    requires attributes != [] && IsOffer(attributes[0])
    ensures ParseOffers(attributes, seen) == Some(offers) <==>
      OffersAmong(attributes) == Spelled(offers) && Distinct(offers, seen)
    decreases |attributes|, 0
  {
    var first, id := attributes[0], attributes[0].id[|PREFIX|..];
    assert first.id == PREFIX + id;
    if offers != [] {
      var head, tail := offers[0], offers[1..];
      assert offers == [head] + tail;
      RangeIff(id, first.value, head.descriptor);
      SpelledCons(offers);
      ParsedIff(attributes[1..], seen + {id}, tail);
      assert (PREFIX + head.descriptor.id)[|PREFIX|..] == head.descriptor.id;
      DistinctCons(offers, seen);
      hide Distinct, Spelled, EncodeRange, DecodeRange;
      var spelled := Attribute(PREFIX + head.descriptor.id, EncodeRange(head.descriptor), head.required);
      SameCons(first, OffersAmong(attributes[1..]), spelled, Spelled(tail));
      var rest := ParseOffers(attributes[1..], seen + {id});
      if DecodeRange(id, first.value).Some? && rest.Some? {
        SameCons(Offer(DecodeRange(id, first.value).value, first.required), rest.value, head, tail);
      }
    }
  }

  lemma SameCons<T>(a: T, s: seq<T>, b: T, t: seq<T>)
    ensures [a] + s == [b] + t <==> a == b && s == t
  {
    assert ([a] + s)[0] == a && ([a] + s)[1..] == s && ([b] + t)[0] == b && ([b] + t)[1..] == t;
  }

  lemma DistinctCons(offers: seq<Offer>, seen: set<bytes>)
    requires offers != []
    ensures var d := offers[0].descriptor;
      Distinct(offers, seen) <==> ValidDescriptor(d) && d.id !in seen && Distinct(offers[1..], seen + {d.id})
  {
    var tail := offers[1..];
    assert forall i :: 0 <= i < |tail| ==> tail[i] == offers[i + 1];
    if Distinct(tail, seen + {offers[0].descriptor.id}) {
      forall i, j | 0 <= i < j < |offers|
        ensures offers[i].descriptor.id != offers[j].descriptor.id
      {
        assert offers[j] == tail[j - 1];
        if i > 0 {
          assert offers[i] == tail[i - 1];
        }
      }
    }
  }

  /** Attributes that are not offers, such as the session id, are skipped. */
  lemma ParseSkips(other: Attribute, attributes: seq<Attribute>)
    requires !IsOffer(other)
    ensures ParseOffers([other] + attributes, {}) == ParseOffers(attributes, {})
  {
    assert ([other] + attributes)[1..] == attributes;
  }

  // ---------------------------------------------------------------- negotiation

  function FindLocal(ds: seq<Descriptor>, id: bytes): Option<Descriptor>
    decreases |ds|
  {
    if ds == [] then None else if ds[0].id == id then Some(ds[0]) else FindLocal(ds[1..], id)
  }

  /** The last offer with this id: a Map keeps the last value given for a key. */
  function FindOffer(offers: seq<Offer>, id: bytes): Option<Offer>
    decreases |offers|
  {
    if offers == [] then None
    else
      var later := FindOffer(offers[1..], id);
      if later.Some? then later else if offers[0].descriptor.id == id then Some(offers[0]) else None
  }

  predicate Overlap(own: Descriptor, theirs: Descriptor) {
    Max(own.minVersion, theirs.minVersion) <= Min(own.maxVersion, theirs.maxVersion)
  }

  /** The capabilities both sides have in a common version; `None` if a required one has none. */
  function Settle(local: seq<Descriptor>, offers: seq<Offer>, require: set<bytes>): Option<seq<Settled>>
    decreases |local|
  {
    if local == [] then Some([])
    else
      var own, found := local[0], FindOffer(offers, local[0].id);
      var rest := Settle(local[1..], offers, require);
      if found.None? then rest
      else if Overlap(own, found.value.descriptor) then
        if rest.None? then None
        else
          var version := Min(own.maxVersion, found.value.descriptor.maxVersion);
          Some([Settled(own.id, version, own, found.value.descriptor)] + rest.value)
      else if found.value.required || own.id in require then None
      else rest
  }

  function Negotiate(local: seq<Descriptor>, offers: seq<Offer>, require: set<bytes>): Outcome {
    if !LocalOk(local) then BadLocal
    else if exists i :: 0 <= i < |offers| && offers[i].required && FindLocal(local, offers[i].descriptor.id).None? then Mismatch
    else if exists id :: id in require && FindOffer(offers, id).None? then Mismatch
    else
      var settled := Settle(local, offers, require);
      if settled.None? then Mismatch else Agreed(settled.value)
  }

  /** The version settled for an id. */
  function VersionOf(settled: seq<Settled>, id: bytes): Option<nat>
    decreases |settled|
  {
    if settled == [] then None else if settled[0].id == id then Some(settled[0].version) else VersionOf(settled[1..], id)
  }

  lemma {:induction false} FindLocalMeans(ds: seq<Descriptor>, id: bytes)
    ensures FindLocal(ds, id).Some? <==> exists i :: 0 <= i < |ds| && ds[i].id == id
    ensures FindLocal(ds, id).Some? ==> FindLocal(ds, id).value in ds && FindLocal(ds, id).value.id == id
    decreases |ds|
  {
    if ds != [] && ds[0].id != id {
      FindLocalMeans(ds[1..], id);
      if i :| 0 <= i < |ds| && ds[i].id == id {
        assert ds[1..][i - 1] == ds[i];
      }
    }
  }

  lemma FirstOnly(ds: seq<Descriptor>)
    requires DistinctIds(ds) && ds != []
    ensures FindLocal(ds[1..], ds[0].id).None?
  {
    FindLocalMeans(ds[1..], ds[0].id);
    forall i | 0 <= i < |ds[1..]|
      ensures ds[1..][i].id != ds[0].id
    {
      assert ds[1..][i] == ds[i + 1];
    }
  }

  lemma {:induction false} FindOfferWritten(ds: seq<Descriptor>, require: set<bytes>, id: bytes)
    requires DistinctIds(ds)
    ensures FindOffer(Offers(ds, require), id)
         == (var d := FindLocal(ds, id); if d.None? then None else Some(Offer(d.value, id in require)))
    decreases |ds|
  {
    if ds != [] {
      var offers := Offers(ds, require);
      assert offers[1..] == Offers(ds[1..], require);
      FindOfferWritten(ds[1..], require, id);
      FindLocalMeans(ds[1..], id);
      FirstOnly(ds);
    }
  }

  /** What settling comes to for one id. */
  function Common(local: seq<Descriptor>, offers: seq<Offer>, id: bytes): Option<nat> {
    var own, found := FindLocal(local, id), FindOffer(offers, id);
    if own.None? || found.None? || !Overlap(own.value, found.value.descriptor) then None
    else Some(Min(own.value.maxVersion, found.value.descriptor.maxVersion))
  }

  lemma {:induction false} SettleMeans(local: seq<Descriptor>, offers: seq<Offer>, require: set<bytes>, id: bytes)
    requires DistinctIds(local) && Settle(local, offers, require).Some?
    ensures VersionOf(Settle(local, offers, require).value, id) == Common(local, offers, id)
    decreases |local|
  {
    if local != [] {
      SettleMeans(local[1..], offers, require, id);
      FindLocalMeans(local[1..], id);
      var found := FindOffer(offers, local[0].id);
      var rest := Settle(local[1..], offers, require).value;
      if local[0].id == id {
        FirstOnly(local);
        if found.Some? && Overlap(local[0], found.value.descriptor) {
          var settled := Settle(local, offers, require).value;
          assert settled[0].id == id;
        }
      } else if found.Some? && Overlap(local[0], found.value.descriptor) {
        var settled := Settle(local, offers, require).value;
        assert settled[1..] == rest;
      }
    }
  }

  /** Settling succeeds exactly when no required capability is left without a common version. */
  lemma {:induction false} SettleIff(local: seq<Descriptor>, offers: seq<Offer>, require: set<bytes>)
    ensures Settle(local, offers, require).Some? <==> forall i :: 0 <= i < |local| ==>
      var found := FindOffer(offers, local[i].id);
      found.None? || Overlap(local[i], found.value.descriptor) || (!found.value.required && local[i].id !in require)
    decreases |local|
  {
    if local != [] {
      SettleIff(local[1..], offers, require);
      assert forall i :: 0 <= i < |local[1..]| ==> local[1..][i] == local[i + 1];
      assert forall i :: 0 < i < |local| ==> local[i] == local[1..][i - 1];
    }
  }

  // ---------------------------------------------------------------- the handshake

  /** One side's offers and what it insists on. */
  datatype Party = Party(local: seq<Descriptor>, require: set<bytes>)

  predicate Offered(p: Party) { forall id :: id in p.require ==> FindLocal(p.local, id).Some? }

  /** The acceptor's answer: each settled capability at its one version, with its own parameters. */
  function Narrowed(settled: seq<Settled>): seq<Descriptor> {
    seq(|settled|, i requires 0 <= i < |settled| =>
      Descriptor(settled[i].id, settled[i].version, settled[i].version, settled[i].local.parameters))
  }

  /** `handleHello`: the acceptor negotiates on what the initiator offered. */
  function AcceptHello(a: Party, hello: seq<Attribute>): Outcome {
    var offers := ParseOffers(hello, {});
    if offers.None? then Mismatch else Negotiate(a.local, offers.value, a.require)
  }

  function Welcome(a: Party, settled: seq<Settled>): seq<Attribute> { ToAttributes(Narrowed(settled), a.require) }

  /** `handleWelcome`: the initiator negotiates on the answer, and checks what it insists on. */
  function AcceptWelcome(i: Party, welcome: seq<Attribute>): Outcome {
    var offers := ParseOffers(welcome, {});
    if offers.None? then Mismatch
    else
      match Negotiate(i.local, offers.value, i.require)
      case Agreed(settled) =>
        if exists id :: id in i.require && VersionOf(settled, id).None? then Mismatch else Agreed(settled)
      case BadLocal => BadLocal
      case Mismatch => Mismatch
  }

  lemma {:induction false} SettleFrom(local: seq<Descriptor>, offers: seq<Offer>, require: set<bytes>)
    requires LocalOk(local) && Settle(local, offers, require).Some?
    ensures var settled := Settle(local, offers, require).value;
      && |settled| <= |local|
      && (forall i :: 0 <= i < |settled| ==>
            && settled[i].local in local && settled[i].id == settled[i].local.id && settled[i].id != []
            && settled[i].version <= settled[i].local.maxVersion <= MAX_U16)
      && (forall i, j :: 0 <= i < j < |settled| ==> settled[i].id != settled[j].id)
    decreases |local|
  {
    if local != [] {
      assert forall i :: 0 <= i < |local[1..]| ==> local[1..][i] == local[i + 1];
      SettleFrom(local[1..], offers, require);
      FirstOnly(local);
      FindLocalMeans(local[1..], local[0].id);
      var rest := Settle(local[1..], offers, require).value;
      forall i | 0 <= i < |rest|
        ensures rest[i].id != local[0].id
      {
        var k :| 0 <= k < |local[1..]| && local[1..][k] == rest[i].local;
      }
    }
  }

  lemma NarrowedOk(local: seq<Descriptor>, offers: seq<Offer>, require: set<bytes>)
    requires LocalOk(local) && Settle(local, offers, require).Some?
    ensures LocalOk(Narrowed(Settle(local, offers, require).value))
  {
    SettleFrom(local, offers, require);
  }

  lemma {:induction false} FindNarrowed(settled: seq<Settled>, id: bytes)
    ensures var d := FindLocal(Narrowed(settled), id);
      if VersionOf(settled, id).None? then d.None?
      else d.Some? && d.value.minVersion == d.value.maxVersion == VersionOf(settled, id).value
    decreases |settled|
  {
    if settled != [] {
      assert Narrowed(settled)[1..] == Narrowed(settled[1..]);
      FindNarrowed(settled[1..], id);
    }
  }

  /** What the initiator finds in common with the WELCOME is what the acceptor settled. */
  lemma CommonAgrees(i: Party, a: Party, settled: seq<Settled>, id: bytes)
    requires LocalOk(i.local) && LocalOk(a.local)
    requires Settle(a.local, Offers(i.local, i.require), a.require) == Some(settled)
    ensures Common(i.local, Offers(Narrowed(settled), a.require), id) == VersionOf(settled, id)
    ensures var offer := FindOffer(Offers(Narrowed(settled), a.require), id);
      && (offer.Some? <==> VersionOf(settled, id).Some?)
      && (offer.Some? ==> FindLocal(i.local, id).Some? && Overlap(FindLocal(i.local, id).value, offer.value.descriptor))
  {
    var offered := Offers(i.local, i.require);
    NarrowedOk(a.local, offered, a.require);
    SettleMeans(a.local, offered, a.require, id);
    FindOfferWritten(i.local, i.require, id);
    FindOfferWritten(Narrowed(settled), a.require, id);
    FindNarrowed(settled, id);
  }

  /** What the acceptor's success says of the capabilities the initiator insists on. */
  lemma RequiredSettled(i: Party, a: Party, settled: seq<Settled>, id: bytes)
    requires LocalOk(i.local) && Negotiate(a.local, Offers(i.local, i.require), a.require) == Agreed(settled)
    requires id in i.require && FindLocal(i.local, id).Some?
    ensures VersionOf(settled, id).Some?
  {
    var offered := Offers(i.local, i.require);
    FindOfferWritten(i.local, i.require, id);
    SettleMeans(a.local, offered, a.require, id);
    SettleIff(a.local, offered, a.require);
    FindLocalMeans(i.local, id);
    FindLocalMeans(a.local, id);
    var k :| 0 <= k < |i.local| && i.local[k].id == id;
    assert offered[k].required && offered[k].descriptor.id == id;
    var own := FindLocal(a.local, id).value;
    var n :| 0 <= n < |a.local| && a.local[n] == own;
  }

  predicate InOffers(offers: seq<Offer>, id: bytes) { exists k :: 0 <= k < |offers| && offers[k].descriptor.id == id }

  /** The version lies in the range this side offered for the id. */
  predicate Within(local: seq<Descriptor>, id: bytes, version: nat) {
    var d := FindLocal(local, id);
    d.Some? && d.value.minVersion <= version <= d.value.maxVersion
  }

  /** The version lies in the range the peer offered for the id. */
  predicate OffersVersion(offers: seq<Offer>, id: bytes, version: nat) {
    var found := FindOffer(offers, id);
    found.Some? && found.value.descriptor.minVersion <= version <= found.value.descriptor.maxVersion
  }

  ghost predicate Shared(local: seq<Descriptor>, offers: seq<Offer>, id: bytes) {
    exists v: nat :: Within(local, id, v) && OffersVersion(offers, id, v)
  }

  lemma SharedIff(local: seq<Descriptor>, offers: seq<Offer>, id: bytes)
    ensures Shared(local, offers, id) <==> Common(local, offers, id).Some?
    ensures Common(local, offers, id).Some? ==>
      Within(local, id, Common(local, offers, id).value) && OffersVersion(offers, id, Common(local, offers, id).value)
  {
    var own, found := FindLocal(local, id), FindOffer(offers, id);
    if own.Some? && found.Some? && Overlap(own.value, found.value.descriptor) {
      assert Within(local, id, Common(local, offers, id).value) && OffersVersion(offers, id, Common(local, offers, id).value);
    }
  }

  lemma {:induction false} FindOfferIff(offers: seq<Offer>, id: bytes)
    ensures FindOffer(offers, id).Some? <==> InOffers(offers, id)
    ensures FindOffer(offers, id).Some? ==> FindOffer(offers, id).value in offers && FindOffer(offers, id).value.descriptor.id == id
    decreases |offers|
  {
    if offers != [] {
      FindOfferIff(offers[1..], id);
      assert forall k :: 0 <= k < |offers[1..]| ==> offers[1..][k] == offers[k + 1];
      if k :| 0 <= k < |offers| && offers[k].descriptor.id == id {
        assert k > 0 ==> offers[1..][k - 1] == offers[k];
      }
    }
  }

  /** Either side insists on the id. */
  predicate Wanted(offers: seq<Offer>, require: set<bytes>, id: bytes) {
    id in require || (FindOffer(offers, id).Some? && FindOffer(offers, id).value.required)
  }

  lemma SettlesIff(local: seq<Descriptor>, offers: seq<Offer>, require: set<bytes>)
    requires DistinctIds(local)
    ensures Settle(local, offers, require).Some? <==>
      forall id :: FindLocal(local, id).Some? && FindOffer(offers, id).Some? && Wanted(offers, require, id) ==>
        Shared(local, offers, id)
  {
    SettleIff(local, offers, require);
    forall i | 0 <= i < |local|
      ensures FindLocal(local, local[i].id) == Some(local[i])
      ensures Shared(local, offers, local[i].id) <==>
        FindOffer(offers, local[i].id).Some? && Overlap(local[i], FindOffer(offers, local[i].id).value.descriptor)
    {
      FoundLocal(local, i);
      SharedIff(local, offers, local[i].id);
    }
    forall id | FindLocal(local, id).Some?
      ensures exists i :: 0 <= i < |local| && local[i].id == id
    {
      FindLocalMeans(local, id);
    }
    hide FindLocal, FindOffer, Overlap, Shared, Settle;
  }

  /**
   * A negotiation succeeds if and only if the local set is sound, every capability the peer insists on is
   * known here, every one insisted on here is offered by the peer, and each of these that both sides have
   * comes in a version both have.
   */
  lemma NegotiatesIff(local: seq<Descriptor>, offers: seq<Offer>, require: set<bytes>)
    ensures Negotiate(local, offers, require) == BadLocal <==> !LocalOk(local)
    ensures Negotiate(local, offers, require).Agreed? <==>
      && LocalOk(local)
      && (forall k :: 0 <= k < |offers| && offers[k].required ==> FindLocal(local, offers[k].descriptor.id).Some?)
      && (forall id :: id in require ==> InOffers(offers, id))
      && (forall id :: FindLocal(local, id).Some? && FindOffer(offers, id).Some? && Wanted(offers, require, id) ==>
            Shared(local, offers, id))
  {
    hide Settle, Shared, Wanted, FindLocal, FindOffer;
    if LocalOk(local) {
      SettlesIff(local, offers, require);
    }
    forall id
      ensures FindOffer(offers, id).Some? <==> InOffers(offers, id)
    {
      FindOfferIff(offers, id);
    }
  }

  /** What success says of each capability: settled exactly where a version is shared, then at the highest such. */
  lemma SettledAtBest(local: seq<Descriptor>, offers: seq<Offer>, require: set<bytes>, id: bytes)
    requires Negotiate(local, offers, require).Agreed?
    ensures var version := VersionOf(Negotiate(local, offers, require).settled, id);
      && (version.Some? <==> Shared(local, offers, id))
      && (version.Some? ==> Within(local, id, version.value) && OffersVersion(offers, id, version.value))
      && (version.Some? ==> forall v: nat :: Within(local, id, v) && OffersVersion(offers, id, v) ==> v <= version.value)
      && (id in require ==> InOffers(offers, id) && (FindLocal(local, id).Some? ==> version.Some?))
  {
    SettleMeans(local, offers, require, id);
    SharedIff(local, offers, id);
    NegotiatesIff(local, offers, require);
    FindOfferIff(offers, id);
  }

  /** Some version lies in the ranges of both configurations. */
  ghost predicate InCommon(i: Party, a: Party, id: bytes) {
    exists v: nat :: Within(i.local, id, v) && Within(a.local, id, v)
  }

  /**
   * The acceptor takes the HELLO if and only if each side's demands are met: what the initiator offers and
   * insists on, the acceptor has in a common version; what the acceptor insists on, the initiator offers, in a
   * common version where the acceptor has it too.
   */
  lemma HelloAcceptedIff(i: Party, a: Party)
    requires LocalOk(i.local)
    ensures AcceptHello(a, ToAttributes(i.local, i.require)).Agreed? <==>
      && LocalOk(a.local)
      && (forall id :: id in i.require && FindLocal(i.local, id).Some? ==> InCommon(i, a, id))
      && (forall id :: id in a.require ==>
            FindLocal(i.local, id).Some? && (FindLocal(a.local, id).Some? ==> InCommon(i, a, id)))
  {
    ParseWritten(i.local, i.require, {});
    var offered := Offers(i.local, i.require);
    NegotiatesIff(a.local, offered, a.require);
    forall id
      ensures FindOffer(offered, id).Some? <==> FindLocal(i.local, id).Some?
      ensures InOffers(offered, id) <==> FindLocal(i.local, id).Some?
      ensures Wanted(offered, a.require, id) <==> id in a.require || (id in i.require && FindLocal(i.local, id).Some?)
      ensures Shared(a.local, offered, id) <==> InCommon(i, a, id)
      ensures InCommon(i, a, id) ==> FindLocal(a.local, id).Some?
    {
      OfferedMeans(i, a, id);
    }
    RequiredOffers(i, a);
    hide Negotiate, FindOffer, FindLocal, Wanted, Shared, InCommon, InOffers;
  }

  lemma OfferedMeans(i: Party, a: Party, id: bytes)
    requires LocalOk(i.local)
    ensures var offered := Offers(i.local, i.require);
      && (FindOffer(offered, id).Some? <==> FindLocal(i.local, id).Some?)
      && (InOffers(offered, id) <==> FindLocal(i.local, id).Some?)
      && (Wanted(offered, a.require, id) <==> id in a.require || (id in i.require && FindLocal(i.local, id).Some?))
      && (Shared(a.local, offered, id) <==> InCommon(i, a, id))
  {
    var offered := Offers(i.local, i.require);
    FindOfferWritten(i.local, i.require, id);
    FindOfferIff(offered, id);
    forall v: nat
      ensures OffersVersion(offered, id, v) <==> Within(i.local, id, v)
    {
    }
  }

  /** The offers marked required are those of the ids insisted on. */
  lemma RequiredOffers(i: Party, a: Party)
    requires LocalOk(i.local)
    ensures (forall k :: 0 <= k < |Offers(i.local, i.require)| && Offers(i.local, i.require)[k].required ==>
               FindLocal(a.local, Offers(i.local, i.require)[k].descriptor.id).Some?)
       <==> forall id :: id in i.require && FindLocal(i.local, id).Some? ==> FindLocal(a.local, id).Some?
  {
    var offered := Offers(i.local, i.require);
    forall k | 0 <= k < |offered|
      ensures FindLocal(i.local, offered[k].descriptor.id).Some?
    {
      FoundLocal(i.local, k);
    }
    forall id | FindLocal(i.local, id).Some?
      ensures exists k :: 0 <= k < |offered| && offered[k].descriptor.id == id
    {
      FindLocalMeans(i.local, id);
      var k :| 0 <= k < |i.local| && i.local[k].id == id;
      assert offered[k].descriptor.id == id;
    }
  }

  /** Once the acceptor agreed, what either side insists on and both have is in common. */
  lemma Insisted(i: Party, a: Party)
    requires LocalOk(i.local) && AcceptHello(a, ToAttributes(i.local, i.require)).Agreed?
    ensures var settled := AcceptHello(a, ToAttributes(i.local, i.require)).settled;
      forall id :: (id in i.require && FindLocal(i.local, id).Some?) || (id in a.require && FindLocal(a.local, id).Some?) ==>
        VersionOf(settled, id).Some?
  {
    ParseWritten(i.local, i.require, {});
    HelloAcceptedIff(i, a);
    var offered := Offers(i.local, i.require);
    forall id | (id in i.require && FindLocal(i.local, id).Some?) || (id in a.require && FindLocal(a.local, id).Some?)
      ensures VersionOf(AcceptHello(a, ToAttributes(i.local, i.require)).settled, id).Some?
    {
      OfferedMeans(i, a, id);
      SettledAtBest(a.local, offered, a.require, id);
    }
  }

  /**
   * Handshake agreement: once the acceptor has accepted the HELLO, the initiator accepts the WELCOME if
   * and only if it offered everything it insists on; and then both hold the same versions, for each id
   * the highest that lies in both ranges, and none for an id without one.
   */
  lemma HandshakeAgrees(i: Party, a: Party)
    requires LocalOk(i.local) && AcceptHello(a, ToAttributes(i.local, i.require)).Agreed?
    ensures var settled := AcceptHello(a, ToAttributes(i.local, i.require)).settled;
      var answer := AcceptWelcome(i, Welcome(a, settled));
      && (answer.Agreed? <==> Offered(i))
      && (answer.Agreed? ==> forall id :: VersionOf(answer.settled, id) == VersionOf(settled, id))
      && (forall id :: Best(i, a, id, VersionOf(settled, id)))
      && (forall id :: id in i.require && FindLocal(i.local, id).Some? ==> VersionOf(settled, id).Some?)
      && (forall id :: id in a.require && FindLocal(a.local, id).Some? ==> VersionOf(settled, id).Some?)
  {
    Insisted(i, a);
    ParseWritten(i.local, i.require, {});
    var offered := Offers(i.local, i.require);
    var settled := AcceptHello(a, ToAttributes(i.local, i.require)).settled;
    NarrowedOk(a.local, offered, a.require);
    ParseWritten(Narrowed(settled), a.require, {});
    var back := Offers(Narrowed(settled), a.require);
    WelcomeNegotiates(i, a, settled);
    forall id
      ensures Best(i, a, id, VersionOf(settled, id))
    {
      SettleMeans(a.local, offered, a.require, id);
      FindOfferWritten(i.local, i.require, id);
    }
  }

  /** The highest version both sides offered for the id, if there is one. */
  ghost predicate Best(i: Party, a: Party, id: bytes, version: Option<nat>) {
    match version
    case None => forall v: nat :: !(Within(i.local, id, v) && Within(a.local, id, v))
    case Some(best) =>
      && Within(i.local, id, best) && Within(a.local, id, best)
      && forall v: nat :: Within(i.local, id, v) && Within(a.local, id, v) ==> v <= best
  }

  lemma WelcomeNegotiates(i: Party, a: Party, settled: seq<Settled>)
    requires LocalOk(i.local) && Negotiate(a.local, Offers(i.local, i.require), a.require) == Agreed(settled)
    ensures var answer := AcceptWelcome(i, Welcome(a, settled));
      && (answer.Agreed? <==> Offered(i))
      && (answer.Agreed? ==> forall id :: VersionOf(answer.settled, id) == VersionOf(settled, id))
  {
    var narrowed := Narrowed(settled);
    var back := Offers(narrowed, a.require);
    NarrowedOk(a.local, Offers(i.local, i.require), a.require);
    ParseWritten(narrowed, a.require, {});
    forall id
      ensures Common(i.local, back, id) == VersionOf(settled, id)
      ensures FindOffer(back, id).Some? <==> VersionOf(settled, id).Some?
      ensures FindOffer(back, id).Some? ==>
        FindLocal(i.local, id).Some? && Overlap(FindLocal(i.local, id).value, FindOffer(back, id).value.descriptor)
    {
      CommonAgrees(i, a, settled, id);
    }
    WelcomeOffersKnown(i, back);
    WelcomeSettles(i, back);
    var mine := Settle(i.local, back, i.require);
    forall id
      ensures VersionOf(mine.value, id) == VersionOf(settled, id)
    {
      SettleMeans(i.local, back, i.require, id);
    }
    forall id | id in i.require && FindLocal(i.local, id).Some?
      ensures VersionOf(settled, id).Some?
    {
      RequiredSettled(i, a, settled, id);
    }
  }

  lemma WelcomeOffersKnown(i: Party, back: seq<Offer>)
    requires forall id :: FindOffer(back, id).Some? ==> FindLocal(i.local, id).Some?
    ensures forall k :: 0 <= k < |back| ==> FindLocal(i.local, back[k].descriptor.id).Some?
  {
    forall k | 0 <= k < |back|
      ensures FindLocal(i.local, back[k].descriptor.id).Some?
    {
      FoundOffer(back, k);
    }
  }

  lemma {:induction false} FoundOffer(offers: seq<Offer>, k: nat)
    requires k < |offers|
    ensures FindOffer(offers, offers[k].descriptor.id).Some?
    decreases |offers|
  {
    if k > 0 {
      FoundOffer(offers[1..], k - 1);
    }
  }

  lemma WelcomeSettles(i: Party, back: seq<Offer>)
    requires DistinctIds(i.local)
    requires forall id :: FindOffer(back, id).Some? ==>
      FindLocal(i.local, id).Some? && Overlap(FindLocal(i.local, id).value, FindOffer(back, id).value.descriptor)
    ensures Settle(i.local, back, i.require).Some?
  {
    forall n | 0 <= n < |i.local|
      ensures FindLocal(i.local, i.local[n].id) == Some(i.local[n])
    {
      FoundLocal(i.local, n);
    }
    SettleIff(i.local, back, i.require);
  }

  lemma {:induction false} FoundLocal(ds: seq<Descriptor>, n: nat)
    requires n < |ds| && DistinctIds(ds)
    ensures FindLocal(ds, ds[n].id) == Some(ds[n])
    decreases |ds|
  {
    if n > 0 {
      assert ds[0].id != ds[n].id;
      assert forall k :: 0 <= k < |ds[1..]| ==> ds[1..][k] == ds[k + 1];
      FoundLocal(ds[1..], n - 1);
    }
  }

  // ---------------------------------------------------------------- the loops

  lemma {:induction false} FindOfferAppend(offers: seq<Offer>, last: Offer, id: bytes)
    ensures FindOffer(offers + [last], id)
         == if last.descriptor.id == id then Some(last) else FindOffer(offers, id)
    decreases |offers|
  {
    if offers == [] {
      assert [last][1..] == [] && [] + [last] == [last];
    } else {
      assert (offers + [last])[1..] == offers[1..] + [last];
      FindOfferAppend(offers[1..], last, id);
    }
  }

  lemma {:induction false} SettleAppend(local: seq<Descriptor>, last: Descriptor, offers: seq<Offer>, require: set<bytes>)
    ensures var before, alone := Settle(local, offers, require), Settle([last], offers, require);
      Settle(local + [last], offers, require)
      == if before.None? || alone.None? then None else Some(before.value + alone.value)
    decreases |local|
  {
    if local == [] {
      assert [] + [last] == [last];
      var alone := Settle([last], offers, require);
      if alone.Some? {
        assert [] + alone.value == alone.value;
      }
    } else {
      assert (local + [last])[0] == local[0] && (local + [last])[1..] == local[1..] + [last];
      SettleAppend(local[1..], last, offers, require);
      var rest, alone := Settle(local[1..], offers, require), Settle([last], offers, require);
      var found := FindOffer(offers, local[0].id);
      if rest.Some? && alone.Some? && found.Some? {
        var own := Settled(local[0].id, Min(local[0].maxVersion, found.value.descriptor.maxVersion), local[0],
                           found.value.descriptor);
        assert [own] + (rest.value + alone.value) == [own] + rest.value + alone.value;
      }
      assert Settle(local + [last], offers, require) == Settle([local[0]] + (local[1..] + [last]), offers, require) by {
        assert local + [last] == [local[0]] + (local[1..] + [last]);
      }
    }
  }

  /** A required capability without a common version makes the whole settlement fail. */
  lemma {:induction false} SettleFails(local: seq<Descriptor>, k: nat, offers: seq<Offer>, require: set<bytes>)
    requires k <= |local| && Settle(local[..k], offers, require).None?
    ensures Settle(local, offers, require).None?
  {
    SettleIff(local[..k], offers, require);
    SettleIff(local, offers, require);
    assert forall i :: 0 <= i < k ==> local[..k][i] == local[i];
  }

  /** The local descriptors by id; `None` for an invalid or repeated one. */
  method IndexLocal(local: seq<Descriptor>) returns (byId: Option<map<bytes, Descriptor>>)
    ensures byId.Some? <==> LocalOk(local)
    ensures byId.Some? ==> forall id :: id in byId.value <==> FindLocal(local, id).Some?
  {
    var m: map<bytes, Descriptor> := map[];
    var k := 0;
    while k < |local|
      invariant 0 <= k <= |local| && LocalOk(local[..k])
      invariant forall id :: id in m <==> exists i :: 0 <= i < k && local[i].id == id
    {
      if !ValidDescriptor(local[k]) || local[k].id in m {
        return None;
      }
      m := m[local[k].id := local[k]];
      k := k + 1;
    }
    assert local[..k] == local;
    forall id
      ensures id in m <==> FindLocal(local, id).Some?
    {
      FindLocalMeans(local, id);
    }
    byId := Some(m);
  }

  method IndexOffers(offers: seq<Offer>) returns (byId: map<bytes, Offer>)
    ensures forall id :: FindOffer(offers, id) == if id in byId then Some(byId[id]) else None
  {
    byId := map[];
    var k := 0;
    while k < |offers|
      invariant 0 <= k <= |offers|
      invariant forall id :: FindOffer(offers[..k], id) == if id in byId then Some(byId[id]) else None
    {
      forall id
        ensures FindOffer(offers[..k + 1], id)
             == if offers[k].descriptor.id == id then Some(offers[k]) else FindOffer(offers[..k], id)
      {
        assert offers[..k + 1] == offers[..k] + [offers[k]];
        FindOfferAppend(offers[..k], offers[k], id);
      }
      byId := byId[offers[k].descriptor.id := offers[k]];
      k := k + 1;
    }
    assert offers[..k] == offers;
  }

  method SettleAll(local: seq<Descriptor>, offers: seq<Offer>, byId: map<bytes, Offer>, require: set<bytes>)
    returns (settled: Option<seq<Settled>>)
    requires forall id :: FindOffer(offers, id) == if id in byId then Some(byId[id]) else None
    ensures settled == Settle(local, offers, require)
  {
    var done: seq<Settled> := [];
    var k := 0;
    while k < |local|
      invariant 0 <= k <= |local| && Settle(local[..k], offers, require) == Some(done)
    {
      var own := local[k];
      assert local[..k + 1] == local[..k] + [own];
      SettleAppend(local[..k], own, offers, require);
      SettleOne(own, offers, require);
      if own.id in byId {
        var theirs := byId[own.id].descriptor;
        var minimum, maximum := Max(own.minVersion, theirs.minVersion), Min(own.maxVersion, theirs.maxVersion);
        if minimum <= maximum {
          done := done + [Settled(own.id, maximum, own, theirs)];
        } else if byId[own.id].required || own.id in require {
          SettleFails(local, k + 1, offers, require);
          return None;
        }
      }
      assert done + [] == done;
      k := k + 1;
    }
    assert local[..k] == local;
    settled := Some(done);
  }

  lemma SettleOne(own: Descriptor, offers: seq<Offer>, require: set<bytes>)
    ensures var found := FindOffer(offers, own.id);
      Settle([own], offers, require) ==
        if found.None? then Some([])
        else if Overlap(own, found.value.descriptor) then
          Some([Settled(own.id, Min(own.maxVersion, found.value.descriptor.maxVersion), own, found.value.descriptor)])
        else if found.value.required || own.id in require then None
        else Some([])
  {
    assert [own][1..] == [];
    assert Settle([], offers, require) == Some([]);
    var found := FindOffer(offers, own.id);
    if found.Some? {
      var one := Settled(own.id, Min(own.maxVersion, found.value.descriptor.maxVersion), own, found.value.descriptor);
      assert [one] + [] == [one];
    }
  }

  /** `negotiateCapabilities`. */
  method NegotiateCapabilities(local: seq<Descriptor>, offers: seq<Offer>, require: set<bytes>) returns (r: Outcome)
    ensures r == Negotiate(local, offers, require)
  {
    var mine := IndexLocal(local);
    if mine.None? {
      return BadLocal;
    }
    var theirs := IndexOffers(offers);
    var k := 0;
    while k < |offers|
      invariant 0 <= k <= |offers|
      invariant forall i :: 0 <= i < k && offers[i].required ==> FindLocal(local, offers[i].descriptor.id).Some?
    {
      if offers[k].required && offers[k].descriptor.id !in mine.value {
        return Mismatch;
      }
      k := k + 1;
    }
    var todo := require;
    while todo != {}
      invariant todo <= require
      invariant forall id :: id in require && id !in todo ==> FindOffer(offers, id).Some?
      decreases |todo|
    {
      var id :| id in todo;
      if id !in theirs {
        assert FindOffer(offers, id).None?;
        return Mismatch;
      }
      todo := todo - {id};
    }
    hide Settle;
    var settled := SettleAll(local, offers, theirs, require);
    r := if settled.None? then Mismatch else Agreed(settled.value);
  }

  /** `capabilitiesFromAttributes`. */
  method ReadOffers(attributes: seq<Attribute>) returns (r: Option<seq<Offer>>)
    ensures r == ParseOffers(attributes, {})
  {
    var offers: seq<Offer> := [];
    var ids: set<bytes> := {};
    var k := 0;
    assert attributes[0..] == attributes;
    ghost var whole := ParseOffers(attributes, {});
    assert whole.Some? ==> [] + whole.value == whole.value;
    while k < |attributes|
      invariant 0 <= k <= |attributes|
      invariant ParseOffers(attributes, {})
             == var rest := ParseOffers(attributes[k..], ids); if rest.None? then None else Some(offers + rest.value)
    {
      assert attributes[k..][1..] == attributes[k + 1..] && attributes[k..][0] == attributes[k];
      if IsOffer(attributes[k]) {
        var id := attributes[k].id[|PREFIX|..];
        var d := DecodeRange(id, attributes[k].value);
        if id == [] || id in ids || d.None? {
          return None;
        }
        ids := ids + {id};
        var rest := ParseOffers(attributes[k + 1..], ids);
        if rest.Some? {
          assert offers + ([Offer(d.value, attributes[k].required)] + rest.value)
              == offers + [Offer(d.value, attributes[k].required)] + rest.value;
        }
        offers := offers + [Offer(d.value, attributes[k].required)];
      }
      k := k + 1;
    }
    assert offers + [] == offers;
    r := Some(offers);
  }
}
