/**
 * How two peers' limits become one sender's limits: the 26-byte announcement, the minimum of both, and
 * why a frame encoded within the result is never too large for the peer.
 */
module PeerLimits {
  import opened Bytes
  import opened Frames
  import Codec
  import Compact

  datatype Announced = Announced(limits: Limits, maxInboundStreams: nat, maxInboundItemBytes: nat)

  const PEER_LIMITS_BYTES := 26

  /** What a resolved limit set announces. */
  predicate Resolved(a: Announced) {
    a.limits.Resolved() && 0 < a.maxInboundStreams <= MAX_U32 && 0 < a.maxInboundItemBytes <= MAX_U32
  }

  function Encode(a: Announced): bytes {
    BigEndian(a.limits.maxFrameBytes, 4) + BigEndian(a.limits.maxAttributeBytes, 4) + BigEndian(a.limits.maxAttributes, 4)
    + BigEndian(a.limits.maxAttributeIdBytes, 2) + BigEndian(a.limits.maxAttributeValueBytes, 4)
    + BigEndian(a.maxInboundStreams, 4) + BigEndian(a.maxInboundItemBytes, 4)
  }

  /** `decodePeerProtocolLimits`; `None` when the parameters are malformed. */
  function Decode(value: bytes): Option<Announced> {
    if |value| != PEER_LIMITS_BYTES then None
    else
      var limits := Limits(FromBigEndian(value[0..4]), FromBigEndian(value[4..8]), FromBigEndian(value[8..12]),
                           FromBigEndian(value[12..14]), FromBigEndian(value[14..18]));
      var a := Announced(limits, FromBigEndian(value[18..22]), FromBigEndian(value[22..26]));
      if Plausible(a) then Some(a) else None
  }

  predicate Plausible(a: Announced) {
    && a.limits.maxFrameBytes > 0 && a.limits.maxAttributeBytes > 0 && a.limits.maxAttributes > 0
    && a.limits.maxAttributeIdBytes > 0 && a.limits.maxAttributeValueBytes > 0
    && a.maxInboundStreams > 0 && a.maxInboundItemBytes > 0
    && a.limits.maxFrameBytes >= FRAME_HEADER_BYTES
    && a.limits.maxAttributeBytes < a.limits.maxFrameBytes
    && a.limits.maxAttributeValueBytes <= a.limits.maxAttributeBytes
  }

  lemma Slices(a: bytes, b: bytes, c: bytes, d: bytes, e: bytes, f: bytes, g: bytes)
    requires |a| == |b| == |c| == |e| == |f| == |g| == 4 && |d| == 2
    ensures var s := a + b + c + d + e + f + g;
      && |s| == 26 && s[0..4] == a && s[4..8] == b && s[8..12] == c && s[12..14] == d && s[14..18] == e
      && s[18..22] == f && s[22..26] == g
  {
  }

  /** Every resolved limit set survives its announcement. */
  lemma AnnouncementRoundTrip(a: Announced)
    requires Resolved(a)
    ensures Decode(Encode(a)) == Some(a)
  {
    Pow256Values();
    BigEndianRoundTrip(a.limits.maxFrameBytes, 4);
    BigEndianRoundTrip(a.limits.maxAttributeBytes, 4);
    BigEndianRoundTrip(a.limits.maxAttributes, 4);
    BigEndianRoundTrip(a.limits.maxAttributeIdBytes, 2);
    BigEndianRoundTrip(a.limits.maxAttributeValueBytes, 4);
    BigEndianRoundTrip(a.maxInboundStreams, 4);
    BigEndianRoundTrip(a.maxInboundItemBytes, 4);
    hide BigEndian, FromBigEndian;
    Slices(BigEndian(a.limits.maxFrameBytes, 4), BigEndian(a.limits.maxAttributeBytes, 4),
           BigEndian(a.limits.maxAttributes, 4), BigEndian(a.limits.maxAttributeIdBytes, 2),
           BigEndian(a.limits.maxAttributeValueBytes, 4), BigEndian(a.maxInboundStreams, 4),
           BigEndian(a.maxInboundItemBytes, 4));
  }

  /** An announcement is taken if and only if it is that of a resolved limit set. */
  lemma AnnouncedIff(value: bytes, a: Announced)
    ensures Decode(value) == Some(a) <==> Resolved(a) && value == Encode(a)
  {
    if Decode(value) == Some(a) {
      Pow256Values();
      FromBigEndianRoundTrip(value[0..4]);
      FromBigEndianRoundTrip(value[4..8]);
      FromBigEndianRoundTrip(value[8..12]);
      FromBigEndianRoundTrip(value[12..14]);
      FromBigEndianRoundTrip(value[14..18]);
      FromBigEndianRoundTrip(value[18..22]);
      FromBigEndianRoundTrip(value[22..26]);
      hide BigEndian, FromBigEndian;
      Parts(value);
    }
    if Resolved(a) {
      AnnouncementRoundTrip(a);
    }
  }

  lemma Parts(s: bytes)
    requires |s| == PEER_LIMITS_BYTES
    ensures s == s[0..4] + s[4..8] + s[8..12] + s[12..14] + s[14..18] + s[18..22] + s[22..26]
  {
  }

  /** `applyPeerLimits`: each limit is the smaller of one's own and the peer's. */
  function Outbound(mine: Limits, theirs: Limits): Limits {
    Limits(Min(mine.maxFrameBytes, theirs.maxFrameBytes), Min(mine.maxAttributeBytes, theirs.maxAttributeBytes),
           Min(mine.maxAttributes, theirs.maxAttributes), Min(mine.maxAttributeIdBytes, theirs.maxAttributeIdBytes),
           Min(mine.maxAttributeValueBytes, theirs.maxAttributeValueBytes))
  }

  lemma OutboundWithin(mine: Limits, theirs: Limits)
    requires mine.Resolved() && theirs.Resolved()
    ensures Outbound(mine, theirs).Resolved()
    ensures Outbound(mine, theirs).Within(mine) && Outbound(mine, theirs).Within(theirs)
  {
  }

  /** Nothing is given away: a frame can be written after the negotiation exactly when it fits both sides' limits. */
  lemma OutboundAdmits(mine: Limits, theirs: Limits, f: Frame)
    ensures Codec.EncodeFrame(f, Outbound(mine, theirs)).Ok? <==>
      Codec.EncodeFrame(f, mine).Ok? && Codec.EncodeFrame(f, theirs).Ok?
    ensures Compact.EncodeCompact(f, Outbound(mine, theirs)).Ok? <==>
      Compact.EncodeCompact(f, mine).Ok? && Compact.EncodeCompact(f, theirs).Ok?
  {
    AllFitBoth(mine, theirs, f.attributes);
    hide Codec.AllFit, Codec.AttributeArea, Compact.Section, Compact.CompactHeader, Codec.Header, ShapeOk;
  }

  lemma AllFitBoth(mine: Limits, theirs: Limits, attributes: seq<Attribute>)
    ensures Codec.AllFit(attributes, Outbound(mine, theirs)) <==>
      Codec.AllFit(attributes, mine) && Codec.AllFit(attributes, theirs)
  {
    forall i | 0 <= i < |attributes|
      ensures Codec.AttributeFits(attributes[i], Outbound(mine, theirs)) <==>
        Codec.AttributeFits(attributes[i], mine) && Codec.AttributeFits(attributes[i], theirs)
    {
    }
    hide Codec.AttributeFits, Outbound;
  }

  /**
   * Negotiated limits are sound: what the announcement of `theirs` lets `mine` encode, the peer decodes under
   * `theirs` to the same frame, each attribute id without its leading byte order mark, in either format; only
   * an id that is nothing but that mark is refused, and in the original format alone.
   */
  lemma NegotiatedSound(mine: Limits, theirs: Announced, f: Frame)
    requires mine.Resolved() && Resolved(theirs)
    ensures Decode(Encode(theirs)).Some?
    ensures var out := Outbound(mine, Decode(Encode(theirs)).value.limits);
      var read := f.(attributes := Codec.DecodedAll(f.attributes));
      && (read == f <==> Codec.NoBoms(f.attributes))
      && (Codec.EncodeFrame(f, out).Ok? ==>
            Codec.DecodeFrame(Codec.EncodeFrame(f, out).value, theirs.limits)
            == if Codec.NoBareBoms(f.attributes) then Ok(read) else Err(ViolationFault))
      && (Compact.EncodeCompact(f, out).Ok? ==>
            Compact.DecodeCompact(Compact.EncodeCompact(f, out).value, theirs.limits) == Ok(read))
  {
    AnnouncementRoundTrip(theirs);
    Codec.DecodedArea(f.attributes);
    var out := Outbound(mine, theirs.limits);
    OutboundWithin(mine, theirs.limits);
    hide Codec.EncodeFrame, Codec.DecodeFrame, Compact.EncodeCompact, Compact.DecodeCompact, Encode, Decode;
    if Codec.EncodeFrame(f, out).Ok? {
      Codec.DecodeEncoded(f, out, theirs.limits);
    }
    if Compact.EncodeCompact(f, out).Ok? {
      Compact.DecodeCompactEncoded(f, out, theirs.limits);
    }
  }
}
