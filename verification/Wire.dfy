/**
 * The frames of streams on the wire: what one session writes for them is what the other session reads,
 * through either codec, and whatever the decoders let through has the shape the session relies on.
 */
module Wire {
  import opened Bytes
  import opened Frames
  import opened Accounting
  import Codec
  import Compact
  import FragmentPlan
  import Utf8

  /** The values of the ERROR code attributes, in order. */
  function Codes(attributes: seq<Attribute>): seq<bytes> {
    if attributes == [] then []
    else (if attributes[0].id == Compact.ERROR_CODE then [attributes[0].value] else []) + Codes(attributes[1..])
  }

  /** The code an ERROR names, unless it names several or requires something else to be understood. */
  function Diagnosed(attributes: seq<Attribute>): Option<Option<bytes>> {
    var codes := Codes(attributes);
    if |codes| > 1 then None
    else if exists i :: 0 <= i < |attributes| && attributes[i].required && attributes[i].id != Compact.ERROR_CODE then None
    else Some(if codes == [] then None else Some(codes[0]))
  }

  /** The stream frame that the session takes a decoded frame for; the text of terminators is left out. */
  function BodyOf(f: Frame): Option<Body>
    requires f.streamId >= 0 && f.credit >= 0 && f.fragmentLength >= 0
  {
    var s := f.streamId;
    if f.kind == OPEN then Some(Open(s, f.attributes))
    else if f.kind == DATA then
      Some(if f.flags == DATA_FRAGMENTED_FLAG then First(s, f.fragmentLength, f.attributes, f.payload)
           else Data(s, f.attributes, f.payload))
    else if f.kind == FRAGMENT then Some(Fragment(s, f.payload))
    else if f.kind == DEMAND then Some(Demand(s, f.credit))
    else if f.kind == COMPLETE then Some(Complete(s))
    else if f.kind == CANCEL then Some(Cancel(s))
    else if f.kind == ERROR && s != 0 && Diagnosed(f.attributes).Some? then Some(Error(s, Diagnosed(f.attributes).value))
    else None
  }

  /** A sequence number and a stream frame, when that is what arrived. */
  function Arrived(decoded: Result<Frame>): Option<(int, Body)> {
    if decoded.Err? then None
    else
      var f := decoded.value;
      if f.streamId < 0 || f.credit < 0 || f.fragmentLength < 0 || BodyOf(f).None? then None
      else Some((f.sequence, BodyOf(f).value))
  }

  function Carried(b: Body): seq<Attribute> { if b.Open? || b.Data? || b.First? then b.attributes else [] }

  lemma CodeHasNoBom()
    ensures !Utf8.HasBom(Compact.ERROR_CODE)
  {
    hide Compact.Plain, Utf8.HasBom;
    Compact.NamesArePlain();
    Compact.PlainIsValid(Compact.ERROR_CODE);
  }

  lemma CodeRead(code: Option<bytes>)
    ensures var attributes := if code.None? then [] else [Attribute(Compact.ERROR_CODE, code.value, false)];
      Diagnosed(attributes) == Some(code) && Codec.NoBoms(attributes)
  {
    hide Codec.NoBoms, Utf8.HasBom;
    CodeHasNoBom();
    if code.None? {
      OneId([]);
    } else {
      OneCode(Attribute(Compact.ERROR_CODE, code.value, false));
      OneId([Attribute(Compact.ERROR_CODE, code.value, false)]);
    }
  }

  lemma OneCode(a: Attribute)
    requires a.id == Compact.ERROR_CODE
    ensures Codes([a]) == [a.value]
  {
    assert [a][1..] == [];
  }

  lemma OneId(attributes: seq<Attribute>)
    requires forall i :: 0 <= i < |attributes| ==> !Utf8.HasBom(attributes[i].id)
    ensures Codec.NoBoms(attributes)
  {
    hide Utf8.HasBom;
  }

  /** The body of the frame with its attribute ids as the decoder shows them. */
  function Shown(b: Body): Body {
    match b
    case Open(id, attributes) => Open(id, Codec.DecodedAll(attributes))
    case Data(id, attributes, payload) => Data(id, Codec.DecodedAll(attributes), payload)
    case First(id, total, attributes, payload) => First(id, total, Codec.DecodedAll(attributes), payload)
    case _ => b
  }

  lemma ShownRead(b: Body, sequence: nat)
    requires b.id > 0
    ensures var f := FragmentPlan.ToFrame(b, sequence);
      BodyOf(f.(attributes := Codec.DecodedAll(f.attributes))) == Some(Shown(b))
  {
    if b.Error? {
      CodeRead(b.code);
      Codec.DecodedArea(FragmentPlan.ToFrame(b, sequence).attributes);
    }
  }

  lemma ShownIff(b: Body)
    ensures Shown(b) == b <==> Codec.NoBoms(Carried(b))
  {
    Codec.DecodedArea(Carried(b));
  }

  /**
   * A stream frame that was written is read back as itself, with its sequence number, exactly when none of its
   * attribute ids starts with a byte order mark; in the original form and in the compact form.
   */
  lemma ReadBackIff(b: Body, sequence: nat, limits: Limits, wider: Limits)
    requires limits.Resolved() && wider.Resolved() && limits.Within(wider) && b.id > 0
    ensures var f := FragmentPlan.ToFrame(b, sequence);
      && (Codec.EncodeFrame(f, limits).Ok? ==>
            (Arrived(Codec.DecodeFrame(Codec.EncodeFrame(f, limits).value, wider)) == Some((sequence, b))
             <==> Codec.NoBoms(Carried(b))))
      && (Compact.EncodeCompact(f, limits).Ok? ==>
            (Arrived(Compact.DecodeCompact(Compact.EncodeCompact(f, limits).value, wider)) == Some((sequence, b))
             <==> Codec.NoBoms(Carried(b))))
  {
    hide Codec.EncodeFrame, Codec.DecodeFrame, Compact.EncodeCompact, Compact.DecodeCompact, Shown, Codec.DecodedAll;
    var f := FragmentPlan.ToFrame(b, sequence);
    ShownRead(b, sequence);
    ShownIff(b);
    if Codec.EncodeFrame(f, limits).Ok? {
      Codec.DecodeEncoded(f, limits, wider);
    }
    if Compact.EncodeCompact(f, limits).Ok? {
      Compact.DecodeCompactEncoded(f, limits, wider);
    }
    if b.Error? {
      CodeRead(b.code);
    }
  }

  /** What is read of a frame is all there is to it, apart from the text of terminators. */
  lemma NothingElse(f: Frame)
    requires ShapeOk(f) && f.streamId > 0 && BodyOf(f).Some?
    requires f.kind == CANCEL || f.kind == ERROR ==> f.payload == []
    requires f.kind == ERROR ==> forall i :: 0 <= i < |f.attributes| ==> f.attributes[i].id == Compact.ERROR_CODE && !f.attributes[i].required
    ensures FragmentPlan.ToFrame(BodyOf(f).value, f.sequence) == f
  {
    if f.kind == ERROR {
      OnlyCode(f.attributes);
    }
  }

  lemma {:induction false} CodesOfCodes(attributes: seq<Attribute>)
    requires forall i :: 0 <= i < |attributes| ==> attributes[i].id == Compact.ERROR_CODE
    ensures |Codes(attributes)| == |attributes|
    decreases |attributes|
  {
    if attributes != [] {
      CodesOfCodes(attributes[1..]);
    }
  }

  lemma OnlyCode(attributes: seq<Attribute>)
    requires |Codes(attributes)| <= 1
    requires forall i :: 0 <= i < |attributes| ==> attributes[i].id == Compact.ERROR_CODE && !attributes[i].required
    ensures attributes == if Codes(attributes) == [] then [] else [Attribute(Compact.ERROR_CODE, Codes(attributes)[0], false)]
  {
    CodesOfCodes(attributes);
  }

  lemma Shaped(f: Frame)
    requires ShapeOk(f) && Arrived(Ok(f)).Some?
    ensures WellShaped(Arrived(Ok(f)).value.1)
  {
  }

  lemma DecodedShape(input: bytes, limits: Limits)
    ensures Codec.DecodeFrame(input, limits).Ok? ==> ShapeOk(Codec.DecodeFrame(input, limits).value)
  {
    hide ShapeOk, Codec.DecodeAttributes, Codec.ReadHeader, Codec.ValueAllowed, Codec.Assemble;
  }

  lemma DecodedCompactShape(input: bytes, limits: Limits)
    ensures Compact.DecodeCompact(input, limits).Ok? ==> ShapeOk(Compact.DecodeCompact(input, limits).value)
  {
    hide ShapeOk, Compact.WireEntries, Compact.AssembleCompact, Compact.ShownAll;
  }

  /** What either decoder lets through is shaped as the session takes for granted. */
  lemma ReadWellShaped(input: bytes, limits: Limits)
    ensures Arrived(Codec.DecodeFrame(input, limits)).Some? ==> WellShaped(Arrived(Codec.DecodeFrame(input, limits)).value.1)
    ensures Arrived(Compact.DecodeCompact(input, limits)).Some? ==> WellShaped(Arrived(Compact.DecodeCompact(input, limits)).value.1)
  {
    hide ShapeOk, Codec.DecodeFrame, Compact.DecodeCompact, BodyOf, WellShaped;
    DecodedShape(input, limits);
    DecodedCompactShape(input, limits);
    var legacy, compact := Codec.DecodeFrame(input, limits), Compact.DecodeCompact(input, limits);
    if Arrived(legacy).Some? { Shaped(legacy.value); }
    if Arrived(compact).Some? { Shaped(compact.value); }
  }

  /** Frames without attributes always encode: a grant, an end, and a diagnostic that names no code. */
  lemma SignalsEncode(b: Body, sequence: nat, w: FragmentPlan.Outbound)
    requires w.Valid() && 0 < b.id <= MAX_U64 && 0 < sequence <= MAX_U64
    requires match b
      case Demand(_, n) => 0 < n <= MAX_U32
      case Complete(_) => true
      case Cancel(_) => true
      case Error(_, code) => code == None
      case _ => false
    ensures FragmentPlan.Encodes(FragmentPlan.ToFrame(b, sequence), w)
  {
    FragmentPlan.NoAttributes();
    FragmentPlan.EncodesWhenReserved(FragmentPlan.ToFrame(b, sequence), w);
  }
}
