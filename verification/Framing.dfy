/**
 * The length-prefixed byte-stream framing of both protocols: a big-endian prefix of four bytes
 * (native) or three (RSocket), then the frame. `Feed` takes one byte; the decoder class takes chunks.
 */
module Framing {
  import opened Bytes

  /** A decoder between bytes: part of a prefix, or part of a frame whose length is known. */
  datatype State = Prefix(got: bytes) | Body(length: nat, got: bytes)

  const START := Prefix([])

  datatype Fed = Fed(state: State, frames: seq<bytes>) | Bad

  predicate Fits(length: nat, max: nat) { 0 < length <= max }

  /** One byte of the stream. */
  function Feed(s: State, c: byte, width: nat, max: nat): Fed {
    match s
    case Prefix(got) =>
      var prefix := got + [c];
      if |prefix| < width then Fed(Prefix(prefix), [])
      else if Fits(FromBigEndian(prefix), max) then Fed(Body(FromBigEndian(prefix), []), [])
      else Bad
    case Body(length, got) =>
      var frame := got + [c];
      if |frame| < length then Fed(Body(length, frame), []) else Fed(START, [frame])
  }

  function FeedAll(s: State, stream: bytes, width: nat, max: nat): Fed
    decreases |stream|
  {
    if stream == [] then Fed(s, [])
    else
      match Feed(s, stream[0], width, max)
      case Bad => Bad
      case Fed(next, first) =>
        match FeedAll(next, stream[1..], width, max)
        case Bad => Bad
        case Fed(end, rest) => Fed(end, first + rest)
  }

  /** One more `push`: the frames found so far are kept, and a decoder that has failed stays failed. */
  function Push(before: Fed, chunk: bytes, width: nat, max: nat): Fed {
    match before
    case Bad => Bad
    case Fed(s, frames) =>
      match FeedAll(s, chunk, width, max)
      case Bad => Bad
      case Fed(end, more) => Fed(end, frames + more)
  }

  lemma {:induction false} FeedConcat(s: State, a: bytes, b: bytes, width: nat, max: nat)
    ensures FeedAll(s, a + b, width, max) == Push(FeedAll(s, a, width, max), b, width, max)
    decreases |a|
  {
    if a == [] {
      assert a + b == b;
    } else {
      assert (a + b)[0] == a[0] && (a + b)[1..] == a[1..] + b;
      var step := Feed(s, a[0], width, max);
      hide Feed;
      if step.Fed? {
        FeedConcat(step.state, a[1..], b, width, max);
        PushFrames(step.frames, FeedAll(step.state, a[1..], width, max), b, width, max);
      }
    }
  }

  function Prepend(frames: seq<bytes>, fed: Fed): Fed {
    match fed
    case Bad => Bad
    case Fed(s, more) => Fed(s, frames + more)
  }

  lemma PushFrames(frames: seq<bytes>, before: Fed, chunk: bytes, width: nat, max: nat)
    ensures Push(Prepend(frames, before), chunk, width, max) == Prepend(frames, Push(before, chunk, width, max))
  {
    if before.Fed? {
      var after := FeedAll(before.state, chunk, width, max);
      if after.Fed? {
        assert frames + before.frames + after.frames == frames + (before.frames + after.frames);
      }
    }
  }

  // ---------------------------------------------------------------- chunking

  function Flatten(chunks: seq<bytes>): bytes
    decreases |chunks|
  {
    if chunks == [] then [] else chunks[0] + Flatten(chunks[1..])
  }

  /** Successive `push` calls, each with one chunk. */
  function PushAll(before: Fed, chunks: seq<bytes>, width: nat, max: nat): Fed
    decreases |chunks|
  {
    if chunks == [] then before else PushAll(Push(before, chunks[0], width, max), chunks[1..], width, max)
  }

  /** Two pushes in a row do what one push of the two chunks laid end to end does. */
  lemma PushTwice(before: Fed, a: bytes, b: bytes, width: nat, max: nat)
    ensures Push(Push(before, a, width, max), b, width, max) == Push(before, a + b, width, max)
  {
    if before.Fed? {
      FeedConcat(before.state, a, b, width, max);
      PushFrames(before.frames, FeedAll(before.state, a, width, max), b, width, max);
    }
  }

  /** However a stream is cut into chunks, the frames and the final state are those of the whole stream. */
  lemma {:induction false} ChunkingInvariant(before: Fed, chunks: seq<bytes>, width: nat, max: nat)
    ensures PushAll(before, chunks, width, max) == Push(before, Flatten(chunks), width, max)
    decreases |chunks|
  {
    if chunks == [] {
      if before.Fed? {
        assert before.frames + [] == before.frames;
      }
    } else {
      hide Push;
      PushTwice(before, chunks[0], Flatten(chunks[1..]), width, max);
      ChunkingInvariant(Push(before, chunks[0], width, max), chunks[1..], width, max);
    }
  }

  // ---------------------------------------------------------------- whole prefixes and whole frames

  lemma {:induction false} FeedPrefix(got: bytes, piece: bytes, width: nat, max: nat)
    requires |got| < width && piece != [] && |got| + |piece| <= width
    ensures FeedAll(Prefix(got), piece, width, max) ==
      var prefix := got + piece;
      if |prefix| < width then Fed(Prefix(prefix), [])
      else if Fits(FromBigEndian(prefix), max) then Fed(Body(FromBigEndian(prefix), []), [])
      else Bad
    decreases |piece|
  {
    var c, rest := piece[0], piece[1..];
    assert got + piece == got + [c] + rest;
    if rest == [] {
      assert got + piece == got + [c];
    } else {
      FeedPrefix(got + [c], rest, width, max);
    }
  }

  lemma {:induction false} FeedBody(length: nat, got: bytes, piece: bytes, width: nat, max: nat)
    requires |got| < length && piece != [] && |got| + |piece| <= length
    ensures FeedAll(Body(length, got), piece, width, max) ==
      if |got| + |piece| < length then Fed(Body(length, got + piece), []) else Fed(START, [got + piece])
    decreases |piece|
  {
    var c, rest := piece[0], piece[1..];
    assert got + piece == got + [c] + rest;
    if rest == [] {
      assert got + piece == got + [c];
    } else {
      FeedBody(length, got + [c], rest, width, max);
    }
  }

  // ---------------------------------------------------------------- encoding

  /** `encodeLengthPrefixedFrame` and its 24-bit twin; `None` is the RangeError. */
  function Encode(frame: bytes, width: nat): Result<bytes> {
    if 0 < |frame| < Pow256(width) then Ok(BigEndian(|frame|, width) + frame) else Err(RangeFault)
  }

  /** A frame is framed if and only if it is not empty and the prefix can tell its length. */
  lemma EncodeIff(frame: bytes, width: nat)
    ensures Encode(frame, width).Ok? <==> frame != [] && FromBigEndian(BigEndian(|frame|, width)) == |frame|
    ensures Encode(frame, width).Ok? ==> Encode(frame, width).value == BigEndian(|frame|, width) + frame
  {
    if |frame| < Pow256(width) {
      BigEndianRoundTrip(|frame|, width);
    }
    FromBigEndianRoundTrip(BigEndian(|frame|, width));
  }

  /** The prefix and then the frame, set into one buffer. */
  method EncodeLengthPrefixed(frame: bytes, width: nat) returns (r: Result<bytes>)
    ensures r == Encode(frame, width)
  {
    if |frame| == 0 || |frame| >= Pow256(width) {
      return Err(RangeFault);
    }
    var prefix := BigEndian(|frame|, width);
    var output := new byte[width + |frame|];
    Put(output, 0, prefix);
    assert output[..width] == prefix;
    Put(output, width, frame);
    assert output[..] == prefix + frame;
    r := Ok(output[..]);
  }

  function EncodeAll(frames: seq<bytes>, width: nat): Result<bytes>
    decreases |frames|
  {
    if frames == [] then Ok([])
    else
      match Encode(frames[0], width)
      case Err(fault) => Err(fault)
      case Ok(first) =>
        match EncodeAll(frames[1..], width)
        case Err(fault) => Err(fault)
        case Ok(rest) => Ok(first + rest)
  }

  lemma FeedEncoded(frame: bytes, rest: bytes, width: nat, max: nat)
    requires width > 0 && Encode(frame, width).Ok?
    ensures FeedAll(START, Encode(frame, width).value + rest, width, max)
         == if |frame| <= max then Prepend([frame], FeedAll(START, rest, width, max)) else Bad
  {
    var prefix := BigEndian(|frame|, width);
    BigEndianRoundTrip(|frame|, width);
    assert prefix + frame + rest == prefix + (frame + rest);
    FeedHeader(prefix, frame + rest, width, max);
    FeedFrame(frame, rest, width, max);
  }

  /** Framing then deframing returns the frames, exactly when the decoder's limit admits each of them. */
  lemma {:induction false} DeframesFramed(frames: seq<bytes>, width: nat, max: nat)
    requires width > 0 && EncodeAll(frames, width).Ok?
    ensures FeedAll(START, EncodeAll(frames, width).value, width, max) == Fed(START, frames)
       <==> forall i :: 0 <= i < |frames| ==> |frames[i]| <= max
    ensures !(forall i :: 0 <= i < |frames| ==> |frames[i]| <= max) ==>
      FeedAll(START, EncodeAll(frames, width).value, width, max) == Bad
    decreases |frames|
  {
    if frames != [] {
      var first, rest := Encode(frames[0], width).value, EncodeAll(frames[1..], width).value;
      FeedEncoded(frames[0], rest, width, max);
      hide FeedAll;
      DeframesFramed(frames[1..], width, max);
      assert frames == [frames[0]] + frames[1..];
    }
  }

  // ---------------------------------------------------------------- one-shot parse

  /** The frames at the front of a complete stream, and what is left; `None` if a length is refused. */
  function Parse(stream: bytes, width: nat, max: nat): Option<(seq<bytes>, bytes)>
    requires width > 0
    decreases |stream|
  {
    if |stream| < width then Some(([], stream))
    else
      var length := FromBigEndian(stream[..width]);
      if !Fits(length, max) then None
      else if |stream| - width < length then Some(([], stream))
      else
        match Parse(stream[width + length..], width, max)
        case None => None
        case Some((frames, rest)) => Some(([stream[width..width + length]] + frames, rest))
  }

  /** The state a decoder is in after the bytes of an unfinished frame. */
  function Unfinished(rest: bytes, width: nat): State
    requires width > 0
  {
    if |rest| < width then Prefix(rest) else Body(FromBigEndian(rest[..width]), rest[width..])
  }

  /** Feeding byte by byte finds the same frames as parsing the whole stream at once. */
  lemma {:induction false} FeedIsParse(stream: bytes, width: nat, max: nat)
    requires width > 0
    ensures FeedAll(START, stream, width, max)
         == match Parse(stream, width, max)
            case None => Bad
            case Some((frames, rest)) => Fed(Unfinished(rest, width), frames)
    decreases |stream|
  {
    hide FeedAll, FromBigEndian;
    if |stream| < width {
      FeedShort(stream, width, max);
    } else {
      var prefix, tail := stream[..width], stream[width..];
      var length := FromBigEndian(prefix);
      FeedHeader(prefix, tail, width, max);
      assert stream == prefix + tail;
      if Fits(length, max) {
        if |tail| < length {
          FeedUnfinished(length, tail, width, max);
        } else {
          var frame, rest := tail[..length], tail[length..];
          assert tail == frame + rest;
          assert stream[width..width + length] == frame && stream[width + length..] == rest;
          FeedFrame(frame, rest, width, max);
          FeedIsParse(rest, width, max);
        }
      }
    }
  }

  lemma FeedShort(stream: bytes, width: nat, max: nat)
    requires |stream| < width
    ensures FeedAll(START, stream, width, max) == Fed(Prefix(stream), [])
  {
    if stream != [] {
      FeedPrefix([], stream, width, max);
      assert [] + stream == stream;
    }
  }

  lemma FeedHeader(prefix: bytes, tail: bytes, width: nat, max: nat)
    requires width > 0 && |prefix| == width
    ensures FeedAll(START, prefix + tail, width, max)
         == if Fits(FromBigEndian(prefix), max) then FeedAll(Body(FromBigEndian(prefix), []), tail, width, max) else Bad
  {
    hide FeedAll, Push, FromBigEndian;
    assert [] + prefix == prefix;
    FeedPrefix([], prefix, width, max);
    FeedConcat(START, prefix, tail, width, max);
    FeedAfterHeader(FeedAll(START, prefix, width, max), prefix, tail, width, max);
  }

  lemma FeedAfterHeader(fed: Fed, prefix: bytes, tail: bytes, width: nat, max: nat)
    requires fed == if Fits(FromBigEndian(prefix), max) then Fed(Body(FromBigEndian(prefix), []), []) else Bad
    ensures Push(fed, tail, width, max)
         == if Fits(FromBigEndian(prefix), max) then FeedAll(Body(FromBigEndian(prefix), []), tail, width, max) else Bad
  {
    hide FeedAll, FromBigEndian;
    var rest := FeedAll(Body(FromBigEndian(prefix), []), tail, width, max);
    if rest.Fed? {
      assert [] + rest.frames == rest.frames;
    }
  }

  lemma FeedFrame(frame: bytes, rest: bytes, width: nat, max: nat)
    requires frame != []
    ensures FeedAll(Body(|frame|, []), frame + rest, width, max) == Prepend([frame], FeedAll(START, rest, width, max))
  {
    FeedBody(|frame|, [], frame, width, max);
    assert [] + frame == frame;
    FeedConcat(Body(|frame|, []), frame, rest, width, max);
  }

  lemma FeedUnfinished(length: nat, tail: bytes, width: nat, max: nat)
    requires |tail| < length
    ensures FeedAll(Body(length, []), tail, width, max) == Fed(Body(length, tail), [])
  {
    if tail != [] {
      FeedBody(length, [], tail, width, max);
      assert [] + tail == tail;
    }
  }
}
