/** The incremental deframer as an object that keeps a prefix and a frame across chunks. */
module Deframer {
  import opened Bytes
  import opened Framing

  class Decoder {
    const width: nat
    const maxFrameBytes: nat
    const prefix: array<byte>
    var prefixBytes: nat
    var frame: array?<byte>
    var frameBytes: nat

    ghost predicate Valid()
      reads this, prefix, frame
    {
      && width > 0 && prefix.Length == width && prefixBytes < width
      && frame != prefix
      && (frame == null ==> frameBytes == 0)
      && (frame != null ==> prefixBytes == 0 && frameBytes < frame.Length)
    }

    ghost function View(): State
      requires Valid()
      reads this, prefix, frame
    {
      if frame == null then Prefix(prefix[..prefixBytes]) else Body(frame.Length, frame[..frameBytes])
    }

    constructor (width: nat, maxFrameBytes: nat)
      requires width > 0 && maxFrameBytes > 0
      ensures Valid() && fresh(prefix) && frame == null
      ensures this.width == width && this.maxFrameBytes == maxFrameBytes && View() == START
    {
      this.width := width;
      this.maxFrameBytes := maxFrameBytes;
      prefix := new byte[width];
      prefixBytes, frame, frameBytes := 0, null, 0;
    }

    /** Fills the prefix from the chunk, as far as either goes. */
    method ReadPrefix(chunk: bytes, offset: nat) returns (next: nat)
      requires Valid() && frame == null && offset <= |chunk|
      modifies this`prefixBytes, prefix
      ensures offset <= next <= |chunk| && prefixBytes <= width
      ensures prefix[..prefixBytes] == old(prefix[..prefixBytes]) + chunk[offset..next]
      ensures prefixBytes < width ==> next == |chunk|
      ensures offset < |chunk| ==> offset < next
    {
      next := offset;
      while prefixBytes < width && next < |chunk|
        invariant offset <= next <= |chunk| && prefixBytes <= width
        invariant prefix[..prefixBytes] == old(prefix[..prefixBytes]) + chunk[offset..next]
        invariant next == offset ==> prefixBytes < width
      {
        prefix[prefixBytes] := chunk[next];
        prefixBytes := prefixBytes + 1;
        next := next + 1;
      }
    }

    /** Copies what the chunk has of the current frame; a complete frame is handed out. */
    method ReadFrame(chunk: bytes, offset: nat) returns (next: nat, frames: seq<bytes>)
      requires Valid() && frame != null && offset <= |chunk|
      modifies this`frame, this`frameBytes, frame
      ensures Valid() && offset <= next <= |chunk|
      ensures frame == null || frame == old(frame)
      ensures old(View()).Body? && FeedAll(old(View()), chunk[offset..next], width, maxFrameBytes) == Fed(View(), frames)
      ensures offset < |chunk| ==> offset < next
    {
      var whole := frame;
      var take := Min(whole.Length - frameBytes, |chunk| - offset);
      ghost var got, piece := whole[..frameBytes], chunk[offset..offset + take];
      Put(whole, frameBytes, chunk[offset..offset + take]);
      assert whole[..frameBytes + take] == got + piece;
      frameBytes := frameBytes + take;
      next, frames := offset + take, [];
      if piece != [] {
        FeedBody(whole.Length, got, piece, width, maxFrameBytes);
      }
      if frameBytes == whole.Length {
        assert whole[..] == got + piece;
        frames := [whole[..]];
        frame, frameBytes := null, 0;
      }
    }

    /** The number in the full prefix. */
    method ReadBigEndian() returns (n: nat)
      requires prefix.Length == width
      ensures n == FromBigEndian(prefix[..])
    {
      n := 0;
      var i := 0;
      while i < width
        invariant 0 <= i <= width && n == FromBigEndian(prefix[..i])
      {
        n := n * 256 + prefix[i];
        i := i + 1;
        assert prefix[..i][..i - 1] == prefix[..i - 1];
      }
      assert prefix[..i] == prefix[..];
    }

    /** Reads the rest of the prefix; once it is whole, makes room for the frame it announces. */
    method ReadHeader(chunk: bytes, offset: nat) returns (next: nat, ok: bool)
      requires Valid() && frame == null && offset < |chunk|
      modifies this, prefix
      ensures offset < next <= |chunk|
      ensures ok ==> Valid() && (frame == null ==> next == |chunk|) && (frame != null ==> fresh(frame))
      ensures FeedAll(old(View()), chunk[offset..next], width, maxFrameBytes) == if ok then Fed(View(), []) else Bad
    {
      ghost var before := View();
      next := ReadPrefix(chunk, offset);
      FeedPrefix(before.got, chunk[offset..next], width, maxFrameBytes);
      hide FeedAll;
      ok := true;
      if prefixBytes == width {
        var length := ReadBigEndian();
        assert prefix[..] == prefix[..prefixBytes];
        prefixBytes := 0;
        ok := 0 < length <= maxFrameBytes;
        if ok {
          frame := new byte[length];
          frameBytes := 0;
          assert frame[..0] == [];
        }
      }
    }

    method Push(chunk: bytes) returns (r: Result<seq<bytes>>)
      requires Valid()
      modifies this, prefix, frame
      ensures match FeedAll(old(View()), chunk, width, maxFrameBytes)
        case Bad => r == Err(ViolationFault)
        case Fed(s, frames) => r == Ok(frames) && Valid() && View() == s
      ensures r.Ok? ==> frame == null || frame == old(frame) || fresh(frame)
    {
      ghost var start := View();
      var frames: seq<bytes> := [];
      var offset := 0;
      assert chunk[..0] == [];
      assert FeedAll(start, [], width, maxFrameBytes) == Fed(start, []);
      hide FeedAll;
      while offset < |chunk|
        invariant Valid() && 0 <= offset <= |chunk|
        invariant frame == null || frame == old(frame) || fresh(frame)
        invariant FeedAll(start, chunk[..offset], width, maxFrameBytes) == Fed(View(), frames)
      {
        ghost var at, before := offset, View();
        if frame == null {
          var ok;
          offset, ok := ReadHeader(chunk, offset);
          Extend(start, chunk, at, offset, frames, before, width, maxFrameBytes);
          if !ok {
            Fails(start, chunk, offset, width, maxFrameBytes);
            return Err(ViolationFault);
          }
          assert frames + [] == frames;
        }
        if frame != null {
          at, before := offset, View();
          var more;
          offset, more := ReadFrame(chunk, offset);
          Extend(start, chunk, at, offset, frames, before, width, maxFrameBytes);
          frames := frames + more;
        }
      }
      assert chunk[..offset] == chunk;
      return Ok(frames);
    }
  }

  /** What is known up to `at`, carried on to `next`. */
  lemma Extend(start: State, chunk: bytes, at: nat, next: nat, found: seq<bytes>, before: State, width: nat, max: nat)
    requires at <= next <= |chunk|
    requires FeedAll(start, chunk[..at], width, max) == Fed(before, found)
    ensures FeedAll(start, chunk[..next], width, max)
         == Prepend(found, FeedAll(before, chunk[at..next], width, max))
  {
    assert chunk[..next] == chunk[..at] + chunk[at..next];
    FeedConcat(start, chunk[..at], chunk[at..next], width, max);
  }

  lemma Fails(start: State, chunk: bytes, at: nat, width: nat, max: nat)
    requires at <= |chunk| && FeedAll(start, chunk[..at], width, max) == Bad
    ensures FeedAll(start, chunk, width, max) == Bad
  {
    assert chunk == chunk[..at] + chunk[at..];
    FeedConcat(start, chunk[..at], chunk[at..], width, max);
  }
}
