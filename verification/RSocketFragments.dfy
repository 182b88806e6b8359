/**
 * RSocket fragmentation (RSocket Protocol 1.0, "Fragmentation and Reassembly"): how a logical request
 * or PAYLOAD frame is cut into wire fragments, metadata before data.
 */
module RSocketFragments {
  import opened Bytes
  import opened RSocketCodec

  /** The smallest configurable frame limit. */
  const MIN_MAX_FRAME := 64

  datatype Piece = Piece(metadata: Option<bytes>, data: Option<bytes>, moreMetadata: bytes, moreData: bytes)
  {
    predicate More() { moreMetadata != [] || moreData != [] }
  }

  /** As much of what remains as one fragment holds. */
  function TakePiece(capacity: nat, metadata: bytes, data: bytes): Piece
    requires capacity > 3
  {
    var m := if metadata == [] then 0 else Min(|metadata|, capacity - 3);
    var left := if metadata == [] then capacity else capacity - 3 - m;
    var d := if m < |metadata| then 0 else Min(|data|, left);
    Piece(if metadata == [] then None else Some(metadata[..m]),
          if d == 0 then None else Some(data[..d]),
          metadata[m..], data[d..])
  }

  /** COMPLETE survives on the last fragment of a PAYLOAD or a REQUEST_CHANNEL. */
  predicate KeepsComplete(f: Frame) { f.flags.complete && (f.kind.Payload? || f.kind.RequestChannel?) }

  function Fragment(f: Frame, kind: Kind, n: nat, piece: Piece): Frame {
    Frame(kind, f.streamId,
          NO_FLAGS.(follows := piece.More(), next := kind.Payload?, complete := !piece.More() && KeepsComplete(f)),
          n, piece.metadata, piece.data)
  }

  /** The PAYLOAD frames that carry what the first fragment did not. */
  function Continuations(f: Frame, metadata: bytes, data: bytes, max: nat): seq<Frame>
    requires max >= MIN_MAX_FRAME
    decreases |metadata| + |data|
  {
    if metadata == [] && data == [] then []
    else
      var piece := TakePiece(max - HEADER_BYTES, metadata, data);
      [Fragment(f, Payload, 0, piece)] + Continuations(f, piece.moreMetadata, piece.moreData, max)
  }

  function FirstCapacity(f: Frame, max: nat): nat
    requires max >= MIN_MAX_FRAME
  {
    max - HEADER_BYTES - (if Counted(f.kind) then 4 else 0)
  }

  /** `fragmentFrame`. */
  function Fragments(f: Frame, max: nat): seq<Frame>
    requires max >= MIN_MAX_FRAME
  {
    if EncodedBytes(f) <= max then [f]
    else
      var piece := TakePiece(FirstCapacity(f, max), Content(f.metadata), Content(f.data));
      [Fragment(f, f.kind, f.initialRequestN, piece)] + Continuations(f, piece.moreMetadata, piece.moreData, max)
  }

  /** A frame that has to be fragmented leaves something for a second fragment, unless all it sheds is empty metadata. */
  lemma NeedsMore(f: Frame, max: nat)
    requires max >= MIN_MAX_FRAME && EncodedBytes(f) > max && f.metadata != Some([])
    ensures TakePiece(FirstCapacity(f, max), Content(f.metadata), Content(f.data)).More()
    ensures |Fragments(f, max)| >= 2
  {
  }

  /** A piece that leaves something over fills its fragment. */
  lemma PieceFills(f: Frame, kind: Kind, n: nat, capacity: nat, metadata: bytes, data: bytes)
    requires capacity > 3 && TakePiece(capacity, metadata, data).More()
    ensures EncodedBytes(Fragment(f, kind, n, TakePiece(capacity, metadata, data)))
         == HEADER_BYTES + (if Counted(kind) then 4 else 0) + capacity
  {
  }

  lemma {:induction false} ContinuationsFill(f: Frame, metadata: bytes, data: bytes, max: nat, i: nat)
    requires max >= MIN_MAX_FRAME && i < |Continuations(f, metadata, data, max)| - 1
    ensures EncodedBytes(Continuations(f, metadata, data, max)[i]) == max
    decreases |metadata| + |data|
  {
    var piece := TakePiece(max - HEADER_BYTES, metadata, data);
    var rest := Continuations(f, piece.moreMetadata, piece.moreData, max);
    assert rest != [];
    if i == 0 {
      PieceFills(f, Payload, 0, max - HEADER_BYTES, metadata, data);
    } else {
      ContinuationsFill(f, piece.moreMetadata, piece.moreData, max, i - 1);
    }
  }

  /** A frame is cut only when it has to be, and then every fragment but the last is as long as it may be. */
  lemma FragmentsFill(f: Frame, max: nat)
    requires max >= MIN_MAX_FRAME
    ensures EncodedBytes(f) <= max ==> Fragments(f, max) == [f]
    ensures EncodedBytes(f) > max ==> forall i :: 0 <= i < |Fragments(f, max)| - 1 ==> EncodedBytes(Fragments(f, max)[i]) == max
  {
    if EncodedBytes(f) > max {
      var piece := TakePiece(FirstCapacity(f, max), Content(f.metadata), Content(f.data));
      var rest := Continuations(f, piece.moreMetadata, piece.moreData, max);
      forall i | 0 <= i < |Fragments(f, max)| - 1
        ensures EncodedBytes(Fragments(f, max)[i]) == max
      {
        if i == 0 {
          assert rest != [];
          PieceFills(f, f.kind, f.initialRequestN, FirstCapacity(f, max), Content(f.metadata), Content(f.data));
        } else {
          ContinuationsFill(f, piece.moreMetadata, piece.moreData, max, i - 1);
        }
      }
    }
  }

  // ---------------------------------------------------------------- every fragment fits and encodes

  lemma PieceFits(f: Frame, kind: Kind, n: nat, capacity: nat, metadata: bytes, data: bytes)
    requires capacity > 3
    ensures EncodedBytes(Fragment(f, kind, n, TakePiece(capacity, metadata, data)))
         <= HEADER_BYTES + (if Counted(kind) then 4 else 0) + capacity
  {
  }

  lemma {:induction false} ContinuationsFit(f: Frame, metadata: bytes, data: bytes, max: nat)
    requires MIN_MAX_FRAME <= max <= MAX_FRAME_BYTES && 0 < f.streamId <= MAX_U31
    ensures forall i :: 0 <= i < |Continuations(f, metadata, data, max)| ==>
      var g := Continuations(f, metadata, data, max)[i];
      EncodedBytes(g) <= max && Encodable(g) && FlagsOk(g) && g.kind.Payload?
    decreases |metadata| + |data|
  {
    if metadata != [] || data != [] {
      var piece := TakePiece(max - HEADER_BYTES, metadata, data);
      PieceFits(f, Payload, 0, max - HEADER_BYTES, metadata, data);
      ContinuationsFit(f, piece.moreMetadata, piece.moreData, max);
    }
  }

  /** The fields of a request or PAYLOAD frame other than its size. */
  predicate Writable(f: Frame) {
    && 0 < f.streamId <= MAX_U31
    && (Counted(f.kind) ==> 0 < f.initialRequestN <= MAX_U31)
    && (f.kind.Payload? ==> f.flags.next || f.flags.complete)
    && FlagsOk(f)
  }

  /**
   * All or nothing: every fragment is within the limit and encodes, unless the first one does not
   * encode; so a request that fails to start has put nothing on the wire.
   */
  lemma FragmentsEncode(f: Frame, max: nat)
    requires MIN_MAX_FRAME <= max <= MAX_FRAME_BYTES
    ensures Writable(f) ==> forall i :: 0 <= i < |Fragments(f, max)| ==>
      Encode(Fragments(f, max)[i]).Ok? && |Encode(Fragments(f, max)[i]).value| <= max && FlagsOk(Fragments(f, max)[i])
    ensures f.streamId == 0 || f.streamId > MAX_U31 || (Counted(f.kind) && !(0 < f.initialRequestN <= MAX_U31)) ==>
      Encode(Fragments(f, max)[0]).Err?
  {
    var frames := Fragments(f, max);
    if Writable(f) {
      if EncodedBytes(f) > max {
        var piece := TakePiece(FirstCapacity(f, max), Content(f.metadata), Content(f.data));
        PieceFits(f, f.kind, f.initialRequestN, FirstCapacity(f, max), Content(f.metadata), Content(f.data));
        ContinuationsFit(f, piece.moreMetadata, piece.moreData, max);
      }
      forall i | 0 <= i < |frames|
        ensures Encode(frames[i]).Ok? && |Encode(frames[i]).value| <= max && FlagsOk(frames[i])
      {
        assert EncodedBytes(frames[i]) <= max && Encodable(frames[i]) && FlagsOk(frames[i]);
        DecodeEncodedIff(frames[i]);
      }
    }
  }

  // ---------------------------------------------------------------- the loop

  /** One fragment's share, read off the two offsets. */
  method NextPiece(capacity: nat, metadata: bytes, data: bytes, metadataOffset: nat, dataOffset: nat)
    returns (piece: Piece, newMetadataOffset: nat, newDataOffset: nat)
    requires capacity > 3 && metadataOffset <= |metadata| && dataOffset <= |data|
    ensures metadataOffset <= newMetadataOffset <= |metadata| && dataOffset <= newDataOffset <= |data|
    ensures piece == TakePiece(capacity, metadata[metadataOffset..], data[dataOffset..])
    ensures piece.moreMetadata == metadata[newMetadataOffset..] && piece.moreData == data[newDataOffset..]
  {
    var left := capacity;
    newMetadataOffset, newDataOffset := metadataOffset, dataOffset;
    var metadataChunk: Option<bytes>, dataChunk: Option<bytes> := None, None;
    if metadataOffset < |metadata| {
      var take := Min(|metadata| - metadataOffset, left - 3);
      metadataChunk := Some(metadata[metadataOffset..metadataOffset + take]);
      newMetadataOffset := metadataOffset + take;
      left := left - 3 - take;
      assert metadata[metadataOffset..][..take] == metadata[metadataOffset..metadataOffset + take];
    }
    assert metadata[metadataOffset..][newMetadataOffset - metadataOffset..] == metadata[newMetadataOffset..];
    if newMetadataOffset >= |metadata| && left > 0 && dataOffset < |data| {
      var take := Min(|data| - dataOffset, left);
      dataChunk := Some(data[dataOffset..dataOffset + take]);
      newDataOffset := dataOffset + take;
      assert data[dataOffset..][..take] == data[dataOffset..dataOffset + take];
    }
    assert data[dataOffset..][newDataOffset - dataOffset..] == data[newDataOffset..];
    piece := Piece(metadataChunk, dataChunk, metadata[newMetadataOffset..], data[newDataOffset..]);
  }

  /** What is left to send from an offset. */
  function From(s: bytes, offset: nat): bytes
    requires offset <= |s|
  {
    s[offset..]
  }

  method NextFragment(f: Frame, metadata: bytes, data: bytes, metadataOffset: nat, dataOffset: nat, max: nat)
    returns (fragment: Frame, m: nat, d: nat)
    requires max >= MIN_MAX_FRAME && metadataOffset <= |metadata| && dataOffset <= |data|
    requires metadataOffset < |metadata| || dataOffset < |data|
    ensures metadataOffset <= m <= |metadata| && dataOffset <= d <= |data| && metadataOffset + dataOffset < m + d
    ensures Continuations(f, From(metadata, metadataOffset), From(data, dataOffset), max)
         == [fragment] + Continuations(f, From(metadata, m), From(data, d), max)
  {
    ContinuationsStep(f, metadata[metadataOffset..], data[dataOffset..], max);
    hide TakePiece, Continuations, Fragment;
    var piece;
    piece, m, d := NextPiece(max - HEADER_BYTES, metadata, data, metadataOffset, dataOffset);
    fragment := Fragment(f, Payload, 0, piece);
  }

  /** Each turn of the loop emits one fragment; it ends with the remaining bytes. */
  method FragmentRest(f: Frame, metadata: bytes, data: bytes, metadataOffset: nat, dataOffset: nat, max: nat)
    returns (frames: seq<Frame>)
    requires max >= MIN_MAX_FRAME && metadataOffset <= |metadata| && dataOffset <= |data|
    ensures frames == Continuations(f, From(metadata, metadataOffset), From(data, dataOffset), max)
  {
    frames := [];
    var m, d := metadataOffset, dataOffset;
    ghost var all := Continuations(f, From(metadata, m), From(data, d), max);
    NoContinuations(f, max);
    assert From(metadata, |metadata|) == [] && From(data, |data|) == [];
    hide Continuations, From;
    while m < |metadata| || d < |data|
      invariant 0 <= m <= |metadata| && 0 <= d <= |data|
      invariant all == frames + Continuations(f, From(metadata, m), From(data, d), max)
      decreases |metadata| - m + |data| - d
    {
      var fragment;
      fragment, m, d := NextFragment(f, metadata, data, m, d, max);
      Regroup(frames, fragment, Continuations(f, From(metadata, m), From(data, d), max));
      frames := frames + [fragment];
    }
  }

  method FragmentFrame(f: Frame, max: nat) returns (frames: seq<Frame>)
    requires max >= MIN_MAX_FRAME
    ensures frames == Fragments(f, max)
  {
    hide TakePiece, Continuations;
    if EncodedBytes(f) <= max {
      return [f];
    }
    var metadata, data := Content(f.metadata), Content(f.data);
    assert metadata[0..] == metadata && data[0..] == data;
    var piece, metadataOffset, dataOffset := NextPiece(FirstCapacity(f, max), metadata, data, 0, 0);
    frames := FragmentRest(f, metadata, data, metadataOffset, dataOffset, max);
    frames := [Fragment(f, f.kind, f.initialRequestN, piece)] + frames;
  }

  lemma ContinuationsStep(f: Frame, metadata: bytes, data: bytes, max: nat)
    requires max >= MIN_MAX_FRAME && (metadata != [] || data != [])
    ensures var piece := TakePiece(max - HEADER_BYTES, metadata, data);
      && Continuations(f, metadata, data, max)
         == [Fragment(f, Payload, 0, piece)] + Continuations(f, piece.moreMetadata, piece.moreData, max)
      && |piece.moreMetadata| + |piece.moreData| < |metadata| + |data|
  {
  }

  lemma NoContinuations(f: Frame, max: nat)
    requires max >= MIN_MAX_FRAME
    ensures Continuations(f, [], [], max) == []
  {
  }

  lemma Regroup<T>(a: seq<T>, b: T, c: seq<T>)
    ensures a + [b] + c == a + ([b] + c)
  {
  }
}
