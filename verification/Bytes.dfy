/** Byte strings, outcomes and fixed-width big-endian integers shared by every codec. */
module Bytes {

  type byte = x: int | 0 <= x < 256

  type bytes = seq<byte>

  datatype Option<+T> = None | Some(value: T)

  /** The two exception families the codecs raise. */
  datatype Fault =
    | RangeFault       // the caller asked for something unencodable
    | ViolationFault   // the peer's bytes are malformed

  datatype Result<+T> = Ok(value: T) | Err(fault: Fault)

  const MAX_U16 := 0xffff
  const MAX_U32 := 0xffff_ffff
  const MAX_U64 := 0xffff_ffff_ffff_ffff

  function Min(a: int, b: int): int { if a < b then a else b }

  function Max(a: int, b: int): int { if a < b then b else a }

  // ---------------------------------------------------------------- big-endian integers

  function Pow256(width: nat): nat {
    if width == 0 then 1 else 256 * Pow256(width - 1)
  }

  /** The low `width` bytes of `n`, most significant first, as DataView.setUint16/32/64 store them. */
  function BigEndian(n: nat, width: nat): (r: bytes)
    ensures |r| == width
    decreases width, n
  {
    if width == 0 then [] else BigEndian(n / 256, width - 1) + [n % 256]
  }

  function FromBigEndian(b: bytes): nat
    decreases |b|
  {
    if b == [] then 0 else FromBigEndian(b[..|b| - 1]) * 256 + b[|b| - 1]
  }

  lemma {:induction false} BigEndianRoundTrip(n: nat, width: nat)
    requires n < Pow256(width)
    ensures FromBigEndian(BigEndian(n, width)) == n
    decreases width, n
  {
    if width > 0 {
      BigEndianRoundTrip(n / 256, width - 1);
      var b := BigEndian(n, width);
      assert b[..width - 1] == BigEndian(n / 256, width - 1);
    }
  }

  lemma {:induction false} FromBigEndianRoundTrip(b: bytes)
    ensures FromBigEndian(b) < Pow256(|b|)
    ensures BigEndian(FromBigEndian(b), |b|) == b
    decreases |b|
  {
    if b != [] {
      var high := b[..|b| - 1];
      FromBigEndianRoundTrip(high);
      assert FromBigEndian(b) / 256 == FromBigEndian(high);
      assert b == high + [b[|b| - 1]];
    }
  }

  lemma Pow256Values()
    ensures Pow256(1) == 0x100
    ensures Pow256(2) == 0x1_0000
    ensures Pow256(3) == 0x100_0000
    ensures Pow256(4) == 0x1_0000_0000
    ensures Pow256(8) == 0x1_0000_0000_0000_0000
  {
    assert Pow256(3) == 256 * Pow256(2);
    assert Pow256(4) == 256 * Pow256(3);
    assert Pow256(5) == 256 * Pow256(4);
    assert Pow256(6) == 256 * Pow256(5);
    assert Pow256(7) == 256 * Pow256(6);
  }

  /** What is left of five parts laid end to end as each is taken off the front. */
  lemma Cuts(a: bytes, b: bytes, c: bytes, d: bytes, e: bytes)
    ensures var s := a + b + c + d + e;
      && s[|a|..] == b + (c + d + e)
      && s[|a| + |b|..] == c + (d + e)
      && s[|a| + |b| + |c|..] == d + e
      && s[|a| + |b| + |c| + |d|..] == e
      && s[..|a|] == a
  {
  }

  /** TypedArray.set: copies `data` into `output` at `at`. */
  method Put(output: array<byte>, at: nat, data: bytes)
    requires at + |data| <= output.Length
    modifies output
    ensures output[..at + |data|] == old(output[..at]) + data
    ensures output[at + |data|..] == old(output[at + |data|..])
    ensures forall i :: at + |data| <= i < output.Length ==> output[i] == old(output[i])
  {
    var i := 0;
    while i < |data|
      invariant 0 <= i <= |data|
      invariant output[..at + i] == old(output[..at]) + data[..i]
      invariant forall k :: at + |data| <= k < output.Length ==> output[k] == old(output[k])
    {
      output[at + i] := data[i];
      i := i + 1;
    }
    assert data[..i] == data;
  }
}
