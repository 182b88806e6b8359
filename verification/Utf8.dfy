/** Well-formed UTF-8 (Unicode Standard, Table 3-7) and what TextDecoder makes of it. */
module Utf8 {
  import opened Bytes

  const BOM: bytes := [0xef, 0xbb, 0xbf]

  predicate Tail(b: byte) { 0x80 <= b <= 0xbf }

  /** Length of the character at the start of `s`, or 0 when there is none. */
  function CharBytes(s: bytes): (n: nat)
    ensures n <= |s|
  {
    if s == [] then 0
    else if s[0] <= 0x7f then 1
    else if 0xc2 <= s[0] <= 0xdf && |s| >= 2 && Tail(s[1]) then 2
    else if |s| >= 3 && Tail(s[2]) &&
            (|| (s[0] == 0xe0 && 0xa0 <= s[1] <= 0xbf)
             || (s[0] == 0xed && 0x80 <= s[1] <= 0x9f)
             || (0xe1 <= s[0] <= 0xef && s[0] != 0xed && Tail(s[1]))) then 3
    else if |s| >= 4 && Tail(s[2]) && Tail(s[3]) &&
            (|| (s[0] == 0xf0 && 0x90 <= s[1] <= 0xbf)
             || (0xf1 <= s[0] <= 0xf3 && Tail(s[1]))
             || (s[0] == 0xf4 && 0x80 <= s[1] <= 0x8f)) then 4
    else 0
  }

  predicate Valid(s: bytes)
    decreases |s|
  {
    s == [] || (CharBytes(s) > 0 && Valid(s[CharBytes(s)..]))
  }

  lemma {:induction false} AsciiIsValid(id: bytes)
    requires forall i :: 0 <= i < |id| ==> id[i] < 0x80
    ensures Valid(id)
    decreases |id|
  {
    if id != [] {
      AsciiIsValid(id[1..]);
    }
  }

  predicate HasBom(s: bytes) { BOM <= s }

  /** TextDecoder drops one leading byte order mark. */
  function StripBom(s: bytes): (r: bytes)
    ensures HasBom(s) ==> |r| == |s| - 3
    ensures !HasBom(s) ==> r == s
  {
    if HasBom(s) then s[3..] else s
  }

  /** Strict decoding: malformed input is refused, and what is left is well formed. */
  function StrictText(s: bytes): (r: Option<bytes>)
    ensures r.Some? <==> Valid(s)
    ensures r.Some? ==> Valid(r.value) && r.value == StripBom(s)
  {
    if !Valid(s) then None
    else
      assert HasBom(s) ==> CharBytes(s) == 3;
      Some(StripBom(s))
  }

  // ---------------------------------------------------------------- what the bytes stand for

  /** A Unicode scalar value: a code point that is no surrogate. */
  predicate Scalar(c: nat) { c < 0xd800 || 0xe000 <= c < 0x11_0000 }

  /** A continuation byte carries six bits. */
  function Six(c: nat): byte { 0x80 + c % 64 }

  /** UTF-8 as section 3 of RFC 3629 defines it. */
  function EncodeScalar(c: nat): (r: bytes)
    requires Scalar(c)
    ensures r != []
  {
    if c < 0x80 then [c]
    else if c < 0x800 then [0xc0 + c / 64, Six(c)]
    else if c < 0x1_0000 then [0xe0 + c / 64 / 64, Six(c / 64), Six(c)]
    else [0xf0 + c / 64 / 64 / 64, Six(c / 64 / 64), Six(c / 64), Six(c)]
  }

  function EncodeText(text: seq<nat>): bytes
    requires forall i :: 0 <= i < |text| ==> Scalar(text[i])
  {
    if text == [] then [] else EncodeScalar(text[0]) + EncodeText(text[1..])
  }

  lemma ScalarIsChar(c: nat, tail: bytes)
    requires Scalar(c)
    ensures CharBytes(EncodeScalar(c) + tail) == |EncodeScalar(c)|
  {
  }

  /** The scalar value of the character at the start of `s`. */
  function FirstScalar(s: bytes): nat
    requires CharBytes(s) > 0
  {
    var n := CharBytes(s);
    if n == 1 then s[0]
    else if n == 2 then Onto(s[0] - 0xc0, s[1])
    else if n == 3 then Onto(Onto(s[0] - 0xe0, s[1]), s[2])
    else Onto(Onto(Onto(s[0] - 0xf0, s[1]), s[2]), s[3])
  }

  function Onto(c: nat, b: byte): nat
    requires Tail(b)
  {
    c * 64 + (b - 0x80)
  }

  lemma OntoSplit(c: nat, b: byte)
    requires Tail(b)
    ensures Onto(c, b) / 64 == c && Six(Onto(c, b)) == b
  {
  }

  lemma CharIsScalar(s: bytes)
    requires CharBytes(s) > 0
    ensures Scalar(FirstScalar(s)) && EncodeScalar(FirstScalar(s)) == s[..CharBytes(s)]
  {
    var n := CharBytes(s);
    if n == 2 {
      OntoSplit(s[0] - 0xc0, s[1]);
    } else if n == 3 {
      var c := Onto(s[0] - 0xe0, s[1]);
      OntoSplit(s[0] - 0xe0, s[1]);
      OntoSplit(c, s[2]);
    } else if n == 4 {
      var c := Onto(s[0] - 0xf0, s[1]);
      var d := Onto(c, s[2]);
      OntoSplit(s[0] - 0xf0, s[1]);
      OntoSplit(c, s[2]);
      OntoSplit(d, s[3]);
    }
    hide Six;
  }

  lemma {:induction false} TextIsValid(text: seq<nat>)
    requires forall i :: 0 <= i < |text| ==> Scalar(text[i])
    ensures Valid(EncodeText(text))
    decreases |text|
  {
    hide CharBytes, EncodeScalar;
    if text != [] {
      var tail := EncodeText(text[1..]);
      ScalarIsChar(text[0], tail);
      assert (EncodeScalar(text[0]) + tail)[|EncodeScalar(text[0])|..] == tail;
      TextIsValid(text[1..]);
    }
  }

  ghost predicate IsText(s: bytes) {
    exists text: seq<nat> :: (forall i :: 0 <= i < |text| ==> Scalar(text[i])) && EncodeText(text) == s
  }

  lemma {:induction false} ValidIsText(s: bytes)
    requires Valid(s)
    ensures IsText(s)
    decreases |s|
  {
    hide CharBytes, EncodeScalar, FirstScalar;
    if s == [] {
      assert EncodeText([]) == [];
    } else {
      CharIsScalar(s);
      var rest := s[CharBytes(s)..];
      ValidIsText(rest);
      var text: seq<nat> :| (forall i :: 0 <= i < |text| ==> Scalar(text[i])) && EncodeText(text) == rest;
      var more := [FirstScalar(s)] + text;
      assert more[1..] == text;
      assert EncodeText(more) == s;
    }
  }

  /** The decoder takes exactly what encodes some text. */
  lemma ValidIff(s: bytes)
    ensures Valid(s) <==> IsText(s)
  {
    hide Valid, EncodeText;
    if Valid(s) {
      ValidIsText(s);
    }
    if IsText(s) {
      var text: seq<nat> :| (forall i :: 0 <= i < |text| ==> Scalar(text[i])) && EncodeText(text) == s;
      TextIsValid(text);
    }
  }
}
