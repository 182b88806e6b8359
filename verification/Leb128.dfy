/** Unsigned LEB128 (section 7.6 of DWARF Version 4), in its shortest form only. */
module Leb128 {
  import opened Bytes

  type Bits = b: nat | b == 32 || b == 64 witness 32

  /** The shortest encoding of `n`. */
  function Varint(n: nat): (r: bytes)
    ensures |r| >= 1
  {
    if n < 128 then [n] else [n % 128 + 128] + Varint(n / 128)
  }

  function MaxBytes(bits: Bits): nat { if bits == 32 then 5 else 10 }

  /** The largest digit the last possible byte may carry. */
  function LastDigit(bits: Bits): nat { if bits == 32 then 15 else 1 }

  /** Exclusive bound on what the bytes from `index` on may contribute. */
  function Room(bits: Bits, index: nat): (r: nat)
    requires index < MaxBytes(bits)
    ensures r >= 1
    decreases MaxBytes(bits) - index
  {
    if index == MaxBytes(bits) - 1 then LastDigit(bits) + 1 else 128 * Room(bits, index + 1)
  }

  lemma RoomValues()
    ensures Room(32, 0) == MAX_U32 + 1
    ensures Room(64, 0) == MAX_U64 + 1
  {
    assert Room(32, 3) == 128 * 16;
    assert Room(32, 0) == 128 * 128 * 128 * Room(32, 3);
    assert Room(64, 8) == 128 * 2;
    assert Room(64, 5) == 128 * 128 * 128 * Room(64, 8);
    assert Room(64, 2) == 128 * 128 * 128 * Room(64, 5);
    assert Room(64, 0) == 128 * 128 * Room(64, 2);
  }

  /** A value and the number of bytes it took. */
  datatype Reading = Reading(value: nat, width: nat)

  /** The digits from position `index` on, as `readVarint` takes them from the input. */
  function ReadDigits(b: bytes, index: nat, bits: Bits): (r: Result<Reading>)
    ensures r.Ok? ==> 1 <= r.value.width <= |b|
    ensures r.Err? ==> r.fault == ViolationFault
    decreases |b|
  {
    if index >= MaxBytes(bits) || b == [] then Err(ViolationFault)
    else
      var digit := b[0] % 128;
      if index == MaxBytes(bits) - 1 && digit > LastDigit(bits) then Err(ViolationFault)
      else if b[0] < 128 then
        if index > 0 && digit == 0 then Err(ViolationFault) else Ok(Reading(digit, 1))
      else
        var rest := ReadDigits(b[1..], index + 1, bits);
        if rest.Err? then Err(ViolationFault)
        else Ok(Reading(digit + 128 * rest.value.value, 1 + rest.value.width))
  }

  function ReadVarint(b: bytes, bits: Bits): (r: Result<Reading>)
    ensures r.Ok? ==> 1 <= r.value.width <= |b|
  {
    ReadDigits(b, 0, bits)
  }

  lemma {:induction false} ReadDigitsWritten(n: nat, index: nat, bits: Bits, tail: bytes)
    requires index < MaxBytes(bits) && n < Room(bits, index) && (index > 0 ==> n > 0)
    ensures ReadDigits(Varint(n) + tail, index, bits) == Ok(Reading(n, |Varint(n)|))
    decreases n
  {
    var b := Varint(n) + tail;
    if n >= 128 {
      assert b[1..] == Varint(n / 128) + tail;
      ReadDigitsWritten(n / 128, index + 1, bits, tail);
    }
  }

  lemma {:induction false} WrittenDigits(b: bytes, index: nat, bits: Bits)
    requires ReadDigits(b, index, bits).Ok?
    ensures var r := ReadDigits(b, index, bits).value;
      && b[..r.width] == Varint(r.value)
      && (index > 0 ==> r.value > 0)
      && index < MaxBytes(bits) && r.value < Room(bits, index)
    decreases |b|
  {
    var r := ReadDigits(b, index, bits).value;
    if b[0] >= 128 {
      WrittenDigits(b[1..], index + 1, bits);
      assert b[..r.width] == [b[0]] + b[1..][..r.width - 1];
    }
  }

  /** The reader inverts the writer on every value of the width, whatever follows. */
  lemma ReadWritten(n: nat, bits: Bits, tail: bytes)
    requires n <= if bits == 32 then MAX_U32 else MAX_U64
    ensures ReadVarint(Varint(n) + tail, bits) == Ok(Reading(n, |Varint(n)|))
  {
    RoomValues();
    ReadDigitsWritten(n, 0, bits, tail);
  }

  /** The reader accepts nothing but shortest encodings of values of the width. */
  lemma WrittenRead(b: bytes, bits: Bits)
    requires ReadVarint(b, bits).Ok?
    ensures var r := ReadVarint(b, bits).value;
      && b == Varint(r.value) + b[r.width..]
      && r.width == |Varint(r.value)|
      && r.value <= (if bits == 32 then MAX_U32 else MAX_U64)
  {
    RoomValues();
    WrittenDigits(b, 0, bits);
    var r := ReadVarint(b, bits).value;
    assert b == b[..r.width] + b[r.width..];
  }

  /** Accepted input is exactly a shortest encoding of a value of the width, with anything after it. */
  lemma AcceptsExactly(b: bytes, bits: Bits, r: Reading)
    ensures ReadVarint(b, bits) == Ok(r)
        <==> && Varint(r.value) <= b
             && r.width == |Varint(r.value)|
             && r.value <= (if bits == 32 then MAX_U32 else MAX_U64)
  {
    if ReadVarint(b, bits) == Ok(r) {
      WrittenRead(b, bits);
    }
    if Varint(r.value) <= b && r.width == |Varint(r.value)|
       && r.value <= (if bits == 32 then MAX_U32 else MAX_U64)
    {
      assert b == Varint(r.value) + b[r.width..];
      ReadWritten(r.value, bits, b[r.width..]);
    }
  }

  /** A value below 128 to the power of a width takes at most that many bytes. */
  lemma {:induction false} Width(n: nat, index: nat, bits: Bits)
    requires index < MaxBytes(bits) && n < Room(bits, index)
    ensures |Varint(n)| <= MaxBytes(bits) - index
    decreases n
  {
    if n >= 128 {
      Width(n / 128, index + 1, bits);
    }
  }

  lemma WidthBounds(n: nat)
    ensures n <= MAX_U32 ==> |Varint(n)| <= 5
    ensures n <= MAX_U64 ==> |Varint(n)| <= 10
  {
    RoomValues();
    if n <= MAX_U32 { Width(n, 0, 32); }
    if n <= MAX_U64 { Width(n, 0, 64); }
  }

  lemma {:induction false} WidthMonotone(m: nat, n: nat)
    requires m <= n
    ensures |Varint(m)| <= |Varint(n)|
    decreases n
  {
    if m >= 128 {
      WidthMonotone(m / 128, n / 128);
    }
  }

  // ---------------------------------------------------------------- the loops

  method VarintBytes(n: nat) returns (count: nat)
    ensures count == |Varint(n)|
  {
    count := 1;
    var value := n;
    while value >= 128
      invariant count - 1 + |Varint(value)| == |Varint(n)|
    {
      count := count + 1;
      value := value / 128;
    }
  }

  method WriteVarint(output: array<byte>, start: nat, n: nat) returns (at: nat)
    requires start + |Varint(n)| <= output.Length
    modifies output
    ensures at == start + |Varint(n)|
    ensures output[..at] == old(output[..start]) + Varint(n)
  {
    at := start;
    var value := n;
    while value >= 128
      invariant start <= at && at + |Varint(value)| == start + |Varint(n)|
      invariant output[..at] + Varint(value) == old(output[..start]) + Varint(n)
    {
      ghost var before := output[..at];
      output[at] := value % 128 + 128;
      assert output[..at + 1] == before + [value % 128 + 128];
      assert before + Varint(value) == output[..at + 1] + Varint(value / 128);
      at := at + 1;
      value := value / 128;
    }
    ghost var before := output[..at];
    output[at] := value;
    assert output[..at + 1] == before + Varint(value);
    at := at + 1;
  }

  /** The reading after `index` digits worth `value`, given what the remaining digits read as. */
  function Resume(value: nat, scale: nat, index: nat, rest: Result<Reading>): Result<Reading> {
    if rest.Err? then Err(ViolationFault)
    else Ok(Reading(value + scale * rest.value.value, index + rest.value.width))
  }

  lemma ResumeErr(value: nat, scale: nat, index: nat)
    ensures Resume(value, scale, index, Err(ViolationFault)) == Err(ViolationFault)
  {
  }

  lemma ResumeDigit(value: nat, scale: nat, index: nat, digit: nat, rest: Result<Reading>)
    ensures Resume(value, scale, index, Ok(Reading(digit, 1))) == Ok(Reading(value + scale * digit, index + 1))
    ensures rest.Ok? ==>
      (Resume(value, scale, index, Ok(Reading(digit + 128 * rest.value.value, 1 + rest.value.width)))
       == Resume(value + scale * digit, scale * 128, index + 1, rest))
  {
    if rest.Ok? {
      var more := rest.value.value;
      assert scale * (digit + 128 * more) == scale * digit + scale * (128 * more);
      assert scale * (128 * more) == (scale * 128) * more;
    }
  }

  lemma ResumeStart(rest: Result<Reading>)
    requires rest.Err? ==> rest.fault == ViolationFault
    ensures Resume(0, 1, 0, rest) == rest
  {
  }

  /** What one byte does to the reading resumed after it. */
  lemma ResumeByte(value: nat, scale: nat, index: nat, left: bytes, bits: Bits)
    requires index < MaxBytes(bits) && left != []
    ensures var b, digit := left[0], left[0] % 128;
      var whole := Resume(value, scale, index, ReadDigits(left, index, bits));
      if index == MaxBytes(bits) - 1 && digit > LastDigit(bits) then whole == Err(ViolationFault)
      else if b < 128 then
        whole == if index > 0 && digit == 0 then Err(ViolationFault) else Ok(Reading(value + scale * digit, index + 1))
      else whole == Resume(value + scale * digit, scale * 128, index + 1, ReadDigits(left[1..], index + 1, bits))
  {
    ResumeDigit(value, scale, index, left[0] % 128, ReadDigits(left[1..], index + 1, bits));
    ResumeErr(value, scale, index);
    ResumeErr(value + scale * (left[0] % 128), scale * 128, index + 1);
    hide Resume, Room;
  }

  /** Nothing is read past the end or past the last possible byte. */
  lemma ResumeEnd(value: nat, scale: nat, index: nat, left: bytes, bits: Bits)
    requires index >= MaxBytes(bits) || left == []
    ensures Resume(value, scale, index, ReadDigits(left, index, bits)) == Err(ViolationFault)
  {
  }

  /** `readVarint`: a bounded loop that advances the cursor and accumulates base-128 digits. */
  method ReadAt(input: bytes, start: nat, bits: Bits) returns (r: Result<Reading>)
    requires start <= |input|
    ensures r == ReadVarint(input[start..], bits)
  {
    hide Resume, ReadDigits;
    var at := start;
    var value: nat := 0;
    var scale: nat := 1;
    var index := 0;
    ResumeStart(ReadDigits(input[at..], 0, bits));
    while index < MaxBytes(bits)
      invariant 0 <= index <= MaxBytes(bits) && at == start + index <= |input|
      invariant ReadVarint(input[start..], bits) == Resume(value, scale, index, ReadDigits(input[at..], index, bits))
    {
      ghost var left := input[at..];
      if at >= |input| {
        ResumeEnd(value, scale, index, left, bits);
        return Err(ViolationFault);
      }
      ResumeByte(value, scale, index, left, bits);
      var b := input[at];
      at := at + 1;
      assert left[1..] == input[at..];
      var digit := b % 128;
      if index == MaxBytes(bits) - 1 && digit > LastDigit(bits) {
        return Err(ViolationFault);
      }
      if b < 128 {
        if index > 0 && digit == 0 {
          return Err(ViolationFault);
        }
        return Ok(Reading(value + scale * digit, index + 1));
      }
      value := value + scale * digit;
      scale := scale * 128;
      index := index + 1;
    }
    ResumeEnd(value, scale, index, input[at..], bits);
    r := Err(ViolationFault);
  }
}
