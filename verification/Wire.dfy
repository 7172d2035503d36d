/** Bytes on the wire: the integer and string fields of protocol_macros.cc,
    the one-byte status field of protocol_macros.h, and the cursor that walks them. */
module Wire {

  type byte = x: int | 0 <= x < 256
  type Bytes = seq<byte>

  datatype Option<+T> = None | Some(value: T)

  /** A decoded field together with the cursor behind it. */
  datatype Field<+T> = Field(value: T, next: nat)

  const INT_LIMIT: int := 0x8000_0000

  predicate IsInt32(x: int) {
    -INT_LIMIT <= x < INT_LIMIT
  }

  /** The piece stands in the buffer at `pos`. */
  predicate At(buffer: Bytes, pos: nat, piece: Bytes) {
    pos + |piece| <= |buffer| && forall k :: 0 <= k < |piece| ==> buffer[pos + k] == piece[k]
  }

  lemma AtSlice(buffer: Bytes, pos: nat, piece: Bytes)
    requires At(buffer, pos, piece)
    ensures buffer[pos..pos + |piece|] == piece
  {
  }

  lemma AtSplit(buffer: Bytes, pos: nat, first: Bytes, second: Bytes)
    requires At(buffer, pos, first + second)
    ensures At(buffer, pos, first) && At(buffer, pos + |first|, second)
  {
    forall k | 0 <= k < |first| ensures buffer[pos + k] == first[k] {
      assert (first + second)[k] == first[k];
    }
    forall k | 0 <= k < |second| ensures buffer[pos + |first| + k] == second[k] {
      assert (first + second)[|first| + k] == second[k];
    }
  }

  lemma AtPrefix(buffer: Bytes, more: Bytes, pos: nat, piece: Bytes)
    requires At(buffer, pos, piece)
    ensures At(buffer + more, pos, piece)
  {
  }

  /** A piece of a piece stands at the sum of their positions. */
  lemma AtInside(buffer: Bytes, pos: nat, outer: Bytes, start: nat, inner: Bytes)
    requires At(buffer, pos, outer) && At(outer, start, inner)
    ensures At(buffer, pos + start, inner)
  {
    forall k | 0 <= k < |inner| ensures buffer[pos + start + k] == inner[k] {
      assert outer[start + k] == inner[k];
    }
  }

  lemma Regroup<T>(first: seq<T>, second: seq<T>, third: seq<T>)
    ensures first + (second + third) == (first + second) + third
  {
  }

  // ---------------------------------------------------------------- integers

  /** GET_BYTE: arithmetic shift right by 8 * i bits, then the low byte. */
  function GetByte(x: int, i: nat): byte
    requires i < 4
  {
    if i == 0 then x % 256
    else if i == 1 then (x / 0x100) % 256
    else if i == 2 then (x / 0x1_0000) % 256
    else (x / 0x100_0000) % 256
  }

  /** MAKE_BYTE: the byte as unsigned, shifted left inside a 32-bit int; the top byte lands on the sign bit. */
  function MakeByte(b: byte, i: nat): int
    requires i < 4
  {
    if i == 0 then b
    else if i == 1 then b * 0x100
    else if i == 2 then b * 0x1_0000
    else if b < 128 then b * 0x100_0000
    else (b - 256) * 0x100_0000
  }

  function IntegerBytes(x: int): (b: Bytes)
    ensures |b| == 4
  {
    [GetByte(x, 0), GetByte(x, 1), GetByte(x, 2), GetByte(x, 3)]
  }

  function BytesInteger(b: Bytes): int
    requires |b| == 4
  {
    MakeByte(b[0], 0) + MakeByte(b[1], 1) + MakeByte(b[2], 2) + MakeByte(b[3], 3)
  }

  /** Shifting by a byte more is one more division by 256. */
  lemma ShiftByBytes(x: int)
    ensures x / 0x1_0000 == (x / 0x100) / 0x100
    ensures x / 0x100_0000 == (x / 0x1_0000) / 0x100
  {
  }

  lemma LowByte(b: byte, high: int)
    ensures (b + 0x100 * high) / 0x100 == high
    ensures (b + 0x100 * high) % 0x100 == b
  {
  }

  /** Decoding undoes encoding on every 32-bit int, negative ones included. */
  lemma IntegerRoundTrip(x: int)
    requires IsInt32(x)
    ensures BytesInteger(IntegerBytes(x)) == x
  {
    ShiftByBytes(x);
    var q1, q2, q3 := x / 0x100, x / 0x1_0000, x / 0x100_0000;
    assert x == x % 0x100 + 0x100 * q1 && q1 == q1 % 0x100 + 0x100 * q2 && q2 == q2 % 0x100 + 0x100 * q3;
    assert -128 <= q3 < 128;
    assert MakeByte(q3 % 256, 3) == q3 * 0x100_0000;
  }

  /** Encoding undoes decoding on every string of four bytes, and decoding stays inside 32 bits. */
  lemma BytesRoundTrip(b: Bytes)
    requires |b| == 4
    ensures IsInt32(BytesInteger(b))
    ensures IntegerBytes(BytesInteger(b)) == b
  {
    var x := BytesInteger(b);
    var b3: int := b[3];
    var q3 := if b3 < 128 then b3 else b3 - 256;
    var q2 := b[2] + 0x100 * q3;
    var q1 := b[1] + 0x100 * q2;
    assert x == b[0] + 0x100 * q1;
    LowByte(b[0], q1);
    LowByte(b[1], q2);
    LowByte(b[2], q3);
    ShiftByBytes(x);
    assert q3 % 256 == b[3];
  }

  /** The four bytes are the digits of the integer in base 256, the lowest first, in two's complement. */
  lemma LittleEndian(x: int)
    requires IsInt32(x)
    ensures var b: seq<int> := IntegerBytes(x);
      b[0] + 0x100 * b[1] + 0x1_0000 * b[2] + 0x100_0000 * b[3] == if x < 0 then x + 0x1_0000_0000 else x
  {
    ShiftByBytes(x);
    var q1, q2, q3 := x / 0x100, x / 0x1_0000, x / 0x100_0000;
    assert x == x % 0x100 + 0x100 * q1 && q1 == q1 % 0x100 + 0x100 * q2 && q2 == q2 % 0x100 + 0x100 * q3;
    assert q3 % 256 == if x < 0 then q3 + 256 else q3;
  }

  method EncodeInteger(x: int) returns (buffer: Bytes)
    ensures buffer == IntegerBytes(x)
  {
    buffer := [];
    buffer := buffer + [GetByte(x, 0)];
    buffer := buffer + [GetByte(x, 1)];
    buffer := buffer + [GetByte(x, 2)];
    buffer := buffer + [GetByte(x, 3)];
  }

  function IntegerAt(buffer: Bytes, pos: nat): int
    requires pos + 4 <= |buffer|
  {
    BytesInteger(buffer[pos..pos + 4])
  }

  /** The integer field at `pos`, or None when the buffer ends inside it. */
  function TakeInteger(buffer: Bytes, pos: nat): (r: Option<Field<int>>)
    ensures r.Some? ==> pos < r.value.next <= |buffer| && IsInt32(r.value.value)
  {
    if pos + 4 <= |buffer| then
      BytesRoundTrip(buffer[pos..pos + 4]);
      Some(Field(IntegerAt(buffer, pos), pos + 4))
    else None
  }

  method DecodeInteger(buffer: Bytes, nextPos: nat) returns (x: int, pos: nat)
    requires TakeInteger(buffer, nextPos).Some?
    ensures TakeInteger(buffer, nextPos) == Some(Field(x, pos))
  {
    pos := nextPos + 4;
    x := MakeByte(buffer[pos - 4], 0) + MakeByte(buffer[pos - 3], 1)
       + MakeByte(buffer[pos - 2], 2) + MakeByte(buffer[pos - 1], 3);
  }

  lemma TakeIntegerAt(buffer: Bytes, pos: nat, x: int)
    requires IsInt32(x) && At(buffer, pos, IntegerBytes(x))
    ensures TakeInteger(buffer, pos) == Some(Field(x, pos + 4))
  {
    AtSlice(buffer, pos, IntegerBytes(x));
    IntegerRoundTrip(x);
  }

  // ----------------------------------------------------------------- strings

  /** A string field: its length, then its characters. */
  function StringBytes(s: Bytes): Bytes {
    IntegerBytes(|s|) + s
  }

  function TakeString(buffer: Bytes, pos: nat): (r: Option<Field<Bytes>>)
    ensures r.Some? ==> pos < r.value.next <= |buffer|
  {
    match TakeInteger(buffer, pos)
    case None => None
    case Some(Field(length, start)) =>
      if 0 <= length && start + length <= |buffer| then Some(Field(buffer[start..start + length], start + length))
      else None
  }

  method DecodeString(buffer: Bytes, nextPos: nat) returns (s: Bytes, pos: nat)
    requires TakeString(buffer, nextPos).Some?
    ensures TakeString(buffer, nextPos) == Some(Field(s, pos))
  {
    var length, oldPos := DecodeInteger(buffer, nextPos);
    pos := oldPos + length;
    s := buffer[oldPos..oldPos + length];
  }

  lemma TakeStringAt(buffer: Bytes, pos: nat, s: Bytes)
    requires |s| < INT_LIMIT && At(buffer, pos, StringBytes(s))
    ensures TakeString(buffer, pos) == Some(Field(s, pos + |StringBytes(s)|))
  {
    AtSplit(buffer, pos, IntegerBytes(|s|), s);
    TakeIntegerAt(buffer, pos, |s|);
    AtSlice(buffer, pos + 4, s);
  }

  // ------------------------------------------------------------- status byte

  /** What `static_cast<char>` stores and a signed `char` gives back. */
  function StatusByte(status: int): byte {
    status % 256
  }

  function ByteStatus(b: byte): int {
    if b < 128 then b else b - 256
  }

  /** A status survives its one byte on the wire exactly in the signed-byte range;
      every status arrives as some value of that range, congruent to it modulo 256. */
  lemma StatusSurvives(status: int)
    ensures -128 <= ByteStatus(StatusByte(status)) <= 127
    ensures (status - ByteStatus(StatusByte(status))) % 256 == 0
    ensures ByteStatus(StatusByte(status)) == status <==> -128 <= status <= 127
    ensures ByteStatus(StatusByte(status)) == 0 <==> status % 256 == 0
  {
    assert status == 256 * (status / 256) + status % 256;
  }

  /** The library's own wide codes do not survive, and 256 arrives as success. */
  lemma WideStatusesAreLost()
    ensures ByteStatus(StatusByte(-1003)) == 21
    ensures ByteStatus(StatusByte(-1004)) == 20
    ensures ByteStatus(StatusByte(256)) == 0
  {
    assert -1003 == 256 * -4 + 21 && -1004 == 256 * -4 + 20;
  }
}
