/** Packed argument type words and zero-terminated type arrays (arg.cc). */
module Args {
  import opened Wire

  const ARG_CHAR := 1
  const ARG_SHORT := 2
  const ARG_INT := 3
  const ARG_LONG := 4
  const ARG_DOUBLE := 5
  const ARG_FLOAT := 6

  /** Bits 16..23 of the word. */
  function GetArgType(word: int): (t: int)
    ensures 0 <= t < 256
  {
    (word / 0x1_0000) % 256
  }

  /** Bits 0..15: the declared array length, 0 for a scalar. */
  function DeclaredLength(word: int): (n: nat)
    ensures n < 0x1_0000
  {
    word % 0x1_0000
  }

  function GetArgLength(word: int): (n: nat)
    ensures 1 <= n < 0x1_0000
  {
    if DeclaredLength(word) == 0 then 1 else DeclaredLength(word)
  }

  /** Sizes on an LP64 platform. */
  function GetSizeOfArgType(t: int): int {
    if t == ARG_CHAR then 1
    else if t == ARG_SHORT then 2
    else if t == ARG_INT then 4
    else if t == ARG_LONG then 8
    else if t == ARG_DOUBLE then 8
    else if t == ARG_FLOAT then 4
    else -1
  }

  /** Bits 30 and 31: 2 is input, 1 is output, 3 is both. */
  function Direction(word: int): (d: int)
    ensures 0 <= d < 4
  {
    (word / 0x4000_0000) % 4
  }

  predicate IsOnlyInput(word: int) { Direction(word) == 2 }
  predicate IsOnlyOutput(word: int) { Direction(word) == 1 }
  predicate IsInputOutput(word: int) { Direction(word) == 3 }

  /** A 32-bit word whose base type has a size: all that copying and serializing an argument looks at.
      Such a word is never the terminator. */
  predicate SizedWord(word: int) {
    IsInt32(word) && ARG_CHAR <= GetArgType(word) <= ARG_FLOAT
  }

  predicate SizedWords(words: seq<int>) {
    forall i :: 0 <= i < |words| ==> SizedWord(words[i])
  }

  /** A word that also has a direction, and so a place in a signature. */
  predicate ValidWord(word: int) {
    SizedWord(word) && Direction(word) != 0
  }

  /** The direction read off the bits ARG_INPUT (31, the sign) and ARG_OUTPUT (30) of a 32-bit int. */
  lemma DirectionBits(word: int)
    requires IsInt32(word)
    ensures IsOnlyInput(word) || IsInputOutput(word) <==> word < 0
    ensures IsOnlyOutput(word) || IsInputOutput(word) <==> word % 0x8000_0000 >= 0x4000_0000
  {
    var d := word / 0x4000_0000;
    assert word == 0x4000_0000 * d + word % 0x4000_0000 && -2 <= d < 2;
    if word < 0 {
      assert word % 0x8000_0000 == word + 0x8000_0000;
    }
  }

  /** A 32-bit int whose bits are, from the top: direction, six that are not used, base type, length. */
  function Packed(d: nat, unused: nat, t: nat, n: nat): int {
    var bits := d * 0x4000_0000 + unused * 0x100_0000 + t * 0x1_0000 + n;
    if d >= 2 then bits - 0x1_0000_0000 else bits
  }

  /** The accessors give back what a word was packed from. */
  lemma PackedWord(d: nat, unused: nat, t: nat, n: nat)
    requires d < 4 && unused < 64 && t < 256 && n < 0x1_0000
    ensures IsInt32(Packed(d, unused, t, n))
    ensures Direction(Packed(d, unused, t, n)) == d
    ensures GetArgType(Packed(d, unused, t, n)) == t
    ensures DeclaredLength(Packed(d, unused, t, n)) == n
  {
    var top := if d >= 2 then d - 4 else d;
    var w := Packed(d, unused, t, n);
    var high := top * 64 + unused;
    var middle := high * 0x100 + t;
    assert w == middle * 0x1_0000 + n;
    QuotientAndRest(middle, 0x1_0000, n);
    QuotientAndRest(high, 0x100, t);
    assert w == top * 0x4000_0000 + (unused * 0x100_0000 + t * 0x1_0000 + n);
    QuotientAndRest(top, 0x4000_0000, unused * 0x100_0000 + t * 0x1_0000 + n);
  }

  lemma QuotientAndRest(q: int, d: int, r: int)
    requires d in {0x100, 0x1_0000, 0x4000_0000} && 0 <= r < d
    ensures (q * d + r) / d == q && (q * d + r) % d == r
  {
  }

  /** The six base types take 1, 2, 4, 8, 8 and 4 bytes, as often as the length says, and once for length 0. */
  lemma PackedWidth(d: nat, unused: nat, t: nat, n: nat)
    requires d < 4 && unused < 64 && 1 <= t <= 6 && n < 0x1_0000
    ensures SizedWord(Packed(d, unused, t, n))
    ensures ArgBytes(Packed(d, unused, t, n)) == [1, 2, 4, 8, 8, 4][t - 1] * if n == 0 then 1 else n
  {
    PackedWord(d, unused, t, n);
  }

  predicate ValidWords(words: seq<int>) {
    forall i :: 0 <= i < |words| ==> ValidWord(words[i])
  }

  /** Bytes occupied by the argument a word describes. */
  function ArgBytes(word: int): (n: nat)
    requires SizedWord(word)
    ensures n >= 1
  {
    var t, length := GetArgType(word), GetArgLength(word);
    if t == ARG_CHAR then length
    else if t == ARG_SHORT then 2 * length
    else if t == ARG_INT || t == ARG_FLOAT then 4 * length
    else 8 * length
  }

  method NumberOfBytes(word: int) returns (nbytes: nat)
    requires SizedWord(word)
    ensures nbytes == ArgBytes(word)
  {
    var sizeOfArgType := GetSizeOfArgType(GetArgType(word));
    var argLength := GetArgLength(word);
    nbytes := sizeOfArgType * argLength;
  }

  /** The words before the terminator of a type array. */
  function Words(argTypes: seq<int>): (words: seq<int>)
    requires 0 in argTypes
    ensures |words| < |argTypes| && argTypes[|words|] == 0
    ensures forall i :: 0 <= i < |words| ==> words[i] == argTypes[i] && words[i] != 0
  {
    if argTypes[0] == 0 then [] else [argTypes[0]] + Words(argTypes[1..])
  }

  predicate NonZero(words: seq<int>) {
    forall i :: 0 <= i < |words| ==> words[i] != 0
  }

  lemma WordsOfTerminated(words: seq<int>)
    requires NonZero(words)
    ensures Words(words + [0]) == words
  {
    var found := Words(words + [0]);
    assert (words + [0])[|found|] == 0;
  }

  lemma WordsArePrefix(argTypes: seq<int>)
    requires 0 in argTypes
    ensures Words(argTypes) == argTypes[..|Words(argTypes)|]
  {
  }

  method NumberOfArgs(argTypes: seq<int>) returns (num: nat)
    requires 0 in argTypes
    ensures num == |Words(argTypes)|
  {
    num := 0;
    while argTypes[num] != 0
      invariant num <= |Words(argTypes)|
      decreases |argTypes| - num
    {
      num := num + 1;
    }
  }

  function Widths(words: seq<int>): (widths: seq<nat>)
    requires SizedWords(words)
    ensures |widths| == |words|
    ensures forall i :: 0 <= i < |words| ==> widths[i] == ArgBytes(words[i])
  {
    if words == [] then [] else [ArgBytes(words[0])] + Widths(words[1..])
  }

  /** Where argument i starts in a payload: the widths of the arguments before it. */
  function Offset(widths: seq<nat>, i: nat): nat
    requires i <= |widths|
  {
    if i == 0 then 0 else Offset(widths, i - 1) + widths[i - 1]
  }

  lemma {:induction false} OffsetGrows(widths: seq<nat>, i: nat, j: nat)
    requires i <= j <= |widths|
    ensures Offset(widths, i) <= Offset(widths, j)
    decreases j
  {
    if i < j {
      OffsetGrows(widths, i, j - 1);
    }
  }

  lemma NextOffset(words: seq<int>, i: nat)
    requires SizedWords(words) && i < |words|
    ensures Offset(Widths(words), i + 1) == Offset(Widths(words), i) + ArgBytes(words[i])
  {
  }

  method TotalSizeOfArgs(argTypes: seq<int>) returns (totalSize: int)
    requires 0 in argTypes && SizedWords(Words(argTypes))
    ensures totalSize == Offset(Widths(Words(argTypes)), |Words(argTypes)|)
  {
    var num := NumberOfArgs(argTypes);
    ghost var words := Words(argTypes);
    totalSize := 0;
    for i := 0 to num
      invariant totalSize == Offset(Widths(words), i)
    {
      var argType := argTypes[i];
      assert argType == words[i];
      var nbytes := NumberOfBytes(argType);
      NextOffset(words, i);
      totalSize := totalSize + nbytes;
    }
  }
}
