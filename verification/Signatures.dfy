/** Signatures of remote procedures: name plus argument shapes (signature.cc, signature.h). */
module Signatures {
  import opened Wire
  import opened Args

  datatype ScalarOrArray = Scalar | Array
  datatype InOutBoth = Input | Output | Both
  datatype DataType = Char | Short | Int | Long | Double | Float

  datatype Argument = Argument(dimension: ScalarOrArray, direction: InOutBoth, dataType: DataType)

  datatype Signature = Signature(name: Bytes, arguments: seq<Argument>)

  function DataTypeOf(word: int): DataType
    requires ValidWord(word)
  {
    var t := GetArgType(word);
    if t == ARG_CHAR then Char
    else if t == ARG_SHORT then Short
    else if t == ARG_INT then Int
    else if t == ARG_LONG then Long
    else if t == ARG_DOUBLE then Double
    else Float
  }

  function ArgumentOf(word: int): Argument
    requires ValidWord(word)
  {
    Argument(
      if DeclaredLength(word) == 0 then Scalar else Array,
      if IsOnlyInput(word) then Input else if IsOnlyOutput(word) then Output else Both,
      DataTypeOf(word))
  }

  function SignatureOf(name: Bytes, words: seq<int>): Signature
    requires ValidWords(words)
  {
    Signature(name, seq(|words|, i requires 0 <= i < |words| => ArgumentOf(words[i])))
  }

  method SignatureOfArgTypes(name: Bytes, argTypes: seq<int>) returns (signature: Signature)
    requires 0 in argTypes && ValidWords(Words(argTypes))
    ensures signature == SignatureOf(name, Words(argTypes))
  {
    var numArgs := NumberOfArgs(argTypes);
    ghost var words := Words(argTypes);
    var argList: seq<Argument> := [];
    for i := 0 to numArgs
      invariant |argList| == i
      invariant forall k :: 0 <= k < i ==> argList[k] == ArgumentOf(words[k])
    {
      var word := argTypes[i];
      assert word == words[i] && ValidWord(word);
      var dataType;
      match GetArgType(word) {
        case 1 => dataType := Char;
        case 2 => dataType := Short;
        case 3 => dataType := Int;
        case 4 => dataType := Long;
        case 5 => dataType := Double;
        case _ => dataType := Float;
      }
      // Not GetArgLength: a scalar and an array of length one are different.
      var length := DeclaredLength(word);
      var dimension := if length == 0 then Scalar else Array;
      var direction;
      if IsOnlyInput(word) {
        direction := Input;
      } else if IsOnlyOutput(word) {
        direction := Output;
      } else {
        direction := Both;
      }
      argList := argList + [Argument(dimension, direction, dataType)];
    }
    signature := Signature(name, argList);
    assert argList == SignatureOf(name, words).arguments;
  }

  /** Two words describe the same parameter: equal direction bits, equal base type,
      and scalar against scalar. Array lengths and the bits 24..29 do not matter. */
  predicate SameParameter(u: int, v: int) {
    && Direction(u) == Direction(v)
    && GetArgType(u) == GetArgType(v)
    && (DeclaredLength(u) == 0 <==> DeclaredLength(v) == 0)
  }

  predicate SameProcedure(name1: Bytes, words1: seq<int>, name2: Bytes, words2: seq<int>) {
    && name1 == name2
    && |words1| == |words2|
    && forall i :: 0 <= i < |words1| ==> SameParameter(words1[i], words2[i])
  }

  lemma ArgumentEquality(u: int, v: int)
    requires ValidWord(u) && ValidWord(v)
    ensures ArgumentOf(u) == ArgumentOf(v) <==> SameParameter(u, v)
  {
    assert Direction(u) in {1, 2, 3} && Direction(v) in {1, 2, 3};
  }

  /** Signature equality is the equivalence the design asks for. */
  lemma SignatureEquality(name1: Bytes, words1: seq<int>, name2: Bytes, words2: seq<int>)
    requires ValidWords(words1) && ValidWords(words2)
    ensures SignatureOf(name1, words1) == SignatureOf(name2, words2)
       <==> SameProcedure(name1, words1, name2, words2)
  {
    var a, b := SignatureOf(name1, words1).arguments, SignatureOf(name2, words2).arguments;
    if |words1| == |words2| {
      forall i | 0 <= i < |words1|
        ensures a[i] == b[i] <==> SameParameter(words1[i], words2[i])
      {
        ArgumentEquality(words1[i], words2[i]);
      }
    } else {
      assert |a| != |b|;
    }
  }
}
