/** Execute messages own a deep copy of their arguments (execute_messages.h, execute_messages.cc). */
module ExecuteMessages {
  import opened Wire
  import opened Args
  import opened Messages
  import opened Serializers

  /** The memory behind the argument pointers holds at least the declared bytes of each argument. */
  predicate Covers(words: seq<int>, memory: seq<Bytes>) {
    SizedWords(words) && LongEnough(Widths(words), memory)
  }

  predicate LongEnough(widths: seq<nat>, memory: seq<Bytes>) {
    |widths| <= |memory| && forall i :: 0 <= i < |widths| ==> widths[i] <= |memory[i]|
  }

  /** The declared bytes of the first n arguments. */
  function Copied(widths: seq<nat>, memory: seq<Bytes>, n: nat): (args: seq<Bytes>)
    requires LongEnough(widths, memory) && n <= |widths|
    ensures |args| == n
    ensures forall i :: 0 <= i < n ==> args[i] == memory[i][..widths[i]]
  {
    if n == 0 then [] else Copied(widths, memory, n - 1) + [memory[n - 1][..widths[n - 1]]]
  }

  function Payload(words: seq<int>, memory: seq<Bytes>): (args: seq<Bytes>)
    requires Covers(words, memory)
    ensures MatchingArgs(words, args)
    ensures forall i :: 0 <= i < |words| ==> args[i] == memory[i][..ArgBytes(words[i])]
  {
    Copied(Widths(words), memory, |words|)
  }

  lemma PayloadOfMatching(words: seq<int>, args: seq<Bytes>)
    requires MatchingArgs(words, args)
    ensures Covers(words, args) && Payload(words, args) == args
  {
    var payload := Payload(words, args);
    assert forall i :: 0 <= i < |words| ==> payload[i] == args[i][..|args[i]|] == args[i];
  }

  method CopyTypes(argTypes: seq<int>) returns (types: array<int>)
    requires 0 in argTypes
    ensures fresh(types) && types[..] == Words(argTypes) + [0]
  {
    WordsArePrefix(argTypes);
    var numArgs := NumberOfArgs(argTypes);
    types := new int[numArgs + 1];
    types[numArgs] := 0;
    for i := 0 to numArgs
      invariant types[numArgs] == 0
      invariant types[..i] == argTypes[..i]
    {
      types[i] := argTypes[i];
    }
  }

  method CopyArguments(argTypes: seq<int>, memory: seq<Bytes>) returns (args: seq<Bytes>)
    requires 0 in argTypes && Covers(Words(argTypes), memory)
    ensures args == Payload(Words(argTypes), memory)
  {
    ghost var words := Words(argTypes);
    var numArgs := NumberOfArgs(argTypes);
    args := [];
    for i := 0 to numArgs
      invariant args == Copied(Widths(words), memory, i)
    {
      var word := argTypes[i];
      assert word == words[i];
      var nbytes := NumberOfBytes(word);
      args := args + [memory[i][..nbytes]];
    }
  }

  class ExecuteMessage {
    const name: Bytes
    const argTypes: array<int>
    const args: array<Bytes>

    ghost predicate Valid()
      reads this, argTypes, args
    {
      && 0 in argTypes[..]
      && MatchingArgs(Words(argTypes[..]), args[..])
    }

    ghost function Value(): (m: Message)
      requires Valid()
      reads this, argTypes, args
      ensures m.Execute? && MatchingArgs(m.words, m.args)
    {
      Execute(name, Words(argTypes[..]), args[..])
    }

    /** Copies the words up to the terminator and the declared bytes of every argument. */
    constructor (name: Bytes, argTypes: seq<int>, memory: seq<Bytes>)
      requires 0 in argTypes && Covers(Words(argTypes), memory)
      ensures Valid() && fresh(this.argTypes) && fresh(this.args)
      ensures Value() == Execute(name, Words(argTypes), Payload(Words(argTypes), memory))
      ensures this.argTypes[..] == Words(argTypes) + [0]
    {
      var types := CopyTypes(argTypes);
      var copies := CopyArguments(argTypes, memory);
      WordsOfTerminated(Words(argTypes));
      this.name, this.argTypes := name, types;
      this.args := new Bytes[|copies|](i requires 0 <= i < |copies| => copies[i]);
      new;
      assert args[..] == copies;
    }
  }

  method SerializeExecute(m: ExecuteMessage) returns (buffer: Bytes)
    requires m.Valid()
    ensures buffer == Encode(m.Value())
  {
    var argTypes, args := m.argTypes[..], m.args[..];
    buffer := AppendCall([EXECUTE], m.name, argTypes);
    buffer := AppendArguments(buffer, argTypes, args);
  }

  /** A buffer grown by the first n arguments. */
  ghost function Grown(start: Bytes, args: seq<Bytes>, n: nat): Bytes
    requires n <= |args|
  {
    if n == 0 then start else Grown(start, args, n - 1) + args[n - 1]
  }

  lemma {:induction false} GrownBy(start: Bytes, args: seq<Bytes>, n: nat)
    requires n <= |args|
    ensures Grown(start, args, n) == start + ArgsUpTo(args, n)
  {
    if n > 0 {
      GrownBy(start, args, n - 1);
    }
  }

  method AppendArguments(start: Bytes, argTypes: seq<int>, args: seq<Bytes>) returns (buffer: Bytes)
    requires 0 in argTypes && MatchingArgs(Words(argTypes), args)
    ensures buffer == start + ArgsBytes(args)
  {
    ghost var words := Words(argTypes);
    buffer := start;
    var numArgs := NumberOfArgs(argTypes);
    for i := 0 to numArgs
      invariant buffer == Grown(start, args, i)
    {
      var word := argTypes[i];
      assert word == words[i] && |args[i]| == Widths(words)[i];
      var nbytes := NumberOfBytes(word);
      var data := args[i][..nbytes];
      assert data == args[i];
      buffer := buffer + data;
    }
    GrownBy(start, args, numArgs);
  }

  method DeserializeExecute(buffer: Bytes) returns (m: ExecuteMessage)
    requires ParseExecute(buffer).Some?
    ensures m.Valid() && fresh(m) && fresh(m.argTypes) && fresh(m.args)
    ensures ParseExecute(buffer).value.value == m.Value()
    ensures m.argTypes[..] == m.Value().words + [0]
  {
    var name, argTypes, pos := DecodeCall(buffer, 1);
    var words := argTypes[..argTypes.Length - 1];
    assert words == TakeCall(buffer, 1).value.value.words;
    var args := DecodeArguments(buffer, pos, words);
    PlainWhenSized(words);
    PayloadOfMatching(words, args);
    m := new ExecuteMessage(name, argTypes[..], args);
  }

  /** Reading the slice behind the first i arguments adds argument i. */
  lemma NextArgument(buffer: Bytes, start: nat, widths: seq<nat>, i: nat, args: seq<Bytes>, pos: nat, next: nat)
    requires i < |widths| && start + Offset(widths, |widths|) <= |buffer|
    requires args == ReadArgs(buffer, start, widths, i) && pos == start + Offset(widths, i) && next == pos + widths[i]
    ensures pos <= next == start + Offset(widths, i + 1) <= |buffer|
    ensures args + [buffer[pos..next]] == ReadArgs(buffer, start, widths, i + 1)
  {
    OffsetGrows(widths, i + 1, |widths|);
  }

  method DecodeArguments(buffer: Bytes, nextPos: nat, words: seq<int>) returns (args: seq<Bytes>)
    requires SizedWords(words) && TakeArgs(buffer, nextPos, Widths(words)).Some?
    ensures TakeArgs(buffer, nextPos, Widths(words)).value.value == args
  {
    var pos := nextPos;
    ghost var widths := Widths(words);
    args := [];
    for i := 0 to |words|
      invariant pos == nextPos + Offset(widths, i)
      invariant args == ReadArgs(buffer, nextPos, widths, i)
    {
      var nbytes := NumberOfBytes(words[i]);
      var next := pos + nbytes;
      NextArgument(buffer, nextPos, widths, i, args, pos, next);
      args := args + [buffer[pos..next]];
      pos := next;
    }
  }
}
