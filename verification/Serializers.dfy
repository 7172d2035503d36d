/** The serializers as the code runs them: buffers grown piece by piece, and a cursor that moves
    through a received buffer while type arrays are filled. */
module Serializers {
  import opened Wire
  import opened Args
  import opened Messages

  /** Function name, argument count and type words behind what the buffer holds already. */
  method AppendCall(start: Bytes, name: Bytes, argTypes: seq<int>) returns (buffer: Bytes)
    requires 0 in argTypes
    ensures buffer == start + CallBytes(name, Words(argTypes))
  {
    ghost var words := Words(argTypes);
    var field := EncodeInteger(|name|);
    buffer := start + field + name;
    var numArgs := NumberOfArgs(argTypes);
    field := EncodeInteger(numArgs);
    buffer := buffer + field;
    for i := 0 to numArgs
      invariant buffer == start + (StringBytes(name) + (IntegerBytes(numArgs) + WordsUpTo(words, i)))
    {
      field := EncodeInteger(argTypes[i]);
      buffer := buffer + field;
    }
  }

  method SerializeRegister(m: Message) returns (buffer: Bytes)
    requires m.Register? && PlainWords(m.words)
    ensures buffer == Encode(m)
  {
    buffer := [REGISTER];
    var field := EncodeInteger(|m.host|);
    buffer := buffer + field + m.host;
    field := EncodeInteger(m.port);
    buffer := buffer + field;
    WordsOfTerminated(m.words);
    buffer := AppendCall(buffer, m.name, m.words + [0]);
  }

  method SerializeLocateRequest(m: Message) returns (buffer: Bytes)
    requires m.LocateRequest? && PlainWords(m.words)
    ensures buffer == Encode(m)
  {
    WordsOfTerminated(m.words);
    buffer := AppendCall([LOCATE_REQUEST], m.name, m.words + [0]);
  }

  method SerializeLocateSuccess(host: Bytes, port: int) returns (buffer: Bytes)
    ensures buffer == Encode(LocateSuccess(host, port))
  {
    buffer := [LOCATE_SUCCESS];
    var field := EncodeInteger(|host|);
    buffer := buffer + field + host;
    field := EncodeInteger(port);
    buffer := buffer + field;
  }

  method SerializeStatus(kind: StatusKind, status: int) returns (buffer: Bytes)
    ensures buffer == Encode(Status(kind, status))
  {
    var cells := new byte[2];
    cells[0] := StatusType(kind);
    cells[1] := StatusByte(status);
    buffer := cells[..];
  }

  /** Fills a fresh zero-terminated type array from the buffer. */
  method DecodeTypes(buffer: Bytes, nextPos: nat, numArgs: nat) returns (argTypes: array<int>, pos: nat)
    requires TakeWords(buffer, nextPos, numArgs).Some?
    ensures fresh(argTypes) && argTypes.Length == numArgs + 1 && argTypes[numArgs] == 0
    ensures TakeWords(buffer, nextPos, numArgs) == Some(Field(argTypes[..numArgs], pos))
  {
    argTypes := new int[numArgs + 1];
    argTypes[numArgs] := 0;
    pos := nextPos;
    for i := 0 to numArgs
      invariant argTypes[numArgs] == 0
      invariant pos == nextPos + 4 * i
      invariant forall k :: 0 <= k < i ==> argTypes[k] == IntegerAt(buffer, nextPos + 4 * k)
    {
      argTypes[i], pos := DecodeInteger(buffer, pos);
    }
    assert argTypes[..numArgs] == ReadWords(buffer, nextPos, numArgs);
  }

  /** The cursor part shared by the request decoders: name, count and zero-terminated type array. */
  method DecodeCall(buffer: Bytes, nextPos: nat) returns (name: Bytes, argTypes: array<int>, pos: nat)
    requires TakeCall(buffer, nextPos).Some?
    ensures fresh(argTypes)
    ensures var taken := TakeCall(buffer, nextPos).value;
      name == taken.value.name && argTypes[..] == taken.value.words + [0] && pos == taken.next
  {
    name, pos := DecodeString(buffer, nextPos);
    var numArgs;
    numArgs, pos := DecodeInteger(buffer, pos);
    argTypes, pos := DecodeTypes(buffer, pos, numArgs);
    assert argTypes[..] == argTypes[..numArgs] + [0];
  }

  /** The copying constructors of Register and LocateRequest keep the words before the first zero. */
  method CopyWords(argTypes: array<int>) returns (words: seq<int>)
    requires 0 in argTypes[..]
    ensures words == Words(argTypes[..])
  {
    WordsArePrefix(argTypes[..]);
    var numArgs := NumberOfArgs(argTypes[..]);
    var copy := new int[numArgs + 1];
    copy[numArgs] := 0;
    for i := 0 to numArgs
      invariant copy[..i] == argTypes[..i]
    {
      copy[i] := argTypes[i];
    }
    words := copy[..numArgs];
  }

  method DeserializeRegister(buffer: Bytes) returns (m: Message)
    requires ParseRegister(buffer).Some?
    ensures ParseRegister(buffer).value.value == m
  {
    var pos := 1;
    var host, port, name, argTypes;
    host, pos := DecodeString(buffer, pos);
    port, pos := DecodeInteger(buffer, pos);
    name, argTypes, pos := DecodeCall(buffer, pos);
    var words := CopyWords(argTypes);
    m := Register(host, port, name, words);
  }

  method DeserializeLocateRequest(buffer: Bytes) returns (m: Message)
    requires ParseLocateRequest(buffer).Some?
    ensures ParseLocateRequest(buffer).value.value == m
  {
    var name, argTypes, pos := DecodeCall(buffer, 1);
    var words := CopyWords(argTypes);
    m := LocateRequest(name, words);
  }

  method DeserializeLocateSuccess(buffer: Bytes) returns (m: Message)
    requires ParseLocateSuccess(buffer).Some?
    ensures ParseLocateSuccess(buffer).value.value == m
  {
    var pos := 1;
    var host, port;
    host, pos := DecodeString(buffer, pos);
    port, pos := DecodeInteger(buffer, pos);
    m := LocateSuccess(host, port);
  }

  method DeserializeStatus(buffer: Bytes) returns (status: int)
    requires |buffer| >= 2
    ensures StatusKindOf(buffer[0]).Some? ==>
      ParseStatus(buffer) == Some(Field(Status(StatusKindOf(buffer[0]).value, status), 2))
  {
    status := ByteStatus(buffer[1]);
  }
}
