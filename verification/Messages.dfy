/** The messages of the protocol and their byte strings (message.h, register_messages.h,
    locate_messages.h, execute_messages.h, terminate_messages.h). */
module Messages {
  import opened Wire
  import opened Args

  /** StatusCodes: errors of the library itself. */
  const SERVER_SOCKET_CREATION_ERROR: int := -1001
  const BINDER_CONNECTION_ERROR: int := -1002
  const UNEXPECTED_MESSAGE: int := -1003
  const SERVER_CONNECTION_ERROR: int := -1004
  const LOCATE_FAILURE: int := -1005

  datatype StatusKind =
    | RegisterSuccess | RegisterFailure | LocateFailure | ExecuteFailure
    | Terminate | TerminateSuccess | TerminateFailure

  /** `words` are the type words before the terminator. */
  datatype Message =
    | Register(host: Bytes, port: int, name: Bytes, words: seq<int>)
    | LocateRequest(name: Bytes, words: seq<int>)
    | LocateSuccess(host: Bytes, port: int)
    | Execute(name: Bytes, words: seq<int>, args: seq<Bytes>)
    | Status(kind: StatusKind, status: int)

  const REGISTER: byte := 0
  const LOCATE_REQUEST: byte := 3
  const LOCATE_SUCCESS: byte := 4
  const EXECUTE: byte := 6

  function StatusType(kind: StatusKind): byte {
    match kind
    case RegisterSuccess => 1
    case RegisterFailure => 2
    case LocateFailure => 5
    case ExecuteFailure => 7
    case Terminate => 8
    case TerminateSuccess => 9
    case TerminateFailure => 10
  }

  function StatusKindOf(t: byte): (r: Option<StatusKind>)
    ensures r.Some? ==> StatusType(r.value) == t
  {
    if t == 1 then Some(RegisterSuccess)
    else if t == 2 then Some(RegisterFailure)
    else if t == 5 then Some(LocateFailure)
    else if t == 7 then Some(ExecuteFailure)
    else if t == 8 then Some(Terminate)
    else if t == 9 then Some(TerminateSuccess)
    else if t == 10 then Some(TerminateFailure)
    else None
  }

  // ---------------------------------------------------------------- encoding

  /** The first n type words. */
  function WordsUpTo(words: seq<int>, n: nat): (b: Bytes)
    requires n <= |words|
    ensures |b| == 4 * n
  {
    if n == 0 then [] else WordsUpTo(words, n - 1) + IntegerBytes(words[n - 1])
  }

  /** The first n arguments. */
  function ArgsUpTo(args: seq<Bytes>, n: nat): Bytes
    requires n <= |args|
  {
    if n == 0 then [] else ArgsUpTo(args, n - 1) + args[n - 1]
  }

  function WordsBytes(words: seq<int>): Bytes { WordsUpTo(words, |words|) }

  function ArgsBytes(args: seq<Bytes>): Bytes { ArgsUpTo(args, |args|) }

  /** Function name, argument count and type words: common to three messages. */
  function CallBytes(name: Bytes, words: seq<int>): Bytes {
    StringBytes(name) + TypesBytes(words)
  }

  function TypesBytes(words: seq<int>): Bytes {
    IntegerBytes(|words|) + WordsBytes(words)
  }

  function Encode(m: Message): (b: Bytes)
    ensures b != []
  {
    match m
    case Register(host, port, name, words) =>
      [REGISTER] + StringBytes(host) + IntegerBytes(port) + CallBytes(name, words)
    case LocateRequest(name, words) => [LOCATE_REQUEST] + CallBytes(name, words)
    case LocateSuccess(host, port) => [LOCATE_SUCCESS] + StringBytes(host) + IntegerBytes(port)
    case Execute(name, words, args) => [EXECUTE] + CallBytes(name, words) + ArgsBytes(args)
    case Status(kind, status) => [StatusType(kind), StatusByte(status)]
  }

  predicate PlainWords(words: seq<int>) {
    NonZero(words) && forall i :: 0 <= i < |words| ==> IsInt32(words[i])
  }

  lemma PlainWhenSized(words: seq<int>)
    requires SizedWords(words)
    ensures PlainWords(words) && Words(words + [0]) == words
  {
    WordsOfTerminated(words);
  }

  predicate SizedBy(widths: seq<nat>, args: seq<Bytes>) {
    |args| == |widths| && forall i :: 0 <= i < |widths| ==> |args[i]| == widths[i]
  }

  predicate MatchingArgs(words: seq<int>, args: seq<Bytes>) {
    SizedWords(words) && SizedBy(Widths(words), args)
  }

  /** Total length of the first n arguments. */
  function TotalUpTo(args: seq<Bytes>, n: nat): nat
    requires n <= |args|
  {
    if n == 0 then 0 else TotalUpTo(args, n - 1) + |args[n - 1]|
  }

  function CallSize(name: Bytes, words: seq<int>): nat {
    8 + |name| + 4 * |words|
  }

  /** The number of bytes a message takes. */
  function Size(m: Message): nat {
    match m
    case Register(host, _, name, words) => 9 + |host| + CallSize(name, words)
    case LocateRequest(name, words) => 1 + CallSize(name, words)
    case LocateSuccess(host, _) => 9 + |host|
    case Execute(name, words, args) => 1 + CallSize(name, words) + TotalUpTo(args, |args|)
    case Status(_, _) => 2
  }

  lemma {:induction false} TotalIsLength(args: seq<Bytes>, n: nat)
    requires n <= |args|
    ensures |ArgsUpTo(args, n)| == TotalUpTo(args, n)
  {
    if n > 0 {
      TotalIsLength(args, n - 1);
    }
  }

  lemma SizeIsLength(m: Message)
    ensures |Encode(m)| == Size(m)
  {
    if m.Execute? {
      TotalIsLength(m.args, |m.args|);
    }
  }

  /** A message its constructor can build and whose length fits the `int` of a RawMessage. */
  predicate WellFormed(m: Message) {
    && Size(m) < INT_LIMIT
    && match m
       case Register(_, port, _, words) => IsInt32(port) && PlainWords(words)
       case LocateRequest(_, words) => PlainWords(words)
       case LocateSuccess(_, port) => IsInt32(port)
       case Execute(_, words, args) => MatchingArgs(words, args)
       case Status(_, status) => -128 <= status <= 127
  }

  /** Whatever the constructors build fits the `int` lengths of RawMessage and of the frame header. */
  lemma WellFormedFits(m: Message)
    requires WellFormed(m)
    ensures |Encode(m)| < INT_LIMIT
  {
    SizeIsLength(m);
  }

  // ---------------------------------------------------------------- decoding

  /** n consecutive integer fields at `pos`. */
  function ReadWords(buffer: Bytes, pos: nat, n: nat): (words: seq<int>)
    requires pos + 4 * n <= |buffer|
    ensures |words| == n
    ensures forall i :: 0 <= i < n ==> words[i] == IntegerAt(buffer, pos + 4 * i)
  {
    if n == 0 then [] else ReadWords(buffer, pos, n - 1) + [IntegerAt(buffer, pos + 4 * (n - 1))]
  }

  function TakeWords(buffer: Bytes, pos: nat, n: nat): Option<Field<seq<int>>> {
    if pos + 4 * n <= |buffer| then Some(Field(ReadWords(buffer, pos, n), pos + 4 * n)) else None
  }

  /** The bytes of argument i of a payload at `pos`. */
  function ArgAt(buffer: Bytes, pos: nat, widths: seq<nat>, i: nat): (arg: Bytes)
    requires i < |widths| && pos + Offset(widths, |widths|) <= |buffer|
    ensures |arg| == widths[i]
  {
    OffsetGrows(widths, i + 1, |widths|);
    buffer[pos + Offset(widths, i)..pos + Offset(widths, i + 1)]
  }

  /** The first n arguments of a payload at `pos`. */
  function ReadArgs(buffer: Bytes, pos: nat, widths: seq<nat>, n: nat): (args: seq<Bytes>)
    requires n <= |widths| && pos + Offset(widths, |widths|) <= |buffer|
    ensures |args| == n && forall i :: 0 <= i < n ==> |args[i]| == widths[i]
  {
    if n == 0 then [] else ReadArgs(buffer, pos, widths, n - 1) + [ArgAt(buffer, pos, widths, n - 1)]
  }

  function TakeArgs(buffer: Bytes, pos: nat, widths: seq<nat>): (r: Option<Field<seq<Bytes>>>)
    ensures r.Some? ==> SizedBy(widths, r.value.value)
  {
    var end := pos + Offset(widths, |widths|);
    if end <= |buffer| then Some(Field(ReadArgs(buffer, pos, widths, |widths|), end)) else None
  }

  datatype Call = Call(name: Bytes, words: seq<int>)

  function TakeTypes(buffer: Bytes, pos: nat): Option<Field<seq<int>>> {
    match TakeInteger(buffer, pos)
    case None => None
    case Some(Field(n, next)) => if n < 0 then None else TakeWords(buffer, next, n)
  }

  function TakeCall(buffer: Bytes, pos: nat): Option<Field<Call>> {
    match TakeString(buffer, pos)
    case None => None
    case Some(Field(name, next)) =>
      match TakeTypes(buffer, next)
      case None => None
      case Some(Field(words, end)) => Some(Field(Call(name, words), end))
  }

  /** What deserializing yields, with the final cursor; None for a buffer the code takes to be impossible. */
  function Parse(buffer: Bytes): Option<Field<Message>> {
    if buffer == [] then None
    else if buffer[0] == REGISTER then ParseRegister(buffer)
    else if buffer[0] == LOCATE_REQUEST then ParseLocateRequest(buffer)
    else if buffer[0] == LOCATE_SUCCESS then ParseLocateSuccess(buffer)
    else if buffer[0] == EXECUTE then ParseExecute(buffer)
    else ParseStatus(buffer)
  }

  function ParseLocateRequest(buffer: Bytes): Option<Field<Message>> {
    match TakeCall(buffer, 1)
    case None => None
    case Some(Field(c, end)) => Some(Field(LocateRequest(c.name, Words(c.words + [0])), end))
  }

  function ParseLocateSuccess(buffer: Bytes): Option<Field<Message>> {
    match TakeString(buffer, 1)
    case None => None
    case Some(Field(host, p)) =>
      match TakeInteger(buffer, p)
      case None => None
      case Some(Field(port, end)) => Some(Field(LocateSuccess(host, port), end))
  }

  function ParseStatus(buffer: Bytes): Option<Field<Message>>
    requires buffer != []
  {
    match StatusKindOf(buffer[0])
    case None => None
    case Some(kind) =>
      if |buffer| < 2 then None else Some(Field(Status(kind, ByteStatus(buffer[1])), 2))
  }

  function ParseRegister(buffer: Bytes): Option<Field<Message>> {
    match TakeString(buffer, 1)
    case None => None
    case Some(Field(host, p)) =>
      match TakeInteger(buffer, p)
      case None => None
      case Some(Field(port, q)) =>
        match TakeCall(buffer, q)
        case None => None
        case Some(Field(c, end)) => Some(Field(Register(host, port, c.name, Words(c.words + [0])), end))
  }

  function ParseExecute(buffer: Bytes): (r: Option<Field<Message>>)
    ensures r.Some? ==> r.value.value.Execute? && MatchingArgs(r.value.value.words, r.value.value.args)
  {
    WithArguments(buffer, TakeCall(buffer, 1))
  }

  /** The arguments behind the call part, if that part was there and its words are valid. */
  function WithArguments(buffer: Bytes, call: Option<Field<Call>>): (r: Option<Field<Message>>)
    ensures r.Some? ==> r.value.value.Execute? && MatchingArgs(r.value.value.words, r.value.value.args)
  {
    match call
    case None => None
    case Some(Field(c, p)) =>
      if !SizedWords(c.words) then None
      else
        match TakeArgs(buffer, p, Widths(c.words))
        case None => None
        case Some(Field(args, end)) => Some(Field(Execute(c.name, c.words, args), end))
  }

  // -------------------------------------------------------------- round trip

  lemma {:induction false} WordsAt(buffer: Bytes, pos: nat, words: seq<int>, n: nat)
    requires n <= |words| && At(buffer, pos, WordsUpTo(words, n))
    requires forall i :: 0 <= i < |words| ==> IsInt32(words[i])
    ensures forall i :: 0 <= i < n ==> IntegerAt(buffer, pos + 4 * i) == words[i]
  {
    if n > 0 {
      AtSplit(buffer, pos, WordsUpTo(words, n - 1), IntegerBytes(words[n - 1]));
      TakeIntegerAt(buffer, pos + 4 * (n - 1), words[n - 1]);
      WordsAt(buffer, pos, words, n - 1);
    }
  }

  lemma TakeWordsAt(buffer: Bytes, pos: nat, words: seq<int>)
    requires At(buffer, pos, WordsBytes(words))
    requires forall i :: 0 <= i < |words| ==> IsInt32(words[i])
    ensures TakeWords(buffer, pos, |words|) == Some(Field(words, pos + 4 * |words|))
  {
    WordsAt(buffer, pos, words, |words|);
    assert ReadWords(buffer, pos, |words|) == words;
  }

  lemma {:induction false} ArgsSize(widths: seq<nat>, args: seq<Bytes>, n: nat)
    requires SizedBy(widths, args) && n <= |args|
    ensures |ArgsUpTo(args, n)| == Offset(widths, n)
  {
    if n > 0 {
      ArgsSize(widths, args, n - 1);
    }
  }

  lemma {:induction false} ArgInArgs(widths: seq<nat>, args: seq<Bytes>, n: nat, i: nat)
    requires SizedBy(widths, args) && i < n <= |args|
    ensures At(ArgsUpTo(args, n), Offset(widths, i), args[i])
    decreases n
  {
    ArgsSize(widths, args, n - 1);
    if i < n - 1 {
      ArgInArgs(widths, args, n - 1, i);
      AtPrefix(ArgsUpTo(args, n - 1), args[n - 1], Offset(widths, i), args[i]);
    }
  }

  lemma ArgStands(buffer: Bytes, pos: nat, widths: seq<nat>, args: seq<Bytes>, i: nat)
    requires SizedBy(widths, args) && At(buffer, pos, ArgsBytes(args)) && i < |widths|
    ensures At(buffer, pos + Offset(widths, i), args[i])
    ensures |ArgsBytes(args)| == Offset(widths, |widths|)
  {
    ArgsSize(widths, args, |args|);
    ArgInArgs(widths, args, |args|, i);
    AtInside(buffer, pos, ArgsBytes(args), Offset(widths, i), args[i]);
  }

  lemma ArgAtIs(buffer: Bytes, pos: nat, widths: seq<nat>, args: seq<Bytes>, i: nat)
    requires SizedBy(widths, args) && At(buffer, pos, ArgsBytes(args)) && i < |widths|
    ensures pos + Offset(widths, |widths|) <= |buffer| && ArgAt(buffer, pos, widths, i) == args[i]
  {
    ArgStands(buffer, pos, widths, args, i);
    SliceIsArg(buffer, pos, widths, i, args[i]);
  }

  /** What stands where argument i starts, and is as wide, is argument i. */
  lemma SliceIsArg(buffer: Bytes, pos: nat, widths: seq<nat>, i: nat, arg: Bytes)
    requires i < |widths| && pos + Offset(widths, |widths|) <= |buffer|
    requires |arg| == widths[i] && At(buffer, pos + Offset(widths, i), arg)
    ensures ArgAt(buffer, pos, widths, i) == arg
  {
    assert pos + Offset(widths, i + 1) == pos + Offset(widths, i) + |arg|;
  }

  lemma {:induction false} ReadArgsAre(buffer: Bytes, pos: nat, widths: seq<nat>, args: seq<Bytes>, n: nat)
    requires SizedBy(widths, args) && At(buffer, pos, ArgsBytes(args)) && n <= |widths|
    ensures pos + Offset(widths, |widths|) <= |buffer|
    ensures ReadArgs(buffer, pos, widths, n) == args[..n]
  {
    ArgsSize(widths, args, |args|);
    if n > 0 {
      ReadArgsAre(buffer, pos, widths, args, n - 1);
      ArgAtIs(buffer, pos, widths, args, n - 1);
    }
  }

  lemma TakeArgsAt(buffer: Bytes, pos: nat, widths: seq<nat>, args: seq<Bytes>)
    requires SizedBy(widths, args) && At(buffer, pos, ArgsBytes(args))
    ensures TakeArgs(buffer, pos, widths) == Some(Field(args, pos + |ArgsBytes(args)|))
  {
    ArgsSize(widths, args, |args|);
    ReadArgsAre(buffer, pos, widths, args, |widths|);
    assert args[..|widths|] == args;
  }

  lemma TakeTypesAt(buffer: Bytes, pos: nat, words: seq<int>)
    requires |words| < INT_LIMIT && forall i :: 0 <= i < |words| ==> IsInt32(words[i])
    requires At(buffer, pos, TypesBytes(words))
    ensures TakeTypes(buffer, pos) == Some(Field(words, pos + |TypesBytes(words)|))
  {
    AtSplit(buffer, pos, IntegerBytes(|words|), WordsBytes(words));
    TakeIntegerAt(buffer, pos, |words|);
    TakeWordsAt(buffer, pos + 4, words);
  }

  lemma CallTaken(buffer: Bytes, pos: nat, name: Bytes, words: seq<int>, p: nat, end: nat)
    requires TakeString(buffer, pos) == Some(Field(name, p)) && TakeTypes(buffer, p) == Some(Field(words, end))
    ensures TakeCall(buffer, pos) == Some(Field(Call(name, words), end))
  {
  }

  lemma TakeCallAt(buffer: Bytes, pos: nat, name: Bytes, words: seq<int>)
    requires |name| < INT_LIMIT && |words| < INT_LIMIT
    requires forall i :: 0 <= i < |words| ==> IsInt32(words[i])
    requires At(buffer, pos, CallBytes(name, words))
    ensures TakeCall(buffer, pos) == Some(Field(Call(name, words), pos + |CallBytes(name, words)|))
  {
    AtSplit(buffer, pos, StringBytes(name), TypesBytes(words));
    var p := pos + |StringBytes(name)|;
    assert TakeString(buffer, pos) == Some(Field(name, p)) by {
      TakeStringAt(buffer, pos, name);
    }
    var end := p + |TypesBytes(words)|;
    assert TakeTypes(buffer, p) == Some(Field(words, end)) by {
      TakeTypesAt(buffer, p, words);
    }
    CallTaken(buffer, pos, name, words, p, end);
  }

  lemma ParseRegisterAt(b: Bytes, m: Message)
    requires m.Register? && IsInt32(m.port) && PlainWords(m.words)
    requires |m.host| < INT_LIMIT && |m.name| < INT_LIMIT && |m.words| < INT_LIMIT
    requires At(b, 1, StringBytes(m.host)) && At(b, 1 + |StringBytes(m.host)|, IntegerBytes(m.port))
    requires At(b, 5 + |StringBytes(m.host)|, CallBytes(m.name, m.words))
    requires b[0] == REGISTER && |b| == 5 + |StringBytes(m.host)| + |CallBytes(m.name, m.words)|
    ensures Parse(b) == Some(Field(m, |b|))
  {
    var p := 1 + |StringBytes(m.host)|;
    assert TakeString(b, 1) == Some(Field(m.host, p)) by {
      TakeStringAt(b, 1, m.host);
    }
    assert TakeInteger(b, p) == Some(Field(m.port, p + 4)) by {
      TakeIntegerAt(b, p, m.port);
    }
    assert TakeCall(b, p + 4) == Some(Field(Call(m.name, m.words), |b|)) by {
      TakeCallAt(b, p + 4, m.name, m.words);
    }
    RegisterParsed(b, m, p);
  }

  lemma RegisterParsed(b: Bytes, m: Message, p: nat)
    requires m.Register? && PlainWords(m.words) && b != [] && b[0] == REGISTER
    requires TakeString(b, 1) == Some(Field(m.host, p))
    requires TakeInteger(b, p) == Some(Field(m.port, p + 4))
    requires TakeCall(b, p + 4) == Some(Field(Call(m.name, m.words), |b|))
    ensures Parse(b) == Some(Field(m, |b|))
  {
    WordsOfTerminated(m.words);
  }

  lemma RegisterPieces(m: Message)
    requires m.Register?
    ensures var b := Encode(m);
      && b[0] == REGISTER
      && At(b, 1, StringBytes(m.host)) && At(b, 1 + |StringBytes(m.host)|, IntegerBytes(m.port))
      && At(b, 5 + |StringBytes(m.host)|, CallBytes(m.name, m.words))
      && |b| == 5 + |StringBytes(m.host)| + |CallBytes(m.name, m.words)|
  {
    var b, host, port, call := Encode(m), StringBytes(m.host), IntegerBytes(m.port), CallBytes(m.name, m.words);
    assert b == [REGISTER] + host + port + call;
    assert At(b, 0, b);
    AtSplit(b, 0, [REGISTER] + host + port, call);
    AtSplit(b, 0, [REGISTER] + host, port);
    AtSplit(b, 0, [REGISTER], host);
  }

  lemma RegisterRoundTrip(m: Message)
    requires WellFormed(m) && m.Register?
    ensures Parse(Encode(m)) == Some(Field(m, |Encode(m)|))
  {
    RegisterPieces(m);
    ParseRegisterAt(Encode(m), m);
  }

  lemma LocateRequestParsed(b: Bytes, m: Message)
    requires m.LocateRequest? && PlainWords(m.words) && b != [] && b[0] == LOCATE_REQUEST
    requires TakeCall(b, 1) == Some(Field(Call(m.name, m.words), |b|))
    ensures Parse(b) == Some(Field(m, |b|))
  {
    WordsOfTerminated(m.words);
  }

  lemma LocateRequestPieces(m: Message)
    requires m.LocateRequest?
    ensures var b, call := Encode(m), CallBytes(m.name, m.words);
      && b[0] == LOCATE_REQUEST && At(b, 1, call) && |b| == 1 + |call|
  {
    var b, call := Encode(m), CallBytes(m.name, m.words);
    assert b == [LOCATE_REQUEST] + call;
    assert At(b, 0, b);
    AtSplit(b, 0, [LOCATE_REQUEST], call);
  }

  lemma LocateRequestFromPieces(b: Bytes, m: Message)
    requires m.LocateRequest? && PlainWords(m.words) && |m.name| < INT_LIMIT && |m.words| < INT_LIMIT
    requires b != [] && b[0] == LOCATE_REQUEST
    requires At(b, 1, CallBytes(m.name, m.words)) && |b| == 1 + |CallBytes(m.name, m.words)|
    ensures Parse(b) == Some(Field(m, |b|))
  {
    assert TakeCall(b, 1) == Some(Field(Call(m.name, m.words), |b|)) by {
      TakeCallAt(b, 1, m.name, m.words);
    }
    LocateRequestParsed(b, m);
  }

  lemma LocateRequestRoundTrip(m: Message)
    requires WellFormed(m) && m.LocateRequest?
    ensures Parse(Encode(m)) == Some(Field(m, |Encode(m)|))
  {
    LocateRequestPieces(m);
    LocateRequestFromPieces(Encode(m), m);
  }

  lemma LocateSuccessPieces(m: Message)
    requires m.LocateSuccess?
    ensures var b, host := Encode(m), StringBytes(m.host);
      && b[0] == LOCATE_SUCCESS && At(b, 1, host) && At(b, 1 + |host|, IntegerBytes(m.port)) && |b| == 5 + |host|
  {
    var b, host, port := Encode(m), StringBytes(m.host), IntegerBytes(m.port);
    assert b == [LOCATE_SUCCESS] + host + port;
    assert At(b, 0, b);
    AtSplit(b, 0, [LOCATE_SUCCESS] + host, port);
    AtSplit(b, 0, [LOCATE_SUCCESS], host);
  }

  lemma ParseLocateSuccessAt(b: Bytes, m: Message, p: nat)
    requires m.LocateSuccess? && b != [] && b[0] == LOCATE_SUCCESS
    requires TakeString(b, 1) == Some(Field(m.host, p)) && TakeInteger(b, p) == Some(Field(m.port, |b|))
    ensures Parse(b) == Some(Field(m, |b|))
  {
  }

  lemma LocateSuccessRoundTrip(m: Message)
    requires WellFormed(m) && m.LocateSuccess?
    ensures Parse(Encode(m)) == Some(Field(m, |Encode(m)|))
  {
    var b, p := Encode(m), 1 + |StringBytes(m.host)|;
    LocateSuccessPieces(m);
    assert TakeString(b, 1) == Some(Field(m.host, p)) by {
      TakeStringAt(b, 1, m.host);
    }
    assert TakeInteger(b, p) == Some(Field(m.port, |b|)) by {
      TakeIntegerAt(b, p, m.port);
    }
    ParseLocateSuccessAt(b, m, p);
  }

  lemma WithArgumentsAt(b: Bytes, m: Message, p: nat)
    requires m.Execute? && MatchingArgs(m.words, m.args)
    requires At(b, p, ArgsBytes(m.args)) && |b| == p + |ArgsBytes(m.args)|
    ensures WithArguments(b, Some(Field(Call(m.name, m.words), p))) == Some(Field(m, |b|))
  {
    TakeArgsAt(b, p, Widths(m.words), m.args);
  }

  lemma ParseIsExecute(b: Bytes)
    requires b != [] && b[0] == EXECUTE
    ensures Parse(b) == WithArguments(b, TakeCall(b, 1))
  {
  }

  lemma ExecutePieces(m: Message)
    requires m.Execute?
    ensures var b := Encode(m);
      && b[0] == EXECUTE
      && At(b, 1, CallBytes(m.name, m.words)) && At(b, 1 + |CallBytes(m.name, m.words)|, ArgsBytes(m.args))
      && |b| == 1 + |CallBytes(m.name, m.words)| + |ArgsBytes(m.args)|
      && |m.name| <= |b| && |m.words| <= |b|
  {
    var b, call, args := Encode(m), CallBytes(m.name, m.words), ArgsBytes(m.args);
    assert b == [EXECUTE] + call + args;
    assert At(b, 0, b);
    AtSplit(b, 0, [EXECUTE] + call, args);
    AtSplit(b, 0, [EXECUTE], call);
  }

  lemma ExecuteRoundTrip(m: Message)
    requires WellFormed(m) && m.Execute?
    ensures Parse(Encode(m)) == Some(Field(m, |Encode(m)|))
  {
    ExecutePieces(m);
    ExecuteFromPieces(Encode(m), m);
  }

  lemma ExecuteFromPieces(b: Bytes, m: Message)
    requires m.Execute? && MatchingArgs(m.words, m.args) && |m.name| < INT_LIMIT && |m.words| < INT_LIMIT
    requires b != [] && b[0] == EXECUTE && At(b, 1, CallBytes(m.name, m.words))
    requires At(b, 1 + |CallBytes(m.name, m.words)|, ArgsBytes(m.args))
    requires |b| == 1 + |CallBytes(m.name, m.words)| + |ArgsBytes(m.args)|
    ensures Parse(b) == Some(Field(m, |b|))
  {
    var p := 1 + |CallBytes(m.name, m.words)|;
    var call, parsed := Some(Field(Call(m.name, m.words), p)), Some(Field(m, |b|));
    assert TakeCall(b, 1) == call by {
      TakeCallAt(b, 1, m.name, m.words);
    }
    assert WithArguments(b, call) == parsed by {
      WithArgumentsAt(b, m, p);
    }
    ParseIsExecute(b);
  }

  /** Decoding undoes encoding for every message, and the cursor ends at the end of the buffer. */
  lemma RoundTrip(m: Message)
    requires WellFormed(m)
    ensures Parse(Encode(m)) == Some(Field(m, |Encode(m)|))
  {
    match m
    case Register(_, _, _, _) => RegisterRoundTrip(m);
    case Execute(_, _, _) => ExecuteRoundTrip(m);
    case Status(_, status) => StatusSurvives(status);
    case LocateRequest(_, _) => LocateRequestRoundTrip(m);
    case LocateSuccess(_, _) => LocateSuccessRoundTrip(m);
  }

  /** No two messages, of whatever types, share their bytes. */
  lemma EncodeInjective(m1: Message, m2: Message)
    requires WellFormed(m1) && WellFormed(m2)
    ensures Encode(m1) == Encode(m2) ==> m1 == m2
  {
    RoundTrip(m1);
    RoundTrip(m2);
  }

  /** In the bytes of an Execute message, argument i starts behind the preceding arguments' widths,
      and nothing follows the last argument. */
  lemma ArgumentOffset(m: Message, i: nat)
    requires m.Execute? && MatchingArgs(m.words, m.args) && i < |m.args|
    ensures At(Encode(m), 1 + |CallBytes(m.name, m.words)| + Offset(Widths(m.words), i), m.args[i])
    ensures |Encode(m)| == 1 + |CallBytes(m.name, m.words)| + Offset(Widths(m.words), |m.words|)
  {
    ExecutePieces(m);
    ArgStands(Encode(m), 1 + |CallBytes(m.name, m.words)|, Widths(m.words), m.args, i);
  }

  // ------------------------------------------------------------------ layout

  /** The message types have the numbers of their enumeration, and a status message is its type and one byte. */
  lemma TypeNumbers(m: Message)
    ensures m.Register? ==> Encode(m)[0] == 0
    ensures m.LocateRequest? ==> Encode(m)[0] == 3
    ensures m.LocateSuccess? ==> Encode(m)[0] == 4
    ensures m.Execute? ==> Encode(m)[0] == 6
    ensures m.Status? ==> |Encode(m)| == 2 && Encode(m)[1] == m.status % 256
    ensures m.Status? ==> Encode(m)[0] == match m.kind
                                          case RegisterSuccess => 1
                                          case RegisterFailure => 2
                                          case LocateFailure => 5
                                          case ExecuteFailure => 7
                                          case Terminate => 8
                                          case TerminateSuccess => 9
                                          case TerminateFailure => 10
  {
    if m.Register? {
      RegisterPieces(m);
    } else if m.LocateRequest? {
      LocateRequestPieces(m);
    } else if m.LocateSuccess? {
      LocateSuccessPieces(m);
    } else if m.Execute? {
      ExecutePieces(m);
    }
  }

  lemma IntegerStands(b: Bytes, pos: nat, x: int)
    requires IsInt32(x) && At(b, pos, IntegerBytes(x))
    ensures pos + 4 <= |b| && IntegerAt(b, pos) == x
  {
    AtSlice(b, pos, IntegerBytes(x));
    IntegerRoundTrip(x);
  }

  /** At the position: the length of a string, then its characters. */
  predicate StringLaidOut(b: Bytes, pos: nat, s: Bytes) {
    pos + 4 + |s| <= |b| && IntegerAt(b, pos) == |s| && b[pos + 4..pos + 4 + |s|] == s
  }

  /** At the position: the name, the number of arguments, and their type words in order. */
  predicate CallLaidOut(b: Bytes, pos: nat, name: Bytes, words: seq<int>) {
    var p := pos + 4 + |name|;
    && p + 4 + 4 * |words| <= |b|
    && StringLaidOut(b, pos, name)
    && IntegerAt(b, p) == |words|
    && forall i :: 0 <= i < |words| ==> IntegerAt(b, p + 4 + 4 * i) == words[i]
  }

  lemma StringStands(b: Bytes, pos: nat, s: Bytes)
    requires |s| < INT_LIMIT && At(b, pos, StringBytes(s))
    ensures StringLaidOut(b, pos, s)
  {
    AtSplit(b, pos, IntegerBytes(|s|), s);
    IntegerStands(b, pos, |s|);
    AtSlice(b, pos + 4, s);
  }

  lemma CallStands(b: Bytes, pos: nat, name: Bytes, words: seq<int>)
    requires |name| < INT_LIMIT && |words| < INT_LIMIT
    requires forall i :: 0 <= i < |words| ==> IsInt32(words[i])
    requires At(b, pos, CallBytes(name, words))
    ensures CallLaidOut(b, pos, name, words)
  {
    var p := pos + 4 + |name|;
    AtSplit(b, pos, StringBytes(name), TypesBytes(words));
    StringStands(b, pos, name);
    AtSplit(b, p, IntegerBytes(|words|), WordsBytes(words));
    IntegerStands(b, p, |words|);
    WordsAt(b, p + 4, words, |words|);
  }

  /** Behind its type, a Register message is host, port and call, and nothing else. */
  lemma RegisterLayout(m: Message)
    requires WellFormed(m) && m.Register?
    ensures var b, p := Encode(m), 5 + |m.host|;
      && StringLaidOut(b, 1, m.host)
      && p + 4 <= |b| && IntegerAt(b, p) == m.port
      && CallLaidOut(b, p + 4, m.name, m.words)
      && |b| == p + 12 + |m.name| + 4 * |m.words|
  {
    RegisterPieces(m);
    SizeIsLength(m);
    StringStands(Encode(m), 1, m.host);
    IntegerStands(Encode(m), 5 + |m.host|, m.port);
    CallStands(Encode(m), 9 + |m.host|, m.name, m.words);
  }

  /** Behind its type, a LocateRequest message is a call. */
  lemma LocateRequestLayout(m: Message)
    requires WellFormed(m) && m.LocateRequest?
    ensures CallLaidOut(Encode(m), 1, m.name, m.words) && |Encode(m)| == 9 + |m.name| + 4 * |m.words|
  {
    LocateRequestPieces(m);
    SizeIsLength(m);
    CallStands(Encode(m), 1, m.name, m.words);
  }

  /** Behind its type, a LocateSuccess message is host and port. */
  lemma LocateSuccessLayout(m: Message)
    requires WellFormed(m) && m.LocateSuccess?
    ensures var b, p := Encode(m), 5 + |m.host|;
      StringLaidOut(b, 1, m.host) && |b| == p + 4 && IntegerAt(b, p) == m.port
  {
    LocateSuccessPieces(m);
    StringStands(Encode(m), 1, m.host);
    IntegerStands(Encode(m), 5 + |m.host|, m.port);
  }

  /** Behind its type, an Execute message is a call and then the arguments. */
  lemma ExecuteLayout(m: Message)
    requires WellFormed(m) && m.Execute?
    ensures CallLaidOut(Encode(m), 1, m.name, m.words)
    ensures |Encode(m)| == 9 + |m.name| + 4 * |m.words| + TotalUpTo(m.args, |m.args|)
  {
    ExecutePieces(m);
    SizeIsLength(m);
    CallStands(Encode(m), 1, m.name, m.words);
  }

  lemma CallLength(name: Bytes, words: seq<int>)
    ensures |CallBytes(name, words)| == 8 + |name| + 4 * |words|
  {
  }

  /** Each argument stands where its predecessors end. */
  lemma ArgumentLayout(m: Message, i: nat)
    requires WellFormed(m) && m.Execute? && i < |m.args|
    ensures At(Encode(m), 9 + |m.name| + 4 * |m.words| + Offset(Widths(m.words), i), m.args[i])
  {
    CallLength(m.name, m.words);
    ArgumentOffset(m, i);
  }
}
