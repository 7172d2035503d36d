/** The end-to-end call: locate, execute, copy back (rpc.cc, libserver.cc). */
module Rpc {
  import opened Wire
  import opened Args
  import opened Signatures
  import opened BinderDb
  import opened Messages
  import opened Serializers
  import opened ExecuteMessages
  import opened BinderDatabases

  /** A skeleton reads the type array and the memory of the arguments, and leaves a status and new contents. */
  type Skeleton = (seq<int>, seq<Bytes>) -> (int, seq<Bytes>)

  type ServerDatabase = map<Signature, Skeleton>

  /** Skeletons write into the buffers they are given: number and sizes of the arguments stay. */
  predicate SameShape(before: seq<Bytes>, after: seq<Bytes>) {
    |after| == |before| && forall i :: 0 <= i < |before| ==> |after[i]| == |before[i]|
  }

  ghost predicate InPlace(f: Skeleton) {
    forall argTypes, args :: SameShape(args, f(argTypes, args).1)
  }

  ghost predicate AllInPlace(database: ServerDatabase) {
    forall sig <- database :: InPlace(database[sig])
  }

  // ---------------------------------------------------------------- copy back

  predicate IsResult(word: int) {
    IsOnlyOutput(word) || IsInputOutput(word)
  }

  /** memcpy of the result bytes over the front of the caller's buffer. */
  function Overwritten(dest: Bytes, src: Bytes): Bytes
    requires |src| <= |dest|
  {
    src + dest[|src|..]
  }

  /** One argument after the results came back. */
  function Back(word: int, dest: Bytes, src: Bytes): Bytes
    requires |src| <= |dest|
  {
    if IsResult(word) then Overwritten(dest, src) else dest
  }

  /** The caller's memory after the first n results came back. */
  function BackUpTo(words: seq<int>, results: seq<Bytes>, memory: seq<Bytes>, n: nat): (after: seq<Bytes>)
    requires MatchingArgs(words, results) && Covers(words, memory) && n <= |words|
    ensures |after| == |memory|
    ensures forall i :: 0 <= i < n ==> after[i] == Back(words[i], memory[i], results[i])
    ensures forall i :: n <= i < |memory| ==> after[i] == memory[i]
  {
    if n == 0 then memory
    else BackUpTo(words, results, memory, n - 1)[n - 1 := Back(words[n - 1], memory[n - 1], results[n - 1])]
  }

  /** The caller's memory after the results came back: results replaced, everything else as it was. */
  function CopiedBack(words: seq<int>, results: seq<Bytes>, memory: seq<Bytes>): (after: seq<Bytes>)
    requires MatchingArgs(words, results) && Covers(words, memory)
    ensures |after| == |memory|
    ensures forall i :: 0 <= i < |words| ==> after[i] == Back(words[i], memory[i], results[i])
    ensures forall i :: |words| <= i < |memory| ==> after[i] == memory[i]
  {
    BackUpTo(words, results, memory, |words|)
  }

  /** Byte by byte: where bit 30 of the type word is set, the result stands at the front of the caller's argument;
      all other bytes are the caller's own. */
  lemma CopiedBackBytes(words: seq<int>, results: seq<Bytes>, memory: seq<Bytes>, i: nat, k: nat)
    requires MatchingArgs(words, results) && Covers(words, memory)
    requires i < |memory| && k < |memory[i]|
    ensures var after := CopiedBack(words, results, memory);
      && |after| == |memory| && |after[i]| == |memory[i]|
      && after[i][k] == if i < |words| && words[i] % 0x8000_0000 >= 0x4000_0000 && k < ArgBytes(words[i])
                        then results[i][k] else memory[i][k]
  {
    if i < |words| {
      OneBack(words, results, memory, i);
      BackByte(words[i], memory[i], results[i], k);
    }
  }

  lemma BackByte(word: int, dest: Bytes, src: Bytes, k: nat)
    requires IsInt32(word) && |src| <= |dest| && k < |dest|
    ensures |Back(word, dest, src)| == |dest|
    ensures Back(word, dest, src)[k] == if word % 0x8000_0000 >= 0x4000_0000 && k < |src| then src[k] else dest[k]
  {
    DirectionBits(word);
  }

  method CopyOutputArgumentsBack(result: ExecuteMessage, argsDest: array<Bytes>)
    requires result.Valid() && result.args != argsDest && Covers(result.Value().words, argsDest[..])
    modifies argsDest
    ensures argsDest[..] == CopiedBack(result.Value().words, result.Value().args, old(argsDest[..]))
  {
    var argTypes, argsSrc := result.argTypes[..], result.args[..];
    ghost var words, before := Words(argTypes), argsDest[..];
    var numArgs := NumberOfArgs(argTypes);
    for i := 0 to numArgs
      invariant argsDest[..] == BackUpTo(words, argsSrc, before, i)
    {
      assert argTypes[i] == words[i];
      OneBack(words, argsSrc, before, i);
      CopyOneBack(argTypes[i], argsSrc[i], argsDest, i);
    }
  }

  lemma OneBack(words: seq<int>, results: seq<Bytes>, memory: seq<Bytes>, i: nat)
    requires MatchingArgs(words, results) && Covers(words, memory) && i < |words|
    ensures SizedWord(words[i]) && |results[i]| == ArgBytes(words[i]) <= |memory[i]|
    ensures BackUpTo(words, results, memory, i)[i] == memory[i]
  {
    assert Widths(words)[i] == ArgBytes(words[i]);
  }

  /** One turn of the copying loop: outputs are copied, pure inputs skipped. */
  method CopyOneBack(word: int, src: Bytes, argsDest: array<Bytes>, i: nat)
    requires SizedWord(word) && i < argsDest.Length && |src| == ArgBytes(word) <= |argsDest[i]|
    modifies argsDest
    ensures argsDest[..] == old(argsDest[..])[i := Back(word, old(argsDest[i]), src)]
  {
    if !IsOnlyOutput(word) && !IsInputOutput(word) {
      return;
    }
    var nbytes := NumberOfBytes(word);
    assert src[..nbytes] == src;
    argsDest[i] := src[..nbytes] + argsDest[i][nbytes..];
  }

  // ------------------------------------------------------------------ server

  /** What executing a request means: the skeleton's status and, on 0, the arguments it left. */
  datatype Outcome = Unknown | Ran(status: int, args: seq<Bytes>)

  function Execution(database: ServerDatabase, name: Bytes, words: seq<int>, args: seq<Bytes>): Outcome
    requires ValidWords(words)
  {
    var sig := SignatureOf(name, words);
    if sig !in database then Unknown
    else var (status, after) := database[sig](words + [0], args); Ran(status, after)
  }

  /** The reply of a server for an outcome. */
  function ReplyTo(name: Bytes, words: seq<int>, outcome: Outcome): Message {
    match outcome
    case Unknown => Status(ExecuteFailure, UNEXPECTED_MESSAGE)
    case Ran(status, args) => if status != 0 then Status(ExecuteFailure, status) else Execute(name, words, args)
  }

  method HandleExecute(message: ExecuteMessage, database: ServerDatabase) returns (response: Bytes)
    requires message.Valid() && ValidWords(message.Value().words) && AllInPlace(database)
    requires message.argTypes[..] == message.Value().words + [0]
    modifies message.args
    ensures var m := old(message.Value());
      response == Encode(ReplyTo(m.name, m.words, Execution(database, m.name, m.words, m.args)))
  {
    ghost var m := message.Value();
    var signature := SignatureOfArgTypes(message.name, message.argTypes[..]);
    if signature !in database {
      response := SerializeStatus(ExecuteFailure, UNEXPECTED_MESSAGE);
      return;
    }
    var f := database[signature];
    var (ret, after) := f(message.argTypes[..], message.args[..]);
    assert SameShape(m.args, f(message.argTypes[..], m.args).1);
    WriteBack(message, after);
    if ret != 0 {
      response := SerializeStatus(ExecuteFailure, ret);
      return;
    }
    PayloadOfMatching(m.words, after);
    var success := new ExecuteMessage(message.name, message.argTypes[..], message.args[..]);
    response := SerializeExecute(success);
  }

  /** The skeleton's writes land in the message's own copies of the arguments. */
  method WriteBack(message: ExecuteMessage, after: seq<Bytes>)
    requires message.Valid() && SameShape(message.args[..], after)
    modifies message.args
    ensures message.args[..] == after
    ensures message.Valid() && message.Value() == Execute(old(message.Value()).name, old(message.Value()).words, after)
  {
    ghost var types := message.argTypes[..];
    for i := 0 to message.args.Length
      invariant message.args[..i] == after[..i]
      invariant message.argTypes[..] == types
    {
      message.args[i] := after[i];
    }
    assert message.args[..] == after;
  }

  /** The reply to a request: a failure if the server does not know the procedure, the skeleton's own failure, or the
      request again with the arguments as the skeleton has left them. */
  ghost predicate IsResponse(database: ServerDatabase, m: Message, response: Bytes)
    requires m.Execute? && ValidWords(m.words)
  {
    var sig := SignatureOf(m.name, m.words);
    if sig !in database then response == Encode(Status(ExecuteFailure, -1003))
    else
      var (status, after) := database[sig](m.words + [0], m.args);
      response == Encode(if status != 0 then Status(ExecuteFailure, status) else Execute(m.name, m.words, after))
  }

  /** One request of one client thread, from the received bytes to the bytes of the reply. */
  method ServeRequest(database: ServerDatabase, buffer: Bytes) returns (response: Bytes)
    requires AllInPlace(database) && ParseExecute(buffer).Some?
    requires ValidWords(ParseExecute(buffer).value.value.words)
    ensures var m := ParseExecute(buffer).value.value;
      response == Encode(ReplyTo(m.name, m.words, Execution(database, m.name, m.words, m.args)))
    ensures IsResponse(database, ParseExecute(buffer).value.value, response)
  {
    var message := DeserializeExecute(buffer);
    response := HandleExecute(message, database);
  }

  // ------------------------------------------------------------------ client

  /** What a call gives the caller: the returned status, and the memory behind the argument pointers. */
  datatype Effect = Effect(status: int, memory: seq<Bytes>)

  /** How an exchange with a peer ends: with its answer, with a lost connection, or with some message that
      answers something else. In the last two cases the peer may have taken the request or not. */
  datatype Exchange = Completed | Lost(taken: bool) | Strange(taken: bool, buffer: Bytes)

  predicate Taken(exchange: Exchange) {
    exchange.Completed? || exchange.taken
  }

  /** A message that answers something else has none of the expected types. */
  predicate Unexpected(exchange: Exchange, expected: set<byte>) {
    exchange.Strange? ==> exchange.buffer == [] || exchange.buffer[0] !in expected
  }

  const LOCATE_ANSWERS: set<byte> := {LOCATE_SUCCESS, StatusType(LocateFailure)}
  const EXECUTE_ANSWERS: set<byte> := {EXECUTE, StatusType(ExecuteFailure)}

  /** The caller's view of an execution. */
  ghost function Remote(words: seq<int>, memory: seq<Bytes>, outcome: Outcome): (e: Effect)
    requires Covers(words, memory)
    requires outcome.Ran? ==> MatchingArgs(words, outcome.args)
    ensures e.status != 0 ==> e.memory == memory
  {
    match outcome
    case Unknown => Effect(ByteStatus(StatusByte(UNEXPECTED_MESSAGE)), memory)
    case Ran(status, args) =>
      if status != 0 then Effect(ByteStatus(StatusByte(status)), memory)
      else Effect(0, CopiedBack(words, args, memory))
  }

  /** What the exchange with a server comes to. */
  ghost function ServerEffect(database: ServerDatabase, exchange: Exchange, name: Bytes, words: seq<int>, memory: seq<Bytes>)
    : (e: Effect)
    requires ValidWords(words) && Covers(words, memory) && AllInPlace(database)
    ensures e.status != 0 ==> e.memory == memory
  {
    match exchange
    case Lost(_) => Effect(SERVER_CONNECTION_ERROR, memory)
    case Strange(_, _) => Effect(UNEXPECTED_MESSAGE, memory)
    case Completed =>
      InPlaceMatches(database, name, words, Payload(words, memory));
      Remote(words, memory, Execution(database, name, words, Payload(words, memory)))
  }

  /** The servers that can be reached, with their dispatch tables. */
  type Servers = map<Addr, ServerDatabase>

  /** What a call comes to. A call that does not return 0 has changed no argument. */
  ghost function CallEffect(withBinder: Exchange, reply: Reply, servers: Servers, withServer: Exchange,
                            name: Bytes, words: seq<int>, memory: seq<Bytes>): (e: Effect)
    requires ValidWords(words) && Covers(words, memory) && forall a <- servers :: AllInPlace(servers[a])
    ensures e.status != 0 ==> e.memory == memory
  {
    match withBinder
    case Lost(_) => Effect(BINDER_CONNECTION_ERROR, memory)
    case Strange(_, _) => Effect(UNEXPECTED_MESSAGE, memory)
    case Completed =>
      match reply
      case Located(a) =>
        if a !in servers then Effect(SERVER_CONNECTION_ERROR, memory)
        else ServerEffect(servers[a], withServer, name, words, memory)
      case _ => Effect(LOCATE_FAILURE, memory)
  }

  lemma InPlaceMatches(database: ServerDatabase, name: Bytes, words: seq<int>, args: seq<Bytes>)
    requires AllInPlace(database) && ValidWords(words) && MatchingArgs(words, args)
    ensures Execution(database, name, words, args).Ran? ==> MatchingArgs(words, Execution(database, name, words, args).args)
  {
    var sig := SignatureOf(name, words);
    if sig in database {
      assert SameShape(args, database[sig](words + [0], args).1);
    }
  }

  // ------------------------------------------- addresses that can be sent back

  /** The address a LocateSuccess message can carry. */
  predicate Carried(a: Addr) {
    WellFormed(LocateSuccess(a.host, a.port))
  }

  predicate Sendable(q: seq<Entry>) {
    forall e <- q :: Carried(e.server.addr)
  }

  /** Whoever registers, does it with an address that a message can carry. */
  predicate Announced(op: Op) {
    op.Registering? ==> Carried(op.server.addr)
  }

  /** Every address that came in with a Register message can go out with a LocateSuccess message. */
  lemma RegisterAnnounces(message: Message, socket: Handle)
    requires message.Register? && WellFormed(message) && ValidWords(message.words)
    ensures Announced(RegisterOp(message, socket))
  {
  }

  lemma SendableStays(db: Db, op: Op)
    requires Sendable(db.queue) && Announced(op)
    ensures Sendable(Step(db, op).0.queue)
  {
    match op
    case Registering(sig, s) =>
      var time := if s.addr in db.stamps then db.stamps[s.addr].time else 0;
      EraseEntries(db.queue, time, s.addr);
      InsertEntries(EraseKey(db.queue, time, s.addr), Entry(db.time, s));
      InsertEntries(db.queue, Entry(db.time, s));
    case Locating(sig) =>
      if Step(db, op).1.Located? {
        var e := FirstProvider(db.queue, db.providers[sig]).value;
        EraseEntries(db.queue, e.time, e.server.addr);
        InsertEntries(EraseKey(db.queue, e.time, e.server.addr), Entry(db.time, e.server));
      }
    case Removing(h) => DropEntries(db.queue, h);
  }

  /** In every run of the binder, whatever it holds can be sent to a client. */
  lemma {:induction false} AlwaysSendable(db: Db, ops: seq<Op>)
    requires Sendable(db.queue) && forall op <- ops :: Announced(op)
    ensures Sendable(Run(db, ops).queue)
    decreases |ops|
  {
    if ops != [] {
      assert ops[0] in ops && forall op <- ops[1..] :: op in ops;
      SendableStays(db, ops[0]);
      AlwaysSendable(Step(db, ops[0]).0, ops[1..]);
    }
  }

  // ------------------------------------------------------------------- a call

  /** What the library demands of a call: a terminated type array with valid words, memory behind every
      pointer, and messages short enough for their `int` lengths. */
  predicate Callable(name: Bytes, argTypes: seq<int>, memory: seq<Bytes>) {
    && 0 in argTypes
    && ValidWords(Words(argTypes))
    && Covers(Words(argTypes), memory)
    && Size(Execute(name, Words(argTypes), Payload(Words(argTypes), memory))) < INT_LIMIT
  }

  /** Asks the binder; the request and its answer travel as bytes. */
  method Locate(binder: BinderDatabase, exchange: Exchange, name: Bytes, argTypes: seq<int>)
      returns (status: int, address: Option<Addr>)
    requires 0 in argTypes && ValidWords(Words(argTypes)) && Unexpected(exchange, LOCATE_ANSWERS)
    requires Size(LocateRequest(name, Words(argTypes))) < INT_LIMIT && Sendable(binder.serverQueue)
    modifies binder
    ensures var op := Locating(SignatureOf(name, Words(argTypes)));
      && binder.State() == (if Taken(exchange) then Step(old(binder.State()), op).0 else old(binder.State()))
      && (exchange.Lost? ==> address == None && status == BINDER_CONNECTION_ERROR)
      && (exchange.Strange? ==> address == None && status == UNEXPECTED_MESSAGE)
      && (exchange.Completed? ==> IsLocation(Step(old(binder.State()), op).1, status, address))
  {
    ghost var op := Locating(SignatureOf(name, Words(argTypes)));
    ghost var reply := Step(binder.State(), op).1;
    LocatedIsQueued(binder.State(), op);
    var response: Bytes := [];
    if Taken(exchange) {
      var words := CopyWordsOf(argTypes);
      PlainWhenSized(words);
      response := AskBinder(binder, LocateRequest(name, words));
    }
    match exchange
    case Lost(_) => return BINDER_CONNECTION_ERROR, None;
    case Strange(_, buffer) => status, address := ReadLocation(buffer, None);
    case Completed => status, address := ReadLocation(response, Some(reply));
  }

  /** What rpcCall goes on with after a reply of the binder. */
  predicate IsLocation(reply: Reply, status: int, address: Option<Addr>) {
    if reply.Located? then address == Some(reply.addr) else address == None && status == LOCATE_FAILURE
  }

  method AskBinder(binder: BinderDatabase, request: Message) returns (response: Bytes)
    requires request.LocateRequest? && WellFormed(request) && ValidWords(request.words)
    modifies binder
    ensures binder.State() == Step(old(binder.State()), LocateOp(request)).0
    ensures response == Encode(ReplyMessage(Step(old(binder.State()), LocateOp(request)).1))
  {
    var locateBuffer := SerializeLocateRequest(request);
    ParsedAs(request);
    var message := DeserializeLocateRequest(locateBuffer);
    response := binder.HandleLocate(message);
  }

  method ReadLocation(response: Bytes, ghost reply: Option<Reply>) returns (status: int, address: Option<Addr>)
    requires match reply
             case None => response == [] || response[0] !in LOCATE_ANSWERS
             case Some(r) => (r.Located? || r.NotLocated?) && WellFormed(ReplyMessage(r)) && response == Encode(ReplyMessage(r))
    ensures reply.None? ==> address == None && status == UNEXPECTED_MESSAGE
    ensures reply.Some? ==> IsLocation(reply.value, status, address)
  {
    if reply.Some? {
      ParsedAs(ReplyMessage(reply.value));
    }
    if response != [] && response[0] == StatusType(LocateFailure) {
      return LOCATE_FAILURE, None;
    }
    if response != [] && response[0] == LOCATE_SUCCESS {
      var success := DeserializeLocateSuccess(response);
      return 0, Some(Addr(success.host, success.port));
    }
    return UNEXPECTED_MESSAGE, None;
  }

  /** The decoder that the type byte selects gives the message back. */
  lemma ParsedAs(m: Message)
    requires WellFormed(m)
    ensures m.LocateRequest? ==> ParseLocateRequest(Encode(m)) == Some(Field(m, |Encode(m)|))
    ensures m.LocateSuccess? ==> ParseLocateSuccess(Encode(m)) == Some(Field(m, |Encode(m)|))
    ensures m.Execute? ==> ParseExecute(Encode(m)) == Some(Field(m, |Encode(m)|))
    ensures m.Register? ==> ParseRegister(Encode(m)) == Some(Field(m, |Encode(m)|))
  {
    RoundTrip(m);
    DecoderOf(Encode(m), m);
  }

  lemma DecoderOf(b: Bytes, m: Message)
    requires Parse(b) == Some(Field(m, |b|))
    ensures m.LocateRequest? ==> ParseLocateRequest(b) == Parse(b)
    ensures m.LocateSuccess? ==> ParseLocateSuccess(b) == Parse(b)
    ensures m.Execute? ==> ParseExecute(b) == Parse(b)
    ensures m.Register? ==> ParseRegister(b) == Parse(b)
  {
  }

  method CopyWordsOf(argTypes: seq<int>) returns (words: seq<int>)
    requires 0 in argTypes
    ensures words == Words(argTypes)
  {
    WordsArePrefix(argTypes);
    var numArgs := NumberOfArgs(argTypes);
    words := argTypes[..numArgs];
  }

  lemma LocatedIsQueued(db: Db, op: Op)
    requires op.Locating?
    ensures Step(db, op).1.Located? ==> exists e <- db.queue :: e.server.addr == Step(db, op).1.addr
  {
    if Step(db, op).1.Located? {
      var e := FirstProvider(db.queue, db.providers[op.sig]).value;
      assert e in db.queue && e.server.addr == Step(db, op).1.addr;
    }
  }

  /** The execute exchange with a server and the copy back into the caller's memory. */
  method Call(database: ServerDatabase, exchange: Exchange, name: Bytes, argTypes: seq<int>, args: array<Bytes>)
      returns (status: int)
    requires AllInPlace(database) && Callable(name, argTypes, args[..]) && Unexpected(exchange, EXECUTE_ANSWERS)
    modifies args
    ensures Effect(status, args[..]) == ServerEffect(database, exchange, name, Words(argTypes), old(args[..]))
  {
    ghost var words := Words(argTypes);
    ghost var payload := Payload(words, args[..]);
    ghost var outcome := Execution(database, name, words, payload);
    InPlaceMatches(database, name, words, payload);
    var response: Bytes := [];
    if Taken(exchange) {
      response := AskServer(database, name, argTypes, args);
    }
    match exchange
    case Lost(_) => status := SERVER_CONNECTION_ERROR;
    case Strange(_, buffer) => status := ReadOutcome(buffer, name, words, None, args);
    case Completed =>
      if outcome.Ran? {
        SameLength(name, words, payload, outcome.args);
      }
      status := ReadOutcome(response, name, words, Some(outcome), args);
  }

  method AskServer(database: ServerDatabase, name: Bytes, argTypes: seq<int>, args: array<Bytes>) returns (response: Bytes)
    requires AllInPlace(database) && Callable(name, argTypes, args[..])
    ensures var words := Words(argTypes);
      response == Encode(ReplyTo(name, words, Execution(database, name, words, Payload(words, args[..]))))
  {
    ghost var words := Words(argTypes);
    var message := new ExecuteMessage(name, argTypes, args[..]);
    var messageBuf := SerializeExecute(message);
    ParsedAs(Execute(name, words, Payload(words, args[..])));
    response := ServeRequest(database, messageBuf);
  }

  /** The bytes of a server's reply, short enough for their `int` length. */
  predicate IsReply(response: Bytes, name: Bytes, words: seq<int>, outcome: Outcome)
    requires SizedWords(words)
  {
    && response == Encode(ReplyTo(name, words, outcome))
    && (outcome.Ran? ==> MatchingArgs(words, outcome.args) && Size(Execute(name, words, outcome.args)) < INT_LIMIT)
  }

  /** Reads a server's reply and copies the results back. */
  method ReadOutcome(response: Bytes, ghost name: Bytes, ghost words: seq<int>, ghost outcome: Option<Outcome>, args: array<Bytes>)
      returns (status: int)
    requires Covers(words, args[..])
    requires match outcome
             case None => response == [] || response[0] !in EXECUTE_ANSWERS
             case Some(o) => IsReply(response, name, words, o)
    modifies args
    ensures Effect(status, args[..])
         == if outcome.Some? then Remote(words, old(args[..]), outcome.value) else Effect(UNEXPECTED_MESSAGE, old(args[..]))
  {
    if response != [] && response[0] == EXECUTE {
      ReadResults(response, Execute(name, words, outcome.value.args), args);
      return 0;
    }
    if response != [] && response[0] == StatusType(ExecuteFailure) {
      status := DeserializeStatus(response);
      return;
    }
    return UNEXPECTED_MESSAGE;
  }

  method ReadResults(response: Bytes, ghost m: Message, args: array<Bytes>)
    requires m.Execute? && WellFormed(m) && response == Encode(m) && Covers(m.words, args[..])
    modifies args
    ensures args[..] == CopiedBack(m.words, m.args, old(args[..]))
  {
    ParsedAs(m);
    var result := DeserializeExecute(response);
    CopyOutputArgumentsBack(result, args);
  }

  /** A reply is as long as its request. */
  lemma SameLength(name: Bytes, words: seq<int>, args: seq<Bytes>, after: seq<Bytes>)
    requires MatchingArgs(words, args) && MatchingArgs(words, after)
    ensures Size(Execute(name, words, args)) == Size(Execute(name, words, after))
  {
    TotalIsLength(args, |args|);
    TotalIsLength(after, |after|);
    ArgsSize(Widths(words), args, |args|);
    ArgsSize(Widths(words), after, |after|);
  }

  method RpcCall(binder: BinderDatabase?, withBinder: Exchange, servers: Servers, withServer: Exchange,
                 name: Bytes, argTypes: seq<int>, args: array<Bytes>)
      returns (status: int)
    requires Callable(name, argTypes, args[..])
    requires Unexpected(withBinder, LOCATE_ANSWERS) && Unexpected(withServer, EXECUTE_ANSWERS)
    requires forall a <- servers :: AllInPlace(servers[a])
    requires binder != null ==> Sendable(binder.serverQueue)
    modifies binder, args
    ensures binder == null ==> status == BINDER_CONNECTION_ERROR && args[..] == old(args[..])
    ensures binder != null ==>
      var words := Words(argTypes);
      var (after, reply) := Step(old(binder.State()), Locating(SignatureOf(name, words)));
      && binder.State() == (if Taken(withBinder) then after else old(binder.State()))
      && Sendable(binder.serverQueue)
      && Effect(status, args[..]) == CallEffect(withBinder, reply, servers, withServer, name, words, old(args[..]))
  {
    if binder == null {
      return BINDER_CONNECTION_ERROR;
    }
    ghost var op := Locating(SignatureOf(name, Words(argTypes)));
    assert Sendable(Step(binder.State(), op).0.queue) by {
      SendableStays(binder.State(), op);
    }
    var address;
    status, address := Locate(binder, withBinder, name, argTypes);
    if address == None {
      return;
    }
    if address.value !in servers {
      return SERVER_CONNECTION_ERROR;
    }
    status := Call(servers[address.value], withServer, name, argTypes, args);
  }

  // --------------------------------------------------- remote means local

  /** Calling the skeleton directly on the caller's memory: it writes the declared bytes of every argument. */
  ghost function Local(f: Skeleton, words: seq<int>, memory: seq<Bytes>): (e: Effect)
    requires InPlace(f) && Covers(words, memory)
    ensures |e.memory| == |memory|
  {
    var payload := Payload(words, memory);
    var (status, args) := f(words + [0], payload);
    assert SameShape(payload, f(words + [0], payload).1);
    Effect(status, seq(|memory|, i requires 0 <= i < |memory| =>
      if i < |words| then Overwritten(memory[i], args[i]) else memory[i]))
  }

  /** A remote call as good as a local one; bit 30 of a type word marks an output. For a status that fits a signed
      byte, and no other, both return it; on 0 the outputs are the local ones and everything else is untouched;
      otherwise nothing has changed. */
  predicate AsIfLocal(words: seq<int>, memory: seq<Bytes>, remote: Effect, local: Effect)
    requires |words| <= |memory| == |local.memory|
  {
    && (remote.status == local.status <==> -128 <= local.status <= 127)
    && |remote.memory| == |memory|
    && (local.status == 0 ==> forall i :: 0 <= i < |memory| ==>
          remote.memory[i] == if i < |words| && words[i] % 0x8000_0000 >= 0x4000_0000 then local.memory[i] else memory[i])
    && (local.status != 0 ==> remote.memory == memory)
  }

  /** A remote call to a server that holds the signature, against a local call of the same skeleton. */
  lemma RemoteMeansLocal(a: Addr, servers: Servers, name: Bytes, words: seq<int>, memory: seq<Bytes>)
    requires ValidWords(words) && Covers(words, memory) && forall s <- servers :: AllInPlace(servers[s])
    requires a in servers && SignatureOf(name, words) in servers[a]
    ensures AsIfLocal(words, memory,
                      CallEffect(Completed, Located(a), servers, Completed, name, words, memory),
                      Local(servers[a][SignatureOf(name, words)], words, memory))
  {
    var f := servers[a][SignatureOf(name, words)];
    var payload := Payload(words, memory);
    InPlaceMatches(servers[a], name, words, payload);
    StatusSurvives(f(words + [0], payload).0);
    forall i | 0 <= i < |words| ensures IsResult(words[i]) <==> words[i] % 0x8000_0000 >= 0x4000_0000 {
      assert ValidWord(words[i]);
      DirectionBits(words[i]);
    }
  }

  /** A local call runs the skeleton on the declared bytes, and leaves what it has written at their place. */
  lemma LocalBytes(f: Skeleton, words: seq<int>, memory: seq<Bytes>, i: nat, k: nat)
    requires InPlace(f) && Covers(words, memory) && i < |memory| && k < |memory[i]|
    ensures var (status, args) := f(words + [0], Payload(words, memory));
      var local := Local(f, words, memory);
      && |args| == |words| && local.status == status
      && |local.memory| == |memory| && |local.memory[i]| == |memory[i]|
      && (i < |words| ==> |args[i]| == ArgBytes(words[i]))
      && local.memory[i][k] == if i < |words| && k < ArgBytes(words[i]) then args[i][k] else memory[i][k]
  {
    var payload, local := Payload(words, memory), Local(f, words, memory);
    var args := f(words + [0], payload).1;
    assert SameShape(payload, args);
    assert local.memory[i] == if i < |words| then Overwritten(memory[i], args[i]) else memory[i];
  }

  /** The statuses of rpcCall, case by case. Success means that both exchanges were completed, that the binder located a
      server which could be reached and knew the procedure, and that the skeleton's status was a multiple of 256. */
  lemma CallStatus(withBinder: Exchange, reply: Reply, servers: Servers, withServer: Exchange,
                   name: Bytes, words: seq<int>, memory: seq<Bytes>)
    requires ValidWords(words) && Covers(words, memory) && forall s <- servers :: AllInPlace(servers[s])
    ensures var status := CallEffect(withBinder, reply, servers, withServer, name, words, memory).status;
      var sig := SignatureOf(name, words);
      && (withBinder.Lost? ==> status == -1002)
      && (withBinder.Strange? ==> status == -1003)
      && (withBinder.Completed? && !reply.Located? ==> status == -1005)
      && (withBinder.Completed? && reply.Located? && (reply.addr !in servers || withServer.Lost?) ==> status == -1004)
      && (withBinder.Completed? && reply.Located? && reply.addr in servers && withServer.Strange? ==> status == -1003)
      && (withBinder.Completed? && reply.Located? && reply.addr in servers && withServer.Completed? ==>
            if sig !in servers[reply.addr] then status == 21
            else
              var returned := servers[reply.addr][sig](words + [0], Payload(words, memory)).0;
              -128 <= status <= 127 && (returned - status) % 256 == 0)
    ensures CallEffect(withBinder, reply, servers, withServer, name, words, memory).status == 0 <==>
      && withBinder.Completed? && withServer.Completed?
      && reply.Located? && reply.addr in servers
      && SignatureOf(name, words) in servers[reply.addr]
      && servers[reply.addr][SignatureOf(name, words)](words + [0], Payload(words, memory)).0 % 256 == 0
  {
    WideStatusesAreLost();
    if reply.Located? && reply.addr in servers && SignatureOf(name, words) in servers[reply.addr] {
      StatusSurvives(servers[reply.addr][SignatureOf(name, words)](words + [0], Payload(words, memory)).0);
      InPlaceMatches(servers[reply.addr], name, words, Payload(words, memory));
    }
  }

  /** A skeleton that runs is reported as successful exactly when its status is a multiple of 256; and when it is
      one other than 0, no output is delivered with that. */
  lemma FailureReportedAsSuccess(words: seq<int>, memory: seq<Bytes>, status: int, args: seq<Bytes>)
    requires Covers(words, memory) && MatchingArgs(words, args)
    ensures Remote(words, memory, Ran(status, args)).status == 0 <==> status % 256 == 0
    ensures status != 0 ==> Remote(words, memory, Ran(status, args)).memory == memory
  {
    StatusSurvives(status);
  }
}
