/** The binder's database as the object the code updates in place (binder.cc). */
module BinderDatabases {
  import opened Wire
  import opened Args
  import opened Signatures
  import opened BinderDb
  import opened Messages
  import opened Serializers

  /** What a server's socket gives back when it is sent a terminate request. */
  datatype Answer = Answered(buffer: Bytes) | Broken

  predicate Agrees(answer: Answer) {
    answer.Answered? && answer.buffer != [] && answer.buffer[0] == StatusType(TerminateSuccess)
  }

  /** The failure message for a server that did not agree. */
  function Complaint(answer: Answer): Bytes {
    Encode(Status(TerminateFailure, if answer.Broken? then SERVER_CONNECTION_ERROR else UNEXPECTED_MESSAGE))
  }

  ghost predicate AnswersFor(stamps: map<Addr, Stamp>, answer: (Addr, Handle) --> Answer) {
    forall a <- stamps :: answer.requires(a, stamps[a].socket)
  }

  ghost function AnswerOf(stamps: map<Addr, Stamp>, answer: (Addr, Handle) --> Answer, a: Addr): Answer
    requires a in stamps && AnswersFor(stamps, answer)
  {
    answer(a, stamps[a].socket)
  }

  /** No server behind a, in the order of the table, failed to agree, and a did. */
  ghost predicate IsLastObjector(stamps: map<Addr, Stamp>, answer: (Addr, Handle) --> Answer, a: Addr)
    requires AnswersFor(stamps, answer)
  {
    && a in stamps && !Agrees(AnswerOf(stamps, answer, a))
    && forall b <- stamps :: AddrBefore(a, b) ==> Agrees(AnswerOf(stamps, answer, b))
  }

  /** What the binder tells the client that asked it to terminate: success if all servers agreed, and otherwise
      the complaint about the last one that did not. */
  ghost predicate IsVerdict(stamps: map<Addr, Stamp>, answer: (Addr, Handle) --> Answer, response: Bytes)
    requires AnswersFor(stamps, answer)
  {
    if forall a <- stamps :: Agrees(AnswerOf(stamps, answer, a)) then response == Encode(Status(TerminateSuccess, 0))
    else exists a :: IsLastObjector(stamps, answer, a) && response == Complaint(AnswerOf(stamps, answer, a))
  }

  /** The verdict is success exactly when every server in the table agreed. */
  lemma SuccessMeansAllAgreed(stamps: map<Addr, Stamp>, answer: (Addr, Handle) --> Answer, response: Bytes)
    requires AnswersFor(stamps, answer) && IsVerdict(stamps, answer, response)
    ensures response == Encode(Status(TerminateSuccess, 0)) <==> forall a <- stamps :: Agrees(AnswerOf(stamps, answer, a))
  {
    assert forall given: Answer :: Complaint(given)[0] == StatusType(TerminateFailure);
  }

  /** The address a Register message announces. */
  function AddressOf(message: Message): Addr
    requires message.Register?
  {
    Addr(message.host, message.port)
  }

  function RegisterOp(message: Message, socket: Handle): Op
    requires message.Register? && ValidWords(message.words)
  {
    Registering(SignatureOf(message.name, message.words), Server(AddressOf(message), socket))
  }

  function LocateOp(message: Message): Op
    requires message.LocateRequest? && ValidWords(message.words)
  {
    Locating(SignatureOf(message.name, message.words))
  }

  /** The message that carries a reply. */
  function ReplyMessage(reply: Reply): Message
    requires !reply.Removed?
  {
    match reply
    case Registered(status) => Status(RegisterSuccess, status)
    case Located(a) => LocateSuccess(a.host, a.port)
    case NotLocated => Status(LocateFailure, 1)
  }

  class BinderDatabase {
    var time_: nat
    var serverQueue: seq<Entry>
    var serverToTimestamp: map<Addr, Stamp>
    var signatureToServers: map<Signature, map<Addr, Handle>>

    ghost function State(): Db
      reads this
    {
      Db(time_, serverQueue, serverToTimestamp, signatureToServers)
    }

    constructor ()
      ensures State() == EMPTY
    {
      time_, serverQueue, serverToTimestamp, signatureToServers := 1, [], map[], map[];
    }

    /** server_to_timestamp[server] = time_, then a queue entry with the same stamp. */
    method StampNow(server: Server)
      modifies this
      ensures serverToTimestamp == SetStamp(old(serverToTimestamp), server, old(time_))
      ensures serverQueue == Insert(old(serverQueue), Entry(old(time_), server))
      ensures time_ == Tick(old(time_)) && signatureToServers == old(signatureToServers)
    {
      var stored := if server.addr in serverToTimestamp then serverToTimestamp[server.addr].socket else server.socket;
      serverToTimestamp := serverToTimestamp[server.addr := Stamp(stored, time_)];
      serverQueue := Insert(serverQueue, Entry(time_, server));
      time_ := (time_ + 1) % TIME_LIMIT;
    }

    method HandleRegister(message: Message, serverSocket: Handle) returns (response: Bytes)
      requires message.Register? && ValidWords(message.words)
      modifies this
      ensures State() == Step(old(State()), RegisterOp(message, serverSocket)).0
      ensures response == Encode(ReplyMessage(Step(old(State()), RegisterOp(message, serverSocket)).1))
    {
      PlainWhenSized(message.words);
      var signature := SignatureOfArgTypes(message.name, message.words + [0]);
      var server := Server(Addr(message.host, message.port), serverSocket);
      var status := AddProvider(signature, server);
      response := SerializeStatus(RegisterSuccess, status);
    }

    method AddProvider(signature: Signature, server: Server) returns (status: int)
      modifies this
      ensures State() == BinderDb.Register(old(State()), signature, server).0
      ensures status == BinderDb.Register(old(State()), signature, server).1
    {
      if signature !in signatureToServers {
        // operator[] creates the entry before it is looked at.
        signatureToServers := signatureToServers[signature := map[]];
      }
      var servers := signatureToServers[signature];
      assert servers == ProvidersOf(old(State()), signature);
      if server.addr in servers {
        return 1;
      }
      signatureToServers := signatureToServers[signature := servers[server.addr := server.socket]];

      var timestamp := if server.addr in serverToTimestamp then serverToTimestamp[server.addr].time else 0;
      if timestamp > 0 {
        serverQueue := EraseKey(serverQueue, timestamp, server.addr);
      }
      StampNow(server);
      status := 0;
    }

    method HandleLocate(message: Message) returns (response: Bytes)
      requires message.LocateRequest? && ValidWords(message.words)
      modifies this
      ensures State() == Step(old(State()), LocateOp(message)).0
      ensures response == Encode(ReplyMessage(Step(old(State()), LocateOp(message)).1))
    {
      PlainWhenSized(message.words);
      var signature := SignatureOfArgTypes(message.name, message.words + [0]);
      var located := TakeProvider(signature);
      match located {
        case None => response := SerializeStatus(LocateFailure, 1);
        case Some(addr) => response := SerializeLocateSuccess(addr.host, addr.port);
      }
    }

    method TakeProvider(signature: Signature) returns (located: Option<Addr>)
      modifies this
      ensures State() == BinderDb.Locate(old(State()), signature).0
      ensures located == BinderDb.Locate(old(State()), signature).1
    {
      if signature in signatureToServers && signatureToServers[signature] == map[] {
        signatureToServers := signatureToServers - {signature};
      }
      if signature !in signatureToServers {
        assert signatureToServers == old(signatureToServers) - {signature};
        return None;
      }

      var servers := signatureToServers[signature];
      var i := 0;
      while i < |serverQueue| && serverQueue[i].server.addr !in servers
        invariant i <= |serverQueue|
        invariant FirstProvider(serverQueue, servers) == FirstProvider(serverQueue[i..], servers)
      {
        i := i + 1;
      }
      if i == |serverQueue| {
        return None;
      }
      var p := serverQueue[i];
      assert FirstProvider(serverQueue, servers) == Some(p);
      serverQueue := EraseKey(serverQueue, p.time, p.server.addr);
      StampNow(p.server);
      located := Some(p.server.addr);
    }

    /** Asks every known server to terminate through the socket stored with its timestamp, in the order of the table.
        `answer` only needs to be defined on those sockets. */
    method HandleTerminate(answer: (Addr, Handle) --> Answer) returns (response: Bytes)
      requires AnswersFor(serverToTimestamp, answer)
      ensures IsVerdict(serverToTimestamp, answer, response)
    {
      var hadError := false;
      var errorMessage: Bytes := [];
      ghost var objector: Option<Addr> := None;
      var todo := serverToTimestamp.Keys;
      ghost var asked: set<Addr> := {};
      while todo != {}
        invariant asked + todo == serverToTimestamp.Keys && asked !! todo
        invariant forall a, b :: a in asked && b in todo ==> AddrBefore(a, b)
        invariant objector.None? ==> forall a <- asked :: Agrees(AnswerOf(serverToTimestamp, answer, a))
        invariant hadError <==> objector.Some?
        invariant hadError ==>
          && objector.value in asked
          && !Agrees(AnswerOf(serverToTimestamp, answer, objector.value))
          && errorMessage == Complaint(AnswerOf(serverToTimestamp, answer, objector.value))
          && forall b <- asked :: AddrBefore(objector.value, b) ==> Agrees(AnswerOf(serverToTimestamp, answer, b))
        decreases todo
      {
        ghost var first := FirstExists(todo);
        var a :| a in todo && forall b <- todo :: a == b || AddrBefore(a, b);
        forall b <- asked ensures !AddrBefore(a, b) {
          NotBothBefore(a, b);
        }
        NotBothBefore(a, a);
        match answer(a, serverToTimestamp[a].socket) {
          case Answered(buffer) =>
            if buffer == [] || buffer[0] != StatusType(TerminateSuccess) {
              hadError, objector := true, Some(a);
              errorMessage := SerializeStatus(TerminateFailure, UNEXPECTED_MESSAGE);
            }
          case Broken =>
            hadError, objector := true, Some(a);
            errorMessage := SerializeStatus(TerminateFailure, SERVER_CONNECTION_ERROR);
        }
        todo, asked := todo - {a}, asked + {a};
      }
      if hadError {
        assert IsLastObjector(serverToTimestamp, answer, objector.value);
        response := errorMessage;
      } else {
        response := SerializeStatus(TerminateSuccess, 0);
      }
    }

    method RemoveIfServer(socket: Handle)
      modifies this
      ensures State() == Remove(old(State()), socket)
    {
      RemoveFromQueue(socket);
      RemoveFromTimestamps(socket);
      RemoveFromSignatures(socket);
    }

    /** Erase while iterating over the queue. */
    method RemoveFromQueue(socket: Handle)
      modifies this`serverQueue
      ensures serverQueue == DropFromQueue(old(serverQueue), socket)
    {
      var i := 0;
      while i < |serverQueue|
        invariant i <= |serverQueue|
        invariant DropFromQueue(old(serverQueue), socket) == serverQueue[..i] + DropFromQueue(serverQueue[i..], socket)
        decreases |serverQueue| - i
      {
        ghost var rest := serverQueue[i..];
        if serverQueue[i].server.socket == socket {
          assert rest[1..] == serverQueue[i + 1..];
          serverQueue := serverQueue[..i] + serverQueue[i + 1..];
          assert serverQueue[i..] == rest[1..];
        } else {
          assert serverQueue[..i + 1] == serverQueue[..i] + [rest[0]] && serverQueue[i + 1..] == rest[1..];
          i := i + 1;
        }
      }
    }

    method RemoveFromTimestamps(socket: Handle)
      modifies this`serverToTimestamp
      ensures serverToTimestamp == DropStamps(old(serverToTimestamp), socket)
    {
      ghost var before := serverToTimestamp;
      var todo := serverToTimestamp.Keys;
      while todo != {}
        invariant todo <= serverToTimestamp.Keys
        invariant serverToTimestamp == map a | a in before && (a in todo || before[a].socket != socket) :: before[a]
        decreases todo
      {
        var a :| a in todo;
        if serverToTimestamp[a].socket == socket {
          serverToTimestamp := serverToTimestamp - {a};
        }
        todo := todo - {a};
      }
    }

    method RemoveFromSignatures(socket: Handle)
      modifies this`signatureToServers
      ensures signatureToServers == DropProviders(old(signatureToServers), socket)
    {
      ghost var before := signatureToServers;
      var todo := signatureToServers.Keys;
      while todo != {}
        invariant todo <= before.Keys && signatureToServers.Keys == before.Keys
        invariant forall sig <- before ::
          signatureToServers[sig] == if sig in todo then before[sig] else DropServers(before[sig], socket)
        decreases todo
      {
        var sig :| sig in todo;
        var servers := RemoveFromSet(signatureToServers[sig], socket);
        signatureToServers := signatureToServers[sig := servers];
        todo := todo - {sig};
      }
    }

    static method RemoveFromSet(before: map<Addr, Handle>, socket: Handle) returns (servers: map<Addr, Handle>)
      ensures servers == DropServers(before, socket)
    {
      servers := before;
      var todo := servers.Keys;
      while todo != {}
        invariant todo <= servers.Keys
        invariant servers == map a | a in before && (a in todo || before[a] != socket) :: before[a]
        decreases todo
      {
        var a :| a in todo;
        if servers[a] == socket {
          servers := servers - {a};
        }
        todo := todo - {a};
      }
    }
  }
}
