/** Registering procedures with the binder and in the server's own dispatch table (rpc.cc). */
module ServerProcesses {
  import opened Wire
  import opened Args
  import opened Signatures
  import opened BinderDb
  import opened Messages
  import opened Serializers
  import opened BinderDatabases
  import opened Rpc

  class ServerProcess {
    const address: Option<Addr> // None when the server socket could not be created
    const socket: Handle        // the binder's end of the connection
    var database: ServerDatabase

    constructor (address: Option<Addr>, socket: Handle)
      ensures this.address == address && this.socket == socket && database == map[]
    {
      this.address, this.socket, database := address, socket, map[];
    }

    ghost predicate Listed(db: Db, sig: Signature) {
      address.Some? && address.value in ProvidersOf(db, sig)
    }

    /** Whoever is sent to this server for the signature finds the procedure. */
    ghost predicate Serves(db: Db, sig: Signature)
      reads `database
    {
      Listed(db, sig) ==> sig in database
    }

    /** The procedure enters the dispatch table exactly when the binder's answer arrives. With an answer lost,
        the listing can outlive the knowledge: the last clause says when it does not. */
    method RpcRegister(binder: BinderDatabase?, exchange: Exchange, name: Bytes, argTypes: seq<int>, f: Skeleton)
        returns (status: int)
      requires 0 in argTypes && ValidWords(Words(argTypes)) && Unexpected(exchange, {StatusType(RegisterSuccess)})
      requires exchange.Strange? && exchange.buffer != [] && exchange.buffer[0] == StatusType(RegisterFailure) ==> |exchange.buffer| >= 2
      requires address.Some? ==> WellFormed(Register(address.value.host, address.value.port, name, Words(argTypes)))
      modifies `database, binder
      ensures address.None? ==> status == -1001 && database == old(database)
      ensures address.Some? && binder == null ==> status == -1002 && database == old(database)
      ensures binder != null && address.None? ==> binder.State() == old(binder.State())
      ensures binder != null && address.Some? ==>
        var sig := SignatureOf(name, Words(argTypes));
        && binder.State() == (if Taken(exchange)
                              then Step(old(binder.State()), Registering(sig, Server(address.value, socket))).0
                              else old(binder.State()))
        && database == (if exchange.Completed? then old(database)[sig := f] else old(database))
      ensures binder != null && address.Some? ==>
        && (exchange.Completed? ==> status == 0)
        && (exchange.Lost? ==> status == -1002)
        && (exchange.Strange? ==>
              if exchange.buffer != [] && exchange.buffer[0] == 2
              then -128 <= status <= 127 && (exchange.buffer[1] - status) % 256 == 0
              else status == -1003)
      ensures binder != null && address.Some? ==>
        var sig := SignatureOf(name, Words(argTypes));
        Serves(binder.State(), sig) <==>
          || exchange.Completed?
          || sig in old(database)
          || (!Taken(exchange) && !Listed(old(binder.State()), sig))
    {
      if address == None {
        return SERVER_SOCKET_CREATION_ERROR;
      }
      if binder == null {
        return BINDER_CONNECTION_ERROR;
      }
      var response: Bytes := [];
      if Taken(exchange) {
        var words := CopyWordsOf(argTypes);
        var message := Register(address.value.host, address.value.port, name, words);
        AnsweredWithSuccess(binder.State(), RegisterOp(message, socket));
        response := AskToRegister(binder, message);
      }
      match exchange {
        case Lost(_) => return BINDER_CONNECTION_ERROR;
        case Strange(_, buffer) => response := buffer;
        case Completed =>
      }
      if response != [] && response[0] == StatusType(RegisterSuccess) {
        // A warning counts as success.
        var signature := SignatureOfArgTypes(name, argTypes);
        database := database[signature := f];
        return 0;
      }
      if response != [] && response[0] == StatusType(RegisterFailure) {
        status := DeserializeStatus(response);
        return;
      }
      return UNEXPECTED_MESSAGE;
    }

    /** The request and its answer travel as bytes. */
    method AskToRegister(binder: BinderDatabase, message: Message) returns (response: Bytes)
      requires message.Register? && WellFormed(message) && ValidWords(message.words)
      modifies binder
      ensures binder.State() == Step(old(binder.State()), RegisterOp(message, socket)).0
      ensures response == Encode(ReplyMessage(Step(old(binder.State()), RegisterOp(message, socket)).1))
    {
      var buffer := SerializeRegister(message);
      ParsedAs(message);
      var request := DeserializeRegister(buffer);
      response := binder.HandleRegister(request, socket);
    }
  }

  /** The binder answers every registration with success: 0, or the warning 1 if it knows the server for the signature. */
  lemma AnsweredWithSuccess(db: Db, op: Op)
    requires op.Registering?
    ensures Encode(ReplyMessage(Step(db, op).1)) == [1, if op.server.addr in ProvidersOf(db, op.sig) then 1 else 0]
  {
    var status := BinderDb.Register(db, op.sig, op.server).1;
    assert Encode(ReplyMessage(Step(db, op).1)) == [StatusType(RegisterSuccess), StatusByte(status)];
  }

  /** A first registration whose answer is lost: the call reports a failure, clients are sent to the server
      nevertheless, and the server does not know the procedure. */
  method LostReplyLeavesUnknown(a: Addr, socket: Handle, name: Bytes, argTypes: seq<int>, args: seq<Bytes>, f: Skeleton)
      returns (binder: BinderDatabase, server: ServerProcess, status: int)
    requires 0 in argTypes && ValidWords(Words(argTypes))
    requires WellFormed(Register(a.host, a.port, name, Words(argTypes)))
    ensures status == BINDER_CONNECTION_ERROR
    ensures Step(binder.State(), Locating(SignatureOf(name, Words(argTypes)))).1 == Located(a)
    ensures Execution(server.database, name, Words(argTypes), args) == Unknown
  {
    binder := new BinderDatabase();
    server := new ServerProcess(Some(a), socket);
    status := server.RpcRegister(binder, Lost(true), name, argTypes, f);
    LocatedAfterFirst(SignatureOf(name, Words(argTypes)), Server(a, socket));
  }

  lemma LocatedAfterFirst(sig: Signature, server: Server)
    ensures Step(Step(EMPTY, Registering(sig, server)).0, Locating(sig)).1 == Located(server.addr)
  {
    var listed := Step(EMPTY, Registering(sig, server)).0;
    assert listed.queue == [Entry(1, server)];
    assert ProvidersOf(listed, sig) == map[server.addr := server.socket];
  }
}
