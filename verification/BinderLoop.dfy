/** The binder's main loop: it never keeps a socket that the connection table has dropped (binder.cc). */
module BinderLoop {
  import opened Wire
  import opened Args
  import opened Signatures
  import opened BinderDb
  import opened Messages
  import opened Serializers
  import opened BinderDatabases
  import opened TcpServers

  // ------------------------------------------------- sockets in the indexes

  /** Every socket stored in one of the three indexes. */
  function Sockets(db: Db): set<Handle> {
    (set e <- db.queue :: e.server.socket)
    + (set a <- db.stamps :: db.stamps[a].socket)
    + (set sig, a | sig in db.providers && a in db.providers[sig] :: db.providers[sig][a])
  }

  /** A request brings in no socket but the registering server's, whatever state the indexes are in. */
  lemma SocketsAfterRequest(db: Db, op: Op)
    requires !op.Removing?
    ensures Sockets(Step(db, op).0) <= Sockets(db) + if op.Registering? then {op.server.socket} else {}
  {
    var d := Step(db, op).0;
    match op
    case Registering(sig, s) =>
      if s.addr !in ProvidersOf(db, sig) {
        var time := if s.addr in db.stamps then db.stamps[s.addr].time else 0;
        EraseEntries(db.queue, time, s.addr);
        InsertEntries(EraseKey(db.queue, time, s.addr), Entry(db.time, s));
        InsertEntries(db.queue, Entry(db.time, s));
        RegisteredProviders(db, sig, s);
      }
    case Locating(sig) =>
      if Locate(db, sig).1.Some? {
        var e := FirstProvider(db.queue, db.providers[sig]).value;
        EraseEntries(db.queue, e.time, e.server.addr);
        InsertEntries(EraseKey(db.queue, e.time, e.server.addr), Entry(db.time, e.server));
      }
  }

  lemma RegisteredProviders(db: Db, sig: Signature, s: Server)
    ensures var after := db.providers[sig := ProvidersOf(db, sig)[s.addr := s.socket]];
      forall f, a :: f in after && a in after[f] ==> after[f][a] == s.socket || after[f][a] in Sockets(db)
  {
  }

  lemma StampSockets(db: Db)
    ensures forall a <- db.stamps :: db.stamps[a].socket in Sockets(db)
  {
  }

  /** Removing a socket removes it from all three indexes and adds none. */
  lemma SocketsAfterRemove(db: Db, h: Handle)
    ensures Sockets(Remove(db, h)) <= Sockets(db) - {h}
  {
    DropEntries(db.queue, h);
  }

  // ------------------------------------------------------- runs of the loop

  /** What a turn of the loop does: a connection accepted, a peer found closed, a request served
      for a connected peer, and a reply that could not be delivered. */
  datatype Event =
    | Accepted(socket: Handle)
    | Closed(socket: Handle)
    | Requested(socket: Handle, op: Op)
    | Undeliverable(socket: Handle)

  datatype LoopState = LoopState(live: set<Handle>, db: Db)

  /** Events that the loop can meet: only live sockets are polled, and registrations carry the polled socket. */
  predicate Possible(s: LoopState, e: Event) {
    match e
    case Accepted(h) => h !in s.live
    case Closed(h) => h in s.live
    case Requested(h, op) => h in s.live && !op.Removing? && (op.Registering? ==> op.server.socket == h)
    case Undeliverable(h) => h in s.live
  }

  function Turn(s: LoopState, e: Event): LoopState {
    match e
    case Accepted(h) => s.(live := s.live + {h})
    case Closed(h) => LoopState(s.live - {h}, Remove(s.db, h))
    case Requested(_, op) => s.(db := Step(s.db, op).0)
    case Undeliverable(h) => s.(db := Remove(s.db, h))
  }

  function Turns(s: LoopState, events: seq<Event>): LoopState
    decreases |events|
  {
    if events == [] then s else Turns(Turn(s, events[0]), events[1..])
  }

  predicate PossibleRun(s: LoopState, events: seq<Event>)
    decreases |events|
  {
    events != [] ==> Possible(s, events[0]) && PossibleRun(Turn(s, events[0]), events[1..])
  }

  predicate NoDangling(s: LoopState) {
    Sockets(s.db) <= s.live
  }

  lemma TurnKeepsNoDangling(s: LoopState, e: Event)
    requires NoDangling(s) && Possible(s, e)
    ensures NoDangling(Turn(s, e))
  {
    match e
    case Accepted(_) =>
    case Requested(_, op) => SocketsAfterRequest(s.db, op);
    case Closed(h) => SocketsAfterRemove(s.db, h);
    case Undeliverable(h) => SocketsAfterRemove(s.db, h);
  }

  /** In every state of every run, all three indexes only name live sockets. In particular a socket that has
      just been accepted is in none of them, even if it reuses the address of a deleted one. */
  lemma {:induction false} NeverDangling(s: LoopState, events: seq<Event>)
    requires NoDangling(s) && PossibleRun(s, events)
    ensures NoDangling(Turns(s, events))
    decreases |events|
  {
    if events != [] {
      TurnKeepsNoDangling(s, events[0]);
      NeverDangling(Turn(s, events[0]), events[1..]);
    }
  }

  // ---------------------------------------------------------- the main loop

  datatype Incoming = Received(buffer: Bytes) | PeerClosed | RecvFailed

  datatype Outgoing = Delivered | SendClosed | SendFailed

  /** A buffer the loop ignores, or a request its decoders take for granted to be valid. */
  predicate Acceptable(buffer: Bytes) {
    buffer == [] ||
    (if buffer[0] == REGISTER then
       ParseRegister(buffer).Some? && ValidWords(ParseRegister(buffer).value.value.words)
     else if buffer[0] == LOCATE_REQUEST then
       ParseLocateRequest(buffer).Some? && ValidWords(ParseLocateRequest(buffer).value.value.words)
     else true)
  }

  /** The database operation a request asks for. */
  function OpOf(socket: Handle, buffer: Bytes): Option<Op>
    requires Acceptable(buffer)
  {
    if buffer == [] then None
    else if buffer[0] == REGISTER then Some(RegisterOp(ParseRegister(buffer).value.value, socket))
    else if buffer[0] == LOCATE_REQUEST then Some(LocateOp(ParseLocateRequest(buffer).value.value))
    else None
  }

  /** The loop answers the three requests and ignores everything else. */
  predicate IsRequest(buffer: Bytes) {
    buffer != [] && buffer[0] in {REGISTER, LOCATE_REQUEST, StatusType(Terminate)}
  }

  /** The events behind one client's turn in the loop. */
  function EventsOf(socket: Handle, incoming: Incoming, outgoing: Outgoing): seq<Event>
    requires incoming.Received? ==> Acceptable(incoming.buffer)
  {
    match incoming
    case PeerClosed => [Closed(socket)]
    case RecvFailed => []
    case Received(buffer) =>
      var op := OpOf(socket, buffer);
      (if op.Some? then [Requested(socket, op.value)] else [])
      + (if IsRequest(buffer) && outgoing.SendClosed? then [Undeliverable(socket)] else [])
  }

  function Served(db: Db, socket: Handle, buffer: Bytes): Db
    requires Acceptable(buffer)
  {
    match OpOf(socket, buffer)
    case Some(op) => Step(db, op).0
    case None => db
  }

  /** The response to a request: the encoded reply of the database, or the verdict of its servers. */
  ghost predicate IsReply(db: Db, socket: Handle, buffer: Bytes, answer: (Addr, Handle) --> Answer, response: Option<Bytes>)
    requires Acceptable(buffer) && AnswersFor(db.stamps, answer)
  {
    match OpOf(socket, buffer)
    case Some(op) => response == Some(Encode(ReplyMessage(Step(db, op).1)))
    case None =>
      if IsRequest(buffer) then response.Some? && IsVerdict(db.stamps, answer, response.value) else response == None
  }

  /** A reply only depends on the answers of the servers that are known. */
  lemma SameAnswers(db: Db, socket: Handle, buffer: Bytes, f: (Addr, Handle) --> Answer, g: (Addr, Handle) -> Answer,
                    response: Option<Bytes>)
    requires Acceptable(buffer) && AnswersFor(db.stamps, f) && IsReply(db, socket, buffer, f, response)
    requires forall a <- db.stamps :: f(a, db.stamps[a].socket) == g(a, db.stamps[a].socket)
    ensures AnswersFor(db.stamps, g) && IsReply(db, socket, buffer, g, response)
  {
    if OpOf(socket, buffer).None? && IsRequest(buffer) {
      SameVerdict(db.stamps, f, g, response.value);
    }
  }

  lemma SameVerdict(stamps: map<Addr, Stamp>, f: (Addr, Handle) --> Answer, g: (Addr, Handle) -> Answer, response: Bytes)
    requires AnswersFor(stamps, f) && IsVerdict(stamps, f, response)
    requires forall a <- stamps :: f(a, stamps[a].socket) == g(a, stamps[a].socket)
    ensures AnswersFor(stamps, g) && IsVerdict(stamps, g, response)
  {
    forall a <- stamps ensures AnswerOf(stamps, f, a) == AnswerOf(stamps, g, a) {
    }
    if !forall a <- stamps :: Agrees(AnswerOf(stamps, f, a)) {
      var a :| IsLastObjector(stamps, f, a) && response == Complaint(AnswerOf(stamps, f, a));
      assert IsLastObjector(stamps, g, a);
    }
  }

  lemma LiveAnswers(s: LoopState, answer: (Addr, Handle) --> Answer)
    requires NoDangling(s) && forall a: Addr, h <- s.live :: answer.requires(a, h)
    ensures AnswersFor(s.db.stamps, answer)
  {
    StampSockets(s.db);
  }

  lemma ReplyOnRequest(db: Db, socket: Handle, buffer: Bytes, answer: (Addr, Handle) --> Answer, response: Option<Bytes>)
    requires Acceptable(buffer) && AnswersFor(db.stamps, answer) && IsReply(db, socket, buffer, answer, response)
    ensures response.Some? <==> IsRequest(buffer)
  {
  }

  lemma TurnsOne(s: LoopState, e: Event)
    ensures Turns(s, [e]) == Turn(s, e)
    ensures PossibleRun(s, [e]) <==> Possible(s, e)
  {
    assert [e][1..] == [];
  }

  lemma TurnsTwo(s: LoopState, e: Event, f: Event)
    ensures Turns(s, [e, f]) == Turn(Turn(s, e), f)
    ensures PossibleRun(s, [e, f]) <==> Possible(s, e) && Possible(Turn(s, e), f)
  {
    assert [e, f][1..] == [f];
    TurnsOne(Turn(s, e), f);
  }

  /** The events of one client can happen, and this is what they leave behind. */
  lemma ClientTurns(s: LoopState, socket: Handle, incoming: Incoming, outgoing: Outgoing)
    requires NoDangling(s) && socket in s.live
    requires incoming.Received? ==> Acceptable(incoming.buffer)
    ensures var after := Turns(s, EventsOf(socket, incoming, outgoing));
      && NoDangling(after)
      && PossibleRun(s, EventsOf(socket, incoming, outgoing))
      && after == match incoming
                  case PeerClosed => LoopState(s.live - {socket}, Remove(s.db, socket))
                  case RecvFailed => s
                  case Received(buffer) =>
                    var d := Served(s.db, socket, buffer);
                    s.(db := if IsRequest(buffer) && outgoing.SendClosed? then Remove(d, socket) else d)
  {
    var events := EventsOf(socket, incoming, outgoing);
    if incoming.PeerClosed? {
      TurnsOne(s, Closed(socket));
    } else if incoming.Received? && incoming.buffer != [] {
      var op, lost := OpOf(socket, incoming.buffer), IsRequest(incoming.buffer) && outgoing.SendClosed?;
      if op.Some? && lost {
        TurnsTwo(s, Requested(socket, op.value), Undeliverable(socket));
        assert events == [Requested(socket, op.value), Undeliverable(socket)];
      } else if op.Some? {
        TurnsOne(s, Requested(socket, op.value));
        assert events == [Requested(socket, op.value)];
      } else if lost {
        TurnsOne(s, Undeliverable(socket));
        assert events == [Undeliverable(socket)];
      }
    }
    NeverDangling(s, events);
  }

  predicate IsTerminate(incoming: Incoming) {
    incoming.Received? && incoming.buffer != [] && incoming.buffer[0] == StatusType(Terminate)
  }

  /** What select, accept and the peers do in one round of the loop. */
  datatype Round = Round(
    listenerReady: bool,
    accepted: Option<TcpSocket>,
    ready: set<int>,
    incoming: int -> Incoming,
    outgoing: int -> Outgoing,
    answer: (Addr, Handle) -> Answer)

  /** Peers send messages that the decoders take for granted to be valid. */
  ghost predicate WellBehaved(round: Round) {
    forall fd :: round.incoming(fd).Received? ==> Acceptable(round.incoming(fd).buffer)
  }

  /** None of the first n clients asks to terminate. */
  predicate NoneAsks(clients: seq<TcpSocket>, n: nat, round: Round)
    requires n <= |clients|
  {
    n == 0 || (NoneAsks(clients, n - 1, round) && !IsTerminate(round.incoming(clients[n - 1].fd)))
  }

  /** How many clients are served: all, or those up to the first terminate request; counted from i. */
  function ServedFrom(clients: seq<TcpSocket>, i: nat, round: Round): (n: nat)
    requires i <= |clients|
    ensures i <= n <= |clients|
    decreases |clients| - i
  {
    if i == |clients| then i
    else if IsTerminate(round.incoming(clients[i].fd)) then i + 1
    else ServedFrom(clients, i + 1, round)
  }

  function ServedCount(clients: seq<TcpSocket>, round: Round): (n: nat)
    ensures n <= |clients|
  {
    ServedFrom(clients, 0, round)
  }

  /** The last client served is one that asks to terminate. */
  predicate Halts(clients: seq<TcpSocket>, round: Round) {
    var n := ServedCount(clients, round);
    n > 0 && IsTerminate(round.incoming(clients[n - 1].fd))
  }

  lemma {:induction false} NobodySkipped(clients: seq<TcpSocket>, i: nat, round: Round)
    requires i <= |clients| && NoneAsks(clients, i, round)
    ensures ServedCount(clients, round) == ServedFrom(clients, i, round)
  {
    if i > 0 {
      NobodySkipped(clients, i - 1, round);
    }
  }

  /** Where the clients of a round have been served up to i, and the loop goes on or not. */
  predicate ServedTo(clients: seq<TcpSocket>, i: nat, round: Round, running: bool)
    requires i <= |clients|
  {
    if running then NoneAsks(clients, i, round)
    else i > 0 && NoneAsks(clients, i - 1, round) && IsTerminate(round.incoming(clients[i - 1].fd))
  }

  lemma ServedToEnd(clients: seq<TcpSocket>, i: nat, round: Round, running: bool)
    requires i <= |clients| && ServedTo(clients, i, round, running) && (running ==> i == |clients|)
    ensures i == ServedCount(clients, round)
    ensures running <==> !Halts(clients, round)
  {
    NobodySkipped(clients, if running then i else i - 1, round);
  }

  /** The events of the first n clients of a round, in turn. */
  ghost function EventsUpTo(clients: seq<TcpSocket>, n: nat, round: Round): seq<Event>
    requires WellBehaved(round) && n <= |clients|
  {
    if n == 0 then []
    else
      var c := clients[n - 1];
      EventsUpTo(clients, n - 1, round) + EventsOf(c.handle, round.incoming(c.fd), round.outgoing(c.fd))
  }

  ghost function Batch(clients: seq<TcpSocket>, round: Round): seq<Event>
    requires WellBehaved(round)
  {
    EventsUpTo(clients, ServedCount(clients, round), round)
  }

  lemma {:induction false} TurnsAppend(s: LoopState, first: seq<Event>, second: seq<Event>)
    ensures Turns(s, first + second) == Turns(Turns(s, first), second)
    ensures PossibleRun(s, first + second) <==> PossibleRun(s, first) && PossibleRun(Turns(s, first), second)
    decreases |first|
  {
    if first == [] {
      assert first + second == second;
    } else {
      assert (first + second)[1..] == first[1..] + second;
      TurnsAppend(Turn(s, first[0]), first[1..], second);
    }
  }

  /** The table after the first n clients: closed peers are gone. */
  function TableUpTo(connections: map<int, TcpSocket>, clients: seq<TcpSocket>, n: nat, round: Round): map<int, TcpSocket>
    requires n <= |clients|
  {
    if n == 0 then connections
    else
      var before, fd := TableUpTo(connections, clients, n - 1, round), clients[n - 1].fd;
      if round.incoming(fd).PeerClosed? then before - {fd} else before
  }

  /** The response that the loop has for a client of a round. */
  ghost predicate HasResponse(db: Db, client: TcpSocket, round: Round, response: Option<Bytes>)
    requires WellBehaved(round)
  {
    var incoming := round.incoming(client.fd);
    if incoming.Received? && incoming.buffer != []
    then AnswersFor(db.stamps, round.answer) && IsReply(db, client.handle, incoming.buffer, round.answer, response)
    else response == None
  }

  /** The responses to the first clients of a round, each for the database as the clients before have left it. */
  ghost predicate ClientsAnswered(s: LoopState, clients: seq<TcpSocket>, round: Round, responses: seq<Option<Bytes>>)
    requires WellBehaved(round)
  {
    |responses| <= |clients| && forall k :: 0 <= k < |responses| ==> ClientAnswered(s, clients, round, k, responses[k])
  }

  ghost predicate ClientAnswered(s: LoopState, clients: seq<TcpSocket>, round: Round, k: nat, response: Option<Bytes>)
    requires WellBehaved(round) && k < |clients|
  {
    HasResponse(Turns(s, EventsUpTo(clients, k, round)).db, clients[k], round, response)
  }

  /** What select needs to know: the open connections and the largest descriptor. */
  datatype Table = Table(listener: int, connections: map<int, TcpSocket>, fdMax: nat)

  /** The round offers a connection, through a descriptor and an object that are not in use. */
  predicate Offers(t: Table, round: Round) {
    && round.listenerReady && round.accepted.Some?
    && 0 <= round.accepted.value.fd && round.accepted.value.fd != t.listener && round.accepted.value.fd !in t.connections
    && forall fd <- t.connections :: t.connections[fd].handle != round.accepted.value.handle
  }

  function Accepting(t: Table, round: Round): Table {
    if !Offers(t, round) then t
    else
      var client := round.accepted.value;
      Table(t.listener, t.connections[client.fd := client], if client.fd > t.fdMax then client.fd else t.fdMax)
  }

  function Accepts(t: Table, round: Round): seq<Event> {
    if Offers(t, round) then [Accepted(round.accepted.value.handle)] else []
  }

  /** The clients that select finds ready, in descriptor order. */
  function Clients(t: Table, round: Round): seq<TcpSocket> {
    ReadyList(t.connections, round.ready, t.fdMax + 1)
  }

  /** The events of one round: a connection accepted, then the ready clients in turn. */
  ghost function RoundEvents(t: Table, round: Round): seq<Event>
    requires WellBehaved(round)
  {
    Accepts(t, round) + Batch(Clients(Accepting(t, round), round), round)
  }

  function RoundTable(t: Table, round: Round): Table {
    var open := Accepting(t, round);
    var clients := Clients(open, round);
    open.(connections := TableUpTo(open.connections, clients, ServedCount(clients, round), round))
  }

  predicate RoundHalts(t: Table, round: Round) {
    Halts(Clients(Accepting(t, round), round), round)
  }

  ghost predicate RoundResponses(s: LoopState, t: Table, round: Round, responses: seq<Option<Bytes>>)
    requires WellBehaved(round)
  {
    var clients := Clients(Accepting(t, round), round);
    |responses| == ServedCount(clients, round) && ClientsAnswered(Turns(s, Accepts(t, round)), clients, round, responses)
  }

  /** The table behind n rounds. */
  function TableAt(t: Table, rounds: seq<Round>, n: nat): Table
    requires n <= |rounds|
  {
    if n == 0 then t else RoundTable(TableAt(t, rounds, n - 1), rounds[n - 1])
  }

  /** In none of the first n rounds does a client ask to terminate. */
  predicate NoHaltBefore(t: Table, rounds: seq<Round>, n: nat)
    requires n <= |rounds|
  {
    n == 0 || (NoHaltBefore(t, rounds, n - 1) && !RoundHalts(TableAt(t, rounds, n - 1), rounds[n - 1]))
  }

  /** Where the loop has gone through n rounds, and goes on or not. */
  predicate LoopedTo(t: Table, rounds: seq<Round>, n: nat, running: bool)
    requires n <= |rounds|
  {
    if running then NoHaltBefore(t, rounds, n)
    else n > 0 && NoHaltBefore(t, rounds, n - 1) && RoundHalts(TableAt(t, rounds, n - 1), rounds[n - 1])
  }

  ghost predicate AllWellBehaved(rounds: seq<Round>) {
    forall i :: 0 <= i < |rounds| ==> WellBehaved(rounds[i])
  }

  /** The events of the first n rounds. */
  ghost function RoundsUpTo(t: Table, rounds: seq<Round>, n: nat): seq<Event>
    requires AllWellBehaved(rounds) && n <= |rounds|
  {
    if n == 0 then []
    else RoundsUpTo(t, rounds, n - 1) + RoundEvents(TableAt(t, rounds, n - 1), rounds[n - 1])
  }

  /** How far the loop over the clients has come. */
  ghost predicate ServedSoFar(s: LoopState, table: map<int, TcpSocket>, clients: seq<TcpSocket>, i: nat, round: Round,
                              now: LoopState, connections: map<int, TcpSocket>, responses: seq<Option<Bytes>>, running: bool)
    requires WellBehaved(round) && i <= |clients|
  {
    && ServedTo(clients, i, round, running)
    && PossibleRun(s, EventsUpTo(clients, i, round)) && now == Turns(s, EventsUpTo(clients, i, round))
    && connections == TableUpTo(table, clients, i, round)
    && |responses| == i && ClientsAnswered(s, clients, round, responses)
  }

  lemma ResponsesNext(s: LoopState, clients: seq<TcpSocket>, round: Round, responses: seq<Option<Bytes>>, response: Option<Bytes>)
    requires WellBehaved(round) && |responses| < |clients| && ClientsAnswered(s, clients, round, responses)
    requires ClientAnswered(s, clients, round, |responses|, response)
    ensures ClientsAnswered(s, clients, round, responses + [response])
  {
    var all := responses + [response];
    forall k | 0 <= k < |all| ensures ClientAnswered(s, clients, round, k, all[k]) {
      assert k < |responses| ==> all[k] == responses[k];
    }
  }

  lemma ServedToNext(clients: seq<TcpSocket>, i: nat, round: Round, goesOn: bool)
    requires i < |clients| && ServedTo(clients, i, round, true) && goesOn == !IsTerminate(round.incoming(clients[i].fd))
    ensures ServedTo(clients, i + 1, round, goesOn)
  {
  }

  lemma EventsNext(s: LoopState, clients: seq<TcpSocket>, i: nat, round: Round,
                   before: LoopState, now: LoopState, events: seq<Event>)
    requires WellBehaved(round) && i < |clients|
    requires PossibleRun(s, EventsUpTo(clients, i, round)) && before == Turns(s, EventsUpTo(clients, i, round))
    requires events == EventsOf(clients[i].handle, round.incoming(clients[i].fd), round.outgoing(clients[i].fd))
    requires PossibleRun(before, events) && now == Turns(before, events)
    ensures PossibleRun(s, EventsUpTo(clients, i + 1, round)) && now == Turns(s, EventsUpTo(clients, i + 1, round))
  {
    TurnsAppend(s, EventsUpTo(clients, i, round), events);
    assert EventsUpTo(clients, i + 1, round) == EventsUpTo(clients, i, round) + events;
  }

  /** What one client's turn does. */
  ghost predicate OneServed(client: TcpSocket, round: Round, before: LoopState, connections: map<int, TcpSocket>,
                            now: LoopState, left: map<int, TcpSocket>, response: Option<Bytes>)
    requires WellBehaved(round)
  {
    var events := EventsOf(client.handle, round.incoming(client.fd), round.outgoing(client.fd));
    && PossibleRun(before, events) && now == Turns(before, events)
    && left == (if round.incoming(client.fd).PeerClosed? then connections - {client.fd} else connections)
    && HasResponse(before.db, client, round, response)
  }

  lemma ServedOneMore(s: LoopState, table: map<int, TcpSocket>, clients: seq<TcpSocket>, i: nat, round: Round,
                      before: LoopState, connections: map<int, TcpSocket>, responses: seq<Option<Bytes>>,
                      now: LoopState, left: map<int, TcpSocket>, response: Option<Bytes>, goesOn: bool)
    requires WellBehaved(round) && i < |clients|
    requires ServedSoFar(s, table, clients, i, round, before, connections, responses, true)
    requires OneServed(clients[i], round, before, connections, now, left, response)
    requires goesOn == !IsTerminate(round.incoming(clients[i].fd))
    ensures ServedSoFar(s, table, clients, i + 1, round, now, left, responses + [response], goesOn)
  {
    ServedToNext(clients, i, round, goesOn);
    EventsNext(s, clients, i, round, before, now,
               EventsOf(clients[i].handle, round.incoming(clients[i].fd), round.outgoing(clients[i].fd)));
    ResponsesNext(s, clients, round, responses, response);
  }

  /** How far the main loop has come. */
  ghost predicate LoopedSoFar(s: LoopState, t: Table, rounds: seq<Round>, i: nat,
                              now: LoopState, table: Table, responses: seq<seq<Option<Bytes>>>, running: bool)
    requires AllWellBehaved(rounds) && i <= |rounds|
  {
    && LoopedTo(t, rounds, i, running)
    && PossibleRun(s, RoundsUpTo(t, rounds, i)) && now == Turns(s, RoundsUpTo(t, rounds, i))
    && table == TableAt(t, rounds, i)
    && |responses| == i && AllRespond(s, t, rounds, responses)
  }

  ghost predicate AllRespond(s: LoopState, t: Table, rounds: seq<Round>, responses: seq<seq<Option<Bytes>>>)
    requires AllWellBehaved(rounds)
  {
    |responses| <= |rounds| && forall r :: 0 <= r < |responses| ==> RespondsIn(s, t, rounds, r, responses[r])
  }

  /** The responses of round r. */
  ghost predicate RespondsIn(s: LoopState, t: Table, rounds: seq<Round>, r: nat, responses: seq<Option<Bytes>>)
    requires AllWellBehaved(rounds) && r < |rounds|
  {
    RoundResponses(Turns(s, RoundsUpTo(t, rounds, r)), TableAt(t, rounds, r), rounds[r], responses)
  }

  /** What a round does. */
  ghost predicate RoundDone(s: LoopState, t: Table, round: Round,
                            now: LoopState, left: Table, responses: seq<Option<Bytes>>, running: bool)
    requires WellBehaved(round)
  {
    && PossibleRun(s, RoundEvents(t, round)) && now == Turns(s, RoundEvents(t, round))
    && RoundResponses(s, t, round, responses)
    && left == RoundTable(t, round)
    && running == !RoundHalts(t, round)
  }

  /** A round is done when the ready clients have been served behind what was accepted. */
  lemma RoundServed(s: LoopState, t: Table, round: Round, accepted: LoopState, open: Table, clients: seq<TcpSocket>,
                    now: LoopState, left: Table, responses: seq<Option<Bytes>>, running: bool)
    requires WellBehaved(round) && open == Accepting(t, round) && clients == Clients(open, round)
    requires PossibleRun(s, Accepts(t, round)) && accepted == Turns(s, Accepts(t, round))
    requires |responses| <= |clients| && (running ==> |responses| == |clients|)
    requires ServedSoFar(accepted, open.connections, clients, |responses|, round, now, left.connections, responses, running)
    requires left == open.(connections := left.connections)
    ensures RoundDone(s, t, round, now, left, responses, running)
  {
    ServedToEnd(clients, |responses|, round, running);
    TurnsAppend(s, Accepts(t, round), Batch(clients, round));
  }

  lemma LoopedToNext(t: Table, rounds: seq<Round>, n: nat, goesOn: bool)
    requires n < |rounds| && LoopedTo(t, rounds, n, true) && goesOn == !RoundHalts(TableAt(t, rounds, n), rounds[n])
    ensures LoopedTo(t, rounds, n + 1, goesOn)
  {
  }

  lemma RoundsNext(s: LoopState, t: Table, rounds: seq<Round>, i: nat, before: LoopState, now: LoopState, events: seq<Event>)
    requires AllWellBehaved(rounds) && i < |rounds|
    requires PossibleRun(s, RoundsUpTo(t, rounds, i)) && before == Turns(s, RoundsUpTo(t, rounds, i))
    requires events == RoundEvents(TableAt(t, rounds, i), rounds[i])
    requires PossibleRun(before, events) && now == Turns(before, events)
    ensures PossibleRun(s, RoundsUpTo(t, rounds, i + 1)) && now == Turns(s, RoundsUpTo(t, rounds, i + 1))
  {
    TurnsAppend(s, RoundsUpTo(t, rounds, i), events);
    assert RoundsUpTo(t, rounds, i + 1) == RoundsUpTo(t, rounds, i) + events;
  }

  lemma AllRespondNext(s: LoopState, t: Table, rounds: seq<Round>, responses: seq<seq<Option<Bytes>>>, answers: seq<Option<Bytes>>)
    requires AllWellBehaved(rounds) && |responses| < |rounds| && AllRespond(s, t, rounds, responses)
    requires RespondsIn(s, t, rounds, |responses|, answers)
    ensures AllRespond(s, t, rounds, responses + [answers])
  {
    var all := responses + [answers];
    forall r | 0 <= r < |all| ensures RespondsIn(s, t, rounds, r, all[r]) {
      if r < |responses| {
        assert all[r] == responses[r];
      } else {
        assert r == |responses| && all[r] == answers;
      }
    }
  }

  lemma LoopedOneMore(s: LoopState, t: Table, rounds: seq<Round>, i: nat, before: LoopState, table: Table,
                      responses: seq<seq<Option<Bytes>>>, now: LoopState, left: Table, answers: seq<Option<Bytes>>, goesOn: bool)
    requires AllWellBehaved(rounds) && i < |rounds|
    requires LoopedSoFar(s, t, rounds, i, before, table, responses, true)
    requires RoundDone(before, table, rounds[i], now, left, answers, goesOn)
    ensures LoopedSoFar(s, t, rounds, i + 1, now, left, responses + [answers], goesOn)
  {
    LoopedToNext(t, rounds, i, goesOn);
    RoundsNext(s, t, rounds, i, before, now, RoundEvents(table, rounds[i]));
    AllRespondNext(s, t, rounds, responses, answers);
  }

  predicate Ascending(clients: seq<TcpSocket>) {
    forall j, k :: 0 <= j < k < |clients| ==> clients[j].fd < clients[k].fd
  }

  /** The clients from i on are open connections. */
  predicate AllOpen(connections: map<int, TcpSocket>, clients: seq<TcpSocket>, i: nat) {
    forall k :: i <= k < |clients| ==> clients[k].fd in connections && connections[clients[k].fd] == clients[k]
  }

  lemma OthersStayOpen(connections: map<int, TcpSocket>, clients: seq<TcpSocket>, i: nat, left: map<int, TcpSocket>)
    requires i < |clients| && AllOpen(connections, clients, i)
    requires Ascending(clients)
    requires left == connections || left == connections - {clients[i].fd}
    ensures AllOpen(left, clients, i + 1)
  {
  }

  lemma TurnTaken(s: LoopState, table: map<int, TcpSocket>, clients: seq<TcpSocket>, i: nat, round: Round,
                  before: LoopState, connections: map<int, TcpSocket>, responses: seq<Option<Bytes>>,
                  now: LoopState, left: map<int, TcpSocket>, response: Option<Bytes>, goesOn: bool)
    requires WellBehaved(round) && i < |clients| && AllOpen(connections, clients, i) && Ascending(clients)
    requires ServedSoFar(s, table, clients, i, round, before, connections, responses, true)
    requires OneServed(clients[i], round, before, connections, now, left, response)
    requires goesOn == !IsTerminate(round.incoming(clients[i].fd))
    ensures ServedSoFar(s, table, clients, i + 1, round, now, left, responses + [response], goesOn)
    ensures AllOpen(left, clients, i + 1)
  {
    OthersStayOpen(connections, clients, i, left);
    ServedOneMore(s, table, clients, i, round, before, connections, responses, now, left, response, goesOn);
  }

  class Binder {
    const server: TcpServer
    const database: BinderDatabase
    var running: bool

    ghost predicate Valid()
      reads this, server, database
    {
      server.Valid() && NoDangling(Now())
    }

    ghost function Now(): LoopState
      reads this, server, database
    {
      LoopState(server.Live(), database.State())
    }

    constructor (listener: int)
      requires 0 <= listener
      ensures Valid() && running && fresh(server) && fresh(database)
      ensures Now() == LoopState({}, EMPTY)
    {
      server := new TcpServer(listener);
      database := new BinderDatabase();
      running := true;
    }

    method ServeRegister(socket: Handle, buffer: Bytes) returns (response: Bytes)
      requires ParseRegister(buffer).Some? && ValidWords(ParseRegister(buffer).value.value.words)
      modifies database
      ensures var op := RegisterOp(ParseRegister(buffer).value.value, socket);
        database.State() == Step(old(database.State()), op).0
        && response == Encode(ReplyMessage(Step(old(database.State()), op).1))
    {
      var message := DeserializeRegister(buffer);
      response := database.HandleRegister(message, socket);
    }

    method ServeLocate(buffer: Bytes) returns (response: Bytes)
      requires ParseLocateRequest(buffer).Some? && ValidWords(ParseLocateRequest(buffer).value.value.words)
      modifies database
      ensures var op := LocateOp(ParseLocateRequest(buffer).value.value);
        database.State() == Step(old(database.State()), op).0
        && response == Encode(ReplyMessage(Step(old(database.State()), op).1))
    {
      var message := DeserializeLocateRequest(buffer);
      response := database.HandleLocate(message);
    }

    /** Dispatches a received buffer; None when the message type is unknown. */
    method Dispatch(socket: Handle, buffer: Bytes, answer: (Addr, Handle) --> Answer) returns (response: Option<Bytes>)
      requires buffer != [] && Acceptable(buffer) && AnswersFor(database.serverToTimestamp, answer)
      modifies this`running, database
      ensures database.State() == Served(old(database.State()), socket, buffer)
      ensures IsReply(old(database.State()), socket, buffer, answer, response)
      ensures running == (old(running) && !IsTerminate(Received(buffer)))
    {
      if buffer[0] == REGISTER {
        var r := ServeRegister(socket, buffer);
        response := Some(r);
      } else if buffer[0] == LOCATE_REQUEST {
        var r := ServeLocate(buffer);
        response := Some(r);
      } else if buffer[0] == StatusType(Terminate) {
        var r := database.HandleTerminate(answer);
        response := Some(r);
        running := false;
      } else {
        response := None;
      }
    }

    /** One message of one client. */
    method Serve(client: TcpSocket, incoming: Incoming, outgoing: Outgoing, answer: (Addr, Handle) --> Answer)
        returns (response: Option<Bytes>)
      requires Valid() && server.Manages(client)
      requires incoming.Received? ==> Acceptable(incoming.buffer)
      requires forall a: Addr, h <- server.Live() :: answer.requires(a, h)
      modifies this`running, server`connections, server`fdMaster, database
      ensures Valid()
      ensures Now() == Turns(old(Now()), EventsOf(client.handle, incoming, outgoing))
      ensures PossibleRun(old(Now()), EventsOf(client.handle, incoming, outgoing))
      ensures server.connections == if incoming.PeerClosed? then old(server.connections) - {client.fd} else old(server.connections)
      ensures running == (old(running) && !IsTerminate(incoming))
      ensures if incoming.Received? && incoming.buffer != []
              then AnswersFor(old(database.State()).stamps, answer)
                   && IsReply(old(database.State()), client.handle, incoming.buffer, answer, response)
              else response == None
    {
      assert client.handle in server.Live();
      ClientTurns(Now(), client.handle, incoming, outgoing);
      LiveAnswers(Now(), answer);
      response := None;
      var buffer: Bytes := [];
      match incoming {
        case Received(b) => buffer := b;
        case PeerClosed =>
          database.RemoveIfServer(client.handle);
          server.ConnectionClosed(client);
        case RecvFailed =>
      }
      if buffer == [] {
        return;
      }
      response := Respond(client, buffer, outgoing, answer);
    }

    /** Dispatches a request and sends the response; a client that cannot be reached is no server any more.
        `answer` has to be defined on the sockets of known servers only: a terminate request reaches no other. */
    method Respond(client: TcpSocket, buffer: Bytes, outgoing: Outgoing, answer: (Addr, Handle) --> Answer)
        returns (response: Option<Bytes>)
      requires buffer != [] && Acceptable(buffer) && AnswersFor(database.serverToTimestamp, answer)
      modifies this`running, database
      ensures var d := Served(old(database.State()), client.handle, buffer);
        database.State() == if IsRequest(buffer) && outgoing.SendClosed? then Remove(d, client.handle) else d
      ensures IsReply(old(database.State()), client.handle, buffer, answer, response)
      ensures running == (old(running) && !IsTerminate(Received(buffer)))
    {
      ghost var before := database.State();
      response := Dispatch(client.handle, buffer, answer);
      ReplyOnRequest(before, client.handle, buffer, answer, response);
      if response == None {
        return;
      }
      if outgoing.SendClosed? {
        database.RemoveIfServer(client.handle);
      }
    }

    /** Serves the clients of one round in order, each through its own events: all of them, or those up to the first
        terminate request. */
    method ServeAll(clients: seq<TcpSocket>, round: Round) returns (responses: seq<Option<Bytes>>)
      requires Valid() && running && WellBehaved(round)
      requires AllOpen(server.connections, clients, 0)
      requires Ascending(clients)
      modifies this`running, server`connections, server`fdMaster, database
      ensures Valid() && |responses| <= |clients| && (running ==> |responses| == |clients|)
      ensures ServedSoFar(old(Now()), old(server.connections), clients, |responses|, round,
                          Now(), server.connections, responses, running)
    {
      ghost var start, table := Now(), server.connections;
      responses := [];
      while |responses| < |clients| && running
        invariant Valid() && |responses| <= |clients| && AllOpen(server.connections, clients, |responses|)
        invariant ServedSoFar(start, table, clients, |responses|, round, Now(), server.connections, responses, running)
        decreases |clients| - |responses|
      {
        responses := ServeNext(clients, round, start, table, responses);
      }
    }

    /** One client of a round; those behind it stay connected. */
    method ServeNext(clients: seq<TcpSocket>, round: Round, ghost start: LoopState, ghost table: map<int, TcpSocket>,
                     before: seq<Option<Bytes>>)
        returns (responses: seq<Option<Bytes>>)
      requires |before| < |clients| && Valid() && AllOpen(server.connections, clients, |before|) && WellBehaved(round)
      requires Ascending(clients)
      requires running && ServedSoFar(start, table, clients, |before|, round, Now(), server.connections, before, true)
      modifies this`running, server`connections, server`fdMaster, database
      ensures Valid() && |responses| == |before| + 1 && AllOpen(server.connections, clients, |responses|)
      ensures ServedSoFar(start, table, clients, |responses|, round, Now(), server.connections, responses, running)
    {
      ghost var was, connections := Now(), server.connections;
      var client := clients[|before|];
      var response := ServeOne(client, round);
      responses := before + [response];
      TurnTaken(start, table, clients, |before|, round, was, connections, before, Now(), server.connections, response, running);
    }

    method ServeOne(client: TcpSocket, round: Round) returns (response: Option<Bytes>)
      requires Valid() && server.Manages(client) && WellBehaved(round)
      modifies this`running, server`connections, server`fdMaster, database
      ensures Valid()
      ensures OneServed(client, round, old(Now()), old(server.connections), Now(), server.connections, response)
      ensures running == (old(running) && !IsTerminate(round.incoming(client.fd)))
    {
      ghost var live, before := server.Live(), database.State();
      var incoming, outgoing := round.incoming(client.fd), round.outgoing(client.fd);
      ghost var onLive := (a: Addr, h: Handle) requires h in live => round.answer(a, h);
      response := Serve(client, incoming, outgoing, (a: Addr, h: Handle) requires h in live => round.answer(a, h));
      if incoming.Received? && incoming.buffer != [] {
        SameAnswers(before, client.handle, incoming.buffer, onLive, round.answer, response);
      }
    }

    ghost function TableNow(): Table
      reads this, server
      requires server.fdMax >= 0
    {
      Table(server.listener, server.connections, server.fdMax)
    }

    /** Accepts what the round offers. */
    method Accept(round: Round)
      requires Valid()
      modifies server
      ensures Valid() && unchanged(this) && unchanged(database)
      ensures TableNow() == Accepting(old(TableNow()), round)
      ensures PossibleRun(old(Now()), Accepts(old(TableNow()), round))
      ensures Now() == Turns(old(Now()), Accepts(old(TableNow()), round))
    {
      if Offers(TableNow(), round) {
        TurnsOne(Now(), Accepted(round.accepted.value.handle));
      }
      var newfd, handle := -1, 0;
      if round.accepted.Some? {
        var offered := round.accepted.value;
        var inUse := exists fd <- server.connections :: server.connections[fd].handle == offered.handle;
        if 0 <= offered.fd && offered.fd !in server.fdMaster && !inUse {
          newfd, handle := offered.fd, offered.handle;
        }
      }
      server.AcceptIfAny(round.listenerReady, newfd, handle);
    }

    /** Accepts what the round offers, and finds the clients that are ready. */
    method Poll(round: Round) returns (clients: seq<TcpSocket>)
      requires Valid()
      modifies server
      ensures Valid() && unchanged(this) && unchanged(database)
      ensures TableNow() == Accepting(old(TableNow()), round)
      ensures PossibleRun(old(Now()), Accepts(old(TableNow()), round))
      ensures Now() == Turns(old(Now()), Accepts(old(TableNow()), round))
      ensures clients == Clients(TableNow(), round) && AllOpen(server.connections, clients, 0)
      ensures Ascending(clients)
    {
      Accept(round);
      clients := server.ConnectionsWithData(round.ready * server.fdMaster);
      OnlyOpenOnes(server.connections, round.ready, server.fdMaster, server.fdMax + 1);
    }

    /** One round of the loop. */
    method ServeRound(round: Round) returns (responses: seq<Option<Bytes>>)
      requires Valid() && running && WellBehaved(round)
      modifies this`running, server, database
      ensures Valid()
      ensures RoundDone(old(Now()), old(TableNow()), round, Now(), TableNow(), responses, running)
    {
      ghost var table, start := TableNow(), Now();
      var clients := Poll(round);
      ghost var open, accepted := TableNow(), Now();
      responses := ServeAll(clients, round);
      RoundServed(start, table, round, accepted, open, clients, Now(), TableNow(), responses, running);
    }

    /** The loop of `main`, over whatever the environment does in each round: it goes through all rounds, or those up
        to the first with a terminate request, and has the responses of each. */
    method Run(rounds: seq<Round>) returns (responses: seq<seq<Option<Bytes>>>)
      requires Valid() && running && AllWellBehaved(rounds)
      modifies this`running, server, database
      ensures Valid() && |responses| <= |rounds|
      ensures LoopedSoFar(old(Now()), old(TableNow()), rounds, |responses|, Now(), TableNow(), responses, running)
      ensures running ==> |responses| == |rounds|
    {
      ghost var start, table := Now(), TableNow();
      responses := [];
      while running && |responses| < |rounds|
        invariant Valid() && |responses| <= |rounds|
        invariant LoopedSoFar(start, table, rounds, |responses|, Now(), TableNow(), responses, running)
        decreases |rounds| - |responses|
      {
        responses := NextRound(rounds, start, table, responses);
      }
    }

    method NextRound(rounds: seq<Round>, ghost start: LoopState, ghost table: Table, before: seq<seq<Option<Bytes>>>)
        returns (responses: seq<seq<Option<Bytes>>>)
      requires |before| < |rounds| && Valid() && running && AllWellBehaved(rounds)
      requires LoopedSoFar(start, table, rounds, |before|, Now(), TableNow(), before, true)
      modifies this`running, server, database
      ensures Valid() && |responses| == |before| + 1
      ensures LoopedSoFar(start, table, rounds, |responses|, Now(), TableNow(), responses, running)
    {
      ghost var was, open := Now(), TableNow();
      var answers := ServeRound(rounds[|before|]);
      responses := before + [answers];
      LoopedOneMore(start, table, rounds, |before|, was, open, before, Now(), TableNow(), answers, running);
    }
  }
}
