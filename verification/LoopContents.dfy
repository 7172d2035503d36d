/** What the main loop does, request by request: which events a round contains, what each of them does to the
    database, and what the clients are told. */
module LoopContents {
  import opened Wire
  import opened Args
  import opened Signatures
  import opened BinderDb
  import opened Messages
  import opened BinderDatabases
  import opened TcpServers
  import opened BinderLoop
  import opened Rpc
  import opened ServerProcesses

  // --------------------------------------------------------- one client's turn

  predicate IsCall(m: Message) {
    (m.Register? || m.LocateRequest?) && WellFormed(m) && ValidWords(m.words)
  }

  /** What the sender of a request over the socket asks the database for. */
  function Meaning(m: Message, socket: Handle): Op
    requires IsCall(m)
  {
    var sig := SignatureOf(m.name, m.words);
    if m.Register? then Registering(sig, Server(Addr(m.host, m.port), socket)) else Locating(sig)
  }

  lemma RequestTaken(m: Message, socket: Handle)
    requires IsCall(m)
    ensures Encode(m) != [] && Acceptable(Encode(m)) && IsRequest(Encode(m))
    ensures OpOf(socket, Encode(m)) == Some(Meaning(m, socket))
  {
    TypeNumbers(m);
    ParsedAs(m);
  }

  /** A request is one event with the operation it asks for; a client that cannot be told the answer is given up. */
  lemma RequestEvents(m: Message, socket: Handle, outgoing: Outgoing)
    requires IsCall(m)
    ensures Acceptable(Encode(m))
    ensures EventsOf(socket, Received(Encode(m)), outgoing)
         == [Requested(socket, Meaning(m, socket))] + if outgoing.SendClosed? then [Undeliverable(socket)] else []
  {
    RequestTaken(m, socket);
  }

  /** Everything else: a closed peer, a failure to receive, a terminate request, and messages that are ignored. */
  lemma OtherEvents(socket: Handle, buffer: Bytes, outgoing: Outgoing)
    requires buffer == [] || buffer[0] !in {0, 3}
    ensures EventsOf(socket, PeerClosed, outgoing) == [Closed(socket)]
    ensures EventsOf(socket, RecvFailed, outgoing) == []
    ensures EventsOf(socket, Received(buffer), outgoing)
         == if buffer != [] && buffer[0] == 8 && outgoing.SendClosed? then [Undeliverable(socket)] else []
  {
  }

  lemma TerminateRequest(incoming: Incoming)
    ensures IsTerminate(incoming) <==> incoming.Received? && incoming.buffer != [] && incoming.buffer[0] == 8
  {
  }

  /** What each event does. */
  lemma EventEffect(s: LoopState, events: seq<Event>, q: nat)
    requires q < |events|
    ensures var before, after := Turns(s, events[..q]), Turns(s, events[..q + 1]);
      match events[q]
      case Accepted(h) => after.live == before.live + {h} && after.db == before.db
      case Closed(h) => after.live == before.live - {h} && after.db == Remove(before.db, h)
      case Requested(_, op) => after.live == before.live && after.db == Step(before.db, op).0
      case Undeliverable(h) => after.live == before.live && after.db == Remove(before.db, h)
  {
    assert events[..q + 1] == events[..q] + [events[q]];
    TurnsAppend(s, events[..q], [events[q]]);
    TurnsOne(Turns(s, events[..q]), events[q]);
  }

  // --------------------------------------------------------------- responses

  /** A client that registers is told 0, or 1 if it is known for the signature. A client that locates is told the
      address found, or that there is none. */
  lemma ResponseToRequest(db: Db, client: TcpSocket, round: Round, m: Message, response: Option<Bytes>)
    requires WellBehaved(round) && IsCall(m) && round.incoming(client.fd) == Received(Encode(m))
    requires HasResponse(db, client, round, response)
    ensures var sig := SignatureOf(m.name, m.words);
      if m.Register? then
        response == Some([1, if Addr(m.host, m.port) in ProvidersOf(db, sig) then 1 else 0])
      else
        match BinderDb.Locate(db, sig).1
        case Some(a) => response == Some(Encode(LocateSuccess(a.host, a.port)))
        case None => response == Some([5, 1])
  {
    ResponseIsReply(db, client, round, m, response);
    if m.Register? {
      AnsweredWithSuccess(db, Meaning(m, client.handle));
    } else {
      LocateAnswered(db, SignatureOf(m.name, m.words));
    }
  }

  lemma ResponseIsReply(db: Db, client: TcpSocket, round: Round, m: Message, response: Option<Bytes>)
    requires WellBehaved(round) && IsCall(m) && round.incoming(client.fd) == Received(Encode(m))
    requires HasResponse(db, client, round, response)
    ensures response == Some(Encode(ReplyMessage(Step(db, Meaning(m, client.handle)).1)))
  {
    RequestTaken(m, client.handle);
  }

  lemma LocateAnswered(db: Db, sig: Signature)
    ensures Encode(ReplyMessage(Step(db, Locating(sig)).1)) ==
      match BinderDb.Locate(db, sig).1
      case Some(a) => Encode(LocateSuccess(a.host, a.port))
      case None => [5, 1]
  {
    assert Encode(Status(LocateFailure, 1)) == [5, 1];
  }

  /** A client that asks to terminate is told the verdict of the servers; other messages are not answered. */
  lemma OtherResponses(db: Db, client: TcpSocket, round: Round, buffer: Bytes, response: Option<Bytes>)
    requires WellBehaved(round) && round.incoming(client.fd) == Received(buffer) && (buffer == [] || buffer[0] !in {0, 3})
    requires HasResponse(db, client, round, response)
    ensures if buffer != [] && buffer[0] == 8
            then AnswersFor(db.stamps, round.answer) && response.Some? && IsVerdict(db.stamps, round.answer, response.value)
            else response == None
  {
  }

  // ----------------------------------------------------------------- a batch

  function SocketOf(e: Event): Handle {
    match e
    case Accepted(h) => h
    case Closed(h) => h
    case Requested(h, _) => h
    case Undeliverable(h) => h
  }

  ghost function EventsOfClient(client: TcpSocket, round: Round): seq<Event>
    requires WellBehaved(round)
  {
    EventsOf(client.handle, round.incoming(client.fd), round.outgoing(client.fd))
  }

  lemma EventsAreItsOwn(client: TcpSocket, round: Round, e: Event)
    requires WellBehaved(round)
    ensures e in EventsOfClient(client, round) ==> SocketOf(e) == client.handle
  {
  }

  ghost predicate DistinctClients(clients: seq<TcpSocket>) {
    forall i, j :: 0 <= i < j < |clients| ==> clients[i].handle != clients[j].handle
  }

  function Joined(turns: seq<seq<Event>>, n: nat): seq<Event>
    requires n <= |turns|
  {
    if n == 0 then [] else Joined(turns, n - 1) + turns[n - 1]
  }

  ghost function TurnsOf(clients: seq<TcpSocket>, round: Round): (turns: seq<seq<Event>>)
    requires WellBehaved(round)
    ensures |turns| == |clients|
  {
    seq(|clients|, k requires 0 <= k < |clients| => EventsOfClient(clients[k], round))
  }

  lemma {:induction false} BatchIsJoined(clients: seq<TcpSocket>, turns: seq<seq<Event>>, n: nat, round: Round)
    requires WellBehaved(round) && n <= |clients| == |turns|
    requires forall k :: 0 <= k < |clients| ==> turns[k] == EventsOfClient(clients[k], round)
    ensures EventsUpTo(clients, n, round) == Joined(turns, n)
  {
    if n > 0 {
      BatchIsJoined(clients, turns, n - 1, round);
    }
  }

  lemma {:induction false} JoinedOnce(turns: seq<seq<Event>>, owners: seq<Handle>, n: nat, k: nat, e: Event)
    requires n <= |turns| == |owners| && k < |turns| && SocketOf(e) == owners[k]
    requires forall i, j :: 0 <= i < j < |owners| ==> owners[i] != owners[j]
    requires forall i :: 0 <= i < |turns| && e in turns[i] ==> SocketOf(e) == owners[i]
    ensures multiset(Joined(turns, n))[e] == if k < n then multiset(turns[k])[e] else 0
    decreases n
  {
    if n > 0 {
      JoinedOnce(turns, owners, n - 1, k, e);
      CountOfSum(Joined(turns, n - 1), turns[n - 1], e);
    }
  }

  /** Exactly once: of the events of client k, the batch has as many as its turn has if it is served, and none otherwise. */
  lemma EachTurnOnce(clients: seq<TcpSocket>, n: nat, round: Round, k: nat, e: Event)
    requires WellBehaved(round) && n <= |clients| && DistinctClients(clients)
    requires k < |clients| && SocketOf(e) == clients[k].handle
    ensures multiset(EventsUpTo(clients, n, round))[e] == if k < n then multiset(EventsOfClient(clients[k], round))[e] else 0
  {
    var turns := TurnsOf(clients, round);
    var owners := seq(|clients|, i requires 0 <= i < |clients| => clients[i].handle);
    forall i | 0 <= i < |turns| && e in turns[i] ensures SocketOf(e) == owners[i] {
      EventsAreItsOwn(clients[i], round, e);
    }
    JoinedOnce(turns, owners, n, k, e);
    BatchOfTurns(clients, n, round);
  }

  lemma CountOfSum(before: seq<Event>, last: seq<Event>, e: Event)
    ensures multiset(before + last)[e] == multiset(before)[e] + multiset(last)[e]
    ensures e !in last ==> multiset(last)[e] == 0
  {
  }

  /** Nothing else: every event of the batch is in the turn of a client that is served. */
  lemma {:induction false} NothingElse(clients: seq<TcpSocket>, n: nat, round: Round, e: Event)
    requires WellBehaved(round) && n <= |clients| && e in EventsUpTo(clients, n, round)
    ensures exists k :: 0 <= k < n && e in EventsOfClient(clients[k], round)
  {
    if e in EventsUpTo(clients, n - 1, round) {
      NothingElse(clients, n - 1, round, e);
    } else {
      assert e in EventsOfClient(clients[n - 1], round);
    }
  }

  lemma {:induction false} JoinedInOrder(turns: seq<seq<Event>>, n: nat, k: nat)
    requires k < n <= |turns|
    ensures Joined(turns, k) + turns[k] <= Joined(turns, n)
    decreases n
  {
    if k < n - 1 {
      JoinedInOrder(turns, n - 1, k);
      StaysPrefix(Joined(turns, k) + turns[k], Joined(turns, n - 1), turns[n - 1]);
    }
  }

  /** In order: the turn of client k stands behind the turns of the clients before it. */
  lemma TurnsInOrder(clients: seq<TcpSocket>, n: nat, round: Round, k: nat)
    requires WellBehaved(round) && k < n <= |clients|
    ensures EventsUpTo(clients, k, round) + EventsOfClient(clients[k], round) <= EventsUpTo(clients, n, round)
  {
    var turns := TurnsOf(clients, round);
    var before, own, all := EventsUpTo(clients, k, round), EventsOfClient(clients[k], round), EventsUpTo(clients, n, round);
    assert own == turns[k];
    assert before == Joined(turns, k) by {
      BatchOfTurns(clients, k, round);
    }
    assert all == Joined(turns, n) by {
      BatchOfTurns(clients, n, round);
    }
    JoinedInOrder(turns, n, k);
  }

  lemma BatchOfTurns(clients: seq<TcpSocket>, n: nat, round: Round)
    requires WellBehaved(round) && n <= |clients|
    ensures EventsUpTo(clients, n, round) == Joined(TurnsOf(clients, round), n)
  {
    BatchIsJoined(clients, TurnsOf(clients, round), n, round);
  }

  /** The clients served are all of them, or those up to the first one that asks to terminate. */
  lemma {:induction false} ServedUntilTerminate(clients: seq<TcpSocket>, i: nat, round: Round)
    requires i <= |clients|
    ensures forall k :: i <= k < ServedFrom(clients, i, round) - 1 ==> !IsTerminate(round.incoming(clients[k].fd))
    ensures ServedFrom(clients, i, round) < |clients| ==>
      ServedFrom(clients, i, round) > i && IsTerminate(round.incoming(clients[ServedFrom(clients, i, round) - 1].fd))
    decreases |clients| - i
  {
    if i < |clients| && !IsTerminate(round.incoming(clients[i].fd)) {
      ServedUntilTerminate(clients, i + 1, round);
    }
  }

  // --------------------------------------------------- who is accepted and polled

  /** Descriptors are in range, every connection is stored under its own, and no object is stored twice. */
  ghost predicate TableOk(t: Table) {
    && t.listener !in t.connections
    && (forall fd <- t.connections :: 0 <= fd <= t.fdMax && t.connections[fd].fd == fd)
    && (forall c, d :: c in t.connections && d in t.connections && t.connections[c].handle == t.connections[d].handle ==> c == d)
  }

  /** A connection is accepted exactly when the listener is ready and what accept returns is not in use. */
  lemma AcceptedExactly(t: Table, round: Round)
    requires TableOk(t)
    ensures TableOk(Accepting(t, round))
    ensures
      if round.listenerReady && round.accepted.Some?
         && 0 <= round.accepted.value.fd && round.accepted.value.fd != t.listener && round.accepted.value.fd !in t.connections
         && (forall fd <- t.connections :: t.connections[fd].handle != round.accepted.value.handle)
      then Accepts(t, round) == [Accepted(round.accepted.value.handle)]
           && Accepting(t, round).connections == t.connections[round.accepted.value.fd := round.accepted.value]
      else Accepts(t, round) == [] && Accepting(t, round) == t
  {
  }

  /** The clients of a round are the open connections that are ready, each once, in descriptor order. */
  lemma PolledExactly(t: Table, round: Round)
    requires TableOk(t)
    ensures forall c :: c in Clients(t, round) <==> c.fd in t.connections && t.connections[c.fd] == c && c.fd in round.ready
    ensures forall i, j :: 0 <= i < j < |Clients(t, round)| ==> Clients(t, round)[i].fd < Clients(t, round)[j].fd
    ensures DistinctClients(Clients(t, round))
  {
    ReadyListHolds(t.connections, round.ready, t.fdMax + 1);
    var clients := Clients(t, round);
    forall c ensures c in clients <==> c.fd in t.connections && t.connections[c.fd] == c && c.fd in round.ready {
      assert c in clients <==> IsReady(t.connections, round.ready, t.fdMax + 1, c);
    }
    assert forall i :: 0 <= i < |clients| ==> clients[i] in clients;
  }

  /** Behind a round, the connections are those before, without the peers that were found closed. */
  lemma {:induction false} LeftOpen(connections: map<int, TcpSocket>, clients: seq<TcpSocket>, n: nat, round: Round)
    requires n <= |clients|
    ensures forall fd :: fd in TableUpTo(connections, clients, n, round) <==>
      fd in connections && forall k :: 0 <= k < n ==> !(clients[k].fd == fd && round.incoming(fd).PeerClosed?)
    ensures forall fd :: fd in TableUpTo(connections, clients, n, round)
                     ==> TableUpTo(connections, clients, n, round)[fd] == connections[fd]
  {
    if n > 0 {
      LeftOpen(connections, clients, n - 1, round);
    }
  }

  lemma {:induction false} TableStaysOk(t: Table, rounds: seq<Round>, n: nat)
    requires TableOk(t) && n <= |rounds|
    ensures TableOk(TableAt(t, rounds, n))
  {
    if n > 0 {
      TableStaysOk(t, rounds, n - 1);
      RoundKeepsTableOk(TableAt(t, rounds, n - 1), rounds[n - 1]);
    }
  }

  lemma RoundKeepsTableOk(t: Table, round: Round)
    requires TableOk(t)
    ensures TableOk(RoundTable(t, round))
  {
    AcceptedExactly(t, round);
    var open := Accepting(t, round);
    var clients := Clients(open, round);
    LeftOpen(open.connections, clients, ServedCount(clients, round), round);
  }

  // ----------------------------------------------------------- the whole loop

  ghost predicate AreRounds(turns: seq<seq<Event>>, t: Table, rounds: seq<Round>)
    requires AllWellBehaved(rounds)
  {
    |turns| == |rounds| && forall r :: 0 <= r < |rounds| ==> turns[r] == EventsIn(t, rounds, r)
  }

  ghost function EventsIn(t: Table, rounds: seq<Round>, r: nat): seq<Event>
    requires AllWellBehaved(rounds) && r < |rounds|
  {
    RoundEvents(TableAt(t, rounds, r), rounds[r])
  }

  lemma OneMoreRound(t: Table, rounds: seq<Round>, turns: seq<seq<Event>>, r: nat)
    requires AllWellBehaved(rounds) && AreRounds(turns, t, rounds) && r < |rounds|
    ensures RoundsUpTo(t, rounds, r + 1) == RoundsUpTo(t, rounds, r) + turns[r]
  {
    assert turns[r] == EventsIn(t, rounds, r);
  }

  ghost predicate AreRuns(runs: seq<seq<Event>>, t: Table, rounds: seq<Round>)
    requires AllWellBehaved(rounds)
  {
    |runs| == |rounds| + 1 && forall r :: 0 <= r <= |rounds| ==> runs[r] == RoundsUpTo(t, rounds, r)
  }

  lemma RunsGrow(runs: seq<seq<Event>>, t: Table, rounds: seq<Round>, turns: seq<seq<Event>>)
    requires AllWellBehaved(rounds) && AreRounds(turns, t, rounds) && AreRuns(runs, t, rounds)
    ensures forall r :: 0 <= r < |rounds| ==> runs[r + 1] == runs[r] + turns[r]
  {
    forall r | 0 <= r < |rounds| ensures runs[r + 1] == runs[r] + turns[r] {
      OneMoreRound(t, rounds, turns, r);
    }
  }

  lemma RoundsAreJoined(t: Table, rounds: seq<Round>, turns: seq<seq<Event>>, n: nat)
    requires AllWellBehaved(rounds) && AreRounds(turns, t, rounds) && n <= |rounds|
    ensures RoundsUpTo(t, rounds, n) == Joined(turns, n)
  {
    var runs := seq(|rounds| + 1, r requires 0 <= r <= |rounds| => RoundsUpTo(t, rounds, r));
    RunsGrow(runs, t, rounds, turns);
    PartsAreJoined(runs, turns, n);
  }

  lemma {:induction false} PartsAreJoined(parts: seq<seq<Event>>, turns: seq<seq<Event>>, n: nat)
    requires n < |parts| == |turns| + 1 && parts[0] == []
    requires forall r :: 0 <= r < |turns| ==> parts[r + 1] == parts[r] + turns[r]
    ensures parts[n] == Joined(turns, n)
  {
    if n > 0 {
      PartsAreJoined(parts, turns, n - 1);
      assert parts[n - 1 + 1] == parts[n - 1] + turns[n - 1];
    }
  }

  /** The events of round r stand behind those of the rounds before it. */
  lemma RoundsInOrder(t: Table, rounds: seq<Round>, n: nat, r: nat)
    requires AllWellBehaved(rounds) && r < n <= |rounds|
    ensures RoundsUpTo(t, rounds, r) + EventsIn(t, rounds, r) <= RoundsUpTo(t, rounds, n)
  {
    var turns := seq(|rounds|, k requires 0 <= k < |rounds| => EventsIn(t, rounds, k));
    var before, own, all := RoundsUpTo(t, rounds, r), EventsIn(t, rounds, r), RoundsUpTo(t, rounds, n);
    assert own == turns[r];
    assert before == Joined(turns, r) by {
      RoundsAreJoined(t, rounds, turns, r);
    }
    assert all == Joined(turns, n) by {
      RoundsAreJoined(t, rounds, turns, n);
    }
    JoinedInOrder(turns, n, r);
  }

  lemma StaysPrefix(part: seq<Event>, before: seq<Event>, last: seq<Event>)
    requires part <= before
    ensures part <= before + last
  {
  }

  /** The connection is open and ready in round r, and no ready connection with a smaller descriptor asks to terminate. */
  predicate IsPolled(t: Table, rounds: seq<Round>, r: nat, fd: int)
    requires r < |rounds|
  {
    var open, round := Accepting(TableAt(t, rounds, r), rounds[r]), rounds[r];
    && fd in open.connections && fd in round.ready
    && forall other <- open.connections :: other in round.ready && other < fd ==> !IsTerminate(round.incoming(other))
  }

  /** Such a connection is among the clients served. */
  lemma PolledIsServed(t: Table, rounds: seq<Round>, r: nat, fd: int) returns (k: nat)
    requires TableOk(t) && r < |rounds| && IsPolled(t, rounds, r, fd)
    ensures var open := Accepting(TableAt(t, rounds, r), rounds[r]);
      var clients := Clients(open, rounds[r]);
      k < ServedCount(clients, rounds[r]) && clients[k] == open.connections[fd]
  {
    TableStaysOk(t, rounds, r);
    AcceptedExactly(TableAt(t, rounds, r), rounds[r]);
    var open := Accepting(TableAt(t, rounds, r), rounds[r]);
    var clients := Clients(open, rounds[r]);
    PolledExactly(open, rounds[r]);
    ServedUntilTerminate(clients, 0, rounds[r]);
    k :| 0 <= k < |clients| && clients[k] == open.connections[fd];
  }

  /** Whatever is in the turn of a polled connection is in the events of the loop, at some position. */
  lemma TurnIsInLoop(t: Table, rounds: seq<Round>, n: nat, r: nat, fd: int, e: Event) returns (q: nat)
    requires AllWellBehaved(rounds) && TableOk(t) && r < n <= |rounds| && IsPolled(t, rounds, r, fd)
    requires e in EventsOfClient(Accepting(TableAt(t, rounds, r), rounds[r]).connections[fd], rounds[r])
    ensures q < |RoundsUpTo(t, rounds, n)| && RoundsUpTo(t, rounds, n)[q] == e
  {
    var round := rounds[r];
    var clients := Clients(Accepting(TableAt(t, rounds, r), round), round);
    var k := PolledIsServed(t, rounds, r, fd);
    TurnsInOrder(clients, ServedCount(clients, round), round, k);
    RoundsInOrder(t, rounds, n, r);
    var own := EventsOfClient(clients[k], round);
    var j :| 0 <= j < |own| && own[j] == e;
    q := PositionInRun(RoundsUpTo(t, rounds, r), Accepts(TableAt(t, rounds, r), round), EventsUpTo(clients, k, round),
                       own, j, Batch(clients, round), RoundsUpTo(t, rounds, n));
  }

  lemma PositionInRun(before: seq<Event>, accepts: seq<Event>, inBatch: seq<Event>, own: seq<Event>, j: nat,
                      batch: seq<Event>, whole: seq<Event>) returns (q: nat)
    requires j < |own| && inBatch + own <= batch && before + (accepts + batch) <= whole
    ensures q < |whole| && whole[q] == own[j]
  {
    PositionBehind(inBatch, own, j, batch);
    PositionInEnd(accepts, batch, |inBatch| + j);
    q := |before| + (|accepts| + (|inBatch| + j));
    PositionBehind(before, accepts + batch, |accepts| + (|inBatch| + j), whole);
  }

  lemma PositionBehind(before: seq<Event>, part: seq<Event>, j: nat, whole: seq<Event>)
    requires before + part <= whole && j < |part|
    ensures |before| + j < |whole| && whole[|before| + j] == part[j]
  {
    assert (before + part)[|before| + j] == part[j];
  }

  lemma PositionInEnd(before: seq<Event>, part: seq<Event>, j: nat)
    requires j < |part|
    ensures |before| + j < |before + part| && (before + part)[|before| + j] == part[j]
  {
  }

  /** Every request of a polled connection reaches the database: the loop has an event with what its sender means, and
      behind the event the database is as that operation leaves it. */
  lemma RequestIsHandled(s: LoopState, t: Table, rounds: seq<Round>, n: nat, r: nat, fd: int, m: Message) returns (q: nat)
    requires AllWellBehaved(rounds) && TableOk(t) && r < n <= |rounds| && IsPolled(t, rounds, r, fd)
    requires IsCall(m) && rounds[r].incoming(fd) == Received(Encode(m))
    ensures var h := Accepting(TableAt(t, rounds, r), rounds[r]).connections[fd].handle;
      var events := RoundsUpTo(t, rounds, n);
      && q < |events| && events[q] == Requested(h, Meaning(m, h))
      && Turns(s, events[..q + 1]).db == Step(Turns(s, events[..q]).db, Meaning(m, h)).0
  {
    TableStaysOk(t, rounds, r);
    AcceptedExactly(TableAt(t, rounds, r), rounds[r]);
    var h := Accepting(TableAt(t, rounds, r), rounds[r]).connections[fd].handle;
    RequestEvents(m, h, rounds[r].outgoing(fd));
    q := TurnIsInLoop(t, rounds, n, r, fd, Requested(h, Meaning(m, h)));
    EventEffect(s, RoundsUpTo(t, rounds, n), q);
  }

  /** Every polled connection whose peer has closed it is forgotten, everywhere. */
  lemma ClosedIsForgotten(s: LoopState, t: Table, rounds: seq<Round>, n: nat, r: nat, fd: int) returns (q: nat)
    requires AllWellBehaved(rounds) && TableOk(t) && r < n <= |rounds| && IsPolled(t, rounds, r, fd)
    requires rounds[r].incoming(fd).PeerClosed?
    ensures var h := Accepting(TableAt(t, rounds, r), rounds[r]).connections[fd].handle;
      var events := RoundsUpTo(t, rounds, n);
      && q < |events| && events[q] == Closed(h)
      && Turns(s, events[..q + 1]).db == Remove(Turns(s, events[..q]).db, h)
      && h !in Turns(s, events[..q + 1]).live
  {
    TableStaysOk(t, rounds, r);
    AcceptedExactly(TableAt(t, rounds, r), rounds[r]);
    var h := Accepting(TableAt(t, rounds, r), rounds[r]).connections[fd].handle;
    OtherEvents(h, [], rounds[r].outgoing(fd));
    q := TurnIsInLoop(t, rounds, n, r, fd, Closed(h));
    EventEffect(s, RoundsUpTo(t, rounds, n), q);
  }

  /** A connection that is offered is accepted in its round, and polled in it if it is ready. */
  lemma OfferIsAccepted(t: Table, rounds: seq<Round>, n: nat, r: nat)
    requires AllWellBehaved(rounds) && TableOk(t) && r < n <= |rounds|
    requires Accepts(TableAt(t, rounds, r), rounds[r]) != []
    ensures rounds[r].accepted.Some?
    ensures var q, events := |RoundsUpTo(t, rounds, r)|, RoundsUpTo(t, rounds, n);
      q < |events| && events[q] == Accepted(rounds[r].accepted.value.handle)
    ensures rounds[r].accepted.value in Clients(Accepting(TableAt(t, rounds, r), rounds[r]), rounds[r])
       <==> rounds[r].accepted.value.fd in rounds[r].ready
  {
    TableStaysOk(t, rounds, r);
    AcceptedExactly(TableAt(t, rounds, r), rounds[r]);
    PolledExactly(Accepting(TableAt(t, rounds, r), rounds[r]), rounds[r]);
    RoundsInOrder(t, rounds, n, r);
    assert EventsIn(t, rounds, r)[0] == Accepted(rounds[r].accepted.value.handle);
    PositionBehind(RoundsUpTo(t, rounds, r), EventsIn(t, rounds, r), 0, RoundsUpTo(t, rounds, n));
  }

  /** A round is the last one exactly when a polled client asks to terminate. */
  lemma {:induction false} HaltsExactly(clients: seq<TcpSocket>, round: Round)
    ensures Halts(clients, round) <==> exists k :: 0 <= k < |clients| && IsTerminate(round.incoming(clients[k].fd))
  {
    ServedUntilTerminate(clients, 0, round);
  }

  /** The loop has gone through rounds without a terminate request, and ends with the first that has one. */
  lemma {:induction false} StopsAtTerminate(t: Table, rounds: seq<Round>, n: nat, running: bool)
    requires n <= |rounds| && LoopedTo(t, rounds, n, running)
    ensures forall k :: 0 <= k < n - 1 ==> !HaltsIn(t, rounds, k)
    ensures running <==> n == 0 || !HaltsIn(t, rounds, n - 1)
  {
    NoneHalts(t, rounds, if running then n else n - 1);
  }

  predicate HaltsIn(t: Table, rounds: seq<Round>, k: nat)
    requires k < |rounds|
  {
    RoundHalts(TableAt(t, rounds, k), rounds[k])
  }

  lemma {:induction false} NoneHalts(t: Table, rounds: seq<Round>, n: nat)
    requires n <= |rounds| && NoHaltBefore(t, rounds, n)
    ensures forall k :: 0 <= k < n ==> !HaltsIn(t, rounds, k)
  {
    if n > 0 {
      NoneHalts(t, rounds, n - 1);
      assert !HaltsIn(t, rounds, n - 1);
    }
  }

  /** When the loop has gone through n rounds, connections and database are as its events leave them, and every polled
      client has the response that belongs to it, in the state that the clients before it have left. */
  lemma EveryClientAnswered(s: LoopState, t: Table, rounds: seq<Round>, n: nat, now: LoopState, table: Table,
                            responses: seq<seq<Option<Bytes>>>, running: bool, r: nat, fd: int)
      returns (k: nat)
    requires AllWellBehaved(rounds) && TableOk(t) && r < n <= |rounds| && IsPolled(t, rounds, r, fd)
    requires LoopedSoFar(s, t, rounds, n, now, table, responses, running)
    ensures now == Turns(s, RoundsUpTo(t, rounds, n)) && |responses| == n && k < |responses[r]|
    ensures var open := Accepting(TableAt(t, rounds, r), rounds[r]);
      var clients := Clients(open, rounds[r]);
      && k < |clients| && clients[k] == open.connections[fd]
      && HasResponse(StateBefore(s, t, rounds, r, k).db, clients[k], rounds[r], responses[r][k])
  {
    k := PolledIsServed(t, rounds, r, fd);
    assert RespondsIn(s, t, rounds, r, responses[r]);
    assert ClientAnswered(Turns(Turns(s, RoundsUpTo(t, rounds, r)), Accepts(TableAt(t, rounds, r), rounds[r])),
                          Clients(Accepting(TableAt(t, rounds, r), rounds[r]), rounds[r]), rounds[r], k, responses[r][k]);
  }

  /** The state in which client k of round r is served. */
  ghost function StateBefore(s: LoopState, t: Table, rounds: seq<Round>, r: nat, k: nat): LoopState
    requires AllWellBehaved(rounds) && r < |rounds|
    requires k <= |Clients(Accepting(TableAt(t, rounds, r), rounds[r]), rounds[r])|
  {
    var table, round := TableAt(t, rounds, r), rounds[r];
    Turns(Turns(Turns(s, RoundsUpTo(t, rounds, r)), Accepts(table, round)),
          EventsUpTo(Clients(Accepting(table, round), round), k, round))
  }
}
