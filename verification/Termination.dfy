/** Distributed termination: client, binder and any number of servers (rpc.cc, binder.cc, libserver.cc).
    Every sequence of actions is a run; an action that is not enabled leaves the state alone. */
module Termination {
  import opened Wire
  import opened BinderDb
  import opened Messages
  import opened Serializers
  import opened BinderDatabases
  import Threads

  /** A server process and the two directions of its connection to the binder. */
  datatype Node = Node(threads: Threads.State, toServer: seq<Bytes>, toBinder: seq<Bytes>)

  /** Where the binder is: in its loop, in the loop of handleTerminate, or done. */
  datatype Phase =
    | Looping
    | Asking(todo: seq<Handle>, failure: Option<int>)
    | Awaiting(server: Handle, todo: seq<Handle>, failure: Option<int>)
    | Halted

  /** `asked` remembers the sockets in the binder's table at the moment it handled the request;
      `result` is what rpcTerminate has returned to the client. */
  datatype System = System(
    nodes: seq<Node>,
    db: Db,
    phase: Phase,
    asked: set<Handle>,
    toClient: seq<Bytes>,
    result: Option<int>)

  datatype Action =
    | ServerStep(h: Handle, l: Threads.Label)
    | ServerSends(h: Handle, buffer: Bytes)
    | BinderServes(op: Op)
    | HandleTerminate(order: seq<Handle>)
    | Ask(delivered: bool)
    | Hear(received: bool)
    | Conclude
    | ClientHears

  function Start(n: nat): System {
    System(seq(n, _ => Node(Threads.INITIAL, [], [])), EMPTY, Looping, {}, [], None)
  }

  function Sockets(stamps: map<Addr, Stamp>): set<Handle> {
    set a <- stamps :: stamps[a].socket
  }

  predicate IsType(buffer: Bytes, kind: StatusKind) {
    buffer != [] && buffer[0] == StatusType(kind)
  }

  /** What rpcTerminate makes of the binder's answer. */
  function TerminateResult(buffer: Bytes): int {
    if IsType(buffer, TerminateSuccess) then 0
    else if IsType(buffer, TerminateFailure) && |buffer| >= 2 then ByteStatus(buffer[1])
    else UNEXPECTED_MESSAGE
  }

  method RpcTerminate(connected: bool, answer: Answer) returns (status: int)
    requires answer.Answered? && IsType(answer.buffer, TerminateFailure) ==> |answer.buffer| >= 2
    ensures !connected || answer.Broken? ==> status == -1002
    ensures connected && answer.Answered? ==> status == TerminateResult(answer.buffer)
    ensures connected && answer.Answered? ==>
      if IsType(answer.buffer, TerminateSuccess) then status == 0
      else if IsType(answer.buffer, TerminateFailure) then -128 <= status <= 127 && (answer.buffer[1] - status) % 256 == 0
      else status == -1003
  {
    if !connected {
      return BINDER_CONNECTION_ERROR;
    }
    match answer
    case Broken => return BINDER_CONNECTION_ERROR;
    case Answered(buffer) =>
      if buffer != [] && buffer[0] == StatusType(TerminateSuccess) {
        return 0;
      }
      if buffer != [] && buffer[0] == StatusType(TerminateFailure) {
        status := DeserializeStatus(buffer);
        return;
      }
      return UNEXPECTED_MESSAGE;
  }

  /** A step of a server thread. The binder listener takes what the binder sent, or notices a lost connection;
      `serve` sends its answer when it leaves the state Sending. */
  function StepNode(n: Node, l: Threads.Label): Node {
    var threads := Threads.Apply(n.threads, l);
    match l
    case BinderStep(_) =>
      if n.threads.binder == Threads.Receiving && n.toServer != []
      then n.(threads := Threads.Apply(n.threads, Threads.BinderStep(IsType(n.toServer[0], Terminate))), toServer := n.toServer[1..])
      else n.(threads := threads)
    case MainStep =>
      if n.threads.main == Threads.Sending
      then n.(threads := threads, toBinder := n.toBinder + [Encode(Status(TerminateSuccess, 0))])
      else n.(threads := threads)
    case _ => n.(threads := threads)
  }

  function Apply(g: System, action: Action): System {
    match action
    case ServerStep(h, l) => if h < |g.nodes| then g.(nodes := g.nodes[h := StepNode(g.nodes[h], l)]) else g
    case ServerSends(h, buffer) =>
      // Register requests and the like: only `serve` sends terminate answers.
      if h < |g.nodes| && !IsType(buffer, TerminateSuccess)
      then g.(nodes := g.nodes[h := g.nodes[h].(toBinder := g.nodes[h].toBinder + [buffer])])
      else g
    case BinderServes(op) => if g.phase == Looping then g.(db := Step(g.db, op).0) else g
    case HandleTerminate(order) =>
      if g.phase == Looping && (set h <- order) == Sockets(g.db.stamps)
      then g.(phase := Asking(order, None), asked := Sockets(g.db.stamps))
      else g
    case Ask(delivered) => StepAsk(g, delivered)
    case Hear(received) => StepHear(g, received)
    case Conclude =>
      if g.phase.Asking? && g.phase.todo == []
      then g.(phase := Halted,
              toClient := g.toClient + [Encode(match g.phase.failure
                                               case None => Status(TerminateSuccess, 0)
                                               case Some(status) => Status(TerminateFailure, status))])
      else g
    case ClientHears =>
      if g.result == None && g.toClient != [] then g.(result := Some(TerminateResult(g.toClient[0])), toClient := g.toClient[1..])
      else g
  }

  function StepAsk(g: System, delivered: bool): System {
    if !g.phase.Asking? || g.phase.todo == [] then g
    else
      var h, rest := g.phase.todo[0], g.phase.todo[1..];
      if delivered && h < |g.nodes| then
        g.(nodes := g.nodes[h := g.nodes[h].(toServer := g.nodes[h].toServer + [Encode(Status(Terminate, 0))])],
           phase := Awaiting(h, rest, g.phase.failure))
      else g.(phase := Asking(rest, Some(SERVER_CONNECTION_ERROR)))
  }

  function StepHear(g: System, received: bool): System {
    if !g.phase.Awaiting? then g
    else
      var h := g.phase.server;
      if !received || h >= |g.nodes| then g.(phase := Asking(g.phase.todo, Some(SERVER_CONNECTION_ERROR)))
      else if g.nodes[h].toBinder == [] then g
      else
        var buffer := g.nodes[h].toBinder[0];
        g.(nodes := g.nodes[h := g.nodes[h].(toBinder := g.nodes[h].toBinder[1..])],
           phase := Asking(g.phase.todo,
                           if IsType(buffer, TerminateSuccess) then g.phase.failure else Some(UNEXPECTED_MESSAGE)))
  }

  // ------------------------------------------------- what the client is told

  /** What the client makes of the verdict on the servers' answers: success when all agreed, and otherwise the status of
      the last one that did not, 20 for a broken connection and 21 for an unexpected message. */
  lemma VerdictStatus(stamps: map<Addr, Stamp>, answer: (Addr, Handle) --> Answer, response: Bytes)
    requires AnswersFor(stamps, answer) && IsVerdict(stamps, answer, response)
    ensures TerminateResult(response) in {0, 20, 21}
    ensures TerminateResult(response) == 0 <==> forall a <- stamps :: Agrees(AnswerOf(stamps, answer, a))
    ensures TerminateResult(response) == 20 <==>
      exists a :: IsLastObjector(stamps, answer, a) && AnswerOf(stamps, answer, a).Broken?
    ensures TerminateResult(response) == 21 <==>
      exists a :: IsLastObjector(stamps, answer, a) && AnswerOf(stamps, answer, a).Answered?
  {
    if forall a <- stamps :: Agrees(AnswerOf(stamps, answer, a)) {
    } else {
      var a :| IsLastObjector(stamps, answer, a) && response == Complaint(AnswerOf(stamps, answer, a));
      ComplaintStatus(AnswerOf(stamps, answer, a));
      forall b | IsLastObjector(stamps, answer, b) ensures a == b {
        OneLastObjector(stamps, answer, a, b);
      }
    }
  }

  lemma ComplaintStatus(given: Answer)
    ensures TerminateResult(Complaint(given)) == if given.Broken? then 20 else 21
  {
    WideStatusesAreLost();
  }

  lemma OneLastObjector(stamps: map<Addr, Stamp>, answer: (Addr, Handle) --> Answer, a: Addr, b: Addr)
    requires AnswersFor(stamps, answer) && IsLastObjector(stamps, answer, a) && IsLastObjector(stamps, answer, b)
    ensures a == b
  {
    AddrOrder(a, b);
  }

  /** The failure noted after one more answer. */
  function Noted(failure: Option<int>, answer: Answer): Option<int> {
    if Agrees(answer) then failure
    else Some(if answer.Broken? then SERVER_CONNECTION_ERROR else UNEXPECTED_MESSAGE)
  }

  function NotedAll(answers: seq<Answer>): Option<int> {
    if answers == [] then None else Noted(NotedAll(answers[..|answers| - 1]), answers[|answers| - 1])
  }

  /** The message that ends the handling of the request. */
  function Conclusion(failure: Option<int>): Message {
    match failure
    case None => Status(TerminateSuccess, 0)
    case Some(status) => Status(TerminateFailure, status)
  }

  /** Each way of asking one server notes its answer: not delivered, nothing received, or a message. */
  lemma OneServerAsked(g: System)
    requires g.phase.Asking? && g.phase.todo != [] && g.phase.todo[0] < |g.nodes|
    ensures var h, rest, failure := g.phase.todo[0], g.phase.todo[1..], g.phase.failure;
      && StepAsk(g, false).phase == Asking(rest, Noted(failure, Broken))
      && StepHear(StepAsk(g, true), false).phase == Asking(rest, Noted(failure, Broken))
      && (g.nodes[h].toBinder != [] ==>
            StepHear(StepAsk(g, true), true).phase == Asking(rest, Noted(failure, Answered(g.nodes[h].toBinder[0]))))
      && (g.nodes[h].toBinder == [] ==> StepHear(StepAsk(g, true), true) == StepAsk(g, true))
  {
  }

  lemma RequestConcluded(g: System)
    requires g.phase.Asking? && g.phase.todo == []
    ensures Apply(g, Conclude).toClient == g.toClient + [Encode(Conclusion(g.phase.failure))]
  {
  }

  /** No answer behind position j is an objection. */
  predicate LastObjection(answers: seq<Answer>, j: int) {
    0 <= j < |answers| && !Agrees(answers[j]) && forall k :: j < k < |answers| ==> Agrees(answers[k])
  }

  lemma {:induction false} NotesTheLast(answers: seq<Answer>) returns (j: int)
    ensures if forall k :: 0 <= k < |answers| ==> Agrees(answers[k]) then NotedAll(answers) == None
            else LastObjection(answers, j) && NotedAll(answers) == Noted(None, answers[j])
  {
    j := |answers| - 1;
    if answers != [] && Agrees(answers[j]) {
      j := NotesTheLast(answers[..j]);
    }
  }

  /** Addresses in the order of the table. */
  ghost predicate TableOrder(order: seq<Addr>, stamps: map<Addr, Stamp>) {
    && (forall a :: a in order <==> a in stamps)
    && forall i, j :: 0 <= i < j < |order| ==> AddrBefore(order[i], order[j])
  }

  ghost function AnswersInOrder(stamps: map<Addr, Stamp>, answer: (Addr, Handle) --> Answer, order: seq<Addr>): (answers: seq<Answer>)
    requires AnswersFor(stamps, answer) && TableOrder(order, stamps)
    ensures |answers| == |order| && forall i :: 0 <= i < |order| ==> answers[i] == AnswerOf(stamps, answer, order[i])
  {
    seq(|order|, i requires 0 <= i < |order| => AnswerOf(stamps, answer, order[i]))
  }

  /** The loop of handleTerminate and the steps of the handshake come to the same: asking the servers in the order of
      the table, one by one, ends with the message that handleTerminate returns. */
  lemma VerdictIsConclusion(stamps: map<Addr, Stamp>, answer: (Addr, Handle) --> Answer, order: seq<Addr>, response: Bytes)
    requires AnswersFor(stamps, answer) && TableOrder(order, stamps) && IsVerdict(stamps, answer, response)
    ensures response == Encode(Conclusion(NotedAll(AnswersInOrder(stamps, answer, order))))
  {
    var answers := AnswersInOrder(stamps, answer, order);
    var j := NotesTheLast(answers);
    if forall k :: 0 <= k < |answers| ==> Agrees(answers[k]) {
      forall a <- stamps ensures Agrees(AnswerOf(stamps, answer, a)) {
        var i :| 0 <= i < |order| && order[i] == a;
        assert Agrees(answers[i]);
      }
    } else {
      LastInOrder(stamps, answer, order, j);
      var a :| IsLastObjector(stamps, answer, a) && response == Complaint(AnswerOf(stamps, answer, a));
      OneLastObjector(stamps, answer, a, order[j]);
      assert response == Complaint(answers[j]);
    }
  }

  lemma LastInOrder(stamps: map<Addr, Stamp>, answer: (Addr, Handle) --> Answer, order: seq<Addr>, j: int)
    requires AnswersFor(stamps, answer) && TableOrder(order, stamps)
    requires LastObjection(AnswersInOrder(stamps, answer, order), j)
    ensures IsLastObjector(stamps, answer, order[j])
  {
    var answers := AnswersInOrder(stamps, answer, order);
    assert order[j] in order;
    forall b <- stamps | AddrBefore(order[j], b) ensures Agrees(AnswerOf(stamps, answer, b)) {
      var i :| 0 <= i < |order| && order[i] == b;
      BehindInOrder(order, stamps, i, j);
      assert Agrees(answers[i]);
    }
  }

  lemma BehindInOrder(order: seq<Addr>, stamps: map<Addr, Stamp>, i: nat, j: nat)
    requires TableOrder(order, stamps) && i < |order| && j < |order| && AddrBefore(order[j], order[i])
    ensures j < i
  {
    NotBothBefore(order[j], order[i]);
  }

  function Exec(g: System, actions: seq<Action>): System {
    if actions == [] then g else Apply(Exec(g, actions[..|actions| - 1]), actions[|actions| - 1])
  }

  // -------------------------------------------------------------- invariant

  /** The server behind the socket has gone through its drain gate. */
  predicate Passed(g: System, h: Handle) {
    h < |g.nodes| && Threads.PastGate(g.nodes[h].threads)
  }

  predicate NodeOk(n: Node) {
    (exists b <- n.toBinder :: IsType(b, TerminateSuccess)) ==> Threads.PastGate(n.threads)
  }

  ghost predicate NodesOk(g: System) {
    forall h :: 0 <= h < |g.nodes| ==> NodeOk(g.nodes[h]) && Threads.Inv(g.nodes[h].threads)
  }

  predicate FailureOk(failure: Option<int>) {
    failure.Some? ==> failure.value in {SERVER_CONNECTION_ERROR, UNEXPECTED_MESSAGE}
  }

  ghost predicate AskedOk(g: System) {
    match g.phase
    case Looping => g.toClient == [] && g.result == None
    case Asking(todo, failure) =>
      g.toClient == [] && g.result == None && FailureOk(failure) &&
      (failure == None ==> forall h <- g.asked :: h in todo || Passed(g, h))
    case Awaiting(server, todo, failure) =>
      g.toClient == [] && g.result == None && FailureOk(failure) &&
      (failure == None ==> forall h <- g.asked :: h == server || h in todo || Passed(g, h))
    case Halted =>
      (g.result == Some(0) || exists b <- g.toClient :: TerminateResult(b) == 0) ==> forall h <- g.asked :: Passed(g, h)
  }

  ghost predicate Inv(g: System) {
    NodesOk(g) && AskedOk(g)
  }

  lemma NodeStepOk(n: Node, l: Threads.Label)
    requires NodeOk(n) && Threads.Inv(n.threads)
    ensures NodeOk(StepNode(n, l)) && Threads.Inv(StepNode(n, l).threads)
    ensures Threads.PastGate(n.threads) ==> Threads.PastGate(StepNode(n, l).threads)
    ensures Threads.PastGate(StepNode(n, l).threads) && !Threads.PastGate(n.threads) ==>
      l == Threads.MainStep && n.threads.main == Threads.ReadTotal && Threads.Drained(n.threads)
  {
    var taken := if l.BinderStep? && n.threads.binder == Threads.Receiving && n.toServer != []
                 then Threads.BinderStep(IsType(n.toServer[0], Terminate)) else l;
    Threads.StepKeepsInv(n.threads, taken);
    Threads.GateIsOneWay(n.threads, taken);
    if n.threads.main == Threads.ReadTotal {
      Threads.GateOpensWhenDrained(n.threads);
    }
  }

  /** Replacing one node by one that keeps the promises keeps them for the system. */
  lemma NodeReplaced(g: System, h: Handle, n: Node)
    requires NodesOk(g) && h < |g.nodes| && NodeOk(n) && Threads.Inv(n.threads)
    requires Threads.PastGate(g.nodes[h].threads) ==> Threads.PastGate(n.threads)
    ensures NodesOk(g.(nodes := g.nodes[h := n]))
    ensures forall k :: Passed(g, k) ==> Passed(g.(nodes := g.nodes[h := n]), k)
  {
  }

  /** The failure codes arrive as something else than success. */
  lemma FailuresAreNotSuccess(status: int)
    requires status == SERVER_CONNECTION_ERROR || status == UNEXPECTED_MESSAGE
    ensures status == -1004 ==> TerminateResult(Encode(Status(TerminateFailure, status))) == 20
    ensures status == -1003 ==> TerminateResult(Encode(Status(TerminateFailure, status))) == 21
    ensures status in {-1003, -1004}
    ensures TerminateResult(Encode(Status(TerminateSuccess, 0))) == 0
  {
    WideStatusesAreLost();
  }

  lemma ServerActionKeeps(g: System, h: Handle, n: Node)
    requires Inv(g) && h < |g.nodes| && NodeOk(n) && Threads.Inv(n.threads)
    requires Threads.PastGate(g.nodes[h].threads) ==> Threads.PastGate(n.threads)
    ensures Inv(g.(nodes := g.nodes[h := n]))
  {
    NodeReplaced(g, h, n);
  }

  lemma AskKeeps(g: System, delivered: bool)
    requires Inv(g)
    ensures Inv(StepAsk(g, delivered))
  {
    if g.phase.Asking? && g.phase.todo != [] {
      var h, rest := g.phase.todo[0], g.phase.todo[1..];
      assert g.phase.todo == [h] + rest;
      if delivered && h < |g.nodes| {
        NodeReplaced(g, h, g.nodes[h].(toServer := g.nodes[h].toServer + [Encode(Status(Terminate, 0))]));
      }
    }
  }

  lemma HearKeeps(g: System, received: bool)
    requires Inv(g)
    ensures Inv(StepHear(g, received))
  {
    if g.phase.Awaiting? && received && g.phase.server < |g.nodes| && g.nodes[g.phase.server].toBinder != [] {
      var h := g.phase.server;
      var n := g.nodes[h];
      var m := n.(toBinder := n.toBinder[1..]);
      assert n.toBinder[0] in n.toBinder && forall b <- m.toBinder :: b in n.toBinder;
      NodeReplaced(g, h, m);
    }
  }

  lemma ConcludeKeeps(g: System)
    requires Inv(g)
    ensures Inv(Apply(g, Conclude))
  {
    FailuresAreNotSuccess(SERVER_CONNECTION_ERROR);
    FailuresAreNotSuccess(UNEXPECTED_MESSAGE);
  }

  lemma StepKeeps(g: System, action: Action)
    requires Inv(g)
    ensures Inv(Apply(g, action))
  {
    match action
    case ServerStep(h, l) =>
      if h < |g.nodes| {
        NodeStepOk(g.nodes[h], l);
        ServerActionKeeps(g, h, StepNode(g.nodes[h], l));
      }
    case ServerSends(h, buffer) =>
      if h < |g.nodes| && !IsType(buffer, TerminateSuccess) {
        ServerActionKeeps(g, h, g.nodes[h].(toBinder := g.nodes[h].toBinder + [buffer]));
      }
    case Ask(delivered) => AskKeeps(g, delivered);
    case Hear(received) => HearKeeps(g, received);
    case Conclude => ConcludeKeeps(g);
    case _ =>
  }

  lemma {:induction false} AlwaysInv(n: nat, actions: seq<Action>)
    ensures Inv(Exec(Start(n), actions)) && |Exec(Start(n), actions).nodes| == n
  {
    if actions == [] {
      Threads.ReachableInv([]);
    } else {
      var k := |actions| - 1;
      AlwaysInv(n, actions[..k]);
      StepKeeps(Exec(Start(n), actions[..k]), actions[k]);
    }
  }

  /** Action k of the run is server h going through its drain gate, and the server is drained at that moment. */
  ghost predicate WentThroughGate(n: nat, actions: seq<Action>, k: nat, h: Handle)
    requires k < |actions|
  {
    var before := Exec(Start(n), actions[..k]);
    && actions[k] == ServerStep(h, Threads.MainStep)
    && h < |before.nodes|
    && before.nodes[h].threads.main == Threads.ReadTotal
    && Threads.Drained(before.nodes[h].threads)
  }

  lemma OnlyServerStepsPass(g: System, action: Action, h: Handle)
    requires Inv(g) && Passed(Apply(g, action), h) && !Passed(g, h)
    ensures action == ServerStep(h, Threads.MainStep) && h < |g.nodes|
    ensures g.nodes[h].threads.main == Threads.ReadTotal && Threads.Drained(g.nodes[h].threads)
  {
    if action.ServerStep? && action.h < |g.nodes| {
      NodeStepOk(g.nodes[action.h], action.l);
    }
  }

  lemma {:induction false} PassedThroughGate(n: nat, actions: seq<Action>, h: Handle)
    requires Passed(Exec(Start(n), actions), h)
    ensures exists k :: 0 <= k < |actions| && WentThroughGate(n, actions, k, h)
  {
    if actions != [] {
      var k := |actions| - 1;
      var g := Exec(Start(n), actions[..k]);
      AlwaysInv(n, actions[..k]);
      if Passed(g, h) {
        PassedThroughGate(n, actions[..k], h);
        var j :| 0 <= j < k && WentThroughGate(n, actions[..k], j, h);
        assert actions[..k][..j] == actions[..j];
        assert WentThroughGate(n, actions, j, h);
      } else {
        OnlyServerStepsPass(g, actions[k], h);
        assert WentThroughGate(n, actions, k, h);
      }
    }
  }

  /** Action k took up the terminate request: what is asked is the binder's table at that moment. */
  ghost predicate TookUp(n: nat, actions: seq<Action>, k: nat)
    requires k < |actions|
  {
    actions[k].HandleTerminate? && Exec(Start(n), actions).asked == Sockets(Exec(Start(n), actions[..k]).db.stamps)
  }

  lemma {:induction false} AskedIsTheTable(n: nat, actions: seq<Action>)
    requires Exec(Start(n), actions).phase != Looping
    ensures exists k :: 0 <= k < |actions| && TookUp(n, actions, k)
  {
    if actions != [] {
      var k := |actions| - 1;
      if Exec(Start(n), actions[..k]).phase != Looping {
        AskedIsTheTable(n, actions[..k]);
        var j :| 0 <= j < k && TookUp(n, actions[..k], j);
        assert actions[..k][..j] == actions[..j];
        assert TookUp(n, actions, j);
      } else {
        assert TookUp(n, actions, k);
      }
    }
  }

  /** If rpcTerminate returns success in any run of any number of servers, then for the table the binder had when
      it handled the request, every server in it had gone through its drain gate, drained at that moment. */
  lemma TerminationSafety(n: nat, actions: seq<Action>)
    requires Exec(Start(n), actions).result == Some(0)
    ensures exists j :: 0 <= j < |actions| && TerminatedFrom(n, actions, j)
  {
    AlwaysInv(n, actions);
    var g := Exec(Start(n), actions);
    AskedIsTheTable(n, actions);
    var j :| 0 <= j < |actions| && TookUp(n, actions, j);
    forall a <- Exec(Start(n), actions[..j]).db.stamps
      ensures exists k :: 0 <= k < |actions| && WentThroughGate(n, actions, k, Exec(Start(n), actions[..j]).db.stamps[a].socket)
    {
      var h := Exec(Start(n), actions[..j]).db.stamps[a].socket;
      assert h in g.asked;
      PassedThroughGate(n, actions, h);
    }
    assert TerminatedFrom(n, actions, j);
  }

  /** The request was taken up by action j, and every server then in the table goes through its gate in the run. */
  ghost predicate TerminatedFrom(n: nat, actions: seq<Action>, j: nat)
    requires j < |actions|
  {
    && actions[j].HandleTerminate?
    && var stamps := Exec(Start(n), actions[..j]).db.stamps;
       forall a <- stamps :: exists k :: 0 <= k < |actions| && WentThroughGate(n, actions, k, stamps[a].socket)
  }
}
