/** The server's threads and its termination gate (libserver.cc): a step system in which any thread may
    move next. A label names the thread and resolves what the environment decides; a label whose thread
    cannot move leaves the state alone, so every sequence of labels is a run and every run is one. */
module Threads {
  import opened Wire

  datatype Tid = MainThread | BinderThread | ListenThread | ClientThread(i: nat)

  /** Where a thread is inside inc_threads: the addition is a load and a separate store under the mutex. */
  datatype Inc = Lock | Load | Store(loaded: int) | Unlock | Returned

  datatype MainPc =
    | Starting(inc: Inc)
    | CreatingBinder
    | CreatingListener
    | ReadFlag
    | ReadTotal
    | Cancelling
    | Joining
    | Sending
    | Finished

  datatype BinderPc = BinderUnborn | Receiving | SettingFlag | BinderLeaving(inc: Inc)

  datatype ListenPc = ListenUnborn | Polling | Announcing(inc: Inc) | Spawning | Cancelled

  datatype ClientPc = Serving | Leaving(inc: Inc)

  datatype State = State(
    total: int,
    owner: Option<Tid>,
    terminating: bool,
    main: MainPc,
    binder: BinderPc,
    listener: ListenPc,
    clients: seq<ClientPc>,
    cancelRequested: bool)

  const INITIAL := State(0, None, false, Starting(Lock), BinderUnborn, ListenUnborn, [], false)

  datatype Label =
    | MainStep
    | BinderStep(terminate: bool)   // a terminate message or a lost connection arrives
    | ListenStep(hasClient: bool)   // a connection with data is found
    | ClientStep(i: nat, done: bool) // the client hangs up or cannot be answered

  // ----------------------------------------------------------------- steps

  /** One step of inc_threads(val) by the thread: the new state of counter and mutex, and where it then is. */
  function IncStep(s: State, tid: Tid, val: int, inc: Inc): (State, Inc) {
    match inc
    case Lock => if s.owner == None then (s.(owner := Some(tid)), Load) else (s, Lock)
    case Load => (s, Store(s.total))
    case Store(loaded) => (s.(total := loaded + val), Unlock)
    case Unlock => (s.(owner := None), Returned)
    case Returned => (s, Returned)
  }

  function StepMain(s: State): State {
    match s.main
    case Starting(inc) =>
      if inc == Returned then s.(main := CreatingBinder)
      else var (t, next) := IncStep(s, MainThread, 2, inc); t.(main := Starting(next))
    case CreatingBinder => s.(binder := Receiving, main := CreatingListener)
    case CreatingListener => s.(listener := Polling, main := ReadFlag)
    case ReadFlag => if s.terminating then s.(main := ReadTotal) else s
    case ReadTotal => s.(main := if s.total > 1 then ReadFlag else Cancelling)
    case Cancelling => s.(cancelRequested := true, main := Joining)
    case Joining => if s.listener == Cancelled then s.(main := Sending) else s
    case Sending => s.(main := Finished)
    case Finished => s
  }

  function StepBinder(s: State, terminate: bool): State {
    match s.binder
    case BinderUnborn => s
    case Receiving => if terminate then s.(binder := SettingFlag) else s
    case SettingFlag => s.(terminating := true, binder := BinderLeaving(Lock))
    case BinderLeaving(inc) => var (t, next) := IncStep(s, BinderThread, -1, inc); t.(binder := BinderLeaving(next))
  }

  /** A cancellation request takes effect where the thread waits for connections. */
  function StepListener(s: State, hasClient: bool): State {
    match s.listener
    case ListenUnborn => s
    case Polling =>
      if s.cancelRequested && !hasClient then s.(listener := Cancelled)
      else if hasClient then s.(listener := Announcing(Lock))
      else s
    case Announcing(inc) =>
      if inc == Returned then s.(listener := Spawning)
      else var (t, next) := IncStep(s, ListenThread, 1, inc); t.(listener := Announcing(next))
    case Spawning => s.(clients := s.clients + [Serving], listener := Polling)
    case Cancelled => s
  }

  function StepClient(s: State, i: nat, done: bool): State {
    if i >= |s.clients| then s
    else
      match s.clients[i]
      case Serving => if done then s.(clients := s.clients[i := Leaving(Lock)]) else s
      case Leaving(inc) =>
        var (t, next) := IncStep(s, ClientThread(i), -1, inc);
        t.(clients := t.clients[i := Leaving(next)])
  }

  function Apply(s: State, l: Label): State {
    match l
    case MainStep => StepMain(s)
    case BinderStep(terminate) => StepBinder(s, terminate)
    case ListenStep(hasClient) => StepListener(s, hasClient)
    case ClientStep(i, done) => StepClient(s, i, done)
  }

  function Exec(s: State, labels: seq<Label>): State {
    if labels == [] then s else Apply(Exec(s, labels[..|labels| - 1]), labels[|labels| - 1])
  }

  // ------------------------------------------------------------- invariants

  predicate Stored(inc: Inc) { inc == Unlock || inc == Returned }

  predicate Inside(inc: Inc) { inc == Load || inc.Store? || inc == Unlock }

  /** What each thread has contributed to the counter. */
  function MainShare(s: State): int {
    if s.main.Starting? && !Stored(s.main.inc) then 0 else 2
  }

  function BinderShare(s: State): int {
    if s.binder.BinderLeaving? && Stored(s.binder.inc) then -1 else 0
  }

  /** A client thread announced but not created yet. */
  function ListenShare(s: State): int {
    if s.listener == Spawning || (s.listener.Announcing? && Stored(s.listener.inc)) then 1 else 0
  }

  predicate Counted(c: ClientPc) {
    !(c.Leaving? && Stored(c.inc))
  }

  /** Client threads that have not made their final decrement. */
  function Active(clients: seq<ClientPc>): nat {
    if clients == [] then 0
    else Active(clients[..|clients| - 1]) + if Counted(clients[|clients| - 1]) then 1 else 0
  }

  function Expected(s: State): int {
    MainShare(s) + BinderShare(s) + ListenShare(s) + Active(s.clients)
  }

  /** The place in inc_threads of a thread, if it is there. */
  function IncOf(s: State, tid: Tid): Option<Inc> {
    match tid
    case MainThread => if s.main.Starting? then Some(s.main.inc) else None
    case BinderThread => if s.binder.BinderLeaving? then Some(s.binder.inc) else None
    case ListenThread => if s.listener.Announcing? then Some(s.listener.inc) else None
    case ClientThread(i) => if i < |s.clients| && s.clients[i].Leaving? then Some(s.clients[i].inc) else None
  }

  /** A thread is between lock and unlock exactly when it owns the mutex, and the value it has loaded is current. */
  predicate LockOk(owner: Option<Tid>, total: int, tid: Tid, inc: Option<Inc>) {
    && ((inc.Some? && Inside(inc.value)) <==> owner == Some(tid))
    && (inc.Some? && inc.value.Store? ==> inc.value.loaded == total)
  }

  ghost predicate LockInv(s: State) {
    forall tid :: LockOk(s.owner, s.total, tid, IncOf(s, tid))
  }

  predicate Phases(s: State) {
    && (s.main.Starting? || s.main.CreatingBinder? <==> s.binder.BinderUnborn?)
    && (s.main.Starting? || s.main.CreatingBinder? || s.main.CreatingListener? <==> s.listener.ListenUnborn?)
    && (s.listener.ListenUnborn? ==> s.clients == [])
    && (s.terminating <==> s.binder.BinderLeaving?)
    && (s.main.ReadTotal? || PastGate(s) ==> s.terminating)
  }

  predicate PastGate(s: State) {
    s.main.Cancelling? || s.main.Joining? || s.main.Sending? || s.main.Finished?
  }

  predicate Tally(s: State) {
    s.total == Expected(s)
  }

  ghost predicate Inv(s: State) {
    LockInv(s) && Tally(s) && Phases(s)
  }

  lemma {:induction false} NoneActive(clients: seq<ClientPc>)
    ensures Active(clients) == 0 <==> forall c <- clients :: !Counted(c)
  {
    if clients != [] {
      var k := |clients| - 1;
      NoneActive(clients[..k]);
      assert clients == clients[..k] + [clients[k]];
    }
  }

  lemma {:induction false} ActiveUpdate(clients: seq<ClientPc>, i: nat, c: ClientPc)
    requires i < |clients|
    ensures Active(clients[i := c])
         == Active(clients) + (if Counted(c) then 1 else 0) - (if Counted(clients[i]) then 1 else 0)
    decreases |clients|
  {
    var k := |clients| - 1;
    if i < k {
      ActiveUpdate(clients[..k], i, c);
      assert clients[i := c][..k] == clients[..k][i := c];
    } else {
      assert clients[i := c][..k] == clients[..k];
    }
  }

  /** One thread's step respects the lock if it takes a free lock, acts as its owner, or leaves mutex and counter alone. */
  lemma LockKept(s: State, t: State, tid: Tid)
    requires LockInv(s)
    requires forall other :: other != tid ==> IncOf(t, other) == IncOf(s, other)
    requires LockOk(t.owner, t.total, tid, IncOf(t, tid))
    requires || t.owner == s.owner
             || (s.owner == None && t.owner == Some(tid))
             || (s.owner == Some(tid) && t.owner == None)
    requires t.total == s.total || s.owner == Some(tid)
    ensures LockInv(t)
  {
    forall other ensures LockOk(t.owner, t.total, other, IncOf(t, other)) {
      assert LockOk(s.owner, s.total, other, IncOf(s, other));
    }
  }

  lemma MainKeepsInv(s: State)
    requires Inv(s)
    ensures Inv(StepMain(s))
  {
    MainKeepsLock(s);
    assert LockOk(s.owner, s.total, MainThread, IncOf(s, MainThread));
  }

  lemma MainKeepsLock(s: State)
    requires LockInv(s) && Phases(s)
    ensures LockInv(StepMain(s))
  {
    assert LockOk(s.owner, s.total, MainThread, IncOf(s, MainThread));
    LockKept(s, StepMain(s), MainThread);
  }

  lemma BinderKeepsInv(s: State, terminate: bool)
    requires Inv(s)
    ensures Inv(StepBinder(s, terminate))
  {
    assert LockOk(s.owner, s.total, BinderThread, IncOf(s, BinderThread));
    LockKept(s, StepBinder(s, terminate), BinderThread);
  }

  lemma ListenerKeepsInv(s: State, hasClient: bool)
    requires Inv(s)
    ensures Inv(StepListener(s, hasClient))
  {
    ListenerKeepsLock(s, hasClient);
    assert LockOk(s.owner, s.total, ListenThread, IncOf(s, ListenThread));
    ListenerKeepsTally(s, hasClient);
  }

  lemma ListenerKeepsLock(s: State, hasClient: bool)
    requires LockInv(s)
    ensures LockInv(StepListener(s, hasClient))
  {
    var tid, t := ListenThread, StepListener(s, hasClient);
    assert LockOk(s.owner, s.total, tid, IncOf(s, tid));
    LockKept(s, t, tid);
  }

  lemma ListenerKeepsTally(s: State, hasClient: bool)
    requires LockOk(s.owner, s.total, ListenThread, IncOf(s, ListenThread)) && Tally(s)
    ensures Tally(StepListener(s, hasClient))
  {
    if s.listener == Spawning {
      SpawnCounts(s.clients);
    } else {
      ListenerPays(s, hasClient);
    }
  }

  /** What the listener adds to the counter is what its share grows by. */
  lemma ListenerPays(s: State, hasClient: bool)
    requires LockOk(s.owner, s.total, ListenThread, IncOf(s, ListenThread)) && s.listener != Spawning
    ensures var t := StepListener(s, hasClient);
      && t.clients == s.clients && t.main == s.main && t.binder == s.binder
      && t.total - s.total == ListenShare(t) - ListenShare(s)
  {
  }

  lemma SpawnCounts(clients: seq<ClientPc>)
    ensures Active(clients + [Serving]) == Active(clients) + 1
  {
    assert (clients + [Serving])[..|clients|] == clients;
  }

  lemma ClientKeepsInv(s: State, i: nat, done: bool)
    requires Inv(s)
    ensures Inv(StepClient(s, i, done))
  {
    if i < |s.clients| {
      ClientKeepsLock(s, i, done);
      assert LockOk(s.owner, s.total, ClientThread(i), IncOf(s, ClientThread(i)));
      ClientKeepsTally(s, i, done);
    }
  }

  lemma ClientKeepsLock(s: State, i: nat, done: bool)
    requires LockInv(s) && i < |s.clients|
    ensures LockInv(StepClient(s, i, done))
  {
    var tid, t := ClientThread(i), StepClient(s, i, done);
    assert LockOk(s.owner, s.total, tid, IncOf(s, tid));
    LockKept(s, t, tid);
  }

  lemma ClientKeepsTally(s: State, i: nat, done: bool)
    requires i < |s.clients| && LockOk(s.owner, s.total, ClientThread(i), IncOf(s, ClientThread(i))) && Tally(s)
    ensures Tally(StepClient(s, i, done))
  {
    ActiveUpdate(s.clients, i, StepClient(s, i, done).clients[i]);
  }

  lemma {:induction false} ReachableInv(labels: seq<Label>)
    ensures Inv(Exec(INITIAL, labels))
  {
    if labels != [] {
      var k := |labels| - 1;
      ReachableInv(labels[..k]);
      StepKeepsInv(Exec(INITIAL, labels[..k]), labels[k]);
    }
  }

  // ------------------------------------------------------------ main results

  /** In every interleaving of any number of threads, whenever the lock is free the counter is 1 for the client
      listener, 1 for the binder listener until it has left, and 1 for every client thread that has been
      announced and has not left, once `serve` has announced the two listeners. */
  lemma CounterExactness(labels: seq<Label>)
    requires Exec(INITIAL, labels).owner == None && !Exec(INITIAL, labels).main.Starting?
    ensures var s := Exec(INITIAL, labels);
      s.total == 1
        + (if s.binder == BinderLeaving(Returned) then 0 else 1)
        + (if s.listener == Spawning || s.listener == Announcing(Returned) then 1 else 0)
        + Active(s.clients)
    ensures forall c <- Exec(INITIAL, labels).clients :: Counted(c) <==> c != Leaving(Returned)
  {
    ReachableInv(labels);
    var s := Exec(INITIAL, labels);
    assert LockOk(s.owner, s.total, BinderThread, IncOf(s, BinderThread));
    assert LockOk(s.owner, s.total, ListenThread, IncOf(s, ListenThread));
    forall i | 0 <= i < |s.clients| ensures Counted(s.clients[i]) <==> s.clients[i] != Leaving(Returned) {
      assert LockOk(s.owner, s.total, ClientThread(i), IncOf(s, ClientThread(i)));
    }
  }

  /** The server is drained: the binder listener has left, no client thread is announced,
      and every client thread there has been has made its final decrement. */
  predicate Drained(s: State) {
    && s.terminating
    && s.binder.BinderLeaving? && Stored(s.binder.inc)
    && s.listener != Spawning && !(s.listener.Announcing? && Stored(s.listener.inc))
    && forall c <- s.clients :: !Counted(c)
  }

  lemma GateOpensWhenDrained(s: State)
    requires Inv(s) && s.main == ReadTotal
    ensures PastGate(Apply(s, MainStep)) <==> Drained(s)
  {
    NoneActive(s.clients);
  }

  /** The gate: when `serve` reads the counter, after an earlier and separate read of the flag,
      it goes through exactly if the server is drained at that moment. */
  lemma DrainGate(labels: seq<Label>)
    requires Exec(INITIAL, labels).main == ReadTotal
    ensures PastGate(Apply(Exec(INITIAL, labels), MainStep)) <==> Drained(Exec(INITIAL, labels))
  {
    ReachableInv(labels);
    GateOpensWhenDrained(Exec(INITIAL, labels));
  }

  lemma StepKeepsInv(s: State, l: Label)
    requires Inv(s)
    ensures Inv(Apply(s, l))
  {
    match l
    case MainStep => MainKeepsInv(s);
    case BinderStep(terminate) => BinderKeepsInv(s, terminate);
    case ListenStep(hasClient) => ListenerKeepsInv(s, hasClient);
    case ClientStep(i, done) => ClientKeepsInv(s, i, done);
  }

  /** Behind the gate for good; and only the main thread's read of the counter leads there. */
  lemma GateIsOneWay(s: State, l: Label)
    ensures PastGate(s) ==> PastGate(Apply(s, l))
    ensures PastGate(Apply(s, l)) && !PastGate(s) ==> l == MainStep && s.main == ReadTotal
  {
  }

  /** Step k of the run is the read of the counter that goes through the gate, and the server is drained then. */
  predicate GateStep(labels: seq<Label>, k: nat)
    requires k < |labels|
  {
    labels[k] == MainStep && Exec(INITIAL, labels[..k]).main == ReadTotal && Drained(Exec(INITIAL, labels[..k]))
  }

  /** The gate is the only way to the terminate answer. */
  lemma {:induction false} PastGateWasDrained(labels: seq<Label>)
    requires PastGate(Exec(INITIAL, labels))
    ensures exists k :: 0 <= k < |labels| && GateStep(labels, k)
  {
    if labels != [] {
      var k := |labels| - 1;
      var before := labels[..k];
      if PastGate(Exec(INITIAL, before)) {
        PastGateWasDrained(before);
        var j :| 0 <= j < k && GateStep(before, j);
        assert before[..j] == labels[..j];
        assert GateStep(labels, j);
      } else {
        DrainGate(before);
        assert GateStep(labels, k);
      }
    }
  }

  // ------------------------------------------------------- behind the gate

  /** What the drained gate leaves for good: the binder listener and the first n client threads are done. */
  predicate Settled(s: State, n: nat) {
    && PastGate(s) && s.terminating
    && s.binder.BinderLeaving? && Stored(s.binder.inc)
    && n <= |s.clients| && forall i :: 0 <= i < n ==> !Counted(s.clients[i])
  }

  lemma DoneStaysDone(s: State, i: nat, done: bool)
    requires i < |s.clients| && !Counted(s.clients[i])
    ensures !Counted(StepClient(s, i, done).clients[i])
  {
  }

  lemma SettledStays(s: State, l: Label, n: nat)
    requires Settled(s, n)
    ensures Settled(Apply(s, l), n)
  {
    match l
    case MainStep =>
    case BinderStep(_) =>
    case ListenStep(_) =>
    case ClientStep(i, done) => SettledClient(s, i, done, n);
  }

  lemma SettledClient(s: State, i: nat, done: bool, n: nat)
    requires Settled(s, n)
    ensures Settled(StepClient(s, i, done), n)
  {
    if i < n {
      DoneStaysDone(s, i, done);
    }
  }

  lemma ExecPrefix(labels: seq<Label>, m: nat)
    requires m < |labels|
    ensures Exec(INITIAL, labels[..m + 1]) == Apply(Exec(INITIAL, labels[..m]), labels[m])
  {
    assert labels[..m + 1][..m] == labels[..m];
  }

  /** How many client threads there were when the run went through the gate at step k. */
  function ClientsAtGate(labels: seq<Label>, k: nat): nat
    requires k < |labels|
  {
    |Exec(INITIAL, labels[..k]).clients|
  }

  lemma SettledAtGate(labels: seq<Label>, k: nat)
    requires k < |labels| && GateStep(labels, k)
    ensures Settled(Exec(INITIAL, labels[..k + 1]), ClientsAtGate(labels, k))
  {
    var s := Exec(INITIAL, labels[..k]);
    ExecPrefix(labels, k);
    DrainGate(labels[..k]);
    assert forall i :: 0 <= i < |s.clients| ==> s.clients[i] in s.clients;
  }

  lemma SettledNext(labels: seq<Label>, m: nat, n: nat)
    requires m < |labels| && Settled(Exec(INITIAL, labels[..m]), n)
    ensures Settled(Exec(INITIAL, labels[..m + 1]), n)
  {
    ExecPrefix(labels, m);
    SettledStays(Exec(INITIAL, labels[..m]), labels[m], n);
  }

  lemma {:induction false} SettledFrom(labels: seq<Label>, from: nat, m: nat, n: nat)
    requires from <= m <= |labels| && Settled(Exec(INITIAL, labels[..from]), n)
    ensures Settled(Exec(INITIAL, labels[..m]), n)
    decreases m
  {
    if from < m {
      var p := m - 1;
      assert Settled(Exec(INITIAL, labels[..p]), n) by {
        SettledFrom(labels, from, p, n);
      }
      SettledNext(labels, p, n);
    }
  }

  /** In every state behind the gate, all client threads there were at the gate have made their final decrement:
      only threads created behind the gate can still be serving. */
  lemma OldClientsGone(labels: seq<Label>, k: nat)
    requires k < |labels| && GateStep(labels, k)
    ensures Settled(Exec(INITIAL, labels), ClientsAtGate(labels, k))
  {
    SettledAtGate(labels, k);
    SettledFrom(labels, k + 1, |labels|, ClientsAtGate(labels, k));
    assert labels[..|labels|] == labels;
  }

  /** The listener waits, and no client thread is being created. */
  predicate Quiet(s: State, n: nat) {
    Settled(s, n) && |s.clients| == n && (s.listener == Polling || s.listener == Cancelled)
  }

  lemma QuietStays(s: State, l: Label, n: nat)
    requires Quiet(s, n) && l != ListenStep(true)
    ensures Quiet(Apply(s, l), n)
  {
    SettledStays(s, l, n);
  }

  lemma QuietIsDrained(s: State, n: nat)
    requires Quiet(s, n)
    ensures Drained(s)
  {
    assert forall c <- s.clients :: exists i :: 0 <= i < n && s.clients[i] == c;
  }

  /** No connection with data is found from step `from` on. */
  predicate NoClientFrom(labels: seq<Label>, from: nat) {
    forall j :: from <= j < |labels| ==> labels[j] != ListenStep(true)
  }

  lemma QuietNext(labels: seq<Label>, m: nat, n: nat)
    requires m < |labels| && Quiet(Exec(INITIAL, labels[..m]), n) && labels[m] != ListenStep(true)
    ensures Quiet(Exec(INITIAL, labels[..m + 1]), n)
  {
    ExecPrefix(labels, m);
    QuietStays(Exec(INITIAL, labels[..m]), labels[m], n);
  }

  lemma {:induction false} QuietFrom(labels: seq<Label>, from: nat, m: nat, n: nat)
    requires from <= m <= |labels| && Quiet(Exec(INITIAL, labels[..from]), n) && NoClientFrom(labels, from)
    ensures Quiet(Exec(INITIAL, labels[..m]), n)
    decreases m
  {
    if from < m {
      assert Quiet(Exec(INITIAL, labels[..m - 1]), n) by {
        QuietFrom(labels, from, m - 1, n);
      }
      QuietNext(labels, m - 1, n);
    }
  }

  lemma QuietAtGate(labels: seq<Label>, k: nat)
    requires k < |labels| && GateStep(labels, k) && Exec(INITIAL, labels[..k]).listener == Polling
    ensures Quiet(Exec(INITIAL, labels[..k + 1]), ClientsAtGate(labels, k))
  {
    SettledAtGate(labels, k);
    ExecPrefix(labels, k);
  }

  /** If the listener is waiting at the gate and finds no client behind it, the server is drained in every later
      state, the one in which it answers included. */
  lemma QuietServerStaysDrained(labels: seq<Label>, k: nat)
    requires k < |labels| && GateStep(labels, k)
    requires Exec(INITIAL, labels[..k]).listener == Polling && NoClientFrom(labels, k + 1)
    ensures Drained(Exec(INITIAL, labels))
  {
    QuietAtGate(labels, k);
    QuietFrom(labels, k + 1, |labels|, ClientsAtGate(labels, k));
    assert labels[..|labels|] == labels;
    QuietIsDrained(Exec(INITIAL, labels), ClientsAtGate(labels, k));
  }

  /** The answer is sent after the listener has been joined. */
  predicate Answers(s: State) {
    s.main.Sending? || s.main.Finished?
  }

  lemma {:induction false} AnswerAfterCancel(labels: seq<Label>)
    ensures Answers(Exec(INITIAL, labels)) ==> Exec(INITIAL, labels).listener.Cancelled?
  {
    if labels != [] {
      var k := |labels| - 1;
      AnswerAfterCancel(labels[..k]);
      CancelledStays(Exec(INITIAL, labels[..k]), labels[k]);
    }
  }

  lemma CancelledStays(s: State, l: Label)
    requires Answers(s) ==> s.listener.Cancelled?
    ensures Answers(Apply(s, l)) ==> Apply(s, l).listener.Cancelled?
  {
    match l
    case MainStep =>
    case BinderStep(_) =>
    case ListenStep(_) =>
    case ClientStep(_, _) =>
  }

  /** When the terminate request is answered, the server is drained if and only if every client thread created
      behind the gate has made its final decrement too. */
  lemma DrainedAtAnswer(labels: seq<Label>, k: nat)
    requires k < |labels| && GateStep(labels, k) && Answers(Exec(INITIAL, labels))
    ensures var s := Exec(INITIAL, labels);
      Drained(s) <==> forall i :: ClientsAtGate(labels, k) <= i < |s.clients| ==> !Counted(s.clients[i])
  {
    OldClientsGone(labels, k);
    AnswerAfterCancel(labels);
    var s, n := Exec(INITIAL, labels), ClientsAtGate(labels, k);
    assert forall i :: 0 <= i < |s.clients| ==> s.clients[i] in s.clients;
    if forall i :: n <= i < |s.clients| ==> !Counted(s.clients[i]) {
      assert forall i :: 0 <= i < |s.clients| ==> !Counted(s.clients[i]);
    }
  }

  // --------------------------------------------------- what the gate is not

  ghost predicate CanReach(s: State) {
    exists labels :: Exec(INITIAL, labels) == s
  }

  lemma Extend(s: State, l: Label, t: State)
    requires CanReach(s) && Apply(s, l) == t
    ensures CanReach(t)
  {
    var labels :| Exec(INITIAL, labels) == s;
    assert (labels + [l])[..|labels|] == labels;
    assert Exec(INITIAL, labels + [l]) == t;
  }

  const STARTED := State(2, None, false, ReadFlag, Receiving, Polling, [], false)

  lemma Starts()
    ensures CanReach(STARTED)
  {
    assert Exec(INITIAL, []) == INITIAL;
    var s := INITIAL;
    Extend(s, MainStep, s.(owner := Some(MainThread), main := Starting(Load)));
    s := s.(owner := Some(MainThread), main := Starting(Load));
    Extend(s, MainStep, s.(main := Starting(Store(0))));
    s := s.(main := Starting(Store(0)));
    Extend(s, MainStep, s.(total := 2, main := Starting(Unlock)));
    s := s.(total := 2, main := Starting(Unlock));
    Extend(s, MainStep, s.(owner := None, main := Starting(Returned)));
    s := s.(owner := None, main := Starting(Returned));
    Extend(s, MainStep, s.(main := CreatingBinder));
    s := s.(main := CreatingBinder);
    Extend(s, MainStep, s.(binder := Receiving, main := CreatingListener));
    s := s.(binder := Receiving, main := CreatingListener);
    Extend(s, MainStep, STARTED);
  }

  const OPENED := State(1, None, true, Cancelling, BinderLeaving(Returned), Polling, [], false)

  const DRAINED := State(1, None, true, ReadFlag, BinderLeaving(Returned), Polling, [], false)

  lemma BinderLeaves()
    ensures CanReach(DRAINED)
  {
    Starts();
    var s := STARTED;
    Extend(s, BinderStep(true), s.(binder := SettingFlag));
    s := s.(binder := SettingFlag);
    Extend(s, BinderStep(true), s.(terminating := true, binder := BinderLeaving(Lock)));
    s := s.(terminating := true, binder := BinderLeaving(Lock));
    Extend(s, BinderStep(true), s.(owner := Some(BinderThread), binder := BinderLeaving(Load)));
    s := s.(owner := Some(BinderThread), binder := BinderLeaving(Load));
    Extend(s, BinderStep(true), s.(binder := BinderLeaving(Store(2))));
    s := s.(binder := BinderLeaving(Store(2)));
    Extend(s, BinderStep(true), s.(total := 1, binder := BinderLeaving(Unlock)));
    s := s.(total := 1, binder := BinderLeaving(Unlock));
    Extend(s, BinderStep(true), DRAINED);
  }

  lemma Opens()
    ensures CanReach(OPENED)
  {
    BinderLeaves();
    Extend(DRAINED, MainStep, DRAINED.(main := ReadTotal));
    Extend(DRAINED.(main := ReadTotal), MainStep, OPENED);
  }

  const LATE := State(2, None, true, Cancelling, BinderLeaving(Returned), Polling, [Serving], false)

  lemma SpawnsLate()
    ensures CanReach(LATE)
  {
    Opens();
    var s, l := OPENED, ListenStep(true);
    Extend(s, l, s.(listener := Announcing(Lock)));
    s := s.(listener := Announcing(Lock));
    Extend(s, l, s.(owner := Some(ListenThread), listener := Announcing(Load)));
    s := s.(owner := Some(ListenThread), listener := Announcing(Load));
    Extend(s, l, s.(listener := Announcing(Store(1))));
    s := s.(listener := Announcing(Store(1)));
    Extend(s, l, s.(total := 2, listener := Announcing(Unlock)));
    s := s.(total := 2, listener := Announcing(Unlock));
    Extend(s, l, s.(owner := None, listener := Announcing(Returned)));
    s := s.(owner := None, listener := Announcing(Returned));
    Extend(s, l, s.(listener := Spawning));
    s := s.(listener := Spawning);
    Extend(s, l, LATE);
  }

  /** Only the read is safe: the client listener runs until it is cancelled, so a run can answer the
      terminate request while a client thread created behind the gate is still serving. */
  lemma LateClient()
    ensures exists s :: CanReach(s) && s.main == Finished && s.clients == [Serving]
  {
    SpawnsLate();
    var s := LATE;
    Extend(s, MainStep, s.(cancelRequested := true, main := Joining));
    s := s.(cancelRequested := true, main := Joining);
    Extend(s, ListenStep(false), s.(listener := Cancelled));
    s := s.(listener := Cancelled);
    Extend(s, MainStep, s.(main := Sending));
    s := s.(main := Sending);
    Extend(s, MainStep, s.(main := Finished));
    s := s.(main := Finished);
    assert CanReach(s);
  }
}
