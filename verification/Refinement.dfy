/** Runs of the binder database against runs of the least-recently-used list, and what goes
    wrong outside the assumptions. */
module Refinement {
  import opened Wire
  import opened Signatures
  import opened BinderDb
  import opened Lru
  import opened Coherence

  /** The step gives some server a new timestamp. */
  predicate TakesStamp(db: Db, op: Op) {
    match op
    case Registering(sig, s) => s.addr !in ProvidersOf(db, sig)
    case Locating(sig) => ProvidersOf(db, sig) != map[]
    case Removing(_) => false
  }

  /** Checkable before the call: the address comes through the socket it is known under,
      and the clock has a value left. */
  predicate Guard(db: Db, op: Op) {
    TakesStamp(db, op) ==> db.time + 1 < TIME_LIMIT && OneSocketPerAddress(db, op)
  }

  lemma StepRefines(db: Db, op: Op)
    requires Coherent(db) && Guard(db, op)
    ensures Coherent(Step(db, op).0)
    ensures Abs(Step(db, op).0) == ListStep(Abs(db), op).0
    ensures Step(db, op).1 == ListStep(Abs(db), op).1
    ensures Stamps(Step(db, op).1) <==> TakesStamp(db, op)
  {
    match op
    case Registering(sig, s) =>
      if s.addr in ProvidersOf(db, sig) {
        ProvidesIff(db, s.addr, sig);
      } else {
        RegisterRefines(db, sig, s);
      }
    case Locating(sig) => LocateRefines(db, sig);
    case Removing(h) => RemoveRefines(db, h);
  }

  /** A step keeps the indexes coherent exactly when its guard holds. */
  lemma CoherenceKeptExactly(db: Db, op: Op)
    requires Coherent(db)
    ensures Coherent(Step(db, op).0) <==> Guard(db, op)
  {
    if Guard(db, op) {
      StepRefines(db, op);
    } else if db.time + 1 == TIME_LIMIT {
      if op.Locating? {
        ProviderIsQueued(db, op.sig);
      }
      assert Step(db, op).0.time == 0;
    } else {
      SocketsDiverge(db, op.sig, op.server);
    }
  }

  /** Registering a known address through another socket leaves the new socket in the queue
      and the old one in the stamp table. */
  lemma SocketsDiverge(db: Db, sig: Signature, s: Server)
    requires Coherent(db) && s.addr !in ProvidersOf(db, sig)
    requires s.addr in db.stamps && db.stamps[s.addr].socket != s.socket
    ensures var d := Register(db, sig, s).0;
      && Entry(db.time, s) in d.queue
      && d.stamps[s.addr].socket == db.stamps[s.addr].socket
      && !QueueMatchesStamps(d.queue, d.stamps)
  {
    StampIsPositive(db, s.addr);
    var erased := EraseKey(db.queue, db.stamps[s.addr].time, s.addr);
    EraseKeyElements(db.queue, db.stamps[s.addr].time, s.addr);
    InsertLatest(erased, Entry(db.time, s));
    assert Entry(db.time, s) == (erased + [Entry(db.time, s)])[|erased|];
  }

  /** The list-level form of the assumption: a server is never registered through a second socket. */
  predicate Honest(l: List, op: Op) {
    op.Registering? ==> forall t <- l.order :: t.addr == op.server.addr ==> t.socket == op.server.socket
  }

  predicate HonestRun(l: List, ops: seq<Op>)
    decreases |ops|
  {
    ops != [] ==> Honest(l, ops[0]) && HonestRun(ListStep(l, ops[0]).0, ops[1..])
  }

  lemma HonestGuard(db: Db, op: Op)
    requires Coherent(db) && Honest(Abs(db), op)
    ensures OneSocketPerAddress(db, op)
  {
    if op.Registering? && op.server.addr in db.stamps {
      var a := op.server.addr;
      SocketInOrder(db, a, db.stamps[a].socket);
    }
  }

  lemma TakesStampOnList(db: Db, op: Op)
    requires Coherent(db)
    ensures TakesStamp(db, op) <==> Stamps(ListStep(Abs(db), op).1)
  {
    match op
    case Registering(sig, s) => ProvidesIff(db, s.addr, sig);
    case Locating(sig) =>
      FirstProviderIsRingHead(db.queue, db, sig);
      if ProvidersOf(db, sig) != map[] {
        ProviderIsQueued(db, sig);
      }
    case Removing(h) =>
  }

  lemma GuardFromList(db: Db, op: Op)
    requires Coherent(db) && Honest(Abs(db), op)
    requires Stamps(ListStep(Abs(db), op).1) ==> db.time + 1 < TIME_LIMIT
    ensures Guard(db, op)
  {
    HonestGuard(db, op);
    TakesStampOnList(db, op);
  }

  lemma ClockAdvances(db: Db, op: Op)
    requires Stamps(Step(db, op).1) ==> db.time + 1 < TIME_LIMIT
    ensures Step(db, op).0.time == db.time + if Stamps(Step(db, op).1) then 1 else 0
  {
    StepClock(db, op);
  }

  lemma StepSimulated(db: Db, op: Op)
    requires Coherent(db) && Honest(Abs(db), op)
    requires Stamps(ListStep(Abs(db), op).1) ==> db.time + 1 < TIME_LIMIT
    ensures Coherent(Step(db, op).0)
    ensures Step(db, op).1 == ListStep(Abs(db), op).1
    ensures Abs(Step(db, op).0) == ListStep(Abs(db), op).0
    ensures Step(db, op).0.time == db.time + if Stamps(Step(db, op).1) then 1 else 0
  {
    GuardFromList(db, op);
    StepRefines(db, op);
    ClockAdvances(db, op);
  }

  /** The three indexes simulate the list over every honest run that fits the 32-bit clock:
      equal replies, related end states, and a clock that counts the stamps. */
  lemma {:induction false} RunRefines(db: Db, ops: seq<Op>)
    requires Coherent(db) && HonestRun(Abs(db), ops)
    requires db.time + CountStamps(ListReplies(Abs(db), ops)) < TIME_LIMIT
    ensures Replies(db, ops) == ListReplies(Abs(db), ops)
    ensures Abs(Run(db, ops)) == ListRun(Abs(db), ops)
    ensures Coherent(Run(db, ops))
    ensures Run(db, ops).time == db.time + CountStamps(Replies(db, ops))
    decreases |ops|
  {
    if ops != [] {
      var l, d := Abs(db), Step(db, ops[0]).0;
      var later := ListReplies(ListStep(l, ops[0]).0, ops[1..]);
      assert ListReplies(l, ops) == [ListStep(l, ops[0]).1] + later;
      assert ListReplies(l, ops)[1..] == later;
      StepSimulated(db, ops[0]);
      RunRefines(d, ops[1..]);
    }
  }

  /** In a coherent database the scan never misses: a locate succeeds exactly when the signature
      has a provider, and every provider is a connected, stamped server. */
  lemma LocateSucceedsIff(db: Db, sig: Signature)
    requires Coherent(db)
    ensures Locate(db, sig).1.Some? <==> exists a :: a in db.stamps && a in ProvidersOf(db, sig)
  {
    if ProvidersOf(db, sig) != map[] {
      var a :| a in ProvidersOf(db, sig);
      assert a in db.stamps;
      ProviderIsQueued(db, sig);
    }
  }

  /** From the empty database, `time_ - 1` is the number of fresh registrations and successful locates. */
  lemma ReachableIsCoherent(ops: seq<Op>)
    requires HonestRun(Abs(EMPTY), ops)
    requires 1 + CountStamps(ListReplies(Abs(EMPTY), ops)) < TIME_LIMIT
    ensures Coherent(Run(EMPTY, ops))
    ensures Run(EMPTY, ops).time - 1 == CountStamps(Replies(EMPTY, ops))
  {
    RunRefines(EMPTY, ops);
  }

  // ------------------------------------------- outside the assumptions

  /** One address behind two sockets: when the second socket closes, the procedure that the first
      one registered is still listed and can no longer be located. */
  lemma TwoSocketsHideAProvider(f: Signature, g: Signature, a: Addr, first: Handle, second: Handle)
    requires f != g && first != second
    ensures var db := Run(EMPTY, [Registering(f, Server(a, first)), Registering(g, Server(a, second)), Removing(second)]);
      && ProvidersOf(db, f) == map[a := first]
      && a in db.stamps
      && Locate(db, f).1 == None
  {
    var op1, op2, op3 := Registering(f, Server(a, first)), Registering(g, Server(a, second)), Removing(second);
    var d1 := Step(EMPTY, op1).0;
    assert d1 == Db(2, [Entry(1, Server(a, first))], map[a := Stamp(first, 1)], map[f := map[a := first]]);
    var d2 := Step(d1, op2).0;
    assert EraseKey(d1.queue, 1, a) == [];
    assert d2.queue == [Entry(2, Server(a, second))];
    assert d2.stamps == map[a := Stamp(first, 2)];
    assert ProvidersOf(d2, f) == map[a := first];
    var d3 := Step(d2, op3).0;
    assert DropFromQueue(d2.queue, second) == [];
    assert ProvidersOf(d3, f) == map[a := first];
    assert [op1, op2, op3][1..] == [op2, op3] && [op2, op3][1..] == [op3] && [op3][1..] == [];
    assert Run(d1, [op2, op3]) == Run(d2, [op3]) == Run(d3, []) == d3;
  }

  function Locates(f: Signature, n: nat): seq<Op> {
    if n == 0 then [] else [Locating(f)] + Locates(f, n - 1)
  }

  /** One server that provides f alone, with its last stamp. */
  function OneServer(f: Signature, s: Server, time: nat, stamp: nat): Db {
    Db(time, [Entry(stamp, s)], map[s.addr := Stamp(s.socket, stamp)], map[f := map[s.addr := s.socket]])
  }

  lemma OneServerLocated(f: Signature, s: Server, time: nat, stamp: nat)
    ensures Step(OneServer(f, s, time, stamp), Locating(f)).0 == OneServer(f, s, Tick(time), time)
  {
    var db := OneServer(f, s, time, stamp);
    assert FirstProvider(db.queue, db.providers[f]) == Some(Entry(stamp, s));
    assert EraseKey(db.queue, stamp, s.addr) == [];
  }

  /** n locates of a single server use up n values of the clock. */
  lemma {:induction false} ClockRuns(f: Signature, s: Server, time: nat, stamp: nat, n: nat)
    requires n > 0 && time + n <= TIME_LIMIT
    ensures Run(OneServer(f, s, time, stamp), Locates(f, n)) == OneServer(f, s, (time + n) % TIME_LIMIT, time + n - 1)
    decreases n
  {
    OneServerLocated(f, s, time, stamp);
    var ops := Locates(f, n);
    assert ops[0] == Locating(f) && ops[1..] == Locates(f, n - 1);
    if n > 1 {
      ClockRuns(f, s, Tick(time), time, n - 1);
    }
  }

  /** From the empty database: one registration and 2^32 - 2 locates later the clock has wrapped to 0. The stamp it then
      gives out means "no timestamp", and the next registration of the same server leaves it in the queue twice. */
  lemma StampZeroDuplicates(f: Signature, g: Signature, h: Signature, s: Server, n: nat)
    requires f != g && f != h && g != h && n == TIME_LIMIT - 2
    ensures var ops := [Registering(f, s)] + Locates(f, n) + [Registering(g, s), Registering(h, s)];
      Run(EMPTY, ops).queue == [Entry(0, s), Entry(1, s)]
  {
    var wrapped := OneServer(f, s, 0, TIME_LIMIT - 1);
    RunAppend(EMPTY, [Registering(f, s)] + Locates(f, n), [Registering(g, s), Registering(h, s)]);
    RunAppend(EMPTY, [Registering(f, s)], Locates(f, n));
    FirstOfAll(f, s);
    ClockRuns(f, s, 2, 1, n);
    DuplicatedAtZero(f, g, h, s, TIME_LIMIT - 1);
  }

  lemma FirstOfAll(f: Signature, s: Server)
    ensures Run(EMPTY, [Registering(f, s)]) == OneServer(f, s, 2, 1)
  {
    var ops := [Registering(f, s)];
    assert ops[1..] == [];
    assert Step(EMPTY, ops[0]).0 == OneServer(f, s, 2, 1);
  }

  lemma DuplicatedAtZero(f: Signature, g: Signature, h: Signature, s: Server, stamp: nat)
    requires f != g && f != h && g != h && stamp > 0
    ensures Run(OneServer(f, s, 0, stamp), [Registering(g, s), Registering(h, s)]).queue == [Entry(0, s), Entry(1, s)]
  {
    var db, ops := OneServer(f, s, 0, stamp), [Registering(g, s), Registering(h, s)];
    var d1 := Step(db, ops[0]).0;
    assert EraseKey(db.queue, stamp, s.addr) == [];
    assert d1.queue == [Entry(0, s)] && d1.stamps == map[s.addr := Stamp(s.socket, 0)] && d1.time == 1;
    assert ProvidersOf(d1, h) == map[];
    var d2 := Step(d1, ops[1]).0;
    assert Insert([Entry(0, s)], Entry(1, s)) == [Entry(0, s)] + Insert([], Entry(1, s));
    assert ops[1..] == [ops[1]] && ops[1..][1..] == [];
    assert Run(db, ops) == Run(d1, ops[1..]) == Run(d2, []) == d2;
  }
}
