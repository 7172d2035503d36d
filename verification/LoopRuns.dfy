/** Runs of the binder's main loop as runs of its database: coherence and fairness for the loop. */
module LoopRuns {
  import opened Wire
  import opened Signatures
  import opened BinderDb
  import opened Lru
  import opened Coherence
  import opened Refinement
  import opened Fairness
  import opened Messages
  import opened BinderDatabases
  import opened BinderLoop
  import opened Rpc

  const START := LoopState({}, EMPTY)

  /** What an event does to the database. */
  function OpsOfEvent(e: Event): seq<Op> {
    match e
    case Accepted(_) => []
    case Closed(h) => [Removing(h)]
    case Requested(_, op) => [op]
    case Undeliverable(h) => [Removing(h)]
  }

  function OpsOf(events: seq<Event>): seq<Op> {
    if events == [] then [] else OpsOf(events[..|events| - 1]) + OpsOfEvent(events[|events| - 1])
  }

  lemma OpsLast(before: seq<Event>, e: Event)
    ensures OpsOf(before + [e]) == OpsOf(before) + OpsOfEvent(e)
  {
    assert (before + [e])[..|before|] == before;
  }

  lemma {:induction false} OpsAppend(first: seq<Event>, second: seq<Event>)
    ensures OpsOf(first + second) == OpsOf(first) + OpsOf(second)
    decreases |second|
  {
    if second == [] {
      assert first + second == first && OpsOf(first) + [] == OpsOf(first);
    } else {
      var part, e := second[..|second| - 1], second[|second| - 1];
      OpsAppend(first, part);
      assert second == part + [e];
      OpsAppendOne(first, part, e);
    }
  }

  lemma OpsAppendOne(first: seq<Event>, part: seq<Event>, e: Event)
    requires OpsOf(first + part) == OpsOf(first) + OpsOf(part)
    ensures OpsOf(first + (part + [e])) == OpsOf(first) + OpsOf(part + [e])
  {
    assert first + (part + [e]) == first + part + [e];
    OpsLast(first + part, e);
    OpsLast(part, e);
    Regroup(OpsOf(first), OpsOf(part), OpsOfEvent(e));
  }

  /** Each request is one operation, each closed or unreachable socket is a removal, and accepting is none. */
  lemma OpsGrow(events: seq<Event>, q: nat)
    requires q < |events|
    ensures OpsOf(events[..q + 1]) == OpsOf(events[..q]) +
      match events[q]
      case Accepted(_) => []
      case Closed(h) => [Removing(h)]
      case Requested(_, op) => [op]
      case Undeliverable(h) => [Removing(h)]
  {
    assert events[..q + 1][..q] == events[..q];
  }

  lemma RunOne(db: Db, op: Op)
    ensures Run(db, [op]) == Step(db, op).0
  {
    assert [op][1..] == [];
  }

  /** The loop's database is the database after these operations. */
  lemma {:induction false} TurnsAreRun(s: LoopState, events: seq<Event>)
    ensures Turns(s, events).db == Run(s.db, OpsOf(events))
  {
    if events != [] {
      var k := |events| - 1;
      var before, last := events[..k], events[k];
      assert events == before + [last];
      TurnsAreRun(s, before);
      TurnsAppend(s, before, [last]);
      TurnsOne(Turns(s, before), last);
      RunAppend(s.db, OpsOf(before), OpsOfEvent(last));
      if OpsOfEvent(last) != [] {
        RunOne(Turns(s, before).db, OpsOfEvent(last)[0]);
      }
    }
  }

  // ------------------------------------------------- one socket at a time

  predicate Registers(e: Event, s: Server) {
    e.Requested? && e.op.Registering? && e.op.server == s
  }

  /** The socket is closed, or given up because it could not be reached. */
  predicate Drops(e: Event, h: Handle) {
    e == Closed(h) || e == Undeliverable(h)
  }

  predicate DroppedBetween(events: seq<Event>, i: int, j: int, h: Handle) {
    exists k :: i < k < j && 0 <= k < |events| && Drops(events[k], h)
  }

  /** An address comes through another socket only after the one before has been dropped. */
  ghost predicate OneSocketAtATime(events: seq<Event>) {
    forall i, j, s, t :: 0 <= i < j < |events| && Registers(events[i], s) && Registers(events[j], t) && s.addr == t.addr ==>
      s.socket == t.socket || DroppedBetween(events, i, j, s.socket)
  }

  /** The server has registered, and its socket has not been dropped since. */
  ghost predicate Connected(events: seq<Event>, n: nat, t: Server)
    requires n <= |events|
  {
    exists i :: 0 <= i < n && Registers(events[i], t) && !DroppedBetween(events, i, n, t.socket)
  }

  lemma {:induction false} ListRunAppend(l: List, first: seq<Op>, second: seq<Op>)
    ensures ListRun(l, first + second) == ListRun(ListRun(l, first), second)
    ensures HonestRun(l, first + second) <==> HonestRun(l, first) && HonestRun(ListRun(l, first), second)
    ensures CountStamps(ListReplies(l, first + second))
         == CountStamps(ListReplies(l, first)) + CountStamps(ListReplies(ListRun(l, first), second))
    decreases |first|
  {
    if first == [] {
      assert first + second == second;
    } else {
      var all, m := first + second, ListStep(l, first[0]).0;
      assert all[1..] == first[1..] + second;
      ListRunAppend(m, first[1..], second);
      assert ListReplies(l, all)[1..] == ListReplies(m, all[1..]);
      assert ListReplies(l, first)[1..] == ListReplies(m, first[1..]);
    }
  }

  lemma HonestOne(l: List, op: Op)
    ensures HonestRun(l, [op]) <==> Honest(l, op)
    ensures ListRun(l, [op]) == ListStep(l, op).0
  {
    assert [op][1..] == [];
  }

  /** Who is in the list after a step was there before, or registers in it, and is not dropped by it. */
  lemma OrderAfterStep(l: List, op: Op, t: Server)
    requires t in ListStep(l, op).0.order
    ensures t in l.order || (op.Registering? && op.server == t)
    ensures op.Removing? ==> t.socket != op.socket
  {
    match op
    case Registering(_, s) => WithoutElements(l.order, s.addr);
    case Locating(sig) =>
      if Ring(l, sig) != [] {
        ProvidingElements(l.order, l.offers, sig);
        WithoutElements(l.order, Ring(l, sig)[0].addr);
        assert Ring(l, sig)[0] in Ring(l, sig);
      }
    case Removing(h) => DropElements(l.order, h);
  }

  lemma StillConnected(events: seq<Event>, n: nat, t: Server)
    requires n < |events| && Connected(events, n, t) && !Drops(events[n], t.socket)
    ensures Connected(events, n + 1, t)
  {
    var i :| 0 <= i < n && Registers(events[i], t) && !DroppedBetween(events, i, n, t.socket);
    assert !DroppedBetween(events, i, n + 1, t.socket);
  }

  ghost predicate AllConnected(events: seq<Event>, n: nat)
    requires n <= |events|
  {
    forall t <- ListRun(Abs(EMPTY), OpsOf(events[..n])).order :: Connected(events, n, t)
  }

  lemma NextIsHonest(events: seq<Event>, n: nat)
    requires n < |events| && OneSocketAtATime(events) && AllConnected(events, n)
    requires events[n].Requested? && events[n].op.Registering?
    ensures Honest(ListRun(Abs(EMPTY), OpsOf(events[..n])), events[n].op)
  {
    var l, s := ListRun(Abs(EMPTY), OpsOf(events[..n])), events[n].op.server;
    forall t <- l.order | t.addr == s.addr ensures t.socket == s.socket {
      var i :| 0 <= i < n && Registers(events[i], t) && !DroppedBetween(events, i, n, t.socket);
      assert Registers(events[n], s);
    }
  }

  lemma NextIsConnected(events: seq<Event>, n: nat, t: Server)
    requires n < |events| && AllConnected(events, n)
    requires t in ListRun(ListRun(Abs(EMPTY), OpsOf(events[..n])), OpsOfEvent(events[n])).order
    ensures Connected(events, n + 1, t)
  {
    var l, e := ListRun(Abs(EMPTY), OpsOf(events[..n])), events[n];
    if OpsOfEvent(e) != [] {
      HonestOne(l, OpsOfEvent(e)[0]);
      OrderAfterStep(l, OpsOfEvent(e)[0], t);
    }
    if t in l.order {
      StillConnected(events, n, t);
    } else {
      assert Registers(events[n], t) && !DroppedBetween(events, n, n + 1, t.socket);
    }
  }

  lemma {:induction false} PrefixIsHonest(events: seq<Event>, n: nat)
    requires n <= |events| && OneSocketAtATime(events)
    ensures HonestRun(Abs(EMPTY), OpsOf(events[..n])) && AllConnected(events, n)
    decreases n
  {
    if n > 0 {
      PrefixIsHonest(events, n - 1);
      var before, last := events[..n - 1], OpsOfEvent(events[n - 1]);
      assert events[..n][..n - 1] == before;
      ListRunAppend(Abs(EMPTY), OpsOf(before), last);
      var l := ListRun(Abs(EMPTY), OpsOf(before));
      if last != [] {
        HonestOne(l, last[0]);
        if last[0].Registering? {
          NextIsHonest(events, n - 1);
        }
      }
      forall t <- ListRun(l, last).order ensures Connected(events, n, t) {
        NextIsConnected(events, n - 1, t);
      }
    }
  }

  /** Events in which sockets follow one another are an honest run of the list. */
  lemma OneSocketIsHonest(events: seq<Event>)
    requires OneSocketAtATime(events)
    ensures HonestRun(Abs(EMPTY), OpsOf(events))
  {
    PrefixIsHonest(events, |events|);
    assert events[..|events|] == events;
  }

  // -------------------------------------------------------- for the main loop

  /** The clock has a value left after all the stamps of the run. */
  predicate ClockLasts(events: seq<Event>) {
    1 + CountStamps(ListReplies(Abs(EMPTY), OpsOf(events))) < TIME_LIMIT
  }

  /** Whatever the loop goes through from its start, while an address comes through one socket at a time its indexes
      are coherent, name live sockets only, and its clock counts the stamps. */
  lemma LoopIsCoherent(events: seq<Event>)
    requires PossibleRun(START, events) && OneSocketAtATime(events) && ClockLasts(events)
    ensures var s := Turns(START, events);
      && Coherent(s.db) && NoDangling(s)
      && Abs(s.db) == ListRun(Abs(EMPTY), OpsOf(events))
      && s.db.time - 1 == CountStamps(ListReplies(Abs(EMPTY), OpsOf(events)))
  {
    assert NoDangling(Turns(START, events)) by {
      NeverDangling(START, events);
    }
    LoopRefines(events);
  }

  lemma LoopRefines(events: seq<Event>)
    requires OneSocketAtATime(events) && ClockLasts(events)
    ensures var db := Turns(START, events).db;
      && Coherent(db)
      && Abs(db) == ListRun(Abs(EMPTY), OpsOf(events))
      && db.time - 1 == CountStamps(ListReplies(Abs(EMPTY), OpsOf(events)))
  {
    var ops := OpsOf(events);
    OneSocketIsHonest(events);
    RunRefines(EMPTY, ops);
    TurnsAreRun(START, events);
    assert Turns(START, events).db == Run(EMPTY, ops);
  }

  /** Bounded waiting for the loop: in any state it can get to, if k providers of f have smaller timestamps than a, then
      a is served by the time the loop has handled more than k locates of f, unless its socket has been dropped. */
  lemma LoopServes(before: seq<Event>, after: seq<Event>, f: Signature, a: Addr)
    requires PossibleRun(START, before + after) && OneSocketAtATime(before + after) && ClockLasts(before + after)
    requires var db := Turns(START, before).db;
      && a in ProvidersOf(db, f) && a in db.stamps
      && Removing(ProvidersOf(db, f)[a]) !in OpsOf(after)
      && CountLocates(OpsOf(after), f) > |Ahead(db, f, a)|
    ensures ServedIn(OpsOf(after), Replies(Turns(START, before).db, OpsOf(after)), a)
  {
    var ops, later := OpsOf(before), OpsOf(after);
    OpsAppend(before, after);
    OneSocketIsHonest(before + after);
    ListRunAppend(Abs(EMPTY), ops, later);
    RunRefines(EMPTY, ops);
    TurnsAreRun(START, before);
    BoundedWaiting(Run(EMPTY, ops), later, f, a);
  }

  /** A request off the wire announces an address that can be sent back. */
  lemma RequestAnnounces(socket: Handle, buffer: Bytes)
    requires Acceptable(buffer) && |buffer| < INT_LIMIT && OpOf(socket, buffer).Some?
    ensures Announced(OpOf(socket, buffer).value)
  {
    if buffer[0] == REGISTER {
      RegisterFits(buffer);
    }
  }

  lemma RegisterFits(buffer: Bytes)
    requires ParseRegister(buffer).Some?
    ensures var m := ParseRegister(buffer).value.value;
      m.Register? && IsInt32(m.port) && 9 + |m.host| <= |buffer|
  {
  }
}
