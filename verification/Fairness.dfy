/** Load balancing: nobody waits too long, and undisturbed providers take turns.
    Proved on the list, then carried over to the binder's database. */
module Fairness {
  import opened Wire
  import opened Signatures
  import opened BinderDb
  import opened Lru
  import opened Coherence
  import opened Refinement

  // ------------------------------------------------------- well-formed lists

  ghost predicate Distinct(order: seq<Server>) {
    forall i, j :: 0 <= i < j < |order| ==> order[i].addr != order[j].addr
  }

  lemma {:induction false} WithoutElements(order: seq<Server>, a: Addr)
    ensures forall s :: s in Without(order, a) <==> s in order && s.addr != a
  {
    if order != [] {
      WithoutElements(order[1..], a);
      assert order == [order[0]] + order[1..];
    }
  }

  lemma {:induction false} DropElements(order: seq<Server>, h: Handle)
    ensures forall s :: s in Drop(order, h) <==> s in order && s.socket != h
  {
    if order != [] {
      DropElements(order[1..], h);
      assert order == [order[0]] + order[1..];
    }
  }

  lemma {:induction false} WithoutDistinct(order: seq<Server>, a: Addr)
    requires Distinct(order)
    ensures Distinct(Without(order, a))
  {
    if order != [] {
      WithoutDistinct(order[1..], a);
      WithoutElements(order[1..], a);
      var rest := Without(order[1..], a);
      assert forall k :: 0 <= k < |rest| ==> rest[k] in rest && rest[k] in order[1..];
    }
  }

  lemma {:induction false} DropDistinct(order: seq<Server>, h: Handle)
    requires Distinct(order)
    ensures Distinct(Drop(order, h))
  {
    if order != [] {
      DropDistinct(order[1..], h);
      DropElements(order[1..], h);
      var rest := Drop(order[1..], h);
      assert forall k :: 0 <= k < |rest| ==> rest[k] in rest && rest[k] in order[1..];
    }
  }

  lemma DistinctKept(l: List, op: Op)
    requires Distinct(l.order)
    ensures Distinct(ListStep(l, op).0.order)
  {
    match op
    case Registering(_, s) =>
      WithoutDistinct(l.order, s.addr);
      WithoutElements(l.order, s.addr);
      assert forall k :: 0 <= k < |Without(l.order, s.addr)| ==> Without(l.order, s.addr)[k] in Without(l.order, s.addr);
    case Locating(sig) =>
      if Ring(l, sig) != [] {
        var a := Ring(l, sig)[0].addr;
        WithoutDistinct(l.order, a);
        WithoutElements(l.order, a);
        assert forall k :: 0 <= k < |Without(l.order, a)| ==> Without(l.order, a)[k] in Without(l.order, a);
      }
    case Removing(h) => DropDistinct(l.order, h);
  }

  lemma QueueIsDistinct(db: Db)
    requires Coherent(db)
    ensures Distinct(Abs(db).order)
  {
    var q := db.queue;
    assert forall k :: 0 <= k < |q| ==> q[k] in q && db.stamps[q[k].server.addr].time == q[k].time;
  }

  // ------------------------------------------------ how a ring moves in a step

  lemma {:induction false} ProvidingElements(order: seq<Server>, offers: set<(Addr, Signature)>, f: Signature)
    ensures forall s :: s in Providing(order, offers, f) <==> s in order && (s.addr, f) in offers
  {
    if order != [] {
      ProvidingElements(order[1..], offers, f);
      assert order == [order[0]] + order[1..];
    }
  }

  lemma {:induction false} ProvidingDistinct(order: seq<Server>, offers: set<(Addr, Signature)>, f: Signature)
    requires Distinct(order)
    ensures Distinct(Providing(order, offers, f))
  {
    if order != [] {
      ProvidingDistinct(order[1..], offers, f);
      ProvidingElements(order[1..], offers, f);
      var rest := Providing(order[1..], offers, f);
      assert forall k :: 0 <= k < |rest| ==> rest[k] in rest && rest[k] in order[1..];
    }
  }

  lemma {:induction false} ProvidingMoved(order: seq<Server>, offers: set<(Addr, Signature)>, after: set<(Addr, Signature)>,
                                          f: Signature, s: Server)
    requires forall t <- order :: t.addr != s.addr ==> ((t.addr, f) in offers <==> (t.addr, f) in after)
    ensures Providing(MoveToBack(order, s), after, f)
         == Without(Providing(order, offers, f), s.addr) + if (s.addr, f) in after then [s] else []
  {
    if order == [] {
      assert Providing([s], after, f) == if (s.addr, f) in after then [s] else [];
    } else {
      ProvidingMoved(order[1..], offers, after, f, s);
      assert order[0] in order;
      if order[0].addr != s.addr {
        assert MoveToBack(order, s) == [order[0]] + MoveToBack(order[1..], s);
        assert ([order[0]] + MoveToBack(order[1..], s))[1..] == MoveToBack(order[1..], s);
      } else {
        assert MoveToBack(order, s) == MoveToBack(order[1..], s);
      }
      var ring := Providing(order, offers, f);
      if (order[0].addr, f) in offers {
        assert ring == [order[0]] + Providing(order[1..], offers, f);
        assert ring[1..] == Providing(order[1..], offers, f);
      }
    }
  }

  lemma {:induction false} ProvidingDropped(order: seq<Server>, offers: set<(Addr, Signature)>, after: set<(Addr, Signature)>,
                                            f: Signature, h: Handle)
    requires forall t <- order :: t.socket != h ==> ((t.addr, f) in offers <==> (t.addr, f) in after)
    ensures Providing(Drop(order, h), after, f) == Drop(Providing(order, offers, f), h)
  {
    if order != [] {
      ProvidingDropped(order[1..], offers, after, f, h);
      assert order[0] in order;
      var rest := Providing(order[1..], offers, f);
      assert ([order[0]] + rest)[1..] == rest;
      var kept := Drop(order[1..], h);
      assert ([order[0]] + kept)[1..] == kept;
    }
  }

  /** The server a step restamps, if any: it goes to the back of the order. */
  function Restamped(l: List, op: Op): Option<Server> {
    match op
    case Registering(sig, s) => if (s.addr, sig) in l.offers then None else Some(s)
    case Locating(sig) => if Ring(l, sig) == [] then None else Some(Ring(l, sig)[0])
    case Removing(_) => None
  }

  lemma RingMoves(l: List, op: Op, f: Signature)
    requires !op.Removing?
    ensures var after := ListStep(l, op).0;
      match Restamped(l, op)
      case None => after == l
      case Some(s) => Ring(after, f) == Without(Ring(l, f), s.addr) + if (s.addr, f) in after.offers then [s] else []
  {
    match Restamped(l, op)
    case None =>
    case Some(s) => ProvidingMoved(l.order, l.offers, ListStep(l, op).0.offers, f, s);
  }

  lemma RingDrops(l: List, h: Handle, f: Signature)
    requires Distinct(l.order)
    ensures Ring(ListStep(l, Removing(h)).0, f) == Drop(Ring(l, f), h)
  {
    var after := ListStep(l, Removing(h)).0;
    forall t <- l.order | t.socket != h ensures (t.addr, f) in l.offers <==> (t.addr, f) in after.offers {
      assert Server(t.addr, h) !in l.order;
    }
    ProvidingDropped(l.order, l.offers, after.offers, f, h);
  }

  lemma WithoutHead(order: seq<Server>)
    requires Distinct(order) && order != []
    ensures Without(order, order[0].addr) == order[1..]
  {
    WithoutNothing(order[1..], order[0].addr);
  }

  lemma {:induction false} WithoutNothing(order: seq<Server>, a: Addr)
    requires forall k :: 0 <= k < |order| ==> order[k].addr != a
    ensures Without(order, a) == order
  {
    if order != [] {
      WithoutNothing(order[1..], a);
    }
  }

  // --------------------------------------------------------- bounded waiting

  /** How many servers of the ring come before the address. */
  function Position(ring: seq<Server>, a: Addr): (n: nat)
    ensures n <= |ring|
  {
    if ring == [] || ring[0].addr == a then 0 else 1 + Position(ring[1..], a)
  }

  lemma {:induction false} PositionWithout(ring: seq<Server>, a: Addr, b: Addr, tail: seq<Server>)
    requires a != b && exists s :: s in ring && s.addr == a
    ensures Position(Without(ring, b) + tail, a) <= Position(ring, a)
  {
    if ring[0].addr == b {
      assert exists s :: s in ring[1..] && s.addr == a;
      PositionWithout(ring[1..], a, b, tail);
    } else if ring[0].addr != a {
      assert exists s :: s in ring[1..] && s.addr == a;
      PositionWithout(ring[1..], a, b, tail);
      var rest := Without(ring[1..], b) + tail;
      assert Without(ring, b) + tail == [ring[0]] + rest;
      assert ([ring[0]] + rest)[1..] == rest;
    } else {
      assert (Without(ring, b) + tail)[0] == ring[0];
    }
  }

  lemma {:induction false} PositionDrop(ring: seq<Server>, s: Server, h: Handle)
    requires Distinct(ring) && s in ring && s.socket != h
    ensures Position(Drop(ring, h), s.addr) <= Position(ring, s.addr)
  {
    if ring[0] == s {
      assert Drop(ring, h)[0] == s;
    } else {
      assert s in ring[1..];
      PositionDrop(ring[1..], s, h);
      if ring[0].socket != h {
        var rest := Drop(ring[1..], h);
        assert Drop(ring, h) == [ring[0]] + rest && ([ring[0]] + rest)[1..] == rest;
      }
    }
  }

  /** The step gives `a` a new timestamp: it is the answer of a locate, or registers afresh. */
  predicate Serves(op: Op, reply: Reply, a: Addr) {
    reply == Located(a) || (op.Registering? && op.server.addr == a && reply == Registered(0))
  }

  /** The measure of waiting: while s is neither served nor removed, it stays in the ring of f,
      nobody gets in front of it, and every locate of f brings it one place forward. */
  lemma WaitingStep(l: List, op: Op, f: Signature, s: Server)
    requires Distinct(l.order) && s in Ring(l, f)
    requires op != Removing(s.socket)
    requires !Serves(op, ListStep(l, op).1, s.addr)
    ensures s in Ring(ListStep(l, op).0, f)
    ensures Position(Ring(ListStep(l, op).0, f), s.addr) <= Position(Ring(l, f), s.addr)
    ensures op == Locating(f) ==> Position(Ring(ListStep(l, op).0, f), s.addr) == Position(Ring(l, f), s.addr) - 1
  {
    var ring := Ring(l, f);
    ProvidingDistinct(l.order, l.offers, f);
    if op.Removing? {
      RingDrops(l, op.socket, f);
      DropElements(ring, op.socket);
      PositionDrop(ring, s, op.socket);
    } else if Restamped(l, op).Some? {
      var t := Restamped(l, op).value;
      RingMoves(l, op, f);
      WithoutElements(ring, t.addr);
      PositionWithout(ring, s.addr, t.addr, if (t.addr, f) in ListStep(l, op).0.offers then [t] else []);
      if op == Locating(f) {
        ProvidingElements(l.order, l.offers, f);
        WithoutHead(ring);
        assert Ring(ListStep(l, op).0, f) == ring[1..] + [t];
        PositionPrefix(ring[1..], [t], s.addr);
      }
    }
  }

  lemma {:induction false} PositionPrefix(ring: seq<Server>, tail: seq<Server>, a: Addr)
    requires exists s :: s in ring && s.addr == a
    ensures Position(ring + tail, a) == Position(ring, a)
  {
    if ring[0].addr != a {
      assert exists s :: s in ring[1..] && s.addr == a;
      PositionPrefix(ring[1..], tail, a);
      assert (ring + tail)[1..] == ring[1..] + tail;
    }
  }

  function CountLocates(ops: seq<Op>, f: Signature): nat {
    if ops == [] then 0 else (if ops[0] == Locating(f) then 1 else 0) + CountLocates(ops[1..], f)
  }

  lemma {:induction false} LocatesCounted(ops: seq<Op>, f: Signature)
    ensures CountLocates(ops, f) == multiset(ops)[Locating(f)]
  {
    if ops != [] {
      LocatesCounted(ops[1..], f);
      assert ops == [ops[0]] + ops[1..];
    }
  }

  predicate ServedIn(ops: seq<Op>, replies: seq<Reply>, a: Addr)
    requires |ops| == |replies|
  {
    exists i :: 0 <= i < |ops| && Serves(ops[i], replies[i], a)
  }

  /** A provider that is never served has as many locates of f behind it as servers left its front. */
  lemma {:induction false} WaitingRun(l: List, ops: seq<Op>, f: Signature, s: Server)
    requires Distinct(l.order) && s in Ring(l, f)
    requires Removing(s.socket) !in ops
    requires !ServedIn(ops, ListReplies(l, ops), s.addr)
    ensures CountLocates(ops, f) <= Position(Ring(l, f), s.addr)
    decreases |ops|
  {
    if ops != [] {
      var op, replies := ops[0], ListReplies(l, ops);
      var (after, reply) := ListStep(l, op);
      assert replies[0] == reply && !Serves(ops[0], replies[0], s.addr);
      WaitingStep(l, op, f, s);
      DistinctKept(l, op);
      forall i | 0 <= i < |ops| - 1 ensures !Serves(ops[1..][i], ListReplies(after, ops[1..])[i], s.addr) {
        assert !Serves(ops[i + 1], replies[i + 1], s.addr);
      }
      WaitingRun(after, ops[1..], f, s);
    }
  }

  /** Providers of f with a smaller timestamp than a. */
  function Ahead(db: Db, f: Signature, a: Addr): set<Addr>
    requires a in db.stamps
  {
    set b | b in ProvidersOf(db, f) && b in db.stamps && db.stamps[b].time < db.stamps[a].time
  }

  /** Bounded waiting for the binder. If k providers of f have smaller timestamps than a, then any run
      with more than k locates of f, mixed with any other requests that keep a connected, serves a. */
  lemma BoundedWaiting(db: Db, ops: seq<Op>, f: Signature, a: Addr)
    requires Coherent(db) && HonestRun(Abs(db), ops)
    requires db.time + CountStamps(ListReplies(Abs(db), ops)) < TIME_LIMIT
    requires a in ProvidersOf(db, f) && Removing(ProvidersOf(db, f)[a]) !in ops
    requires CountLocates(ops, f) > |Ahead(db, f, a)|
    ensures ServedIn(ops, Replies(db, ops), a)
  {
    RunRefines(db, ops);
    QueueIsDistinct(db);
    var s := Server(a, db.stamps[a].socket);
    SocketInOrder(db, a, s.socket);
    ProvidesIff(db, a, f);
    ProvidingElements(Abs(db).order, Abs(db).offers, f);
    PositionCountsAhead(db, f, a);
    if !ServedIn(ops, Replies(db, ops), a) {
      WaitingRun(Abs(db), ops, f, s);
    }
  }

  /** The place in the ring is at most the number of providers with smaller timestamps. */
  lemma PositionCountsAhead(db: Db, f: Signature, a: Addr)
    requires Coherent(db) && a in ProvidersOf(db, f)
    ensures Position(Ring(Abs(db), f), a) <= |Ahead(db, f, a)|
  {
    var q := db.queue;
    ProviderIsStamped(db, f, a);
    var i := PlaceInQueue(db, a);
    forall j | 0 <= j < i && (q[j].server.addr, f) in Provides(db.providers) ensures q[j].server.addr in Ahead(db, f, a) {
      EarlierIsAhead(db, f, j, i);
    }
    QueueAddrsDiffer(db);
    ProvidesIff(db, a, f);
    PositionAmongEarlier(db, f, db.queue, i, Ahead(db, f, a));
  }

  lemma ProviderIsStamped(db: Db, f: Signature, a: Addr)
    requires ProvidersStamped(db.providers, db.stamps) && a in ProvidersOf(db, f)
    ensures a in db.stamps
  {
  }

  lemma PlaceInQueue(db: Db, a: Addr) returns (i: nat)
    requires Coherent(db) && a in db.stamps
    ensures i < |db.queue| && db.queue[i].server.addr == a
  {
    var e := Entry(db.stamps[a].time, Server(a, db.stamps[a].socket));
    i :| 0 <= i < |db.queue| && db.queue[i] == e;
  }

  lemma QueueAddrsDiffer(db: Db)
    requires Coherent(db)
    ensures forall j, k :: 0 <= j < k < |db.queue| ==> db.queue[j].server.addr != db.queue[k].server.addr
  {
    QueueIsDistinct(db);
    assert forall j :: 0 <= j < |db.queue| ==> db.queue[j].server.addr == Abs(db).order[j].addr;
  }

  lemma EarlierIsAhead(db: Db, f: Signature, j: nat, i: nat)
    requires QueueSorted(db.queue) && QueueMatchesStamps(db.queue, db.stamps)
    requires j < i < |db.queue| && (db.queue[j].server.addr, f) in Provides(db.providers)
    ensures db.queue[i].server.addr in db.stamps
    ensures db.queue[j].server.addr in Ahead(db, f, db.queue[i].server.addr)
  {
    assert db.queue[j] in db.queue && db.queue[i] in db.queue;
  }

  /** Along the queue, every provider before entry i has a smaller timestamp, hence is in `ahead`. */
  lemma {:induction false} PositionAmongEarlier(db: Db, f: Signature, q: seq<Entry>, i: nat, ahead: set<Addr>)
    requires i < |q| && QueueSorted(q)
    requires forall j, k :: 0 <= j < k < |q| ==> q[j].server.addr != q[k].server.addr
    requires (q[i].server.addr, f) in Abs(db).offers
    requires forall j :: 0 <= j < i && (q[j].server.addr, f) in Abs(db).offers ==> q[j].server.addr in ahead
    ensures Position(Providing(Order(q), Abs(db).offers, f), q[i].server.addr) <= |ahead|
    decreases i
  {
    var ring := Providing(Order(q), Abs(db).offers, f);
    assert Order(q)[1..] == Order(q[1..]);
    if i > 0 {
      var b := q[0].server.addr;
      if (b, f) in Abs(db).offers {
        assert ring[1..] == Providing(Order(q[1..]), Abs(db).offers, f);
        PositionAmongEarlier(db, f, q[1..], i - 1, ahead - {b});
        assert |ahead - {b}| == |ahead| - 1;
      } else {
        PositionAmongEarlier(db, f, q[1..], i - 1, ahead);
      }
    }
  }
}
