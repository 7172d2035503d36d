/** When the binder's indexes agree, and that each request then acts on them as on the
    least-recently-used list. */
module Coherence {
  import opened Wire
  import opened Signatures
  import opened BinderDb
  import opened Lru

  ghost predicate QueueSorted(q: seq<Entry>) {
    forall i, j :: 0 <= i < j < |q| ==> q[i].time < q[j].time
  }

  ghost predicate QueueMatchesStamps(q: seq<Entry>, stamps: map<Addr, Stamp>) {
    && (forall e <- q :: e.server.addr in stamps && stamps[e.server.addr] == Stamp(e.server.socket, e.time))
    && (forall a <- stamps :: Entry(stamps[a].time, Server(a, stamps[a].socket)) in q)
  }

  /** Queue and stamp table hold the same servers with one distinct past timestamp each. */
  ghost predicate QueueCoherent(q: seq<Entry>, stamps: map<Addr, Stamp>, time: nat) {
    && QueueSorted(q)
    && (forall e <- q :: 1 <= e.time < time)
    && QueueMatchesStamps(q, stamps)
  }

  ghost predicate ProvidersStamped(providers: map<Signature, map<Addr, Handle>>, stamps: map<Addr, Stamp>) {
    forall sig, a :: sig in providers && a in providers[sig] ==>
      a in stamps && stamps[a].socket == providers[sig][a]
  }

  /** Some signature lists the address. */
  ghost predicate Listed(providers: map<Signature, map<Addr, Handle>>, a: Addr) {
    exists sig :: sig in providers && a in providers[sig]
  }

  /** The three indexes agree: the same servers through the same sockets, in one order. */
  ghost predicate Coherent(db: Db) {
    && 1 <= db.time < TIME_LIMIT
    && QueueCoherent(db.queue, db.stamps, db.time)
    && ProvidersStamped(db.providers, db.stamps)
    && (forall a <- db.stamps :: Listed(db.providers, a))
  }

  function Order(q: seq<Entry>): (order: seq<Server>)
    ensures |order| == |q|
    ensures forall i :: 0 <= i < |q| ==> order[i] == q[i].server
  {
    seq(|q|, i requires 0 <= i < |q| => q[i].server)
  }

  function Provides(providers: map<Signature, map<Addr, Handle>>): set<(Addr, Signature)> {
    set sig, a | sig in providers && a in providers[sig] :: (a, sig)
  }

  function Abs(db: Db): List {
    List(Order(db.queue), Provides(db.providers))
  }

  lemma ProvidesIff(db: Db, a: Addr, sig: Signature)
    ensures (a, sig) in Abs(db).offers <==> a in ProvidersOf(db, sig)
  {
  }

  // ------------------------------------------------------------ queue lemmas

  lemma {:induction false} EraseKeyOrder(q: seq<Entry>, time: nat, addr: Addr)
    requires forall e <- q :: e.server.addr == addr ==> e.time == time
    ensures Order(EraseKey(q, time, addr)) == Without(Order(q), addr)
  {
    if q != [] {
      EraseKeyOrder(q[1..], time, addr);
      assert Order(q)[1..] == Order(q[1..]);
      assert Order([q[0]] + EraseKey(q[1..], time, addr)) == [q[0].server] + Order(EraseKey(q[1..], time, addr));
    }
  }

  lemma {:induction false} EraseKeyElements(q: seq<Entry>, time: nat, addr: Addr)
    ensures forall e :: e in EraseKey(q, time, addr) <==> e in q && !HasKey(e, time, addr)
  {
    if q != [] {
      EraseKeyElements(q[1..], time, addr);
      assert q == [q[0]] + q[1..];
    }
  }

  /** Sorted queues stay sorted when elements disappear. */
  lemma {:induction false} EraseKeySorted(q: seq<Entry>, time: nat, addr: Addr)
    requires QueueSorted(q)
    ensures QueueSorted(EraseKey(q, time, addr))
  {
    if q != [] {
      EraseKeySorted(q[1..], time, addr);
      EraseKeyElements(q[1..], time, addr);
      var rest := EraseKey(q[1..], time, addr);
      assert forall k :: 0 <= k < |rest| ==> rest[k] in rest && rest[k] in q[1..];
    }
  }

  lemma {:induction false} InsertLatest(q: seq<Entry>, e: Entry)
    requires forall f <- q :: f.time < e.time
    ensures Insert(q, e) == q + [e]
  {
    if q != [] {
      assert q[0] in q;
      InsertLatest(q[1..], e);
      assert q == [q[0]] + q[1..];
    }
  }

  lemma {:induction false} DropFromQueueOrder(q: seq<Entry>, h: Handle)
    ensures Order(DropFromQueue(q, h)) == Drop(Order(q), h)
  {
    if q != [] {
      DropFromQueueOrder(q[1..], h);
      assert Order(q)[1..] == Order(q[1..]);
      assert Order([q[0]] + DropFromQueue(q[1..], h)) == [q[0].server] + Order(DropFromQueue(q[1..], h));
    }
  }

  lemma {:induction false} DropFromQueueElements(q: seq<Entry>, h: Handle)
    ensures forall e :: e in DropFromQueue(q, h) <==> e in q && e.server.socket != h
  {
    if q != [] {
      DropFromQueueElements(q[1..], h);
      assert q == [q[0]] + q[1..];
    }
  }

  lemma {:induction false} DropFromQueueSorted(q: seq<Entry>, h: Handle)
    requires QueueSorted(q)
    ensures QueueSorted(DropFromQueue(q, h))
  {
    if q != [] {
      DropFromQueueSorted(q[1..], h);
      DropFromQueueElements(q[1..], h);
      var rest := DropFromQueue(q[1..], h);
      assert forall k :: 0 <= k < |rest| ==> rest[k] in rest && rest[k] in q[1..];
    }
  }

  /** The scan of the queue finds the head of the ring. */
  lemma {:induction false} FirstProviderIsRingHead(q: seq<Entry>, db: Db, sig: Signature)
    ensures var ring := Providing(Order(q), Provides(db.providers), sig);
      match FirstProvider(q, ProvidersOf(db, sig))
      case None => ring == []
      case Some(e) => ring != [] && ring[0] == e.server
  {
    if q != [] {
      FirstProviderIsRingHead(q[1..], db, sig);
      assert Order(q)[1..] == Order(q[1..]);
      ProvidesIff(db, q[0].server.addr, sig);
    }
  }

  // -------------------------------------------------------------- refinement

  /** The queue without the entry that the stamp table knows for `addr`. */
  function Erased(q: seq<Entry>, stamps: map<Addr, Stamp>, addr: Addr): seq<Entry> {
    if addr in stamps then EraseKey(q, stamps[addr].time, addr) else q
  }

  lemma ErasedEntries(q: seq<Entry>, stamps: map<Addr, Stamp>, addr: Addr)
    requires QueueSorted(q) && QueueMatchesStamps(q, stamps)
    ensures QueueSorted(Erased(q, stamps, addr))
    ensures forall e :: e in Erased(q, stamps, addr) <==> e in q && e.server.addr != addr
    ensures Order(Erased(q, stamps, addr)) == Without(Order(q), addr)
  {
    var time := if addr in stamps then stamps[addr].time else 0;
    EraseKeyElements(q, time, addr);
    EraseKeySorted(q, time, addr);
    EraseKeyOrder(q, time, addr);
    if addr !in stamps {
      EraseNothing(q, time, addr);
    }
  }

  lemma AppendSorted(q: seq<Entry>, e: Entry)
    requires QueueSorted(q)
    requires forall f <- q :: 1 <= f.time < e.time
    ensures QueueSorted(q + [e])
    ensures Order(q + [e]) == Order(q) + [e.server]
  {
    assert forall k :: 0 <= k < |q| ==> q[k] in q;
  }

  lemma AppendMatches(q: seq<Entry>, erased: seq<Entry>, stamps: map<Addr, Stamp>, time: nat, s: Server)
    requires QueueMatchesStamps(q, stamps)
    requires forall e :: e in erased <==> e in q && e.server.addr != s.addr
    requires s.addr in stamps ==> stamps[s.addr].socket == s.socket
    ensures QueueMatchesStamps(erased + [Entry(time, s)], SetStamp(stamps, s, time))
  {
    var queue, after := erased + [Entry(time, s)], SetStamp(stamps, s, time);
    assert Entry(time, s) == queue[|erased|];
    forall a <- after ensures Entry(after[a].time, Server(a, after[a].socket)) in queue {
      if a != s.addr {
        assert after[a] == stamps[a];
        assert Entry(stamps[a].time, Server(a, stamps[a].socket)) in erased;
      }
    }
    forall e <- queue ensures e.server.addr in after && after[e.server.addr] == Stamp(e.server.socket, e.time) {
      if e != Entry(time, s) {
        assert e in erased;
      }
    }
  }

  /** Giving `s` the stamp `time`: what registering and locating share. */
  lemma Restamp(q: seq<Entry>, stamps: map<Addr, Stamp>, time: nat, s: Server)
    requires QueueCoherent(q, stamps, time)
    requires 1 <= time
    requires s.addr in stamps ==> stamps[s.addr].socket == s.socket
    ensures QueueCoherent(Insert(Erased(q, stamps, s.addr), Entry(time, s)), SetStamp(stamps, s, time), time + 1)
    ensures Order(Insert(Erased(q, stamps, s.addr), Entry(time, s))) == MoveToBack(Order(q), s)
  {
    var erased, e := Erased(q, stamps, s.addr), Entry(time, s);
    ErasedEntries(q, stamps, s.addr);
    InsertLatest(erased, e);
    AppendSorted(erased, e);
    AppendMatches(q, erased, stamps, time, s);
  }

  lemma {:induction false} EraseNothing(q: seq<Entry>, time: nat, addr: Addr)
    requires forall e <- q :: e.server.addr != addr
    ensures EraseKey(q, time, addr) == q
  {
    if q != [] {
      assert q[0] in q;
      EraseNothing(q[1..], time, addr);
    }
  }

  /** What the environment must grant: an address that the binder knows is only
      registered again through the socket it is known under. */
  predicate OneSocketPerAddress(db: Db, op: Op) {
    op.Registering? && op.server.addr in db.stamps ==> db.stamps[op.server.addr].socket == op.server.socket
  }

  lemma RegisterRefines(db: Db, sig: Signature, s: Server)
    requires Coherent(db) && OneSocketPerAddress(db, Registering(sig, s))
    requires s.addr in ProvidersOf(db, sig) || db.time + 1 < TIME_LIMIT
    ensures Coherent(Register(db, sig, s).0)
    ensures Abs(Register(db, sig, s).0) == ListStep(Abs(db), Registering(sig, s)).0
    ensures Registered(Register(db, sig, s).1) == ListStep(Abs(db), Registering(sig, s)).1
  {
    ProvidesIff(db, s.addr, sig);
    if s.addr !in ProvidersOf(db, sig) {
      StampIsPositive(db, s.addr);
      assert Register(db, sig, s).0.queue == Insert(Erased(db.queue, db.stamps, s.addr), Entry(db.time, s));
      Restamp(db.queue, db.stamps, db.time, s);
      var d := Register(db, sig, s).0;
      ProvidersAfterRegister(db, sig, s);
      forall a <- d.stamps ensures Listed(d.providers, a) {
        if a == s.addr {
          assert a in d.providers[sig];
        } else {
          ListedStays(db.providers, d.providers, a);
        }
      }
    }
  }

  lemma StampIsPositive(db: Db, a: Addr)
    requires Coherent(db)
    ensures a in db.stamps ==> 1 <= db.stamps[a].time < db.time
  {
    if a in db.stamps {
      assert Entry(db.stamps[a].time, Server(a, db.stamps[a].socket)) in db.queue;
    }
  }

  lemma ProvidersAfterRegister(db: Db, sig: Signature, s: Server)
    requires ProvidersStamped(db.providers, db.stamps)
    requires s.addr in db.stamps ==> db.stamps[s.addr].socket == s.socket
    ensures var providers := db.providers[sig := ProvidersOf(db, sig)[s.addr := s.socket]];
      && ProvidersStamped(providers, SetStamp(db.stamps, s, db.time))
      && Provides(providers) == Provides(db.providers) + {(s.addr, sig)}
      && forall f <- db.providers :: f in providers && db.providers[f].Keys <= providers[f].Keys
  {
  }

  lemma ListedStays(before: map<Signature, map<Addr, Handle>>, after: map<Signature, map<Addr, Handle>>, a: Addr)
    requires Listed(before, a)
    requires forall sig <- before :: a in before[sig] ==> sig in after && a in after[sig]
    ensures Listed(after, a)
  {
    var sig :| sig in before && a in before[sig];
    assert sig in after && a in after[sig];
  }

  lemma LocateRefines(db: Db, sig: Signature)
    requires Coherent(db)
    requires ProvidersOf(db, sig) == map[] || db.time + 1 < TIME_LIMIT
    ensures Coherent(Locate(db, sig).0)
    ensures Abs(Locate(db, sig).0) == ListStep(Abs(db), Locating(sig)).0
    ensures Step(db, Locating(sig)).1 == ListStep(Abs(db), Locating(sig)).1
    ensures Locate(db, sig).1.Some? <==> ProvidersOf(db, sig) != map[]
  {
    if ProvidersOf(db, sig) == map[] {
      LocateFails(db, sig);
    } else {
      ProviderIsQueued(db, sig);
      LocateSucceeds(db, sig, FirstProvider(db.queue, db.providers[sig]).value);
    }
  }

  lemma LocateFails(db: Db, sig: Signature)
    requires Coherent(db) && ProvidersOf(db, sig) == map[]
    ensures Coherent(Locate(db, sig).0)
    ensures Abs(Locate(db, sig).0) == Abs(db) && Locate(db, sig).1 == None && Ring(Abs(db), sig) == []
  {
    var d := Locate(db, sig).0;
    FirstProviderIsRingHead(db.queue, db, sig);
    NoProviderNoRing(db, sig);
    forall a <- d.stamps ensures Listed(d.providers, a) {
      ListedStays(db.providers, d.providers, a);
    }
    assert Provides(d.providers) == Provides(db.providers);
  }

  /** A successful locate restamps the entry it found and touches nothing else. */
  lemma LocateRestamps(db: Db, sig: Signature, e: Entry)
    requires Coherent(db) && ProvidersOf(db, sig) != map[]
    requires FirstProvider(db.queue, db.providers[sig]) == Some(e)
    ensures var d := Locate(db, sig).0;
      && d.queue == Insert(Erased(db.queue, db.stamps, e.server.addr), Entry(db.time, e.server))
      && d.stamps == SetStamp(db.stamps, e.server, db.time)
      && d.providers == db.providers && d.time == Tick(db.time)
    ensures QueueCoherent(Locate(db, sig).0.queue, Locate(db, sig).0.stamps, db.time + 1)
    ensures Order(Locate(db, sig).0.queue) == MoveToBack(Order(db.queue), e.server)
    ensures Locate(db, sig).1 == Some(e.server.addr)
    ensures e.server.addr in db.stamps && db.stamps[e.server.addr].socket == e.server.socket
  {
    assert db.stamps[e.server.addr] == Stamp(e.server.socket, e.time);
    Restamp(db.queue, db.stamps, db.time, e.server);
  }

  lemma LocateSucceeds(db: Db, sig: Signature, e: Entry)
    requires Coherent(db) && ProvidersOf(db, sig) != map[] && db.time + 1 < TIME_LIMIT
    requires FirstProvider(db.queue, db.providers[sig]) == Some(e)
    ensures Coherent(Locate(db, sig).0)
    ensures var ring := Ring(Abs(db), sig);
      && ring != [] && ring[0] == e.server && Locate(db, sig).1 == Some(e.server.addr)
      && Abs(Locate(db, sig).0) == Abs(db).(order := MoveToBack(Abs(db).order, e.server))
  {
    FirstProviderIsRingHead(db.queue, db, sig);
    LocateRestamps(db, sig, e);
  }

  lemma {:induction false} NoProviderNoRing(db: Db, sig: Signature)
    requires ProvidersOf(db, sig) == map[]
    ensures FirstProvider(db.queue, ProvidersOf(db, sig)).None?
  {
  }

  /** A listed provider is in the queue, so the scan of a coherent database never comes back empty-handed. */
  lemma ProviderIsQueued(db: Db, sig: Signature)
    requires Coherent(db) && ProvidersOf(db, sig) != map[]
    ensures FirstProvider(db.queue, db.providers[sig]).Some?
  {
    var a :| a in db.providers[sig];
    assert Entry(db.stamps[a].time, Server(a, db.stamps[a].socket)) in db.queue;
  }

  lemma RemoveRefines(db: Db, h: Handle)
    requires Coherent(db)
    ensures Coherent(Remove(db, h))
    ensures Abs(Remove(db, h)) == ListStep(Abs(db), Removing(h)).0
  {
    RemoveIsCoherent(db, h);
    DropFromQueueOrder(db.queue, h);
    RemoveOffers(db, h);
  }

  lemma RemoveIsCoherent(db: Db, h: Handle)
    requires Coherent(db)
    ensures Coherent(Remove(db, h))
  {
    var d := Remove(db, h);
    DropFromQueueElements(db.queue, h);
    DropFromQueueSorted(db.queue, h);
    forall a <- d.stamps ensures Listed(d.providers, a) {
      ListedStays(db.providers, d.providers, a);
    }
  }

  lemma RemoveOffers(db: Db, h: Handle)
    requires Coherent(db)
    ensures Provides(Remove(db, h).providers) == set p | p in Provides(db.providers) && Server(p.0, h) !in Order(db.queue)
  {
    var d := Remove(db, h);
    forall a, sig
      ensures (a, sig) in Provides(d.providers) <==> (a, sig) in Provides(db.providers) && Server(a, h) !in Order(db.queue)
    {
      ProvidesIff(d, a, sig);
      ProvidesIff(db, a, sig);
      if a in ProvidersOf(db, sig) {
        SocketInOrder(db, a, h);
      }
    }
  }

  lemma SocketInOrder(db: Db, a: Addr, h: Handle)
    requires Coherent(db) && a in db.stamps
    ensures Server(a, h) in Order(db.queue) <==> db.stamps[a].socket == h
  {
    var e := Entry(db.stamps[a].time, Server(a, db.stamps[a].socket));
    var i :| 0 <= i < |db.queue| && db.queue[i] == e;
    assert Order(db.queue)[i] == e.server;
    if Server(a, h) in Order(db.queue) {
      var j :| 0 <= j < |db.queue| && Order(db.queue)[j] == Server(a, h);
      assert db.queue[j] in db.queue;
    }
  }
}
