/** The binder's three redundant indexes as a value, and what each request does to them (binder.cc). */
module BinderDb {
  import opened Wire
  import opened Signatures

  /** Identity of a TcpSocket object: what the code compares when it compares socket pointers. */
  type Handle = nat

  datatype Addr = Addr(host: Bytes, port: int)

  /** ServerData: the socket is carried along but takes no part in comparisons. */
  datatype Server = Server(addr: Addr, socket: Handle)

  datatype Entry = Entry(time: nat, server: Server)

  /** A node of server_to_timestamp: the socket stored in its key, and its value. */
  datatype Stamp = Stamp(socket: Handle, time: nat)

  /** `queue` lists server_queue in its iteration order. A std::set<ServerData> is a map from
      address to the socket stored in the element, because equal keys differ at most in the socket. */
  datatype Db = Db(
    time: nat,
    queue: seq<Entry>,
    stamps: map<Addr, Stamp>,
    providers: map<Signature, map<Addr, Handle>>)

  const EMPTY := Db(1, [], map[], map[])

  /** `time_` is a 32-bit unsigned int. */
  const TIME_LIMIT: nat := 0x1_0000_0000

  function Tick(time: nat): nat {
    (time + 1) % TIME_LIMIT
  }

  // ----------------------------------------------------- order of std::set

  predicate HostBefore(a: Bytes, b: Bytes) {
    b != [] && (a == [] || a[0] < b[0] || (a[0] == b[0] && HostBefore(a[1..], b[1..])))
  }

  predicate AddrBefore(a: Addr, b: Addr) {
    HostBefore(a.host, b.host) || (!HostBefore(b.host, a.host) && a.port < b.port)
  }

  predicate EntryBefore(e: Entry, f: Entry) {
    e.time < f.time || (e.time == f.time && AddrBefore(e.server.addr, f.server.addr))
  }

  lemma {:induction false} HostOrder(a: Bytes, b: Bytes)
    ensures !HostBefore(a, b) && !HostBefore(b, a) <==> a == b
  {
    if a != [] && b != [] && a[0] == b[0] {
      HostOrder(a[1..], b[1..]);
      assert a == [a[0]] + a[1..] && b == [b[0]] + b[1..];
    }
  }

  /** The strings agree before position k, where the first one ends or has the smaller byte. */
  predicate SmallerAt(a: Bytes, b: Bytes, k: int) {
    0 <= k <= |a| && k < |b| && a[..k] == b[..k] && (k == |a| || a[k] < b[k])
  }

  /** The comparison of host names is that of std::string: a proper prefix comes first, and otherwise the first byte
      that differs decides. */
  lemma {:induction false} HostBeforeIsLexicographic(a: Bytes, b: Bytes)
    ensures HostBefore(a, b) <==> exists k :: SmallerAt(a, b, k)
  {
    if b == [] || a == [] || a[0] != b[0] {
      if HostBefore(a, b) {
        assert SmallerAt(a, b, 0);
      }
      if k :| SmallerAt(a, b, k) {
        if k > 0 {
          assert a[..k][0] == b[..k][0];
        }
      }
    } else {
      HostBeforeIsLexicographic(a[1..], b[1..]);
      if HostBefore(a, b) {
        var k :| SmallerAt(a[1..], b[1..], k);
        assert a[..k + 1] == [a[0]] + a[1..][..k] && b[..k + 1] == [b[0]] + b[1..][..k];
        assert SmallerAt(a, b, k + 1);
      }
      if k :| SmallerAt(a, b, k) {
        assert k > 0 && a[1..][..k - 1] == a[..k][1..] && b[1..][..k - 1] == b[..k][1..];
        assert SmallerAt(a[1..], b[1..], k - 1);
      }
    }
  }

  /** Servers are ordered as the pair of host name and port. */
  lemma AddrBeforeIsPairOrder(a: Addr, b: Addr)
    ensures AddrBefore(a, b) <==> (exists k :: SmallerAt(a.host, b.host, k)) || (a.host == b.host && a.port < b.port)
  {
    HostBeforeIsLexicographic(a.host, b.host);
    HostOrder(a.host, b.host);
    HostIrreflexive(a.host);
  }

  lemma {:induction false} HostTransitive(a: Bytes, b: Bytes, c: Bytes)
    requires HostBefore(a, b) && HostBefore(b, c)
    ensures HostBefore(a, c)
  {
    if a != [] && b != [] && c != [] && a[0] == b[0] == c[0] {
      HostTransitive(a[1..], b[1..], c[1..]);
    }
  }

  /** The comparison of ServerData is transitive, as a std::map needs it. */
  lemma AddrTransitive(a: Addr, b: Addr, c: Addr)
    requires AddrBefore(a, b) && AddrBefore(b, c)
    ensures AddrBefore(a, c)
  {
    HostOrder(a.host, b.host);
    HostOrder(b.host, c.host);
    if HostBefore(a.host, b.host) && HostBefore(b.host, c.host) {
      HostTransitive(a.host, b.host, c.host);
    }
  }

  lemma {:induction false} HostIrreflexive(a: Bytes)
    ensures !HostBefore(a, a)
  {
    if a != [] {
      HostIrreflexive(a[1..]);
    }
  }

  lemma NotBothBefore(a: Addr, b: Addr)
    ensures !(AddrBefore(a, b) && AddrBefore(b, a))
  {
    if AddrBefore(a, b) && AddrBefore(b, a) {
      AddrTransitive(a, b, a);
      HostIrreflexive(a.host);
    }
  }

  /** The key at which the iteration over a std::map goes on. */
  predicate IsFirst(addrs: set<Addr>, a: Addr) {
    a in addrs && forall b <- addrs :: a == b || AddrBefore(a, b)
  }

  lemma {:induction false} FirstExists(addrs: set<Addr>) returns (a: Addr)
    requires addrs != {}
    ensures IsFirst(addrs, a)
    decreases |addrs|
  {
    var b :| b in addrs;
    if addrs == {b} {
      a := b;
    } else {
      var c := FirstExists(addrs - {b});
      AddrOrder(b, c);
      a := if AddrBefore(b, c) then b else c;
      forall d <- addrs ensures a == d || AddrBefore(a, d) {
        if d != b && d != c && a == b {
          AddrTransitive(b, c, d);
        }
      }
    }
  }

  /** The comparison of ServerData identifies exactly the servers with equal host and port. */
  lemma AddrOrder(a: Addr, b: Addr)
    ensures !AddrBefore(a, b) && !AddrBefore(b, a) <==> a == b
  {
    HostOrder(a.host, b.host);
  }

  // ------------------------------------------------------------- operations

  predicate HasKey(e: Entry, time: nat, addr: Addr) {
    e.time == time && e.server.addr == addr
  }

  function EraseKey(q: seq<Entry>, time: nat, addr: Addr): seq<Entry> {
    if q == [] then []
    else if HasKey(q[0], time, addr) then EraseKey(q[1..], time, addr)
    else [q[0]] + EraseKey(q[1..], time, addr)
  }

  /** Ordered insertion; an element with an equal key is kept and the new one dropped. */
  function Insert(q: seq<Entry>, e: Entry): seq<Entry> {
    if q == [] || EntryBefore(e, q[0]) then [e] + q
    else if EntryBefore(q[0], e) then [q[0]] + Insert(q[1..], e)
    else q
  }

  function FirstProvider(q: seq<Entry>, servers: map<Addr, Handle>): (r: Option<Entry>)
    ensures r.Some? ==> r.value in q && r.value.server.addr in servers
    ensures r.None? ==> forall e <- q :: e.server.addr !in servers
  {
    if q == [] then None
    else if q[0].server.addr in servers then Some(q[0])
    else FirstProvider(q[1..], servers)
  }

  /** server_to_timestamp[server] = time: a key already present keeps its stored socket. */
  function SetStamp(stamps: map<Addr, Stamp>, server: Server, time: nat): map<Addr, Stamp> {
    var socket := if server.addr in stamps then stamps[server.addr].socket else server.socket;
    stamps[server.addr := Stamp(socket, time)]
  }

  function ProvidersOf(db: Db, sig: Signature): map<Addr, Handle> {
    if sig in db.providers then db.providers[sig] else map[]
  }

  function Register(db: Db, sig: Signature, server: Server): (Db, int) {
    var known := ProvidersOf(db, sig);
    if server.addr in known then (db, 1)
    else
      var queue := if server.addr in db.stamps && db.stamps[server.addr].time > 0
                   then EraseKey(db.queue, db.stamps[server.addr].time, server.addr)
                   else db.queue;
      (Db(Tick(db.time),
          Insert(queue, Entry(db.time, server)),
          SetStamp(db.stamps, server, db.time),
          db.providers[sig := known[server.addr := server.socket]]), 0)
  }

  function Locate(db: Db, sig: Signature): (Db, Option<Addr>) {
    if ProvidersOf(db, sig) == map[] then (db.(providers := db.providers - {sig}), None)
    else
      match FirstProvider(db.queue, db.providers[sig])
      case None => (db, None)
      case Some(e) =>
        (db.(time := Tick(db.time),
             queue := Insert(EraseKey(db.queue, e.time, e.server.addr), Entry(db.time, e.server)),
             stamps := SetStamp(db.stamps, e.server, db.time)),
         Some(e.server.addr))
  }

  function DropFromQueue(q: seq<Entry>, h: Handle): seq<Entry> {
    if q == [] then []
    else if q[0].server.socket == h then DropFromQueue(q[1..], h)
    else [q[0]] + DropFromQueue(q[1..], h)
  }

  function DropStamps(stamps: map<Addr, Stamp>, h: Handle): map<Addr, Stamp> {
    map a | a in stamps && stamps[a].socket != h :: stamps[a]
  }

  function DropServers(servers: map<Addr, Handle>, h: Handle): map<Addr, Handle> {
    map a | a in servers && servers[a] != h :: servers[a]
  }

  function DropProviders(providers: map<Signature, map<Addr, Handle>>, h: Handle)
    : map<Signature, map<Addr, Handle>>
  {
    map sig | sig in providers :: DropServers(providers[sig], h)
  }

  function Remove(db: Db, h: Handle): Db {
    Db(db.time, DropFromQueue(db.queue, h), DropStamps(db.stamps, h), DropProviders(db.providers, h))
  }

  lemma {:induction false} DropKeeps(q: seq<Entry>, h: Handle)
    ensures multiset(DropFromQueue(q, h)) <= multiset(q)
    ensures forall e :: multiset(DropFromQueue(q, h))[e] == if e.server.socket == h then 0 else multiset(q)[e]
  {
    if q != [] {
      DropKeeps(q[1..], h);
      assert q == [q[0]] + q[1..];
    }
  }

  /** In any state, coherent or not, removal takes out of the three indexes what is stored under the socket, and nothing else. */
  lemma RemovesExactly(db: Db, h: Handle)
    ensures Remove(db, h).time == db.time
    ensures forall e :: multiset(Remove(db, h).queue)[e] == if e.server.socket == h then 0 else multiset(db.queue)[e]
    ensures forall a :: a in Remove(db, h).stamps <==> a in db.stamps && db.stamps[a].socket != h
    ensures forall a <- Remove(db, h).stamps :: Remove(db, h).stamps[a] == db.stamps[a]
    ensures Remove(db, h).providers.Keys == db.providers.Keys
    ensures forall sig, a :: a in ProvidersOf(Remove(db, h), sig) <==> a in ProvidersOf(db, sig) && ProvidersOf(db, sig)[a] != h
    ensures forall sig, a :: a in ProvidersOf(Remove(db, h), sig) ==> ProvidersOf(Remove(db, h), sig)[a] == ProvidersOf(db, sig)[a]
  {
    DropKeeps(db.queue, h);
  }

  lemma {:induction false} InsertEntries(q: seq<Entry>, e: Entry)
    ensures forall f <- Insert(q, e) :: f == e || f in q
  {
    if q != [] {
      InsertEntries(q[1..], e);
      assert q == [q[0]] + q[1..];
    }
  }

  lemma {:induction false} EraseEntries(q: seq<Entry>, time: nat, addr: Addr)
    ensures forall f <- EraseKey(q, time, addr) :: f in q
  {
    if q != [] {
      EraseEntries(q[1..], time, addr);
    }
  }

  lemma {:induction false} DropEntries(q: seq<Entry>, h: Handle)
    ensures forall f <- DropFromQueue(q, h) :: f in q && f.server.socket != h
  {
    if q != [] {
      DropEntries(q[1..], h);
    }
  }

  // ------------------------------------------------------------------- runs

  datatype Op = Registering(sig: Signature, server: Server) | Locating(sig: Signature) | Removing(socket: Handle)

  datatype Reply = Registered(status: int) | Located(addr: Addr) | NotLocated | Removed

  function Step(db: Db, op: Op): (Db, Reply) {
    match op
    case Registering(sig, server) => var (d, status) := Register(db, sig, server); (d, Registered(status))
    case Locating(sig) => var (d, r) := Locate(db, sig); (d, if r.Some? then Located(r.value) else NotLocated)
    case Removing(h) => (Remove(db, h), Removed)
  }

  function Run(db: Db, ops: seq<Op>): Db
    decreases |ops|
  {
    if ops == [] then db else Run(Step(db, ops[0]).0, ops[1..])
  }

  lemma {:induction false} RunAppend(db: Db, first: seq<Op>, second: seq<Op>)
    ensures Run(db, first + second) == Run(Run(db, first), second)
    decreases |first|
  {
    if first == [] {
      assert first + second == second;
    } else {
      assert (first + second)[1..] == first[1..] + second;
      RunAppend(Step(db, first[0]).0, first[1..], second);
    }
  }

  function Replies(db: Db, ops: seq<Op>): (r: seq<Reply>)
    ensures |r| == |ops|
    decreases |ops|
  {
    if ops == [] then [] else [Step(db, ops[0]).1] + Replies(Step(db, ops[0]).0, ops[1..])
  }

  /** The replies that stamped a server: fresh registrations and successful locates. */
  predicate Stamps(r: Reply) {
    r == Registered(0) || r.Located?
  }

  function CountStamps(replies: seq<Reply>): (n: nat)
    ensures n <= |replies|
  {
    if replies == [] then 0 else (if Stamps(replies[0]) then 1 else 0) + CountStamps(replies[1..])
  }

  lemma StepClock(db: Db, op: Op)
    ensures Step(db, op).0.time == if Stamps(Step(db, op).1) then Tick(db.time) else db.time
  {
  }

  lemma TickThen(time: nat, n: nat)
    ensures (Tick(time) + n) % TIME_LIMIT == (time + (1 + n)) % TIME_LIMIT
  {
    assert time + 1 == TIME_LIMIT * ((time + 1) / TIME_LIMIT) + Tick(time);
  }

  /** In every database, coherent or not, the clock counts the stamps, modulo its width. */
  lemma {:induction false} ClockCountsStamps(db: Db, ops: seq<Op>)
    requires db.time < TIME_LIMIT
    ensures Run(db, ops).time == (db.time + CountStamps(Replies(db, ops))) % TIME_LIMIT
    decreases |ops|
  {
    if ops != [] {
      StepClock(db, ops[0]);
      var d := Step(db, ops[0]).0;
      ClockCountsStamps(d, ops[1..]);
      var later := Replies(d, ops[1..]);
      assert Replies(db, ops)[1..] == later;
      TickThen(db.time, CountStamps(later));
    }
  }
}
