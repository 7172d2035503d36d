/** What a client gets from the whole system: binder, servers and call together. */
module EndToEnd {
  import opened Wire
  import opened Args
  import opened Signatures
  import opened BinderDb
  import opened Lru
  import opened Coherence
  import opened Messages
  import opened ExecuteMessages
  import opened Rpc
  import Agreement
  import Framing

  /** No provider of the signature has a smaller timestamp. */
  predicate LongestWaiting(db: Db, sig: Signature, a: Addr) {
    && a in ProvidersOf(db, sig) && a in db.stamps
    && forall b <- ProvidersOf(db, sig) :: b in db.stamps && db.stamps[a].time <= db.stamps[b].time
  }

  /** A call runs the procedure of the provider that has waited longest, as if it were local, and sends
      that provider to the end of the queue. */
  lemma CallRunsLongestWaiting(db: Db, servers: Servers, name: Bytes, words: seq<int>, memory: seq<Bytes>)
    requires Coherent(db) && db.time + 1 < TIME_LIMIT
    requires ValidWords(words) && Covers(words, memory) && forall a <- servers :: AllInPlace(servers[a])
    requires ProvidersOf(db, SignatureOf(name, words)) != map[]
    requires forall a <- ProvidersOf(db, SignatureOf(name, words)) :: a in servers && SignatureOf(name, words) in servers[a]
    ensures var sig := SignatureOf(name, words);
      var (after, reply) := Step(db, Locating(sig));
      var ring := Ring(Abs(db), sig);
      && ring != [] && LongestWaiting(db, sig, ring[0].addr)
      && Abs(after).order == MoveToBack(Abs(db).order, ring[0])
      && AsIfLocal(words, memory,
                   CallEffect(Completed, reply, servers, Completed, name, words, memory),
                   Local(servers[ring[0].addr][sig], words, memory))
  {
    var sig := SignatureOf(name, words);
    ProviderIsQueued(db, sig);
    var e := FirstProvider(db.queue, db.providers[sig]).value;
    LocateSucceeds(db, sig, e);
    FirstIsOldest(db, sig, e);
    RemoteMeansLocal(e.server.addr, servers, name, words, memory);
  }

  /** The entry the scan finds has the smallest timestamp among the providers. */
  lemma FirstIsOldest(db: Db, sig: Signature, e: Entry)
    requires Coherent(db) && FirstProvider(db.queue, ProvidersOf(db, sig)) == Some(e)
    ensures LongestWaiting(db, sig, e.server.addr)
  {
    forall a <- ProvidersOf(db, sig) ensures e.time <= db.stamps[a].time {
      OldestInQueue(db.queue, ProvidersOf(db, sig), e, Entry(db.stamps[a].time, Server(a, db.stamps[a].socket)));
    }
  }

  lemma {:induction false} OldestInQueue(q: seq<Entry>, servers: map<Addr, Handle>, e: Entry, other: Entry)
    requires QueueSorted(q) && FirstProvider(q, servers) == Some(e)
    requires other in q && other.server.addr in servers
    ensures e.time <= other.time
  {
    if q[0].server.addr !in servers {
      assert other in q[1..];
      OldestInQueue(q[1..], servers, e, other);
    }
  }

  /** In every run of binder and servers without lost register replies: a call located at an address means what a
      local call of the registered skeleton means, for the process behind the listed socket once it has entered
      rpcExecute, and for any other process that executes at that address and has asked to register the signature. */
  lemma LocatedCallMeansLocal(addrs: seq<Addr>, actions: seq<Agreement.Action>, i: nat,
                              name: Bytes, words: seq<int>, memory: seq<Bytes>)
    requires ValidWords(words) && Covers(words, memory)
    requires i < |Agreement.Exec(Agreement.Starting(addrs), actions).procs|
    ensures var s := Agreement.Exec(Agreement.Starting(addrs), actions);
      var p, sig := s.procs[i], SignatureOf(name, words);
      && p.phase.Executing? && AllInPlace(p.database) && Step(s.db, Locating(sig)).1 == Located(p.addr)
      && (ProvidersOf(s.db, sig)[p.addr] == i || Agreement.Asked(addrs, actions, i, sig)) ==>
        && sig in p.database
        && AsIfLocal(words, memory,
                     CallEffect(Completed, Located(p.addr), map[p.addr := p.database], Completed, name, words, memory),
                     Local(p.database[sig], words, memory))
  {
    var s := Agreement.Exec(Agreement.Starting(addrs), actions);
    var p, sig := s.procs[i], SignatureOf(name, words);
    if && p.phase.Executing? && AllInPlace(p.database) && Step(s.db, Locating(sig)).1 == Located(p.addr)
       && (ProvidersOf(s.db, sig)[p.addr] == i || Agreement.Asked(addrs, actions, i, sig)) {
      Agreement.ListedIsKnown(addrs, actions, p.addr, sig);
      Agreement.TableIsWhatWasAsked(addrs, actions, i, sig);
      RemoteMeansLocal(p.addr, map[p.addr := p.database], name, words, memory);
    }
  }

  function Encodings(ms: seq<Message>): (buffers: seq<Bytes>)
    ensures |buffers| == |ms| && forall k :: 0 <= k < |ms| ==> buffers[k] == Encode(ms[k])
  {
    seq(|ms|, k requires 0 <= k < |ms| => Encode(ms[k]))
  }

  /** The k-th buffer that the reader of a connection holds is decoded to the k-th message its writer has sent,
      however writes and reads are cut and interleaved; and when nothing is under way it holds them all. */
  lemma FramedMessagesArrive(ms: seq<Message>, moves: seq<Framing.Move>)
    requires forall k :: 0 <= k < |ms| ==> WellFormed(ms[k])
    ensures var l := Framing.MovedAll(Framing.Link(Framing.Frames(Encodings(ms)), [], []), moves);
      var buffers := Framing.Messages(l.got);
      && |buffers| <= |ms|
      && (forall k :: 0 <= k < |buffers| ==> Parse(buffers[k]) == Some(Field(ms[k], |buffers[k]|)))
      && (l.unsent == [] && l.wire == [] ==> |buffers| == |ms|)
  {
    var sent := Encodings(ms);
    forall k | 0 <= k < |ms| ensures |sent[k]| < INT_LIMIT {
      WellFormedFits(ms[k]);
    }
    Framing.FramedStreamFidelity(sent, moves);
    var l := Framing.MovedAll(Framing.Link(Framing.Frames(sent), [], []), moves);
    var buffers := Framing.Messages(l.got);
    forall k | 0 <= k < |buffers| ensures Parse(buffers[k]) == Some(Field(ms[k], |buffers[k]|)) {
      assert buffers[k] == sent[k];
      RoundTrip(ms[k]);
    }
  }
}
