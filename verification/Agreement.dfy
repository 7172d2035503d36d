/** The binder's directory against the servers' dispatch tables (rpc.cc, binder.cc, libserver.cc).
    Every sequence of actions is a run; an action that is not enabled leaves the state alone.
    Register replies are not lost while the server lives. */
module Agreement {
  import opened Wire
  import opened Args
  import opened Signatures
  import opened BinderDb
  import opened Messages
  import opened BinderDatabases
  import opened Rpc

  datatype Phase = Ready | InRegister(name: Bytes, words: seq<int>, f: Skeleton) | Executing | Gone

  /** A server process: its address, where it is, its dispatch table, and its connection to the binder.
      The binder knows process i by socket i. */
  datatype Process = Process(addr: Addr, phase: Phase, database: ServerDatabase, toBinder: seq<Bytes>, fromBinder: seq<Bytes>)

  datatype System = System(procs: seq<Process>, db: Db)

  datatype Action =
    | CallRegister(i: nat, name: Bytes, argTypes: seq<int>, f: Skeleton)
    | BinderRegisters(i: nat)
    | RegisterReturns(i: nat)
    | EnterExecute(i: nat)
    | BinderLocates(sig: Signature)
    | Crash(i: nat)
    | BinderForgets(i: nat)

  function RequestOf(addr: Addr, name: Bytes, words: seq<int>): Message {
    Register(addr.host, addr.port, name, words)
  }

  /** rpcRegister sends its request; it returns when the answer has come. */
  predicate CanRegister(p: Process, name: Bytes, argTypes: seq<int>) {
    && p.phase.Ready?
    && 0 in argTypes
    && ValidWords(Words(argTypes))
    && WellFormed(RequestOf(p.addr, name, Words(argTypes)))
  }

  function Starting(addrs: seq<Addr>): System {
    System(seq(|addrs|, i requires 0 <= i < |addrs| => Process(addrs[i], Ready, map[], [], [])), EMPTY)
  }

  function Replace(s: System, i: nat, p: Process): System
    requires i < |s.procs|
  {
    s.(procs := s.procs[i := p])
  }

  function Apply(s: System, action: Action): System {
    match action
    case CallRegister(i, name, argTypes, f) =>
      if i < |s.procs| && CanRegister(s.procs[i], name, argTypes) then
        var p, words := s.procs[i], Words(argTypes);
        Replace(s, i, p.(phase := InRegister(name, words, f),
                         toBinder := p.toBinder + [Encode(RequestOf(p.addr, name, words))]))
      else s
    case BinderRegisters(i) => if i < |s.procs| then TakeRequest(s, i) else s
    case RegisterReturns(i) => if i < |s.procs| then Replace(s, i, TakeReply(s.procs[i])) else s
    case EnterExecute(i) =>
      if i < |s.procs| && s.procs[i].phase.Ready? then Replace(s, i, s.procs[i].(phase := Executing)) else s
    case BinderLocates(sig) => s.(db := Step(s.db, Locating(sig)).0)
    case Crash(i) => if i < |s.procs| then Replace(s, i, s.procs[i].(phase := Gone)) else s
    case BinderForgets(i) =>
      // The connection is found closed, or a reply cannot be delivered.
      if i < |s.procs| && s.procs[i].phase.Gone? then s.(db := Remove(s.db, i)) else s
  }

  /** The binder takes a register request off the connection, decodes it and answers. */
  function TakeRequest(s: System, i: nat): System
    requires i < |s.procs|
  {
    var p := s.procs[i];
    if p.toBinder == [] then s
    else
      match ParseRegister(p.toBinder[0])
      case None => s
      case Some(Field(m, _)) =>
        if !ValidWords(m.words) then s
        else
          var (db, reply) := Step(s.db, RegisterOp(m, i));
          Replace(s, i, p.(toBinder := p.toBinder[1..], fromBinder := p.fromBinder + [Encode(ReplyMessage(reply))])).(db := db)
  }

  /** rpcRegister takes the answer and enters the skeleton into the dispatch table on success. */
  function TakeReply(p: Process): Process {
    if !p.phase.InRegister? || p.fromBinder == [] || !ValidWords(p.phase.words) then p
    else
      var buffer := p.fromBinder[0];
      var rest := p.(phase := Ready, fromBinder := p.fromBinder[1..]);
      if buffer != [] && buffer[0] == StatusType(RegisterSuccess)
      then rest.(database := p.database[SignatureOf(p.phase.name, p.phase.words) := p.phase.f])
      else rest
  }

  function Exec(s: System, actions: seq<Action>): System {
    if actions == [] then s else Apply(Exec(s, actions[..|actions| - 1]), actions[|actions| - 1])
  }

  // --------------------------------------------------------------- invariant

  /** The bytes under way between a process and the binder fit the process's place in rpcRegister. */
  ghost predicate ConnectionOk(p: Process) {
    match p.phase
    case Ready => p.toBinder == [] && p.fromBinder == []
    case Executing => p.toBinder == [] && p.fromBinder == []
    case InRegister(name, words, _) =>
      && ValidWords(words) && WellFormed(RequestOf(p.addr, name, words))
      && ((p.toBinder == [Encode(RequestOf(p.addr, name, words))] && p.fromBinder == [])
          || (p.toBinder == [] && exists status :: p.fromBinder == [Encode(Status(RegisterSuccess, status))]))
    case Gone =>
      p.toBinder == [] ||
      exists name, words :: ValidWords(words) && WellFormed(RequestOf(p.addr, name, words))
                            && p.toBinder == [Encode(RequestOf(p.addr, name, words))]
  }

  /** The process can serve the signature, is about to be able to, or is no more. */
  predicate Covered(p: Process, sig: Signature) {
    match p.phase
    case Gone => true
    case InRegister(name, words, _) => sig in p.database || (ValidWords(words) && p.toBinder == [] && sig == SignatureOf(name, words))
    case _ => sig in p.database
  }

  ghost predicate ProcessesOk(s: System) {
    forall i :: 0 <= i < |s.procs| ==> ConnectionOk(s.procs[i])
  }

  /** Whatever is listed belongs to a process, through its own socket, and is covered there. */
  ghost predicate ListingOk(s: System, sig: Signature, a: Addr) {
    a in ProvidersOf(s.db, sig) ==>
      var i := ProvidersOf(s.db, sig)[a];
      i < |s.procs| && s.procs[i].addr == a && Covered(s.procs[i], sig)
  }

  ghost predicate Inv(s: System) {
    ProcessesOk(s) && forall sig, a :: ListingOk(s, sig, a)
  }

  /** A change of one process that keeps its address and covers what it covered keeps the invariant. */
  lemma ProcessReplaced(s: System, i: nat, p: Process)
    requires Inv(s) && i < |s.procs|
    requires ConnectionOk(p) && p.addr == s.procs[i].addr
    requires forall sig :: Covered(s.procs[i], sig) ==> Covered(p, sig)
    ensures Inv(Replace(s, i, p))
  {
    var t := Replace(s, i, p);
    forall sig, a ensures ListingOk(t, sig, a) {
      assert ListingOk(s, sig, a);
    }
  }

  /** A directory that lists no more than before keeps the invariant. */
  lemma DirectoryShrinks(s: System, db: Db)
    requires Inv(s)
    requires forall sig, a :: a in ProvidersOf(db, sig) ==>
      a in ProvidersOf(s.db, sig) && ProvidersOf(db, sig)[a] == ProvidersOf(s.db, sig)[a]
    ensures Inv(s.(db := db))
  {
    forall sig, a ensures ListingOk(s.(db := db), sig, a) {
      assert ListingOk(s, sig, a);
    }
  }

  lemma ProvidersAfter(db: Db, sig: Signature, server: Server, f: Signature, a: Addr)
    requires a in ProvidersOf(BinderDb.Register(db, sig, server).0, f)
    ensures a in ProvidersOf(db, f) || (f == sig && a == server.addr)
    ensures ProvidersOf(BinderDb.Register(db, sig, server).0, f)[a]
         == if a in ProvidersOf(db, f) then ProvidersOf(db, f)[a] else server.socket
  {
  }

  /** The request under way is the one its sender is waiting for, byte for byte. */
  lemma PendingRequest(p: Process) returns (name: Bytes, words: seq<int>)
    requires ConnectionOk(p) && p.toBinder != []
    ensures p.phase.InRegister? || p.phase.Gone?
    ensures ValidWords(words) && p.toBinder == [Encode(RequestOf(p.addr, name, words))]
    ensures ParseRegister(p.toBinder[0]).Some? && ParseRegister(p.toBinder[0]).value.value == RequestOf(p.addr, name, words)
    ensures p.phase.InRegister? ==> name == p.phase.name && words == p.phase.words
  {
    if p.phase.InRegister? {
      name, words := p.phase.name, p.phase.words;
    } else {
      name, words :| ValidWords(words) && WellFormed(RequestOf(p.addr, name, words))
                     && p.toBinder == [Encode(RequestOf(p.addr, name, words))];
    }
    ParsedAs(RequestOf(p.addr, name, words));
  }

  /** The bytes under way reach the database as the signature that their sender means. */
  lemma RequestAnswered(s: System, i: nat) returns (name: Bytes, words: seq<int>)
    requires i < |s.procs| && ConnectionOk(s.procs[i]) && s.procs[i].toBinder != []
    ensures s.procs[i].phase.InRegister? || s.procs[i].phase.Gone?
    ensures s.procs[i].phase.InRegister? ==> name == s.procs[i].phase.name && words == s.procs[i].phase.words
    ensures ValidWords(words) && s.procs[i].toBinder == [Encode(RequestOf(s.procs[i].addr, name, words))]
    ensures var p := s.procs[i];
      var (db, status) := BinderDb.Register(s.db, SignatureOf(name, words), Server(p.addr, i));
      TakeRequest(s, i) == Replace(s, i, p.(toBinder := p.toBinder[1..],
                                            fromBinder := p.fromBinder + [Encode(Status(RegisterSuccess, status))])).(db := db)
  {
    name, words := PendingRequest(s.procs[i]);
    AnswerTo(s, i, name, words);
  }

  lemma AnswerTo(s: System, i: nat, name: Bytes, words: seq<int>)
    requires i < |s.procs| && s.procs[i].toBinder != [] && ValidWords(words)
    requires ParseRegister(s.procs[i].toBinder[0]).Some?
    requires ParseRegister(s.procs[i].toBinder[0]).value.value == RequestOf(s.procs[i].addr, name, words)
    ensures var p := s.procs[i];
      var (db, status) := BinderDb.Register(s.db, SignatureOf(name, words), Server(p.addr, i));
      TakeRequest(s, i) == Replace(s, i, p.(toBinder := p.toBinder[1..],
                                            fromBinder := p.fromBinder + [Encode(Status(RegisterSuccess, status))])).(db := db)
  {
  }

  lemma RequestTaken(s: System, i: nat)
    requires Inv(s) && i < |s.procs|
    ensures Inv(TakeRequest(s, i))
  {
    var p := s.procs[i];
    if p.toBinder != [] {
      var name, words := RequestAnswered(s, i);
      var sig := SignatureOf(name, words);
      var (db, status) := BinderDb.Register(s.db, sig, Server(p.addr, i));
      var q := p.(toBinder := p.toBinder[1..], fromBinder := p.fromBinder + [Encode(Status(RegisterSuccess, status))]);
      AnswerIsOk(p, status);
      RequestListed(s, i, q, sig);
    }
  }

  lemma AnswerIsOk(p: Process, status: int)
    requires ConnectionOk(p) && p.toBinder != []
    ensures ConnectionOk(p.(toBinder := p.toBinder[1..], fromBinder := p.fromBinder + [Encode(Status(RegisterSuccess, status))]))
  {
  }

  lemma RequestListed(s: System, i: nat, q: Process, sig: Signature)
    requires Inv(s) && i < |s.procs| && ConnectionOk(q)
    requires var p := s.procs[i];
      && p.toBinder != [] && q == p.(toBinder := [], fromBinder := q.fromBinder)
      && (p.phase.InRegister? ==> ValidWords(p.phase.words) && sig == SignatureOf(p.phase.name, p.phase.words))
      && (p.phase.InRegister? || p.phase.Gone?)
    ensures Inv(Replace(s, i, q).(db := BinderDb.Register(s.db, sig, Server(s.procs[i].addr, i)).0))
  {
    var server := Server(s.procs[i].addr, i);
    var t := Replace(s, i, q).(db := BinderDb.Register(s.db, sig, server).0);
    forall f, a ensures ListingOk(t, f, a) {
      if a in ProvidersOf(t.db, f) {
        ProvidersAfter(s.db, sig, server, f, a);
        RequestListing(s, i, q, sig, f, a);
      }
    }
  }

  /** Taking the request of process i turns "about to" into "covered" for its signature and loses nothing. */
  lemma RequestListing(s: System, i: nat, q: Process, sig: Signature, f: Signature, a: Addr)
    requires Inv(s) && i < |s.procs|
    requires var p := s.procs[i];
      && p.toBinder != [] && q == p.(toBinder := [], fromBinder := q.fromBinder)
      && (p.phase.InRegister? ==> ValidWords(p.phase.words) && sig == SignatureOf(p.phase.name, p.phase.words))
      && (p.phase.InRegister? || p.phase.Gone?)
    requires a in ProvidersOf(s.db, f) || (f == sig && a == s.procs[i].addr)
    ensures var j := if a in ProvidersOf(s.db, f) then ProvidersOf(s.db, f)[a] else i;
      j < |s.procs| && s.procs[j].addr == a && Covered(if j == i then q else s.procs[j], f)
  {
    assert ListingOk(s, f, a);
  }

  lemma ReplyTaken(p: Process)
    requires ConnectionOk(p)
    ensures ConnectionOk(TakeReply(p)) && TakeReply(p).addr == p.addr
    ensures forall sig :: Covered(p, sig) ==> Covered(TakeReply(p), sig)
  {
  }

  lemma StepKeepsInv(s: System, action: Action)
    requires Inv(s)
    ensures Inv(Apply(s, action))
  {
    match action
    case CallRegister(i, name, argTypes, f) =>
      if i < |s.procs| && CanRegister(s.procs[i], name, argTypes) {
        ProcessReplaced(s, i, Apply(s, action).procs[i]);
      }
    case BinderRegisters(i) =>
      if i < |s.procs| {
        RequestTaken(s, i);
      }
    case RegisterReturns(i) =>
      if i < |s.procs| {
        ReplyTaken(s.procs[i]);
        ProcessReplaced(s, i, TakeReply(s.procs[i]));
      }
    case EnterExecute(i) =>
      if i < |s.procs| && s.procs[i].phase.Ready? {
        ProcessReplaced(s, i, s.procs[i].(phase := Executing));
      }
    case BinderLocates(sig) => DirectoryShrinks(s, Step(s.db, Locating(sig)).0);
    case Crash(i) =>
      if i < |s.procs| {
        CrashIsOk(s.procs[i]);
        ProcessReplaced(s, i, s.procs[i].(phase := Gone));
      }
    case BinderForgets(i) => DirectoryShrinks(s, Remove(s.db, i));
  }

  lemma CrashIsOk(p: Process)
    requires ConnectionOk(p)
    ensures ConnectionOk(p.(phase := Gone))
  {
    if p.toBinder != [] {
      var name, words := PendingRequest(p);
      if p.phase.InRegister? {
        assert WellFormed(RequestOf(p.addr, p.phase.name, p.phase.words));
      }
    }
  }

  lemma {:induction false} AlwaysInv(addrs: seq<Addr>, actions: seq<Action>)
    ensures Inv(Exec(Starting(addrs), actions))
  {
    if actions != [] {
      var k := |actions| - 1;
      AlwaysInv(addrs, actions[..k]);
      StepKeepsInv(Exec(Starting(addrs), actions[..k]), actions[k]);
    }
  }

  // ------------------------------------------------- what a process has asked

  /** The action is a call of rpcRegister by process i, for the signature, that can go ahead. */
  predicate AsksNow(s: System, action: Action, i: nat, sig: Signature) {
    && action.CallRegister? && action.i == i && i < |s.procs|
    && CanRegister(s.procs[i], action.name, action.argTypes)
    && sig == SignatureOf(action.name, Words(action.argTypes))
  }

  /** Some action of the run asked to register the signature for process i. */
  predicate Asked(addrs: seq<Addr>, actions: seq<Action>, i: nat, sig: Signature) {
    actions != [] &&
    var k := |actions| - 1;
    Asked(addrs, actions[..k], i, sig) || AsksNow(Exec(Starting(addrs), actions[..k]), actions[k], i, sig)
  }

  /** The process has the signature in its table, or will have it when rpcRegister returns. */
  predicate Knows(p: Process, sig: Signature) {
    sig in p.database || (p.phase.InRegister? && ValidWords(p.phase.words) && sig == SignatureOf(p.phase.name, p.phase.words))
  }

  lemma StepTeaches(s: System, action: Action, i: nat, sig: Signature)
    requires Inv(s) && i < |Apply(s, action).procs| && !Apply(s, action).procs[i].phase.Gone?
    ensures i < |s.procs| && !s.procs[i].phase.Gone?
    ensures Knows(Apply(s, action).procs[i], sig) <==> Knows(s.procs[i], sig) || AsksNow(s, action, i, sig)
  {
    match action
    case BinderRegisters(j) =>
      if j < |s.procs| && s.procs[j].toBinder != [] {
        var name, words := RequestAnswered(s, j);
      }
    case RegisterReturns(j) =>
      if j < |s.procs| {
        ReplyTeaches(s.procs[j], sig);
      }
    case _ =>
  }

  lemma ReplyTeaches(p: Process, sig: Signature)
    requires ConnectionOk(p)
    ensures Knows(TakeReply(p), sig) <==> Knows(p, sig)
    ensures TakeReply(p).phase.Gone? <==> p.phase.Gone?
  {
  }

  lemma {:induction false} KnowsWhatItAsked(addrs: seq<Addr>, actions: seq<Action>, i: nat, sig: Signature)
    requires i < |Exec(Starting(addrs), actions).procs|
    ensures !Exec(Starting(addrs), actions).procs[i].phase.Gone? ==>
      (Knows(Exec(Starting(addrs), actions).procs[i], sig) <==> Asked(addrs, actions, i, sig))
  {
    if actions != [] && !Exec(Starting(addrs), actions).procs[i].phase.Gone? {
      var k := |actions| - 1;
      AlwaysInv(addrs, actions[..k]);
      StepTeaches(Exec(Starting(addrs), actions[..k]), actions[k], i, sig);
      KnowsWhatItAsked(addrs, actions[..k], i, sig);
    }
  }

  // ------------------------------------------------------------ main results

  /** In every run: a server that has entered rpcExecute has exactly the signatures in its table that it has
      asked to register. */
  lemma TableIsWhatWasAsked(addrs: seq<Addr>, actions: seq<Action>, i: nat, sig: Signature)
    ensures var s := Exec(Starting(addrs), actions);
      i < |s.procs| && s.procs[i].phase.Executing? ==> (sig in s.procs[i].database <==> Asked(addrs, actions, i, sig))
  {
    if i < |Exec(Starting(addrs), actions).procs| {
      KnowsWhatItAsked(addrs, actions, i, sig);
    }
  }

  /** In every run: whatever address the binder lists for a signature, it is the address of the process behind
      the listed socket; and once that process has entered rpcExecute, its table has the signature. */
  lemma ListedIsKnown(addrs: seq<Addr>, actions: seq<Action>, a: Addr, sig: Signature)
    ensures var s := Exec(Starting(addrs), actions);
      a in ProvidersOf(s.db, sig) ==>
        var i := ProvidersOf(s.db, sig)[a];
        i < |s.procs| && s.procs[i].addr == a && (s.procs[i].phase.Executing? ==> sig in s.procs[i].database)
  {
    AlwaysInv(addrs, actions);
    assert ListingOk(Exec(Starting(addrs), actions), sig, a);
  }

  /** In every run, for every located call and whatever equivalent type words the client uses: the process behind
      the listed socket, once it executes, runs a skeleton. Any process that executes at the address does, if and
      only if it has itself asked to register the signature. */
  lemma LocatedCallIsKnown(addrs: seq<Addr>, actions: seq<Action>, name: Bytes, words: seq<int>, args: seq<Bytes>, a: Addr)
    requires ValidWords(words)
    requires Step(Exec(Starting(addrs), actions).db, Locating(SignatureOf(name, words))).1 == Located(a)
    ensures var s, sig := Exec(Starting(addrs), actions), SignatureOf(name, words);
      && a in ProvidersOf(s.db, sig)
      && var i := ProvidersOf(s.db, sig)[a];
         && i < |s.procs| && s.procs[i].addr == a
         && (s.procs[i].phase.Executing? ==> Execution(s.procs[i].database, name, words, args).Ran?)
    ensures var s, sig := Exec(Starting(addrs), actions), SignatureOf(name, words);
      forall j :: 0 <= j < |s.procs| && s.procs[j].addr == a && s.procs[j].phase.Executing? ==>
        (Execution(s.procs[j].database, name, words, args).Ran? <==> Asked(addrs, actions, j, sig))
  {
    var s, sig := Exec(Starting(addrs), actions), SignatureOf(name, words);
    ListedIsKnown(addrs, actions, a, sig);
    forall j | 0 <= j < |s.procs| && s.procs[j].addr == a && s.procs[j].phase.Executing?
      ensures Execution(s.procs[j].database, name, words, args).Ran? <==> Asked(addrs, actions, j, sig)
    {
      TableIsWhatWasAsked(addrs, actions, j, sig);
    }
  }

  /** A call for the words is sent to the address, where the second process executes and does not know the procedure. */
  predicate NewcomerMisses(s: System, a: Addr, name: Bytes, words: seq<int>, args: seq<Bytes>)
    requires ValidWords(words)
  {
    && Step(s.db, Locating(SignatureOf(name, words))).1 == Located(a)
    && |s.procs| == 2 && s.procs[1].addr == a && s.procs[1].phase.Executing?
    && Execution(s.procs[1].database, name, words, args) == Unknown
  }

  /** Why the socket matters: a server registers and dies, another one starts at its address and enters rpcExecute
      before the binder has noticed. */
  lemma ReusedAddress(a: Addr, name: Bytes, argTypes: seq<int>, args: seq<Bytes>, f: Skeleton)
    requires 0 in argTypes && ValidWords(Words(argTypes)) && WellFormed(RequestOf(a, name, Words(argTypes)))
    ensures var actions := [CallRegister(0, name, argTypes, f), BinderRegisters(0), Crash(0), EnterExecute(1)];
      NewcomerMisses(Exec(Starting([a, a]), actions), a, name, Words(argTypes), args)
  {
    var s := Apply(Apply(Starting([a, a]), CallRegister(0, name, argTypes, f)), BinderRegisters(0));
    FirstRegisters(a, name, argTypes, f);
    Replaced(s, a, name, Words(argTypes), args);
    ExecFour(Starting([a, a]), CallRegister(0, name, argTypes, f), BinderRegisters(0), Crash(0), EnterExecute(1));
  }

  lemma Replaced(s: System, a: Addr, name: Bytes, words: seq<int>, args: seq<Bytes>)
    requires ValidWords(words) && s.db == BinderDb.Register(EMPTY, SignatureOf(name, words), Server(a, 0)).0
    requires |s.procs| == 2 && s.procs[1] == Process(a, Ready, map[], [], [])
    ensures NewcomerMisses(Apply(Apply(s, Crash(0)), EnterExecute(1)), a, name, words, args)
  {
    var t := Apply(Apply(s, Crash(0)), EnterExecute(1));
    assert t.db == s.db && t.procs[1] == Process(a, Executing, map[], [], []);
    RegisteredIsLocated(SignatureOf(name, words), Server(a, 0));
  }

  lemma ExecFour(s: System, a1: Action, a2: Action, a3: Action, a4: Action)
    ensures Exec(s, [a1, a2, a3, a4]) == Apply(Apply(Apply(Apply(s, a1), a2), a3), a4)
  {
    assert [a1, a2, a3, a4][..3] == [a1, a2, a3] && [a1, a2, a3][..2] == [a1, a2] && [a1, a2][..1] == [a1] && [a1][..0] == [];
    assert Exec(s, [a1]) == Apply(Exec(s, []), a1);
    assert Exec(s, [a1, a2]) == Apply(Exec(s, [a1]), a2);
    assert Exec(s, [a1, a2, a3]) == Apply(Exec(s, [a1, a2]), a3);
  }

  lemma FirstRegisters(a: Addr, name: Bytes, argTypes: seq<int>, f: Skeleton)
    requires 0 in argTypes && ValidWords(Words(argTypes)) && WellFormed(RequestOf(a, name, Words(argTypes)))
    ensures var s := Apply(Apply(Starting([a, a]), CallRegister(0, name, argTypes, f)), BinderRegisters(0));
      && s.db == BinderDb.Register(EMPTY, SignatureOf(name, Words(argTypes)), Server(a, 0)).0
      && |s.procs| == 2 && s.procs[1] == Process(a, Ready, map[], [], [])
  {
    var start := Starting([a, a]);
    var s := Apply(start, CallRegister(0, name, argTypes, f));
    assert s.procs[1] == start.procs[1] && |s.procs| == 2 && s.db == EMPTY;
    assert s.procs[0].phase == InRegister(name, Words(argTypes), f);
    assert s.procs[0].toBinder == [Encode(RequestOf(a, name, Words(argTypes)))];
    FirstIsAnswered(s);
  }

  lemma FirstIsAnswered(s: System)
    requires |s.procs| == 2 && ConnectionOk(s.procs[0]) && s.procs[0].toBinder != [] && s.procs[0].phase.InRegister?
    ensures var p, after := s.procs[0], Apply(s, BinderRegisters(0));
      && after.db == BinderDb.Register(s.db, SignatureOf(p.phase.name, p.phase.words), Server(p.addr, 0)).0
      && |after.procs| == 2 && after.procs[1] == s.procs[1]
  {
    var sent, words := RequestAnswered(s, 0);
  }

  lemma RegisteredIsLocated(sig: Signature, server: Server)
    ensures Step(BinderDb.Register(EMPTY, sig, server).0, Locating(sig)).1 == Located(server.addr)
  {
    var listed := BinderDb.Register(EMPTY, sig, server).0;
    assert listed.queue == [Entry(1, server)];
    assert ProvidersOf(listed, sig) == map[server.addr := server.socket];
  }
}
