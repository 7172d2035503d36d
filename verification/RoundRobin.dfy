/** Exact round robin: locates of one signature, undisturbed, walk around its providers. */
module RoundRobin {
  import opened Signatures
  import opened BinderDb
  import opened Lru
  import opened Coherence
  import opened Refinement
  import opened Fairness

  /** The answers given to the locates of f, in order. */
  function Answers(ops: seq<Op>, replies: seq<Reply>, f: Signature): seq<Addr>
    requires |ops| == |replies|
  {
    if ops == [] then []
    else if ops[0] == Locating(f) && replies[0].Located? then
      [replies[0].addr] + Answers(ops[1..], replies[1..], f)
    else Answers(ops[1..], replies[1..], f)
  }

  /** The request changes the set of providers of f, or restamps one of them without being a locate of f. */
  predicate Touches(l: List, op: Op, f: Signature) {
    match op
    case Registering(g, s) => (s.addr, g) !in l.offers && (g == f || (s.addr, f) in l.offers)
    case Locating(g) => g != f && Ring(l, g) != [] && (Ring(l, g)[0].addr, f) in l.offers
    case Removing(h) => exists s <- Ring(l, f) :: s.socket == h
  }

  predicate Undisturbed(l: List, ops: seq<Op>, f: Signature)
    decreases |ops|
  {
    ops != [] ==> !Touches(l, ops[0], f) && Undisturbed(ListStep(l, ops[0]).0, ops[1..], f)
  }

  lemma {:induction false} DropNothing(order: seq<Server>, h: Handle)
    requires forall s <- order :: s.socket != h
    ensures Drop(order, h) == order
  {
    if order != [] {
      assert order[0] in order;
      DropNothing(order[1..], h);
    }
  }

  lemma UntouchedRing(l: List, op: Op, f: Signature)
    requires Distinct(l.order) && !Touches(l, op, f) && op != Locating(f)
    ensures Ring(ListStep(l, op).0, f) == Ring(l, f)
  {
    var ring := Ring(l, f);
    ProvidingElements(l.order, l.offers, f);
    if op.Removing? {
      RingDrops(l, op.socket, f);
      DropNothing(ring, op.socket);
    } else {
      RingMoves(l, op, f);
      if Restamped(l, op).Some? {
        assert forall k :: 0 <= k < |ring| ==> ring[k] in ring;
        WithoutNothing(ring, Restamped(l, op).value.addr);
      }
    }
  }

  /** A locate of f answers with the head of the ring and moves it to the back. */
  lemma RingRotates(l: List, f: Signature)
    requires Distinct(l.order) && Ring(l, f) != []
    ensures ListStep(l, Locating(f)).1 == Located(Ring(l, f)[0].addr)
    ensures Ring(ListStep(l, Locating(f)).0, f) == Ring(l, f)[1..] + [Ring(l, f)[0]]
  {
    RingMoves(l, Locating(f), f);
    ProvidingElements(l.order, l.offers, f);
    ProvidingDistinct(l.order, l.offers, f);
    WithoutHead(Ring(l, f));
  }

  // ------------------------------------------------------------- arithmetic

  lemma DivModUnique(n: nat, q: nat, r: nat)
    requires r < n
    ensures (n * q + r) / n == q && (n * q + r) % n == r
  {
    var x := n * q + r;
    var d := x / n - q;
    assert x == n * (x / n) + x % n;
    assert n * d == r - x % n by {
      assert n * d == n * (x / n) - n * q;
    }
    MultipleOf(n, d);
  }

  lemma MultipleOf(n: int, d: int)
    requires n > 0
    ensures d >= 1 ==> n * d >= n
    ensures d <= -1 ==> n * d <= -n
  {
    if d >= 1 {
      assert n * d == n + n * (d - 1);
    } else if d <= -1 {
      assert n * d == -n + n * (d + 1);
    }
  }

  /** One step further around a circle of n places. */
  lemma NextTurn(i: nat, n: nat)
    requires n > 0
    ensures (i + 1) % n == if i % n + 1 == n then 0 else i % n + 1
    ensures (i + 1) / n == if i % n + 1 == n then i / n + 1 else i / n
  {
    assert i == n * (i / n) + i % n;
    if i % n + 1 == n {
      assert i + 1 == n * (i / n + 1) + 0 by {
        assert n * (i / n + 1) == n * (i / n) + n;
      }
      DivModUnique(n, i / n + 1, 0);
    } else {
      DivModUnique(n, i / n, i % n + 1);
    }
  }

  lemma FullTurn(i: nat, n: nat)
    requires n > 0
    ensures (i + n) % n == i % n
  {
    assert i == n * (i / n) + i % n;
    assert i + n == n * (i / n + 1) + i % n by {
      assert n * (i / n + 1) == n * (i / n) + n;
    }
    DivModUnique(n, i / n + 1, i % n);
  }

  // ------------------------------------------------------------ taking turns

  function Addrs(ring: seq<Server>): (r: seq<Addr>)
    ensures |r| == |ring| && forall k :: 0 <= k < |ring| ==> r[k] == ring[k].addr
  {
    seq(|ring|, k requires 0 <= k < |ring| => ring[k].addr)
  }

  ghost predicate Cycles(answers: seq<Addr>, places: seq<Addr>) {
    places != [] && forall i :: 0 <= i < |answers| ==> answers[i] == places[i % |places|]
  }

  lemma CycleFromRotation(answers: seq<Addr>, places: seq<Addr>)
    requires places != [] && Cycles(answers, places[1..] + [places[0]])
    ensures Cycles([places[0]] + answers, places)
  {
    var n, all := |places|, [places[0]] + answers;
    forall i | 0 <= i < |all| ensures all[i] == places[i % n] {
      if i > 0 {
        NextTurn(i - 1, n);
        assert all[i] == answers[i - 1];
      } else {
        DivModUnique(n, 0, 0);
      }
    }
  }

  lemma {:induction false} AnswersCycle(l: List, ops: seq<Op>, f: Signature)
    requires Distinct(l.order) && Undisturbed(l, ops, f) && Ring(l, f) != []
    ensures Cycles(Answers(ops, ListReplies(l, ops), f), Addrs(Ring(l, f)))
    ensures |Answers(ops, ListReplies(l, ops), f)| == CountLocates(ops, f)
    decreases |ops|
  {
    if ops != [] {
      var (after, reply) := ListStep(l, ops[0]);
      var places := Addrs(Ring(l, f));
      var later := Answers(ops[1..], ListReplies(after, ops[1..]), f);
      assert ListReplies(l, ops)[1..] == ListReplies(after, ops[1..]);
      DistinctKept(l, ops[0]);
      if ops[0] == Locating(f) {
        RingRotates(l, f);
        AnswersCycle(after, ops[1..], f);
        assert Addrs(Ring(after, f)) == places[1..] + [places[0]];
        CycleFromRotation(later, places);
      } else {
        UntouchedRing(l, ops[0], f);
        AnswersCycle(after, ops[1..], f);
      }
    }
  }

  // -------------------------------------------------- what cycling amounts to

  ghost predicate NoRepeat(places: seq<Addr>) {
    forall i, j :: 0 <= i < j < |places| ==> places[i] != places[j]
  }

  /** Answer i + n equals answer i, and any n answers in a row are a permutation of the places. */
  lemma CycleWindow(answers: seq<Addr>, places: seq<Addr>, i: nat)
    requires Cycles(answers, places) && i + |places| <= |answers|
    ensures multiset(answers[i..i + |places|]) == multiset(places)
    ensures i + |places| < |answers| ==> answers[i + |places|] == answers[i]
  {
    var n := |places|;
    var r := i % n;
    FullTurn(i, n);
    assert places == places[..r] + places[r..];
    forall k | 0 <= k < n ensures answers[i + k] == (places[r..] + places[..r])[k] {
      TurnsAhead(i, k, n);
    }
    assert answers[i..i + n] == places[r..] + places[..r];
  }

  lemma {:induction false} TurnsAhead(i: nat, k: nat, n: nat)
    requires k < n
    ensures (i + k) % n == if i % n + k < n then i % n + k else i % n + k - n
  {
    if k > 0 {
      TurnsAhead(i, k - 1, n);
      NextTurn(i + k - 1, n);
    }
  }

  /** How often place j has been answered after m answers. */
  lemma {:induction false} CycleCount(answers: seq<Addr>, places: seq<Addr>, j: nat)
    requires Cycles(answers, places) && NoRepeat(places) && j < |places|
    ensures multiset(answers)[places[j]]
         == |answers| / |places| + if j < |answers| % |places| then 1 else 0
    decreases |answers|
  {
    var n, m := |places|, |answers|;
    if m == 0 {
      DivModUnique(n, 0, 0);
    } else {
      var before := answers[..m - 1];
      CycleCount(before, places, j);
      NextTurn(m - 1, n);
      assert answers == before + [answers[m - 1]];
    }
  }

  lemma {:induction false} SetOfNoRepeat(places: seq<Addr>, s: set<Addr>)
    requires NoRepeat(places) && forall a :: a in s <==> a in places
    ensures |places| == |s| && multiset(places) == multiset(s)
  {
    if places != [] {
      var rest := places[1..];
      assert places == [places[0]] + rest;
      SetOfNoRepeat(rest, s - {places[0]});
      assert s == (s - {places[0]}) + {places[0]};
    } else {
      assert s == {};
    }
  }

  lemma RingIsProviders(db: Db, f: Signature)
    requires Coherent(db)
    ensures var places := Addrs(Ring(Abs(db), f));
      && NoRepeat(places)
      && multiset(places) == multiset(ProvidersOf(db, f).Keys)
      && |places| == |ProvidersOf(db, f)|
      && forall a :: a in ProvidersOf(db, f) <==> a in places
  {
    var l := Abs(db);
    var ring := Ring(l, f);
    var places := Addrs(ring);
    QueueIsDistinct(db);
    ProvidingDistinct(l.order, l.offers, f);
    ProvidingElements(l.order, l.offers, f);
    forall a ensures a in ProvidersOf(db, f) <==> a in places {
      ProvidesIff(db, a, f);
      if a in ProvidersOf(db, f) {
        var s := Server(a, db.stamps[a].socket);
        SocketInOrder(db, a, s.socket);
        var k :| 0 <= k < |ring| && ring[k] == s;
        assert places[k] == a;
      }
      if a in places {
        var k :| 0 <= k < |places| && places[k] == a;
        assert ring[k] in ring;
      }
    }
    SetOfNoRepeat(places, ProvidersOf(db, f).Keys);
  }

  function Window(answers: seq<Addr>, i: int, n: nat): multiset<Addr>
    requires 0 <= i <= |answers| - n
  {
    multiset(answers[i..i + n])
  }

  function Share(answers: seq<Addr>, m: int, a: Addr): nat
    requires 0 <= m <= |answers|
  {
    multiset(answers[..m])[a]
  }

  /** Every n answers in a row name each of the n providers once, answer i + n is answer i,
      and at any moment the providers' shares differ by at most one. */
  ghost predicate TakesTurns(answers: seq<Addr>, providers: set<Addr>) {
    var n := |providers|;
    && (forall i :: 0 <= i <= |answers| - n ==> Window(answers, i, n) == multiset(providers))
    && (forall i :: 0 <= i < |answers| - n ==> answers[i + n] == answers[i])
    && (forall m, a, b :: 0 <= m <= |answers| && a in providers && b in providers ==>
          Share(answers, m, a) <= Share(answers, m, b) + 1)
  }

  lemma CyclesTakeTurns(answers: seq<Addr>, places: seq<Addr>, providers: set<Addr>)
    requires Cycles(answers, places) && NoRepeat(places)
    requires |places| == |providers| && multiset(places) == multiset(providers)
    ensures TakesTurns(answers, providers)
  {
    var n := |providers|;
    forall i | 0 <= i <= |answers| - n ensures Window(answers, i, n) == multiset(providers) {
      CycleWindow(answers, places, i);
    }
    forall i | 0 <= i < |answers| - n ensures answers[i + n] == answers[i] {
      CycleWindow(answers, places, i);
    }
    forall m, a, b | 0 <= m <= |answers| && a in providers && b in providers
      ensures Share(answers, m, a) <= Share(answers, m, b) + 1
    {
      SharesDiffer(answers[..m], places, a, b);
    }
  }

  lemma SharesDiffer(answers: seq<Addr>, places: seq<Addr>, a: Addr, b: Addr)
    requires Cycles(answers, places) && NoRepeat(places)
    requires a in multiset(places) && b in multiset(places)
    ensures multiset(answers)[a] <= multiset(answers)[b] + 1
  {
    var j :| 0 <= j < |places| && places[j] == a;
    var k :| 0 <= k < |places| && places[k] == b;
    CycleCount(answers, places, j);
    CycleCount(answers, places, k);
  }

  /** Exact round robin for the binder: while only locates of f and requests that leave its providers
      alone arrive, the answers to the locates of f take turns among the providers. */
  lemma ExactRoundRobin(db: Db, ops: seq<Op>, f: Signature)
    requires Coherent(db) && HonestRun(Abs(db), ops)
    requires db.time + CountStamps(ListReplies(Abs(db), ops)) < TIME_LIMIT
    requires ProvidersOf(db, f) != map[] && Undisturbed(Abs(db), ops, f)
    ensures |Answers(ops, Replies(db, ops), f)| == CountLocates(ops, f)
    ensures TakesTurns(Answers(ops, Replies(db, ops), f), ProvidersOf(db, f).Keys)
  {
    RunRefines(db, ops);
    RingIsProviders(db, f);
    QueueIsDistinct(db);
    var l := Abs(db);
    AnswersCycle(l, ops, f);
    CyclesTakeTurns(Answers(ops, ListReplies(l, ops), f), Addrs(Ring(l, f)), ProvidersOf(db, f).Keys);
  }
}
