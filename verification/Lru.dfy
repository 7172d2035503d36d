/** What the binder is for, without timestamps: servers in least-recently-used order and a
    provides-relation. */
module Lru {
  import opened Signatures
  import opened BinderDb

  datatype List = List(order: seq<Server>, offers: set<(Addr, Signature)>)

  function Without(order: seq<Server>, addr: Addr): seq<Server> {
    if order == [] then []
    else if order[0].addr == addr then Without(order[1..], addr)
    else [order[0]] + Without(order[1..], addr)
  }

  function Drop(order: seq<Server>, h: Handle): seq<Server> {
    if order == [] then []
    else if order[0].socket == h then Drop(order[1..], h)
    else [order[0]] + Drop(order[1..], h)
  }

  /** The servers that provide sig, least recently used first. */
  function Ring(l: List, sig: Signature): seq<Server> {
    Providing(l.order, l.offers, sig)
  }

  function Providing(order: seq<Server>, offers: set<(Addr, Signature)>, sig: Signature): seq<Server> {
    if order == [] then []
    else if (order[0].addr, sig) in offers then [order[0]] + Providing(order[1..], offers, sig)
    else Providing(order[1..], offers, sig)
  }

  function MoveToBack(order: seq<Server>, s: Server): seq<Server> {
    Without(order, s.addr) + [s]
  }

  function ListStep(l: List, op: Op): (List, Reply) {
    match op
    case Registering(sig, s) =>
      if (s.addr, sig) in l.offers then (l, Registered(1))
      else (List(MoveToBack(l.order, s), l.offers + {(s.addr, sig)}), Registered(0))
    case Locating(sig) =>
      var ring := Ring(l, sig);
      if ring == [] then (l, NotLocated)
      else (l.(order := MoveToBack(l.order, ring[0])), Located(ring[0].addr))
    case Removing(h) =>
      (List(Drop(l.order, h), set p | p in l.offers && Server(p.0, h) !in l.order), Removed)
  }

  function ListRun(l: List, ops: seq<Op>): List
    decreases |ops|
  {
    if ops == [] then l else ListRun(ListStep(l, ops[0]).0, ops[1..])
  }

  function ListReplies(l: List, ops: seq<Op>): (r: seq<Reply>)
    ensures |r| == |ops|
    decreases |ops|
  {
    if ops == [] then [] else [ListStep(l, ops[0]).1] + ListReplies(ListStep(l, ops[0]).0, ops[1..])
  }
}
