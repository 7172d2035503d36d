/** The connection table: a descriptor mask for select and a map of open connections (tcp_server.cc). */
module TcpServers {
  import opened BinderDb

  /** A TcpSocket object: its identity and its descriptor. */
  datatype TcpSocket = TcpSocket(handle: Handle, fd: int)

  /** The ready connections with descriptors below n, in descriptor order. */
  function ReadyList(connections: map<int, TcpSocket>, ready: set<int>, n: nat): seq<TcpSocket> {
    if n == 0 then []
    else if n - 1 in ready && n - 1 in connections then ReadyList(connections, ready, n - 1) + [connections[n - 1]]
    else ReadyList(connections, ready, n - 1)
  }

  /** The socket is the open and ready connection behind a descriptor below n. */
  predicate IsReady(connections: map<int, TcpSocket>, ready: set<int>, n: nat, c: TcpSocket) {
    0 <= c.fd < n && c.fd in ready && c.fd in connections && connections[c.fd] == c
  }

  /** Below n, the list has every ready connection exactly once, and nothing else. */
  lemma {:induction false} ReadyListHolds(connections: map<int, TcpSocket>, ready: set<int>, n: nat)
    requires forall fd <- connections :: connections[fd].fd == fd
    ensures forall c :: c in ReadyList(connections, ready, n) <==> IsReady(connections, ready, n, c)
    ensures forall i, j :: 0 <= i < j < |ReadyList(connections, ready, n)| ==>
      ReadyList(connections, ready, n)[i].fd < ReadyList(connections, ready, n)[j].fd
  {
    if n > 0 {
      ReadyListHolds(connections, ready, n - 1);
      var before, sockets := ReadyList(connections, ready, n - 1), ReadyList(connections, ready, n);
      assert forall i :: 0 <= i < |before| ==> before[i] in before;
      if sockets != before {
        assert sockets == before + [connections[n - 1]];
      }
    }
  }

  /** Polling more than the open connections makes no difference. */
  lemma {:induction false} OnlyOpenOnes(connections: map<int, TcpSocket>, ready: set<int>, open: set<int>, n: nat)
    requires connections.Keys <= open
    ensures ReadyList(connections, ready * open, n) == ReadyList(connections, ready, n)
  {
    if n > 0 {
      OnlyOpenOnes(connections, ready, open, n - 1);
    }
  }

  class TcpServer {
    const listener: int
    var connections: map<int, TcpSocket>
    var fdMaster: set<int>
    var fdMax: int

    /** Mask and map describe the same descriptors, the scan bound covers them, and every object is stored once. */
    ghost predicate Valid()
      reads this
    {
      && listener !in connections
      && fdMaster == {listener} + connections.Keys
      && 0 <= listener <= fdMax
      && (forall fd <- fdMaster :: 0 <= fd <= fdMax)
      && (forall fd <- connections :: connections[fd].fd == fd)
      && (forall fd1, fd2 :: fd1 in connections && fd2 in connections && connections[fd1].handle == connections[fd2].handle ==> fd1 == fd2)
    }

    /** The TcpSocket objects that exist: the others have been deleted or given away. */
    ghost function Live(): (live: set<Handle>)
      reads this
      ensures forall h :: h in live <==> exists fd <- connections :: connections[fd].handle == h
    {
      set fd <- connections :: connections[fd].handle
    }

    ghost predicate Manages(client: TcpSocket)
      reads this
    {
      client.fd in connections && connections[client.fd] == client
    }

    constructor (listener: int)
      requires 0 <= listener
      ensures Valid() && connections == map[] && this.listener == listener
    {
      this.listener, fdMax := listener, listener;
      connections, fdMaster := map[], {listener};
    }

    /** Accepts at most one connection. `newfd` is what accept returns, -1 on failure; the system hands out
        descriptors that are not open and the allocator addresses that are not in use. */
    method AcceptIfAny(listenerReady: bool, newfd: int, handle: Handle)
      requires Valid()
      requires newfd >= -1
      requires listenerReady && newfd != -1 ==> newfd !in fdMaster && handle !in Live()
      modifies this
      ensures Valid()
      ensures connections == if listenerReady && newfd != -1
                             then old(connections)[newfd := TcpSocket(handle, newfd)]
                             else old(connections)
      ensures Live() == old(Live()) + if listenerReady && newfd != -1 then {handle} else {}
      ensures fdMax == if listenerReady && newfd > old(fdMax) then newfd else old(fdMax)
    {
      ghost var before := connections;
      if listenerReady {
        if newfd != -1 {
          fdMaster := fdMaster + {newfd};
          fdMax := if fdMax < newfd then newfd else fdMax;
          if newfd !in connections {
            connections := connections[newfd := TcpSocket(handle, newfd)];
          }
          assert forall fd <- before :: connections[fd] == before[fd];
        }
      }
    }

    /** Every ready connection exactly once, in descriptor order; the lookup of a ready descriptor never fails. */
    method ConnectionsWithData(ready: set<int>) returns (sockets: seq<TcpSocket>)
      requires Valid() && ready <= fdMaster
      ensures sockets == ReadyList(connections, ready, fdMax + 1)
      ensures forall i :: 0 <= i < |sockets| ==> Manages(sockets[i])
      ensures forall fd :: fd in ready && fd != listener <==> fd in connections && connections[fd] in sockets
      ensures forall i, j :: 0 <= i < j < |sockets| ==> sockets[i].fd < sockets[j].fd
    {
      sockets := [];
      var fd := 0;
      while fd <= fdMax
        invariant 0 <= fd <= fdMax + 1
        invariant sockets == ReadyList(connections, ready, fd)
      {
        if fd != listener && fd in ready {
          sockets := sockets + [connections[fd]];
        }
        fd := fd + 1;
      }
      ReadyListHolds(connections, ready, fdMax + 1);
      assert forall i :: 0 <= i < |sockets| ==> sockets[i] in sockets;
    }

    method ConnectionClosed(client: TcpSocket)
      requires Valid() && Manages(client)
      modifies this`connections, this`fdMaster
      ensures Valid() && connections == old(connections) - {client.fd}
      ensures Live() == old(Live()) - {client.handle}
    {
      ghost var before := connections;
      connections := connections - {client.fd};
      fdMaster := fdMaster - {client.fd};
      assert forall fd <- connections :: connections[fd] == before[fd];
    }

    /** Hands the socket to the caller; the table no longer knows it. */
    method ReleaseConnection(client: TcpSocket) returns (socket: TcpSocket)
      requires Valid() && Manages(client)
      modifies this`connections, this`fdMaster
      ensures Valid() && connections == old(connections) - {client.fd}
      ensures Live() == old(Live()) - {client.handle}
      ensures socket == client
    {
      ghost var before := connections;
      fdMaster := fdMaster - {client.fd};
      socket := connections[client.fd];
      connections := connections - {client.fd};
      assert forall fd <- connections :: connections[fd] == before[fd];
    }
  }
}
