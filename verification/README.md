# A verified model of the RPC library

The library lets servers register procedures with a *binder*, lets clients call them by name and type array, and
lets a client shut the whole system down. The binder spreads calls over the servers that offer a procedure. This
project models the four parts that have to fit together and proves what they promise.

* **The binder's database and loop** (`BinderDb`, `Lru`, `Coherence`, `Refinement`, `Fairness`, `RoundRobin`,
  `BinderDatabase`, `TcpServer`, `BinderLoop`, `LoopContents`, `LoopRuns`). Three redundant indexes (a queue ordered by
  timestamp, the timestamps, the servers of each signature) and a 32-bit clock. They simulate a plain
  least-recently-used list with a provides-relation; from that follow bounded waiting and exact round robin. The class
  `BinderDatabase` updates the indexes in place, its methods are proved against the functions on `Db` values, and the
  main loop is proved to be a run of an event system in which no index ever names a socket that the connection table
  has dropped, and in which coherence and bounded waiting hold while an address comes through one socket at a time.
  `LoopContents` says which events those are: every request of a polled client is one of them, and nothing else is.
* **The server's threads and the shutdown** (`Threads`, `Termination`). A step system with one program counter per
  thread, a mutex, and a separate load and store for `+=`, for any number of client threads; and around it the
  distributed handshake of client, binder and any number of servers.
* **The wire format and the end-to-end call** (`Wire`, `Args`, `Signatures`, `Messages`, `Serializers`,
  `ExecuteMessages`, `Rpc`, `ServerProcess`, `Agreement`, `EndToEnd`). Every encoder is undone by its decoder, and the chain
  encode, decode, dispatch, skeleton, encode, decode, copy back means what calling the skeleton directly means.
* **Framing** (`Framing`). Length-prefixed messages over a byte stream, with any chunking of payload writes and reads.

Socket pointers are numbers (`Handle`): the code only compares them. A `std::set<ServerData>` is a map from address to
the socket stored in the element, because the comparison looks at host and port only and insertion keeps the element
that is there. Type words and timestamps are integers with their 32-bit range written out. What the system decides
(accepted descriptors, ready sets, incoming buffers, how far a write gets, which thread moves next) are parameters,
nondeterministic choices, or labels of a step.

## Results about the code that differ from what one expects

* Coherence of the indexes needs that an address is registered through one socket at a time and that the clock has a
  value left; `Refinement.CoherenceKeptExactly` states this as an if-and-only-if for every request.
  `Refinement.TwoSocketsHideAProvider` and `Refinement.StampZeroDuplicates` are runs from the empty database that show
  what happens otherwise.
* `message.h:6-8` wants big negative codes so as not to collide with skeleton codes, but a status travels in one byte
  (`protocol_macros.h:30-43`). `Wire.StatusSurvives` gives the exact range; -1003 arrives as 21, and by
  `Rpc.FailureReportedAsSuccess` a skeleton is reported as successful exactly when its status is a multiple of 256.
* The drain gate of a server is exact at the moment it reads the counter (`Threads.DrainGate`), but the client
  listener still accepts behind it: `Threads.LateClient` is a run that answers the terminate request while a client
  thread is serving. `Threads.DrainedAtAnswer` says when the server is still drained at the answer: exactly when every
  client thread created behind the gate is done, and `Threads.QuietServerStaysDrained` when none is created.
* With a lost register reply a server can be listed for a procedure it does not know. The contract of
  `ServerProcesses.ServerProcess.RpcRegister` says for every outcome of the exchange when this is so.
* The binder hands out addresses, not connections. A server that starts at the address of a crashed one is sent the
  other's calls until the binder has noticed (`Agreement.ReusedAddress`). What is listed is always known to the process
  behind the listed socket (`Agreement.ListedIsKnown`); another process at the address knows exactly what it has
  registered itself (`Agreement.LocatedCallIsKnown`).
* `README.md` of the repository promises client side location caching; the code declares `rpcCacheCall`
  (`rpc.h:25`) and does not define it.

## Model

| member | source | states |
|---|---|---|
| Wire.IntegerRoundTrip | protocol_macros.cc:7-24 | decoding an encoded integer gives it back, for every 32-bit value including negative ones |
| Wire.BytesRoundTrip | protocol_macros.cc:7-24 | encoding a decoded integer gives the same four bytes back, for every four bytes |
| Wire.LittleEndian | protocol_macros.h:6 | the four bytes are the digits of the integer in base 256, lowest first, in two's complement |
| Wire.EncodeInteger | protocol_macros.cc:7-15 | the four bytes are appended in little-endian order |
| Wire.DecodeInteger | protocol_macros.cc:17-24 | reads the integer at the cursor and moves the cursor behind it |
| Wire.DecodeString | protocol_macros.cc:26-31 | reads length and characters at the cursor and moves the cursor behind them |
| Wire.TakeStringAt | protocol_macros.cc:26-31 | a string field standing anywhere in a buffer is read back whole |
| Wire.StatusSurvives | protocol_macros.h:30-43 | a status survives its byte exactly in -128..127, always arrives congruent modulo 256, and arrives as 0 exactly when it is a multiple of 256 |
| Wire.WideStatusesAreLost | message.h:9-15 | -1003 arrives as 21, -1004 as 20, and 256 as success |
| Args.DirectionBits | arg.h:11-12 | input is bit 31, the sign, and output is bit 30 of the word |
| Args.PackedWord | arg.cc:5-16 | the accessors give back direction, base type and length that a word was packed from, whatever its six unused bits |
| Args.PackedWidth | arg.cc:10-36 | the six base types take 1, 2, 4, 8, 8 and 4 bytes per element, and length 0 counts as one element |
| Args.NumberOfArgs | arg.cc:38-45 | counts the words before the terminating zero |
| Args.NumberOfBytes | arg.cc:10-36 | element size times declared length is the width of the argument |
| Args.TotalSizeOfArgs | arg.cc:47-56 | is the offset at which an argument behind the last would start |
| Signatures.SignatureOfArgTypes | signature.cc:7-58 | the loop computes the signature of the words before the terminator |
| Signatures.SignatureEquality | signature.h:9-13 | two signatures are equal if and only if names, number of arguments and, position by position, direction, base type and scalar-or-array agree |
| Signatures.ArgumentEquality | signature.cc:11-54 | the same for one parameter: array length and the bits 24 to 29 do not matter |
| Messages.RoundTrip | message.h:55-66 | every serializer is undone by its deserializer, with the cursor at the end of the buffer |
| Messages.EncodeInjective | message.h:55-66 | no two messages, of whatever types, share their bytes |
| Messages.TypeNumbers | message.h:17-30 | the type bytes are the positions in the enumeration, and a status message is its type and its status modulo 256 |
| Messages.RegisterLayout | register_messages.h:42-59 | type, host, port, name, number of arguments and type words stand at their places, and nothing else |
| Messages.LocateRequestLayout | locate_messages.h:41-56 | type, name, number of arguments and type words stand at their places, and nothing else |
| Messages.LocateSuccessLayout | locate_messages.h:88-96 | type, host and port stand at their places, and nothing else |
| Messages.ExecuteLayout | execute_messages.h:48-62 | type, name, number of arguments and type words stand at their places, and only the arguments follow |
| Messages.ArgumentLayout | execute_messages.h:64-72 | argument i stands behind the call and the arguments before it |
| Messages.SizeIsLength | message.cc:21-23 | the size of a message, computed from its fields, is the length of its buffer |
| Messages.WellFormedFits | tcp_socket.cc:24-32 | every message the constructors build fits the `int` length of the frame header |
| Messages.RegisterRoundTrip | register_messages.h:42-83 | the round trip for Register |
| Messages.LocateRequestRoundTrip | locate_messages.h:41-78 | the round trip for LocateRequest |
| Messages.LocateSuccessRoundTrip | locate_messages.h:88-109 | the round trip for LocateSuccess |
| Messages.ExecuteRoundTrip | execute_messages.h:48-111 | the round trip for Execute: name, type words and the bytes of every argument, for all words with a known base type |
| Messages.ArgumentOffset | execute_messages.h:64-72 | argument i starts behind the widths of its predecessors, and nothing follows the last one |
| Serializers.AppendCall | register_messages.h:48-56 | appends name, count and type words to the buffer |
| Serializers.SerializeRegister | register_messages.h:42-59 | the buffer built piece by piece is the encoding of the message |
| Serializers.SerializeLocateRequest | locate_messages.h:41-56 | the same for LocateRequest |
| Serializers.SerializeLocateSuccess | locate_messages.h:88-96 | the same for LocateSuccess |
| Serializers.SerializeStatus | protocol_macros.h:30-37 | the two bytes written in place are the encoding of the status message |
| Serializers.DecodeTypes | register_messages.h:72-75 | fills a zero-terminated array with the words at the cursor |
| Serializers.CopyWords | register_messages.cc:11-15 | the constructors copy the words up to the first zero |
| Serializers.DeserializeRegister | register_messages.h:61-83 | the moving cursor reads what the field-by-field parse defines |
| Serializers.DeserializeLocateRequest | locate_messages.h:58-78 | the same for LocateRequest |
| Serializers.DeserializeLocateSuccess | locate_messages.h:98-109 | the same for LocateSuccess |
| Serializers.DeserializeStatus | protocol_macros.h:39-43 | the same for status messages |
| ExecuteMessages.ExecuteMessage.constructor | execute_messages.cc:10-28 | a deep copy of the words up to the terminator and of the declared bytes of every argument |
| ExecuteMessages.CopyArguments | execute_messages.cc:18-27 | copies exactly the declared number of bytes of each argument |
| ExecuteMessages.SerializeExecute | execute_messages.h:48-75 | the buffer is the encoding of the message |
| ExecuteMessages.DecodeArguments | execute_messages.h:91-101 | cuts the payload into arguments at the widths of the type words |
| ExecuteMessages.DeserializeExecute | execute_messages.h:77-111 | the object built holds what the parse defines, in memory of its own |
| BinderDb.AddrOrder | binder.cc:23-26 | the comparison of servers identifies exactly those with equal host and port |
| BinderDb.AddrBeforeIsPairOrder | binder.cc:23-26 | servers are ordered as pairs: the first byte in which the host names differ decides, a proper prefix comes first, and the port decides between equal hosts |
| BinderDb.AddrTransitive | binder.cc:23-26 | the comparison of servers is transitive, as the containers ordered by it need |
| BinderDb.ClockCountsStamps | binder.cc:65-66 | in every run from every state the clock counts fresh registrations and successful locates, modulo 2^32 |
| BinderDb.RemovesExactly | binder.cc:162-190 | in any state, removal takes out of the three indexes what is stored under the socket, and nothing else |
| Coherence.Restamp | binder.cc:61-66 | moving a server to the current time keeps queue and timestamps in agreement and moves it to the back of the order |
| Coherence.RegisterRefines | binder.cc:54-69 | registration is the list's: a duplicate changes nothing, a new one moves the server to the back |
| Coherence.LocateRefines | binder.cc:77-116 | locate is the list's: the first server in order that provides the signature goes to the back and is the answer |
| Coherence.RemoveRefines | binder.cc:162-190 | removal filters the list and drops what the removed servers offered |
| Coherence.ProviderIsQueued | binder.cc:101-105 | in a coherent database the scan for a listed signature never comes back empty-handed |
| Refinement.StepRefines | binder.cc:37-117 | every request keeps the indexes coherent and acts as on the list, with the same reply |
| Refinement.CoherenceKeptExactly | binder.cc:54-66 | a request keeps the indexes coherent if and only if it stamps nobody, or the clock has a value left and the address comes through its known socket |
| Refinement.SocketsDiverge | binder.cc:65-66 | a known address registered through another socket leaves different sockets in queue and timestamps |
| Refinement.RunRefines | binder.cc:28-191 | for every run without a second socket for an address and within the clock, all replies equal those of the list and the end states correspond |
| Refinement.ReachableIsCoherent | binder.cc:30-35 | from the empty database, the indexes are coherent and the clock less one is the number of stamps given |
| Refinement.LocateSucceedsIff | binder.cc:77-105 | locate succeeds if and only if some connected server provides the signature |
| Refinement.TwoSocketsHideAProvider | binder.cc:23-26 | one address behind two sockets: closing the second makes a listed procedure of the first impossible to locate |
| Refinement.StampZeroDuplicates | binder.cc:61-66 | from the empty database: after one registration and 2^32 - 2 locates the clock is 0, and two more registrations leave the server in the queue twice |
| Fairness.WaitingStep | binder.cc:90-112 | while a provider is neither served nor removed it stays in the ring of f, nobody gets in front of it, and each locate of f brings it one place forward |
| Fairness.LocatesCounted | binder.cc:243-249 | the locates of f counted in a run are its occurrences |
| Fairness.BoundedWaiting | binder.cc:90-112 | with k providers of f older than a, any run with more than k locates of f that keeps a connected serves a |
| Fairness.PositionCountsAhead | binder.cc:91-99 | the place in the ring is at most the number of providers with smaller timestamps |
| RoundRobin.RingRotates | binder.cc:91-112 | a locate of f answers with the head of the ring and moves it to the back |
| RoundRobin.UntouchedRing | binder.cc:37-117 | requests that touch no provider of f leave its ring as it is |
| RoundRobin.ExactRoundRobin | binder.cc:90-116 | undisturbed, every n answers in a row name each of the n providers once, answer i + n is answer i, and shares differ by at most one |
| BinderDatabases.BinderDatabase.HandleRegister | binder.cc:37-70 | new state and response bytes are those of the registration step |
| BinderDatabases.BinderDatabase.AddProvider | binder.cc:54-66 | the in-place updates of the three indexes are the registration step |
| BinderDatabases.BinderDatabase.HandleLocate | binder.cc:72-117 | new state and response bytes are those of the locate step |
| BinderDatabases.BinderDatabase.TakeProvider | binder.cc:77-112 | the scan of the queue and the restamping are the locate step |
| BinderDatabases.BinderDatabase.HandleTerminate | binder.cc:119-160 | the response is success if all servers in the table agreed, and else the complaint about the last one in the order of the table that did not; only stored sockets are used |
| BinderDatabases.SuccessMeansAllAgreed | binder.cc:154-159 | the response is success if and only if every server in the table agreed |
| BinderDatabases.BinderDatabase.RemoveIfServer | binder.cc:162-190 | the three erase-while-iterating loops remove exactly what is stored under the socket |
| BinderDatabases.BinderDatabase.RemoveFromQueue | binder.cc:164-173 | erasing while iterating over the queue filters it, in order |
| BinderDatabases.BinderDatabase.RemoveFromTimestamps | binder.cc:174-180 | erasing while iterating over the timestamps filters them |
| BinderDatabases.BinderDatabase.RemoveFromSignatures | binder.cc:181-189 | every set of servers is filtered and no signature disappears |
| TcpServers.TcpServer.constructor | tcp_server.cc:78-80 | the mask holds the listener only |
| TcpServers.TcpServer.AcceptIfAny | tcp_server.cc:92-109 | adds at most one connection and keeps mask, map and bound in agreement |
| TcpServers.TcpServer.ConnectionsWithData | tcp_server.cc:111-128 | every ready connection exactly once, in descriptor order, and the lookup never fails |
| TcpServers.TcpServer.ConnectionClosed | tcp_server.cc:130-135 | removes the connection from mask and map; its object is gone |
| TcpServers.TcpServer.ReleaseConnection | tcp_server.cc:137-143 | hands out the connection's own object and forgets it |
| BinderLoop.SocketsAfterRequest | binder.cc:37-117 | in any state, a request brings no socket into the indexes but the registering one |
| BinderLoop.SocketsAfterRemove | binder.cc:162-190 | removal takes a socket out of all three indexes, in any state |
| BinderLoop.NeverDangling | binder.cc:202-278 | in every state of every run of the loop the indexes only name live sockets, without the assumption of one socket per address |
| BinderLoop.Binder.Dispatch | binder.cc:234-265 | state, response bytes and the running flag after each kind of message |
| BinderLoop.Binder.Serve | binder.cc:212-276 | one client's turn has the effect of its events and the response that belongs to it, and all sockets stored stay live |
| BinderLoop.Binder.ServeAll | binder.cc:211-277 | a batch has the effect of its clients' events in order, all or up to the first terminate request, and for each client the response to it in the state it finds |
| BinderLoop.Binder.Accept | binder.cc:205-209 | accepts exactly the connection that is offered and not in use |
| BinderLoop.Binder.ServeRound | binder.cc:202-278 | one round: a connection accepted, then the ready clients in descriptor order, with their responses, and the table they leave |
| BinderLoop.Binder.Run | binder.cc:193-279 | the loop has the effect of the events of its rounds in order, all or up to the one with a terminate request, and the responses of each round |
| LoopContents.RequestEvents | binder.cc:235-249 | a well-formed request is exactly one event, with the operation its sender means, and gives the client up if it cannot be told the answer |
| LoopContents.OtherEvents | binder.cc:213-263 | a closed peer is one removal; failures to receive, terminate requests and unknown messages do nothing to the database, but an unreachable client is given up |
| LoopContents.EventEffect | binder.cc:216-272 | what each event does to the connections and to the database, in any run |
| LoopContents.ResponseToRequest | binder.cc:240-247 | a client that registers is told 0, or 1 if it was known for the signature; a client that locates is told the address found, or that there is none |
| LoopContents.OtherResponses | binder.cc:250-264 | a client that asks to terminate is told the verdict of the servers, and unknown messages are not answered |
| LoopContents.EachTurnOnce | binder.cc:211-277 | of the events of a client the batch has exactly as many as its turn has if it is served, and none otherwise |
| LoopContents.NothingElse | binder.cc:211-277 | every event of a batch is in the turn of a client served |
| LoopContents.TurnsInOrder | binder.cc:211-277 | the turns stand in the order of the clients |
| LoopContents.ServedUntilTerminate | binder.cc:276 | the clients served are all, or those up to the first that asks to terminate |
| LoopContents.AcceptedExactly | tcp_server.cc:97-107 | a connection is accepted exactly when the listener is ready and what accept returns is not in use |
| LoopContents.PolledExactly | tcp_server.cc:116-127 | the clients of a round are the open connections that are ready, each once, in descriptor order |
| LoopContents.LeftOpen | binder.cc:216-219 | behind a batch, the connections are those before without the peers found closed |
| LoopContents.RoundsInOrder | binder.cc:202-278 | the events of a round stand behind those of the rounds before it |
| LoopContents.RequestIsHandled | binder.cc:235-249 | every well-formed request of a polled client, in any round of any run, is an event of the loop, and behind it the database is as its operation leaves it |
| LoopContents.ClosedIsForgotten | binder.cc:216-219 | every polled client that has closed its connection is removed from connections and database |
| LoopContents.OfferIsAccepted | tcp_server.cc:97-107 | in any run, a connection that is accepted becomes a live socket at that place, and is polled in its first round exactly when it is ready |
| LoopContents.HaltsExactly | binder.cc:276 | a round is the last exactly when some polled client asks to terminate |
| LoopContents.StopsAtTerminate | binder.cc:201-278 | the loop goes on through rounds without a terminate request and ends with the first that has one |
| LoopContents.EveryClientAnswered | binder.cc:234-274 | in any run, every polled client has the response that belongs to its request in the state that the clients before it have left |
| LoopRuns.OpsGrow | binder.cc:216-272 | each request is one operation of the database, each closed or unreachable socket a removal |
| LoopRuns.OneSocketIsHonest | binder.cc:162-190 | events in which an address comes through another socket only after the one before has been dropped satisfy the assumption of the refinement |
| LoopRuns.LoopIsCoherent | binder.cc:193-279 | in every such run of the main loop the indexes are coherent, name live sockets only, correspond to the list, and the clock counts the stamps |
| LoopRuns.LoopServes | binder.cc:90-112 | bounded waiting from every state the main loop can get to |
| LoopRuns.RequestAnnounces | binder.cc:236-241 | an address that comes in with a request can be sent back to a client |
| Threads.CounterExactness | libserver.cc:14-22 | in every interleaving, whenever the lock is free the counter is 1, plus 1 until the binder listener has left, plus the client threads announced and not gone |
| Threads.DrainGate | libserver.cc:164-167 | the read of the counter goes through if and only if binder listener and all client threads are done at that moment |
| Threads.PastGateWasDrained | libserver.cc:155-175 | every run beyond the gate contains the step through it, at which the server was drained |
| Threads.GateIsOneWay | libserver.cc:164-168 | nobody comes back through the gate, and only the main thread's read leads through |
| Threads.OldClientsGone | libserver.cc:164-175 | in every state behind the gate the client threads there were at the gate are done |
| Threads.QuietServerStaysDrained | libserver.cc:164-175 | a listener that waits at the gate and finds no client behind it leaves the server drained in every later state |
| Threads.DrainedAtAnswer | libserver.cc:166-175 | when the terminate request is answered the server is drained if and only if every client thread created behind the gate is done |
| Threads.ReachableInv | libserver.cc:14-184 | lock discipline, counter and phases are invariant over all interleavings of any number of threads |
| Threads.LateClient | libserver.cc:101-129 | a run that answers the terminate request while a client thread is still serving |
| Termination.RpcTerminate | rpc.cc:247-280 | -1002 without a connection or an answer, 0 for success, the byte of a failure, and -1003 for anything else |
| Termination.VerdictStatus | binder.cc:137-151 | the client is told 0 if and only if all servers agreed, and otherwise 20 if the last objector's connection was broken and 21 if it sent another message |
| Termination.OneServerAsked | binder.cc:130-151 | each outcome of asking one server, not delivered, not answered, or answered, notes its failure or keeps the one noted before |
| Termination.RequestConcluded | binder.cc:154-159 | the message sent at the end is the one for the failure noted |
| Termination.VerdictIsConclusion | binder.cc:123-159 | asking the servers one by one in the order of the table ends with the message that handleTerminate returns |
| Termination.AlwaysInv | binder.cc:119-160 | as long as no failure has been noted, every server asked and heard has gone through its gate |
| Termination.PassedThroughGate | libserver.cc:164-175 | a server beyond its gate got there by a step of the global run, drained |
| Termination.AskedIsTheTable | binder.cc:123-124 | the servers asked are the binder's table at the moment the request was taken up |
| Termination.TerminationSafety | rpc.cc:253-263 | if rpcTerminate returns success, every server in the binder's table when it took up the request went through its drain gate, drained at that moment |
| Termination.FailuresAreNotSuccess | rpc.cc:264-269 | -1004 arrives as 20 and -1003 as 21, never as success |
| Rpc.CopyOutputArgumentsBack | rpc.cc:153-167 | outputs and in-outs are overwritten with the result bytes, every other byte of the caller's memory stays |
| Rpc.CopiedBackBytes | rpc.cc:156-166 | byte by byte: where bit 30 of the type word is set the result stands at the front of the argument, and every other byte is the caller's own |
| Rpc.HandleExecute | libserver.cc:24-49 | the reply is the failure for an unknown signature, the skeleton's failure, or its arguments |
| Rpc.ServeRequest | libserver.cc:24-49 | from received bytes to reply bytes: -1003 for an unknown signature, the skeleton's own failure, or the request with the arguments as the skeleton left them |
| Rpc.CallEffect | rpc.cc:169-245 | a call that does not return 0 has changed no argument, whatever went wrong |
| Rpc.RegisterAnnounces | binder.cc:47-52 | the address of a Register message can be sent back to a client |
| Rpc.SendableStays | binder.cc:37-190 | every request, registration, locate and removal alike, leaves only addresses that can be sent to a client |
| Rpc.AlwaysSendable | binder.cc:37-190 | the same for every run |
| Rpc.Locate | rpc.cc:176-208 | the locate exchange through bytes: address, LOCATE_FAILURE, a lost connection, or an unexpected message |
| Rpc.Call | rpc.cc:210-244 | the execute exchange through bytes has the effect of the execution on the caller's memory, or reports a lost connection or an unexpected message |
| Rpc.RpcCall | rpc.cc:169-245 | status, caller's memory and binder state of a whole call, on every branch |
| Rpc.RemoteMeansLocal | rpc.cc:210-238 | a remote call returns the skeleton's status if and only if that is in -128..127; on 0 the arguments with bit 30 are those of a local call and all others are untouched; otherwise no argument changes |
| Rpc.LocalBytes | libserver.cc:35-37 | byte by byte, what a local call leaves: the skeleton's result on the declared bytes, and the rest untouched |
| Rpc.CallStatus | rpc.cc:169-245 | rpcCall returns 0 if and only if both exchanges were completed, a reachable server that knows the procedure was located, and the skeleton's status is a multiple of 256; and the code for every other case |
| Rpc.FailureReportedAsSuccess | protocol_macros.h:34-41 | a skeleton is reported as successful if and only if its status is a multiple of 256; other than for 0, no output is delivered then |
| ServerProcesses.ServerProcess.RpcRegister | rpc.cc:97-143 | 0 for a completed exchange, -1002 for a lost one, -1003 or the byte of a failure for another message; dispatch table and binder state for each; and when a listing implies knowledge afterwards |
| ServerProcesses.AnsweredWithSuccess | binder.cc:54-69 | the binder answers every registration with success: 0, or the warning 1 if it knows the server for the signature |
| ServerProcesses.LostReplyLeavesUnknown | rpc.cc:138-142 | a first registration whose answer is lost: the call fails, clients are sent to the server, and it does not know the procedure |
| Agreement.RequestAnswered | binder.cc:236-241 | the bytes under way are decoded to, and registered as, the signature that their sender is waiting for |
| Agreement.AlwaysInv | rpc.cc:97-151 | in every run, addresses shared and reused at will, the process behind a listed socket has the signature, is about to enter it, or is gone |
| Agreement.TableIsWhatWasAsked | rpc.cc:97-124 | in every run, a server in rpcExecute has exactly the signatures in its table that it has asked to register |
| Agreement.ListedIsKnown | rpc.cc:145-151 | in every run, the process behind a listed socket has the listed address, and once it has entered rpcExecute it has the signature in its table |
| Agreement.LocatedCallIsKnown | libserver.cc:26-35 | whatever equivalent type words the client uses, a located call runs a skeleton at the process behind the listed socket, and at any other process at the address if and only if that has asked to register the signature |
| Agreement.ReusedAddress | libserver.cc:29-33 | a run in which a call is sent to a newcomer at the address of a crashed server and takes the unknown-signature branch |
| EndToEnd.CallRunsLongestWaiting | rpc.cc:176-233 | a call runs the procedure of the provider with the smallest timestamp, as if it were local, and sends that provider to the end of the order |
| EndToEnd.FirstIsOldest | binder.cc:91-99 | the scan of the queue finds a provider than which no other has a smaller timestamp |
| EndToEnd.LocatedCallMeansLocal | rpc.cc:97-245 | in every run of binder and servers, a call located at a server in rpcExecute that is behind the listed socket, or has asked to register the signature, means a local call of the skeleton registered there |
| EndToEnd.FramedMessagesArrive | tcp_socket.cc:24-76 | whatever the chunking and interleaving, the k-th buffer received is decoded to the k-th message sent |
| Framing.HeaderOf | tcp_socket.cc:24-34 | the header of a frame is the number of bytes behind it |
| Framing.UnframeFrame | tcp_socket.cc:32-42 | a frame in front of anything is read back whole and leaves what follows |
| Framing.UnframePartial | tcp_socket.cc:53-70 | a proper prefix of a frame is not a message |
| Framing.PrefixHoldsPrefix | tcp_socket.cc:45-76 | any prefix of the stream holds the first messages sent, whole and in order |
| Framing.BytesConserved | tcp_socket.cc:35-42 | no chunking of writes and reads loses, repeats or reorders a byte |
| Framing.FramedStreamFidelity | tcp_socket.cc:24-76 | for any messages, chunking and interleaving the receiver holds the first messages sent, and all of them at a frame boundary once everything has arrived |
| Framing.Send | tcp_socket.cc:24-43 | appends exactly one frame, or a prefix of it when the connection fails |
| Framing.Recv | tcp_socket.cc:45-76 | returns exactly the first message of the stream and leaves the rest, for any chunking of the reads and with any part of the payload still to arrive |
| Framing.SendAll | tcp_socket.cc:24-43 | successive sends append the frames in order, up to the place where the connection is lost |
| Framing.RecvAll | libserver.cc:59-65 | successive receives until the end of the stream return all the complete messages in it |
| Framing.Transfer | tcp_socket.cc:24-76 | sends and receives composed: the reader gets the first messages sent, in order, and all of them if the writer got through |

## Left out

- TcpServers.TcpServer.AcceptIfAny: a failing `select` (it throws, and the loop goes on or the process dies) and descriptors beyond the size of an `fd_set` are not modelled.
- TcpServers.TcpServer.ConnectionClosed: the second `close` of the same descriptor by the destructor is not modelled.
- Framing.Send: the four-byte header is transferred whole or not at all, as the code takes for granted; error numbers other than a lost connection are not told apart.
- Framing.Recv: a header that arrives in two pieces, a negative length, a peer that neither writes on nor closes, and errors other than the end of the stream are excluded by preconditions.
- Rpc.RpcCall: an answer of the expected type carries what the peer sends, so answers with the right type and wrong contents are not modelled; nor are failures to build the first connection to the binder beyond a null pointer.
- Rpc.RemoteMeansLocal: skeletons are functions of type words and argument bytes that keep every length; state inside a skeleton, skeletons that do not return, and argument pointers that overlap are not modelled.
- Termination.TerminationSafety: safety only; that a server comes to answer at all (fair scheduling of the spinning thread, clients hanging up) is not stated.
- Agreement.AlwaysInv: register replies are not lost (`ServerProcesses.ServerProcess.RpcRegister` says what happens when they are), the clock wraps as in the code, and a server process does not call other procedures over its binder connection while it registers.
- LoopRuns.LoopIsCoherent: sockets of one address follow one another and the clock lasts, as the refinement assumes; what a single request does beyond that is said exactly by `Refinement.CoherenceKeptExactly`.
- Threads.CounterExactness: the counter is an unbounded integer, thread creation does not fail, and a cancellation takes effect where the client listener waits for connections.
- Malformed or truncated buffers and unknown type codes: the code takes valid messages for granted, so the decoders require them.
- The branch of `serve_client_thread` for messages that are not Execute requests: it sends the request back and goes on to decode it; requests are well-typed here.
- Register, LocateRequest and LocateSuccess objects are values; only Execute, whose arguments are mutated through pointers, is an object with arrays.
- `std::set` and `std::map` are sequences and maps with the code's key comparison; the erasing loops over timestamps and signatures visit their keys in arbitrary order.
- Memory management (`malloc`, `delete`, the copying of `RawMessage`), and object addresses beyond their identity.
- `rpcInit`, host names, environment variables, socket creation, printing, the sample programs and the assignment's example functions.
