# DiCoN in Dafny

A Dafny model of DiCoN, a library for remote memory and remote threads over TCP, with proofs about its
protocol, its data structures and two of its workloads. `dafny verify dfyconfig.toml` checks everything.

| file | models |
|---|---|
| `Bytes.dfy`, `Wire.dfy` | packed little-endian messages, their decoding, framing of byte streams |
| `Sockets.dfy` | exact-length receive over arbitrarily split segments, request buffers filled in place, the node's serving loop (classes, arrays, loops) |
| `Rpc.dfy`, `RpcSafety.dfy`, `RpcProgress.dfy` | the two-mutex call pipeline of any number of client threads on one connection, as a step system over byte queues |
| `NodeHeap.dfy`, `NodeModel.dfy`, `RemoteHeap.dfy`, `NodeRuns.dfy` | the node's handlers on a flat address space, the block heap clients see, and the composition with the protocol; uploaded files and remote threads over whole runs |
| `Registry.dfy`, `RegistryLock.dfy`, `RegistryRuns.dfy`, `Listing.dfy` | the main server's doubly linked registry (classes with link fields, and its memory as a value), runs of its handlers, its mutex as a step system of single link accesses, what its critical sections achieve over whole runs, the listing on the wire |
| `Primes.dfy` | trial division, the growing result array, the range partition |
| `Search.dfy`, `Jobs.dfy`, `Client.dfy`, `Cluster.dfy`, `Count.dfy` | the distributed count: the remote search on the node's memory, the node during the count, the client's calls, all connections together, the client program |
| `Checksum.dfy` | the rotate-xor checksum |
| `Cracker.dfy` | base-36 numbering of strings and the hash search |

## What is proved

* **Calls linearize.** Every interleaving of any number of client threads, lock operations, byte
  deliveries, node steps and remote-thread steps gives the results and the node state of running the
  calls one at a time in the order in which `send_mut` was acquired, although messages carry no
  identifier. No response is stolen, and at most two requests are outstanding. The theorem holds for
  every node whose handlers answer in kind; `NodeModel.HandlersAnswer` shows that DiCoN's do.
* **Calls complete.** There is no deadlock, and every step lowers a lexicographic measure, so under
  every schedule, without fairness, a finite set of calls returns.
* **Remote memory is a block heap.** Through locks, wire, framing, dispatch and flat memory, the
  clients see a map from addresses to blocks. In every run, the call that reads a region returns what
  the call that last wrote it sent, whichever threads made the two calls; under each name the node stores
  the file of the last upload (`NodeRuns.FilesAreUploads`), and a join returns the result of the thread
  that the run call started (`NodeRuns.JoinReturnsResult`).
* **The registry is memory-safe in every run**, and it lists the live announcements exactly under the
  condition stated below. In every interleaving of the handlers, one link access at a time, appending,
  removing and the two-pass listing are atomic, on the memory of the code as written, entries that are off
  the list included, and on that of the repaired code (`RegistryLock.ListingsAreAtomic`). Every request for
  the mutex takes effect exactly once, in the order of its connection: a listing sends the chain of that very
  moment (`RegistryRuns.RunRecords`, `RegistryRuns.SectionsTakeEffect`), and every critical section ends
  (`RegistryRuns.SectionsEnd`).
* **The bytes are those of the packed structs**: `Wire.RequestFormat`, `Wire.ResponseFormat` and
  `Listing.ListingFormat` give every code, offset and width as a literal, and `Bytes.LeByte` every byte of a
  field.
* **The distributed prime count is right and completes.** One client, any number of nodes and cores,
  remote searches interleaved with everything else, one loop iteration at a time. A started thread is a search
  only if its function is the one that has been loaded on its node. In every state that
  the whole system can reach, every request a node has in hand addresses live memory and known threads,
  so it can be served unless the node lacks memory or the answer does not fit (`Cluster.ClientIsSane`).
  Under every schedule, unless something of that kind is lacking, all calls return
  (`Count.CountCompletes`); and the program has a total if and only if they have, namely the number of
  primes of the range (`Count.CountPrimes`).

## Where the code differs from its evident intent

* `main-server/src/main.c:63-65` sets the head to NULL when the first entry leaves. `Registry.Run`
  models the code as written and with the head set to the successor. As written, all listings are
  faithful if and only if no event removes the first of several entries.
* `main-server/src/main.c:143` forgets the earlier entry of a connection that announces again.
  `Registry.Run`: the entries without a handler are as many as the repeated announcements, so there are
  none if and only if connections announce once. `Registry.Continue`: such an entry stays for ever.
  `Registry.AnnouncedTwice` is the shortest case.
* `node/src/node_client_communication.c:30` tests an unsigned size with `<= 0`. `NodeModel.NullMalloc`:
  the result is null exactly for size zero; negative sizes ask for a huge block.
* `diconlib/src/client_node_communication.c:389` sends a load request for a verify call, and the node
  does not dispatch verify at all. `Wire.VerifyReturnsTheHandle`: what comes back is the handle.
* `node/src/node_client_communication.c:138-156` never sets the upload response's `success`; the model
  lets any 32-bit value arrive.
* `demo/hash-cracker/main.c:73` hands out inclusive ends, `demo/hash-cracker/cracker.c:27` takes them
  as exclusive. `Cracker.ChunkEndsAreSkipped`: an index is tried if and only if it ends no chunk.
* `demo/find-primes/main.c:38`: the loop ends if and only if the upper bound, as an `unsigned int`, is not
  2^32 - 1 (`Primes.LoopEnds`). `demo/find-primes/main.c:29-30` truncates 64-bit bounds to 32 bits, and
  `is_prime` takes an `int`. For all bounds, the search reports exactly the primes of its range if and only if
  none of them is 2^31 or more or beyond the truncated upper bound, and, for a lower bound of 2^32 or more, the
  range that is searched instead has no primes (`Primes.FoundExactly`). `Primes.TruncationFails` is one such
  input.
* `node/src/node_client_communication.c:109-110` allocates 15 + strlen bytes for the path of a library and
  writes 17 + strlen. The model leaves the node's memory unchanged there.
* `node/src/node_client_communication.c:240-262` runs the handler also on a body that is shorter than its
  struct, and `common/src/dicon_sockets.c:140-144` turns a body size of 2^31 or more into a negative
  `int`. What then happens is left open: `Sockets.ClientHandlingLoop` speaks of the messages before.

## Assumptions

The connection stays up; `send` transmits the whole message; message lengths fit in `int`; remote
functions terminate and keep memory well-formed (proved of the prime search, which ends for upper bounds other
than 2^32 - 1 modulo 2^32; in the distributed count no thread has such a bound, also none left from before, and
`Jobs.WorkKeeps`, `Jobs.RunKeeps` keep it so); `malloc` returns fresh blocks. A request whose
behaviour C leaves undefined (a dead address, an unknown thread) has no transition. `sqrt` on integers
below 2^31 is precise enough that `i <= sqrt(n)` means `i * i <= n`.

## Model

| member | source | states |
|---|---|---|
| Bytes.UnLeOfLe | common/include/dicon_protocol.h:62-75 | a stored fixed-width integer reads back modulo the width of its field |
| Bytes.LeOfUnLe | common/include/dicon_protocol.h:62-75 | every byte string is the encoding of the integer it spells |
| Bytes.LeByte | common/include/dicon_protocol.h:62-75 | byte i of a stored integer is its i-th digit to base 256 |
| Wire.DecodedOp | node/src/node_client_communication.c:240-262 | the switch dispatches on exactly the codes that client-built requests carry, each to the handler of its own kind; `Wire.RequestFormat` says which they are |
| Wire.RequestFormat | common/include/dicon_protocol.h:33-237 | for every kind of request: the literal operation code, the version, the size, and each field of its struct at its literal offset and width |
| Wire.ResponseFormat | common/include/dicon_protocol.h:70-237 | for every kind of response: the body size, and each field of its struct at its literal offset and width |
| Wire.RequestRoundTrip | common/include/dicon_protocol.h:87-237 | the node decodes every request that fits to exactly the request the client built |
| Wire.FitsExactly | diconlib/src/client_node_communication.c:9-22 | the requests that fit are exactly those with an `int` length that come out of the decoder as they went in, symbols without a NUL |
| Wire.UploadRoundTrip | diconlib/src/client_node_communication.c:333-356 | for NUL-free names and arbitrary file bytes, the node recovers name and file from the combined tail |
| Wire.ResponseRoundTrip | common/include/dicon_protocol.h:91-237 | a response of the right kind is recovered by the cast its request calls for |
| Wire.Framing | node/src/node_client_communication.c:227-233 | repeated head-then-body reads recover any sequence of requests, also before a message that breaks off anywhere |
| Wire.ParseOne | node/src/node_client_communication.c:227-262 | one head, one body, one dispatch, and the rest of the stream is untouched |
| Wire.PartialMessage | node/src/node_client_communication.c:227-233 | an incomplete message yields nothing |
| Wire.ResponseFraming | diconlib/src/client_node_communication.c:64-70 | repeated head-then-body reads recover any sequence of responses in request order |
| Wire.VerifyReturnsTheHandle | diconlib/src/client_node_communication.c:388-401 | whatever the node answers, a verify call is served as a load and returns the handle; no request carries the verify code |
| Sockets.Conn.Recv | common/src/dicon_sockets.c:73-77 | one `recv` takes a non-empty part of what is pending, or zero when the peer has closed |
| Sockets.Conn.TcpRecvN | common/src/dicon_sockets.c:68-82 | exactly n bytes however they were split, rest of the buffer kept; -1 if and only if fewer arrive |
| Sockets.Conn.ConnRecv | common/src/dicon_sockets.c:140-155 | the same, with the closed state of the connection, the optional terminator, and the rest of the buffer kept |
| Sockets.LayoutIsBody | diconlib/src/client_node_communication.c:85-487 | the fields the builders assign make up the body, and the sizes they compute are its length |
| Sockets.BuildRequest | diconlib/src/client_node_communication.c:9-22 | the buffer filled in place is the encoding of the request |
| Sockets.NodeRecvSend | node/src/node_client_communication.c:224-272 | reads exactly one message, serves it, sends one response for a dispatched operation and none for an unknown one; open for a malformed message |
| Sockets.ClientHandlingLoop | node/src/main.c:10-16 | for every byte stream and every segmentation, serves exactly the messages the stream spells, up to the first malformed one |
| Sockets.ServeClients | node/src/main.c:10-16 | for client-built streams cut anywhere: exactly the complete requests, in order, one response each |
| Sockets.OneResponseEach | common/include/dicon_protocol.h:1-9 | one response for each dispatched request |
| Rpc.AtomicRunSnoc | node/src/main.c:10-16 | the atomic history extends by one step, and its calls by exactly the served one |
| RpcSafety.InitInv | common/src/dicon_sockets.c:99-114 | a new connection satisfies the invariant |
| RpcSafety.BeginKeeps | diconlib/src/client_node_communication.c:53-55 | starting a call keeps the invariant |
| RpcSafety.LockSendKeeps | diconlib/src/client_node_communication.c:55 | acquiring `send_mut` keeps the invariant and appends the call to the pipeline |
| RpcSafety.SendKeeps | diconlib/src/client_node_communication.c:58 | sending keeps the invariant and puts exactly this request behind the others |
| RpcSafety.LockRecvKeeps | diconlib/src/client_node_communication.c:61 | acquiring `recv_mut` before releasing `send_mut` keeps the order of the pipeline |
| RpcSafety.UnlockSendKeeps | diconlib/src/client_node_communication.c:62 | releasing `send_mut` keeps the invariant |
| RpcSafety.RecvHeadKeeps | diconlib/src/client_node_communication.c:65-66 | reading any part of the head keeps the invariant |
| RpcSafety.HeadDoneKeeps | diconlib/src/client_node_communication.c:69 | turning from head to body keeps the invariant |
| RpcSafety.RecvBodyKeeps | diconlib/src/client_node_communication.c:70 | reading any part of the body keeps the invariant |
| RpcSafety.OwnResponse | diconlib/src/client_node_communication.c:64-75 | a fully read body is the response to the reader's own request, the oldest unfinished call |
| RpcSafety.UnlockRecvKeeps | diconlib/src/client_node_communication.c:73-75 | returning keeps the invariant |
| RpcSafety.NodeReadKeeps | node/src/node_client_communication.c:227-233 | the node reading any part of a message keeps the invariant |
| RpcSafety.OldestRequest | node/src/node_client_communication.c:235-262 | what the node decodes is the oldest sent and unserved request |
| RpcSafety.DispatchKeeps | node/src/node_client_communication.c:237-262 | dispatching keeps the invariant and extends the atomic history |
| RpcSafety.NodeSendKeeps | node/src/node_client_communication.c:265-266 | responding keeps the invariant |
| RpcSafety.BackgroundKeeps | node/src/node_client_communication.c:188-201 | steps of remote threads keep the invariant |
| RpcSafety.NextKeeps | diconlib/src/client_node_communication.c:53-76 | every step keeps the invariant |
| RpcSafety.RunKeepsInv | diconlib/src/client_node_communication.c:53-76 | every state of every run satisfies the invariant |
| RpcSafety.Linearizability | diconlib/src/client_node_communication.c:53-76 | results and node state are those of atomic calls in `send_mut` order; when all threads are idle every call is served and returned |
| RpcSafety.RealTimeOrder | diconlib/src/client_node_communication.c:53-76 | histories only grow, so a call that has returned precedes every call that takes `send_mut` later |
| RpcSafety.NoStolenResponse | diconlib/src/client_node_communication.c:60-75 | what a thread returns is the node's response to that thread's request, in its turn |
| RpcSafety.ProgramOrder | diconlib/src/client_node_communication.c:53-76 | each thread's calls are made and answered in its own order, each exactly once, up to the one that it is in |
| RpcSafety.PipelineBound | diconlib/src/client_node_communication.c:55-73 | at most two requests outstanding: the `recv_mut` holder's, then the `send_mut` holder's; exactly their bytes are in flight |
| RpcProgress.StepDecreases | diconlib/src/client_node_communication.c:53-76 | every step but the start of a call lowers (undispatched calls, remote work, local steps) |
| RpcProgress.NodeCanStep | node/src/node_client_communication.c:224-272 | the node can step while it owes an answer |
| RpcProgress.ReceiverCanStep | diconlib/src/client_node_communication.c:61-75 | the `recv_mut` holder, or the node for it, can step |
| RpcProgress.NoDeadlock | diconlib/src/client_node_communication.c:53-76 | while a call is unfinished, some thread or the node can step |
| RpcProgress.EveryCallCompletes | diconlib/src/client_node_communication.c:53-76 | if no further call begins, every schedule reaches a state with all threads idle |
| RpcProgress.FiniteCallsComplete | diconlib/src/client_node_communication.c:53-76 | from the start, for calls begun at any time: every schedule ends with all calls returned and with the atomic answers |
| NodeHeap.AllocView | node/src/node_client_communication.c:36-41 | a fresh block appears; every other block keeps its contents |
| NodeHeap.WriteView | node/src/node_client_communication.c:78-80 | the written bytes appear in the one block that contains them; every other block is untouched |
| NodeHeap.ReadView | node/src/node_client_communication.c:91-93 | a read is a slice of the block that contains it |
| NodeHeap.ReleaseView | node/src/node_client_communication.c:59-62 | exactly the freed block disappears |
| NodeHeap.ResizeView | node/src/node_client_communication.c:48-50 | `realloc` to a positive size keeps the common prefix and all other blocks |
| NodeModel.HandlersAnswer | node/src/node_client_communication.c:26-215 | every handler builds a response of the kind its request calls for |
| NodeModel.NullMalloc | node/src/node_client_communication.c:26-42 | the address is null if and only if the size is zero; a negative size allocates |
| NodeModel.ServeRefines | node/src/node_client_communication.c:26-215 | each handler is a step of the block heap; `NodeRuns` has the files and the threads |
| NodeModel.ReallocRefines | node/src/node_client_communication.c:44-53 | all cases of `realloc` on blocks: null, zero size, move |
| NodeModel.WorkIsFinite | node/src/node_client_communication.c:188-215 | terminating remote functions make the node's background work finite |
| NodeModel.MemoryIsLive | node/src/node_client_communication.c:26-96 | every sane memory request can be served |
| NodeModel.SaneIsLive | node/src/node_client_communication.c:26-215 | on a sane request the node answers, or the awaited thread can step |
| RemoteHeap.RunRefines | node/src/node_client_communication.c:26-96 | every history of the node is a history of the block heap |
| RemoteHeap.RemoteHeapRefinement | diconlib/src/client_node_communication.c:95-256 | in every state of every concurrent byte-level run, calls have returned the block heap's answers |
| RemoteHeap.RunSeparate | node/src/node_client_communication.c:26-96 | in every state of every run, blocks do not overlap |
| RemoteHeap.ReadReturnsWrite | diconlib/src/client_node_communication.c:182-238 | in every run, the call that reads a region returns the data of the call that last wrote it, whichever threads made them, if no step in between touches the region |
| RemoteHeap.NodeCallsComplete | node/src/main.c:10-16 | with terminating remote functions and sane requests, every finite set of calls completes with the atomic answers |
| NodeRuns.FilesAreUploads | node/src/node_client_communication.c:138-156 | in every state of every run, the file under each name is that of the last upload call of the name that was served, in `send_mut` order, and otherwise what was there before |
| NodeRuns.StepStores | node/src/node_client_communication.c:138-156 | serving an upload changes exactly its name; no other step of a run, and no remote thread, changes any file |
| NodeRuns.StepThreads | node/src/node_client_communication.c:188-215 | a run starts its function on its arguments under an unused identifier, a join answers a result and takes the thread away, and nothing else but a thread's own steps changes a thread |
| NodeRuns.ThreadKept | node/src/node_client_communication.c:188-215 | until it is joined a thread stays, in a state that its function can get to |
| NodeRuns.JoinReturnsResult | node/src/node_client_communication.c:188-215 | in every run, the call that joins a thread returns the result of the function that the run call started, on that call's arguments |
| Registry.Server.FindLast | main-server/src/main.c:41-45 | the walk ends at the last entry of the chain |
| Registry.Server.AppendInfo | main-server/src/main.c:36-55 | the new entry is linked at the end of the list; the chains stay sound |
| Registry.Server.CloseGap | main-server/src/main.c:59-62 | the two assignments change exactly the links around the entry |
| Registry.Server.RemoveInfo | main-server/src/main.c:57-68 | as written: the chains stay sound; a middle entry leaves the list, a first entry empties it |
| Registry.Server.RemoveInfoRepaired | main-server/src/main.c:57-68 | with the head set to the successor: exactly the entry leaves the list |
| Registry.UnlinkedChains | main-server/src/main.c:59-62 | after unlinking, live entries still form disjoint acyclic chains without links to the removed one |
| Registry.Closes | main-server/src/main.c:59-62 | the chain around the removed entry closes up |
| Registry.Untouched | main-server/src/main.c:59-62 | every other chain is unchanged |
| Registry.Server.GetInfo | main-server/src/main.c:92-112 | count pass and copy pass agree: the whole list, in order |
| Registry.ChainIs | main-server/src/main.c:96-112 | following `next` from the head of a chain meets exactly that chain, so the reachable list is the chain from `NODES_INFO` |
| Registry.Server.Announce | main-server/src/main.c:140-148 | announcing appends the entry and makes it the handler's; the whole memory afterwards |
| Registry.Server.Leave | main-server/src/main.c:159-163 | a handler that announced removes exactly its entry; any other leaves the list alone; the whole memory afterwards |
| Registry.ChangeEffect | main-server/src/main.c:123-168 | one change of the memory, as written or repaired, from any sound memory: soundness, entries without a handler, the list |
| Registry.Handle | main-server/src/main.c:123-168 | one critical section on the objects is one such change: what it does to soundness, to the entries without a handler and to the list, as written and repaired |
| Registry.HistoryKeeps | main-server/src/main.c:123-168 | every memory of every history of changes is sound, with as many entries without a handler as repeated announcements |
| Registry.HistoryIsLive | main-server/src/main.c:123-168 | if connections announce once: the list is at all times the live announcements with the repair, and as written if and only if no event removes the first of several |
| Registry.Run | main-server/src/main.c:123-168 | whole runs: always sound; entries without a handler are as many as repeated announcements, so none if and only if connections announce once; listings faithful with the repair, and as written if and only if no event removes the first of several |
| Registry.AnnouncedOrphans | main-server/src/main.c:143 | a repeated announcement takes exactly the earlier entry from its handler |
| Registry.Continue | main-server/src/main.c:123-168 | in every continuation of every run an entry without a handler stays, with the repair in every listing |
| Registry.AnnouncedTwice | main-server/src/main.c:140-163 | any connection that announces twice and leaves: its first entry is still listed and has no handler |
| RegistryLock.StoredIsAppended | main-server/src/main.c:36-55 | the walk's last entry and the single assignments make exactly the appended memory |
| RegistryLock.FreedIsRemoved | main-server/src/main.c:57-68 | the single assignments, `*first` included, and `free` make exactly the memory without the entry, as written and repaired |
| RegistryLock.NextKeeps | main-server/src/main.c:15-18 | every step of every handler keeps the mutual exclusion, and each handler where its steps so far have brought the memory |
| RegistryLock.ListingsAreAtomic | main-server/src/main.c:123-168 | in every interleaving, as written and repaired: the memory is that of the critical sections one at a time, every listing is the chain from `NODES_INFO` after exactly the changes before it, no handler comes across a freed entry, and one that has left has no entry; `RegistryRuns.RunRecords` says when a listing is sent |
| RegistryLock.ListingsAreLive | main-server/src/main.c:123-168 | if connections announce once: every listing of every interleaving is the live announcements, with the repair always, as written as long as no first of several has left |
| RegistryLock.InsideMoves | main-server/src/main.c:36-112 | a handler that has the mutex can always take its next step |
| RegistryRuns.RunRecords | main-server/src/main.c:92-168 | in every run: a listing is sent by `handle_get_info` alone and is the chain at the moment of sending; announcements and departures are recorded by the steps that complete them, with the handler's own info |
| RegistryRuns.SectionsTakeEffect | main-server/src/main.c:139-163 | in every state of every run, the changes made for a connection are exactly those it asked for, in order, up to the pending one; one listing for each one asked for; one change or one listing for each section left |
| RegistryRuns.LeaveIsLast | main-server/src/main.c:159-167 | a connection leaves at most once and asks for nothing afterwards |
| RegistryRuns.SectionsEnd | main-server/src/main.c:36-112 | a handler holds the mutex for at most 2n + 4 steps on a list of n entries |
| RegistryRuns.SomeoneMoves | main-server/src/main.c:15-18 | while a request is unfinished, the owner of the mutex can go on, or whoever waits can take it |
| Listing.ListingRoundTrip | common/include/dicon_main_server_protocol.h:49-57 | count and records decode to the infos that were encoded |
| Listing.ListingFormat | common/include/dicon_main_server_protocol.h:49-57 | body size, count, and each record's family, address and cores at their literal offsets and widths |
| Listing.ServeListing | main-server/src/main.c:92-120 | head and body for exactly the reachable list, in order |
| Listing.GetNodesInfo | diconlib/src/client_main_communication.c:22-28 | two exact reads over any segmentation recover the infos and leave what follows |
| Listing.ListNodes | diconlib/src/client_main_communication.c:12-29 | the client gets exactly the reachable list, in order, however the transport splits the bytes |
| Primes.IsPrime | demo/find-primes/main.c:12-20 | true exactly for primes, for every `int` |
| Primes.PrimesInSpec | demo/find-primes/main.c:38-51 | the list has exactly the primes of the range, each once, in increasing order |
| Primes.Realloc | demo/find-primes/main.c:44 | growing and shrinking keep the common prefix |
| Primes.FindPrimes | demo/find-primes/main.c:28-57 | for all bounds and any number of loop tests: it has ended exactly if the counter has passed the bound; then first cell the count, then the primes of the truncated range in order; all writes within capacity |
| Primes.LoopEnds | demo/find-primes/main.c:38 | the loop ends if and only if the upper bound is not 2^32 - 1 modulo 2^32 |
| Primes.FoundExactly | demo/find-primes/main.c:28-57 | for all 64-bit bounds: exactly the primes of the range are reported if and only if none is lost to truncation or to `int`, and none comes from the range searched instead |
| Primes.FoundIn32Bits | demo/find-primes/main.c:38-39 | for 32-bit bounds that is: none is 2^31 or more |
| Primes.TruncationFails | demo/find-primes/main.c:29-30 | an input for which the primes of another range are reported |
| Primes.Tiles | demo/find-primes/main.c:127-140 | the per-core ranges follow each other without gap from the first to the last number |
| Primes.Partition | demo/find-primes/main.c:127-140 | every number of the range is in exactly one per-core range, for any positive number of cores |
| Primes.RangeSizes | demo/find-primes/main.c:127-140 | all ranges but the last have the same size, the quotient rounded down; the last takes the rest |
| Primes.CountsAddUp | demo/find-primes/main.c:157-175 | the counts of the ranges add up to the count of the whole |
| Search.SearchIsTame | demo/find-primes/main.c:28-57 | the remote search, one iteration at a time, keeps memory well-formed, and each of its steps brings it closer to its end |
| Search.ArgsFormat | demo/find-primes/main.c:22-25 | the two bounds stand at bytes 0 and 8, eight bytes each |
| Search.CellsFormat | demo/find-primes/main.c:32-36 | number i of an array stands at byte 8i, eight bytes |
| Search.StepEnds | demo/find-primes/main.c:38 | a search whose loop ends stays one |
| Search.RecordMoves | demo/find-primes/main.c:41-49 | a find replaces the thread's own block: count up, array grown if full, number stored; every other block untouched |
| Search.FinishReturns | demo/find-primes/main.c:53-56 | the returned block is exactly the count and the numbers found |
| Search.ScanKeeps | demo/find-primes/main.c:38-54 | after each iteration the block holds the primes among the candidates tested so far, and has room for the next multiple of 16 numbers |
| Search.SearchMoves | demo/find-primes/main.c:28-57 | a search never reaches outside its blocks: it can go on at every point, if there is memory wherever it allocates |
| Jobs.WorkKeeps | demo/find-primes/main.c:28-57 | searches in any interleaving keep each other's and the client's blocks intact, and none is in a loop that never ends |
| Jobs.RunKeeps | node/src/node_client_communication.c:188-201 | a thread that is started on the loaded function works on exactly the range that its arguments hold |
| Jobs.JoinKeeps | node/src/node_client_communication.c:204-215 | a joined thread's block holds the count and the primes of its own range |
| Jobs.JoinIsSane | node/src/node_client_communication.c:204-215 | joining one of the client's threads is possible at any time, but for memory |
| Client.CallsLeftAfter | demo/find-primes/main.c:134-181 | seven calls for each range, then none |
| Client.AsksExpected | demo/find-primes/main.c:134-181 | the client's calls, and no others, in closed form: call k as a function of the answers before it |
| Client.StageIsSane | demo/find-primes/main.c:142-180 | each of the client's requests can be served unless the node lacks memory or the answer does not fit |
| Client.ServedStage | demo/find-primes/main.c:142-180 | each answer brings client and node to the next stage, with right results |
| Client.Staged | demo/find-primes/main.c:134-181 | in every history made of the client's calls and remote work, the node is at the stage that the answers tell |
| Cluster.ConnKeeps | diconlib/src/client_node_communication.c:53-76 | on every connection, every call is the one the client makes after the answers so far |
| Cluster.ClientIsSane | demo/find-primes/main.c:134-181 | in every reachable state, the request a node has in hand is sane unless the node lacks memory or the answer does not fit |
| Cluster.ClusterRunKeeps | demo/find-primes/main.c:134-181 | every state of every run of client, connections and nodes satisfies the invariant |
| Cluster.CallsAreExpected | demo/find-primes/main.c:134-181 | in every reachable state, every call made on a connection is the one that the program makes there |
| Cluster.StartsAreRight | demo/find-primes/main.c:142-149 | every thread is started on its node's function, on a block that the node allocated for it and that the bounds of its range were copied into |
| Cluster.ClusterDecreases | demo/find-primes/main.c:134-181 | every step of the whole system lowers (calls not begun, undispatched calls, remote work, local steps) |
| Cluster.ClusterMoves | demo/find-primes/main.c:134-181 | while the program is not finished, something can happen |
| Cluster.ProgramCompletes | demo/find-primes/main.c:134-181 | every schedule of the whole system finishes all calls, unless a node lacks memory for a request in hand |
| Count.Assign | demo/find-primes/main.c:142-149 | the three calls are the client's next ones and start a thread of its node's function on exactly that range |
| Count.Collect | demo/find-primes/main.c:158-178 | the four calls are the client's next ones and give the result of exactly that thread |
| Count.ResultsAreRight | demo/find-primes/main.c:158-175 | whatever has been collected at any time is the count and the primes of its range |
| Count.CountPrimes | demo/find-primes/main.c:122-181 | in every reachable state: finished if and only if every call has returned, then each result is right and the total is the number of primes of the closed range; otherwise the node whose turn it is |
| Count.CountCompletes | demo/find-primes/main.c:122-181 | from the start, every schedule reaches a finished state, unless a node lacks memory for a request in hand |
| Checksum.Compute | common/src/so_operations.c:3-20 | depends on the bytes only, not on how reads split them; zero if the file cannot be opened |
| Checksum.FoldAppend | common/src/so_operations.c:11-16 | the sum over a concatenation continues from the sum over its first part |
| Checksum.ChecksumIsSpread | common/src/so_operations.c:11-16 | the xor of each byte rotated left by its distance from the end modulo 64 |
| Checksum.RotateDoubles | common/src/so_operations.c:13 | rotating once is doubling modulo 2^64 and adding the top bit |
| Checksum.AbsorbDoubles | common/src/so_operations.c:13-14 | a byte is combined with exactly that |
| Checksum.FirstByte | common/src/so_operations.c:8-16 | the checksum of one byte is its value |
| Checksum.RotateMod | common/src/so_operations.c:13 | rotation has period 64 |
| Checksum.OneByteMatters | common/src/so_operations.c:11-16 | equal-length files that differ in exactly one byte have different checksums |
| Cracker.IndexToString | demo/hash-cracker/cracker.c:13-19 | the buffer holds the base-36 numeral of the index, the character at each position given in closed form, and a terminator |
| Cracker.NumeralDigit | demo/hash-cracker/cracker.c:13-17 | the j-th character from the end is the charset's character number (index / 36^j) mod 36 |
| Cracker.ValueOfNumeral | demo/hash-cracker/cracker.c:13-19 | a numeral reads back as its index modulo 36^length |
| Cracker.NumeralOfValue | demo/hash-cracker/cracker.c:13-19 | every charset string is the numeral of its value below 36^length |
| Cracker.SameNumeral | demo/hash-cracker/cracker.c:13-19 | equal strings exactly for indices congruent modulo 36^length |
| Cracker.CrackThread | demo/hash-cracker/cracker.c:21-42 | the first match of the range, else the last candidate, else what the buffer held; over a non-empty range it is a preimage if and only if some index matches |
| Cracker.SearchIsComplete | demo/hash-cracker/cracker.c:27-36 | a preimage of the right length and charset matches at its index |
| Cracker.ChunkEndsAreSkipped | demo/hash-cracker/main.c:60-73 | an index is tried by some thread if and only if it is not the last of a chunk |
| Cracker.LastIndexIsSkipped | demo/hash-cracker/main.c:60-73 | the last index of the whole range is never tried |

## Left out

- Socket creation, bind, listen, accept, connect and address parsing: operating-system calls.
- `dlopen`, `dlsym`, `dlclose`, file writing and paths: foreign calls; their results are arbitrary values. In the distributed count `find_primes` is loaded at the address that the client has for the node, and a thread started at any other address does nothing; the calls that upload, load and unload it are not part of that client.
- The MD5 computation: the hash is a parameter of the search.
- Connection loss in the middle of a call, reconnection and IPv6: the library does not handle them.
- Node manager, command line, logging, and the remaining demos: no logic of their own.
- The result collection of the hash-cracking client: it reads a returned string as a counted array.
- `dic_memcpy` with a mode outside its enum: it returns 1 without making a call.
- The node's response buffers are modelled as values, not filled in place; request buffers are filled in place.
- Sockets.BuildRequest: the NUL that `strcpy` writes one past the buffer of a function-load request is not written, and the node takes the symbol by its length field instead of reading on to a NUL.
- Primes.IsPrime: models the comparison with the floating-point square root by squaring.
- Wire.RequestRoundTrip: the node takes a function symbol by its length field instead of reading on to a NUL.
- Sockets.LayoutIsBody: one table in struct order stands for the builders, which assign the same fields in an order of their own.
- Jobs.WorkKeeps: one iteration of a remote search is one atomic step; only the thread itself touches the array that it changes.
- Client.Staged: the primes of a range are read back with a 32-bit length, so they are specified for results below 2^32 bytes; the counts for all.
- Cluster.ProgramCompletes: the client's connections carry this client's calls only.
- NodeModel.ServeRefines: alignment of blocks, and `realloc` of a null pointer to size zero beyond the heap being unchanged.
- NodeModel.ReallocRefines: a null pointer with size zero leaves the heap unchanged; the address that comes back is open.
- Search.SearchIsTame: on the upper bound 2^32 - 1 the C loop runs forever; the model has no step there (`Primes.LoopEnds`).
- RegistryLock.ListingsAreAtomic: the acknowledgements and listings that are sent under the mutex are instant.
