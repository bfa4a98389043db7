# Verification of node wiring

This project models the parts of the node wiring software whose correctness is hardest to see from
the code, and proves what they are meant to guarantee:

- the protocol machinery of the embedded web server: WebSocket frames, chunked bodies, SHA-1, the
  queue of accepted sockets with the shutdown handshake and whether it ends, the glob matcher, the list of URI handlers,
  percent encoding and the request reader;
- discovery against etcd: a watch from an index mixed with full resynchronisation;
- the publishing of endpoints to listeners in the Java remote services;
- the export side of the wiring topology manager;
- three printer/parser pairs and string rewriters: wiring properties, endpoint descriptors, and the
  rewriting of certificate texts.

Each file holds one module, named after what it models; `Wrappers`, `Collections`, `Bytes` and `Ascii`
hold what several models share. Code that changes fields or buffers step by
step is a class or a method over arrays, proved against a specification function; what the source
promises is proved about that function, over all inputs, all runs and all ways the outside world
may behave. `dafny verify dfyconfig.toml` checks everything.

## How the outside world is modelled

- A socket is the sequence of bytes the peer will still send. `Pull` takes a prefix of any length and
  may fail at any time, for good, and may then have dropped bytes it had received; the field
  `interrupted` records such a failure, a time-out or a stop request, and an allocation failure in the
  WebSocket reader. Results that need an undisturbed
  connection say "unless interrupted".
- Threads are a state machine whose steps are the critical sections and the reads and writes of the
  stop flag. A run is any sequence of enabled steps. `Shutdown` adds the condition variables: what a
  thread sees before it waits, the wait, and who is woken.
- etcd is an indexed log of events, recursive removals of directories included, and the store that the
  log induces.
- Hash tables yield their entries in any order: an order is a parameter, or is picked by the method.
- The XML parser reports text with line ends and attribute blanks normalised and gives up on characters
  that XML does not admit; it may cut character data anywhere.
- Filters, admins, string hashes, embedded XML and floating point literals are functions about which nothing is
  assumed beyond what a contract says.

## Where code and expectation differ

- The length of the missing part of a WebSocket payload is cast to `int`: from 2^32 bytes on it is never
  fetched, and over TLS from 2^31 bytes on; in between a plain socket takes the negative number for a
  large one and delivers (`WebSocket.FetchPayload`).
- A server stop makes `pull` drop bytes it has just received, so nothing is lost only on an
  uninterrupted connection (`RequestReader.ReadRequest`).
- After the zero chunk the reader does not consume the final CR LF, so the next read fails
  (`ChunkedBody.Read`).
- The stop flag is set without the mutex, so a thread that has looked at it and is about to wait may miss
  its wake-up, and `mg_stop` then waits for good; `Shutdown.StopExactly` says exactly when.
- `SHA1Update` needs room for its 32-bit guard: `Sha1.GuardExact` gives the exact bound.
- The glob matcher gives up an empty match of an alternative that is not the last (`Glob.EmptyMatchLost`,
  `Glob.MatchFails`).
- A full synchronisation with etcd that finds no key, or zones that share names, can cost a wire
  (`EtcdWatcher.EmptySyncBreaks`, `EtcdWatcher.SharedNamesBreak`); `EtcdWatcher.RunComplete` says exactly
  when they do.
- The table may keep wires that are gone: the watcher lets removals of directories pass, which nodes
  issue when they shut down, and compareAndDelete, and a synchronisation may jump past a removal not yet
  watched (`EtcdWatcher.ShutdownLeavesStale`, `EtcdWatcher.StaleWire`); `EtcdWatcher.Accuracy` says
  exactly when it does not.
- A modification that ends a match is not announced to the listener: the code passes the filter that did
  not match, which is null, and swallows the exception. The model does the same;
  `EndpointPublishing.ListenerInformed` says exactly which listeners are affected, and
  `EndpointPublishing.FarewellExactly` which of them still believe in something when they are removed.
- A listener scope that does not parse empties the filters but not the cache (`EndpointPublishing.BadScope`,
  `EndpointPublishing.CacheAgrees`).
- The table of exported requests compares a hash and then one side only, so different requests can meet
  (`TopologyExport.SelfValuedMeets`); `TopologyExport.LookupExactly` says exactly when they cannot.
- A waiting export request cannot be removed, and a second request for the same thing breaks the
  bookkeeping while the first one waits (`TopologyExport.RemoveKeeps`, `TopologyExport.ExportOnePlace`).
- An endpoint that cannot be announced, or the departure of an admin, may leave an export request without
  an admin although one that would take it is there; `TopologyExport.RequestAttended` says exactly when.
- Blanks, colons in keys, and backslashes that do not stand before an escaped character do not survive
  the property file (`WiringProperties.LineExactly`, `WiringProperties.RoundTripExactly`).
- Lists of mixed classes, arrays of `int`, tabs and line ends in attributes, carriage returns in elements
  and characters that XML does not admit do not survive the endpoint descriptor
  (`EndpointDescriptor.ValueExactly`).

## Model

| member | source | states |
|---|---|---|
| `Connections.Connection.Pull` | node-wiring-secure-c/wiring_common_secure/private/src/civetweb.c:3683-3779 | a pull hands over some non-empty prefix of what the peer will still send, of any length up to what the request asks the transport for; a negative length asks a plain socket for up to INT_MAX bytes and TLS for none; a failure is final, and one by server stop may drop bytes already received |
| `Bytes.XorParts` | node-wiring-secure-c/wiring_common_secure/private/src/civetweb.c:8643-8665 | a 32-bit xor of four loaded bytes is the xor of the bytes one by one |
| `Bytes.XorBit` | node-wiring-secure-c/wiring_common_secure/private/src/civetweb.c:8643-8665 | bit by bit, the exclusive-or of two numbers is inequality |
| `WebSocket.MaskIs` | node-wiring-secure-c/wiring_common_secure/private/src/civetweb.c:8643-8665 | bit j of octet i is turned over exactly where bit j of octet i mod 4 of the key is set (section 5.3 of RFC 6455) |
| `WebSocket.MaskData` | node-wiring-secure-c/wiring_common_secure/private/src/civetweb.c:8643-8665 | whatever the alignment, the word-at-a-time path and the byte path leave the payload masked as section 5.3 of RFC 6455 prescribes |
| `WebSocket.MaskWords` | node-wiring-secure-c/wiring_common_secure/private/src/civetweb.c:8643-8665 | the word loop alone masks its share of the input and stops at a word boundary |
| `WebSocket.MaskInvolution` | node-wiring-secure-c/wiring_common_secure/private/src/civetweb.c:8532-8537 | unmasking with the same key gives back the payload |
| `WebSocket.ZeroKey` | node-wiring-secure-c/wiring_common_secure/private/src/civetweb.c:8578-8630 | a zero key leaves the payload alone, so omitting the mask bit loses nothing |
| `WebSocket.PutLength` | node-wiring-secure-c/wiring_common_secure/private/src/civetweb.c:8578-8630 | the three length forms of section 5.2 of RFC 6455, the 64-bit one assembled from two 32-bit words |
| `WebSocket.WriteExec` | node-wiring-secure-c/wiring_common_secure/private/src/civetweb.c:8578-8630 | what goes out is the frame header for opcode, length and key, then the data |
| `WebSocket.ServerWrite` | node-wiring-secure-c/wiring_common_secure/private/src/civetweb.c:8632-8639 | an unmasked frame of the message goes out |
| `WebSocket.ClientWrite` | node-wiring-secure-c/wiring_common_secure/private/src/civetweb.c:8668-8693 | a frame of the message masked with the given key goes out, or nothing and -1 when memory is short |
| `WebSocket.ParseHeader` | node-wiring-secure-c/wiring_common_secure/private/src/civetweb.c:8453-8471 | a decoded header lies within the queue and has at most 14 bytes; 14 bytes always suffice to decode one |
| `WebSocket.HeaderStable` | node-wiring-secure-c/wiring_common_secure/private/src/civetweb.c:8453-8471 | bytes that arrive later never change a header that is complete |
| `WebSocket.BigEndianValue` | node-wiring-secure-c/wiring_common_secure/private/src/civetweb.c:8461-8468 | reading a big-endian field gives back the number written into it |
| `WebSocket.HeaderRoundTrip` | node-wiring-secure-c/wiring_common_secure/private/src/civetweb.c:8453-8471 | a written header, whatever follows it, is decoded to the same length and key |
| `WebSocket.AsInt` | node-wiring-secure-c/wiring_common_secure/private/src/civetweb.c:8500-8503 | the cast from size_t to int keeps exactly the lengths below 2^31 and else yields the low 32 bits as a signed number |
| `WebSocket.FetchPayload` | node-wiring-secure-c/wiring_common_secure/private/src/civetweb.c:8495-8512 | a missing payload part that can arrive is fetched if and only if it is shorter than 2^31 bytes, or than 2^32 on a plain socket; what is fetched is the next part of the stream |
| `WebSocket.TakePayload` | node-wiring-secure-c/wiring_common_secure/private/src/civetweb.c:8472-8530 | the payload is taken from queue and socket in order and the queue is moved up behind it, no byte lost |
| `WebSocket.Unscramble` | node-wiring-secure-c/wiring_common_secure/private/src/civetweb.c:8532-8537 | the reader's byte-wise unmasking loop computes the mask function in place |
| `WebSocket.TakeFrame` | node-wiring-secure-c/wiring_common_secure/private/src/civetweb.c:8471-8537 | success means that the frame is the first of the unread stream, in the sense of `WebSocket.FrameExactly`, and the rest of the stream is what follows it |
| `WebSocket.FillQueue` | node-wiring-secure-c/wiring_common_secure/private/src/civetweb.c:8558-8570 | receiving more moves bytes from the socket to the queue, none lost or reordered unless interrupted |
| `WebSocket.FrameRead` | node-wiring-secure-c/wiring_common_secure/private/src/civetweb.c:8453-8537 | the frame of any sender (section 5.2 of RFC 6455), whatever its first octet, length form, mask bit, key and payload and whatever follows it, is taken with that first octet and the plain payload |
| `WebSocket.FrameStarves` | node-wiring-secure-c/wiring_common_secure/private/src/civetweb.c:8453-8570 | no frame is taken before its last octet has arrived |
| `WebSocket.FrameExactly` | node-wiring-secure-c/wiring_common_secure/private/src/civetweb.c:8453-8537 | a frame is taken off a byte stream if and only if the stream begins with the octets of a frame with that first octet and payload |
| `WebSocket.OwedExactly` | node-wiring-secure-c/wiring_common_secure/private/src/civetweb.c:8539-8556 | owed to the callback is the longest beginning of the list in which no frame is too long and none but the last has opcode 8 or is declined |
| `WebSocket.FramesDelivered` | node-wiring-secure-c/wiring_common_secure/private/src/civetweb.c:8411-8574 | a stream of any frames holds exactly those, up to where the callback is owed no more |
| `WebSocket.ReadWebsocket` | node-wiring-secure-c/wiring_common_secure/private/src/civetweb.c:8411-8574 | for every way pull splits the stream the callback gets only frames of the stream, in order and unmasked, up to the first close frame or refusal; all of them unless interrupted, up to the first frame too long to be fetched |
| `WebSocket.ReadFrames` | node-wiring-secure-c/wiring_common_secure/private/src/civetweb.c:8411-8574 | end to end for a stream of any frames, fragments and all length forms included, and every cut between buffer and socket: exactly the owed first octets and plain payloads if none is too long to be fetched, and else all before the first that may be and none from the first that must be too long |
| `WebSocket.WireIs` | node-wiring-secure-c/wiring_common_secure/private/src/civetweb.c:8578-8693 | a written message is, octet for octet, a final frame of its opcode with the shortest length form, masked unless the key is zero |
| `WebSocket.WireFrame` | node-wiring-secure-c/wiring_common_secure/private/src/civetweb.c:8411-8693 | the first frame read from a written message followed by anything is that message, and what follows is left over |
| `WebSocket.WireDelivered` | node-wiring-secure-c/wiring_common_secure/private/src/civetweb.c:8411-8693 | for every list of messages, any opcode, key and 64-bit length, the written stream carries exactly the messages the callback is owed, under every limit on their length |
| `WebSocket.ReadWritten` | node-wiring-secure-c/wiring_common_secure/private/src/civetweb.c:8411-8693 | the same for written messages of any opcode, key and 64-bit length |
| `ChunkedBody.PullAll` | node-wiring-secure-c/wiring_common_secure/private/src/civetweb.c:3782-3850 | the bytes copied are the next of the stream; fewer than asked for only if interrupted or nothing more comes |
| `ChunkedBody.Fetch` | node-wiring-secure-c/wiring_common_secure/private/src/civetweb.c:3852-3909 | buffered bytes come first, then the socket's, without gap or repetition unless interrupted |
| `ChunkedBody.ReadInner` | node-wiring-secure-c/wiring_common_secure/private/src/civetweb.c:3852-3909 | never reads beyond the content length and consumes exactly what it hands out |
| `ChunkedBody.GetC` | node-wiring-secure-c/wiring_common_secure/private/src/civetweb.c:3911-3922 | one character of the unread body, or 0 when there is none |
| `ChunkedBody.SizeFieldParsed` | node-wiring-secure-c/wiring_common_secure/private/src/civetweb.c:3976-3989 | strtoul on a size line yields the hexadecimal value and stops at the CR |
| `ChunkedBody.HexTextRead` | node-wiring-secure-c/wiring_common_secure/private/src/civetweb.c:3976-3989 | a size is read as the number it was written for, in digits of either case |
| `ChunkedBody.StrtoulIs` | node-wiring-secure-c/wiring_common_secure/private/src/civetweb.c:3976-3989 | strtoul reads the longest run of hexadecimal digits and stops behind it, saturating at the largest 64-bit number |
| `ChunkedBody.PrefixParsed` | node-wiring-secure-c/wiring_common_secure/private/src/civetweb.c:3976-3989 | a leading 0x is passed over |
| `ChunkedBody.IsLineJudged` | node-wiring-secure-c/wiring_common_secure/private/src/civetweb.c:3970-3985 | a line is complete with its last character and not before: letters and digits, perhaps interspersed with single carriage returns, then CR LF, in less than 64 characters; nothing else is a line |
| `ChunkedBody.ReadLine` | node-wiring-secure-c/wiring_common_secure/private/src/civetweb.c:3965-3985 | succeeds if and only if the unread bytes begin with a line, and collects exactly that line |
| `ChunkedBody.ReadSize` | node-wiring-secure-c/wiring_common_secure/private/src/civetweb.c:3965-3989 | succeeds if and only if the unread bytes begin with a line whose number ends at a CR, yields its value and consumes it |
| `ChunkedBody.EndOfChunk` | node-wiring-secure-c/wiring_common_secure/private/src/civetweb.c:3955-3962 | the CR LF behind a chunk is consumed |
| `ChunkedBody.ReadPart` | node-wiring-secure-c/wiring_common_secure/private/src/civetweb.c:3940-3962 | copies the smaller of what is wanted and what the chunk still holds |
| `ChunkedBody.Turn` | node-wiring-secure-c/wiring_common_secure/private/src/civetweb.c:3939-3998 | one turn of the loop keeps the relation between what was delivered and what is left; is_chunked becomes 2 exactly when the zero chunk is met; a turn behind the end fails |
| `ChunkedBody.Read` | node-wiring-secure-c/wiring_common_secure/private/src/civetweb.c:3926-4003 | from a well-formed body (section 4.1 of RFC 7230) a read of any length, clamped to INT_MAX, hands out exactly the next payload bytes, and marks the end exactly when more is asked for than is left; where no size line follows, as behind the final chunk, it returns -1 |
| `ChunkedBody.ReadMany` | node-wiring-secure-c/wiring_common_secure/private/src/civetweb.c:3926-4003 | for every split between buffer and socket and every sequence of lengths, each clamped to INT_MAX, the reads together hand out exactly the concatenated chunk payloads, as far as asked |
| `SocketQueue.PutAppends` | node-wiring-secure-c/wiring_common_secure/private/src/civetweb.c:12069-12095 | putting a socket appends it to the queue the ring stands for |
| `SocketQueue.TakeRemoves` | node-wiring-secure-c/wiring_common_secure/private/src/civetweb.c:11914-11950 | taking removes the oldest socket, also across the joint wrap of both counters |
| `SocketQueue.Queue.Produce` | node-wiring-secure-c/wiring_common_secure/private/src/civetweb.c:12069-12095 | the master's critical section appends, or drops the socket exactly when the ring is full |
| `SocketQueue.Queue.Consume` | node-wiring-secure-c/wiring_common_secure/private/src/civetweb.c:11914-11950 | a worker's critical section takes the oldest socket, or none exactly when the ring is empty |
| `Server.StepInv` | node-wiring-secure-c/wiring_common_secure/private/src/civetweb.c:11953-12049 | every atomic step of every thread keeps queue, counter and stage invariants |
| `Server.RunInv` | node-wiring-secure-c/wiring_common_secure/private/src/civetweb.c:11914-12272 | so does every interleaving |
| `Server.QueueSafety` | node-wiring-secure-c/wiring_common_secure/private/src/civetweb.c:11914-12095 | on every interleaving the counters stay in range, sockets leave once each in arrival order, and every accepted socket is queued, held by one worker, served or lost, none lost before stop |
| `Server.ShutdownSafety` | node-wiring-secure-c/wiring_common_secure/private/src/civetweb.c:12170-12404 | on every interleaving running_worker_threads counts exactly the workers not signed off, and the context is freed only after all of them signed off and were joined, when no thread can move any more |
| `Server.StopFlagStep` | node-wiring-secure-c/wiring_common_secure/private/src/civetweb.c:12375-12404 | stop_flag moves only from 0 to 1 and from 1 to 2 |
| `Server.StopFlagMonotone` | node-wiring-secure-c/wiring_common_secure/private/src/civetweb.c:12375-12404 | stop_flag never decreases over a run |
| `Shutdown.Refines` | node-wiring-secure-c/wiring_common_secure/private/src/civetweb.c:11914-12272 | with looks, waits and signals of the condition variables made explicit, every run is still one of the server, so its safety holds |
| `Shutdown.MoveInv` | node-wiring-secure-c/wiring_common_secure/private/src/civetweb.c:11914-12272 | every move keeps the invariants, among them that while workers sleep every queued socket has an awake worker that will come for one |
| `Shutdown.Bounded` | node-wiring-secure-c/wiring_common_secure/private/src/civetweb.c:12170-12404 | after a stop request no run goes on for ever |
| `Shutdown.StopExactly` | node-wiring-secure-c/wiring_common_secure/private/src/civetweb.c:12375-12404 | mg_stop can hang if and only if, when it sets the flag, a worker is between look and wait with the master free to leave its loop, or the master is asleep or about to be with no worker left that will signal it |
| `Shutdown.StopEnds` | node-wiring-secure-c/wiring_common_secure/private/src/civetweb.c:12170-12404 | after every run from the start and a stop request at which no wake-up can be missed, threads that cannot move any more have freed the context |
| `Shutdown.WorkerMisses` | node-wiring-secure-c/wiring_common_secure/private/src/civetweb.c:11928-11932 | a worker between its look at the stop flag and its wait: such a state is reached |
| `Shutdown.MasterMisses` | node-wiring-secure-c/wiring_common_secure/private/src/civetweb.c:12080-12084 | the master about to wait for room while the last worker is about to leave: such a state is reached |
| `Sha1.CounterStep` | node-wiring-secure-c/wiring_common_secure/private/src/civetweb.c:8322-8345 | the carry between the two counter words is exact for every length below 2^32 |
| `Sha1.GuardExact` | node-wiring-secure-c/wiring_common_secure/private/src/civetweb.c:8322-8345 | the 32-bit sum in the guard decides correctly if and only if position plus length stays below 2^32 |
| `Sha1.NoWrap` | node-wiring-secure-c/wiring_common_secure/private/src/civetweb.c:8333-8338 | where the guard is right the 32-bit index of the block loop does not wrap |
| `Sha1.LengthField` | node-wiring-secure-c/wiring_common_secure/private/src/civetweb.c:8346-8369 | below 2^64 bits the eight length octets hold the exact number of bits |
| `Sha1.PadIs` | node-wiring-secure-c/wiring_common_secure/private/src/civetweb.c:8346-8369 | the padded message octet by octet: a one bit, the fewest zero bits that do, the length in bits modulo 2^64 (section 5.1.1 of FIPS 180-4) |
| `Sha1.FoldAppend` | node-wiring-secure-c/wiring_common_secure/private/src/civetweb.c:8322-8345 | folding the transform over blocks may be done in any block-aligned instalments |
| `Sha1.PadProgress` | node-wiring-secure-c/wiring_common_secure/private/src/civetweb.c:8346-8369 | the padding loop stops exactly when the padding of section 5.1.1 of FIPS 180-4 is complete |
| `Sha1.Context.Update` | node-wiring-secure-c/wiring_common_secure/private/src/civetweb.c:8322-8345 | however the message is cut, state, buffer and counter stand for the message so far, for every call whose guard is right |
| `Sha1.Context.PadBlock` | node-wiring-secure-c/wiring_common_secure/private/src/civetweb.c:8346-8369 | the padding loop terminates and appends exactly the zero bytes required |
| `Sha1.Context.Final` | node-wiring-secure-c/wiring_common_secure/private/src/civetweb.c:8346-8369 | the digest is the transform folded over the blocks of the padded message |
| `Sha1Block.NextWord` | node-wiring-secure-c/wiring_common_secure/private/src/civetweb.c:8168-8183 | the sixteen-word ring holds the message schedule, swapping each host-order word as it is first used |
| `Sha1Block.CodeRound` | node-wiring-secure-c/wiring_common_secure/private/src/civetweb.c:8184-8200 | one round with renamed registers is one round of section 6.1.2 of FIPS 180-4 |
| `Sha1Block.RecipesAlike` | node-wiring-secure-c/wiring_common_secure/private/src/civetweb.c:8184-8200 | the code's cheaper logical functions and sums equal those of the standard |
| `Sha1Block.SwapLoads` | node-wiring-secure-c/wiring_common_secure/private/src/civetweb.c:8168-8178 | a host-order load followed by the octet swap is the big-endian word |
| `Sha1Block.ConstantIs` | node-wiring-secure-c/wiring_common_secure/private/src/civetweb.c:8184-8200 | the round constants are 2^30 times the square roots of 2, 3, 5 and 10, rounded down |
| `Sha1Block.InitialIs` | node-wiring-secure-c/wiring_common_secure/private/src/civetweb.c:8310-8320 | the initial hash value is the counting pattern of octets |
| `Sha1Block.CompressIs` | node-wiring-secure-c/wiring_common_secure/private/src/civetweb.c:8208-8307 | the compression function is that of section 6.1.2 of FIPS 180-4, word by word: schedule with its rotation, round functions, rotations, constants, eighty rounds and final sums |
| `Sha1Block.DigestIs` | node-wiring-secure-c/wiring_common_secure/private/src/civetweb.c:8310-8369 | the digest of a message is what sections 5 and 6.1 of FIPS 180-4 prescribe: padding, chain of hash values, octets of the last |
| `Sha1Block.Transform` | node-wiring-secure-c/wiring_common_secure/private/src/civetweb.c:8208-8307 | eighty rounds in place compute the compression function, which is that of section 6.1.2 of FIPS 180-4 word by word |
| `Sha1Block.HashPieces` | node-wiring-secure-c/wiring_common_secure/private/src/civetweb.c:8310-8369 | for every way of cutting a message into updates whose guards are right the result is the SHA-1 digest of the whole message as FIPS 180-4 prescribes it |
| `NodeDiscovery.AddedKnows` | node-wiring-secure-c/node_discovery/private/src/node_discovery.c:172-244 | adding a node description makes exactly its wires known and forgets none |
| `NodeDiscovery.RemovedKnows` | node-wiring-secure-c/node_discovery/private/src/node_discovery.c:246-294 | removing one forgets exactly its wires |
| `NodeDiscovery.AppendNewOrder` | node-wiring-secure-c/node_discovery/private/src/node_discovery.c:172-244 | new wires go behind the known ones, none twice |
| `NodeDiscovery.Discovery.AddNode` | node-wiring-secure-c/node_discovery/private/src/node_discovery.c:172-244 | the nested loops append exactly the wires not yet listed |
| `NodeDiscovery.Discovery.RemoveNode` | node-wiring-secure-c/node_discovery/private/src/node_discovery.c:246-294 | the nested loops take out exactly the named wires |
| `EtcdWatcher.Watcher.AddExisting` | node-wiring-secure-c/node_discovery/private/src/etcd_watcher.c:76-129 | a full sync adds every listed key and recomputes the highest modified index |
| `EtcdWatcher.Watcher.OnEvent` | node-wiring-secure-c/node_discovery/private/src/etcd_watcher.c:236-312 | an event is folded into the table by its action and moves highestModified to its index; an unknown action or the name of a directory changes nothing else |
| `EtcdWatcher.WatchedActions` | node-wiring-secure-c/node_discovery/private/src/etcd_watcher.c:260-291 | action by action: set, create and update make the wire known, delete and expire forgotten, compareAndSwap, compareAndDelete and events about directories change nothing; no other wire is touched |
| `EtcdWatcher.StoreActions` | node-wiring-secure-c/node_discovery/private/src/etcd_watcher.c:76-129 | action by action: what an event makes of etcd's store, recursive removals of the root, a zone or a node included |
| `EtcdWatcher.HighestBound` | node-wiring-secure-c/node_discovery/private/src/etcd_watcher.c:76-129 | the highest modified index is that of one of the listed keys and none is higher; -1 if none is listed |
| `EtcdWatcher.WatchHappens` | node-wiring-secure-c/node_discovery/private/src/etcd_watcher.c:236-260 | as long as an event on a watched key lies ahead, some watch returns |
| `EtcdWatcher.PublishComplete` | node-wiring-secure-c/node_discovery/private/src/etcd_watcher.c:260-291 | a publication leaves a wire complete, that is known if its life began by highestModified, if and only if it was complete or the publication ends it |
| `EtcdWatcher.WatchComplete` | node-wiring-secure-c/node_discovery/private/src/etcd_watcher.c:260-291 | a watched event leaves a wire complete if and only if the wire is not stored by then, or the event announces its names, or it was known and the event does not remove its names, in whatever zone |
| `EtcdWatcher.ResyncKnowsAll` | node-wiring-secure-c/node_discovery/private/src/etcd_watcher.c:76-129 | after a full sync every stored wire is known, whatever the sync finds |
| `EtcdWatcher.StepComplete` | node-wiring-secure-c/node_discovery/private/src/etcd_watcher.c:236-312 | every step leaves a wire complete exactly as its guard says |
| `EtcdWatcher.RunComplete` | node-wiring-secure-c/node_discovery/private/src/etcd_watcher.c:236-312 | over every run, whatever its syncs find and however zones share names, a wire is complete in the end if and only if the guards of the steps, taken together, say so |
| `EtcdWatcher.WatchCoversApart` | node-wiring-secure-c/node_discovery/private/src/etcd_watcher.c:260-291 | with zones apart a watched event misses a wire if and only if it steps over the beginning of a wire not known |
| `EtcdWatcher.PositionedCovers` | node-wiring-secure-c/node_discovery/private/src/etcd_watcher.c:260-291 | with zones apart, a watch that knows where to continue misses nothing |
| `EtcdWatcher.Completeness` | node-wiring-secure-c/node_discovery/private/src/etcd_watcher.c:236-312 | so if zones do not share names and every sync finds a key, every reachable state has every stored wire with modified index up to highestModified in the table, also when highestModified moves backwards, events are replayed and directories are removed recursively |
| `EtcdWatcher.StartsComplete` | node-wiring-secure-c/node_discovery/private/src/etcd_watcher.c:236-260 | the loop starts in a state where this holds |
| `EtcdWatcher.PublishDue` | node-wiring-secure-c/node_discovery/private/src/etcd_watcher.c:260-291 | a known wire that goes away stays due to be forgotten if and only if it goes by an event the watcher acts on, not by compareAndDelete or with its directory |
| `EtcdWatcher.EndsDue` | node-wiring-secure-c/node_discovery/private/src/etcd_watcher.c:260-291 | a known wire that is deleted or expires is due to be forgotten, one that goes by compareAndDelete or with a directory is not |
| `EtcdWatcher.WatchDue` | node-wiring-secure-c/node_discovery/private/src/etcd_watcher.c:260-291 | a watched event leaves a wire due to be forgotten if and only if the wire is not, gone and known or announced by then, past its end or with an end the watcher lets pass |
| `EtcdWatcher.WatchOnTimeApart` | node-wiring-secure-c/node_discovery/private/src/etcd_watcher.c:260-291 | with zones apart: a wire stays due unless the event steps over the end of a known wire or announces one whose end the watcher lets pass, and a lost one is made up for only by its removal |
| `EtcdWatcher.WatchStepsOverNothing` | node-wiring-secure-c/node_discovery/private/src/etcd_watcher.c:260-291 | once the watch knows where to continue it never steps over the end of a wire that is due |
| `EtcdWatcher.ResyncDue` | node-wiring-secure-c/node_discovery/private/src/etcd_watcher.c:76-129 | a full sync leaves a wire due if and only if it is not, gone and known or namesake of a stored one, left with its end at or below the new highestModified or with an end the watcher lets pass |
| `EtcdWatcher.RunDue` | node-wiring-secure-c/node_discovery/private/src/etcd_watcher.c:236-312 | over every run a wire is due exactly if the guards of the steps, taken together, say so |
| `EtcdWatcher.CaughtUpExact` | node-wiring-secure-c/node_discovery/private/src/etcd_watcher.c:236-312 | with nothing left to watch, a wire is complete and due if and only if it is known exactly when it is stored |
| `EtcdWatcher.Accuracy` | node-wiring-secure-c/node_discovery/private/src/etcd_watcher.c:236-312 | over every run from the start, whatever its syncs find and however zones share names, only wires of the log are known, and with nothing left to watch the table agrees with the store on a wire if and only if the steps covered it and were on time for it |
| `EtcdWatcher.ShutdownLeavesStale` | node-wiring-secure-c/node_discovery/private/src/etcd_watcher.c:375-398 | a node that shuts down removes its directory, and every known wire of it is from then on known, gone and no longer due |
| `EtcdWatcher.EmptySyncBreaks` | node-wiring-secure-c/node_discovery/private/src/etcd_watcher.c:76-129 | after any full sync that found no key, two publications and one watch can lose a wire |
| `EtcdWatcher.StaleWire` | node-wiring-secure-c/node_discovery/private/src/etcd_watcher.c:236-312 | the converse fails: a sync that meets a newer key jumps past a delete not yet watched, and the wire stays known |
| `EtcdWatcher.SharedNamesBreak` | node-wiring-secure-c/node_discovery/private/src/node_discovery.c:246-294 | removing one of two equally named wires in two zones loses the other |
| `Glob.MatchOneExact` | node-wiring-secure-c/wiring_common_secure/private/src/civetweb.c:2043-2084 | on one alternative the result is -1 if and only if no prefix matches, positive if and only if a non-empty prefix does, and always the length of a prefix that matches |
| `Glob.MatchExact` | node-wiring-secure-c/wiring_common_secure/private/src/civetweb.c:2043-2084 | over all alternatives: positive if and only if some alternative matches a non-empty prefix; a result n >= 0 means that some alternative matches the first n characters |
| `Glob.MatchFails` | node-wiring-secure-c/wiring_common_secure/private/src/civetweb.c:2043-2084 | -1 if and only if the last alternative matches no prefix and no alternative a non-empty one |
| `Glob.EmptyMatchLost` | node-wiring-secure-c/wiring_common_secure/private/src/civetweb.c:2043-2084 | -1 does not mean that no alternative matches: an empty match of an earlier one is given up |
| `Glob.PiecesAre` | node-wiring-secure-c/wiring_common_secure/private/src/civetweb.c:2043-2084 | what each piece of a pattern stands for: a star takes any characters up to a slash, two take any at all |
| `Glob.AlternativesAre` | node-wiring-secure-c/wiring_common_secure/private/src/civetweb.c:2043-2084 | the alternatives are what the bars separate |
| `Glob.MatchPrefix` | node-wiring-secure-c/wiring_common_secure/private/src/civetweb.c:2043-2084 | the loop with its recursion terminates on every pattern and string and computes the match function |
| `Glob.MatchStar` | node-wiring-secure-c/wiring_common_secure/private/src/civetweb.c:2043-2084 | the backing-off loop of a star tries the longest reach first |
| `Handlers.ApplyReflects` | node-wiring-secure-c/wiring_common_secure/private/src/civetweb.c:9190-9335 | one registration, update or deletion keeps the list in agreement with the history of calls |
| `Handlers.BuildReflects` | node-wiring-secure-c/wiring_common_secure/private/src/civetweb.c:9190-9335 | for every history the list holds exactly the current registrations, each key once, ordered by first live registration |
| `Handlers.AcceptedIs` | node-wiring-secure-c/wiring_common_secure/private/src/civetweb.c:9190-9250 | a call is heeded if and only if its callbacks are meant for its kind and no other, or it is a deletion without callbacks |
| `Handlers.CurrentIs` | node-wiring-secure-c/wiring_common_secure/private/src/civetweb.c:9190-9335 | the current callbacks of a key are those of the last heeded call about it, if that is no deletion |
| `Handlers.SinceIs` | node-wiring-secure-c/wiring_common_secure/private/src/civetweb.c:9190-9335 | a registration that stands dates from when none stood, with no deletion since |
| `Handlers.TierIs` | node-wiring-secure-c/wiring_common_secure/private/src/civetweb.c:9402-9495 | the three tests: the same uri; the uri with a slash and anything behind it; some alternative of the uri matches a non-empty prefix |
| `Handlers.SelectBest` | node-wiring-secure-c/wiring_common_secure/private/src/civetweb.c:9402-9495 | three passes select an element of the best tier, the earliest of it, and fail only if none fits |
| `Handlers.LookupBest` | node-wiring-secure-c/wiring_common_secure/private/src/civetweb.c:9402-9495 | for every history the look-up returns the exact match if any, else the first parent path, else the first pattern, with its current callbacks |
| `Handlers.Context.SetHandler` | node-wiring-secure-c/wiring_common_secure/private/src/civetweb.c:9190-9335 | the linked list refines the association list under every call, ignored calls included; without memory for a new handler it stays as it was |
| `Handlers.Context.Unlink` | node-wiring-secure-c/wiring_common_secure/private/src/civetweb.c:9190-9335 | unlinking takes out one node and keeps the chain |
| `Handlers.Context.Append` | node-wiring-secure-c/wiring_common_secure/private/src/civetweb.c:9190-9335 | a new node is linked behind the last one |
| `Handlers.Context.GetHandler` | node-wiring-secure-c/wiring_common_secure/private/src/civetweb.c:9402-9495 | the walk over the linked list answers what the look-up on the association list does |
| `EndpointPublishing.ListenCalls` | node-wiring-secure-java/org.inaetics.remote/src/org/inaetics/remote/AbstractEndpointPublishingComponent.java:610-696 | the deprecated interface, told removed-then-added for a modification, ends up believing the same |
| `EndpointPublishing.ListenWords` | node-wiring-secure-java/org.inaetics.remote/src/org/inaetics/remote/AbstractEndpointPublishingComponent.java:610-696 | a stream makes sense to a listener if and only if per endpoint it reads (ADDED MODIFIED* (REMOVED or ENDMATCH))*, and the endpoints believed present are those whose word is unfinished |
| `EndpointPublishing.FirstMatchIs` | node-wiring-secure-java/org.inaetics.remote/src/org/inaetics/remote/AbstractEndpointPublishingComponent.java:461-468 | some filter is returned if and only if one matches, and it is the first that does |
| `EndpointPublishing.AddedKeeps` | node-wiring-secure-java/org.inaetics.remote/src/org/inaetics/remote/AbstractEndpointPublishingComponent.java:475-482 | an added endpoint keeps the cached descriptions current, the agreement of cache and recomputation, and the listener informed |
| `EndpointPublishing.RemovedKeeps` | node-wiring-secure-java/org.inaetics.remote/src/org/inaetics/remote/AbstractEndpointPublishingComponent.java:489-495 | so does a removed endpoint |
| `EndpointPublishing.ModifiedCached` | node-wiring-secure-java/org.inaetics.remote/src/org/inaetics/remote/AbstractEndpointPublishingComponent.java:502-519 | a modification always keeps the cached descriptions current and the agreement of cache and recomputation |
| `EndpointPublishing.ModifiedInformed` | node-wiring-secure-java/org.inaetics.remote/src/org/inaetics/remote/AbstractEndpointPublishingComponent.java:502-519 | it keeps the listener informed if and only if it does not end a match: line 517 hands over a null filter, the exception is swallowed and nothing is sent |
| `EndpointPublishing.SilenceBreaksStream` | node-wiring-secure-java/org.inaetics.remote/src/org/inaetics/remote/AbstractEndpointPublishingComponent.java:502-519 | after a silent end of match the next matching modification makes the event stream ill-formed |
| `EndpointPublishing.ReconsiderAllKeeps` | node-wiring-secure-java/org.inaetics.remote/src/org/inaetics/remote/AbstractEndpointPublishingComponent.java:574-597 | re-evaluating the scope settles every visited endpoint and keeps the listener informed |
| `EndpointPublishing.ScopeKeeps` | node-wiring-secure-java/org.inaetics.remote/src/org/inaetics/remote/AbstractEndpointPublishingComponent.java:432-438 | after a scope change the cache is the one recomputed with the new filters, in whatever order endpoints are visited |
| `EndpointPublishing.BadScope` | node-wiring-secure-java/org.inaetics.remote/src/org/inaetics/remote/AbstractEndpointPublishingComponent.java:553-572 | a scope that does not parse leaves cache and recomputation equal if and only if the cache was empty |
| `EndpointPublishing.FarewellHeard` | node-wiring-secure-java/org.inaetics.remote/src/org/inaetics/remote/AbstractEndpointPublishingComponent.java:599-604 | whatever the listener believed, the removals sent on leaving make sense to it if and only if its stream did and it believed in every cached endpoint, and it then believes the rest |
| `EndpointPublishing.FarewellEmpty` | node-wiring-secure-java/org.inaetics.remote/src/org/inaetics/remote/AbstractEndpointPublishingComponent.java:599-604 | a leaving listener believes nothing any more if and only if its stream made sense and it believed in exactly the cached endpoints |
| `EndpointPublishing.TaskTells` | node-wiring-secure-java/org.inaetics.remote/src/org/inaetics/remote/AbstractEndpointPublishingComponent.java:475-597 | every notification of a task tells a change of the cache: additions and modifications carry the entry as it is now, removals and ends of match the filter it had; a removal is sent only for a withdrawn endpoint, an end of match only for one still published |
| `EndpointPublishing.FarewellTells` | node-wiring-secure-java/org.inaetics.remote/src/org/inaetics/remote/AbstractEndpointPublishingComponent.java:599-604 | a leaving listener is sent exactly one removal per cached endpoint, with its filter |
| `EndpointPublishing.PublishedAre` | node-wiring-secure-java/org.inaetics.remote/src/org/inaetics/remote/AbstractEndpointPublishingComponent.java:295-374 | after every run the published endpoints are those added and not removed since, with the properties last given |
| `EndpointPublishing.ListenersAre` | node-wiring-secure-java/org.inaetics.remote/src/org/inaetics/remote/AbstractEndpointPublishingComponent.java:73-165 | after every run the listeners are those added with a scope that parses and not removed since, with the filters of their last scope |
| `EndpointPublishing.TaskMisled` | node-wiring-secure-java/org.inaetics.remote/src/org/inaetics/remote/AbstractEndpointPublishingComponent.java:295-374 | no task but its removal brings a misled listener back in line, a scope that does not parse and a repeated addition included |
| `EndpointPublishing.TaskTidy` | node-wiring-secure-java/org.inaetics.remote/src/org/inaetics/remote/AbstractEndpointPublishingComponent.java:295-374 | every task keeps the cached descriptions current and tracks exactly whether the cache agrees: a scope that does not parse spoils it unless it is empty, a good scope or the loss of the last cached endpoint repairs it |
| `EndpointPublishing.TaskHeard` | node-wiring-secure-java/org.inaetics.remote/src/org/inaetics/remote/AbstractEndpointPublishingComponent.java:295-374 | every task tracks exactly whether the listener is informed or misled |
| `EndpointPublishing.RunKeeps` | node-wiring-secure-java/org.inaetics.remote/src/org/inaetics/remote/AbstractEndpointPublishingComponent.java:295-374 | so does every run, repeated additions and scopes that do not parse included |
| `EndpointPublishing.CacheAgrees` | node-wiring-secure-java/org.inaetics.remote/src/org/inaetics/remote/AbstractEndpointPublishingComponent.java:295-604 | after every run m_matches holds exactly the published endpoints that some filter of the listener matches, each with the first filter that does, if and only if the guards of the tasks say so |
| `EndpointPublishing.ParsingAgrees` | node-wiring-secure-java/org.inaetics.remote/src/org/inaetics/remote/AbstractEndpointPublishingComponent.java:432-440 | which they do in every run in which the scopes of modified listeners parse |
| `EndpointPublishing.ListenerInformed` | node-wiring-secure-java/org.inaetics.remote/src/org/inaetics/remote/AbstractEndpointPublishingComponent.java:295-696 | after every run what a listener believes, properties and filters, is exactly what is cached for it if and only if none of its matches ended silently and nothing was told it twice since it registered, and exactly the published endpoints that some filter of its scope matches, each with the first such filter (section 122.6 of the OSGi Remote Service Admin specification), if and only if its cache agrees as well |
| `EndpointPublishing.ClearWorded` | node-wiring-secure-java/org.inaetics.remote/src/org/inaetics/remote/AbstractEndpointPublishingComponent.java:295-696 | the stream of such a listener reads, per endpoint, (ADDED MODIFIED* (REMOVED or ENDMATCH))* |
| `EndpointPublishing.FarewellExactly` | node-wiring-secure-java/org.inaetics.remote/src/org/inaetics/remote/AbstractEndpointPublishingComponent.java:143-165 | after every run, removing a listener leaves it believing nothing if and only if none of its matches ended silently and nothing was told it twice |
| `EndpointPublishing.ListenerHandler.FirstMatchingFilter` | node-wiring-secure-java/org.inaetics.remote/src/org/inaetics/remote/AbstractEndpointPublishingComponent.java:461-468 | the first filter that matches, or none, in the sense of `EndpointPublishing.FirstMatchIs` |
| `EndpointPublishing.ListenerHandler.EndpointAdded` | node-wiring-secure-java/org.inaetics.remote/src/org/inaetics/remote/AbstractEndpointPublishingComponent.java:475-482 | new cache and notification |
| `EndpointPublishing.ListenerHandler.EndpointRemoved` | node-wiring-secure-java/org.inaetics.remote/src/org/inaetics/remote/AbstractEndpointPublishingComponent.java:489-495 | new cache and notification |
| `EndpointPublishing.ListenerHandler.EndpointModified` | node-wiring-secure-java/org.inaetics.remote/src/org/inaetics/remote/AbstractEndpointPublishingComponent.java:502-519 | new cache and notification, none at an end of match |
| `EndpointPublishing.ListenerHandler.ReferenceModified` | node-wiring-secure-java/org.inaetics.remote/src/org/inaetics/remote/AbstractEndpointPublishingComponent.java:432-438 | filters replaced, then every published endpoint reconsidered; nothing further when a filter does not parse |
| `EndpointPublishing.ListenerHandler.ClearMatches` | node-wiring-secure-java/org.inaetics.remote/src/org/inaetics/remote/AbstractEndpointPublishingComponent.java:599-604 | one removal per cached endpoint, then an empty cache |
| `EndpointPublishing.Component.AddEndpoint` | node-wiring-secure-java/org.inaetics.remote/src/org/inaetics/remote/AbstractEndpointPublishingComponent.java:295-315 | published endpoints and every listener change as the state machine says; a duplicate changes nothing |
| `EndpointPublishing.Component.RemoveEndpoint` | node-wiring-secure-java/org.inaetics.remote/src/org/inaetics/remote/AbstractEndpointPublishingComponent.java:323-344 | likewise; an unknown endpoint changes nothing |
| `EndpointPublishing.Component.ModifyEndpoint` | node-wiring-secure-java/org.inaetics.remote/src/org/inaetics/remote/AbstractEndpointPublishingComponent.java:352-374 | likewise; an unknown endpoint changes nothing |
| `EndpointPublishing.Component.AddListener` | node-wiring-secure-java/org.inaetics.remote/src/org/inaetics/remote/AbstractEndpointPublishingComponent.java:73-99 | a new listener is told everything that matches and registered, unless its scope does not parse; a known one gets a new handler |
| `EndpointPublishing.Component.ModifyListener` | node-wiring-secure-java/org.inaetics.remote/src/org/inaetics/remote/AbstractEndpointPublishingComponent.java:107-135 | only that listener is re-evaluated; an unknown reference changes nothing |
| `EndpointPublishing.Component.RemoveListener` | node-wiring-secure-java/org.inaetics.remote/src/org/inaetics/remote/AbstractEndpointPublishingComponent.java:143-165 | the listener is forgotten and told that everything it believed in is gone; an unknown reference changes nothing |
| `TopologyExport.PropertiesMatch` | node-wiring-secure-c/wiring_topology_manager/private/src/wtm.c:260-290 | in whatever order the properties are scanned, the answer is whether all relevant ones are offered with the same value |
| `TopologyExport.KeyIs` | node-wiring-secure-c/wiring_topology_manager/private/src/wtm.c:213-235 | what the table compares is everything but four properties of the service |
| `TopologyExport.MeetsIs` | node-wiring-secure-c/wiring_topology_manager/private/src/wtm.c:260-290 | an admin meets a request if and only if its capabilities hold every property of the request with its value, six apart |
| `TopologyExport.OfferIs` | node-wiring-secure-c/wiring_topology_manager/private/src/wtm.c:292-327 | an admin yields an endpoint if and only if it meets the request and is willing; it is exported if it can be announced |
| `TopologyExport.OfferByKey` | node-wiring-secure-c/wiring_topology_manager/private/src/wtm.c:237-290 | an admin's answer depends only on what the exported table compares, not on which service asks |
| `TopologyExport.FoundExactly` | node-wiring-secure-c/wiring_topology_manager/private/src/wtm.c:213-258 | by hash and one-sided comparison a request meets a stored one if and only if the stored one has all its compared properties and the hashes of the rest cancel out |
| `TopologyExport.LookupExactly` | node-wiring-secure-c/wiring_topology_manager/private/src/wtm.c:213-258 | so the look-up is equality of keys if and only if no stored request extends the one looked for by properties whose hashes cancel out |
| `TopologyExport.SelfValuedMeets` | node-wiring-secure-c/wiring_topology_manager/private/src/wtm.c:213-258 | a property whose key is its value goes unnoticed |
| `TopologyExport.CodeLawful` | node-wiring-secure-c/wiring_topology_manager/private/src/wtm.c:213-235 | exclusive or is the mixing that these results need |
| `TopologyExport.ExportOnePlace` | node-wiring-secure-c/wiring_topology_manager/private/src/wtm.c:329-412 | an export request keeps every request in one place if and only if no request for the same is waiting |
| `TopologyExport.ExportKeeps` | node-wiring-secure-c/wiring_topology_manager/private/src/wtm.c:329-412 | a different request keeps the invariants, whatever the admins answer |
| `TopologyExport.ExportGoes` | node-wiring-secure-c/wiring_topology_manager/private/src/wtm.c:329-412 | a request waits if there is no admin and is recorded as exported otherwise; one exported already changes nothing |
| `TopologyExport.ExportStatusIs` | node-wiring-secure-c/wiring_topology_manager/private/src/wtm.c:329-412 | a new request succeeds exactly if an admin serves it, and a shared one fails exactly if some endpoint of it cannot be announced |
| `TopologyExport.RemoveStatusIs` | node-wiring-secure-c/wiring_topology_manager/private/src/wtm.c:414-447 | a removal is an illegal state exactly if the request is not exported, and fails exactly if some endpoint is not released |
| `TopologyExport.DistinctExports` | node-wiring-secure-c/wiring_topology_manager/private/src/wtm.c:329-412 | a run that exports no request twice meets what the other results ask of it |
| `TopologyExport.ServedIs` | node-wiring-secure-c/wiring_topology_manager/private/src/wtm.c:354-377 | only the first admin that yields an endpoint serves, if that can be announced |
| `TopologyExport.RemoveKeeps` | node-wiring-secure-c/wiring_topology_manager/private/src/wtm.c:414-447 | removal takes exactly the request named out of the exported table and changes nothing while it waits |
| `TopologyExport.AdminConserves` | node-wiring-secure-c/wiring_topology_manager/private/src/wtm_wadmin_tracker.c:32-95 | a new admin neither loses nor makes requests |
| `TopologyExport.AdminKeeps` | node-wiring-secure-c/wiring_topology_manager/private/src/wtm_wadmin_tracker.c:32-95 | and keeps the invariants |
| `TopologyExport.AdminAdds` | node-wiring-secure-c/wiring_topology_manager/private/src/wtm_wadmin_tracker.c:32-64 | an arrival adds the admin's own endpoint to every exported request it takes and leaves all others |
| `TopologyExport.AdminTakes` | node-wiring-secure-c/wiring_topology_manager/private/src/wtm_wadmin_tracker.c:66-95 | a waiting request becomes exported with the admin's endpoint alone if it takes it, and goes on waiting otherwise |
| `TopologyExport.AdminGoneKeeps` | node-wiring-secure-c/wiring_topology_manager/private/src/wtm_wadmin_tracker.c:133-190 | so does an admin's departure, and no request is lost by it |
| `TopologyExport.DepartureTakes` | node-wiring-secure-c/wiring_topology_manager/private/src/wtm_wadmin_tracker.c:133-190 | a departure takes the admin's endpoints out of the table and nothing else |
| `TopologyExport.RunKeeps` | node-wiring-secure-c/wiring_topology_manager/private/src/wtm_wadmin_tracker.c:32-190 | every run keeps the invariants and accounts for every request, also when answers change from event to event |
| `TopologyExport.Conservation` | node-wiring-secure-c/wiring_topology_manager/private/src/wtm_wadmin_tracker.c:32-190 | after every run, however the admins' answers change in its course, each live request is in exactly one of waitingForExport and exportedWiringEndpoints, and inner maps name only present admins |
| `TopologyExport.SteadyRun` | node-wiring-secure-c/wiring_topology_manager/private/src/wtm_wadmin_tracker.c:32-190 | with steady answers every recorded endpoint is the admin's answer and no present admin would take a waiting request |
| `TopologyExport.ExportAttends` | node-wiring-secure-c/wiring_topology_manager/private/src/wtm.c:354-377 | a new export request that some present admin would take is left without one if and only if the first endpoint any admin yields cannot be announced |
| `TopologyExport.ExportStrands` | node-wiring-secure-c/wiring_topology_manager/private/src/wtm.c:368-376 | such a request with two admins |
| `TopologyExport.AdminAttends` | node-wiring-secure-c/wiring_topology_manager/private/src/wtm_wadmin_tracker.c:32-95 | a new admin leaves no request unattended that was not, and makes up for an unattended one if and only if it takes it |
| `TopologyExport.DepartureStrands` | node-wiring-secure-c/wiring_topology_manager/private/src/wtm_wadmin_tracker.c:133-190 | a departure leaves a request unattended if and only if no other admin served it and one that would take it stays: nobody is asked again |
| `TopologyExport.StepAttends` | node-wiring-secure-c/wiring_topology_manager/private/src/wtm_wadmin_tracker.c:32-190 | every event leaves a request attended exactly as its guard says |
| `TopologyExport.RequestAttended` | node-wiring-secure-c/wiring_topology_manager/private/src/wtm_wadmin_tracker.c:32-190 | after every run with steady answers a live request that some present admin would take is served by a present admin if and only if its export was not botched and no departure stranded it, or a later admin took it |
| `TopologyExport.Manager.OfferTo` | node-wiring-secure-c/wiring_topology_manager/private/src/wtm.c:292-327 | the outcome of offering a request to an admin |
| `TopologyExport.Manager.ServeNew` | node-wiring-secure-c/wiring_topology_manager/private/src/wtm.c:360-377 | admins are asked in order until one yields an endpoint |
| `TopologyExport.Manager.ExportWiringEndpoint` | node-wiring-secure-c/wiring_topology_manager/private/src/wtm.c:329-412 | new state and status of an export request: sharing succeeds if every endpoint can be announced again, a new request if an admin serves it, a waiting one reports failure |
| `TopologyExport.Manager.RemoveExportedWiringEndpoint` | node-wiring-secure-c/wiring_topology_manager/private/src/wtm.c:414-447 | new state and status: illegal state exactly when the request is not exported, success if every admin releases its endpoint |
| `TopologyExport.Manager.Widen` | node-wiring-secure-c/wiring_topology_manager/private/src/wtm_wadmin_tracker.c:41-64 | every exported request is also offered to the new admin |
| `TopologyExport.Manager.Drain` | node-wiring-secure-c/wiring_topology_manager/private/src/wtm_wadmin_tracker.c:66-95 | the restarting drain terminates and leaves exactly the waiting requests the admin refuses, in their original order; the others are exported |
| `TopologyExport.Manager.AdminAdded` | node-wiring-secure-c/wiring_topology_manager/private/src/wtm_wadmin_tracker.c:32-95 | new state when an admin comes |
| `TopologyExport.Manager.AdminRemoved` | node-wiring-secure-c/wiring_topology_manager/private/src/wtm_wadmin_tracker.c:133-190 | new state when an admin goes |
| `WiringProperties.SurvivesExactly` | node-wiring-secure-c/node_discovery/private/src/wiring_endpoint_reader.c:45-101 | a string comes back from escaping and scanning unchanged if and only if it has no blank, nothing to trim, and every run of backslashes stands before '#', '!' or '=' |
| `WiringProperties.LineExactly` | node-wiring-secure-c/node_discovery/private/src/wiring_endpoint_reader.c:36-101 | a written line is read back as written if and only if key and value survive and the key has no colon |
| `WiringProperties.SeparatedLine` | node-wiring-secure-c/node_discovery/private/src/wiring_endpoint_reader.c:45-101 | key and value may be separated by an equals sign or a colon |
| `WiringProperties.SignInValue` | node-wiring-secure-c/node_discovery/private/src/wiring_endpoint_reader.c:45-101 | later separators and signs belong to the value |
| `WiringProperties.SignInKey` | node-wiring-secure-c/node_discovery/private/src/wiring_endpoint_reader.c:61-79 | the two signs of a comment are part of a key that has begun |
| `WiringProperties.CommentLine` | node-wiring-secure-c/node_discovery/private/src/wiring_endpoint_reader.c:45-101 | a line that begins with '#' or '!', perhaps behind blanks, is a comment |
| `WiringProperties.CommentValue` | node-wiring-secure-c/node_discovery/private/src/wiring_endpoint_reader.c:45-101 | so is a line whose value begins so |
| `WiringProperties.BlankLine` | node-wiring-secure-c/node_discovery/private/src/wiring_endpoint_reader.c:37-60 | a blank within a value comes out twice |
| `WiringProperties.TrimAround` | node-wiring-secure-c/node_discovery/private/src/wiring_endpoint_reader.c:97-101 | white space on either side of a key or a value goes |
| `WiringProperties.FirstWins` | node-wiring-secure-c/node_discovery/private/src/wiring_endpoint_reader.c:97-101 | the first entry for a key wins, and an entry already there wins over the text |
| `WiringProperties.RoundTrip` | node-wiring-secure-c/node_discovery/private/src/wiring_endpoint_reader.c:13-108 | loading what was stored gives the same map, whatever the iteration order, for every map of portable entries |
| `WiringProperties.RoundTripExactly` | node-wiring-secure-c/node_discovery/private/src/wiring_endpoint_reader.c:13-108 | a map comes back from storing and loading, whatever the iteration order, if and only if every entry is portable |
| `WiringProperties.SingleExactly` | node-wiring-secure-c/node_discovery/private/src/wiring_endpoint_reader.c:13-108 | a single property survives storing and loading if and only if it is portable |
| `WiringProperties.LoadedFlat` | node-wiring-secure-c/node_discovery/private/src/wiring_endpoint_reader.c:34-103 | nothing that is loaded holds a newline, whatever the text |
| `WiringProperties.EscapeInto` | node-wiring-secure-c/node_discovery/private/src/wiring_endpoint_writer.c:42-60 | the buffer holds the escaped string and its terminator |
| `WiringProperties.Store` | node-wiring-secure-c/node_discovery/private/src/wiring_endpoint_writer.c:14-68 | for every iteration order the output is the terminated text of all entries |
| `WiringProperties.ScanLine` | node-wiring-secure-c/node_discovery/private/src/wiring_endpoint_reader.c:37-95 | the character loop fills key and value as specified and stays within the buffers whenever what it puts out fits |
| `WiringProperties.EnterLine` | node-wiring-secure-c/node_discovery/private/src/wiring_endpoint_reader.c:97-101 | an entry is set only if its key is new and the line is no comment |
| `WiringProperties.Load` | node-wiring-secure-c/node_discovery/private/src/wiring_endpoint_reader.c:13-108 | the line loop loads the text into the given properties |
| `WiringProperties.StoreAndLoad` | node-wiring-secure-c/node_discovery/private/src/wiring_endpoint_writer.c:14-68 | end to end over the real buffers: the map comes back for every iteration order |
| `EndpointDescriptor.NamedAgain` | node-wiring-secure-java/org.inaetics.remote/src/org/inaetics/remote/ValueTypes.java:129-167 | every value type is found again under its simple name |
| `EndpointDescriptor.NamesAre` | node-wiring-secure-java/org.inaetics.remote/src/org/inaetics/remote/ValueTypes.java:129-167 | the seventeen names and what they stand for; any other stands for strings |
| `EndpointDescriptor.NumberRead` | node-wiring-secure-java/org.inaetics.remote/src/org/inaetics/remote/ValueTypes.java:21-57 | parsing the decimal form of a number in range gives the number |
| `EndpointDescriptor.SignedRead` | node-wiring-secure-java/org.inaetics.remote/src/org/inaetics/remote/ValueTypes.java:21-57 | either sign is read, and what is out of range is not |
| `EndpointDescriptor.UnsignedIs` | node-wiring-secure-java/org.inaetics.remote/src/org/inaetics/remote/ValueTypes.java:21-57 | a number is at least one digit and nothing but digits |
| `EndpointDescriptor.BooleanRead` | node-wiring-secure-java/org.inaetics.remote/src/org/inaetics/remote/ValueTypes.java:104-115 | true is spelt in letters of either case, and any other text is false |
| `EndpointDescriptor.ParseBack` | node-wiring-secure-java/org.inaetics.remote/src/org/inaetics/remote/ValueTypes.java:15-127 | parsing the text of a scalar with its type gives the scalar, for every type but the primitive int |
| `EndpointDescriptor.AttrIs` | node-wiring-secure-java/org.inaetics.remote/src/org/inaetics/remote/EndpointDescriptorWriter.java:60-80 | an attribute value is reported without tab or line end (sections 2.11 and 3.3.3 of XML 1.0), and unchanged if and only if it had none |
| `EndpointDescriptor.AttrParseExactly` | node-wiring-secure-java/org.inaetics.remote/src/org/inaetics/remote/EndpointDescriptorWriter.java:60-80 | a scalar comes back from an attribute if and only if its text holds no tab, line end or illegal character |
| `EndpointDescriptor.JoinedRuns` | node-wiring-secure-java/org.inaetics.remote/src/org/inaetics/remote/EndpointDescriptorReader.java:147-151 | how the parser cuts character data does not matter |
| `EndpointDescriptor.XmlContentRead` | node-wiring-secure-java/org.inaetics.remote/src/org/inaetics/remote/EndpointDescriptorReader.java:67-151 | embedded XML is collected as the markup of its elements, attributes and text, nothing in it escaped |
| `EndpointDescriptor.AttributesRead` | node-wiring-secure-java/org.inaetics.remote/src/org/inaetics/remote/EndpointDescriptorReader.java:79-86 | the attributes written are the ones read |
| `EndpointDescriptor.PropertyRead` | node-wiring-secure-java/org.inaetics.remote/src/org/inaetics/remote/EndpointDescriptorReader.java:67-151 | from every idle state a written property adds its own value under its name as the parser reports it and leaves the handler idle: nothing leaks from one property to the next |
| `EndpointDescriptor.ValueExactly` | node-wiring-secure-java/org.inaetics.remote/src/org/inaetics/remote/EndpointDescriptorWriter.java:82-138 | a value comes back as itself if and only if its text is clean, its elements agree in class and it is not a non-empty int array; a string that is XML if and only if the markup of its parser events is that string |
| `EndpointDescriptor.EndpointExactly` | node-wiring-secure-java/org.inaetics.remote/src/org/inaetics/remote/EndpointDescriptorWriter.java:43-49 | the properties of an endpoint come back if and only if every name is clean and every value faithful |
| `EndpointDescriptor.DocumentRead` | node-wiring-secure-java/org.inaetics.remote/src/org/inaetics/remote/EndpointDescriptorReader.java:45-177 | what a written document is read as, value by value, failures included |
| `EndpointDescriptor.DocExactly` | node-wiring-secure-java/org.inaetics.remote/src/org/inaetics/remote/EndpointDescriptorReader.java:45-177 | a document comes back if and only if every value does |
| `EndpointDescriptor.RoundTrip` | node-wiring-secure-java/org.inaetics.remote/src/org/inaetics/remote/EndpointDescriptorReader.java:45-177 | for every way the parser cuts character data the written document gives back the same list of property maps if and only if every name and value in it is faithful |
| `EndpointDescriptor.WriteItems` | node-wiring-secure-java/org.inaetics.remote/src/org/inaetics/remote/EndpointDescriptorWriter.java:118-122 | one value element per item, in order; a null throws |
| `EndpointDescriptor.WriteProperty` | node-wiring-secure-java/org.inaetics.remote/src/org/inaetics/remote/EndpointDescriptorWriter.java:51-116 | a property is written if and only if its type is supported |
| `EndpointDescriptor.WriteDocument` | node-wiring-secure-java/org.inaetics.remote/src/org/inaetics/remote/EndpointDescriptorWriter.java:34-49 | the whole document, or an exception if and only if some value is not supported |
| `EndpointDescriptor.ParserHandler.StartElement` | node-wiring-secure-java/org.inaetics.remote/src/org/inaetics/remote/EndpointDescriptorReader.java:66-94 | new state of the handler |
| `EndpointDescriptor.ParserHandler.EndElement` | node-wiring-secure-java/org.inaetics.remote/src/org/inaetics/remote/EndpointDescriptorReader.java:96-144 | new state of the handler, or an exception |
| `EndpointDescriptor.ParserHandler.ValuesArray` | node-wiring-secure-java/org.inaetics.remote/src/org/inaetics/remote/EndpointDescriptorReader.java:161-168 | the array element by element; a null into a primitive array throws |
| `EndpointDescriptor.ParserHandler.Characters` | node-wiring-secure-java/org.inaetics.remote/src/org/inaetics/remote/EndpointDescriptorReader.java:146-151 | text is collected only inside a value or embedded XML |
| `EndpointDescriptor.ParseDocument` | node-wiring-secure-java/org.inaetics.remote/src/org/inaetics/remote/EndpointDescriptorReader.java:32-43 | the handler driven over all events yields the specified document or fails |
| `EndpointDescriptor.WriteAndParse` | node-wiring-secure-java/org.inaetics.remote/src/org/inaetics/remote/EndpointDescriptorWriter.java:34-138 | end to end: the same document comes back if and only if it is writable and faithful |
| `PercentEncoding.RoundTrip` | node-wiring-secure-c/wiring_common_secure/private/src/civetweb.c:4182-4210 | decoding, in form mode or not, undoes encoding (section 2.1 of RFC 3986) |
| `PercentEncoding.EncodedIs` | node-wiring-secure-c/wiring_common_secure/private/src/civetweb.c:5766-5790 | letters, digits and nine marks stand for themselves; anything else becomes a percent sign and two lower-case hexadecimal digits |
| `PercentEncoding.DecodedTriple` | node-wiring-secure-c/wiring_common_secure/private/src/civetweb.c:4182-4210 | a percent sign and two hexadecimal digits of either case stand for one character |
| `PercentEncoding.DecodedOne` | node-wiring-secure-c/wiring_common_secure/private/src/civetweb.c:4182-4210 | anything else stands for itself, except that a plus sign is a blank in form data |
| `PercentEncoding.DecodingShrinks` | node-wiring-secure-c/wiring_common_secure/private/src/civetweb.c:4182-4210 | decoding never lengthens |
| `PercentEncoding.UrlEncode` | node-wiring-secure-c/wiring_common_secure/private/src/civetweb.c:5766-5790 | succeeds if and only if result and terminator fit; never writes past the buffer; on failure a prefix of whole characters is left, the next of which does not fit |
| `PercentEncoding.UrlDecode` | node-wiring-secure-c/wiring_common_secure/private/src/civetweb.c:4182-4210 | succeeds if and only if result and terminator fit, never writes past the buffer, and gives the decoding of the original source also when source and destination are the same array |
| `PercentEncoding.DecodeInPlace` | node-wiring-secure-c/wiring_common_secure/private/src/civetweb.c:9582-9585 | the request handler's in-place decoding always succeeds |
| `RequestReader.Answer` | node-wiring-secure-c/wiring_common_secure/private/src/civetweb.c:4645-4670 | a non-zero answer is the decision of the first byte that decides anything; zero means that none does |
| `RequestReader.HeadFound` | node-wiring-secure-c/wiring_common_secure/private/src/civetweb.c:4645-4670 | in octets: a head is found if and only if an empty line, 10 10 or 10 13 10, begins somewhere with no control character at or before it, and its length is the end of the first such line |
| `RequestReader.HeadMalformed` | node-wiring-secure-c/wiring_common_secure/private/src/civetweb.c:4645-4670 | in octets: -1 if and only if a control character stands before the last byte with no empty line beginning before it |
| `RequestReader.Stable` | node-wiring-secure-c/wiring_common_secure/private/src/civetweb.c:4645-4670 | a non-zero answer on a prefix is unchanged on every extension |
| `RequestReader.GetRequestLen` | node-wiring-secure-c/wiring_common_secure/private/src/civetweb.c:4649-4670 | the scanning loop computes the first verdict |
| `RequestReader.ReadRequest` | node-wiring-secure-c/wiring_common_secure/private/src/civetweb.c:6631-6674 | the answer depends only on the byte stream and the buffer size, not on how pull splits it; no byte is lost unless interrupted; the loop terminates by remaining space |
| `StringRewriting.PartsAre` | node-wiring-secure-c/trust_manager/private/src/trust_manager_keygen.c:215-256 | the parts between the occurrences make up the original and every cut is leftmost, without overlap |
| `StringRewriting.PartsUnique` | node-wiring-secure-c/trust_manager/private/src/trust_manager_keygen.c:215-256 | that description has one solution only |
| `StringRewriting.RetLenExact` | node-wiring-secure-c/trust_manager/private/src/trust_manager_keygen.c:233-236 | the length computed with wrapping unsigned arithmetic is the length of the result, also when the replacement is shorter |
| `StringRewriting.CountPattern` | node-wiring-secure-c/trust_manager/private/src/trust_manager_keygen.c:226-230 | the first loop counts the non-overlapping occurrences from the left |
| `StringRewriting.Replace` | node-wiring-secure-c/trust_manager/private/src/trust_manager_keygen.c:215-256 | the result and its terminator fill exactly the allocated buffer, for every result whose size with terminator does not wrap |
| `StringRewriting.WithoutIs` | node-wiring-secure-c/trust_manager/private/src/trust_manager_keygen.c:177-185 | nothing but the character goes, and all of it does |
| `StringRewriting.RemoveChar` | node-wiring-secure-c/trust_manager/private/src/trust_manager_keygen.c:177-185 | the two-pointer loop in place equals filtering |

## Left out

- TLS, certificates, HTTP clients, CGI, SSI, WebDAV, static files, directory listing, logging and the Windows substitutes: plumbing over the operating system and foreign libraries.
- `parse_date_string` in civetweb.c: its own comment says that the calculation awaits a fix.
- Throttling in `mg_write`: the first loop iteration sends again without waiting, so no per-second bound holds.
- The import side of the topology manager: a departing admin is added again and entries are skipped during removal, so the natural invariants do not hold there.
- Shutdown.StopExactly: a signal wakes one sleeping thread, none wakes up by itself, and serving a connection comes to an end. Thread creation is taken to succeed, with at least one worker.
- Server.StepInv: a worker without memory for its connection, which signs off without a stop and then destroys a mutex at a null address, is not modelled.
- Server.StopFlagStep: a master without memory for its poll table is not modelled; it leaves its loop without a stop and can set the flag from 0 to 2, after which a stop request sets it to 1 and waits for good.
- Remote service administration, wiring admin, activators, configuration readers, hash generation, certificate scheduling, the Go load tool: they would add only easy members.
- WebSocket.MaskData: hosts are little-endian, here and in the SHA-1 block transform.
- ChunkedBody.Read: the caller's buffer is a returned sequence from `ReadPart` upwards; chunk extensions are not modelled, since the source rejects them.
- Connections.Connection.Pull: a failure is taken to be final, whereas a source caller could try again after a time-out; a plain socket is taken to serve a huge request in part, as Linux does.
- Sha1.Context.Update: a call for which the sum of buffer position and length reaches 2^32 is outside its precondition: the guard is wrong there and the source copies past its buffer.
- Glob.MatchPrefix: the byte behind the pattern is taken not to be '*', since the source looks at it when a pattern ends in a star.
- EtcdWatcher.Completeness: a full synchronisation is an atomic snapshot within the table limits, wires lie three levels below the root, the wire id inside a value is the one in its key, and changed properties of a known wire are not tracked.
- EndpointPublishing.CacheAgrees: the choice between the two listener interfaces for one service is not modelled.
- TopologyExport.Manager.ExportWiringEndpoint: the table looks requests up by equality of keys; TopologyExport.LookupExactly says when the source's table does. An admin gives the same answer to the same request while one event is handled.
- TopologyExport.Manager.AdminRemoved: the notifications sent while an admin leaves are not modelled; they change no table.
- WiringProperties.Load: the trimming function of the platform, which is not part of the repository, is taken to strip white space at both ends; strings are C strings without a zero byte.
- EndpointDescriptor.RoundTrip: strings that are XML with an element named xml, at whose end the handler stops collecting, are excluded; the markup of the document, its escaping and the checks of the description's constructor lie outside the model; numbers are parsed from ASCII digits, and floating point numbers are taken to be written without white space.
- StringRewriting.Replace: the empty pattern, on which the source does not terminate, and a result whose size with terminator reaches 2^64, are outside its precondition.
