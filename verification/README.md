# Verified model of the asio_utils server stack

A model of the session, codec and routing layers of a C++ game-server stack built on asio, with
machine-checked properties of whole runs. `dafny verify dfyconfig.toml` checks the project.

## What is modelled

- **Buffers** (`Bytes`, `ByteQueue`, `DataBuffer`). `DataBuffer` on a real array, with compaction and growth,
  refines a plain byte queue.
- **Sessions** (`SessionSpec`, `TCPSession`, `Network`). `TCPSession` is a class over three heap buffers whose
  references are swapped at the hand-off. Each method is proved to perform the step of a state machine. User
  callbacks are arbitrary re-entrant code: a callback is a finite script of calls on the session, and a call that
  closes the session carries the script of the close callback. `Network` joins two sessions by a byte channel in
  each direction; the environment transmits, completes and delivers in any interleaving and chunking.
- **Packets** (`Framing`, `Delivery`). The 12-byte header, `hasPacket` with its unsigned arithmetic, the dispatch
  loop, and the delivery of whole packets from one application to the other.
- **Messages** (`Wire`, `Utf8`, `Messages`, `MessageObjects`). The generated code of `ServerInfo`, `ServerRegisterRQ`,
  and `UpdateMatchRQ` over the wire format of the Protocol Buffers Encoding guide (sections "Base 128 Varints",
  "Packed Repeated Fields", "Last One Wins" and "Maps"). Strings are checked (`Utf8`) as in section 4 of RFC 3629, which
  is proved to accept exactly the encodings that its section 3 defines.
- **Connector** (`ConnectorSpec`, `TCPConnector`, `ClientReconnect`). Resolve, endpoint sweep, capped exponential
  retry, and what a reconnecting client session sets off.
- **Registry and routing** (`IndexPool`, `SessionManager`, `ServiceKernel`, `BalanceRouting`). The index pool, direct
  and broadcast sends, the service table with the cached central session, and request and reply routing.
- **Lookups** (`SimilarNumber`). The binary search and its linear twin.

## Main results

1. `Network.EndToEndConservation`: in every reachable state, in both directions, all bytes appended at one side are,
   in order, consumed, in the input buffer, on the channel, in flight or waiting, **if and only if** no successful
   write so far was short. `handWrite` does not look at the transferred count, so the condition is exact.
2. `Delivery.LoopDeliversInOrder`: with full writes and a receiver whose callbacks run the dispatch loop, with handlers
   that do whatever else they like, the packets handled are always the first few of the packets sent, and all of them
   at rest, for every chunking and interleaving. `Delivery.RequestArrives` adds the codec: the i-th packet handled
   parses as the i-th request sent. `Delivery.EveryPacketCanBeHandled` is the progress: after any such run, if a write
   is outstanding at a connected sender and the receiver is reading, full completions and one arrival bring every packet
   to its handler.
3. `Messages.ParseRegisterMerges` and `Messages.ParseUpdateMerges`: parsing any serialization into any message is
   `MergeFrom`, and fails exactly on a string that is not UTF-8. Round trips and the law for concatenated
   serializations are consequences. `MessageObjects.CanonicalIffCachesCurrent`: serializing with cached sizes gives
   the canonical bytes if and only if the caches that are used are current.
4. `SessionSpec.RunInv` and its consequences: send-side FIFO, at most one write outstanding, frozen bytes in flight,
   at most one close callback a connection, no null socket dereferenced, over every run with re-entrant callbacks.
   Progress: two completions drain a connected session (`SessionSpec.TwoCompletionsDrain`), and over every run without
   aborted reads a connected session has a read outstanding (`SessionSpec.ConnectedSessionReads`).
5. `ConnectorSpec.AlwaysInOrderIff`: over every run the sweep is always in order, with at most one attempt outstanding,
   **if and only if** stops and restarts come while nothing is outstanding and resolutions are not empty.
   `ConnectorSpec.AttemptsBoundedByDisturbances` and `ConnectorSpec.BackoffClosedForm` hold in every run.
6. `SessionManagers.FrameIntegrity`: over every run of direct and broadcast sends, however many sessions come and go
   and whatever indices are handed out again, each session's stream is whole packets.
   `BalanceRouting.ReplyRouting`: over every run, with any number of joins and any answers of the central server,
   exactly who gets a reply, and that it is the client that asked alone **if and only if** that client still holds
   its index (or the index leads to nobody and it is the only registered client). `BalanceRouting.ClientHoldsIff`
   says how long that is; `BalanceRouting.ReplyRoutingWhileCounterLasts` is the case of at most 10001 joins.
7. `ServiceKernels.AlwaysUniqueIff` and `ServiceKernels.TableRefinesMap`: over every run of the service table, whatever
   indices are used, there is always one entry an address **if and only if** no step makes a second one, and then the
   table refines an address-keyed map. `ServiceKernels.CentralCache`: over every run, whatever indices are used, the
   cached session is one of the table **if and only if** every displacement of it has been healed, and an empty cache
   means that there is no central entry **if and only if** every loss has been healed.
   `BalanceRouting.RequestsForwardedIff` carries this over to the balance server, whose indices come from the pool.

## Where the code does not do what one would expect

Each of these is a lemma about the code as it is.

- A failed write silences a session for good, also after it has reconnected, because the operating flag is never
  cleared (`SessionSpec.SilentIffWriteFailed`, `SessionSpec.SilentForGood`).
- `forceClose` and a failed read close the session if and only if it is connected, because both end in `handClose`,
  which tests `connected()` (`SessionSpec.ForceCloseClosesIff`, `SessionSpec.FailedReadClosesIff`); so after
  `shutdown` nothing ever closes it (`SessionSpec.ShutdownNeverCloses`).
- `reconnect` on a connected, managed session restarts the connector twice
  (`SessionSpec.ManagedReconnectRestarts`), which can open two connections
  (`ClientReconnect.ReconnectKeepsOneAttemptIff`, `ClientReconnect.ReconnectCanConnectTwice`).
- An error that is not retryable at the last endpoint leaves the connector in the connecting state, where it ignores
  every start (`ConnectorSpec.StuckIffNotRetryable`, `ConnectorSpec.StuckForGood`).
- A send to an index has three outcomes: an occupied slot gets it alone, a negative index or an empty slot makes it a
  broadcast to all sessions of the type, and an index above 10000 fails the assertion of the lookup
  (`SessionManagers.SendToUuidReaches`). So a reply for a client that has left is broadcast to all clients.
- The balance server ends exactly when the central server answers with a stamp above 10000, or a message of the range
  with a negative size, which `hasPacket` lets through, would be forwarded to somebody
  (`BalanceRouting.AbortsIffFatal`, `Framing.DispatchedAreSized`).
- The index pool hands out its largest index twice, because its list of returned indices starts out holding it
  (`IndexPools.DistinctUpToCapacity`); an object whose slot is handed out again stays in the list but can no longer be
  found (`IndexPools.AddKeepsSound`, `SessionManagers.ReusedIndexMisroutes`), its closing unregisters the new owner
  instead (`SessionManagers.RemoveSessionPtrEffect`), and a late reply reaches the new owner
  (`BalanceRouting.StaleReplyReachesNewOwner`).
- Compaction is invisible except to `prepend`, whose room it closes (`ByteQueue.PrependAfterRequestIff`).
- A header size of -12 makes the dispatch loop spin, smaller sizes block the stream, and -11 to -1 pass as packets
  that end inside their own header (`Framing.HangsIffLengthZero`, `Framing.NegativeSize`).
- The 16-bit and 8-bit accessors call the 32-bit conversions; only 0 and -1 survive (`ByteQueue.Int16ReadBack`,
  `ByteQueue.Int8ReadBack`).
- Adding makes a second entry for an address in two cases: a start-up connection to a known address, and an address
  whose entry has index -1, which the walk cannot tell from nothing found
  (`ServiceKernels.AddKeepsUniqueIff`, `ServiceKernels.InvalidIndexIsNotFound`).
- Removing the cached central session loses the cache if and only if there is another central entry
  (`ServiceKernels.RemoveKeepsCache`, `ServiceKernels.TwoCentralsLoseTheCache`), and an entry under an index that is in
  use can displace it (`ServiceKernels.AddKeepsSoundIff`).
- The binary search is right unless its first hit is followed by another occurrence
  (`SimilarNumber.SearchCorrectIff`, `SimilarNumber.RepeatedValueIsMissed`).

## Assumptions on the environment

- Handlers run one at a time, as on one io_context; completions arrive only for operations that are outstanding.
- A read delivers at most as many bytes as the buffer had room for, and bytes are taken out of the input buffer by
  message callbacks alone, while no read is outstanding. `connectEstablished` follows the assignment of a
  socket, as in the listener and in `connectCallback`.
- Hosts are little-endian. Serialized messages stay below 2 GB, the limit of the protobuf library.
- Callbacks retrieve at most what is readable, as `retrieve` asserts. Assertions are compiled in: a failed one ends the
  process.
- A session is added to its manager once, in a state that its own runs reach, before it has sent anything. Packets that
  are sent or forwarded have a header size equal to the length of the body, or a negative one; a session that sends by
  itself sends whole packets.

## Model

| member | source | states |
|---|---|---|
| Bytes.SwapBytesMemory | ASIO_ALONE_STUDY/Net/DataBuffer.hpp:139-143 | what `htonl` leaves in memory is the network order of its argument |
| Bytes.SwapBytesInvolution | ASIO_ALONE_STUDY/Net/DataBuffer.hpp:178-184 | `ntohl` undoes `htonl` on every 32-bit integer |
| Bytes.NetworkOrderIsBigEndian | ASIO_ALONE_STUDY/Net/DataBuffer.hpp:139-143 | network order has the most significant byte first |
| ByteQueue.MakeRoom | ASIO_ALONE_STUDY/Net/DataBuffer.hpp:247-264 | afterwards there is room for the request and the content is the same |
| ByteQueue.RunRefinesQueue | ASIO_ALONE_STUDY/Net/DataBuffer.hpp:53-143 | over every run that passes the assertions, the content is that of a plain byte queue |
| ByteQueue.LayoutIsInvisible | ASIO_ALONE_STUDY/Net/DataBuffer.hpp:53-137 | whether a run of operations other than prepending and receiving, the two that ask for room in the layout, passes the assertions depends on the queue alone |
| ByteQueue.PrependAfterRequestIff | ASIO_ALONE_STUDY/Net/DataBuffer.hpp:98-105 | after a request for room a prepend is permitted if and only if it was before and the request was met without compaction |
| ByteQueue.PrependAfterAppendIff | ASIO_ALONE_STUDY/Net/DataBuffer.hpp:86-91 | the same after an append |
| ByteQueue.CompactionClosesPrependRoom | ASIO_ALONE_STUDY/Net/DataBuffer.hpp:219-225 | an instance: the same content admits a prepend before a compaction and refuses it afterwards |
| ByteQueue.RoomAfterRetrieve | ASIO_ALONE_STUDY/Net/DataBuffer.hpp:53-64 | retrieving frees room in front; retrieving everything gives all room back to the end |
| ByteQueue.TurnHasRoom | ASIO_ALONE_STUDY/Net/TCPSession.cpp:83-94 | every turn of the reading loop has room for 1024 bytes |
| ByteQueue.GrowthBound | ASIO_ALONE_STUDY/Net/DataBuffer.hpp:98-105 | storage grows if and only if content and request exceed it, and stays below content plus twice the request |
| ByteQueue.InputCapacityBound | ASIO_ALONE_STUDY/Net/TCPSession.cpp:83-107 | if callbacks leave at most R bytes, the input buffer never exceeds max(1024, R + 2047) |
| ByteQueue.PeekInt32AtFront | ASIO_ALONE_STUDY/Net/DataBuffer.hpp:178-184 | an integer in network order at the front is what `peekInt32` returns |
| ByteQueue.Int32sReadBack | ASIO_ALONE_STUDY/Net/DataBuffer.hpp:139-162 | any sequence of 32-bit integers reads back in order and leaves what follows |
| ByteQueue.Int16ReadBack | ASIO_ALONE_STUDY/Net/DataBuffer.hpp:144-148 | a 16-bit integer reads back as its sign, so as itself if and only if it is 0 or -1 |
| ByteQueue.Int8ReadBack | ASIO_ALONE_STUDY/Net/DataBuffer.hpp:149-153 | the same for 8 bits |
| DataBuffers.CopyWithin | ASIO_ALONE_STUDY/Net/DataBuffer.hpp:257-259 | forward copy to the front, overlapping or not, moves the old bytes |
| DataBuffers.CopyInto | ASIO_ALONE_STUDY/Net/DataBuffer.hpp:89-89 | the bytes land at the position and nothing else changes |
| DataBuffers.DataBuffer.constructor | ASIO_ALONE_STUDY/Net/DataBuffer.hpp:25-31 | an empty buffer of the given capacity, not operating |
| DataBuffers.DataBuffer.ReadableBytes | ASIO_ALONE_STUDY/Net/DataBuffer.hpp:33-36 | the length of the content |
| DataBuffers.DataBuffer.WritableBytes | ASIO_ALONE_STUDY/Net/DataBuffer.hpp:38-41 | the room behind the content |
| DataBuffers.DataBuffer.MakeSpace | ASIO_ALONE_STUDY/Net/DataBuffer.hpp:247-264 | grows into fresh storage or compacts in place, as the queue view says; the assertion on the reader index holds |
| DataBuffers.DataBuffer.EnsureWritableBytes | ASIO_ALONE_STUDY/Net/DataBuffer.hpp:98-105 | room for the request, content untouched |
| DataBuffers.DataBuffer.HasReceived | ASIO_ALONE_STUDY/Net/DataBuffer.hpp:126-130 | bytes placed at the write position join the content |
| DataBuffers.DataBuffer.Append | ASIO_ALONE_STUDY/Net/DataBuffer.hpp:86-91 | the content is extended by the data |
| DataBuffers.DataBuffer.RetrieveAll | ASIO_ALONE_STUDY/Net/DataBuffer.hpp:78-82 | the content is empty, storage kept |
| DataBuffers.DataBuffer.Retrieve | ASIO_ALONE_STUDY/Net/DataBuffer.hpp:53-64 | the first bytes are gone |
| DataBuffers.DataBuffer.Unwrite | ASIO_ALONE_STUDY/Net/DataBuffer.hpp:133-137 | the last bytes are gone |
| DataBuffers.DataBuffer.Prepend | ASIO_ALONE_STUDY/Net/DataBuffer.hpp:219-225 | the data is put in front of the content |
| DataBuffers.DataBuffer.AppendInt32 | ASIO_ALONE_STUDY/Net/DataBuffer.hpp:139-143 | appends the network order of the integer |
| DataBuffers.DataBuffer.PrependInt32 | ASIO_ALONE_STUDY/Net/DataBuffer.hpp:203-207 | prepends the network order of the integer |
| DataBuffers.DataBuffer.ReadInt32 | ASIO_ALONE_STUDY/Net/DataBuffer.hpp:157-162 | returns the integer whose network order was at the front, and consumes it |
| DataBuffers.DataBuffer.Operate | ASIO_ALONE_STUDY/Net/DataBuffer.hpp:232-232 | raises the operating flag |
| DataBuffers.DataBuffer.Unoperate | ASIO_ALONE_STUDY/Net/DataBuffer.hpp:233-233 | lowers the operating flag |
| SessionSpec.InternalSendFollows | ASIO_ALONE_STUDY/Net/TCPSession.cpp:64-81 | the hand-off keeps the invariant and hands over at most one buffer |
| SessionSpec.SendFollows | ASIO_ALONE_STUDY/Net/TCPSession.cpp:57-62 | so does `send` |
| SessionSpec.HandCloseFollows | ASIO_ALONE_STUDY/Net/TCPSession.cpp:144-156 | closing with any close callback keeps the invariant; a connected session ends disconnected, without socket, with one more close callback, any other is unchanged |
| SessionSpec.CallFollows | ASIO_ALONE_STUDY/Net/TCPSession.cpp:52-191 | every call, with nested callbacks, keeps the invariant and stays within what a call may do |
| SessionSpec.CallsFollow | ASIO_ALONE_STUDY/Net/TCPSession.cpp:52-191 | so does every script of re-entrant calls |
| SessionSpec.EstablishedInv | ASIO_ALONE_STUDY/Net/TCPSession.cpp:159-167 | a new connection keeps the invariant and a buffer in flight |
| SessionSpec.HandWriteInv | ASIO_ALONE_STUDY/Net/TCPSession.cpp:131-142 | the completion of a write, successful or not, keeps the invariant and stays within what it may do; `CompletionFlushes` has its progress |
| SessionSpec.HandReadInv | ASIO_ALONE_STUDY/Net/TCPSession.cpp:97-129 | the completion of a read, with data or any error, keeps the invariant and stays within what it may do; `ReadsGoOn` has its progress |
| SessionSpec.NextInv | ASIO_ALONE_STUDY/Net/TCPSession.cpp:52-225 | every event keeps the invariant and changes no more than it may |
| SessionSpec.RunInv | ASIO_ALONE_STUDY/Net/TCPSession.cpp:52-225 | the invariant holds in every reachable state |
| SessionSpec.SendSideFifo | ASIO_ALONE_STUDY/Net/TCPSession.cpp:52-142 | everything handed to `async_send`, then the output buffer, is everything appended; received is consumed then input |
| SessionSpec.AtMostOneWrite | ASIO_ALONE_STUDY/Net/TCPSession.cpp:64-81 | at most one write is outstanding, it concerns the buffer handed over last, an idle send buffer is empty |
| SessionSpec.Lifecycle | ASIO_ALONE_STUDY/Net/TCPSession.cpp:144-191 | close callbacks never exceed connections, live sessions have a socket, no null socket is dereferenced |
| SessionSpec.ReadsAtMostConnections | ASIO_ALONE_STUDY/Net/TCPSession.cpp:83-107 | in every run at most one read is outstanding a connection |
| SessionSpec.CallsKeepInput | ASIO_ALONE_STUDY/Net/TCPSession.cpp:52-191 | a script of calls without a retrieval, nested callbacks included, keeps the input |
| SessionSpec.InFlightFrozen | ASIO_ALONE_STUDY/Net/TCPSession.cpp:64-81 | until its completion no run changes the bytes in flight |
| SessionSpec.SilentIffWriteFailed | ASIO_ALONE_STUDY/Net/TCPSession.cpp:131-142 | a session is silent if and only if one of its writes failed |
| SessionSpec.SilentForGood | ASIO_ALONE_STUDY/Net/TCPSession.cpp:64-71 | a silent session never hands over a byte again, reconnections included |
| SessionSpec.ShutdownNeverCloses | ASIO_ALONE_STUDY/Net/TCPSession.cpp:177-191 | after a shutdown no run without a new connection closes the session or releases its socket |
| SessionSpec.ForceCloseClosesIff | ASIO_ALONE_STUDY/Net/TCPSession.cpp:185-191 | `forceClose` closes the session, with exactly one close callback, if and only if it is connected; otherwise it does nothing |
| SessionSpec.FailedReadClosesIff | ASIO_ALONE_STUDY/Net/TCPSession.cpp:109-121 | so does a failed read |
| SessionSpec.SendLeavesNothingIdle | ASIO_ALONE_STUDY/Net/TCPSession.cpp:57-81 | after `send` on a connected session, waiting bytes imply a raised flag |
| SessionSpec.CompletionFlushes | ASIO_ALONE_STUDY/Net/TCPSession.cpp:131-142 | after a successful write, whatever its callback did, a connected session has handed over what was waiting |
| SessionSpec.TwoCompletionsDrain | ASIO_ALONE_STUDY/Net/TCPSession.cpp:131-142 | from a connected state with a write outstanding, two completions hand over all that was appended and leave nothing in flight |
| SessionSpec.ReadsGoOn | ASIO_ALONE_STUDY/Net/TCPSession.cpp:97-129 | a completed read starts exactly one more after data or a transient error on a connected session, none otherwise; a failed one leaves the session not connected |
| SessionSpec.EstablishedReads | ASIO_ALONE_STUDY/Net/TCPSession.cpp:159-167 | a new connection starts exactly one read |
| SessionSpec.ConnectedSessionReads | ASIO_ALONE_STUDY/Net/TCPSession.cpp:83-129 | over every run without aborted reads a connected session has a read outstanding |
| SessionSpec.EventRunsCallbacks | ASIO_ALONE_STUDY/Net/TCPSession.cpp:97-167 | every event runs its callbacks once and in order: what they give to send is appended, in this order |
| SessionSpec.StateByItself | ASIO_ALONE_STUDY/Net/TCPSession.cpp:97-167 | apart from calls, only a new connection connects and only a failed read on a connected session disconnects; writes and other reads change no state |
| SessionSpec.DestroyingClosesIff | ASIO_ALONE_STUDY/Net/TCPSession.cpp:169-225 | `connectDestroyed` and `reconnect` close the session if and only if it is connected |
| SessionSpec.ShutdownStopsForGood | ASIO_ALONE_STUDY/Net/TCPSession.cpp:177-184 | `shutdown` on a connected session: until the next connection nothing is handed over and nothing closes it |
| SessionSpec.ManagedReconnectRestarts | ASIO_ALONE_STUDY/Net/TCPSession.cpp:218-225 | two restarts on a connected managed session, one otherwise, none without retry |
| TCPSessions.TCPSession.constructor | ASIO_ALONE_STUDY/Net/TCPSession.cpp:21-37 | a fresh session with three separate empty buffers |
| TCPSessions.TCPSession.AddMore | ASIO_ALONE_STUDY/Net/TCPSession.cpp:52-55 | appends to the output buffer; object, storage and bytes of the buffer in flight and of the input buffer untouched |
| TCPSessions.TCPSession.InternalSend | ASIO_ALONE_STUDY/Net/TCPSession.cpp:64-81 | swaps the references and hands over, as the state machine says; a connected session has then nothing waiting idle; never touches a buffer in flight or the place of a read |
| TCPSessions.TCPSession.Send | ASIO_ALONE_STUDY/Net/TCPSession.cpp:57-62 | append, then hand-off |
| TCPSessions.TCPSession.StartAsyncRead | ASIO_ALONE_STUDY/Net/TCPSession.cpp:83-94 | one more read if connected, with room for 1024 bytes |
| TCPSessions.TCPSession.HandClose | ASIO_ALONE_STUDY/Net/TCPSession.cpp:144-156 | closes once and runs the close callback re-entrantly |
| TCPSessions.TCPSession.Shutdown | ASIO_ALONE_STUDY/Net/TCPSession.cpp:177-184 | a connected session starts disconnecting |
| TCPSessions.TCPSession.ForceClose | ASIO_ALONE_STUDY/Net/TCPSession.cpp:185-191 | the guard, then `handClose` |
| TCPSessions.TCPSession.ConnectDestroyed | ASIO_ALONE_STUDY/Net/TCPSession.cpp:169-175 | force-closes a connected session |
| TCPSessions.TCPSession.Reconnect | ASIO_ALONE_STUDY/Net/TCPSession.cpp:218-225 | destroys the connection and restarts if retry is enabled |
| TCPSessions.TCPSession.RunCalls | ASIO_ALONE_STUDY/Net/TCPSession.hpp:84-102 | a callback performs its script of calls, step by step, on the same session; without a retrieval, storage and write position of the input buffer stay for the read that is outstanding |
| TCPSessions.TCPSession.ConnectEstablished | ASIO_ALONE_STUDY/Net/TCPSession.cpp:159-167 | connected, reading, connection callback, initial data, in this order |
| TCPSessions.TCPSession.HandWrite | ASIO_ALONE_STUDY/Net/TCPSession.cpp:131-142 | on success releases the buffer, runs the callback and hands over what waits if connected; on error nothing but the outstanding write and the count of errors changes |
| TCPSessions.TCPSession.HandRead | ASIO_ALONE_STUDY/Net/TCPSession.cpp:97-129 | data reach the callback; exactly one more read after data or a transient error if connected; aborted reads end; others close |
| Network.SenderKeepsFlow | ASIO_ALONE_STUDY/Net/TCPSession.cpp:64-81 | handing over at most one buffer keeps the account of the bytes sent |
| Network.CompletionKeepsFlow | ASIO_ALONE_STUDY/Net/TCPSession.cpp:131-142 | a successful write drops exactly the bytes that were not transmitted |
| Network.NetNextInv | ASIO_ALONE_STUDY/Net/TCPSession.cpp:52-142 | every step of either side or of the wire keeps both accounts |
| Network.NetRunInv | ASIO_ALONE_STUDY/Net/TCPSession.cpp:52-142 | so does every run |
| Network.DroppedIffShort | ASIO_ALONE_STUDY/Net/TCPSession.cpp:131-142 | bytes were dropped if and only if some successful write was short |
| Network.EndToEndConservation | ASIO_ALONE_STUDY/Net/TCPSession.cpp:52-142 | in every reachable state conservation in order holds if and only if no successful write was short |
| Network.ReceivedIsPrefix | ASIO_ALONE_STUDY/Net/TCPSession.cpp:52-142 | the receiver has seen a prefix of what was appended, and all of it at rest |
| Network.EverythingCanArrive | ASIO_ALONE_STUDY/Net/TCPSession.cpp:64-142 | from every state with a write outstanding at a connected sender and a read at the receiver, full completions and one delivery bring everything appended to the receiver |
| Framing.DispatchLoop | ASIO_ALONE_STUDY/CPG/Net/CPGNetSession.cpp:24-43 | the loop hands out the whole packets of the buffer and leaves the rest; it reports where it would spin |
| Framing.HeaderRoundTrip | ASIO_ALONE_STUDY/Net/base/FASIOType.h:32-37 | a header copied to memory is read back |
| Framing.HeaderLayout | ASIO_ALONE_STUDY/Net/base/FASIOType.h:32-37 | type, size and extra id lie at bytes 0, 4 and 8, least significant byte first |
| Framing.FrontOfEncoding | ASIO_ALONE_STUDY/Net/Util/NetPacket.cpp:89-100 | a whole packet in front is recognised, with its length |
| Framing.HasPacketMonotone | ASIO_ALONE_STUDY/Net/Util/NetPacket.cpp:89-100 | more bytes do not change the packet in front |
| Framing.DispatchEncoded | ASIO_ALONE_STUDY/CPG/Net/CPGNetSession.cpp:28-42 | whole packets come out as they went in, and what follows is dispatched as if alone |
| Framing.EncodingIsUnique | ASIO_ALONE_STUDY/Net/TCPSessionManager.cpp:195-199 | the length fields determine the packets of a stream |
| Framing.DispatchInChunks | ASIO_ALONE_STUDY/CPG/Net/CPGNetSession.cpp:24-43 | for every byte stream, dispatching in two parts is dispatching at once |
| Framing.RestIsSuffix | ASIO_ALONE_STUDY/CPG/Net/CPGNetSession.cpp:41-41 | what the loop leaves is the end of the stream |
| Framing.DispatchOfPrefix | ASIO_ALONE_STUDY/CPG/Net/CPGNetSession.cpp:24-43 | of any prefix of a packet stream the first few packets are handed out and a proper part of the next is left |
| Framing.DispatchOfWhole | ASIO_ALONE_STUDY/CPG/Net/CPGNetSession.cpp:24-43 | a complete packet stream is handed out completely |
| Framing.RestIsDispatched | ASIO_ALONE_STUDY/CPG/Net/CPGNetSession.cpp:28-28 | what the loop leaves has no whole packet in front, unless the loop spins on it |
| Framing.DispatchedAreSized | ASIO_ALONE_STUDY/Net/Util/NetPacket.cpp:89-100 | a packet that is handed out is well formed if and only if its size is not negative |
| Framing.HangsIffLengthZero | ASIO_ALONE_STUDY/Net/Util/NetPacket.cpp:94-97 | the loop spins if and only if some packet boundary of the stream is followed by a header of size -12 |
| Framing.NegativeSize | ASIO_ALONE_STUDY/Net/Util/NetPacket.cpp:94-97 | what the other negative sizes do |
| Delivery.LoopTakesWholePackets | ASIO_ALONE_STUDY/CPG/Net/CPGNetSession.cpp:28-42 | handler and retrieval in turn, packet by packet, take out the whole packets and leave the rest, whatever the handlers send or close |
| Delivery.DispatchLoopConsumes | ASIO_ALONE_STUDY/CPG/Net/CPGNetSession.cpp:24-43 | an arrival whose callback is this loop leaves exactly the rest of the stream |
| Delivery.LoopDispatches | ASIO_ALONE_STUDY/CPG/Net/CPGNetSession.cpp:24-43 | over every run, on a stream of whole packets, a side whose arrivals run the loop and whose other callbacks leave the buffer alone is a dispatching receiver; the loop never spins |
| Delivery.HandledIsDispatch | ASIO_ALONE_STUDY/CPG/Net/CPGNetSession.cpp:24-43 | the packets handled arrival by arrival are those of the whole stream received |
| Delivery.PacketsArriveInOrder | ASIO_ALONE_STUDY/CPG/Net/CPGNetSession.cpp:24-43 | with a dispatching receiver the handled packets are the first few sent, in order, and all of them at rest |
| Delivery.LoopDeliversInOrder | ASIO_ALONE_STUDY/CPG/Net/CPGNetSession.cpp:24-43 | the same for a receiver given by its callbacks alone: the loop at every arrival, any handlers |
| Delivery.EveryPacketCanBeHandled | ASIO_ALONE_STUDY/CPG/Net/CPGNetSession.cpp:24-43 | after any such run with a write outstanding and a receiver reading, full completions and one arrival bring every packet sent to its handler |
| Delivery.CarriedMessageArrives | ASIO_ALONE_STUDY/Net/TCPSessionManager.cpp:122-140 | a packet with a serialized request is well formed and its handler parses the message that was sent |
| Delivery.RequestArrives | ASIO_ALONE_STUDY/CPG/Net/CPGToCentralSession.cpp:152-174 | over any network run with full writes and a receiver that runs the loop, the i-th packet handled parses as the request that the i-th packet sent carries, if and only if its strings are UTF-8 |
| Wire.VarintLength | ASIO_ALONE_STUDY/CPG/CPGServer.pb.cc:1020-1025 | the size formula is the length of the varint |
| Wire.VarintIsBase128 | ASIO_ALONE_STUDY/CPG/CPGServer.pb.cc:850-852 | a varint is the number in groups of seven bits, least significant first, the high bit announcing another, none too many |
| Wire.EndlessVarintFails | ASIO_ALONE_STUDY/CPG/CPGServer.pb.cc:841-842 | ten bytes that all announce another are no varint |
| Wire.VarintRoundTrip | ASIO_ALONE_STUDY/CPG/CPGServer.pb.cc:850-852 | a varint reads back, with the bytes behind it |
| Wire.TruncateSignExtend | ASIO_ALONE_STUDY/CPG/CPGServer.pb.cc:928-930 | sign extension is the 64-bit two's complement, and truncation undoes it |
| Wire.Int32Length | ASIO_ALONE_STUDY/CPG/CPGServer.pb.cc:1022-1024 | the size of an integer field value, ten bytes when negative |
| Wire.PackedRoundTrip | ASIO_ALONE_STUDY/CPG/CPGServer.pb.cc:1396-1399 | packed integers read back, and their size formula is exact |
| Wire.FieldRoundTrip | ASIO_ALONE_STUDY/CPG/CPGServer.pb.cc:842-845 | a written field is read back, with the bytes behind it |
| Wire.FixedFieldRoundTrip | ASIO_ALONE_STUDY/CPG/CPGServer.pb.cc:900-909 | fields of fixed width are read with eight or four bytes |
| Wire.ReadFieldExtends | ASIO_ALONE_STUDY/CPG/CPGServer.pb.cc:841-845 | more input does not change the field in front |
| Wire.ParseOfEncoding | ASIO_ALONE_STUDY/CPG/CPGServer.pb.cc:841-910 | parsing encoded fields is taking one field after the other, for every message type |
| Wire.ParseOfConcatenation | ASIO_ALONE_STUDY/CPG/CPGServer.pb.cc:1290-1371 | for every input, parsing a concatenation is parsing one part after the other |
| Utf8.EncodedIsValid | ASIO_ALONE_STUDY/CPG/CPGServer.pb.cc:890-893 | the check accepts every encoding of code points as section 3 of RFC 3629 defines it |
| Utf8.ValidIsEncoded | ASIO_ALONE_STUDY/CPG/CPGServer.pb.cc:890-893 | and what it accepts is the encoding of its decoded code points, none of them a surrogate or above 0x10ffff |
| Utf8.ValidUtf8Iff | ASIO_ALONE_STUDY/CPG/CPGServer.pb.cc:5790-5797 | so it accepts a string if and only if it is the encoding of some code points |
| Utf8.DecodingIsUnique | ASIO_ALONE_STUDY/CPG/CPGServer.pb.cc:890-893 | which it determines |
| Messages.FoldInfo | ASIO_ALONE_STUDY/CPG/CPGServer.pb.cc:845-898 | taking the fields of a `ServerInfo` merges it |
| Messages.InfoSizeAgrees | ASIO_ALONE_STUDY/CPG/CPGServer.pb.cc:1000-1044 | `ByteSizeLong` is the serialized length |
| Messages.ParseInfoMerges | ASIO_ALONE_STUDY/CPG/CPGServer.pb.cc:836-957 | parsing a serialization into any message is `MergeFrom`, and fails exactly on invalid UTF-8 |
| Messages.RegisterSizeAgrees | ASIO_ALONE_STUDY/CPG/CPGServer.pb.cc:1463-1519 | `ByteSizeLong` is the serialized length |
| Messages.FoldListeners | ASIO_ALONE_STUDY/CPG/CPGServer.pb.cc:1342-1351 | parsed listeners are appended in order, and one invalid address fails the parse |
| Messages.FoldRegister | ASIO_ALONE_STUDY/CPG/CPGServer.pb.cc:1299-1351 | taking the fields of a `ServerRegisterRQ` merges it |
| Messages.ParseRegisterMerges | ASIO_ALONE_STUDY/CPG/CPGServer.pb.cc:1290-1415 | parsing a serialization into any message is `MergeFrom`, and fails exactly on invalid UTF-8 |
| Messages.RegisterRoundTrip | ASIO_ALONE_STUDY/CPG/CPGServer.pb.cc:1290-1415 | the same message comes back if and only if its strings are UTF-8 |
| Messages.RegisterMergeHomomorphism | ASIO_ALONE_STUDY/CPG/CPGServer.pb.cc:1536-1551 | into any message, concatenated serializations parse as one merge after the other, and fail exactly on invalid UTF-8 in either |
| Messages.RegisterMergeMonoid | ASIO_ALONE_STUDY/CPG/CPGServer.pb.cc:1536-1551 | merging is associative with the empty message as unit |
| Messages.EntryRoundTrip | ASIO_ALONE_STUDY/CPG/CPGServer.pb.cc:5778-5789 | a map entry comes back, empty key or value included |
| Messages.UpdateSizeAgrees | ASIO_ALONE_STUDY/CPG/CPGServer.pb.cc:5961-5998 | `ByteSizeLong` is the serialized length |
| Messages.SizeIsOrderIndependent | ASIO_ALONE_STUDY/CPG/CPGServer.pb.cc:5974-5986 | a size computed in one iteration order is the length written in another |
| Messages.FoldEntries | ASIO_ALONE_STUDY/CPG/CPGServer.pb.cc:5778-5801 | parsed entries overlay the map, and one invalid string fails the parse |
| Messages.ParseUpdateMerges | ASIO_ALONE_STUDY/CPG/CPGServer.pb.cc:5755-5890 | parsing a serialization in any map order into any message is `MergeFrom`, and fails exactly on invalid UTF-8 |
| Messages.UpdateRoundTrip | ASIO_ALONE_STUDY/CPG/CPGServer.pb.cc:5755-5890 | the same message comes back if and only if its strings are UTF-8 |
| Messages.UpdateMergeHomomorphism | ASIO_ALONE_STUDY/CPG/CPGServer.pb.cc:6015-6026 | into any message, concatenated serializations parse as one merge after the other, later entries winning, and fail exactly on invalid UTF-8 in either |
| Messages.RegisterLastOneWins | ASIO_ALONE_STUDY/CPG/CPGServer.pb.cc:1536-1551 | written out: later integers win unless 0, lists are joined |
| Messages.UpdateLastOneWins | ASIO_ALONE_STUDY/CPG/CPGServer.pb.cc:6015-6026 | written out, key by key: a later entry wins, all others stay |
| Messages.InfoBytes | ASIO_ALONE_STUDY/CPG/CPGServer.pb.cc:921-957 | the bytes: tags 8, 16, 24 and 34, defaults left out |
| Messages.RegisterBytes | ASIO_ALONE_STUDY/CPG/CPGServer.pb.cc:1374-1415 | the bytes: tags 8, 16, 26 with the packed integers, 34 for each listener |
| Messages.UpdateBytes | ASIO_ALONE_STUDY/CPG/CPGServer.pb.cc:5825-5890 | the bytes: tag 8, and 18 for each entry with 10 for its key and 18 for its value |
| Messages.UnknownFieldsAreSkipped | ASIO_ALONE_STUDY/CPG/CPGServer.pb.cc:900-909 | unknown fields and known ones of a wrong wire type are skipped, in all three messages |
| Messages.UnpackedElementIsAppended | ASIO_ALONE_STUDY/CPG/CPGServer.pb.cc:1332-1337 | an element of `connectTypes` behind tag 24 is appended |
| MessageObjects.TakeInfoField | ASIO_ALONE_STUDY/CPG/CPGServer.pb.cc:845-909 | the switch takes exactly the fields of the message |
| MessageObjects.ParseServerInfo | ASIO_ALONE_STUDY/CPG/CPGServer.pb.cc:836-918 | the loop computes the parse of the whole input |
| MessageObjects.ServerRegisterRQ.constructor | ASIO_ALONE_STUDY/CPG/CPGServer.pb.cc:1153-1159 | the empty message |
| MessageObjects.ServerRegisterRQ.Clear | ASIO_ALONE_STUDY/CPG/CPGServer.pb.cc:1178-1190 | the empty message again |
| MessageObjects.ServerRegisterRQ.ByteSizeLong | ASIO_ALONE_STUDY/CPG/CPGServer.pb.cc:1463-1519 | the size, with every cache current and the contents untouched |
| MessageObjects.ServerRegisterRQ.WriteConnectTypes | ASIO_ALONE_STUDY/CPG/CPGServer.pb.cc:1390-1399 | tag, cached length and the packed integers |
| MessageObjects.ServerRegisterRQ.WriteListeners | ASIO_ALONE_STUDY/CPG/CPGServer.pb.cc:1401-1408 | each listener behind its cached length |
| MessageObjects.ServerRegisterRQ.SerializeWithCachedSizes | ASIO_ALONE_STUDY/CPG/CPGServer.pb.cc:1374-1415 | the bytes that the caches determine |
| MessageObjects.ServerRegisterRQ.SerializeAsString | ASIO_ALONE_STUDY/CPG/CPGServer.pb.cc:1374-1519 | sizing right before writing gives the canonical bytes, as long as announced |
| MessageObjects.ServerRegisterRQ.MergePartialFromCodedStream | ASIO_ALONE_STUDY/CPG/CPGServer.pb.cc:1290-1371 | the loop succeeds on the whole input exactly when the parse does, with its message |
| MessageObjects.ServerRegisterRQ.TakeField | ASIO_ALONE_STUDY/CPG/CPGServer.pb.cc:1299-1361 | the switch takes exactly the fields of the message |
| MessageObjects.ServerRegisterRQ.MergeFrom | ASIO_ALONE_STUDY/CPG/CPGServer.pb.cc:1536-1551 | the merge of the two values |
| MessageObjects.ServerRegisterRQ.CopyFrom | ASIO_ALONE_STUDY/CPG/CPGServer.pb.cc:1560-1565 | the value of the other message, also when it is the same object |
| MessageObjects.CanonicalIffCachesCurrent | ASIO_ALONE_STUDY/CPG/CPGServer.pb.cc:1390-1408 | writing with cached sizes is canonical if and only if the caches that are used are current |
| MessageObjects.UpdateMatchRQ.ByteSizeLong | ASIO_ALONE_STUDY/CPG/CPGServer.pb.cc:5961-5998 | the loop computes the size, which `SizeIsOrderIndependent` ties to the bytes written |
| MessageObjects.UpdateMatchRQ.SerializeWithCachedSizes | ASIO_ALONE_STUDY/CPG/CPGServer.pb.cc:5825-5890 | the fields in the order of the walk through the map |
| MessageObjects.UpdateMatchRQ.MergePartialFromCodedStream | ASIO_ALONE_STUDY/CPG/CPGServer.pb.cc:5755-5822 | the loop succeeds on the whole input exactly when the parse does, with its message |
| MessageObjects.UpdateMatchRQ.TakeField | ASIO_ALONE_STUDY/CPG/CPGServer.pb.cc:5764-5812 | the switch takes exactly the fields of the message |
| MessageObjects.UpdateMatchRQ.MergeFrom | ASIO_ALONE_STUDY/CPG/CPGServer.pb.cc:6015-6026 | the merge of the two values |
| ConnectorSpec.NextWaitInv | ASIO_ALONE_STUDY/Net/TCPConnector.cpp:111-138 | every event keeps the closed form of waits and delay |
| ConnectorSpec.BackoffClosedForm | ASIO_ALONE_STUDY/Net/TCPConnector.cpp:111-129 | the wait after n earlier ones since the last restart is min(500 * 2^n, 30000) ms in every run |
| ConnectorSpec.BackoffShape | ASIO_ALONE_STUDY/Net/TCPConnector.cpp:18-19 | waits never shrink, stay within 500 and 30000 ms, and are capped exactly from the seventh on |
| ConnectorSpec.NextSweepInvIff | ASIO_ALONE_STUDY/Net/TCPConnector.cpp:53-91 | every event keeps the sweep in order if and only if it is orderly: a stop or restart only while nothing is outstanding, no empty resolution |
| ConnectorSpec.AlwaysInOrderIff | ASIO_ALONE_STUDY/Net/TCPConnector.cpp:37-91 | over every run the sweep is always in order if and only if every event is orderly |
| ConnectorSpec.PlainRunsAreOrderly | ASIO_ALONE_STUDY/Net/TCPConnector.cpp:53-91 | runs without stop, restart and empty resolution are orderly |
| ConnectorSpec.AtMostOneAttempt | ASIO_ALONE_STUDY/Net/TCPConnector.cpp:53-91 | in orderly runs at most one resolve or connect is outstanding, and the endpoints tried are the first few, each once |
| ConnectorSpec.RetryOnlyAfterFullSweep | ASIO_ALONE_STUDY/Net/TCPConnector.cpp:81-92 | a wait begins only after the last endpoint failed with a retryable error |
| ConnectorSpec.SweepTerminates | ASIO_ALONE_STUDY/Net/TCPConnector.cpp:71-108 | as many failures as endpoints are left end the sweep, with all of them tried |
| ConnectorSpec.AttemptsBoundedByDisturbances | ASIO_ALONE_STUDY/Net/TCPConnector.cpp:37-62 | in every run, attempts in parallel are bounded by one plus the stops and restarts |
| ConnectorSpec.StuckIffNotRetryable | ASIO_ALONE_STUDY/Net/TCPConnector.cpp:85-107 | for every connector and event, exactly when it gets stuck (its only attempt fails at the last endpoint, not retryable) and when it gets out (stop or restart) |
| ConnectorSpec.FailureInSweep | ASIO_ALONE_STUDY/Net/TCPConnector.cpp:81-107 | a failure in any state tries another endpoint, or ends the sweep with a wait of the closed form if and only if retryable and not stopped; in order, each endpoint once, and in the end all |
| ConnectorSpec.LastFailureByCode | ASIO_ALONE_STUDY/Net/TCPConnector.cpp:85-107 | by error code: after five codes the connector waits as the closed form says, after the eight others it is stuck |
| ConnectorSpec.RetryableCodes | ASIO_ALONE_STUDY/Net/TCPConnector.cpp:85-89 | the codes that are retried |
| ConnectorSpec.WaitLeadsToAttempt | ASIO_ALONE_STUDY/Net/TCPConnector.cpp:124-128 | such a wait leads to the next resolution |
| ConnectorSpec.ConnectedAfter | ASIO_ALONE_STUDY/Net/TCPConnector.cpp:73-80 | exactly when a connector is connected after an event |
| ConnectorSpec.FailureKeepsBounds | ASIO_ALONE_STUDY/Net/TCPConnector.cpp:81-107 | in any state a failure keeps the closed form and the bound on attempts |
| ConnectorSpec.StuckForGood | ASIO_ALONE_STUDY/Net/TCPConnector.cpp:53-57 | a stuck connector ignores every start and timer |
| ClientReconnect.RestartsAddAttempts | ASIO_ALONE_STUDY/Net/TCPConnector.cpp:37-43 | every restart adds a resolution, whatever is outstanding |
| ClientReconnect.ReconnectKeepsOneAttemptIff | ASIO_ALONE_STUDY/Net/TCPSession.cpp:218-225 | from an idle connector, reconnecting leaves at most one attempt if and only if the session was not connected or does not retry |
| ClientReconnect.ReconnectKeepsSweepIff | ASIO_ALONE_STUDY/Net/TCPConnector.cpp:37-43 | under the same condition it keeps the sweep in order |
| ClientReconnect.ReconnectCanConnectTwice | ASIO_ALONE_STUDY/Net/TCPSessionManager.cpp:65-71 | both attempts can succeed, so that one reconnect opens two connections |
| TCPConnectors.TCPConnector.constructor | ASIO_ALONE_STUDY/Net/TCPConnector.cpp:21-34 | the initial state, with all invariants |
| TCPConnectors.TCPConnector.Start | ASIO_ALONE_STUDY/Net/TCPConnector.cpp:53-62 | keeps closed form, bound and sweep order; afterwards an attempt is outstanding if and only if the connector was not stuck |
| TCPConnectors.TCPConnector.Restart | ASIO_ALONE_STUDY/Net/TCPConnector.cpp:37-43 | keeps closed form, bound and sweep order; exactly one more attempt, never stuck, and the waits begin anew |
| TCPConnectors.TCPConnector.Stop | ASIO_ALONE_STUDY/Net/TCPConnector.cpp:45-51 | keeps closed form, bound and sweep order; cancels nothing, but a stopped connector begins no wait |
| TCPConnectors.TCPConnector.Connect | ASIO_ALONE_STUDY/Net/TCPConnector.cpp:64-69 | in an orderly sweep the endpoints tried are then the first few, each once; a fault exactly past the end |
| TCPConnectors.TCPConnector.HandleResolved | ASIO_ALONE_STUDY/Net/TCPConnector.cpp:141-151 | keeps closed form, bound and sweep order; the sweep begins at the first endpoint, with a fault exactly if there is none |
| TCPConnectors.TCPConnector.HandleFailure | ASIO_ALONE_STUDY/Net/TCPConnector.cpp:81-107 | keeps closed form, bound and sweep order; another endpoint, or a wait of the closed form if and only if the code is one of the five and it is not stopped; in orderly runs in order, each once, and stuck exactly without a wait |
| TCPConnectors.TCPConnector.HandleSuccess | ASIO_ALONE_STUDY/Net/TCPConnector.cpp:73-80 | keeps closed form, bound and sweep order; connected, one more connection; in orderly runs without a start from the callback nothing is outstanding |
| TCPConnectors.TCPConnector.Retry | ASIO_ALONE_STUDY/Net/TCPConnector.cpp:111-138 | a wait begins exactly if the connector is wanted and not stopped, as long as the closed form says, and the next delay is within the bounds |
| TCPConnectors.TCPConnector.HandleTimer | ASIO_ALONE_STUDY/Net/TCPConnector.cpp:125-128 | keeps closed form, bound and sweep order; the wait ends in an attempt, unless the connector is stuck |
| IndexPools.WithoutMembers | ASIO_ALONE_STUDY/Net/Util/ObjectIndexPool.hpp:71-71 | removing from the list takes out exactly the object |
| IndexPools.AddKeepsSound | ASIO_ALONE_STUDY/Net/Util/ObjectIndexPool.hpp:40-64 | every addition keeps slots and list consistent; it fails if and only if counter and returned indices are used up, and orphans an object if and only if the index was in use |
| IndexPools.RemoveKeepsSound | ASIO_ALONE_STUDY/Net/Util/ObjectIndexPool.hpp:66-75 | every removal empties the slot and takes out exactly its object |
| IndexPools.DistinctUpToCapacity | ASIO_ALONE_STUDY/Net/Util/ObjectIndexPool.hpp:28-64 | without removals, indices are distinct if and only if at most 10001 objects were added |
| IndexPools.ListInOrder | ASIO_ALONE_STUDY/Net/Util/ObjectIndexPool.hpp:49-63 | once the counter has run out, returned indices are handed out in their order, and then none |
| IndexPools.ReturnedIndexComesBack | ASIO_ALONE_STUDY/Net/Util/ObjectIndexPool.hpp:66-75 | an index that is given back is handed out again, right after those given back before |
| SessionManagers.DeliverFramed | ASIO_ALONE_STUDY/Net/TCPSessionManager.cpp:195-199 | header then body keeps a stream of whole packets |
| SessionManagers.DeliverGets | ASIO_ALONE_STUDY/Net/TCPSessionManager.cpp:197-198 | a connected idle session hands what waited, the header and the body to the socket in one buffer; any other keeps them waiting |
| SessionManagers.BroadcastEffect | ASIO_ALONE_STUDY/Net/TCPSessionManager.cpp:202-208 | exactly the listed sessions of the type get one more packet |
| SessionManagers.SendMsgEffect | ASIO_ALONE_STUDY/Net/TCPSessionManager.cpp:192-210 | a direct send reaches its session alone, a broadcast exactly the registered sessions of the type; a negative size ends the process exactly if there is one |
| SessionManagers.SendMsgHandsOver | ASIO_ALONE_STUDY/Net/TCPSessionManager.cpp:192-210 | everyone a send is for gets the packet, and hands it over if connected and idle |
| SessionManagers.NegativeBroadcast | ASIO_ALONE_STUDY/Net/TCPSessionManager.cpp:202-208 | a broadcast of a negative size ends the process if and only if a session is listed |
| SessionManagers.ReceiversAreUnique | ASIO_ALONE_STUDY/Net/TCPSessionManager.cpp:195-199 | what was delivered determines who received it |
| SessionManagers.AnsweringIsFramed | ASIO_ALONE_STUDY/CPG/Net/CPGNetSession.cpp:44-52 | a read whose callback answers by itself, heart beats included, appends whole packets |
| SessionManagers.AddKeepsInv | ASIO_ALONE_STUDY/Net/TCPSessionManager.cpp:87-92 | in every state an added session is found by the index it is told, unless there was none left, and every other index leads where it led |
| SessionManagers.RemoveKeepsInv | ASIO_ALONE_STUDY/Net/TCPSessionManager.cpp:79-83 | afterwards the index leads to nobody, every other where it led, and exactly its session is unregistered |
| SessionManagers.NextKeepsInv | ASIO_ALONE_STUDY/Net/TCPSessionManager.cpp:57-97 | every manager event keeps framing and indices, reused ones included |
| SessionManagers.FrameIntegrity | ASIO_ALONE_STUDY/Net/TCPSessionManager.cpp:192-216 | in every run, with any number of sessions, each session's stream is the packets sent to it, what is handed to the socket and then the waiting buffer is that stream, and dispatching it gives exactly the packets |
| SessionManagers.RemoveSessionPtrEffect | ASIO_ALONE_STUDY/Net/TCPSessionManager.cpp:57-83 | closing unregisters whoever its index leads to and no one else, so itself if and only if it still holds the index; a client session that retries stays |
| SessionManagers.SendToUuidReaches | ASIO_ALONE_STUDY/Net/TCPSessionManager.cpp:94-97 | a send to an index: above the array a failed assertion, an occupied slot gets it alone, otherwise a broadcast |
| SessionManagers.AbortsIff | ASIO_ALONE_STUDY/Net/Util/ObjectIndexPool.hpp:76-80 | a run ends the process if and only if it sends to an index above 10000 or a negative size to somebody |
| SessionManagers.NextHoldsIff | ASIO_ALONE_STUDY/Net/TCPSessionManager.cpp:79-92 | a step takes a session's index away if and only if it removes that index or hands it out |
| SessionManagers.RunHoldsIff | ASIO_ALONE_STUDY/Net/TCPSessionManager.cpp:79-97 | over every run a session is found by its index until somebody removes it or is given it, and never again after |
| SessionManagers.RunKeepsUnreused | ASIO_ALONE_STUDY/Net/Util/ObjectIndexPool.hpp:42-48 | while at most 10001 sessions are added, every registered session has an index of its own |
| SessionManagers.RegisteredIffHolds | ASIO_ALONE_STUDY/Net/TCPSessionManager.cpp:87-97 | then exactly the registered sessions are found by their index |
| SessionManagers.ReusedIndexMisroutes | ASIO_ALONE_STUDY/Net/Util/ObjectIndexPool.hpp:49-62 | an index handed out while in use leads to the new session, no longer to its first owner |
| SessionManagers.TCPSessionManager.constructor | ASIO_ALONE_STUDY/Net/TCPSessionManager.hpp:36-37 | no sessions |
| SessionManagers.TCPSessionManager.Add | ASIO_ALONE_STUDY/Net/TCPSessionManager.cpp:87-92 | keeps framing and indices; the session is found by its index if and only if there was one left, the other indices lead where they led |
| SessionManagers.TCPSessionManager.Remove | ASIO_ALONE_STUDY/Net/TCPSessionManager.cpp:79-83 | keeps framing and indices; the index leads to nobody, every other where it led |
| SessionManagers.TCPSessionManager.CloseCallback | ASIO_ALONE_STUDY/Net/TCPSessionManager.cpp:57-77 | keeps framing and indices; unregisters exactly whoever the index leads to, unless the session retries |
| SessionManagers.TCPSessionManager.SendMsg | ASIO_ALONE_STUDY/Net/TCPSessionManager.cpp:192-210 | keeps framing and indices; exactly the session, or exactly the registered sessions of the type, get the packet, and hand it over if connected and idle; a negative size ends the process exactly if there is one |
| SessionManagers.TCPSessionManager.SendMsgToUuid | ASIO_ALONE_STUDY/Net/TCPSessionManager.cpp:212-216 | keeps framing and indices; fails exactly above the array, otherwise exactly the audience of the index gets the packet |
| ServiceKernels.WalkIsOrderIndependent | ASIO_ALONE_STUDY/Net/ServiceKernel.cpp:41-50 | with unique addresses the walk finds the same entry in any order |
| ServiceKernels.AddKeepsUniqueIff | ASIO_ALONE_STUDY/Net/ServiceKernel.cpp:75-109 | adding, under any index, keeps addresses unique if and only if it makes no second entry; under a fresh one that is a start-up connection to a known address, or an address whose entry has index -1 |
| ServiceKernels.InvalidIndexIsNotFound | ASIO_ALONE_STUDY/Net/ServiceKernel.cpp:84-95 | an instance: the entry with index -1 is not found, and its address gets a second entry |
| ServiceKernels.AddRefines | ASIO_ALONE_STUDY/Net/ServiceKernel.cpp:75-109 | adding without a second entry updates the address-keyed map; under a fresh index and without an entry at -1, a known address keeps its session |
| ServiceKernels.RemoveRefines | ASIO_ALONE_STUDY/Net/ServiceKernel.cpp:111-124 | removing removes exactly the address of the entry |
| ServiceKernels.RepresentationDecidesLookup | ASIO_ALONE_STUDY/Net/ServiceKernel.cpp:41-50 | the walk finds what the address-keyed map holds, all but an entry with index -1 |
| ServiceKernels.ReAddMovesSid | ASIO_ALONE_STUDY/Net/ServiceKernel.cpp:96-108 | re-adding an address that is found keeps sessions, tells the session its new id, the new id finds the entry alone, the old id finds nothing if and only if it was its own |
| ServiceKernels.AlwaysUniqueIff | ASIO_ALONE_STUDY/Net/ServiceKernel.cpp:75-124 | over every run there is always one entry an address if and only if no step makes a second one |
| ServiceKernels.TableRefinesMap | ASIO_ALONE_STUDY/Net/ServiceKernel.cpp:75-124 | every run that makes no second entry, whatever indices are used, refines the address-keyed map |
| ServiceKernels.AddKeepsCache | BalanceServer/BalanceServer/BSKernel.cpp:61-77 | after adding the cache is complete if and only if it was, or a central session is reported, or the last central entry is replaced |
| ServiceKernels.AddKeepsSoundIff | ASIO_ALONE_STUDY/Net/ServiceKernel.cpp:87-95 | under any index, fresh or in use, adding keeps the cached session sound if and only if it does not displace its only entry |
| ServiceKernels.RemoveKeepsCache | BalanceServer/BalanceServer/BSKernel.cpp:63-69 | closing keeps it sound; exactly when it is complete afterwards |
| ServiceKernels.NextKeepsCache | BalanceServer/BalanceServer/BSKernel.cpp:61-77 | every step, under any index: complete, and sound, afterwards exactly unless the step breaks it, or exactly when the step heals it |
| ServiceKernels.CentralCache | BalanceServer/BalanceServer/BSKernel.cpp:61-77 | over every run, under any indices: the cached session is null or of the table if and only if every displacement was healed, and null only without central entries if and only if every loss was healed |
| ServiceKernels.CentralCacheWithFreshIndices | BalanceServer/BalanceServer/BSKernel.cpp:61-77 | with fresh indices it is always null or of the table, and non-null exactly when there is a central entry if and only if every loss was healed |
| ServiceKernels.OneCentralKeepsCache | BalanceServer/BalanceServer/BSKernel.cpp:61-77 | while the table never has two central entries, a null cache means that there is none |
| ServiceKernels.TwoCentralsLoseTheCache | BalanceServer/BalanceServer/BSKernel.cpp:63-69 | an instance of the loss: with two central entries, closing the cached one forgets the other |
| ServiceKernels.BSKernel.constructor | BalanceServer/BalanceServer/BSKernel.hpp:19-28 | an empty table and no central session |
| ServiceKernels.BSKernel.CheckConnectService | ASIO_ALONE_STUDY/Net/ServiceKernel.cpp:41-50 | some entry with the address, or -1 when there is none or its index is -1 |
| ServiceKernels.BSKernel.ConnectServiceSession | ASIO_ALONE_STUDY/Net/ServiceKernel.cpp:52-63 | the session of some entry with the id, or none exactly when there is none |
| ServiceKernels.BSKernel.UpdateServiceConnect | BalanceServer/BalanceServer/BSKernel.cpp:61-77 | a reported central session is cached, a closed one is not, and no other report changes the cache |
| ServiceKernels.BSKernel.Insert | ASIO_ALONE_STUDY/Net/ServiceKernel.cpp:90-94 | a new entry under any index; sound exactly unless it displaces the cached session |
| ServiceKernels.BSKernel.Reassign | ASIO_ALONE_STUDY/Net/ServiceKernel.cpp:99-107 | the entry found and its session get the new service id; the cache stays sound |
| ServiceKernels.BSKernel.AddNewConnect | ASIO_ALONE_STUDY/Net/ServiceKernel.cpp:75-109 | keeps the cache complete; sound exactly unless this displaces the cached session; addresses unique exactly unless this makes a second entry, and then the map is refined |
| ServiceKernels.BSKernel.RemoveServiceSession | ASIO_ALONE_STUDY/Net/ServiceKernel.cpp:111-124 | keeps the cache sound, complete exactly unless this loses it, and removes exactly the address from the address-keyed map |
| BalanceRouting.BalanceNextInv | BalanceServer/BalanceServer/BSKernel.cpp:61-106 | every event keeps requests traceable to their clients, the table and the cache among the sessions of the manager, and the cache sound while no index was given to two sessions |
| BalanceRouting.RunIsManagerRun | BalanceServer/BalanceServer/BSKernel.cpp:88-106 | every run of the balance server is a run of its session manager |
| BalanceRouting.RunIsKernelRun | BalanceServer/BalanceServer/BSKernel.cpp:79-86 | and a run of its service table, with the indices of the pool |
| BalanceRouting.ClientHoldsIff | ASIO_ALONE_STUDY/Net/TCPSessionManager.cpp:79-97 | over every run a client holds its index until somebody removes it or is given it |
| BalanceRouting.AbortsIffFatal | BalanceServer/BalanceServer/BSKernel.cpp:88-106 | the server ends if and only if some answer has a stamp above 10000, or a message of the range with a negative size would reach somebody |
| BalanceRouting.StampFindsClient | ASIO_ALONE_STUDY/Net/TCPSessionManager.cpp:94-97 | the stamp of a request never fails the assertion and finds its client if and only if that client holds its index |
| BalanceRouting.ReplyRouting | BalanceServer/BalanceServer/B2CSession.cpp:37-54 | in every run a reply goes exactly to whoever its stamp leads to, or to every registered client, who hand it over if connected and idle; exactly when it reaches the client that asked and no other |
| BalanceRouting.ReplyRoutingWhileCounterLasts | BalanceServer/BalanceServer/B2CSession.cpp:37-54 | with at most 10001 joins: the client that asked alone if it is registered, otherwise every registered client but not the one that asked |
| BalanceRouting.StaleReplyReachesNewOwner | ASIO_ALONE_STUDY/Net/Util/ObjectIndexPool.hpp:49-62 | whoever is given the index of a request gets the reply to it, alone |
| BalanceRouting.RequestRouting | BalanceServer/BalanceServer/ClientSession.cpp:20-31 | a request goes to the cached central session, which is one of the sessions and hands it over if connected and idle, and no other, stamped with its sender's index |
| BalanceRouting.PassesRangeOnly | BalanceServer/BalanceServer/ClientSession.cpp:24-27 | types 17000 to 17500 pass, no others do |
| BalanceRouting.CentralIsTypeFive | BalanceServer/BalanceServer/BSKernel.cpp:72-76 | a new connection to a service of type 5, and of no other, is the central session from then on |
| BalanceRouting.RequestsForwardedIff | BalanceServer/BalanceServer/BSKernel.cpp:61-100 | over every run, while no index was given to two sessions, the central session is one of the table, and requests are forwarded exactly when there is a central entry if and only if every loss was healed |
| BalanceRouting.DistinctWhileCounterLasts | ASIO_ALONE_STUDY/Net/Util/ObjectIndexPool.hpp:42-48 | with at most 10001 joins no index is given to two sessions |
| BalanceRouting.BalanceServer.constructor | BalanceServer/BalanceServer/BSKernel.hpp:19-28 | no sessions and an empty table |
| BalanceRouting.BalanceServer.AddNewConnect | BalanceServer/BalanceServer/BSKernel.cpp:79-86 | a step of the table with the session and index that the manager creates; keeps all invariants and a complete cache complete |
| BalanceRouting.BalanceServer.RemoveServiceSession | ASIO_ALONE_STUDY/Net/ServiceKernel.cpp:111-124 | keeps all invariants; a complete cache stays complete exactly unless this loses it |
| BalanceRouting.BalanceServer.TransToCS | BalanceServer/BalanceServer/BSKernel.cpp:88-100 | keeps all invariants; the cached central session, which is there, gets the packet and no one else does; nobody without one |
| BalanceRouting.BalanceServer.TransToClient | BalanceServer/BalanceServer/BSKernel.cpp:102-106 | keeps all invariants; exactly whoever the stamp leads to, or every registered client, gets the packet; fails exactly above the array |
| BalanceRouting.BalanceServer.HandleClientMsg | BalanceServer/BalanceServer/ClientSession.cpp:20-41 | keeps all invariants; a request of the range reaches the central session alone and is on record as its sender's; ends the server exactly if fatal |
| BalanceRouting.BalanceServer.HandleCentralMsg | BalanceServer/BalanceServer/B2CSession.cpp:37-54 | keeps all invariants; an answer to a request on record passes the assertion and reaches the client that asked alone if it holds its index; ends the server exactly if fatal |
| SimilarNumber.BinarySearch | ASIO_ALONE_STUDY/CPG/BetAlgorithm.cc:57-75 | the loop terminates within the array, on sorted arrays with the largest fitting index if and only if its first hit is the last occurrence |
| SimilarNumber.SearchFrom | ASIO_ALONE_STUDY/CPG/BetAlgorithm.cc:62-72 | from bounds outside of which the value does not occur, when the search is right |
| SimilarNumber.SearchCorrectIff | ASIO_ALONE_STUDY/CPG/BetAlgorithm.cc:57-75 | on every sorted array the answer is the largest fitting index if and only if the first hit is the last occurrence |
| SimilarNumber.RepeatedValueIsMissed | ASIO_ALONE_STUDY/CPG/BetAlgorithm.cc:57-75 | an array where a repeated value is missed |
| SimilarNumber.LinearSearch | ASIO_ALONE_STUDY/CPG/BetAlgorithm.cc:77-87 | the first step over the value on every array; on sorted ones right if and only if the smallest value is not asked for and repeated |
| SimilarNumber.SearchesAgree | ASIO_ALONE_STUDY/CPG/BetAlgorithm.cc:57-87 | on strictly increasing arrays both give the largest fitting index |

## Left out

- asio itself, threads, timers, clocks and data races: environment events and completions.
- Unknown fields: parsed and skipped as the wire format says, but not kept for serialization; groups end the parse.
- Unpacked elements of `connectTypes` (tag 24) are taken one by one; the continuation of the library routine across
  tag 26 is not modelled.
- MessageObjects.ServerRegisterRQ.MergePartialFromCodedStream: a message that fails to parse is left unspecified,
  because the partial state depends on library code.
- MessageObjects.UpdateMatchRQ.MergePartialFromCodedStream: the same.
- `ServerInfo` is a value inside its parent, with its cached size beside it; its own serializer, swap, arenas,
  descriptors and the array variants of the serializers repeat what is modelled.
- The other messages of both protocol files, which repeat the three chosen ones.
- Sizes of 2 GB and more, which the library refuses.
- Sessions inside the manager are values keyed by identity, not heap objects, so aliasing between a held pointer and
  the table is not captured; the heap form of one session is in `TCPSession.dfy`.
- `size_` of the index pool, `shrink`, `operator[]`, names, times of heart beats and logging: easy or without effect.
- What a process does after a failed assertion, or past the array when assertions are compiled out; and the header that
  is already in an output buffer when a negative size ends it.
- The accessors for 16 and 8 bits are modelled by their conversions, not as methods of the buffer class.
- Listeners, acceptors, `TCPServer`, `TCPClient`, robots, the central, gate, match and login servers: thin or easy.
- Time, file and random helpers of BetAlgorithm.cc, and its packet decoders, which have no encoder.
