# A Dafny model of the road / bugfly game-server network core

road and its older sibling bugfly are a Go library for Pomelo-style game
servers. A client connection carries frames: 1 type byte, then a 3-byte
big-endian payload length, then the payload. The head is therefore 4 bytes.
Over those frames the library runs handshakes, heartbeats, and
request/notify/response/push messages between a client and handler methods
registered on components.

This project models the core of that library in Dafny, as pure functions
over immutable data. Loops that the proofs need are written as methods with
invariants. One module per source file covers:

- **The byte and frame layer.**
  - `Buffer`: the growable buffer with a save/restore offset.
  - `FrameCheck`: frame validation.
  - `EventCodec`: the gnet frame codec.
  - `AioConn` and `WsConn`: the TCP and WebSocket reassembly loops.
  - `WebReaderWriter`: snapshot and rollback.
  - `BufferPool`: the buffer pool.
  - `Stream`, `AcceptorTcpConn` and `EpollTcpConn`: the two blocking "read one frame" readers over a byte stream.
- **The pollers.**
  - `ChangeList`: the kqueue change list.
  - `Poller`: state shared by all four pollers.
  - `WsPollBsd`, `PollBsd`, `WsPollLinux` and `PollLinux`: the per-event steps of the four pollers.
- **The session.**
  - `SessionReceive`: the receive loop.
  - `SessionSend`: the heartbeat and send path.
  - `SessionProcess`: request processing.
  - `Session` and `SessionImpl`: the exactly-once close in both variants.
  - `Delegate`: callback delegates.
  - `Attachment`: the attachment store.
  - `SessionSender`: the shared sender.
- **The handler registry.**
  - `ComponentMethod`, `ComponentService` and `ComponentOptions`: method acceptance, service naming and options.
  - `ServiceHandler` and `ServiceUtil`: route registration and lookup.
  - `Util`: `Pcall` and `SerializeOrRaw`.
  - `Errors`: error wrapping.
- **Options and defaults.**
  - `App`: the bugfly App.
  - `CommonSessionArgs`: the shared handshake and heartbeat packets.
  - `AppOption`, `AcceptorOption` and `AcceptorArgs`: option setters and argument defaults.

The repository holds several historical variants of the same code. Each file
is modelled as it is written, and where two variants are meant to agree, a
lemma relates them:

- `EpollTcpConn.AgreesWithAcceptor`;
- `PollLinux.AgreesWhenRegistered`;
- `App.SameSharedPackets`.

Collaborators whose code is not part of this model are parameters:

- `codec.ParseHeader`;
- the packet and message codecs;
- `route.Decode` and `route.Short`;
- the serializer;
- deflate;
- the WebSocket frame reader (`wsutil.ReadData`, section 5.2 of RFC 6455);
- a handler's reflective call.

Channels are append-only sequences. A `select` whose outcome is
nondeterministic takes a choice parameter. I/O results are parameters, and
`loom.WaitClose` is a once-flag. A Go panic is an `Err` result carrying
`Wire.Panic` or the error that was panicked with.

## Model

| member | source | states |
|---|---|---|
| FrameCheck.CheckReceivedMsgBytes | epoll/tools.go:26-45 | fewer than 4 bytes gives ErrInvalidPomeloHeader; a ParseHeader error on the first 4 bytes is returned unchanged; a payload shorter or longer than the declared size gives the smaller/bigger-than-expected error; otherwise nil |
| FrameCheck.CheckPassesIffFrame | epoll/tools.go:37-44 | the check returns nil exactly when the head parses and the byte run is the head plus exactly the declared number of payload bytes |
| FrameCheck.CheckAcceptsHeadPlusPayload | epoll/tools.go:31-44 | any parseable 4-byte head followed by exactly its declared size of payload passes the check |
| EventCodec.ReadN | epoll/event_codec.go:27-40 | readN(0) consumes nothing; for 0 < n <= len it returns the first n bytes and leaves exactly the rest; a negative n or one beyond the buffer errors and consumes nothing |
| EventCodec.ReadUint24 | epoll/event_codec.go:90-96 | the value is below 2^24; big-endian is b0*65536 + b1*256 + b2, little-endian the reverse |
| EventCodec.ReadUint24InvertsBE24 | epoll/event_codec.go:90-96 | reading back the 3-byte big-endian encoding of a length below 2^24 gives that length |
| EventCodec.ByteOrdersAreReversed | epoll/event_codec.go:92-95 | little-endian reading of b equals big-endian reading of b with its 3 bytes reversed |
| EventCodec.GetUnadjustedFrameLength | epoll/event_codec.go:82-88 | fails with ErrUnexpectedEOF exactly when fewer than 3 bytes remain; otherwise returns the 3 length bytes, their big-endian value and the rest |
| EventCodec.Decode | epoll/event_codec.go:46-80 | fails (ErrUnexpectedEOF, no shift) exactly when fewer than 4 bytes or fewer than 4 + declared length bytes are available; otherwise returns the type byte, length bytes and payload, and shifts by their total length |
| EventCodec.Encode | epoll/event_codec.go:42-44 | the output is the input, byte for byte |
| EventCodec.DecodeFrameRoundTrip | epoll/event_codec.go:46-80 | decoding [t] ++ be24(len p) ++ p ++ rest returns exactly that frame and shifts 4 + len p bytes, for every payload below 2^24 |
| EventCodec.DecodeTruncatedFrameFails | epoll/event_codec.go:67-71 | a frame missing its last byte is not decoded: ErrUnexpectedEOF |
| Buffer.Reset | epoll/buffer.go:64-67 | afterwards the buffer is empty with offset 0 and keeps its capacity |
| Buffer.GrowIndex | epoll/buffer.go:83-116 | grow(n) keeps 0 <= off <= len <= cap, returns the index where n new bytes go with the old unread content just before it, bounds the new capacity by 2*cap + n + 64, and panics with ErrTooLarge when 2*cap + n exceeds maxInt (allocation failure: see Left out) |
| Buffer.Grow | epoll/buffer.go:123-129 | a negative n, and only a negative n, panics with the negative-count panic; otherwise the unread content is unchanged and at least n bytes of spare capacity exist |
| Buffer.Write | epoll/buffer.go:134-140 | the unread content becomes the old unread content followed by p, and the count returned is len(p) |
| Buffer.Read | epoll/buffer.go:146-160 | returns the first min(len(p), Len()) unread bytes and advances the offset by that count; an empty buffer answers EOF unless len(p) is 0, and does not reset its offset |
| Buffer.Next | epoll/buffer.go:166-175 | returns the first min(n, Len()) unread bytes, advances by exactly that many, and the bytes returned followed by the new unread content are the old unread content; a negative n panics |
| Buffer.Tidy | epoll/buffer.go:177-187 | the unread content and capacity are unchanged and the offset becomes 0 |
| Buffer.ApplyReadsKeepsStorage | epoll/buffer.go:146-175 | any sequence of Read and Next calls leaves the backing array and length alone and only moves the offset forward |
| Buffer.SaveReadRestore | epoll/buffer.go:189-195 | GetOffset, then any Reads and Nexts, then SetOffset with the saved value: the unread content is what it was at save time |
| Buffer.ReadSplitsContent | epoll/buffer.go:146-160 | the bytes Read hands back followed by what stays unread are the unread content before the call |
| BufferPool.NewBufferPool | epoll/buffer_pool.go:22-33 | a new pool is empty and keeps the bound it is given |
| BufferPool.SharedPool | epoll/buffer_pool.go:15 | the shared pool's bound is 32768 |
| BufferPool.Get | epoll/buffer_pool.go:35-38 | whatever the pool's choice, the result is a new zero buffer with the pool unchanged, or one pooled buffer taken out (the one picked, when the pick names one); a bounded, clean pool hands out a valid empty buffer within the bound and stays bounded and clean |
| BufferPool.Put | epoll/buffer_pool.go:40-44 | Put(nil) and Put of a buffer whose capacity exceeds the bound leave the pool unchanged; otherwise the buffer is added |
| BufferPool.PutKeepsBound | epoll/buffer_pool.go:40-44 | the pool never holds a buffer whose capacity exceeds the bound |
| BufferPool.PutThenGet | epoll/buffer_pool.go:35-44 | after a Put, Get hands out a new buffer, the buffer put, or one pooled before; a buffer within the bound can be handed out again, and a nil or oversized one never comes back unless it was already pooled |
| AioConn.Split | epoll/aio_conn.go:47-68 | the frames cut off followed by the remainder are the input; each frame is a well-formed head plus declared payload; the loop stops without error only on a remainder of at most 4 bytes or an incomplete frame, and a header error is reported with the frames before it kept |
| AioConn.Drain | epoll/aio_conn.go:47-68 | the loop pushes exactly the frames of Split over the unread bytes, in stream order, leaves exactly Split's remainder unread and returns Split's error |
| AioConn.SplitUnfold | epoll/aio_conn.go:57-67 | a complete frame at the front is emitted first and decoding continues on the bytes after it |
| AioConn.Rehome | epoll/aio_conn.go:70-79 | an empty remainder resets the buffer in place; otherwise, whichever buffer the pool hands out, the remainder ends up in a valid buffer with identical content, and the pool stays clean and within its bound |
| AioConn.OnReceiveData | epoll/aio_conn.go:40-82 | frames emitted ++ unread bytes afterwards == unread bytes before ++ buff; every frame is pushed as one data message in order; the pool keeps its bound; the only failure is the ErrTooLarge panic |
| AioConn.SplitOneFrame | epoll/aio_conn.go:50-68 | a single well-formed frame longer than 4 bytes is emitted whole and nothing stays buffered |
| AioConn.SplitProperPrefix | epoll/aio_conn.go:57-60 | a proper prefix of a frame emits nothing, stays buffered and is not an error |
| AioConn.EmptyPayloadFrameStaysBuffered | epoll/aio_conn.go:50 | a frame with an empty payload is exactly 4 bytes, so the loop never starts and it stays buffered |
| AioConn.SplitComplete | epoll/aio_conn.go:47-68 | the corrected loop, running while a whole head is buffered: the frames cut off followed by the remainder are the input, each frame is well formed, and a header error is reported on a remainder that holds a whole head |
| AioConn.SplitCompleteFrames | epoll/aio_conn.go:47-68 | under the corrected guard, bytes made of whole frames are cut into exactly those frames with nothing left buffered |
| AioConn.EmptyPayloadFrameEmitted | epoll/aio_conn.go:50 | under the corrected guard, a lone 4-byte frame such as a Heartbeat is emitted at once |
| AioConn.FeedEmptyChunks | epoll/aio_conn.go:40-82 | reads that bring no bytes emit nothing and leave nothing buffered |
| AioConn.FeedSplitFrame | epoll/aio_conn.go:40-82 | however a frame is split across successive reads, it is emitted exactly once, whole, and nothing is left buffered |
| WsConn.WsSplit | epoll/ws_conn.go:52-73 | the unread remainder is a suffix of the input; every data message pushed is a payload that passed the frame check; only the last message pushed can be an error, and it is exactly the error returned; a tidied exit leaves at most 4 bytes |
| WsConn.Decode | epoll/ws_conn.go:52-73 | the loop over the buffer pushes WsSplit's messages, leaves WsSplit's remainder unread (an EOF, an incomplete frame or a failed check rolls back to the start of that attempt) and, on a normal exit, tidies the input to offset 0 |
| WsConn.DecodeStep | epoll/ws_conn.go:53-71 | one pass over an input holding more than a head is exactly the step WsSplit takes: a returning pass leaves WsSplit's remainder and error, and a continuing pass pushes one frame and shortens the unread input |
| WsConn.OnReceiveData | epoll/ws_conn.go:48-76 | buff is appended to the input before any decoding: the messages pushed, the bytes left unread and the error returned are WsSplit's over the old unread input followed by buff |
| WsConn.IncompleteFrameKeepsInput | epoll/ws_conn.go:53-58 | when the reader reports EOF or an unexpected EOF, nothing is pushed, nothing is consumed and nil is returned |
| WsConn.FailedCheckKeepsInput | epoll/ws_conn.go:65-68 | a payload failing the frame check is not pushed, the offset is restored and nil is returned |
| WsConn.ReaderErrorPushedOnce | epoll/ws_conn.go:61-62 | any other reader error is pushed exactly once and returned |
| WsConn.PassingFrameIsPushed | epoll/ws_conn.go:65-71 | a complete frame that passes the frame check is pushed as a data message, and decoding continues with the bytes after it |
| WebReaderWriter.OnReceiveData | epoll/web_reader_writer.go:35-37 | the unread input becomes the old unread input followed by buff, and the backup is untouched |
| WebReaderWriter.ReaderSize | epoll/web_reader_writer.go:39-41 | equals the number of unread input bytes |
| WebReaderWriter.TakeSnapshot | epoll/web_reader_writer.go:43-46 | afterwards the backup holds exactly the unread input, and the input is unchanged |
| WebReaderWriter.Rollback | epoll/web_reader_writer.go:48-51 | afterwards the unread input is exactly the backup, and the backup is unchanged |
| WebReaderWriter.SnapshotRollback | epoll/web_reader_writer.go:43-51 | TakeSnapshot, then any reads and appends, then Rollback restores the unread input to its content at snapshot time, discarding bytes appended in between |
| Stream.ReadLimited | acceptor/tcp_conn.go:34-37 | reading through a LimitReader of n consumes min(n, available) bytes from the front; a short read is fine at end of stream, an error on a read error, a panic on a panicking read |
| AcceptorTcpConn.GetNextMessage | acceptor/tcp_conn.go:23-44 | every outcome: a read error before a whole head is returned as it is and a read panic propagates; a head ParseHeader rejects returns its error; a complete payload gives the head plus exactly the declared payload and advances the stream by that much; a short payload gives ErrReceivedMsgSmallerThanExpected at EOF, and otherwise the read's error or panic |
| AcceptorTcpConn.ReadsLeadingFrame | acceptor/tcp_conn.go:23-44 | a well-formed frame at the front of the stream, a 4-byte frame with an empty payload included, is returned whole and the stream continues right after it |
| AcceptorTcpConn.ReadsFramesInOrder | acceptor/tcp_conn.go:23-44 | repeated calls over a stream of well-formed frames, empty payloads included, followed by any bytes return those frames in order and leave exactly those bytes |
| EpollTcpConn.Recover | epoll/tcp_conn.go:41-51 | a bytes.ErrTooLarge panic becomes a returned error; every other panic is re-raised unchanged |
| EpollTcpConn.ReadBody | epoll/tcp_conn.go:65-75 | with the parsed head in the buffer: a complete payload after a whole head gives exactly head plus declared payload; a short head, or a short payload at EOF, gives ErrReceivedMsgSmallerThanExpected; a read error is returned and a read panic goes through the recover |
| EpollTcpConn.GetNextMessage | epoll/tcp_conn.go:40-76 | for any stream below MaxInt/2 bytes, every outcome: the acceptor's cases with panics passed through the ErrTooLarge recover, except that a short head ParseHeader accepts fails the total-length check; a success is the head plus the payload and advances the stream by its length; a panic that escapes is never ErrTooLarge |
| EpollTcpConn.AgreesWithAcceptor | epoll/tcp_conn.go:53-75 | for streams that cannot overflow the buffer, this reader returns what the acceptor's reader returns, seen through the ErrTooLarge recover |
| ChangeList.RemoveFirstAt | epoll/ws_poll_bsd.go:129-143 | with a match, the reference removal deletes exactly the first entry for the descriptor |
| ChangeList.RemoveFirstAbsent | epoll/ws_poll_bsd.go:139-145 | without a match the reference removal changes nothing |
| ChangeList.RemoveFirstCount | epoll/ws_poll_bsd.go:139-143 | a removal drops the length by one and takes out one copy of one matching entry and nothing else (as a multiset) |
| ChangeList.RemoveFirstKeepsOthers | epoll/ws_poll_bsd.go:139-143 | every other descriptor that had an entry still has one |
| ChangeList.Add | epoll/ws_poll_bsd.go:106-112 | exactly one read-interest entry for the descriptor is appended at the end, the earlier entries unchanged |
| ChangeList.Remove | epoll/ws_poll_bsd.go:129-143 | the search-and-shift loop finds a match iff one exists, and its result equals the reference removal (length one less on a match, unchanged otherwise) |
| ChangeList.TakeSnapshot | epoll/ws_poll_bsd.go:154-162 | as written: panics with a slice-bounds error exactly when more changes are pending than the buffer size the loop's array was made with (line 74); otherwise the snapshot is an exact copy of the change list |
| ChangeList.SnapshotOverflowExample | epoll/ws_poll_bsd.go:154-162 | a buffer size of one with two pending changes panics |
| ChangeList.TakeGrowingSnapshot | epoll/ws_poll_bsd.go:154-162 | corrected: the snapshot is an exact copy of the change list for every buffer size |
| Poller.ReadMessage | epoll/ws_poll_bsd.go:190-203 | a read error is pushed as that error; read data is pushed as data exactly when it is a well-formed frame, and otherwise as the frame check's error |
| Poller.Close | epoll/ws_poll_bsd.go:90-100 | the first Close empties the change list and the registry; a later Close changes nothing |
| Poller.CloseOnce | epoll/ws_poll_linux.go:69-75 | closing twice is closing once |
| WsPollBsd.Add | epoll/ws_poll_bsd.go:103-123 | appends one change for the descriptor at the end and registers the connection under it, nothing else changes, and the registry stays tracked by the change list (poll_bsd.go:95-115 is the same code) |
| WsPollBsd.Remove | epoll/ws_poll_bsd.go:125-152 | with a matching change, the first such change is deleted with order kept and the descriptor unregistered; without one, list and registry are unchanged; the connection is closed either way (poll_bsd.go:117-143 is the same code) |
| WsPollBsd.EventMessage | epoll/ws_poll_bsd.go:183-203 | an EOF flag gives io.EOF; otherwise the read's message |
| WsPollBsd.Step | epoll/ws_poll_bsd.go:176-204 | an event for an unregistered descriptor is skipped; otherwise exactly one message is pushed, and every error case also removes the connection |
| WsPollBsd.HandleEvents | epoll/ws_poll_bsd.go:176-204 | at most one message is pushed per event, earlier deliveries are kept, and the registry invariant is preserved |
| WsPollBsd.PollData | epoll/ws_poll_bsd.go:164-205 | as written: with more changes pending than the buffer size, pollData panics in takeSnapshot and handles nothing; otherwise kevent gets exactly the change list, at most one message is pushed per event, earlier deliveries are kept and the registry invariant is preserved |
| WsPollBsd.PollDataGrowing | epoll/ws_poll_bsd.go:164-205 | corrected: kevent gets exactly the change list for every buffer size; at most one message is pushed per event, earlier deliveries are kept and the registry invariant is preserved |
| PollBsd.BufferSize | epoll/poll_bsd.go:36-39 | a non-positive buffer size becomes 128; a positive one is kept |
| PollBsd.Step | epoll/poll_bsd.go:159-184 | an event for an unregistered descriptor is the type-assertion panic; otherwise exactly one message is pushed and error cases remove the connection |
| PollBsd.PollData | epoll/poll_bsd.go:145-185 | without a panic, exactly one message is pushed per event; a panic happens only with at least one event |
| WsPollLinux.Add | epoll/ws_poll_linux.go:77-94 | a failed OS registration returns nil and registers nothing; otherwise the connection is registered under its descriptor |
| WsPollLinux.Remove | epoll/ws_poll_linux.go:96-101 | the registry entry for the descriptor is deleted and the connection closed |
| WsPollLinux.Step | epoll/ws_poll_linux.go:114-140 | unregistered descriptors are skipped; a hang-up removes the connection and pushes nothing; a read error or failed check pushes one error message and removes; valid data pushes one data message and keeps the registration |
| WsPollLinux.PollDataShrinks | epoll/ws_poll_linux.go:103-141 | handling events never registers a connection, only delivers to registered ones, and keeps the registry keyed by descriptor |
| PollLinux.Step | epoll/poll_linux.go:114-134 | an event for an unregistered descriptor is the type-assertion panic; otherwise hang-up, error and data are handled as in the WebSocket poller |
| PollLinux.AgreesWhenRegistered | epoll/poll_linux.go:101-135 | whenever this poller does not panic it produces what the WebSocket poller produces |
| PollLinux.EventAfterRemovalPanics | epoll/poll_linux.go:114-118 | a second event for a connection a hang-up removed earlier in the same batch panics |
| SessionReceive.OnReceivedDataPacket | session.receive.go:90-108 | succeeds exactly when the message and then its route decode, returning both; a message decode failure is returned as is |
| SessionReceive.OnReceivedPacket | session.receive.go:65-88 | writes the handshake response iff the packet is a Handshake, with the write's error; yields an item iff it is a Data packet that decodes; Heartbeat, HandshakeAck and unknown types give no item and no error |
| SessionReceive.ProcessPackets | session.receive.go:44-61 | packets of one read only append to the processing queue and the write log, at most one item per packet |
| SessionReceive.ReceiveStep | session.receive.go:21-63 | a read or packet-decode error exits without change; a read with zero packets continues unchanged; otherwise the packets are processed and lastAt refreshed |
| SessionReceive.FailureStopsTheRest | session.receive.go:44-51 | once a packet fails, the packets after it in the same read are never handled |
| SessionReceive.ProcessInOrder | session.receive.go:44-61 | handling ps ++ more is handling ps and then more from where ps left off |
| SessionReceive.OnePacket | session.receive.go:52-60 | a successfully handled Data packet is forwarded as its item; other packets forward nothing; lastAt is refreshed |
| SessionSend.Deadline | session.send.go:30 | the deadline second d satisfies d*10^9 <= now - 2*timeout < (d+1)*10^9 (Unix seconds rounded down) |
| SessionSend.TimedOutMeans | session.send.go:28-33 | a tick times out exactly when (lastAt+1)*10^9 + 2*timeout <= now, in nanoseconds |
| SessionSend.OnSendEvent | session.send.go:22-48 | a tick writes the heartbeat packet iff not timed out; a dequeued item is written; goSend returns (closing the session) iff nothing was written or the write failed |
| SessionSend.GoSend | session.send.go:22-48 | the loop writes at most one packet per event it consumes, and consumes every event unless it returned |
| SessionSend.GoSendStart | session.send.go:22-26 | a heartbeat timeout that is not positive makes goSend panic before any event is handled; a positive one runs the select loop |
| SessionSend.ItemsWrittenInOrder | session.send.go:39-43 | queued items whose writes succeed are written in queue order, exactly |
| SessionSend.ExitStopsWriting | session.send.go:22-48 | after a timeout or a failed write no later event writes anything |
| SessionSend.PacketEncodeMessage | session.send.go:108-121 | the queued bytes are the Data packet wrapping the encoded message; an encode failure of either layer is returned |
| SessionSend.SendMessage | session.send.go:78-106 | a message that encodes is queued with its pending-error flag unless the close signal wins the select; when both cases are ready Go picks at random, so a send on a closed session may still be queued; an encode failure queues nothing |
| SessionSend.SendMayError | session.send.go:56-76 | with an error, the Err flag is set and the payload is the serialized error, and nothing is queued if that serialization fails; without one, the message goes as given |
| SessionSend.PushPayload | session.send.go:50-54 | the Push payload is the raw bytes or the serializer's output, and empty when serialization fails |
| SessionSend.SentMessageDecodes | session.send.go:78-121 | with codecs that round-trip, what sendMessage queues decodes to one Data packet carrying exactly the message |
| SessionSend.PushDecodes | session.send.go:50-54 | a queued Push reaches the peer as a Push message with the given route and the raw-or-serialized payload and no error flag |
| SessionSend.ErrorSendDecodes | session.send.go:56-67 | a message sent with an error reaches the peer flagged as an error and carrying the serialized error |
| SessionProcess.UnmarshalHandlerArg | session.process.go:87-102 | raw handlers get the payload bytes unchanged; handlers without an argument type get no argument; others get the serializer's value of the argument type, or its error |
| SessionProcess.ArgumentMatchesSignature | session.process.go:87-102 | a handler built from an accepted method receives an argument iff the method declares a third parameter, and the bytes themselves when that parameter is []byte |
| SessionProcess.Prepare | session.process.go:57-72 | a failed lookup is returned before anything else; on success, the handler found and its decoded argument |
| SessionProcess.Finish | session.process.go:74-84 | a handler error is returned; otherwise the result is serialized, []byte passing through |
| SessionProcess.ProcessReceivedImplAsWritten | session.process.go:56-85 | as written: a failed lookup or argument decode is returned; a handler error is returned; a nil result with a nil error gives ErrReplyShouldBeNotNull; a non-nil result is serialized ([]byte passes raw); a handler with no results and a handler that panicked both give marshal(nil) |
| SessionProcess.ProcessReceivedImpl | session.process.go:56-85 | the corrected definition, built on a Pcall that reports a recovered panic: the same outcomes as written, except that a panicking handler gives the HandlerPanic error |
| SessionProcess.ShortCircuitsBeforeCall | session.process.go:57-72 | when lookup or argument decoding fails, that error is the result and the handler is never called |
| SessionProcess.ImplDiffersOnlyOnPanic | session.process.go:74-84 | the corrected and the written pipelines agree whenever the handler does not panic |
| SessionProcess.ProcessReceived | session.process.go:32-54 | a Notify never gets an answer; a request gets one answer with its id: Err=false and the payload on success, Err=true and the serialized error on failure, and none when the error cannot be serialized |
| SessionProcess.PanicAnsweredAsSuccess | session.process.go:47-51 | as written, a request whose handler panics is answered with Err=false and marshal(nil) as payload |
| SessionProcess.SuccessMeansHandlerReturned | session.process.go:47-51 | with the corrected Pcall, a success answer means the handler was found, its argument decoded and it did not panic; a handler with two results returned a non-nil result and no error, and the payload is that result serialized (raw when []byte); a handler with no results is answered with marshal(nil) |
| SessionProcess.PanicAnsweredAsError | session.process.go:35-46 | with the corrected Pcall, a panicking request handler is answered with Err=true and the serialized panic error |
| Session.NextId | session.go:24-26 | each new id is greater than the counter's previous value |
| Session.IdsIncrease | session.go:81 | ids issued one after another strictly increase and all exceed the starting counter |
| Session.OnClosed | session.go:123-131 | OnClosed(nil) is ignored; other callbacks are appended in registration order |
| Session.Close | session.go:95-100 | the first Close closes the connection and then runs the callbacks; a later Close changes nothing |
| Session.CloseOnce | session.go:95-100 | closing twice is closing once, and the first close starts with closing the connection |
| Session.CloseRunsRegisteredCallbacks | session.go:102-121 | close runs the callbacks registered before it, in registration order, and stops short of the end iff one of them panics |
| SessionImpl.Close | session_impl.go:53-60 | the first Close returns the connection's close error, empties the attachment and logs close-connection, dispose, then the onClosed calls; a later Close returns nil and changes nothing |
| SessionImpl.CloseTearsDownOnce | session_impl.go:52-60 | after the first Close, further Closes tear nothing down; the attachment reads empty for every key |
| SessionImpl.CloseOrder | session_impl.go:53-59 | the connection is closed before the attachment is disposed, and both before any onClosed handler runs |
| SessionImpl.RegistrationsAreSeparate | session_impl.go:63-70 | OnHandShaken and OnClosed never touch each other's delegate, and a handler registered with OnClosed runs on the first Close |
| SessionSender.OnWriteBytes | session_sender.go:52-61 | a session whose close signal has fired is not written; otherwise the bytes are written, a failed write closes the session and a successful one leaves it open |
| SessionSender.GoLoop | session_sender.go:43-50 | the loop never adds or removes sessions |
| SessionSender.ClosedSessionNotWritten | session_sender.go:53-55 | a closed session receives no bytes however many items are queued for it |
| SessionSender.WritesInQueueOrder | session_sender.go:44-48 | while writes succeed, each open session receives exactly its queued bytes in queue order and stays open |
| SessionSender.FailedWriteCloses | session_sender.go:56-59 | a failed write closes the session and nothing queued after it for that session is written |
| Delegate.AddAllAppendsNonNil | delegate.go:20-26 | registering a list of handlers appends exactly its non-nil entries, in order; Add(nil) is a no-op |
| Delegate.RunFrom | delegate.go:28-47 | calls the snapshot's handlers in order, stops right after the first panic, and only extends the live list |
| Delegate.InvokeCallsSnapshot | delegate.go:28-47 | Invoke calls exactly the handlers present on entry, in order, up to and including the first that panics; handlers added meanwhile are kept but not called |
| Delegate.QuietHandlersKeepList | delegate.go:28-47 | when no handler registers anything, Invoke leaves the list unchanged |
| Attachment.Stored | attachment.go:18-20 | the table after Store of a hashable key: the key's canonical form maps to the value, every other entry stays, and a NaN key changes nothing a Load could see |
| Attachment.Put | attachment.go:18-20 | a []byte key panics with "hash of unhashable type"; any other key gives the stored table |
| Attachment.Get2 | attachment.go:120-122 | a []byte key panics; otherwise it reports whether a key equal under Go's == is present and returns its value, or nil |
| Attachment.Get1 | attachment.go:112-118 | a []byte key panics; otherwise the stored value, or nil for a missing key |
| Attachment.Dispose | attachment.go:124-129 | afterwards Get2 reports absent for every hashable key |
| Attachment.PutThenGet | attachment.go:18-20 | a []byte key panics in Put and in Get2; otherwise Get2 of any key after Put finds the value exactly when the key equals the one put under Go's ==, and reads as before for every other key |
| Attachment.FloatKeys | attachment.go:18-20 | -0.0 and +0.0 are the same key, and a NaN key is never equal to itself, so a Put under it changes nothing and Get2 never finds it |
| Attachment.BytesKeyPanics | attachment.go:18-122 | a []byte key panics in Put, Get1, Get2 and every typed getter |
| Attachment.TypedGetterReturnsPut | attachment.go:22-110 | every typed getter returns what was put when the dynamic type matches exactly, and the zero value under a NaN key |
| Attachment.NoConversion | attachment.go:32-40 | a value of any other dynamic type reads as the getter's zero value: no numeric conversion |
| Attachment.MissingKeyIsZero | attachment.go:92-118 | a missing hashable key reads as nil from Get1, zero from the numeric getters, false from Bool and "" from String |
| Util.PcallAsWritten | util/util.go:18-39 | a handler error is returned with no result; a nil error with a result returns it; a nil result gives ErrReplyShouldBeNotNull; no outputs and a recovered panic both give (nil, nil) |
| Util.Pcall | util/util.go:18-39 | as PcallAsWritten, except that a recovered panic is reported as an error |
| Util.PcallDiffersOnlyOnPanic | util/util.go:19-23 | the corrected and the written Pcall differ exactly on a panicking handler |
| Util.SerializeOrRaw | util/util.go:41-53 | []byte is returned unchanged; any other value gets the serializer's output or error |
| Util.RawBytesIgnoreSerializer | util/util.go:43-45 | raw bytes never reach the serializer: any two serializers agree on them |
| Errors.CheckCreateError | error.go:21-32 | the result is always a road *Error; an *Error is returned as is; anything else is wrapped with code "unknown" and the original message |
| Errors.CheckCreateErrorIdempotent | error.go:21-32 | wrapping an already wrapped error changes nothing |
| ComponentMethod.AcceptedShapes | component/method.go:29-60 | every promised shape is accepted: an exported method taking a receiver and any type implementing context.Context (the interface itself, a named type, or a pointer whose method set implements it), optionally []byte or any type of pointer kind (named pointer types included), and returning nothing or []byte or a pointer-kind type plus an error |
| ComponentMethod.RefusedShapes | component/method.go:32-57 | an unexported method, fewer than two or more than three parameters, a third parameter whose kind is not pointer and that is not []byte, one or more than two results, a second result that is not error, and a first result that is neither []byte nor of pointer kind are each refused; named pointer types have pointer kind and are not refused |
| ComponentMethod.ContextMustComeSecond | component/method.go:42-44 | a method whose second input does not implement context.Context is refused; pointer types whose method set implements it do implement it |
| ComponentMethod.PointerContextAccepted | component/method.go:42-55 | a method taking a pointer that implements context.Context and pointer arguments and results is accepted; the same method whose pointer context does not implement it is refused |
| ComponentMethod.NewHandler | component/method.go:69-90 | the handler is raw iff its third input is []byte; its argument type is the third input when there is one; it is Notify iff the method has no outputs and Request otherwise |
| ComponentMethod.SuitableDomain | component/method.go:62-96 | a key is in the table exactly when some accepted method is installed under it |
| ComponentMethod.SuitableWinner | component/method.go:62-96 | the handler under a key is the one built from the last accepted method installed under it |
| ComponentMethod.SuitableHandlerMethods | component/method.go:62-96 | the loop's table has exactly the keys nameFunc(name) (or name) of accepted methods, each mapped to the handler of the last such method |
| ComponentOptions.Apply | component/options.go:18-30 | WithName sets only the name; WithNameFunc sets only the name function |
| ComponentOptions.ApplyAllSnoc | component/service.go:45-48 | running the setters in order is running all but the last, then the last |
| ComponentOptions.LaterSettersWin | component/service.go:45-48 | each field ends up with the value of the last setter of that field, or its initial value when there is none |
| ComponentService.NewService | component/service.go:38-56 | the name is the last non-empty option name, or else the receiver's type name; the name function is the last one set; no handlers yet |
| ComponentService.Bind | component/service.go:92-94 | every handler is bound to the service's receiver, with the same keys |
| ComponentService.EmptyIffNoHandlerMethod | component/service.go:78-80 | the suitable table is empty exactly when no method is accepted |
| ComponentService.ExtractHandler | component/service.go:67-97 | an unnamed type, an unexported type name, and a type without handler methods fail with their messages (the last with a pointer hint iff the pointer type has handlers); success means handlers are the suitable table bound to the receiver |
| ServiceHandler.RouteOfInjective | service/handler.go:45-48 | two handlers of one service never share a route |
| ServiceHandler.ServiceRoutes | service/handler.go:45-48 | a service contributes exactly the routes Name.handler, each to its handler |
| ServiceHandler.Register | service/handler.go:32-52 | a duplicate name or a failed ExtractHandler returns an error and changes nothing; on success the service is recorded under its name, its routes are added, and no earlier route is removed |
| ServiceUtil.GetHandler | service/util.go:16-24 | finds the handler stored under the route's short form, or fails with "handler not found" naming the route |
| ServiceUtil.SameShortSameHandler | service/util.go:17 | the result depends only on the route's short form |
| ServiceUtil.InstalledHasHandler | component/service.go:78-80 | a method installed under a key means the type has a handler method |
| ServiceUtil.RegisterThenLookup | service/util.go:16-24 | after a successful Register, looking up Name.handler finds that handler bound to the component's receiver, and no route was lost |
| App.CheckAppArgs | app.go:63-67 | a zero heartbeat timeout becomes 10 s; any nonzero value, negative ones included, is kept |
| App.NegativeTimeoutKept | app.go:63-67 | checkAppArgs keeps a negative timeout, and every session's goSend then panics making its ticker, before writing anything |
| App.OnNewSession | app.go:95-118 | the corrected order, with the remover registered before the session can close: the new session, with a fresh id above the counter, is stored under it and nothing else changes; the connected callbacks run in registration order up to and including the first that panics, whose panic is swallowed |
| App.OnNewSessionAsWritten | app.go:95-103 | as written, the receive loop already runs when the remover is registered: without an early close the result is OnNewSession's, and with one the stored session is already shut, with the remover as its only callback and the connection closed once |
| App.EarlyCloseLeaks | app.go:95-103 | a session closed before its remover is registered is stored shut, breaks the table invariant, and closing it again leaves it in the table |
| App.NewSessionKeepsValid | app.go:95-103 | under the corrected order, a new session never replaces a stored one, and every stored session stays open under its own id with the remover as its first close callback |
| App.OnSessionConnected | app.go:120-130 | nil is ignored; other callbacks are appended |
| App.ConnectedCallbackRuns | app.go:105-117 | a callback registered after quiet ones runs for every later session, after them |
| App.OnSessionClosedRegistered | app.go:101-103 | registering a close callback on a stored session keeps the table's keys |
| App.SessionClosed | app.go:101-103 | closing a stored session never adds table entries |
| App.ClosedSessionIsRemoved | app.go:98-103 | in a table kept by the corrected order, whatever close callbacks were added later, closing a stored session removes exactly it from the table |
| App.HeartbeatDataEncode | app.go:132-167 | a marshal failure or a heartbeat encode failure is a panic |
| App.SameSharedPackets | app.go:132-167 | the App builds exactly the handshake and heartbeat packets of encodeHandshakeData and encodeHeartbeatData, succeeding exactly when both do |
| CommonSessionArgs.ChoosePayload | common_session_args.go:70-79 | panics exactly when compression is on and deflate fails; the payload is never longer than the JSON |
| CommonSessionArgs.PayloadIsSmallerForm | common_session_args.go:65-79 | without compression the payload is the JSON; with it, the deflated form is used exactly when it is strictly shorter |
| CommonSessionArgs.EncodeHandshakeData | common_session_args.go:55-87 | a marshal failure is a panic |
| CommonSessionArgs.SharedPacketsDecode | common_session_args.go:46-87 | with codecs that round-trip, the heartbeat decodes to one empty Heartbeat packet and the handshake reply to one Handshake packet carrying the chosen payload, no longer than the JSON |
| AppOption.SetterTouchesOwnField | app_option.go:15-70 | each setter changes only its own field; WithHeartbeatTimeout and the three size setters ignore values <= 0, WithLogger ignores nil, WithDataCompression always sets |
| AppOption.SetterIdempotent | app_option.go:26-70 | applying a setter twice is applying it once |
| AppOption.SettersCommute | app_option.go:15-70 | setters of different fields can be applied in either order |
| AcceptorOption.SetterTouchesOwnField | epoll/acceptor_option.go:10-40 | each setter sets its own field only when the size is > 0 and leaves the other two fields unchanged |
| AcceptorOption.SettersKeepPositive | epoll/acceptor_option.go:18-40 | no sequence of setters makes a positive size non-positive |
| AcceptorArgs.CheckAcceptorArgs | epoll/acceptor_args.go:16-28 | non-positive lengths become 16, 8 and 1024 respectively; positive ones are kept |
| AcceptorArgs.CheckedArgsArePositive | epoll/acceptor_args.go:16-28 | afterwards every length is positive, all-positive arguments are unchanged, and checking again changes nothing |

## Left out

- Sockets, kqueue/epoll system calls, EINTR retries, gaio/gnet/gobwas plumbing and `socketFD` reflection: these are I/O. Their outcomes (registration success, read results, write failures, close errors) are parameters.
- Goroutines, mutexes, `loom` task channels and `select` scheduling: each loop body is one step function, and a channel is an append-only sequence.
- `codec.ParseHeader`, the packet and message codecs, `route.Decode` and `route.Short`, the JSON serializer, deflate and `wsutil.ReadData`: they are not part of this model and are function parameters. `Reads` and `RoundTrips` state the assumptions the lemmas make about them.
- The reflective handler call (`method.Func.Call`, `reflect.New`): a parameter returning no outputs, a result/error pair, or a panic.
- `responseMID`, whose code is not shown: `SessionProcess.ProcessReceived` returns the answer it is asked to send.
- `loom.WaitClose.Close`, which is not shown: a later close returning nil is an assumption.
- `WebReaderWriter.Read` and the buffer move-back helper it calls (`checkMoveBackBufferData`, not shown).
- The `Float32`/`Float64` attachment getters work on bit patterns, and the handshake's heartbeat `Seconds()` float is left to the abstract marshal function. Float keys follow Go's ==: NaN patterns and the two zeros are recognised from the bits.
- Attachment.Put: an `error` used as a key is compared by its code and text, while Go compares the pointers behind it, so two distinct errors with the same text are one key here and two in Go. An entry stored under a NaN key is not kept, because no Load can find it; Go keeps it in the map until the process ends, and dispose cannot delete it either.
- Attachment.Get2: the same comparison of `error` keys by content as in Attachment.Put.
- App.NewSessionKeepsValid: holds for the corrected order of onNewSession. As written, the session can close before its remover is registered (App.OnNewSessionAsWritten), and the table then keeps a shut session for good; see Findings.
- App.ClosedSessionIsRemoved: holds for sessions stored in the corrected order. A session that closed before its remover was registered is never removed (App.EarlyCloseLeaks); see Findings.
- The route dictionary in the handshake data (`message.GetDictionary`): not part of this model.
- Logging, including the double `recover` in `onNewSession`, which only decides whether a message is logged.
- The App's `goLoop`, its `Register` wrapper, `NewApp` and `newCommonSessionArgs`: they only wire modelled operations together.
- Rate limiting: only its option setter exists in the shown code, and it is modelled.
- BufferPool.Get: sync.Pool dropping pooled buffers at garbage collection is not a separate step; a dropped buffer is one that no pick names.
- Buffer.GrowIndex: does not model a failed allocation inside makeSlice (epoll/buffer.go:197-207), which also panics with ErrTooLarge; memory exhaustion is outside this model, so an error here only means that 2*cap + n would overflow.
- Buffer.Grow: the same; an ErrTooLarge from a failed allocation is not modelled.
- Buffer.Write: the same; an ErrTooLarge from a failed allocation is not modelled.
- Buffer: the model follows the copy in epoll/buffer.go. AioConn, BufferPool and the readers in epoll/tcp_conn.go and epoll/web_reader_writer.go use the standard library's bytes.Buffer, which differs in two ways: its Read on an empty buffer also resets it, and its growth chooses other capacities. The facts those modules use (the unread content after Write and Read, ErrTooLarge as the only Write panic) hold for both.
- ComponentService.ExtractHandler: a type or method name counts as exported when its first character is an ASCII capital. Go's unicode.IsUpper also accepts other upper-case letters (É, Σ), which this model refuses.
- SessionSend.GoSendStart: Later.NewTicker is not part of this model; it is taken to pass its interval to time.NewTicker, which panics for an interval that is not positive.
- WsPollBsd.PollData: the buffer size is a natural number. A negative pollBufferSize already panics at goLoop's make, which is not modelled, and CheckAcceptorArgs never passes one.
- Session.IdsIncrease: does not model the wrap-around of the 64-bit id counter after 2^63 sessions.
- SessionSend.Deadline: does not model int64 overflow of `now - 2*timeout` for timeouts near the int64 range.
- SessionSend.GoSend: describes the select loop once the ticker exists; a timeout that is not positive panics before that, as SessionSend.GoSendStart states. The model stops consuming events after an exit instead of modelling the goroutine's return.
- App.HeartbeatDataEncode: its ensures only state the failure cases; the success case is characterized by App.SameSharedPackets and CommonSessionArgs.SharedPacketsDecode.
- CommonSessionArgs.EncodeHandshakeData: its ensures only state the marshal failure; its encoding is stated by CommonSessionArgs.SharedPacketsDecode.
- Register route collisions: service "a.b" with handler "c" and service "a" with handler "b.c" share route "a.b.c", so the later registration overwrites that route's handler. The model keeps this behaviour (route keys are never removed), and `ServiceHandler.RouteOfInjective` holds only within one service.
- epoll/ws_conn.go: a frame that keeps failing the frame check leaves its bytes unread forever, and later data behind it is never decoded. The model reproduces this rather than claiming what was intended.

## Findings

| source | as written | input that shows it | evidently intended | confidence | as-written member | corrected member |
|---|---|---|---|---|---|---|
| util/util.go:19-23 | the deferred recover in Pcall only logs, so a panicking handler leaves both results nil and processReceived (session.process.go:47-51) answers a Request with Err=false and marshal(nil) as payload | a Request whose handler panics, with a serializer that marshals nil | a recovered panic is reported as an error, so the client gets an error answer | not executed; medium | SessionProcess.PanicAnsweredAsSuccess | SessionProcess.PanicAnsweredAsError |
| epoll/ws_poll_bsd.go:154-162 | goLoop makes the snapshot array once with length bufferSize (line 74), and takeSnapshot reslices it to the length of the change list, which panics once more changes are pending than that | pollBufferSize 1 and two connections added before the next pollData | the snapshot grows to hold every pending change, as poll_bsd.go passes its whole change list to kevent | not executed; medium | ChangeList.SnapshotOverflowExample | WsPollBsd.PollDataGrowing |
| app.go:95-103 | NewSession starts goReceive (session.go:89) before onNewSession registers the remover, and goReceive's deferred Close (session.receive.go:22) runs as soon as the first read fails; the callbacks cloned then are empty, so the remover never runs and the closed session stays in the table | a connection whose first GetNextMessage returns an error before line 101 runs | every closed session is removed from the table, so the remover is registered before the session's goroutines start | not executed; medium | App.EarlyCloseLeaks | App.NewSessionKeepsValid |
| epoll/aio_conn.go:50 | the decode loop runs only while more than headLength bytes are buffered, so a frame with an empty payload (4 bytes, such as a Heartbeat) stays buffered until more bytes arrive | a single 4-byte Heartbeat frame and no further data | every complete frame is pushed, so the loop runs while a whole head is buffered | not executed; medium | AioConn.EmptyPayloadFrameStaysBuffered | AioConn.SplitCompleteFrames |
