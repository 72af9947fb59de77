# TCPStream: the logical-stream handle of the tcpsst transport

This project models `TCPStream`, the handle of one logical stream in Sirikata's TCP multiplexing transport
(tcpsst). Many logical streams share one `MultiplexedSocket`, which is a fixed pool of physical TCP
connections to a single peer. A stream builds length-prefixed packets and hands them to that socket. It maps its
three reliability modes onto two delivery flags. It guards shutdown with a status word shared by senders and
closers. It also creates its socket on connect and clones sibling streams that share that socket.

Modules:

- `Wire`: stream ids and the packet layout `[length prefix][serialized StreamID][first chunk][second chunk]`.
  The two serializers, `StreamID::serialize` and `vuint32::serialize`, are not part of this model. A `Codec` carries
  them as uninterpreted functions, together with their only known property: an upper bound on their output length.
- `Delivery`: the reliability switch of `send` and its inverse.
- `StatusWord`: the packed status word. Senders in flight sit in the low bits, and each closer adds one
  `SendStatusClosing` marker. `SendStatus` is the shared atomic integer, with one method per atomic operation.
- `CloseBarrier`: senders and closers interleaving their atomic steps on the word. It holds an invariant over
  every run and the two variants of the closer's result described under Findings.
- `Multiplexed`: a stand-in for `MultiplexedSocket`, whose code is not part of this model. It keeps admission
  budget, id allocation, the callback registry, and ghost logs of `sendBytes`, `closeStream` and `connect` calls.
- `Tcpsst`: the class `TCPStream`, with its fields `mSocket`, `mID`, `mSendStatus`, the socket count and the
  buffer size. Packet assembly goes into a fresh `array<bv8>`, filled by `memcpy`-like copies.

Calls on one `TCPStream` are modelled one after another, so no send is in flight between calls. The status word
is therefore 0 while a stream is open and `SendStatusClosing` once it is closed; `TCPStream.Valid()` states this.
The wait loop of `closeSendStatus` becomes that fact. Interleavings are the business of `CloseBarrier`: there a
closer's `Finish` step is enabled only while the loop's exit condition holds.

Parameters in place of what the model cannot see: the serializers (a `Codec`); the caller's callbacks (opaque
`Handlers` identities); the substream callback (an opaque number); and whether `sendBytes` accepts a request
(chosen freely on each call).

## Model

| member | source | states |
|---|---|---|
| `Wire.FrameLayout` | libcore/plugins/tcpsst/TCPStream.cpp:111-132 | the packet is the length prefix, the serialized id, the first chunk and the second chunk, in that order at offsets 0, h, h+i, h+i+\|first\|, and its length is h + i + \|first\| + \|second\| |
| `Wire.FrameIsLengthPrefixed` | libcore/plugins/tcpsst/TCPStream.cpp:111-118 | the packet is the encoding of the length of everything after the prefix, followed by exactly that; the prefix does not count itself |
| `Wire.FrameDependsOnPayloadOnly` | libcore/plugins/tcpsst/TCPStream.cpp:84-86 | splitting a payload into a first and second chunk produces the same bytes as sending it whole with an empty second chunk |
| `Wire.FrameSizeIsSendSize` | libcore/plugins/tcpsst/TCPStream.cpp:70-80 | the size canSend computes for n payload bytes is the length of the packet send builds from any chunks totalling n |
| `Wire.FrameSizeForEverySplit` | libcore/plugins/tcpsst/TCPStream.cpp:70-80 | the same, for all two-chunk splits of n bytes at once |
| `Wire.FrameOverheadBounded` | libcore/plugins/tcpsst/TCPStream.cpp:105-115 | with serializers that respect their maximum lengths, the packet overhead is at most MAX_SERIALIZED_LENGTH of StreamID plus that of vuint32 |
| `Delivery.Flags` | libcore/plugins/tcpsst/TCPStream.cpp:89-103 | the flags never claim unreliable delivery without unordered delivery |
| `Delivery.FlagsRoundTrip` | libcore/plugins/tcpsst/TCPStream.cpp:90-103 | the mode is recovered from its flags, so distinct modes give distinct flags |
| `Delivery.FlagsOntoSupported` | libcore/plugins/tcpsst/TCPStream.cpp:89-103 | a flag pair comes from some mode exactly when it is not unreliable-but-ordered |
| `StatusWord.Unpack` | libcore/plugins/tcpsst/TCPStream.cpp:135-136 | while fewer than SendStatusClosing senders are in flight and at most three markers are present, the masked closing bits and the sender count are both recovered from the word |
| `StatusWord.DrainedIffNoSenders` | libcore/plugins/tcpsst/TCPStream.cpp:158-162 | the wait loop exits exactly when a marker is present and no sender is in flight |
| `StatusWord.SenderAdmittedIffNoMarker` | libcore/plugins/tcpsst/TCPStream.cpp:135-138 | a sender's incremented word shows no closing bits exactly when no closer has added its marker |
| `StatusWord.SendStatus.constructor` | libcore/plugins/tcpsst/TCPStream.cpp:49 | a new atomic word holds its initial value |
| `StatusWord.SendStatus.Read` | libcore/plugins/tcpsst/TCPStream.cpp:152 | an atomic read returns the word |
| `StatusWord.SendStatus.Store` | libcore/plugins/tcpsst/TCPStream.cpp:201 | an atomic store sets the word |
| `StatusWord.SendStatus.Increment` | libcore/plugins/tcpsst/TCPStream.cpp:135 | a pre-increment raises the word by one and returns the new value |
| `StatusWord.SendStatus.Decrement` | libcore/plugins/tcpsst/TCPStream.cpp:140 | a pre-decrement lowers the word by one |
| `StatusWord.SendStatus.Add` | libcore/plugins/tcpsst/TCPStream.cpp:156 | `+=` adds to the word and returns the sum |
| `CloseBarrier.InitInv` | libcore/plugins/tcpsst/TCPStream.cpp:49 | a zero word with any number of idle closers satisfies the barrier invariant |
| `CloseBarrier.StepInv` | libcore/plugins/tcpsst/TCPStream.cpp:133-164 | every enabled sender or closer step keeps the barrier's invariants: at most three closers race past the guard, the word packs markers and senders in flight, no send is admitted after a close returned, and at most one closer holds the teardown |
| `CloseBarrier.RunInv` | libcore/plugins/tcpsst/TCPStream.cpp:133-164 | the invariant holds after any run of enabled steps |
| `CloseBarrier.SafeInEveryRun` | libcore/plugins/tcpsst/TCPStream.cpp:133-173 | in every interleaving of senders and any number of close() calls, of which at most three race past the guard at once, no send is admitted once a close has returned and at most one closer tears the stream down |
| `CloseBarrier.FinishOnlyWhenNoSender` | libcore/plugins/tcpsst/TCPStream.cpp:158-163 | a closer leaves its wait loop only when no sender is between its increment and decrement |
| `CloseBarrier.CorrectedOwnsTeardown` | libcore/plugins/tcpsst/TCPStream.cpp:151-157 | with the corrected result, in every run with any number of close() calls, once a close has returned exactly one closer is responsible for tearing the stream down |
| `CloseBarrier.SequentialCloses` | libcore/plugins/tcpsst/TCPStream.cpp:151-176 | four close() calls one after another, the last one the destructor's, form a run: all four return, only the first adds the marker, and exactly one tears the stream down, with either variant |
| `CloseBarrier.LostTeardown` | libcore/plugins/tcpsst/TCPStream.cpp:151-173 | a concrete run in which a send is in flight while close adds its marker: both closes return, and as written neither tears the stream down, while the corrected result makes the first do it |
| `Multiplexed.MultiplexedSocket.constructor` | libcore/plugins/tcpsst/TCPStream.cpp:200 | a constructed socket has no callbacks, has sent and closed nothing, and has issued only the primary id |
| `Multiplexed.MultiplexedSocket.SendBytes` | libcore/plugins/tcpsst/TCPStream.cpp:137 | every call of sendBytes is logged with its request, the buffer size it was given and whether it was accepted |
| `Multiplexed.MultiplexedSocket.GetNewID` | libcore/plugins/tcpsst/TCPStream.cpp:239 | getNewID returns an id never issued before on this socket and records it |
| `Multiplexed.MultiplexedSocket.AddCallbacks` | libcore/plugins/tcpsst/TCPStream.cpp:170 | addCallbacks installs the bundle for an id, and a null bundle removes the id's entry |
| `Multiplexed.MultiplexedSocket.CloseStream` | libcore/plugins/tcpsst/TCPStream.cpp:172 | every closeStream call is logged with its id |
| `Multiplexed.MultiplexedSocket.Connect` | libcore/plugins/tcpsst/TCPStream.cpp:207 | every connect or prepareConnect call is logged with its arguments |
| `Tcpsst.CopyInto` | libcore/plugins/tcpsst/TCPStream.cpp:121-131 | memcpy writes the source bytes at the offset and leaves the rest of the buffer as it was |
| `Tcpsst.AssemblePacket` | libcore/plugins/tcpsst/TCPStream.cpp:118-132 | the freshly allocated packet holds header, id, first chunk and second chunk back to back, with no byte before, between or after them |
| `Tcpsst.TCPStream.constructor` | libcore/plugins/tcpsst/TCPStream.cpp:188-193 | an unconnected stream with a fresh zero status word, the given socket count and buffer size, and `mIO` set |
| `Tcpsst.TCPStream.Shared` | libcore/plugins/tcpsst/TCPStream.cpp:49-53 | a stream on an existing socket with the given id, a fresh zero word, the socket's count narrowed to an unsigned char, and the first socket's buffer ceiling; `mIO` is left unset |
| `Tcpsst.TCPStream.CanSend` | libcore/plugins/tcpsst/TCPStream.cpp:70-80 | canSend(n) asks the socket about exactly the number of bytes send allocates for any n-byte payload |
| `Tcpsst.TCPStream.Send` | libcore/plugins/tcpsst/TCPStream.cpp:87-149 | sendBytes is called, once, with this stream's id, the mode's flags, the assembled packet and the stream's send buffer size, exactly when the stream is not closed; a closed stream's send returns false and sends nothing; the word ends where it started |
| `Tcpsst.TCPStream.SendOne` | libcore/plugins/tcpsst/TCPStream.cpp:84-86 | the one-chunk send is the two-chunk send with an empty second chunk |
| `Tcpsst.TCPStream.SendChunk` | libcore/plugins/tcpsst/TCPStream.cpp:81-83 | sending a chunk sends its current contents as a one-chunk payload |
| `Tcpsst.TCPStream.CloseSendStatus` | libcore/plugins/tcpsst/TCPStream.cpp:151-164 | the marker is added only when no closing bits were set, the result (the source's `== SendStatusClosing` test) is true exactly for the call that added it, and the word is drained on return |
| `Tcpsst.TCPStream.CloseAsWritten` | libcore/plugins/tcpsst/TCPStream.cpp:165-174 | close as written, where it is defined: only the closing call removes the id's callbacks and logs one closeStream; later calls change nothing, and the stream is left closed |
| `Tcpsst.TCPStream.Close` | libcore/plugins/tcpsst/TCPStream.cpp:165-174 | the same, also for a stream that was never connected, which has nothing to unregister |
| `Tcpsst.TCPStream.Destroy` | libcore/plugins/tcpsst/TCPStream.cpp:175-177 | the destructor closes the stream with the corrected `Close` of the second Findings row (as written it is that row's null dereference), so it tears down nothing the first close already did |
| `Tcpsst.TCPStream.Connect` | libcore/plugins/tcpsst/TCPStream.cpp:195-208 | needs `mIO` set; a fresh socket; the id is 1 and the word 0; the socket's only callbacks are this stream's, registered under id 1; one connect call with the stream's socket count and buffer size |
| `Tcpsst.TCPStream.PrepareOutboundConnection` | libcore/plugins/tcpsst/TCPStream.cpp:210-223 | the same, with one prepareConnect call in place of the connect |
| `Tcpsst.TCPStream.ConnectPrepared` | libcore/plugins/tcpsst/TCPStream.cpp:224-227 | one more connect call on the existing socket, with zero sockets and the stream's buffer size |
| `Tcpsst.TCPStream.Factory` | libcore/plugins/tcpsst/TCPStream.cpp:229-231 | needs `mIO` set; a fresh unconnected stream with this stream's settings and `mIO` set |
| `Tcpsst.TCPStream.CloneForSubstream` | libcore/plugins/tcpsst/TCPStream.cpp:232-244 | null exactly when there is no socket; otherwise (which needs `mIO` set) a fresh open stream on the same socket, with this stream's codec, socket count, buffer size and `mIO`, and an id the socket never issued before |
| `Tcpsst.TCPStream.Clone` | libcore/plugins/tcpsst/TCPStream.cpp:246-260 | the same as `CloneForSubstream`, settings included, with the given callbacks registered under the new id and no other registry change |
| `Tcpsst.UnconnectedCloseIsUndefined` | libcore/plugins/tcpsst/TCPStream.cpp:165-231 | every stream that factory builds has no socket and a clear word, so it does not meet the condition under which close as written is defined |

## Left out

- `readyRead` and `pauseSend` (TCPStream.cpp:55-69) post work onto the socket's I/O service. That is event-loop behaviour, and it is not modelled.
- `getRemoteEndpoint` and `getLocalEndpoint` (TCPStream.cpp:263-270) only forward to the socket, whose code is not part of this model.
- The options-driven constructor (TCPStream.cpp:178-186) reads an external options library. It is left out.
- The I/O service `mIO` is modelled only as whether it was set (`ioSet`). The shared-socket constructor (line 49) does not set it, yet `connect`, `prepareOutboundConnection`, `factory` and both `clone` overloads (lines 200, 215, 230, 236, 252) dereference it. TCPStream.hpp, where the member is declared, is not part of this model, so it is unknown whether it has a default. The model therefore requires `ioSet` of `Connect`, `PrepareOutboundConnection`, `Factory`, and of `CloneForSubstream` and `Clone` when a socket is present. What these operations do on a stream built by `Shared` is not modelled.
- Debug logging of a failed send (lines 144-146) and the freeing of unsent packets (line 143) are left out.
- The model's `Handlers` and `Callbacks` stand in for the callback function objects; their code is not modelled.
- `Tcpsst.TCPStream.Clone`: `TCPSetCallbacks` is not part of this model. The model assumes the functor registers the given callbacks, with the new stream's status word, under the new id.
- `Tcpsst.TCPStream.CloneForSubstream`: the call of the caller's clone callback is not modelled, so no callbacks are installed.
- `Tcpsst.TCPStream.constructor`: the default value of the `StreamID` member is not part of this model, so the contract says nothing about `id`.
- `Tcpsst.TCPStream.Send`: the model assumes `vuint32` receives the exact packet size. Truncation for packets of 4 GiB or more is not modelled, because vuint32's constructor is not part of this model.
- `Tcpsst.TCPStream.Send`: whether `sendBytes` accepts a request is left unconstrained. `MultiplexedSocket`'s admission and resource monitor are not part of this model.
- `Multiplexed.MultiplexedSocket.GetNewID`: the allocation scheme is a counter that starts above the primary id. The source's scheme is not part of this model; the contract promises only an id never handed out before.
- `Multiplexed.MultiplexedSocket.Connect`: the socket's `numSockets` and buffer ceiling are fields the caller reads. How a real socket sets them is not modelled.
- The wait loop of `closeSendStatus` (lines 158-162) is not written as a loop. In the sequential model it is a precondition: no send is in flight. In `CloseBarrier` it is the enabling condition of a closer's `Finish` step. Liveness of the wait is not modelled.
- `SendStatusClosing` is defined in TCPStream.hpp, which is not part of this model. The model takes 2^29. The masked test `w & (3 * SendStatusClosing)` becomes `(w / SendStatusClosing) % 4`, which agrees with the mask for any power-of-two constant and non-negative word.
- In `CloseBarrier`, a closer may sample a clear word only while fewer than three closers have added, or are about to add, a marker. This is the limit that the comment at line 136 places on the callers: at most three entities close the stream at once. What a fourth racing closer would do to the packed word is not modelled. Any number of close() calls that come after the marker is set are modelled.
- Real threads are modelled only as interleavings of the atomic steps in `CloseBarrier`. Memory ordering is not modelled.

## Findings

| source | as written | input that shows it | evidently intended | confidence | as-written member | corrected member |
|---|---|---|---|---|---|---|
| libcore/plugins/tcpsst/TCPStream.cpp:156 | `closeSendStatus` reports that it closed the stream only when the word after its add is exactly `SendStatusClosing`, so the closer that added the marker reports false whenever a send was in flight at that moment | a send has incremented the word (word 1) when `close()` reads it and adds the marker (word C+1); the send finishes (C); this close and any later one (the destructor's) return false, so the callbacks are never unregistered and `closeStream` is never sent | the closer whose add took the closing bits from none to one marker reports true, whatever senders are in flight | medium, not executed | `CloseBarrier.LostTeardown` | `CloseBarrier.CorrectedOwnsTeardown` |
| libcore/plugins/tcpsst/TCPStream.cpp:170 | `close()` calls `mSocket->addCallbacks` as soon as it is the closing call, without checking that `mSocket` is set | a stream built by the constructor at lines 188-193 (as `factory()` builds one) and destroyed without ever connecting: the destructor calls `close()`, the word is 0, so the close is the closing call and dereferences the null `mSocket` | a stream with no socket has nothing to unregister or broadcast, so `close()` skips that step | medium, not executed | `Tcpsst.UnconnectedCloseIsUndefined` | `Tcpsst.TCPStream.Close` |

`Tcpsst.TCPStream.CloseAsWritten` models the second row's code as written, under the condition it needs (`CloseIsDefined`).
`Tcpsst.TCPStream.CloseSendStatus` keeps the source's `== SendStatusClosing` test: in the sequential model no send is in
flight while a stream is closed, so the first row's discrepancy shows only in `CloseBarrier`.
