/**
 * TCPStream, the handle of one logical stream multiplexed over a
 * MultiplexedSocket: packet assembly in send, the send/close barrier on the
 * stream's status word, and the connect / clone lifecycle.
 *
 * Calls on one TCPStream are modelled one after another, so no send is in
 * flight between two calls: the status word is 0 while the stream is open
 * and SendStatusClosing once it is closed. What happens when senders and
 * closers interleave is the subject of module CloseBarrier.
 */
module Tcpsst {
  import opened Wrappers
  import opened Wire
  import opened Delivery
  import opened StatusWord
  import opened Multiplexed

  /** memcpy(dst + at, src, |src|) */
  method CopyInto(dst: array<byte>, at: nat, src: seq<byte>)
    requires at + |src| <= dst.Length
    modifies dst
    ensures dst[..at + |src|] == old(dst[..at]) + src
    ensures dst[at + |src|..] == old(dst[at + |src|..])
  {
    var k := 0;
    while k < |src|
      invariant 0 <= k <= |src|
      invariant forall i :: 0 <= i < at ==> dst[i] == old(dst[i])
      invariant forall i :: 0 <= i < k ==> dst[at + i] == src[i]
      invariant forall i :: at + k <= i < dst.Length ==> dst[i] == old(dst[i])
    {
      dst[at + k] := src[k];
      k := k + 1;
    }
    assert dst[..at + |src|] == old(dst[..at]) + src by {
      forall i | 0 <= i < at + |src|
        ensures dst[..at + |src|][i] == (old(dst[..at]) + src)[i]
      {
        if i >= at {
          assert dst[at + (i - at)] == src[i - at];
        }
      }
    }
  }

  /** The packet send allocates and fills: header, stream id, then the two chunks. */
  method AssemblePacket(header: seq<byte>, serializedStreamId: seq<byte>, first: seq<byte>, second: seq<byte>)
    returns (data: array<byte>)
    ensures fresh(data) && data[..] == header + serializedStreamId + first + second
  {
    var h, i := |header|, |serializedStreamId|;
    data := new byte[h + i + |first| + |second|];
    CopyInto(data, 0, header);
    CopyInto(data, h, serializedStreamId);
    if |first| > 0 {
      CopyInto(data, h + i, first);
    }
    assert data[..h + i + |first|] == header + serializedStreamId + first;
    if |second| > 0 {
      CopyInto(data, h + i + |first|, second);
    }
    assert data[..] == data[..h + i + |first| + |second|];
  }

  class TCPStream {
    const codec: Codec                  // the StreamID and vuint32 serializers
    const sendStatus: SendStatus        // mSendStatus, shared with the stream's registered callbacks
    const numSimultaneousSockets: nat   // mNumSimultaneousSockets, an unsigned char
    const sendBufferSize: nat           // mSendBufferSize
    const ioSet: bool                   // mIO was set: only the (io, ...) constructor sets it
    var socket: MultiplexedSocket?      // mSocket, null until connected
    var id: StreamID                    // mID

    /** mSocket as a set, empty while the stream is unconnected. */
    function SocketSet(): set<MultiplexedSocket>
      reads this
    {
      if socket == null then {} else {socket}
    }

    ghost predicate Valid()
      reads this, sendStatus, socket
    {
      && codec.Valid()
      && 0 < numSimultaneousSockets < 256
      && (sendStatus.value == 0 || sendStatus.value == SendStatusClosing)
      && (socket != null ==> socket.Valid())
    }

    /** The stream is closing or closed: its word carries the closing marker. */
    ghost predicate Closed()
      reads this, sendStatus
    {
      !ClosingBitsClear(sendStatus.value)
    }

    /** TCPStream(io, numSimultSockets, sendBufferSize): not yet connected; the id is left as constructed. */
    constructor (codec: Codec, numSimultSockets: nat, sendBufferSize: nat)
      requires codec.Valid() && 0 < numSimultSockets < 256
      ensures Valid() && socket == null && fresh(sendStatus) && sendStatus.value == 0
      ensures this.codec == codec && numSimultaneousSockets == numSimultSockets
      ensures this.sendBufferSize == sendBufferSize && ioSet
    {
      this.codec := codec;
      numSimultaneousSockets := numSimultSockets;
      this.sendBufferSize := sendBufferSize;
      ioSet := true;
      socket := null;
      sendStatus := new SendStatus(0);
    }

    /** TCPStream(shared_socket, sid): a stream of an existing multiplexed socket; mIO is not set. */
    constructor Shared(codec: Codec, shared: MultiplexedSocket, sid: StreamID)
      requires codec.Valid() && shared.Valid() && shared.numSockets % 256 != 0
      ensures Valid() && socket == shared && id == sid && fresh(sendStatus) && sendStatus.value == 0
      ensures this.codec == codec && numSimultaneousSockets == shared.numSockets % 256
      ensures sendBufferSize == shared.sendBufferCeiling && !ioSet
    {
      this.codec := codec;
      ioSet := false;
      socket := shared;
      id := sid;
      sendStatus := new SendStatus(0);
      // the socket count is narrowed to an unsigned char
      numSimultaneousSockets := shared.numSockets % 256;
      sendBufferSize := shared.sendBufferCeiling;
    }

    /** canSend: asks the socket about exactly the bytes send would allocate for dataSize payload bytes. */
    function CanSend(dataSize: nat): (ok: bool)
      reads this, socket
      requires socket != null
      ensures forall first: seq<byte>, second: seq<byte> :: |first| + |second| == dataSize ==>
                (ok <==> socket.CanSendBytes(id, |Frame(codec, id, first, second)|))
    {
      var successLengthNeeded := |codec.serializeId(id)|;
      var totalSize := dataSize + successLengthNeeded;
      var packetHeaderLength := |codec.serializeLength(totalSize)|;
      FrameSizeForEverySplit(codec, id, dataSize);
      socket.CanSendBytes(id, totalSize + packetHeaderLength)
    }

    /** The request send hands to the socket for these chunks. */
    ghost function RequestFor(first: seq<byte>, second: seq<byte>, reliability: StreamReliability): RawRequest
      reads this
    {
      var f := Flags(reliability);
      RawRequest(id, f.unordered, f.unreliable, Frame(codec, id, first, second))
    }

    /**
     * send(firstChunk, secondChunk, reliability). sendBytes is called, with
     * the assembled frame, exactly when the stream is not closed; the word
     * is back at its old value afterwards.
     */
    method Send(first: seq<byte>, second: seq<byte>, reliability: StreamReliability) returns (didSend: bool)
      requires Valid() && socket != null
      modifies sendStatus, socket`sendLog
      ensures Valid() && sendStatus.value == old(sendStatus.value)
      ensures old(Closed()) ==> !didSend && socket.sendLog == old(socket.sendLog)
      ensures !old(Closed()) ==> socket.sendLog == old(socket.sendLog) + [SendCall(RequestFor(first, second, reliability), sendBufferSize, didSend)]
    {
      var flags := Flags(reliability);
      var serializedStreamId := codec.serializeId(id);
      assert |serializedStreamId| <= codec.maxIdLength;
      var totalSize := |first| + |second| + |serializedStreamId|;
      var packetLengthSerialized := codec.serializeLength(totalSize);
      var data := AssemblePacket(packetLengthSerialized, serializedStreamId, first, second);
      var toBeSent := RawRequest(id, flags.unordered, flags.unreliable, data[..]);
      didSend := false;
      // announce the send to would-be closers
      Unpack(0, 1);
      Unpack(1, 1);
      var status := sendStatus.Increment();
      if ClosingBitsClear(status) {
        didSend := socket.SendBytes(toBeSent, sendBufferSize);
      }
      // hand control back to a possible closer
      sendStatus.Decrement();
    }

    /** send(firstChunk, reliability): a frame with an empty second chunk. */
    method SendOne(first: seq<byte>, reliability: StreamReliability) returns (didSend: bool)
      requires Valid() && socket != null
      modifies sendStatus, socket`sendLog
      ensures Valid() && sendStatus.value == old(sendStatus.value)
      ensures old(Closed()) ==> !didSend && socket.sendLog == old(socket.sendLog)
      ensures !old(Closed()) ==> socket.sendLog == old(socket.sendLog) + [SendCall(RequestFor(first, [], reliability), sendBufferSize, didSend)]
    {
      didSend := Send(first, [], reliability);
    }

    /** send(const Chunk&, reliability): sends the chunk's current contents. */
    method SendChunk(data: array<byte>, reliability: StreamReliability) returns (didSend: bool)
      requires Valid() && socket != null
      modifies sendStatus, socket`sendLog
      ensures Valid() && sendStatus.value == old(sendStatus.value)
      ensures old(Closed()) ==> !didSend && socket.sendLog == old(socket.sendLog)
      ensures !old(Closed()) ==> socket.sendLog == old(socket.sendLog) + [SendCall(RequestFor(data[..], [], reliability), sendBufferSize, didSend)]
    {
      didSend := SendOne(data[..], reliability);
    }

    /**
     * closeSendStatus: adds the closing marker unless one is present and
     * reports whether this call was the one that closed the stream. The
     * caller has no send in flight, so the wait for in-flight senders ends
     * at once: the word is Drained on return.
     */
    static method CloseSendStatus(status: SendStatus) returns (incd: bool)
      requires status.value == 0 || Drained(status.value)
      modifies status
      ensures Drained(status.value)
      ensures incd <==> old(status.value) == 0
      ensures status.value == if old(status.value) == 0 then SendStatusClosing else old(status.value)
    {
      Unpack(0, 0); Unpack(1, 0); Unpack(2, 0); Unpack(3, 0);
      var sendStatus := status.Read();
      incd := false;
      if ClosingBitsClear(sendStatus) {
        var sum := status.Add(SendStatusClosing);
        incd := sum == SendStatusClosing;
      }
    }

    /** close() can run as written: it dereferences mSocket when it is the call that closes the stream. */
    predicate CloseIsDefined()
      reads this, sendStatus
    {
      socket != null || !ClosingBitsClear(sendStatus.value)
    }

    /** close() as TCPStream.cpp writes it, where that is defined. */
    method CloseAsWritten()
      requires Valid() && CloseIsDefined()
      modifies sendStatus, SocketSet()`registry, SocketSet()`closeLog
      ensures Valid() && Closed()
      ensures var tears := old(sendStatus.value) == 0;
              socket != null ==>
                && socket.registry == (if tears then old(socket.registry) - {id} else old(socket.registry))
                && socket.closeLog == old(socket.closeLog) + (if tears then [id] else [])
    {
      Unpack(1, 0);
      var justClosed := CloseSendStatus(sendStatus);
      if justClosed {
        socket.AddCallbacks(id, None);
        socket.CloseStream(id);
      }
    }

    /**
     * close(): the call that closes the stream unregisters its callbacks
     * and broadcasts closeStream; every later call changes nothing. A
     * stream that was never connected has nothing to unregister.
     */
    method Close()
      requires Valid()
      modifies sendStatus, SocketSet()`registry, SocketSet()`closeLog
      ensures Valid() && Closed()
      ensures var tears := old(sendStatus.value) == 0;
              socket != null ==>
                && socket.registry == (if tears then old(socket.registry) - {id} else old(socket.registry))
                && socket.closeLog == old(socket.closeLog) + (if tears then [id] else [])
    {
      Unpack(1, 0);
      var justClosed := CloseSendStatus(sendStatus);
      if justClosed && socket != null {
        socket.AddCallbacks(id, None);
        socket.CloseStream(id);
      }
    }

    /**
     * ~TCPStream: closes the stream. It runs the corrected Close: the
     * destructor's close() as written is the null dereference of an
     * unconnected stream that UnconnectedCloseIsUndefined exhibits.
     */
    method Destroy()
      requires Valid()
      modifies sendStatus, SocketSet()`registry, SocketSet()`closeLog
      ensures Valid() && Closed()
      ensures var tears := old(sendStatus.value) == 0;
              socket != null ==>
                && socket.registry == (if tears then old(socket.registry) - {id} else old(socket.registry))
                && socket.closeLog == old(socket.closeLog) + (if tears then [id] else [])
    {
      Close();
    }

    /** connect(addy, callbacks...): a fresh multiplexed socket whose primary stream is this one. */
    method Connect(address: Address, substream: nat, handlers: Handlers)
      requires Valid() && ioSet
      modifies this`socket, this`id, sendStatus
      ensures Valid() && !Closed() && fresh(socket) && socket.substream == substream
      ensures id == PrimaryStream && sendStatus.value == 0
      ensures socket.issued == {PrimaryStream} && socket.registry == map[PrimaryStream := Callbacks(handlers, sendStatus)]
      ensures socket.connectLog == [ConnectCall(Some(address), numSimultaneousSockets, sendBufferSize)]
      ensures socket.sendLog == [] && socket.closeLog == []
    {
      var s := new MultiplexedSocket(substream);
      socket := s;
      sendStatus.Store(0);
      id := PrimaryStream;
      s.AddCallbacks(id, Some(Callbacks(handlers, sendStatus)));
      s.Connect(Some(address), numSimultaneousSockets, sendBufferSize);
      Unpack(0, 0);
    }

    /** prepareOutboundConnection: as connect, but the sockets are only prepared, not opened. */
    method PrepareOutboundConnection(substream: nat, handlers: Handlers)
      requires Valid() && ioSet
      modifies this`socket, this`id, sendStatus
      ensures Valid() && !Closed() && fresh(socket) && socket.substream == substream
      ensures id == PrimaryStream && sendStatus.value == 0
      ensures socket.issued == {PrimaryStream} && socket.registry == map[PrimaryStream := Callbacks(handlers, sendStatus)]
      ensures socket.connectLog == [ConnectCall(None, numSimultaneousSockets, sendBufferSize)]
      ensures socket.sendLog == [] && socket.closeLog == []
    {
      var s := new MultiplexedSocket(substream);
      socket := s;
      sendStatus.Store(0);
      id := PrimaryStream;
      s.AddCallbacks(id, Some(Callbacks(handlers, sendStatus)));
      s.Connect(None, numSimultaneousSockets, sendBufferSize);
      Unpack(0, 0);
    }

    /** connect(addy): opens a prepared connection; zero sockets means "as prepared". */
    method ConnectPrepared(address: Address)
      requires Valid() && socket != null
      modifies socket`connectLog
      ensures Valid()
      ensures socket.connectLog == old(socket.connectLog) + [ConnectCall(Some(address), 0, sendBufferSize)]
    {
      socket.Connect(Some(address), 0, sendBufferSize);
    }

    /** factory(): an unconnected stream with this stream's settings. */
    method Factory() returns (r: TCPStream)
      requires Valid() && ioSet
      ensures fresh(r) && fresh(r.sendStatus) && r.Valid() && r.socket == null && r.sendStatus.value == 0 && r.ioSet
      ensures r.codec == codec && r.numSimultaneousSockets == numSimultaneousSockets
      ensures r.sendBufferSize == sendBufferSize
    {
      r := new TCPStream(codec, numSimultaneousSockets, sendBufferSize);
    }

    /**
     * clone(cloneCallback): null when unconnected, otherwise a new stream on
     * the same socket with an id the socket never issued before; installing
     * its callbacks is left to the caller's clone callback.
     */
    method CloneForSubstream() returns (r: TCPStream?)
      requires Valid() && (socket != null ==> ioSet)
      modifies SocketSet()`nextID, SocketSet()`issued
      ensures Valid()
      ensures socket == null <==> r == null
      ensures r != null ==>
                && fresh(r) && fresh(r.sendStatus) && r.Valid() && !r.Closed()
                && r.socket == socket && r.sendStatus.value == 0
                && r.codec == codec && r.numSimultaneousSockets == numSimultaneousSockets
                && r.sendBufferSize == sendBufferSize && r.ioSet
                && r.id !in old(socket.issued) && socket.issued == old(socket.issued) + {r.id}
    {
      if socket == null {
        return null;
      }
      r := new TCPStream(codec, numSimultaneousSockets, sendBufferSize);
      r.socket := socket;
      var newID := socket.GetNewID();
      r.id := newID;
      Unpack(0, 0);
    }

    /** clone(callbacks...): as above, with the given callbacks installed for the new id. */
    method Clone(handlers: Handlers) returns (r: TCPStream?)
      requires Valid() && (socket != null ==> ioSet)
      modifies SocketSet()`nextID, SocketSet()`issued, SocketSet()`registry
      ensures Valid()
      ensures socket == null <==> r == null
      ensures r != null ==>
                && fresh(r) && fresh(r.sendStatus) && r.Valid() && !r.Closed()
                && r.socket == socket && r.sendStatus.value == 0
                && r.codec == codec && r.numSimultaneousSockets == numSimultaneousSockets
                && r.sendBufferSize == sendBufferSize && r.ioSet
                && r.id !in old(socket.issued) && socket.issued == old(socket.issued) + {r.id}
                && socket.registry == old(socket.registry)[r.id := Callbacks(handlers, r.sendStatus)]
    {
      r := CloneForSubstream();
      if r != null {
        socket.AddCallbacks(r.id, Some(Callbacks(handlers, r.sendStatus)));
      }
    }
  }

  /** Every stream factory() builds is unconnected, so it cannot be closed as written. */
  method UnconnectedCloseIsUndefined(origin: TCPStream) returns (defined: bool)
    requires origin.Valid() && origin.ioSet
    ensures !defined
  {
    var s := origin.Factory();
    Unpack(0, 0);
    defined := s.CloseIsDefined();
  }
}
