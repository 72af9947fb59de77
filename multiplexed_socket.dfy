/**
 * A stand-in for MultiplexedSocket, whose code is not part of this model.
 * It keeps only what TCPStream can observe or cause: the socket count and
 * buffer ceiling it reports, the admission budget canSendBytes consults,
 * stream id allocation, the stream-id to callbacks registry, and logs of
 * the sendBytes, closeStream and connect calls it receives.
 */
module Multiplexed {
  import opened Wrappers
  import opened Wire
  import opened StatusWord

  datatype Address = Address(hostname: string, service: string)

  /** MultiplexedSocket::RawRequest as TCPStream::send fills it in. */
  datatype RawRequest = RawRequest(originStream: StreamID, unordered: bool, unreliable: bool, data: seq<byte>)

  /** The caller's connection, bytes-received and ready-send callbacks, by identity. */
  datatype Handlers = Handlers(connection: nat, bytesReceived: nat, readySend: nat)

  /** TCPStream's Callbacks bundle: the caller's handlers and the stream's status word. */
  datatype Callbacks = Callbacks(handlers: Handlers, status: SendStatus)

  /** One sendBytes call: the request, the buffer size it was sent with, and whether it was accepted. */
  datatype SendCall = SendCall(request: RawRequest, bufferSize: nat, accepted: bool)

  /** One connect (address present) or prepareConnect (address absent) call. */
  datatype ConnectCall = ConnectCall(address: Option<Address>, sockets: nat, bufferSize: nat)

  class MultiplexedSocket {
    const substream: nat            // the substream callback given at construction, by identity
    var numSockets: nat             // numSockets()
    var sendBufferCeiling: nat      // getASIOSocketWrapper(0).getResourceMonitor().maxSize()
    var available: nat              // bytes the chosen physical socket admits right now
    var nextID: nat
    ghost var issued: set<StreamID>
    ghost var registry: map<StreamID, Callbacks>
    ghost var sendLog: seq<SendCall>
    ghost var closeLog: seq<StreamID>
    ghost var connectLog: seq<ConnectCall>

    /** Every id handed out so far, the primary stream's included, lies below nextID. */
    ghost predicate Valid()
      reads this
    {
      PrimaryStream in issued && forall sid :: sid in issued ==> sid.value < nextID
    }

    /** MultiplexedSocket::construct: no sockets opened, no callbacks, nothing sent. */
    constructor (substream: nat)
      ensures Valid() && this.substream == substream
      ensures issued == {PrimaryStream} && registry == map[]
      ensures sendLog == [] && closeLog == [] && connectLog == []
    {
      this.substream := substream;
      numSockets, sendBufferCeiling, available := 0, 0, 0;
      nextID := PrimaryStream.value + 1;
      issued := {PrimaryStream};
      registry := map[];
      sendLog, closeLog, connectLog := [], [], [];
    }

    /** canSendBytes: whether `size` more bytes fit the admission budget. */
    predicate CanSendBytes(sid: StreamID, size: nat)
      reads this
    {
      size <= available
    }

    /** sendBytes: hands one request to a physical socket; whether it is taken is not modelled. */
    method SendBytes(request: RawRequest, bufferSize: nat) returns (accepted: bool)
      modifies this`sendLog
      ensures sendLog == old(sendLog) + [SendCall(request, bufferSize, accepted)]
    {
      accepted :| true;
      sendLog := sendLog + [SendCall(request, bufferSize, accepted)];
    }

    /** getNewID: an id never handed out before on this connection. */
    method GetNewID() returns (sid: StreamID)
      requires Valid()
      modifies this`nextID, this`issued
      ensures Valid()
      ensures sid !in old(issued) && issued == old(issued) + {sid}
    {
      sid := StreamID(nextID);
      nextID := nextID + 1;
      issued := issued + {sid};
    }

    /** addCallbacks: installs the bundle for a stream id; None (a null bundle) removes it. */
    method AddCallbacks(sid: StreamID, callbacks: Option<Callbacks>)
      modifies this`registry
      ensures registry == if callbacks.Some? then old(registry)[sid := callbacks.value] else old(registry) - {sid}
    {
      if callbacks.Some? {
        registry := registry[sid := callbacks.value];
      } else {
        registry := registry - {sid};
      }
    }

    /** closeStream: broadcasts on every physical socket that the stream is closed. */
    method CloseStream(sid: StreamID)
      modifies this`closeLog
      ensures closeLog == old(closeLog) + [sid]
    {
      closeLog := closeLog + [sid];
    }

    /** connect (address present) or prepareConnect (address absent). */
    method Connect(address: Option<Address>, sockets: nat, bufferSize: nat)
      modifies this`connectLog
      ensures connectLog == old(connectLog) + [ConnectCall(address, sockets, bufferSize)]
    {
      connectLog := connectLog + [ConnectCall(address, sockets, bufferSize)];
    }
  }
}
