/**
 * The wire form of one outgoing packet of a logical TCP stream:
 *
 *   [length prefix][serialized StreamID][first chunk][second chunk]
 *
 * where the length prefix is the variable-length encoding of the number of
 * bytes that follow it. The encodings of a StreamID and of a length
 * (StreamID::serialize, vuint32::serialize) are not part of this model: a
 * Codec carries them as uninterpreted functions, together with the only
 * thing known about them, an upper bound on the length of their output.
 */
module Wire {

  type byte = bv8

  /** The identifier of a logical stream within one multiplexed connection. */
  datatype StreamID = StreamID(value: nat)

  /** The stream every connection starts with (connect, prepareOutboundConnection). */
  const PrimaryStream: StreamID := StreamID(1)

  /** Stand-ins for the two serializers the packet format is built from. */
  datatype Codec = Codec(
    serializeId: StreamID -> seq<byte>,   // StreamID::serialize
    serializeLength: nat -> seq<byte>,    // vuint32::serialize
    maxIdLength: nat,                     // StreamID::MAX_SERIALIZED_LENGTH
    maxLengthLength: nat)                 // vuint32::MAX_SERIALIZED_LENGTH
  {
    /** Neither serializer writes more than its fixed-size scratch buffer holds. */
    ghost predicate Valid() {
      && (forall id :: |serializeId(id)| <= maxIdLength)
      && (forall n :: |serializeLength(n)| <= maxLengthLength)
    }
  }

  /** The value the length prefix encodes: stream id bytes plus payload bytes. */
  function BodyLength(c: Codec, id: StreamID, payloadSize: nat): nat {
    |c.serializeId(id)| + payloadSize
  }

  /** The bytes send writes for a payload given as two chunks. */
  function Frame(c: Codec, id: StreamID, first: seq<byte>, second: seq<byte>): seq<byte> {
    c.serializeLength(BodyLength(c, id, |first| + |second|)) + c.serializeId(id) + first + second
  }

  /** The number of bytes canSend asks the multiplexed socket about for a payload of dataSize bytes. */
  function FrameSize(c: Codec, id: StreamID, dataSize: nat): nat {
    var body := BodyLength(c, id, dataSize);
    body + |c.serializeLength(body)|
  }

  /** The frame is its four parts laid end to end, each at the offset the lengths before it give. */
  lemma FrameLayout(c: Codec, id: StreamID, first: seq<byte>, second: seq<byte>)
    ensures var f := Frame(c, id, first, second);
            var h := c.serializeLength(BodyLength(c, id, |first| + |second|));
            var i := c.serializeId(id);
            && |f| == |h| + |i| + |first| + |second|
            && f[..|h|] == h
            && f[|h|..|h| + |i|] == i
            && f[|h| + |i|..|h| + |i| + |first|] == first
            && f[|h| + |i| + |first|..] == second
  {
  }

  /**
   * The frame is self-describing: it is the encoding of the length of the
   * rest of the frame followed by that rest; the prefix does not count itself.
   */
  lemma FrameIsLengthPrefixed(c: Codec, id: StreamID, first: seq<byte>, second: seq<byte>)
    ensures var rest := c.serializeId(id) + first + second;
            Frame(c, id, first, second) == c.serializeLength(|rest|) + rest
  {
  }

  /** Where the payload is split between the two chunks does not change the bytes on the wire. */
  lemma FrameDependsOnPayloadOnly(c: Codec, id: StreamID, first: seq<byte>, second: seq<byte>)
    ensures Frame(c, id, first, second) == Frame(c, id, first + second, [])
  {
  }

  /** canSend asks about exactly as many bytes as send allocates for a payload of that size. */
  lemma FrameSizeIsSendSize(c: Codec, id: StreamID, first: seq<byte>, second: seq<byte>)
    ensures FrameSize(c, id, |first| + |second|) == |Frame(c, id, first, second)|
  {
  }

  /** The same, for every way of making up a payload of dataSize bytes from two chunks. */
  lemma FrameSizeForEverySplit(c: Codec, id: StreamID, dataSize: nat)
    ensures forall first: seq<byte>, second: seq<byte> :: |first| + |second| == dataSize ==>
              |Frame(c, id, first, second)| == FrameSize(c, id, dataSize)
  {
    forall first: seq<byte>, second: seq<byte> | |first| + |second| == dataSize
      ensures |Frame(c, id, first, second)| == FrameSize(c, id, dataSize)
    {
      FrameSizeIsSendSize(c, id, first, second);
    }
  }

  /** With bounded serializers, the framing overhead is at most the two fixed scratch-buffer sizes. */
  lemma FrameOverheadBounded(c: Codec, id: StreamID, dataSize: nat)
    requires c.Valid()
    ensures dataSize <= FrameSize(c, id, dataSize) <= dataSize + c.maxIdLength + c.maxLengthLength
  {
  }
}
