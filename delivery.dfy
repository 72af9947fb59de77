/**
 * The reliability modes a caller may pick per send, and the two delivery
 * flags of the raw request they become. Of the four flag combinations only
 * three are reachable: unreliable-but-ordered is deliberately unsupported.
 */
module Delivery {
  import opened Wrappers

  datatype StreamReliability = Unreliable | ReliableOrdered | ReliableUnordered

  /** The unordered and unreliable fields of MultiplexedSocket::RawRequest. */
  datatype DeliveryFlags = DeliveryFlags(unordered: bool, unreliable: bool)

  /** A flag combination the transport supports: unreliable delivery is never ordered. */
  predicate Supported(f: DeliveryFlags) {
    f.unreliable ==> f.unordered
  }

  /** The switch at the top of TCPStream::send. */
  function Flags(r: StreamReliability): (f: DeliveryFlags)
    ensures Supported(f)
  {
    match r
    case Unreliable => DeliveryFlags(true, true)
    case ReliableOrdered => DeliveryFlags(false, false)
    case ReliableUnordered => DeliveryFlags(true, false)
  }

  /** Reads the mode back from the flags; None for the unsupported combination. */
  function ModeOf(f: DeliveryFlags): Option<StreamReliability> {
    if f.unreliable then (if f.unordered then Some(Unreliable) else None)
    else if f.unordered then Some(ReliableUnordered)
    else Some(ReliableOrdered)
  }

  /** No two modes share flags: the flags determine the mode. */
  lemma FlagsRoundTrip(r: StreamReliability)
    ensures ModeOf(Flags(r)) == Some(r)
  {
  }

  /** The flags reachable from some mode are exactly the supported ones. */
  lemma FlagsOntoSupported(f: DeliveryFlags)
    ensures Supported(f) <==> exists r :: Flags(r) == f
  {
    if Supported(f) {
      assert Flags(ModeOf(f).value) == f;
    }
  }
}
