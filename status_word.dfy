/**
 * The send/close status word of a logical stream (mSendStatus). One integer
 * packs two things: the number of senders currently between their increment
 * and their decrement, in the low bits, and a count of closing markers,
 * each marker being one addition of SendStatusClosing. The source tests
 * the markers with `word & (3 * SendStatusClosing)`; for a power-of-two
 * constant and a non-negative word that mask is ClosingPart below, scaled
 * by the constant. Addition stands in for a bitwise or, so the scheme is
 * sound only while fewer than SendStatusClosing senders are in flight and
 * at most three markers are ever added.
 */
module StatusWord {

  /**
   * TCPStream::SendStatusClosing. Its definition (TCPStream.hpp) is not part
   * of this model; 2^29 is a power of two whose triple still fits in an int.
   */
  const SendStatusClosing: int := 0x2000_0000

  /** `(w & (3 * SendStatusClosing)) / SendStatusClosing`: the closing markers. */
  function ClosingPart(w: int): int {
    (w / SendStatusClosing) % 4
  }

  /** The count of senders in flight. */
  function SenderPart(w: int): int {
    w % SendStatusClosing
  }

  /** The test a sender makes after its increment, and a closer before its add. */
  predicate ClosingBitsClear(w: int) {
    ClosingPart(w) == 0
  }

  /** The exit condition of the wait loop in closeSendStatus. */
  predicate Drained(w: int) {
    w == SendStatusClosing || w == 2 * SendStatusClosing || w == 3 * SendStatusClosing
  }

  /** The word holding `markers` closing markers and `senders` senders in flight. */
  function Pack(markers: nat, senders: nat): int {
    markers * SendStatusClosing + senders
  }

  /** As long as the two counts stay within their bounds, both can be read back from the word. */
  lemma Unpack(markers: nat, senders: nat)
    requires markers <= 3 && senders < SendStatusClosing
    ensures ClosingPart(Pack(markers, senders)) == markers
    ensures SenderPart(Pack(markers, senders)) == senders
  {
  }

  /** The wait ends exactly when some marker is present and no sender is in flight. */
  lemma DrainedIffNoSenders(markers: nat, senders: nat)
    requires markers <= 3 && senders < SendStatusClosing
    ensures Drained(Pack(markers, senders)) <==> 1 <= markers && senders == 0
  {
  }

  /**
   * A sender's incremented word shows no closing bits exactly when no marker
   * had been added: once a closer has added its marker, no send gets through.
   */
  lemma SenderAdmittedIffNoMarker(markers: nat, senders: nat)
    requires markers <= 3 && senders + 1 < SendStatusClosing
    ensures ClosingBitsClear(Pack(markers, senders) + 1) <==> markers == 0
  {
  }

  /**
   * The shared AtomicValue<int> behind mSendStatus. Each method is one
   * atomic operation on it; a caller's sequence of calls is one thread's
   * sequence of atomic steps.
   */
  class SendStatus {
    var value: int

    constructor (initial: int)
      ensures value == initial
    {
      value := initial;
    }

    /** `read()` */
    method Read() returns (v: int)
      ensures v == value
    {
      v := value;
    }

    /** `*status = v` */
    method Store(v: int)
      modifies this
      ensures value == v
    {
      value := v;
    }

    /** `++(*status)`: returns the incremented value. */
    method Increment() returns (v: int)
      modifies this
      ensures value == old(value) + 1 && v == value
    {
      value := value + 1;
      v := value;
    }

    /** `--(*status)` */
    method Decrement()
      modifies this
      ensures value == old(value) - 1
    {
      value := value - 1;
    }

    /** `status += d`: returns the new value. */
    method Add(d: int) returns (v: int)
      modifies this
      ensures value == old(value) + d && v == value
    {
      value := value + d;
      v := value;
    }
  }
}
