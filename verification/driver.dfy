/**
  The driver's use of the bus: reading the 2-byte length prefix, polling one event
  (`event`) and the start-up handshake of the blocking driver (`new`).

  The bus is an oracle: `bus(i)` is the reply to the i-th `write_read` transaction the
  operation issues (address 0x24, nothing written). A reply either carries the bytes the
  device sent or the bus's own error. A reply normally has exactly the buffer's size; for
  a reply of any other size the model's convention is that it fills the caller's
  zero-initialised buffer from the start, leaving zeros after a short reply and cutting
  a long one to the buffer's size.
 */
module Driver {
  import opened Wrappers
  import opened Bytes
  import opened Layout
  import opened Frame

  /** Size of the receive buffer `event` transfers a frame into. */
  const BufferSize := 32

  /** Size of the length prefix. */
  const PrefixSize := 2

  /** How many length transfers the handshake makes at most. */
  const HandshakeAttempts := 5

  datatype Reply<E> = Data(bytes: seq<u8>) | Fault(cause: E)

  /** `bus(i)` answers the i-th transaction of an operation. */
  type Bus<E> = nat -> Reply<E>

  /**
    What an operation did on the bus: how it ended, and the number of bytes each of its
    transactions read, in order (transaction i was answered by `bus(i)`).
   */
  datatype Exchange<T> = Exchange(outcome: Outcome<T>, transfers: seq<nat>)

  /** A `k`-byte zero-initialised buffer after the reply `data` was written into it from the start. */
  function Fill(data: seq<u8>, k: nat): (buf: seq<u8>)
    ensures |buf| == k
    ensures |data| >= k ==> buf == data[..k]
    ensures |data| == k ==> buf == data
    ensures |data| <= k ==> buf[..|data|] == data
    ensures forall i :: |data| <= i < k ==> buf[i] == 0
  {
    if |data| >= k then data[..k] else data + seq(k - |data|, _ => 0)
  }

  /** `read_bytes`: one transaction that fills a `k`-byte buffer. */
  function ReadBytes<E>(reply: Reply<E>, k: nat): (r: Result<seq<u8>, Error<E>>)
    ensures r.Ok? <==> reply.Data?
    ensures r.Ok? ==> |r.value| == k
    ensures reply.Data? && |reply.bytes| == k ==> r == Ok(reply.bytes)
    ensures reply.Fault? ==> r == Err(BusError(reply.cause))
  {
    match reply
    case Data(bytes) => Ok(Fill(bytes, k))
    case Fault(e) => Err(BusError(e))
  }

  /** `read_message_length`: a 2-byte read taken as a little-endian `u16`. */
  function ReadMessageLength<E>(reply: Reply<E>): (r: Result<nat, Error<E>>)
    ensures r.Ok? <==> reply.Data?
    ensures r.Ok? ==> r.value < 0x1_0000
    ensures reply.Data? && |reply.bytes| >= PrefixSize ==>
      r == Ok(reply.bytes[0] as nat + 256 * reply.bytes[1] as nat)
    ensures reply.Fault? ==> r == Err(BusError(reply.cause))
  {
    match ReadBytes(reply, PrefixSize)
    case Ok(buffer) => Ok(LeU16(buffer[0], buffer[1]))
    case Err(e) => Err(e)
  }

  /**
    `event`: read the length prefix, then read a frame of that many bytes into the
    32-byte buffer, then classify the frame. Slicing the buffer to a length above 32
    panics before the second transaction is issued.
   */
  function ReadEvent<E>(bus: Bus<E>): (x: Exchange<Result<Event, Error<E>>>)
    ensures 1 <= |x.transfers| <= 2 && x.transfers[0] == PrefixSize
    ensures |x.transfers| == 2 ==> x.transfers[1] <= BufferSize
    ensures bus(0).Fault? ==> x == Exchange(Returns(Err(BusError(bus(0).cause))), [PrefixSize])
    ensures x.outcome.Panics? <==> (bus(0).Data? && ReadMessageLength<E>(bus(0)).value > BufferSize)
    ensures x.outcome.Returns? && x.outcome.value.Ok? ==>
      && |x.transfers| == 2
      && EventValid(x.outcome.value.value)
      && bus(1).Data?
      && EncodeEvent(x.outcome.value.value) == Fill(bus(1).bytes, x.transfers[1])
    ensures x.outcome != Returns(Err(TryFromSliceError)) && x.outcome != Returns(Err(IOError))
    ensures bus(0).Data? && ReadMessageLength<E>(bus(0)).value <= BufferSize ==>
      var n := ReadMessageLength<E>(bus(0)).value;
      && x.transfers == [PrefixSize, n]
      && (bus(1).Fault? ==> x.outcome == Returns(Err(BusError(bus(1).cause))))
      && (bus(1).Data? && !IsEventLength(n) ==>
            x.outcome == Returns(Err(if n == EmptyLength then NoDataAvailable else InvalidMessageLen(n))))
  {
    match ReadMessageLength(bus(0))
    case Err(e) => Exchange(Returns(Err(e)), [PrefixSize])
    case Ok(n) =>
      if n > BufferSize then Exchange(Panics, [PrefixSize])
      else
        match ReadBytes(bus(1), n)
        case Err(e) => Exchange(Returns(Err(e)), [PrefixSize, n])
        case Ok(data) => Exchange(Returns(Classify(data)), [PrefixSize, n])
  }

  /** The length the handshake's `attempt`-th read reports. */
  function LengthAt<E>(bus: Bus<E>, attempt: nat): Result<nat, Error<E>> {
    ReadMessageLength(bus(attempt))
  }

  /** A length read that ends the handshake: a bus error, or the empty-queue length. */
  predicate Settles<E>(read: Result<nat, Error<E>>) {
    read.Err? || read.value == EmptyLength
  }

  /** What `new` returns once its last length read was `read`. */
  function Verdict<E>(read: Result<nat, Error<E>>): Result<(), Error<E>> {
    match read
    case Err(e) => Err(e)
    case Ok(n) => if n == EmptyLength then Ok(()) else Err(InvalidMessageLen(n))
  }

  /**
    The handshake contract: `attempts` length transfers were made, every one but the last
    returned a length other than 2, the last settles the handshake unless all five
    were used, and the result is decided by the last read alone.
   */
  ghost predicate Handshake<E>(bus: Bus<E>, r: Result<(), Error<E>>, attempts: nat) {
    && 1 <= attempts <= HandshakeAttempts
    && (forall k :: 0 <= k < attempts - 1 ==> !Settles(LengthAt(bus, k)))
    && (attempts < HandshakeAttempts ==> Settles(LengthAt(bus, attempts - 1)))
    && r == Verdict(LengthAt(bus, attempts - 1))
  }

  /**
    `new` of the blocking driver: up to five length transfers, stopping at the first that
    returns 2; a bus error ends it at once through `?`. `transfers` lists the transactions.
   */
  method New<E>(bus: Bus<E>) returns (r: Result<(), Error<E>>, transfers: seq<nat>)
    ensures Handshake(bus, r, |transfers|)
    ensures forall k :: 0 <= k < |transfers| ==> transfers[k] == PrefixSize
  {
    var messageLength := 0;
    transfers := [];
    var i := 0;
    while i < HandshakeAttempts
      invariant 0 <= i <= HandshakeAttempts && |transfers| == i
      invariant forall k :: 0 <= k < |transfers| ==> transfers[k] == PrefixSize
      invariant forall k :: 0 <= k < i ==> !Settles(LengthAt(bus, k))
      invariant i > 0 ==> LengthAt(bus, i - 1) == Ok(messageLength)
    {
      var length := ReadMessageLength(bus(i));
      transfers := transfers + [PrefixSize];
      if length.Err? {
        return Err(length.error), transfers;
      }
      messageLength := length.value;
      if messageLength == EmptyLength {
        break;
      }
      i := i + 1;
    }
    if messageLength == EmptyLength {
      r := Ok(());
    } else {
      r := Err(InvalidMessageLen(messageLength));
    }
  }

  /** The handshake contract leaves exactly one outcome for any bus. */
  lemma HandshakeUnique<E>(bus: Bus<E>, r1: Result<(), Error<E>>, n1: nat, r2: Result<(), Error<E>>, n2: nat)
    requires Handshake(bus, r1, n1) && Handshake(bus, r2, n2)
    ensures n1 == n2 && r1 == r2
  {
  }

  /**
    An empty queue (length 2) still costs a 2-byte frame read, and only then does
    `event` report `NoDataAvailable`; a bus error on that read wins over it.
   */
  lemma EmptyQueueStillReadsFrame<E>(bus: Bus<E>)
    requires ReadMessageLength<E>(bus(0)) == Ok(EmptyLength)
    ensures ReadEvent(bus).transfers == [PrefixSize, EmptyLength]
    ensures bus(1).Data? ==> ReadEvent(bus).outcome == Returns(Err(NoDataAvailable))
    ensures bus(1).Fault? ==> ReadEvent(bus).outcome == Returns(Err(BusError(bus(1).cause)))
  {
  }

  /**
    `event` reports `InvalidMessageLen(n)` only for an `n` of at most 32 that is not a
    frame length, after reading `n` bytes; a larger `n` panics instead.
   */
  lemma InvalidLengthIsSmall<E>(bus: Bus<E>, n: nat)
    requires ReadEvent(bus).outcome == Returns(Err(InvalidMessageLen(n)))
    ensures n <= BufferSize && n != EmptyLength && !IsEventLength(n)
    ensures ReadMessageLength<E>(bus(0)) == Ok(n)
    ensures ReadEvent(bus).transfers == [PrefixSize, n]
  {
  }

  /** `event` yields an event exactly when both reads succeed and the length names a frame. */
  lemma EventIffFrameLength<E>(bus: Bus<E>)
    ensures var x := ReadEvent(bus);
      (x.outcome.Returns? && x.outcome.value.Ok?) <==>
        (bus(0).Data? && IsEventLength(ReadMessageLength<E>(bus(0)).value) && bus(1).Data?)
  {
  }

  /** The field a frame's first two bytes hold: the report's or the record's length. */
  function LengthField(e: Event): u16 {
    match e
    case Touch(report, _) => report.dataLen
    case Button(record) => record.length
  }

  /** A frame whose length field tells its own size starts with that size, little-endian. */
  lemma FramePrefixIsLength(e: Event)
    requires EventValid(e)
    requires LengthField(e) == |EncodeEvent(e)|
    ensures EncodeEvent(e)[..PrefixSize] == LeBytes(|EncodeEvent(e)|)
  {
    var f := EncodeEvent(e);
    if e.Touch? {
      assert f[..PrefixSize] == EncodeTouchReport(e.report)[..PrefixSize];
    } else {
      assert f == EncodeButtonRecord(e.record);
    }
  }

  /**
    A device that answers the prefix read with the first two bytes of a frame whose
    length field is its size, and the frame read with the frame itself, is polled to
    exactly the event the frame carries.
   */
  lemma ReadEventDecodesFrame<E>(bus: Bus<E>, e: Event)
    requires EventValid(e)
    requires LengthField(e) == |EncodeEvent(e)|
    requires bus(0) == Data(EncodeEvent(e)[..PrefixSize])
    requires bus(1) == Data(EncodeEvent(e))
    ensures ReadEvent(bus) == Exchange(Returns(Ok(e)), [PrefixSize, |EncodeEvent(e)|])
  {
    var f := EncodeEvent(e);
    FramePrefixIsLength(e);
    assert ReadMessageLength<E>(bus(0)) == Ok(|f|);
    EventRoundTrip<E>(e);
  }

  /** The handshake ends at the first read that settles it, within five attempts. */
  lemma HandshakeStopsAtFirstSettling<E>(bus: Bus<E>, r: Result<(), Error<E>>, attempts: nat, k: nat)
    requires Handshake(bus, r, attempts)
    requires k < HandshakeAttempts && Settles(LengthAt(bus, k))
    requires forall j :: 0 <= j < k ==> !Settles(LengthAt(bus, j))
    ensures attempts == k + 1
    ensures LengthAt(bus, k) == Ok(EmptyLength) ==> r == Ok(())
    ensures LengthAt(bus, k).Err? ==> r == Err(LengthAt(bus, k).error)
  {
  }

  /** Five lengths other than 2 fail the handshake with the fifth one. */
  lemma HandshakeExhausted<E>(bus: Bus<E>, r: Result<(), Error<E>>, attempts: nat)
    requires Handshake(bus, r, attempts)
    requires forall j :: 0 <= j < HandshakeAttempts ==> !Settles(LengthAt(bus, j))
    ensures attempts == HandshakeAttempts
    ensures LengthAt(bus, HandshakeAttempts - 1).Ok?
    ensures r == Err(InvalidMessageLen(LengthAt(bus, HandshakeAttempts - 1).value))
  {
    assert !Settles(LengthAt(bus, attempts - 1));
  }

  /** Lengths 7 and 17 and then 2: the handshake succeeds on its third read and stops there. */
  lemma HandshakeThirdReadExample<E>(bus: Bus<E>, r: Result<(), Error<E>>, attempts: nat)
    requires bus(0) == Data([7, 0]) && bus(1) == Data([17, 0]) && bus(2) == Data([2, 0])
    requires Handshake(bus, r, attempts)
    ensures attempts == 3 && r == Ok(())
  {
    HandshakeStopsAtFirstSettling(bus, r, attempts, 2);
  }

  /**
    As written, a length prefix of 33 (bytes `0x21 0x00`) makes `event` panic on the
    buffer slice instead of reaching its `InvalidMessageLen` arm.
   */
  lemma OversizedLengthPanics<E>(bus: Bus<E>)
    requires bus(0) == Data([0x21, 0x00])
    ensures ReadEvent(bus) == Exchange(Panics, [PrefixSize])
  {
  }

  /**
    `event` with the length checked against the buffer before slicing: a length above
    32 is reported as `InvalidMessageLen` without a second read.
   */
  function ReadEventGuarded<E>(bus: Bus<E>): (x: Exchange<Result<Event, Error<E>>>)
    ensures x.outcome.Returns?
    ensures bus(0).Data? && ReadMessageLength<E>(bus(0)).value > BufferSize ==>
      x == Exchange(Returns(Err(InvalidMessageLen(ReadMessageLength<E>(bus(0)).value))), [PrefixSize])
    ensures !ReadEvent(bus).outcome.Panics? ==> x == ReadEvent(bus)
    ensures x.outcome.value.Err? && x.outcome.value.error.InvalidMessageLen? ==>
      x.outcome.value.error.len != EmptyLength && !IsEventLength(x.outcome.value.error.len)
  {
    match ReadMessageLength(bus(0))
    case Ok(n) =>
      if n > BufferSize then Exchange(Returns(Err(InvalidMessageLen(n))), [PrefixSize])
      else ReadEvent(bus)
    case Err(e) => ReadEvent(bus)
  }
}
