/**
  Frames and events: the driver's error type, the decoded `Event`, the two frame
  decoders `touch_event` and `button_event`, and the classification of a frame by its
  length that `event` performs once the frame has been read.

  A touch frame is a 7-byte report followed by zero, one or two 10-byte records; a
  button frame is one 14-byte button record. `EncodeEvent` writes an event back as the
  frame it came from; it is a proof aid, the driver never encodes.
 */
module Frame {
  import opened Wrappers
  import opened Bytes
  import opened Layout

  /** The length of a frame that says "no event queued". */
  const EmptyLength := 2

  /** The length of a touch frame with one touch record; a bare report is `TouchReportSize` long. */
  const OneTouchLength := TouchReportSize + TouchRecordSize

  /** The length of a touch frame with two touch records. */
  const TwoTouchLength := TouchReportSize + 2 * TouchRecordSize

  /** A length `event` reads as a touch frame. */
  predicate IsTouchLength(n: nat) {
    n == TouchReportSize || n == OneTouchLength || n == TwoTouchLength
  }

  /** A length `event` decodes into an event: a touch frame or a button frame. */
  predicate IsEventLength(n: nat) {
    IsTouchLength(n) || n == ButtonRecordSize
  }

  /** Rust's `Error<E>`; `E` is the bus's own error type. */
  datatype Error<E> =
    | BusError(cause: E)
    | InvalidMessageLen(len: nat)
    | IOError
    | NoDataAvailable
    | TryFromSliceError

  /** The optional first and second touch records of a touch event. */
  type Touches = (Option<TouchRecord>, Option<TouchRecord>)

  datatype Event =
    | Touch(report: TouchReport, touches: Touches)
    | Button(record: ButtonRecord)

  function RecordCount(t: Touches): (n: nat)
    ensures n <= 2
  {
    (if t.0.Some? then 1 else 0) + (if t.1.Some? then 1 else 0)
  }

  /** Touches as a frame can carry them: a second record only after a first, each valid. */
  predicate TouchesValid(t: Touches) {
    && (t.1.Some? ==> t.0.Some?)
    && (t.0.Some? ==> t.0.value.Valid())
    && (t.1.Some? ==> t.1.value.Valid())
  }

  /** Every field of the event fits the wire layout it is read from. */
  predicate EventValid(e: Event) {
    match e
    case Touch(report, touches) => report.Valid() && TouchesValid(touches)
    case Button(record) => record.Valid()
  }

  /** The frame that carries `e` (a proof aid). */
  function EncodeEvent(e: Event): (b: seq<u8>)
    requires EventValid(e)
    ensures e.Touch? ==> |b| == TouchReportSize + TouchRecordSize * RecordCount(e.touches)
    ensures e.Button? ==> |b| == ButtonRecordSize
  {
    match e
    case Touch(report, touches) =>
      EncodeTouchReport(report)
      + (if touches.0.Some? then EncodeTouchRecord(touches.0.value) else [])
      + (if touches.1.Some? then EncodeTouchRecord(touches.1.value) else [])
    case Button(record) => EncodeButtonRecord(record)
  }

  /**
    `touch_event`: the report from bytes 0..7, a first record from bytes 7..17 when the
    message has at least 17 bytes, a second from bytes 17..27 when it has exactly 27.
    The source slices `message[0..][..7]`, which panics on a shorter message, hence the
    precondition; every `try_into` then gets a slice of exactly the array's length.
   */
  function TouchEvent<E>(message: seq<u8>): (r: Result<Event, Error<E>>)
    requires |message| >= TouchReportSize
    ensures r.Ok? && r.value.Touch? && EventValid(r.value)
    ensures r.value.touches.0.Some? <==> |message| >= OneTouchLength
    ensures r.value.touches.1.Some? <==> |message| == TwoTouchLength
    ensures EncodeEvent(r.value) == message[..TouchReportSize + TouchRecordSize * RecordCount(r.value.touches)]
  {
    var report := DecodeTouchReport(message[..TouchReportSize]);
    var record0 := if |message| >= OneTouchLength
      then Some(DecodeTouchRecord(message[TouchReportSize..OneTouchLength])) else None;
    var record1 := if |message| == TwoTouchLength
      then Some(DecodeTouchRecord(message[OneTouchLength..TwoTouchLength])) else None;
    var e := Touch(report, (record0, record1));
    TouchFrameRoundTrip(message, e);
    Ok(e)
  }

  /** The bytes of a decoded touch frame are the encodings of its parts. */
  lemma TouchFrameRoundTrip(message: seq<u8>, e: Event)
    requires |message| >= TouchReportSize
    requires e == Touch(
      DecodeTouchReport(message[..TouchReportSize]),
      (if |message| >= OneTouchLength
         then Some(DecodeTouchRecord(message[TouchReportSize..OneTouchLength])) else None,
       if |message| == TwoTouchLength
         then Some(DecodeTouchRecord(message[OneTouchLength..TwoTouchLength])) else None))
    ensures EventValid(e)
    ensures EncodeEvent(e) == message[..TouchReportSize + TouchRecordSize * RecordCount(e.touches)]
  {
    TouchReportBytesRoundTrip(message[..7]);
    if |message| >= 17 {
      TouchRecordBytesRoundTrip(message[7..17]);
      assert message[..17] == message[..7] + message[7..17];
    }
    if |message| == 27 {
      TouchRecordBytesRoundTrip(message[17..27]);
      assert message[..27] == message[..7] + message[7..17] + message[17..27];
    }
  }

  /**
    `button_event`: the whole message as one button record. Converting the slice to a
    14-byte array fails with `TryFromSliceError` on any other length.
   */
  function ButtonEvent<E>(message: seq<u8>): (r: Result<Event, Error<E>>)
    ensures r.Ok? <==> |message| == ButtonRecordSize
    ensures r.Err? ==> r.error == TryFromSliceError
    ensures r.Ok? ==> r.value.Button? && r.value.record.Valid() && ButtonRecordIn(message, r.value.record)
  {
    if |message| == ButtonRecordSize then
      Ok(Button(DecodeButtonRecord(message)))
    else
      Err(TryFromSliceError)
  }

  /**
    The `match` of `event` on a frame that has been read in full: its length selects
    "no data", a touch frame, a button frame or an invalid length.
   */
  function Classify<E>(message: seq<u8>): (r: Result<Event, Error<E>>)
    ensures r.Ok? <==> IsEventLength(|message|)
    ensures |message| == EmptyLength ==> r == Err(NoDataAvailable)
    ensures |message| != EmptyLength && !IsEventLength(|message|) ==> r == Err(InvalidMessageLen(|message|))
    ensures IsTouchLength(|message|) ==> r.Ok? && r.value.Touch?
    ensures |message| == ButtonRecordSize ==> r.Ok? && r.value.Button?
    ensures r.Ok? ==> EventValid(r.value) && EncodeEvent(r.value) == message
    ensures r != Err(TryFromSliceError)
  {
    var n := |message|;
    if n == EmptyLength then Err(NoDataAvailable)
    else if IsTouchLength(n) then TouchEvent(message)
    else if n == ButtonRecordSize then
      ButtonRecordBytesRoundTrip(message);
      ButtonEvent(message)
    else Err(InvalidMessageLen(n))
  }

  /** A touch frame of 7, 17 or 27 bytes carries zero, one or two records. */
  lemma TouchRecordsByLength<E>(message: seq<u8>)
    requires IsTouchLength(|message|)
    ensures var r := Classify<E>(message);
      && r.Ok? && r.value.Touch?
      && (|message| == TouchReportSize ==> r.value.touches.0.None? && r.value.touches.1.None?)
      && (|message| == OneTouchLength ==> r.value.touches.0.Some? && r.value.touches.1.None?)
      && (|message| == TwoTouchLength ==> r.value.touches.0.Some? && r.value.touches.1.Some?)
  {
  }

  /** Every valid event is decoded back from the frame that carries it. */
  lemma EventRoundTrip<E>(e: Event)
    requires EventValid(e)
    ensures Classify<E>(EncodeEvent(e)) == Ok(e)
  {
    var b := EncodeEvent(e);
    match e
    case Button(record) =>
      ButtonRecordRoundTrip(record);
    case Touch(report, touches) =>
      var rep := EncodeTouchReport(report);
      assert b[..7] == rep;
      TouchReportRoundTrip(report);
      if touches.0.Some? {
        var rec0 := EncodeTouchRecord(touches.0.value);
        assert b[7..17] == rec0;
        TouchRecordRoundTrip(touches.0.value);
      }
      if touches.1.Some? {
        var rec1 := EncodeTouchRecord(touches.1.value);
        assert b[17..27] == rec1;
        TouchRecordRoundTrip(touches.1.value);
      }
  }
}
