/**
  The three fixed wire layouts of the TT21100: the 7-byte touch report, the 10-byte
  touch record and the 14-byte button record, with their decoders (`from_bytes` of the
  `bondrewd` derive) and, as proof aids, their encoders (`into_bytes`).

  Multi-byte fields are little-endian; sub-byte fields are packed msb0, in declaration
  order from the most significant bit of their byte. Padding fields are kept: they are
  real struct fields and take part in equality.
 */
module Layout {
  import opened Bytes

  const TouchReportSize := 7
  const TouchRecordSize := 10
  const ButtonRecordSize := 14

  /** Prelude of a touch message. */
  datatype TouchReport = TouchReport(
    dataLen: u16,
    reportId: u8,
    timeStamp: u16,
    padding0: u8,
    largeObject: u8,
    recordNum: u8,
    reportCounter: u8,
    padding1: u8,
    noiseEffect: u8)
  {
    /** Every sub-byte field fits its bit length (2, 1, 5 | 2, 3, 3). */
    predicate Valid() {
      && padding0 < 4 && largeObject < 2 && recordNum < 32
      && reportCounter < 4 && padding1 < 8 && noiseEffect < 8
    }
  }

  /** One touch point. */
  datatype TouchRecord = TouchRecord(
    padding0: u8,
    touchType: u8,
    tip: u8,
    eventId: u8,
    touchId: u8,
    x: u16,
    y: u16,
    pressure: u8,
    majorAxisLength: u16,
    orientation: u8)
  {
    /** Every sub-byte field fits its bit length (5, 3 | 1, 2, 5). */
    predicate Valid() {
      && padding0 < 32 && touchType < 8
      && tip < 2 && eventId < 4 && touchId < 32
    }
  }

  /** A button message; `btnSignal` is the `[u16; 4]` array. */
  datatype ButtonRecord = ButtonRecord(
    length: u16,
    reportId: u8,
    timeStamp: u16,
    btnVal: u8,
    btnSignal: seq<u16>)
  {
    predicate Valid() {
      |btnSignal| == 4
    }
  }

  /**
    The wire relation of the touch report: which bytes hold which field, written as
    the arithmetic that reassembles each byte from its fields.
   */
  ghost predicate TouchReportIn(b: seq<u8>, r: TouchReport)
    requires |b| == TouchReportSize
  {
    && r.dataLen == b[0] as int + 256 * b[1] as int
    && r.reportId == b[2]
    && r.timeStamp == b[3] as int + 256 * b[4] as int
    && b[5] == r.padding0 * 64 + r.largeObject * 32 + r.recordNum
    && b[6] == r.reportCounter * 64 + r.padding1 * 8 + r.noiseEffect
  }

  ghost predicate TouchRecordIn(b: seq<u8>, r: TouchRecord)
    requires |b| == TouchRecordSize
  {
    && b[0] == r.padding0 * 8 + r.touchType
    && b[1] == r.tip * 128 + r.eventId * 32 + r.touchId
    && r.x == b[2] as int + 256 * b[3] as int
    && r.y == b[4] as int + 256 * b[5] as int
    && r.pressure == b[6]
    && r.majorAxisLength == b[7] as int + 256 * b[8] as int
    && r.orientation == b[9]
  }

  ghost predicate ButtonRecordIn(b: seq<u8>, r: ButtonRecord)
    requires |b| == ButtonRecordSize
  {
    && r.length == b[0] as int + 256 * b[1] as int
    && r.reportId == b[2]
    && r.timeStamp == b[3] as int + 256 * b[4] as int
    && r.btnVal == b[5]
    && |r.btnSignal| == 4
    && forall i :: 0 <= i < 4 ==> r.btnSignal[i] == b[6 + 2 * i] as int + 256 * b[7 + 2 * i] as int
  }

  /** `TouchReport::from_bytes`. */
  function DecodeTouchReport(b: seq<u8>): (r: TouchReport)
    requires |b| == TouchReportSize
    ensures r.Valid() && TouchReportIn(b, r)
  {
    Split215(b[5]);
    Split233(b[6]);
    TouchReport(
      LeU16(b[0], b[1]),
      b[2],
      LeU16(b[3], b[4]),
      Field(b[5], 0, 2), Field(b[5], 2, 1), Field(b[5], 3, 5),
      Field(b[6], 0, 2), Field(b[6], 2, 3), Field(b[6], 5, 3))
  }

  /** `TouchRecord::from_bytes`. */
  function DecodeTouchRecord(b: seq<u8>): (r: TouchRecord)
    requires |b| == TouchRecordSize
    ensures r.Valid() && TouchRecordIn(b, r)
  {
    Split53(b[0]);
    Split125(b[1]);
    TouchRecord(
      Field(b[0], 0, 5), Field(b[0], 5, 3),
      Field(b[1], 0, 1), Field(b[1], 1, 2), Field(b[1], 3, 5),
      LeU16(b[2], b[3]),
      LeU16(b[4], b[5]),
      b[6],
      LeU16(b[7], b[8]),
      b[9])
  }

  /** `ButtonRecord::from_bytes`. */
  function DecodeButtonRecord(b: seq<u8>): (r: ButtonRecord)
    requires |b| == ButtonRecordSize
    ensures r.Valid() && ButtonRecordIn(b, r)
  {
    ButtonRecord(
      LeU16(b[0], b[1]),
      b[2],
      LeU16(b[3], b[4]),
      b[5],
      [LeU16(b[6], b[7]), LeU16(b[8], b[9]), LeU16(b[10], b[11]), LeU16(b[12], b[13])])
  }

  /** `TouchReport::into_bytes` (a proof aid: the driver never encodes). */
  function EncodeTouchReport(r: TouchReport): (b: seq<u8>)
    requires r.Valid()
    ensures |b| == TouchReportSize && TouchReportIn(b, r)
  {
    LeBytes(r.dataLen) + [r.reportId] + LeBytes(r.timeStamp)
    + [Pack215(r.padding0, r.largeObject, r.recordNum),
       Pack233(r.reportCounter, r.padding1, r.noiseEffect)]
  }

  /** `TouchRecord::into_bytes` (a proof aid). */
  function EncodeTouchRecord(r: TouchRecord): (b: seq<u8>)
    requires r.Valid()
    ensures |b| == TouchRecordSize && TouchRecordIn(b, r)
  {
    [Pack53(r.padding0, r.touchType), Pack125(r.tip, r.eventId, r.touchId)]
    + LeBytes(r.x) + LeBytes(r.y) + [r.pressure] + LeBytes(r.majorAxisLength) + [r.orientation]
  }

  /** `ButtonRecord::into_bytes` (a proof aid). */
  function EncodeButtonRecord(r: ButtonRecord): (b: seq<u8>)
    requires r.Valid()
    ensures |b| == ButtonRecordSize && ButtonRecordIn(b, r)
  {
    LeBytes(r.length) + [r.reportId] + LeBytes(r.timeStamp) + [r.btnVal]
    + LeBytes(r.btnSignal[0]) + LeBytes(r.btnSignal[1])
    + LeBytes(r.btnSignal[2]) + LeBytes(r.btnSignal[3])
  }

  /** Two byte strings that hold the same report are equal. */
  lemma TouchReportInBytesUnique(b: seq<u8>, c: seq<u8>, r: TouchReport)
    requires |b| == |c| == TouchReportSize
    requires TouchReportIn(b, r) && TouchReportIn(c, r)
    ensures b == c
  {
    assert forall k | 0 <= k < TouchReportSize :: b[k] == c[k];
  }

  /** Decoding a 7-byte report loses nothing: re-encoding gives the same bytes. */
  lemma TouchReportBytesRoundTrip(b: seq<u8>)
    requires |b| == TouchReportSize
    ensures EncodeTouchReport(DecodeTouchReport(b)) == b
  {
    var r := DecodeTouchReport(b);
    TouchReportInBytesUnique(EncodeTouchReport(r), b, r);
  }

  /** Every report the layout can hold is decoded back from its encoding. */
  lemma TouchReportRoundTrip(r: TouchReport)
    requires r.Valid()
    ensures DecodeTouchReport(EncodeTouchReport(r)) == r
  {
  }

  lemma TouchRecordInBytesUnique(b: seq<u8>, c: seq<u8>, r: TouchRecord)
    requires |b| == |c| == TouchRecordSize
    requires TouchRecordIn(b, r) && TouchRecordIn(c, r)
    ensures b == c
  {
    assert forall k | 0 <= k < TouchRecordSize :: b[k] == c[k];
  }

  lemma TouchRecordBytesRoundTrip(b: seq<u8>)
    requires |b| == TouchRecordSize
    ensures EncodeTouchRecord(DecodeTouchRecord(b)) == b
  {
    var r := DecodeTouchRecord(b);
    TouchRecordInBytesUnique(EncodeTouchRecord(r), b, r);
  }

  lemma TouchRecordRoundTrip(r: TouchRecord)
    requires r.Valid()
    ensures DecodeTouchRecord(EncodeTouchRecord(r)) == r
  {
  }

  lemma ButtonRecordBytesRoundTrip(b: seq<u8>)
    requires |b| == ButtonRecordSize
    ensures EncodeButtonRecord(DecodeButtonRecord(b)) == b
  {
  }

  lemma ButtonRecordRoundTrip(r: ButtonRecord)
    requires r.Valid()
    ensures DecodeButtonRecord(EncodeButtonRecord(r)) == r
  {
  }

  /** A report whose byte 5 is `0b00_1_01101`: no padding, the large-object flag set, 13 records. */
  lemma ReportByteFiveExample(b: seq<u8>)
    requires |b| == TouchReportSize && b[5] == 0x2D
    ensures var r := DecodeTouchReport(b);
      r.padding0 == 0 && r.largeObject == 1 && r.recordNum == 13
  {
    var r := DecodeTouchReport(b);
    assert 0x2D == r.padding0 * 64 + r.largeObject * 32 + r.recordNum;
  }

  /** A button record with length 14, report 3, button value 5 and no signal. */
  lemma ButtonRecordExample()
    ensures var r := DecodeButtonRecord([14, 0, 3, 0, 0, 5, 0, 0, 0, 0, 0, 0, 0, 0]);
      && r.length == 14 && r.reportId == 3 && r.btnVal % 16 == 5
      && r.btnSignal == [0, 0, 0, 0]
  {
  }
}
