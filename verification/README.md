# TT21100 touch controller driver — frame decoding and handshake

A Dafny model of the core of the `tt21100` Rust driver for the TT21100 multi-touch
touchscreen controller. The chip sits on an I²C bus, and the driver polls it for events.
A poll is two transactions. The first reads a 2-byte little-endian length. The second
reads a frame of that many bytes, and the length prefix is repeated at the start of the
frame. The length tells what kind of frame it is:

- 2 means the queue is empty;
- 7, 17 and 27 are touch frames: a 7-byte touch report followed by zero, one or two 10-byte touch records;
- 14 is a button frame: one 14-byte button record;
- any other length is an error.

The blocking driver's `new` also runs a start-up handshake. It makes up to five length
reads and waits for the empty-queue length 2.

The repository has two drivers: `src/lib.rs` (blocking) and `tt21100-async/src/lib.rs`
(async). Their layouts, `event`, `read_message_length`, `touch_event` and `button_event`
are the same code, line for line. The model defines them once, and the table below cites
whichever file's lines a member is checked against. The only behavioural difference is
that the async `new` does no handshake.

Modules:

- `Wrappers` (wrappers.dfy): `Option`, `Result`, and `Outcome` (returns or panics).
- `Bytes` (bytes.dfy): the `u8`/`u16` ranges, little-endian words, and sub-byte fields read by shift and mask.
- `Layout` (layout.dfy): `TouchReport`, `TouchRecord` and `ButtonRecord`, their decoders (`from_bytes`), and encoders used only as proof aids.
- `Frame` (frame.dfy): `Error`, `Event`, `touch_event`, `button_event`, and the length `match` of `event`.
- `Driver` (driver.dfy): the bus oracle, `read_bytes`, `read_message_length`, `event`, and the handshake of `new`.

Bit order assumption: the `bondrewd` derive that generates `from_bytes` is not part of
this model. Its default bit numbering (msb0) is assumed. Sub-byte fields fill each byte
from its most significant bit, in declaration order. For example, byte 5 of the touch
report is `padding0` (bits 7-6), then `large_object` (bit 5), then `record_num` (bits 4-0).
Multi-byte fields are little-endian, as `default_endianness = "le"` declares. Padding
fields are kept in the datatypes, because they are real struct fields and the derived
`PartialEq` compares them.

The bus is an oracle. `bus(i)` is the reply to the i-th `write_read` transaction of one
operation: either the bytes the device sent, or the bus's own error `E`. `write_read`
fills the whole buffer it is given (`[0u8; 2]`, `[0u8; 32]`), so a reply normally has
exactly the buffer's size. For a reply of any other size the model adopts a convention:
the reply fills the zero-initialised buffer from the start, a shorter reply leaves zeros
after it, and a longer one is cut to the buffer's size (`Driver.Fill`). Each operation
also returns the byte count of every transaction it issued. This lets contracts say
which reads happened.

Under the msb0 bit order, byte 5 = `0b00_1_01101` of a touch report reads as no padding,
the large-object flag set and 13 records (`Layout.ReportByteFiveExample`). The driver
keeps no state between calls beyond the bus and interrupt-pin handles, and `event` does
not look at the interrupt line; only `data_available` does.

## Model

| member | source | states |
|---|---|---|
| `Bytes.LeU16` | src/lib.rs:183 | `u16::from_le_bytes([lo, hi])`: `lo` is the value's low byte (remainder by 256) and `hi` its high byte (quotient by 256), so the value is below 65536 |
| `Layout.DecodeTouchReport` | src/lib.rs:49-71 | every sub-byte field of the decoded report fits its width; `data_len` = b0 + 256·b1, `report_id` = b2, `time_stamp` = b3 + 256·b4; byte 5 = padding0·64 + large_object·32 + record_num; byte 6 = report_counter·64 + padding1·8 + noise_effect |
| `Layout.DecodeTouchRecord` | src/lib.rs:73-92 | byte 0 = padding0·8 + touch_type; byte 1 = tip·128 + event_id·32 + touch_id; x, y, major_axis_length are LE words at bytes 2-3, 4-5, 7-8; pressure = b6, orientation = b9; every field fits its width |
| `Layout.DecodeButtonRecord` | src/lib.rs:94-108 | length = b0 + 256·b1, report_id = b2, time_stamp = b3 + 256·b4, btn_val = b5, and btn_signal[i] = b(6+2i) + 256·b(7+2i) for i in 0..4 |
| `Layout.TouchReportBytesRoundTrip` | src/lib.rs:50-71 | decoding a 7-byte report loses no bit: re-encoding it gives the same 7 bytes, padding included |
| `Layout.TouchReportRoundTrip` | tt21100-async/src/lib.rs:47-68 | every report whose fields fit their widths is decoded back exactly from its 7-byte encoding |
| `Layout.TouchRecordBytesRoundTrip` | src/lib.rs:74-92 | decoding a 10-byte record loses no bit: re-encoding gives the same bytes |
| `Layout.TouchRecordRoundTrip` | tt21100-async/src/lib.rs:71-89 | every record whose fields fit their widths is decoded back exactly from its encoding |
| `Layout.ButtonRecordBytesRoundTrip` | src/lib.rs:95-108 | decoding 14 bytes as a button record loses nothing: re-encoding gives the same bytes |
| `Layout.ButtonRecordRoundTrip` | tt21100-async/src/lib.rs:92-105 | every button record with four signals is decoded back exactly from its 14-byte encoding |
| `Layout.TouchReportInBytesUnique` | src/lib.rs:52-71 | the report layout puts every bit of the 7 bytes in some field: two byte strings that hold the same report are equal |
| `Layout.TouchRecordInBytesUnique` | src/lib.rs:76-92 | the same for the 10-byte touch record |
| `Layout.ReportByteFiveExample` | src/lib.rs:59-64 | a report byte 5 of `0b00_1_01101` decodes to padding 0, large_object 1, record_num 13 |
| `Layout.ButtonRecordExample` | src/lib.rs:97-107 | a frame with length 14, report 3, button value 5 and zero signals decodes to those values, with `btn_val & 0x0F == 5` |
| `Frame.TouchEvent` | src/lib.rs:195-226 | on a message of at least 7 bytes it never fails (no `TryFromSliceError`) and returns a touch event; the first record is present iff the message has at least 17 bytes, the second iff it has exactly 27; re-encoding the event gives the message's first 7 + 10·(records) bytes, so the report comes from bytes 0..7 and the records from 7..17 and 17..27 |
| `Frame.TouchFrameRoundTrip` | src/lib.rs:201-220 | the report and records sliced at offsets 0, 7 and 17 re-encode to the frame they were sliced from |
| `Frame.ButtonEvent` | src/lib.rs:228-238 | succeeds iff the message has exactly 14 bytes, fails otherwise with `TryFromSliceError`, and the decoded record is valid and holds, field by field, what the 14 bytes carry (length and timestamp little-endian, four little-endian signal words) |
| `Frame.Classify` | src/lib.rs:168-173 | a frame yields an event iff its length is 7, 14, 17 or 27; length 2 gives `NoDataAvailable`; every other length n gives `InvalidMessageLen(n)` with that same n; 7/17/27 give touch events and 14 a button event that re-encode to the frame; `TryFromSliceError` never comes out |
| `Frame.TouchRecordsByLength` | tt21100-async/src/lib.rs:168-199 | touch frames of 7, 17 and 27 bytes give `(None, None)`, `(Some, None)` and `(Some, Some)` |
| `Frame.EventRoundTrip` | tt21100-async/src/lib.rs:140-145 | every event whose fields fit their layouts is classified and decoded back exactly from the frame that carries it |
| `Driver.Fill` | src/lib.rs:165-166 | the buffer has the requested size; a reply no longer than the buffer is its prefix, with zeros after it; a longer reply is cut to the buffer's size; an exact-size reply is the buffer (a convention for replies of the wrong size, see above) |
| `Driver.ReadBytes` | src/lib.rs:188-192 | a transaction succeeds iff the bus replies with data, and then fills exactly the requested number of bytes; a bus error comes back as `BusError` carrying it |
| `Driver.ReadMessageLength` | src/lib.rs:179-186 | the length is b0 + 256·b1 of the 2-byte read, so it is below 65536; a bus error is passed on as `BusError` |
| `Driver.ReadEvent` | src/lib.rs:162-174 | `event` first makes a 2-byte read; a bus error there returns `BusError` after that read alone; it panics iff the length n exceeds 32; otherwise the second read asks for exactly n bytes, a bus error on it returns `BusError` with that cause, a frame of length 2 gives `NoDataAvailable` and any n that is not 2, 7, 14, 17 or 27 gives `InvalidMessageLen(n)`; an event comes back only after both reads, and it re-encodes to the frame read; `TryFromSliceError` and `IOError` never come out |
| `Driver.EmptyQueueStillReadsFrame` | src/lib.rs:163-169 | for length 2 `event` still reads a 2-byte frame, then returns `NoDataAvailable`, or `BusError` if that read fails |
| `Driver.InvalidLengthIsSmall` | tt21100-async/src/lib.rs:135-145 | `InvalidMessageLen(n)` comes out only for an n of at most 32 that is not 2, 7, 14, 17 or 27, after a read of n bytes |
| `Driver.EventIffFrameLength` | tt21100-async/src/lib.rs:134-146 | `event` returns an event iff both transactions succeed and the length is 7, 14, 17 or 27 |
| `Driver.FramePrefixIsLength` | src/lib.rs:52-54 | a frame whose length field is its own size begins with that size in little-endian order, the same bytes the prefix read returns |
| `Driver.ReadEventDecodesFrame` | tt21100-async/src/lib.rs:135-143 | a device that sends a frame with a consistent length field is polled to exactly the event the frame carries, after reads of 2 and of the frame's length |
| `Driver.New` | src/lib.rs:140-151 | the handshake makes 1 to 5 two-byte length reads; all but the last returned an `Ok` length other than 2; it stops early only on a length of 2 or a bus error; it succeeds iff the last read was 2, returns that read's `BusError`, or else returns `InvalidMessageLen` with the last length |
| `Driver.HandshakeUnique` | src/lib.rs:141-146 | the handshake contract leaves exactly one result and read count for any bus |
| `Driver.HandshakeStopsAtFirstSettling` | src/lib.rs:141-149 | if read k (k < 5) is the first that returns 2 or fails, the handshake makes exactly k+1 reads; a 2 succeeds, and a bus error is returned unretried |
| `Driver.HandshakeExhausted` | src/lib.rs:148-150 | five lengths other than 2 make five reads and fail with `InvalidMessageLen` carrying the fifth length |
| `Driver.HandshakeThirdReadExample` | src/lib.rs:141-145 | lengths 7, 17, then 2 give success after exactly three reads |
| `Driver.OversizedLengthPanics` | src/lib.rs:165-166 | a length prefix of 33 makes `event` panic after the prefix read |
| `Driver.ReadEventGuarded` | src/lib.rs:168-173 | with a bounds check before the slice, `event` never panics: a length above 32 gives `InvalidMessageLen` after the prefix read alone, every other poll is unchanged, and `InvalidMessageLen` never carries a frame length |

## Left out

- The I²C transport (`write_read` to address 0x24, the `embedded_hal` and `embedded_hal_async` traits) is foreign bus I/O. It is replaced by the reply oracle `Bus`.
- `data_available` in both drivers reads or awaits the interrupt pin (`is_low`, `wait_for_low`), which is GPIO I/O. `Error.IOError` is kept as a variant, but nothing in the model produces it.
- The async driver's `new` (tt21100-async/src/lib.rs:122-124) only stores the two handles and makes no transaction. The model has no driver state, so the async driver is `Driver.ReadEvent` applied from the bus's first transaction.
- The async/await machinery and the two driver structs that hold the handles.
- The internals of the `bondrewd` derive. The generated `from_bytes` is replaced by explicit shift-and-mask decoders under the msb0 assumption stated above. `into_bytes` is never called by the driver; the `Encode…` functions are proof aids only.
- `Frame.TouchEvent`: requires at least 7 bytes. On a shorter message the source's `message[0..][..7]` panics. The `debug_assert!` in `touch_event` and `button_event` is not modelled, so both follow release builds. `event` only calls them with 7, 17 or 27 bytes and with 14 bytes respectively, so the assertions cannot fire through `event`.
- The `From<TryFromSliceError>` conversion is folded into `Frame.ButtonEvent`'s error. The `Debug`, `Clone` and `Copy` derives carry no behaviour.

## Findings

| source | as written | input that shows it | evidently intended | confidence | as-written member | corrected member |
|---|---|---|---|---|---|---|
| src/lib.rs:165-172 | `data[0..][..message_length]` slices the 32-byte buffer before the `match`, so any length above 32 panics, and the `n => Err(InvalidMessageLen(n))` arm never sees it (the same holds at tt21100-async/src/lib.rs:137-144) | length prefix bytes `0x21 0x00` (33) | return `InvalidMessageLen(33)` | medium, not executed | `Driver.OversizedLengthPanics` | `Driver.ReadEventGuarded` |

`Driver.ReadEventGuarded` agrees with `Driver.ReadEvent` on every bus where the latter does
not panic, so every property proved of `Driver.ReadEvent`'s returned results holds for the
corrected poll as well.
