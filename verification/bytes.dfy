/**
  Bytes, little-endian 16-bit words and sub-byte bit fields.

  Sub-byte fields follow the bit numbering of the `bondrewd` derive's default (msb0):
  within a byte the first declared field occupies the most significant bits, and
  `offset` counts bits from the most significant one. A field of `width` bits at msb0
  `offset` is read by shifting right by the `8 - offset - width` bits below it and
  masking with `2^width - 1`.
 */
module Bytes {

  /** An unsigned 8-bit value: one byte on the bus, or a `u8` struct field. */
  type u8 = x: int | 0 <= x < 0x100

  /** An unsigned 16-bit value (a `u16` struct field). */
  type u16 = x: int | 0 <= x < 0x1_0000

  function Pow2(n: nat): (p: nat)
    ensures p >= 1
  {
    if n == 0 then 1 else 2 * Pow2(n - 1)
  }

  /** The powers of two that byte-field shifts and masks use. */
  lemma Pow2Byte()
    ensures Pow2(0) == 1 && Pow2(1) == 2 && Pow2(2) == 4 && Pow2(3) == 8
    ensures Pow2(4) == 16 && Pow2(5) == 32 && Pow2(6) == 64 && Pow2(7) == 128
  {
  }

  /** `u16::from_le_bytes([lo, hi])`. */
  function LeU16(lo: u8, hi: u8): (v: u16)
    ensures v % 0x100 == lo && v / 0x100 == hi
  {
    lo + 0x100 * hi
  }

  /** The two bytes of `v` in little-endian order (`u16::to_le_bytes`). */
  function LeBytes(v: u16): (b: seq<u8>)
    ensures |b| == 2
    ensures LeU16(b[0], b[1]) == v
  {
    [v % 0x100, v / 0x100]
  }

  /** `(b >> (8 - offset - width)) & (2^width - 1)`: the msb0 field at `offset`. */
  function Field(b: u8, offset: nat, width: nat): (v: nat)
    requires 0 < width && offset + width <= 8
    ensures v < Pow2(width)
  {
    (b / Pow2(8 - offset - width)) % Pow2(width)
  }

  /** A byte is the sum of its msb0 fields of widths 2, 1 and 5. */
  lemma Split215(b: u8)
    ensures b == Field(b, 0, 2) * 64 + Field(b, 2, 1) * 32 + Field(b, 3, 5)
  {
    Pow2Byte();
    var q := b / 32;
    assert b == 32 * q + b % 32;
    assert q == 2 * (q / 2) + q % 2;
    assert q / 2 == b / 64;
    assert Field(b, 0, 2) == q / 2 && Field(b, 2, 1) == q % 2 && Field(b, 3, 5) == b % 32;
  }

  lemma Split233(b: u8)
    ensures b == Field(b, 0, 2) * 64 + Field(b, 2, 3) * 8 + Field(b, 5, 3)
  {
    Pow2Byte();
    var q := b / 8;
    assert b == 8 * q + b % 8;
    assert q == 8 * (q / 8) + q % 8;
    assert q / 8 == b / 64;
    assert Field(b, 0, 2) == q / 8 && Field(b, 2, 3) == q % 8 && Field(b, 5, 3) == b % 8;
  }

  lemma Split53(b: u8)
    ensures b == Field(b, 0, 5) * 8 + Field(b, 5, 3)
  {
    Pow2Byte();
    assert b == 8 * (b / 8) + b % 8;
    assert Field(b, 0, 5) == b / 8 && Field(b, 5, 3) == b % 8;
  }

  lemma Split125(b: u8)
    ensures b == Field(b, 0, 1) * 128 + Field(b, 1, 2) * 32 + Field(b, 3, 5)
  {
    Pow2Byte();
    var q := b / 32;
    assert b == 32 * q + b % 32;
    assert q == 4 * (q / 4) + q % 4;
    assert q / 4 == b / 128;
    assert Field(b, 0, 1) == q / 4 && Field(b, 1, 2) == q % 4 && Field(b, 3, 5) == b % 32;
  }

  /** `a << 6 | b << 5 | c`: the byte whose msb0 fields of widths 2, 1, 5 are `a`, `b`, `c`. */
  function Pack215(a: nat, b: nat, c: nat): (r: u8)
    requires a < 4 && b < 2 && c < 32
    ensures Field(r, 0, 2) == a && Field(r, 2, 1) == b && Field(r, 3, 5) == c
  {
    Pow2Byte();
    var r := a * 64 + b * 32 + c;
    assert r / 64 == a && r / 32 == 2 * a + b && r % 32 == c;
    assert a % 4 == a && (2 * a + b) % 2 == b;
    r
  }

  /** `a << 6 | b << 3 | c`: the byte whose msb0 fields of widths 2, 3, 3 are `a`, `b`, `c`. */
  function Pack233(a: nat, b: nat, c: nat): (r: u8)
    requires a < 4 && b < 8 && c < 8
    ensures Field(r, 0, 2) == a && Field(r, 2, 3) == b && Field(r, 5, 3) == c
  {
    Pow2Byte();
    var r := a * 64 + b * 8 + c;
    assert r / 64 == a && r / 8 == 8 * a + b && r % 8 == c;
    assert a % 4 == a && (8 * a + b) % 8 == b;
    r
  }

  /** `a << 3 | b`: the byte whose msb0 fields of widths 5, 3 are `a`, `b`. */
  function Pack53(a: nat, b: nat): (r: u8)
    requires a < 32 && b < 8
    ensures Field(r, 0, 5) == a && Field(r, 5, 3) == b
  {
    Pow2Byte();
    var r := a * 8 + b;
    assert r / 8 == a && r % 8 == b;
    r
  }

  /** `a << 7 | b << 5 | c`: the byte whose msb0 fields of widths 1, 2, 5 are `a`, `b`, `c`. */
  function Pack125(a: nat, b: nat, c: nat): (r: u8)
    requires a < 2 && b < 4 && c < 32
    ensures Field(r, 0, 1) == a && Field(r, 1, 2) == b && Field(r, 3, 5) == c
  {
    Pow2Byte();
    var r := a * 128 + b * 32 + c;
    assert r / 128 == a && r / 32 == 4 * a + b && r % 32 == c;
    assert a % 2 == a && (4 * a + b) % 4 == b;
    r
  }
}
