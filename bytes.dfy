/** Machine types shared by every module of the firmware model. */
module Bytes {

  /** An 8-bit byte (`uint8_t`, and `char`, which the firmware treats as unsigned). */
  type byte = bv8

  /**
   * An 8-bit unsigned value as a number: a `uint8_t` or `char` in code that
   * only compares, adds and shifts it, where arithmetic is cheaper to
   * reason about than bit-vectors.
   */
  type uint8 = x: int | 0 <= x < 0x100

  /** A 16-bit unsigned value (`uint16_t`, and `unsigned`, which is 16 bits wide on the AVR). */
  type uint16 = x: int | 0 <= x < 0x1_0000

  /** 16-bit unsigned subtraction, wrapping modulo 2^16 as C does. */
  function Sub16(a: uint16, b: uint16): (r: uint16)
    ensures a >= b ==> r == a - b
    ensures a < b ==> r == a - b + 0x1_0000
  {
    (a - b) % 0x1_0000
  }

  /** Low byte of a 16-bit word (`lo8`). */
  function Lo8(w: bv16): byte {
    (w & 0xFF) as byte
  }

  /** High byte of a 16-bit word (`hi8`). */
  function Hi8(w: bv16): byte {
    (w >> 8) as byte
  }

  /** The 16-bit word whose high byte is `h` and whose low byte is `l`. */
  function Join(h: byte, l: byte): bv16 {
    ((h as bv16) << 8) | (l as bv16)
  }

  lemma JoinSplit(w: bv16)
    ensures Join(Hi8(w), Lo8(w)) == w
  {
  }

  lemma SplitJoin(h: byte, l: byte)
    ensures Hi8(Join(h, l)) == h && Lo8(Join(h, l)) == l
  {
  }

  /** A 16-bit word as two bytes, least significant first. */
  function Le16(w: bv16): (r: seq<byte>)
    ensures |r| == 2
  {
    [Lo8(w), Hi8(w)]
  }

  /** A 32-bit word as four bytes, least significant first. */
  function Le32(w: bv32): (r: seq<byte>)
    ensures |r| == 4
  {
    [(w & 0xFF) as byte, ((w >> 8) & 0xFF) as byte, ((w >> 16) & 0xFF) as byte, (w >> 24) as byte]
  }

  /** The 16-bit word whose little-endian bytes are `s`. */
  function FromLe16(s: seq<byte>): bv16
    requires |s| == 2
  {
    Join(s[1], s[0])
  }

  /** The 32-bit word whose little-endian bytes are `s`. */
  function FromLe32(s: seq<byte>): bv32
    requires |s| == 4
  {
    Join32(s[0], s[1], s[2], s[3])
  }

  /** The 32-bit word with bytes `b0` (least significant) to `b3`. */
  function Join32(b0: byte, b1: byte, b2: byte, b3: byte): bv32 {
    (b0 as bv32) | ((b1 as bv32) << 8) | ((b2 as bv32) << 16) | ((b3 as bv32) << 24)
  }

  lemma Join32Bytes(b0: byte, b1: byte, b2: byte, b3: byte)
    ensures Le32(Join32(b0, b1, b2, b3)) == [b0, b1, b2, b3]
  {
    Join32Byte0(b0, b1, b2, b3);
    Join32Byte1(b0, b1, b2, b3);
    Join32Byte2(b0, b1, b2, b3);
    Join32Byte3(b0, b1, b2, b3);
  }

  lemma Join32Byte0(b0: byte, b1: byte, b2: byte, b3: byte)
    ensures (Join32(b0, b1, b2, b3) & 0xFF) as byte == b0
  {
  }

  lemma Join32Byte1(b0: byte, b1: byte, b2: byte, b3: byte)
    ensures ((Join32(b0, b1, b2, b3) >> 8) & 0xFF) as byte == b1
  {
  }

  lemma Join32Byte2(b0: byte, b1: byte, b2: byte, b3: byte)
    ensures ((Join32(b0, b1, b2, b3) >> 16) & 0xFF) as byte == b2
  {
  }

  lemma Join32Byte3(b0: byte, b1: byte, b2: byte, b3: byte)
    ensures (Join32(b0, b1, b2, b3) >> 24) as byte == b3
  {
  }

  lemma Le16RoundTrip(w: bv16)
    ensures FromLe16(Le16(w)) == w
  {
    JoinSplit(w);
  }

  lemma Le32RoundTrip(w: bv32)
    ensures FromLe32(Le32(w)) == w
  {
  }

  lemma FromLe16RoundTrip(s: seq<byte>)
    requires |s| == 2
    ensures Le16(FromLe16(s)) == s
  {
    SplitJoin(s[1], s[0]);
  }

  lemma FromLe32RoundTrip(s: seq<byte>)
    requires |s| == 4
    ensures Le32(FromLe32(s)) == s
  {
    Join32Bytes(s[0], s[1], s[2], s[3]);
    assert s == [s[0], s[1], s[2], s[3]];
  }

  datatype Option<T> = None | Some(value: T)
}
