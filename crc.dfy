/**
 * The CRC-16 accumulator of avr-libc (`_crc_ccitt_update` in <util/crc16.h>),
 * which packet.c uses for both directions of the serial protocol.  It is the
 * reflected CRC-CCITT (polynomial 0x1021, processed least significant bit
 * first), started from 0xFFFF by the callers.
 */
module Crc {
  import opened Bytes

  /** `d ^= d << 4` on the 8-bit value `d = data ^ lo8(crc)`. */
  function Spread(d0: byte): byte {
    d0 ^ (d0 << 4)
  }

  /** `((uint16_t)d << 8 | h) ^ (uint8_t)(d >> 4) ^ ((uint16_t)d << 3)`. */
  function Fold(d: byte, h: byte): bv16 {
    (((d as bv16) << 8) | (h as bv16)) ^ ((d >> 4) as bv16) ^ ((d as bv16) << 3)
  }

  /** One update step, in the table-free form avr-libc documents for `_crc_ccitt_update`. */
  function Update(crc: bv16, data: byte): bv16 {
    Fold(Spread(data ^ Lo8(crc)), Hi8(crc))
  }

  // The step is invertible: from its result and its data byte the previous
  // register can be recovered, and from its result and the previous register
  // the data byte can.  The inverse is written out below.

  /** The spread byte `d` that `Fold(d, _)` put into its result. */
  function Mixed(r: bv16): byte {
    var h := Hi8(r);
    h ^ (h >> 5)
  }

  /** The high byte `h` that `Fold(d, h)` put into its result, given `d`. */
  function PrevHigh(r: bv16, d: byte): byte {
    Lo8(r) ^ (d >> 4) ^ Lo8((d as bv16) << 3)
  }

  /** The register before an update step, from the register after it and the data byte. */
  function PrevCrc(r: bv16, data: byte): bv16 {
    var d := Mixed(r);
    Join(PrevHigh(r, d), Spread(d) ^ data)
  }

  /** The data byte of an update step, from the registers before and after it. */
  function PrevData(crc: bv16, r: bv16): byte {
    Spread(Mixed(r)) ^ Lo8(crc)
  }

  lemma MixedFold(d: byte, h: byte)
    ensures Mixed(Fold(d, h)) == d
  {
  }

  lemma PrevHighFold(d: byte, h: byte)
    ensures PrevHigh(Fold(d, h), d) == h
  {
  }

  lemma SpreadInvolution(d0: byte)
    ensures Spread(Spread(d0)) == d0
  {
  }

  lemma XorCancel(a: byte, b: byte)
    ensures (a ^ b) ^ b == a
  {
  }

  lemma MixedUpdate(crc: bv16, data: byte)
    ensures Mixed(Update(crc, data)) == Spread(data ^ Lo8(crc))
  {
    MixedFold(Spread(data ^ Lo8(crc)), Hi8(crc));
  }

  lemma PrevHighUpdate(crc: bv16, data: byte)
    ensures PrevHigh(Update(crc, data), Mixed(Update(crc, data))) == Hi8(crc)
  {
    MixedUpdate(crc, data);
    PrevHighFold(Spread(data ^ Lo8(crc)), Hi8(crc));
  }

  lemma PrevLowUpdate(crc: bv16, data: byte)
    ensures Spread(Mixed(Update(crc, data))) ^ data == Lo8(crc)
  {
    MixedUpdate(crc, data);
    SpreadInvolution(data ^ Lo8(crc));
    XorCancel(Lo8(crc), data);
  }

  /** `PrevCrc` undoes an update step. */
  lemma PrevCrcUpdate(crc: bv16, data: byte)
    ensures PrevCrc(Update(crc, data), data) == crc
  {
    PrevHighUpdate(crc, data);
    PrevLowUpdate(crc, data);
    JoinSplit(crc);
  }

  /** `PrevData` recovers the byte an update step folded in. */
  lemma PrevDataUpdate(crc: bv16, data: byte)
    ensures PrevData(crc, Update(crc, data)) == data
  {
    MixedUpdate(crc, data);
    SpreadInvolution(data ^ Lo8(crc));
    XorCancel(data, Lo8(crc));
  }

  /** With the data byte fixed, different registers give different results. */
  lemma UpdateInjectiveInCrc(c1: bv16, c2: bv16, data: byte)
    ensures Update(c1, data) == Update(c2, data) <==> c1 == c2
  {
    PrevCrcUpdate(c1, data);
    PrevCrcUpdate(c2, data);
  }

  /** With the register fixed, different data bytes give different results. */
  lemma UpdateInjectiveInData(crc: bv16, x1: byte, x2: byte)
    ensures Update(crc, x1) == Update(crc, x2) <==> x1 == x2
  {
    PrevDataUpdate(crc, x1);
    PrevDataUpdate(crc, x2);
  }

  /** The CRC of a byte sequence, folded from `init` in order. */
  function CrcOf(init: bv16, s: seq<byte>): bv16
    decreases |s|
  {
    if s == [] then init else Update(CrcOf(init, s[..|s| - 1]), s[|s| - 1])
  }

  /** Folding one more byte is one more update step. */
  lemma CrcOfSnoc(init: bv16, s: seq<byte>, b: byte)
    ensures CrcOf(init, s + [b]) == Update(CrcOf(init, s), b)
  {
    assert (s + [b])[..|s|] == s;
  }

  /** The fold over a concatenation continues from the fold over the first part. */
  lemma {:induction false} CrcOfConcat(init: bv16, a: seq<byte>, b: seq<byte>)
    ensures CrcOf(init, a + b) == CrcOf(CrcOf(init, a), b)
    decreases |b|
  {
    if b == [] {
      assert a + b == a;
    } else {
      var b' := b[..|b| - 1];
      assert a + b == (a + b') + [b[|b| - 1]];
      assert b == b' + [b[|b| - 1]];
      CrcOfSnoc(init, a + b', b[|b| - 1]);
      CrcOfSnoc(CrcOf(init, a), b', b[|b| - 1]);
      CrcOfConcat(init, a, b');
    }
  }

  /** Different starting registers stay different through any sequence of bytes. */
  lemma {:induction false} CrcOfInjective(v1: bv16, v2: bv16, s: seq<byte>)
    ensures CrcOf(v1, s) == CrcOf(v2, s) <==> v1 == v2
    decreases |s|
  {
    if s != [] {
      var n := |s| - 1;
      CrcOfInjective(v1, v2, s[..n]);
      UpdateInjectiveInCrc(CrcOf(v1, s[..n]), CrcOf(v2, s[..n]), s[n]);
    }
  }

  lemma UpdateLow(c: bv16)
    ensures Update(c, Lo8(c)) == Hi8(c) as bv16
  {
  }

  lemma UpdateHigh(c: bv16)
    ensures Update(Hi8(c) as bv16, Hi8(c)) == 0
  {
  }

  /** Folding a register's own two bytes, low byte first, clears it. */
  lemma CrcOfOwnBytes(c: bv16)
    ensures CrcOf(c, Le16(c)) == 0
  {
    assert Le16(c) == [Lo8(c)] + [Hi8(c)];
    CrcOfSnoc(c, [], Lo8(c));
    CrcOfSnoc(c, [Lo8(c)], Hi8(c));
    UpdateLow(c);
    UpdateHigh(c);
  }

  /**
   * The residue check: a sequence followed by its own CRC, low byte first,
   * folds to zero, and no other two bytes after it do.
   */
  lemma Residue(init: bv16, s: seq<byte>, c: bv16)
    ensures CrcOf(init, s + Le16(c)) == 0 <==> c == CrcOf(init, s)
  {
    CrcOfConcat(init, s, Le16(c));
    CrcOfOwnBytes(c);
    CrcOfInjective(CrcOf(init, s), c, Le16(c));
  }

  /**
   * Changing any one byte of a sequence changes its CRC, whatever the
   * starting register: the receiver's zero-residue check therefore catches
   * every frame in which a single unescaped byte (payload or CRC) differs.
   */
  lemma SingleByteChangeDetected(init: bv16, s: seq<byte>, k: nat, x: byte)
    requires k < |s| && x != s[k]
    ensures CrcOf(init, s[k := x]) != CrcOf(init, s)
  {
    var s' := s[k := x];
    var a, b := s[..k], s[k + 1..];
    assert s == (a + [s[k]]) + b;
    assert s' == (a + [x]) + b;
    CrcOfConcat(init, a + [s[k]], b);
    CrcOfConcat(init, a + [x], b);
    CrcOfSnoc(init, a, s[k]);
    CrcOfSnoc(init, a, x);
    UpdateInjectiveInData(CrcOf(init, a), s[k], x);
    CrcOfInjective(Update(CrcOf(init, a), s[k]), Update(CrcOf(init, a), x), b);
  }
}
