/**
 * The serial bootloader of bootloader/bootloader.c, which speaks a subset
 * of the STK500 version 1 protocol (Atmel application note AVR061): every
 * command ends in a space (`CRC_EOP`), and a reply is framed by
 * `STK_INSYNC` (0x14) and `STK_OK` (0x10) and is sent only when that space
 * arrives.  The serial line is an input sequence (what `getch` will read)
 * and an output sequence (what `putch` has written); a wait for a byte
 * becomes the precondition that the byte is there.
 */
module Bootloader {
  import opened Bytes

  const STK_INSYNC: uint8 := 0x14
  const STK_OK: uint8 := 0x10
  /** `' '`, the terminator of every command. */
  const CRC_EOP: uint8 := 0x20
  /** `'E'`, the memory-type byte that selects the EEPROM. */
  const MEM_EEPROM: uint8 := 0x45
  const BUFF_SIZE: nat := 256

  // ---------------------------------------------------------------------
  // Hex digits

  /** The lower-case hex digit `puthex` writes for a nibble. */
  function HexDigit(n: uint8): uint8
    requires n < 16
  {
    if n >= 0x0a then n - 0x0a + 0x61 else n + 0x30
  }

  /** `puthex`: the two digits of a byte, high nibble first (`(ch & 0xf0) >> 4`, then `ch & 0x0f`). */
  function Hex(x: uint8): (r: seq<uint8>)
    ensures |r| == 2
  {
    [HexDigit(x / 16), HexDigit(x % 16)]
  }

  /** The nibble `gethex` takes a character for: from `'a'` up, from `'0'` up, or itself. */
  function NibbleValue(c: uint8): uint8 {
    if c >= 0x61 then c - 0x61 + 0x0a else if c >= 0x30 then c - 0x30 else c
  }

  /** `gethex`'s result for two characters: `(ah << 4) + al`, truncated to a `char`. */
  function HexValue(ah: uint8, al: uint8): uint8 {
    (NibbleValue(ah) * 16 + NibbleValue(al)) % 0x100
  }

  predicate IsLowerHex(c: uint8) {
    0x30 <= c <= 0x39 || 0x61 <= c <= 0x66
  }

  /** Digits 0-9 are `'0'`-`'9'` and 10-15 are `'a'`-`'f'`. */
  lemma HexDigits(n: uint8)
    requires n < 16
    ensures IsLowerHex(HexDigit(n))
    ensures n < 10 ==> HexDigit(n) == 0x30 + n
    ensures n >= 10 ==> HexDigit(n) == 0x61 + (n - 10)
    ensures NibbleValue(HexDigit(n)) == n
  {
  }

  /** Reading back what `puthex` wrote gives the byte again. */
  lemma HexRoundTrip(x: uint8)
    ensures IsLowerHex(Hex(x)[0]) && IsLowerHex(Hex(x)[1])
    ensures HexValue(Hex(x)[0], Hex(x)[1]) == x
  {
    HexDigits(x / 16);
    HexDigits(x % 16);
  }

  /** Any two lower-case hex digits are what `puthex` writes for the byte `gethex` reads from them. */
  lemma HexValueRoundTrip(ah: uint8, al: uint8)
    requires IsLowerHex(ah) && IsLowerHex(al)
    ensures Hex(HexValue(ah, al)) == [ah, al]
  {
    var h, l := NibbleValue(ah), NibbleValue(al);
    assert h < 16 && l < 16;
    var x := h * 16 + l;
    assert HexValue(ah, al) == x;
    assert x / 16 == h && x % 16 == l;
  }

  /** Upper-case digits are not hex to `gethex`: `'A'` reads as 0x11. */
  lemma UpperCaseMisread()
    ensures NibbleValue(0x41) == 0x11
    ensures HexValue(0x41, 0x41) == 0x21
  {
  }

  // ---------------------------------------------------------------------
  // Replies, addresses and lengths

  /** A reply: sent, framed by `STK_INSYNC` and `STK_OK`, only when the command ended in a space. */
  function Reply(eop: uint8, body: seq<uint8>): (r: seq<uint8>)
    ensures eop != CRC_EOP <==> r == []
    ensures eop == CRC_EOP ==> |r| == |body| + 2 && r[0] == STK_INSYNC && r[1..|r| - 1] == body && r[|r| - 1] == STK_OK
  {
    if eop == CRC_EOP then [STK_INSYNC] + body + [STK_OK] else []
  }

  /** `byte[0]` of a `uint16_t` union, the low byte on the little-endian AVR. */
  function LowByte(w: uint16): uint8 {
    w % 0x100
  }

  /** `byte[1]` of a `uint16_t` union, the high byte. */
  function HighByte(w: uint16): uint8 {
    w / 0x100
  }

  /** The word whose union bytes are `hi` and `lo`: `word` after storing both. */
  function Word(hi: uint8, lo: uint8): (r: uint16)
    ensures HighByte(r) == hi && LowByte(r) == lo
  {
    hi * 0x100 + lo
  }

  /** The address of a `'U'` command: the first byte is the low byte. */
  function AddressWord(first: uint8, second: uint8): uint16 {
    Word(second, first)
  }

  /** The length of a `'d'` or `'t'` command: the first byte is the high byte. */
  function LengthWord(first: uint8, second: uint8): uint16 {
    Word(first, second)
  }

  /** A host that sends an address low byte first and a length high byte first is read correctly. */
  lemma WordOrders(a: uint16, n: uint16)
    ensures AddressWord(LowByte(a), HighByte(a)) == a
    ensures LengthWord(HighByte(n), LowByte(n)) == n
  {
  }

  /** The same two bytes read as an address and as a length are byte-swapped words. */
  lemma OppositeOrders(first: uint8, second: uint8)
    ensures LowByte(AddressWord(first, second)) == first && HighByte(AddressWord(first, second)) == second
    ensures HighByte(LengthWord(first, second)) == first && LowByte(LengthWord(first, second)) == second
  {
  }

  /** `address.word << 1`: a flash word address as a byte address, modulo 2^16. */
  function FlashByteAddress(word: uint16): (r: uint16)
    ensures word < 0x8000 ==> r == 2 * word
    ensures word >= 0x8000 ==> r == 2 * word - 0x1_0000
  {
    (2 * word) % 0x1_0000
  }

  /** An odd flash length is rounded up to even (`length.word++`, which wraps 0xFFFF to 0). */
  function EvenLength(n: uint16): (r: uint16)
    ensures r % 2 == 0
    ensures n % 2 == 0 ==> r == n
    ensures n % 2 == 1 && n < 0xFFFF ==> r == n + 1
    ensures n == 0xFFFF ==> r == 0
  {
    if LowByte(n) % 2 != 0 then (n + 1) % 0x1_0000 else n
  }

  /** `address.word` after `k` increments. */
  function Advance(start: uint16, k: nat): uint16 {
    (start + k) % 0x1_0000
  }

  /** The memory a `'t'` command reads: the EEPROM, flash below 64 KiB, or flash from 64 KiB up. */
  datatype Space = Eeprom | Flash | FlashFar

  /** The bytes a `'t'` command sends: `n` bytes from `start` on. */
  function ReadBlock(memory: (Space, uint16) -> uint8, space: Space, start: uint16, n: nat): (r: seq<uint8>)
    ensures |r| == n
    ensures forall w | 0 <= w < n :: r[w] == memory(space, Advance(start, w))
  {
    if n == 0 then [] else ReadBlock(memory, space, start, n - 1) + [memory(space, Advance(start, n - 1))]
  }

  /** One `eeprom_write_byte` call. */
  datatype EepromWrite = EepromWrite(addr: uint16, value: uint8)

  /** The EEPROM writes of a `'d'` command: the data bytes at consecutive addresses from `start`. */
  function EepromWrites(start: uint16, data: seq<uint8>): (r: seq<EepromWrite>)
    ensures |r| == |data|
    ensures forall w | 0 <= w < |data| :: r[w] == EepromWrite(Advance(start, w), data[w])
  {
    seq(|data|, w requires 0 <= w < |data| => EepromWrite(Advance(start, w), data[w]))
  }

  /** One more increment. */
  lemma AdvanceStep(start: uint16, k: nat)
    ensures Advance(start, k + 1) == (Advance(start, k) + 1) % 0x1_0000
  {
  }

  /**
   * The buffer slots the `'d'` store loop writes, as written: one for every
   * index below the length from the host, whatever that length is.
   */
  function StoreSlots(n: nat): (r: seq<nat>)
    ensures |r| == n && forall w | 0 <= w < n :: r[w] == w
  {
    seq(n, w => w)
  }

  /** A 257-byte block (length bytes 0x01 0x01) makes the store loop write one slot past `buff[256]`. */
  lemma BlockOverrunsBuffer()
    ensures LengthWord(0x01, 0x01) == BUFF_SIZE + 1
    ensures StoreSlots(LengthWord(0x01, 0x01))[BUFF_SIZE] == BUFF_SIZE
  {
  }

  // ---------------------------------------------------------------------
  // The serial line

  /** UART0 as the bootloader drives it: bytes still to arrive and bytes written. */
  class Serial {
    var input: seq<uint8>
    var output: seq<uint8>

    constructor (input: seq<uint8>)
      ensures this.input == input && output == []
    {
      this.input := input;
      output := [];
    }

    /** `getch`, once a byte has arrived. */
    method GetCh() returns (c: uint8)
      requires |input| > 0
      modifies this
      ensures c == old(input)[0] && input == old(input)[1..] && output == old(output)
    {
      c := input[0];
      input := input[1..];
    }

    /** `putch`. */
    method PutCh(c: uint8)
      modifies this
      ensures output == old(output) + [c] && input == old(input)
    {
      output := output + [c];
    }

    /** `getNch`: `count` bytes are read and ignored. */
    method GetNCh(count: uint8)
      requires |input| >= count
      modifies this
      ensures input == old(input)[count..] && output == old(output)
    {
      var i: int := 0;
      while i < count
        invariant 0 <= i <= count
        invariant input == old(input)[i..] && output == old(output)
      {
        var _ := GetCh();
        i := i + 1;
      }
    }

    /** `byte_response`: `val` in a reply if the next byte is the terminator. */
    method ByteResponse(val: uint8)
      requires |input| > 0
      modifies this
      ensures input == old(input)[1..]
      ensures output == old(output) + Reply(old(input)[0], [val])
    {
      var c := GetCh();
      if c == CRC_EOP {
        PutCh(STK_INSYNC);
        PutCh(val);
        PutCh(STK_OK);
      }
    }

    /** `nothing_response`: an empty reply if the next byte is the terminator. */
    method NothingResponse()
      requires |input| > 0
      modifies this
      ensures input == old(input)[1..]
      ensures output == old(output) + Reply(old(input)[0], [])
    {
      var c := GetCh();
      if c == CRC_EOP {
        PutCh(STK_INSYNC);
        PutCh(STK_OK);
      }
    }

    /** `gethex`: two characters are read and echoed, and the byte they spell is returned. */
    method GetHex() returns (r: uint8)
      requires |input| >= 2
      modifies this
      ensures r == HexValue(old(input)[0], old(input)[1])
      ensures input == old(input)[2..] && output == old(output) + old(input)[..2]
    {
      var ah := GetCh();
      PutCh(ah);
      var al := GetCh();
      PutCh(al);
      if ah >= 0x61 {
        ah := ah - 0x61 + 0x0a;
      } else if ah >= 0x30 {
        ah := ah - 0x30;
      }
      if al >= 0x61 {
        al := al - 0x61 + 0x0a;
      } else if al >= 0x30 {
        al := al - 0x30;
      }
      r := (ah as int * 16 + al) % 0x100;
    }

    /** `puthex`: the byte's two lower-case hex digits, high nibble first. */
    method PutHex(ch: uint8)
      modifies this
      ensures output == old(output) + Hex(ch) && input == old(input)
    {
      var ah := ch / 16;
      if ah >= 0x0a {
        ah := ah - 0x0a + 0x61;
      } else {
        ah := ah + 0x30;
      }
      var al := ch % 16;
      if al >= 0x0a {
        al := al - 0x0a + 0x61;
      } else {
        al := al + 0x30;
      }
      PutCh(ah);
      PutCh(al);
    }
  }

  // ---------------------------------------------------------------------
  // The memory commands

  /** The globals of bootloader.c that the `'U'`, `'d'` and `'t'` commands use. */
  class Loader {
    const serial: Serial
    const buff: array<uint8>
    /** `address.word`. */
    var address: uint16
    /** `length.word`. */
    var length: uint16
    /** `flags.eeprom`. */
    var eeprom: bool
    /** `flags.rampz`. */
    var rampz: bool
    var addressHigh: uint8
    /** The `eeprom_write_byte` calls made, in order. */
    var eepromWrites: seq<EepromWrite>

    ghost predicate Valid()
      reads this
    {
      buff.Length == BUFF_SIZE
    }

    constructor (serial: Serial)
      ensures Valid() && this.serial == serial && eepromWrites == []
    {
      this.serial := serial;
      buff := new uint8[BUFF_SIZE](_ => 0);
      address, length := 0, 0;
      eeprom, rampz := false, false;
      addressHigh := 0;
      eepromWrites := [];
    }

    /** `'U'`: the address arrives low byte first, then an empty reply. */
    method SetAddress()
      requires |serial.input| >= 3
      modifies this, serial
      ensures address == AddressWord(old(serial.input)[0], old(serial.input)[1])
      ensures serial.input == old(serial.input)[3..]
      ensures serial.output == old(serial.output) + Reply(old(serial.input)[2], [])
      ensures length == old(length) && eeprom == old(eeprom) && rampz == old(rampz)
      ensures addressHigh == old(addressHigh) && eepromWrites == old(eepromWrites)
    {
      var lo := serial.GetCh();
      address := Word(HighByte(address), lo);
      var hi := serial.GetCh();
      address := Word(hi, LowByte(address));
      serial.NothingResponse();
    }

    /**
     * `'d'`: the length arrives high byte first, then the memory type and
     * the data, which is stored in `buff`; on the terminator the EEPROM is
     * written byte by byte at consecutive addresses, or, for flash, the word
     * address is doubled into a byte address and an odd length evened up,
     * and an empty reply is sent.  A block longer than `buff` is read and
     * dropped with its terminator, unanswered, where the source stores it
     * past the end of `buff`.
     */
    method WriteMemory()
      requires Valid()
      requires |serial.input| >= 2
      requires |serial.input| >= 4 + LengthWord(serial.input[0], serial.input[1])
      modifies this, serial, buff
      ensures Valid()
      ensures var s := old(serial.input); var n := LengthWord(s[0], s[1]);
        && serial.input == s[4 + n..]
        && eeprom == (s[2] == MEM_EEPROM)
        && rampz == old(rampz)
        && (n <= BUFF_SIZE ==> buff[..n] == s[3..3 + n])
        && (n > BUFF_SIZE ==> buff[..] == old(buff[..]))
        && serial.output == old(serial.output) + (if n <= BUFF_SIZE then Reply(s[3 + n], []) else [])
        && (!(n <= BUFF_SIZE && s[3 + n] == CRC_EOP) ==>
             address == old(address) && length == n &&
             addressHigh == old(addressHigh) && eepromWrites == old(eepromWrites))
        && (n <= BUFF_SIZE && s[3 + n] == CRC_EOP && eeprom ==>
             address == Advance(old(address), n) && length == n &&
             addressHigh == old(addressHigh) &&
             eepromWrites == old(eepromWrites) + EepromWrites(old(address), s[3..3 + n]))
        && (n <= BUFF_SIZE && s[3 + n] == CRC_EOP && !eeprom ==>
             address == FlashByteAddress(old(address)) && length == EvenLength(n) &&
             addressHigh == (if HighByte(old(address)) > 127 then 1 else 0) && eepromWrites == old(eepromWrites))
    {
      ghost var s := serial.input;
      ghost var n := LengthWord(s[0], s[1]);
      ReadLength();
      assert length == n;
      eeprom := false;
      var kind := serial.GetCh();
      if kind == MEM_EEPROM {
        eeprom := true;
      }
      if length <= BUFF_SIZE {
        StoreBlock();
      } else {
        DiscardBlock();
      }
      assert s[4 + n..] == serial.input[1..];
      var eop := serial.GetCh();
      if eop == CRC_EOP && length <= BUFF_SIZE {
        Commit();
      }
    }

    /** The terminator branch of `'d'`: the block is written and an empty reply sent. */
    method Commit()
      requires Valid() && length <= BUFF_SIZE
      modifies this, serial
      ensures serial.output == old(serial.output) + [STK_INSYNC, STK_OK] && serial.input == old(serial.input)
      ensures eeprom == old(eeprom) && rampz == old(rampz)
      ensures eeprom ==>
        address == Advance(old(address), old(length)) && length == old(length) &&
        addressHigh == old(addressHigh) && eepromWrites == old(eepromWrites) + EepromWrites(old(address), buff[..old(length)])
      ensures !eeprom ==>
        address == FlashByteAddress(old(address)) && length == EvenLength(old(length)) &&
        addressHigh == (if HighByte(old(address)) > 127 then 1 else 0) && eepromWrites == old(eepromWrites)
    {
      if eeprom {
        WriteEeprom();
      } else {
        PrepareFlash();
      }
      serial.PutCh(STK_INSYNC);
      serial.PutCh(STK_OK);
    }

    /**
     * The flash branch of `'d'` up to the programming code: the bank from
     * the address's high bit, the word address doubled, an odd length evened up.
     */
    method PrepareFlash()
      modifies this
      ensures address == FlashByteAddress(old(address)) && length == EvenLength(old(length))
      ensures addressHigh == (if HighByte(old(address)) > 127 then 1 else 0)
      ensures eeprom == old(eeprom) && rampz == old(rampz) && eepromWrites == old(eepromWrites)
    {
      if HighByte(address) > 127 {
        addressHigh := 0x01;
      } else {
        addressHigh := 0x00;
      }
      address := (2 * address) % 0x1_0000;
      if LowByte(length) % 2 != 0 {
        length := (length + 1) % 0x1_0000;
      }
    }

    /** The length of a `'d'` or `'t'` command, high byte first. */
    method ReadLength()
      requires |serial.input| >= 2
      modifies this, serial
      ensures length == LengthWord(old(serial.input)[0], old(serial.input)[1])
      ensures serial.input == old(serial.input)[2..] && serial.output == old(serial.output)
      ensures address == old(address) && eeprom == old(eeprom) && rampz == old(rampz)
      ensures addressHigh == old(addressHigh) && eepromWrites == old(eepromWrites)
    {
      var hi := serial.GetCh();
      length := Word(hi, LowByte(length));
      var lo := serial.GetCh();
      length := Word(HighByte(length), lo);
    }

    /** The store loop of `'d'`: `length.word` bytes from the line into `buff`. */
    method StoreBlock()
      requires Valid() && length <= BUFF_SIZE && |serial.input| >= length
      modifies serial, buff
      ensures buff[..length] == old(serial.input)[..length]
      ensures serial.input == old(serial.input)[length..] && serial.output == old(serial.output)
    {
      var w := 0;
      while w < length
        invariant 0 <= w <= length
        invariant buff[..w] == old(serial.input)[..w]
        invariant serial.input == old(serial.input)[w..] && serial.output == old(serial.output)
      {
        var c := serial.GetCh();
        buff[w] := c;
        w := w + 1;
      }
    }

    /** A block too long for `buff` is read off the line and not stored. */
    method DiscardBlock()
      requires |serial.input| >= length
      modifies serial
      ensures serial.input == old(serial.input)[length..] && serial.output == old(serial.output)
    {
      var w := 0;
      while w < length
        invariant 0 <= w <= length
        invariant serial.input == old(serial.input)[w..] && serial.output == old(serial.output)
      {
        var _ := serial.GetCh();
        w := w + 1;
      }
    }

    /** The EEPROM loop of `'d'`: every stored byte is written, the address advancing once per byte. */
    method WriteEeprom()
      requires Valid() && length <= BUFF_SIZE
      modifies this
      ensures length == old(length) && eeprom == old(eeprom) && rampz == old(rampz) && addressHigh == old(addressHigh)
      ensures address == Advance(old(address), length)
      ensures eepromWrites == old(eepromWrites) + EepromWrites(old(address), buff[..length])
    {
      var w := 0;
      while w < length
        invariant 0 <= w <= length
        invariant address == Advance(old(address), w)
        invariant Valid()
        invariant length == old(length) && eeprom == old(eeprom) && rampz == old(rampz) && addressHigh == old(addressHigh)
        invariant eepromWrites == old(eepromWrites) + EepromWrites(old(address), buff[..w])
      {
        assert buff[..w + 1] == buff[..w] + [buff[w]];
        eepromWrites := eepromWrites + [EepromWrite(address, buff[w])];
        AdvanceStep(old(address), w);
        address := (address + 1) % 0x1_0000;
        w := w + 1;
      }
    }

    /**
     * `'t'`: the length arrives high byte first; from 32 Ki words up flash is
     * read beyond 64 KiB; a flash word address is doubled; on the terminator
     * the block is sent in a reply, the address advancing once per byte.
     * `memory` gives the contents of the EEPROM and of the flash.
     */
    method ReadMemory(memory: (Space, uint16) -> uint8)
      requires |serial.input| >= 4
      modifies this, serial
      ensures var s := old(serial.input);
        var start := if s[2] == MEM_EEPROM then old(address) else FlashByteAddress(old(address));
        var space := if s[2] == MEM_EEPROM then Eeprom else if old(address) > 0x7FFF then FlashFar else Flash;
        var n := LengthWord(s[0], s[1]);
        && length == n
        && rampz == (old(address) > 0x7FFF)
        && eeprom == (s[2] == MEM_EEPROM)
        && serial.input == s[4..]
        && serial.output == old(serial.output) + Reply(s[3], ReadBlock(memory, space, start, n))
        && address == (if s[3] == CRC_EOP then Advance(start, n) else start)
        && addressHigh == old(addressHigh) && eepromWrites == old(eepromWrites)
    {
      ghost var s := serial.input;
      ReadHeader();
      assert serial.input == s[3..];
      ReplyBlock(memory);
    }

    /** The reply of `'t'`: on the terminator, the block between the two status bytes. */
    method ReplyBlock(memory: (Space, uint16) -> uint8)
      requires |serial.input| >= 1
      modifies this, serial
      ensures serial.input == old(serial.input)[1..]
      ensures serial.output == old(serial.output) +
        Reply(old(serial.input)[0], ReadBlock(memory, if eeprom then Eeprom else if rampz then FlashFar else Flash, old(address), length))
      ensures address == (if old(serial.input)[0] == CRC_EOP then Advance(old(address), length) else old(address))
      ensures length == old(length) && eeprom == old(eeprom) && rampz == old(rampz)
      ensures addressHigh == old(addressHigh) && eepromWrites == old(eepromWrites)
    {
      ghost var out := serial.output;
      var eop := serial.GetCh();
      if eop == CRC_EOP {
        serial.PutCh(STK_INSYNC);
        SendBlock(memory);
        serial.PutCh(STK_OK);
        assert serial.output == out + ([STK_INSYNC] + ReadBlock(memory, if eeprom then Eeprom else if rampz then FlashFar else Flash, old(address), length) + [STK_OK]);
      }
    }

    /**
     * The length, the bank and the memory type of `'t'`: from 32 Ki words up
     * flash is read beyond 64 KiB, and a flash word address is doubled.
     */
    method ReadHeader()
      requires |serial.input| >= 3
      modifies this, serial
      ensures var s := old(serial.input);
        && length == LengthWord(s[0], s[1])
        && rampz == (old(address) > 0x7FFF)
        && eeprom == (s[2] == MEM_EEPROM)
        && address == (if s[2] == MEM_EEPROM then old(address) else FlashByteAddress(old(address)))
        && serial.input == s[3..] && serial.output == old(serial.output)
        && addressHigh == old(addressHigh) && eepromWrites == old(eepromWrites)
    {
      ReadLength();
      rampz := address > 0x7FFF;
      var kind := serial.GetCh();
      if kind == MEM_EEPROM {
        eeprom := true;
      } else {
        eeprom := false;
        address := (2 * address) % 0x1_0000;
      }
    }

    /** The send loop of `'t'`. */
    method SendBlock(memory: (Space, uint16) -> uint8)
      modifies this, serial
      ensures serial.output == old(serial.output) +
        ReadBlock(memory, if eeprom then Eeprom else if rampz then FlashFar else Flash, old(address), length)
      ensures address == Advance(old(address), length) && serial.input == old(serial.input)
      ensures length == old(length) && eeprom == old(eeprom) && rampz == old(rampz)
      ensures addressHigh == old(addressHigh) && eepromWrites == old(eepromWrites)
    {
      ghost var space := if eeprom then Eeprom else if rampz then FlashFar else Flash;
      var w := 0;
      while w < length
        invariant 0 <= w <= length
        invariant address == Advance(old(address), w)
        invariant serial.output == old(serial.output) + ReadBlock(memory, space, old(address), w)
        invariant serial.input == old(serial.input)
        invariant length == old(length) && eeprom == old(eeprom) && rampz == old(rampz)
        invariant addressHigh == old(addressHigh) && eepromWrites == old(eepromWrites)
      {
        var c := ReadByte(memory);
        serial.PutCh(c);
        assert ReadBlock(memory, space, old(address), w + 1) == ReadBlock(memory, space, old(address), w) + [memory(space, address)];
        AdvanceStep(old(address), w);
        address := (address + 1) % 0x1_0000;
        w := w + 1;
      }
    }

    /** `eeprom_read_byte`, `pgm_read_byte_near` or `pgm_read_byte_far` at the address, as the flags select. */
    method ReadByte(memory: (Space, uint16) -> uint8) returns (c: uint8)
      ensures c == memory(if eeprom then Eeprom else if rampz then FlashFar else Flash, address)
    {
      if eeprom {
        c := memory(Eeprom, address);
      } else if !rampz {
        c := memory(Flash, address);
      } else {
        c := memory(FlashFar, address);
      }
    }
  }
}
