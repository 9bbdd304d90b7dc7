# RCMega128 firmware core, modelled in Dafny

This project models five pieces of the RCMega128 robot-controller firmware
for the ATmega128 and proves properties of each:

- **Packet framing** (`packet.c`): SLIP-framed packets (RFC 1055 byte stuffing:
  END 0xC0, ESC 0xDB, ESC_END 0xDC, ESC_ESC 0xDD) carrying a 16-bit CRC-CCITT.
  The module contains:
  - a sender that keeps `txCrc` and `txLen`;
  - a resumable receiver over a caller's buffer, driven by `rxPos` and `rxEsc`.
  It proves the frame round trip, CRC integrity and the buffer bounds and error codes.
- **Servo event table** (`servo.c`):
  - `SRV_SetPositions` builds 24 one-bit events, sorts them by tick and merges them in place into cumulative port masks.
  - `SRV_GetPositions` debounces port samples by AND-accumulation and reconstructs the 24 pulse widths. It walks the recorded table backwards.
- **RTTTL ringtone player** (`beeper.c`):
  - the character-driven `RTTTL_PlayByte` state machine, with its `number` pointer modelled as an enumeration of target fields;
  - `RTTTL_Init` and `RTTTL_Play`;
  - the cycle-count arithmetic of `Beep`.
- **UART ring buffers** (`uart.c`): power-of-two circular queues with head and tail indices, one slot always free.
- **Serial bootloader** (`bootloader/bootloader.c`):
  - the hex conversions `puthex` and `gethex`;
  - the STK500 version 1 reply framing of `byte_response` and `nothing_response` (Atmel application note AVR061);
  - the `'U'`, `'d'` and `'t'` commands: how they assemble addresses and lengths from the serial stream, and how they read and write memory.

Modules:

| module | file | what it holds |
|---|---|---|
| `Bytes` | `bytes.dfy` | byte and word types, little-endian splitting and joining, `Option` |
| `Crc` | `crc.dfy` | avr-libc's `_crc_ccitt_update` and its inverse |
| `Packet` | `packet.dfy` | `Sender`, `Receiver`, and the pure receive specification |
| `Servo` | `servo.dfy` | `ServoTable` and the merge and sampling specifications |
| `Beeper` | `beeper.dfy` | `Rtttl` and the per-byte and whole-melody specifications |
| `Uart` | `uart.dfy` | `Uart` and the ring-buffer contents |
| `Bootloader` | `bootloader.dfy` | `Serial`, `Loader`, hex, replies, words |

Conventions:

- **`char` is unsigned.** This assumes `-funsigned-char`. Otherwise `switch (c)` against 0xC0 and 0xDB in `packet.c` could never match, and `gethex`'s comparisons would differ for bytes from 0x80 up.
- **Integer widths follow avr-gcc.** `int` and `unsigned` are 16 bits, and the wrap-around is written out:
  - `Sub16`, `U16` and `Wrap16` for 16-bit arithmetic;
  - `% 0x1_0000` for word addresses;
  - C's truncating `/` as `CDiv`.
- **Clock.** F_CPU is 16 MHz (`bootloader/bootloader.c:23`), so `US_TICKS(t)` is 16·t and the `Beep` constants are 2 000 000 and 4000.
- **The serial line is a byte list.** A send appends to an output sequence and a receive takes from an input sequence. A busy-wait for a byte or for room becomes a precondition.
- **The CRC step.** `_crc_ccitt_update` is avr-libc code. It is modelled by the table-free form avr-libc documents for it: reflected CRC-CCITT, polynomial 0x8408, started at 0xFFFF.
- **`qsort`** is library code. It is modelled by an insertion sort with the same contract: the table ends sorted by `compare_uint16` and is a permutation of its input.
- **Documentation and code disagree on one point, and the model follows the code.** `PKT_ReceiveAsync`'s comment says a positive result is the length *including* the two CRC bytes. The code returns `length-2`, the payload length (`packet.c:138`, `packet.c:162`).

## Model

| member | source | states |
|---|---|---|
| Bytes.JoinSplit | packet.c:71-72 | the word rebuilt from its low and high byte is the word |
| Bytes.Le16RoundTrip | packet.c:69-73 | the low-first byte pair of a 16-bit value decodes back to that value |
| Bytes.Le32RoundTrip | packet.c:80-86 | the four low-first bytes of a 32-bit value decode back to that value |
| Crc.PrevCrcUpdate | packet.c:59 | one update step is undone by `PrevCrc`: the register before a step is determined by the register after it and the byte |
| Crc.PrevDataUpdate | packet.c:59 | the data byte of a step is determined by the registers before and after it |
| Crc.UpdateInjectiveInCrc | packet.c:59 | for a fixed byte, two registers give the same result exactly when they are equal |
| Crc.UpdateInjectiveInData | packet.c:59 | for a fixed register, two bytes give the same result exactly when they are equal |
| Crc.CrcOfConcat | packet.c:159-160 | the CRC fold over a concatenation continues from the fold over the first part |
| Crc.CrcOfInjective | packet.c:159-160 | different starting registers stay different after any byte sequence |
| Crc.CrcOfOwnBytes | packet.c:106-108 | folding a register's own two bytes, low first, leaves 0 |
| Crc.Residue | packet.c:158-161 | a block followed by a CRC word leaves residue 0 exactly when the word is the block's CRC |
| Crc.SingleByteChangeDetected | packet.c:158-164 | changing any one byte of a block changes its CRC |
| Packet.EscapeAllConcat | packet.c:94-99 | stuffing a concatenation stuffs its parts in turn |
| Packet.EscapedIsClean | packet.c:46-58 | stuffed bytes never contain END; every ESC is followed by ESC_END or ESC_ESC; the length grows at most twofold |
| Packet.Sender.constructor | packet.c:26-27 | zeroed `txCrc` and `txLen`, nothing sent |
| Packet.Sender.SendByte | packet.c:40-61 | a leading END and a CRC reset to 0xFFFF exactly when `txLen` is 0; the byte stuffed; the CRC folded over the unstuffed byte; `txLen` one higher |
| Packet.Sender.SendBlock | packet.c:94-99 | the block's bytes stuffed in order after one leading END if the frame is new; the CRC folded over the block; `txLen` grows by its length |
| Packet.Sender.SendUInt16 | packet.c:69-73 | the two bytes go out low byte first, and the CRC is folded over them in that order |
| Packet.Sender.SendUInt32 | packet.c:80-86 | the four bytes go out least significant first, and the CRC is folded over them in that order |
| Packet.Sender.EndPacket | packet.c:106-111 | the CRC register goes out low byte first, then END, and `txLen` is reset to 0 |
| Packet.Sender.SendPacket | packet.c:40-111 | a whole frame sent from idle is `Frame(p, stale)`; for a nonempty payload the register then holds CRC residue 0 |
| Packet.SentFrame | packet.c:94-111 | `SendBlock(p)` followed by `EndPacket()` puts exactly `Frame(p, stale)` on the wire, for empty and nonempty `p` |
| Packet.SentCrc | packet.c:59-60 | after a nonempty frame the register is the CRC of the frame body, which is 0 |
| Packet.RxStep | packet.c:147-182 | one loop pass keeps `rxPos` within `rxBufSize` and keeps the buffer's length and `rxBufSize` |
| Packet.Receive | packet.c:141-186 | one poll keeps `rxPos` within `rxBufSize` and keeps the buffer's length and `rxBufSize` |
| Packet.StepBounds | packet.c:152-181 | a pass that returns leaves the receiver reset, with ERR_CRC, ERR_OVERFLOW or a payload length at most `rxBufSize - 2` |
| Packet.ReceiveBounds | packet.c:141-186 | a poll returns 0, ERR_CRC, ERR_OVERFLOW or a payload length of at most `rxBufSize - 2`; it leaves a suffix of its input unread, and consumes at least one byte whenever it returns something other than 0 |
| Packet.StepEsc | packet.c:148-150 | ESC sets the escape flag and does nothing else |
| Packet.StepEnd | packet.c:152-166 | END resets `rxPos` and `rxEsc` and returns the verdict on the buffered bytes |
| Packet.StepFull | packet.c:177-181 | a data byte arriving into a full buffer resets the receiver and returns ERR_OVERFLOW (packet.h:19) |
| Packet.StepStore | packet.c:169-176 | a data byte with room is unescaped (ESC_END to END, ESC_ESC to ESC, anything else unchanged) and stored; the escape flag is cleared |
| Packet.VerdictAccepts | packet.c:157-164 | with two or more bytes buffered, END returns `length-2` exactly when the last two bytes are the CRC of the rest, low first, and ERR_CRC otherwise (packet.h:18) |
| Packet.ReceiveEnd | packet.c:152-166 | an END with fewer than two bytes buffered only resets and the poll goes on; with two or more it returns the verdict |
| Packet.ReceiveQuiet | packet.c:144-184 | bytes on which the loop does not return are consumed, and the poll continues after them |
| Packet.RunEscaped | packet.c:169-176 | a stuffed run read with room is stored in order, unstuffed, without a return |
| Packet.DecodeFrame | packet.c:141-186 | a leading END, a stuffed body and END give the CRC verdict on the body and leave it at the start of the buffer |
| Packet.RoundTrip | packet.c:40-111 | decoding a frame sent for a payload of n ≥ 1 bytes returns n, consumes exactly the frame, and leaves the payload in the buffer, given a buffer of at least n+2 bytes |
| Packet.EmptyFrame | packet.c:106-111 | a frame with no payload carries the stale register as its CRC and is accepted exactly when that register is 0xFFFF |
| Packet.EmptyFrameAfterPacket | packet.c:64-111 | an empty packet whose stale register is 0, as it is after reset and after every nonempty packet, is rejected with the CRC error |
| Packet.Resync | packet.c:152-166 | whatever state the receiver is in, a frame is decoded by the first poll, or, when its leading END flushes earlier bytes, by the next poll |
| Packet.CorruptedFrameRejected | packet.c:157-164 | a frame with any one body byte changed returns ERR_CRC |
| Packet.ReceiveFull | packet.c:169-181 | a byte arriving at a full buffer returns ERR_OVERFLOW, whether it is escaped or not |
| Packet.Overflow | packet.c:169-181 | a frame body longer than the buffer returns ERR_OVERFLOW |
| Packet.Receiver.constructor | packet.c:29-32 | no buffer, position 0, no escape pending |
| Packet.Receiver.BeginReceive | packet.c:123-129 | adopts the caller's buffer and size, with `rxPos` 0 and no escape pending |
| Packet.Receiver.ReceiveAsync | packet.c:141-186 | the new state, the unread input and the return value are exactly those of `Receive` on the old state and input |
| Packet.Receiver.Consume | packet.c:145-182 | one loop pass on the buffer array is exactly `RxStep` |
| Packet.Receiver.BufferCrc | packet.c:158-160 | the loop computes the CRC, from 0xFFFF, of the first `length` buffered bytes |
| Servo.Changed | servo.c:174 | the sampling loop's XOR/OR test is nonzero exactly when the sampled ports differ from the last recorded ones |
| Servo.ChannelsAnd | servo.c:173 | ANDing port bytes ANDs their 24 channel bits |
| Servo.ChannelsOr | servo.c:94-96 | ORing port bytes ORs their 24 channel bits |
| Servo.ChannelsNot | servo.c:189-191 | complementing port bytes complements their channel bits |
| Servo.ChannelsInjective | servo.c:174 | port bytes are equal exactly when their channel bits are |
| Servo.PortBitChannel | servo.c:193-218 | each `x & 0x..` test of the reconstruction reads the bit of its channel |
| Servo.PinsShrink | servo.c:173-174 | a sample that changes the accumulated pins clears at least one channel and sets none |
| Servo.CompareUint16 | servo.c:43-50 | the comparator returns 1, -1 or 0 exactly when the first tick is greater, smaller or equal |
| Servo.OneHotChannels | servo.c:65-79 | servo `i`'s mask has exactly channel `i` set |
| Servo.InitialEventsOneHot | servo.c:63-80 | entry `i` of the initial table has tick `positions[i]` and only channel `i` set |
| Servo.GroupEndWindow | servo.c:93 | a merge group holds the entries less than 30 ticks, modulo 2^16, after its first, and stops at the first entry that is not |
| Servo.GroupOrChannels | servo.c:93-98 | a channel is set in the running OR exactly when it was set before or in an entry of the group |
| Servo.MergedTicks | servo.c:88-99 | the merged entries have the first tick of each group, and consecutive merged ticks are at least 30 apart |
| Servo.MergedGrows | servo.c:86-103 | the masks are never reset, so each merged mask holds every channel of the one before it |
| Servo.MergedSpread | servo.c:86-102 | when every entry is at least 30 ticks after the one before it, each group holds one entry, so the merged table has one entry per event at the event's own tick |
| Servo.MergedSpreadTable | servo.c:86-121 | a sorted table of 24 events spaced at least 30 ticks apart merges into exactly 24 entries at the same, strictly increasing ticks, so the output loop makes 24 writes, one at each event |
| Servo.MergedEndsAll | servo.c:84-103 | after any sort of the initial table, there are 1 to 24 merged entries and the last one drives all lines: a = b = c = 0xFF |
| Servo.RecordedShrinks | servo.c:169-180 | each recorded mask is a strict subset of the previous one, and no more events are recorded than channels set |
| Servo.RecordedAtMost24 | servo.c:169-183 | the sampling loop records at most 24 events, so with the terminator the table needs at most 25 entries |
| Servo.RecordedFirstCleared | servo.c:187-219 | walking the table backwards, a channel ends up with the tick of the earliest sample in which it reads low |
| Servo.ReadBack | servo.c:183-219 | every one of the 24 positions is the tick of the first sample with its line low, minus 4000, modulo 2^16; a line never low gives 0-4000 |
| Servo.StaircaseOverrunsTable | servo.c:32 | twenty-four samples that each pull one more line low record 24 events, so the terminator lands at index 24 of the 24-entry table |
| Servo.RecordedEvery | servo.c:172-180 | when every sample clears a further bit, every sample is recorded |
| Servo.ServoTable.InitEvents | servo.c:63-80 | the first 24 entries become the initial one-bit table; the terminator slot is untouched |
| Servo.ServoTable.SortEvents | servo.c:82 | the 24 entries end sorted by tick and are a permutation of what they were |
| Servo.ServoTable.Insert | servo.c:82 | one insertion step extends the sorted prefix by one entry and keeps a permutation |
| Servo.ServoTable.Swap | servo.c:82 | exchanges two entries and keeps a permutation |
| Servo.ServoTable.ScanGroup | servo.c:93-98 | the inner loop stops at the end of the group and returns the running OR over it |
| Servo.ServoTable.MergeEvents | servo.c:86-104 | the in-place compaction leaves `Merged` of the sorted table in its first k entries, with 1 ≤ k ≤ 24 |
| Servo.ServoTable.Drive | servo.c:113-121 | releases every line, then writes each merged mask in turn to the direction registers |
| Servo.ServoTable.SetPositions | servo.c:59-123 | the direction registers see all lines released, then the merged masks of some sorted order of the initial table, the last of them driving all lines |
| Servo.ServoTable.Record | servo.c:168-181 | the sampling loop leaves exactly the recorded events, at most 24, at the start of the table |
| Servo.ServoTable.Reconstruct | servo.c:187-219 | the backward walk leaves the widths the table defines in all 24 positions |
| Servo.ServoTable.GetPositions | servo.c:135-219 | each position is the tick of the first sample with its line low, minus 4000; the direction registers see the 100 µs pulse; the table has the terminator slot it needs |
| Servo.Assign | servo.c:193-218 | exactly the positions whose bit is set receive the tick |
| Beeper.Wrap16 | beeper.c:92-93 | a value in the `int` range is kept and any other is reduced modulo 2^16 into it |
| Beeper.CDiv | beeper.c:148 | C's division agrees with floor division on non-negative operands |
| Beeper.CDivSymmetric | beeper.c:148 | truncating division is odd in each operand |
| Beeper.LoopFreq | beeper.c:67-72 | a pause (frequency 0) is timed as exactly 1000 Hz, any other frequency as itself, and the loop frequency is always nonzero and below 2^16 |
| Beeper.DelayPositive | beeper.c:76-77 | the delay is never 0, so the count's division is defined for every frequency |
| Beeper.DelayMatchesFrequency | beeper.c:76 | from 31 Hz up, the delay is the largest count whose `freq` half periods fit in one 2 MHz second |
| Beeper.CyclesFillDuration | beeper.c:77 | when the count fits in 16 bits, it is the largest number of half periods that fit in the duration |
| Beeper.WithFieldOnly | beeper.c:92-93 | writing through the `number` pointer changes the field it points to and nothing else |
| Beeper.ToUpper | beeper.c:89 | the result is never a lower-case letter; it is an upper-case letter exactly when the input is a letter of either case; a byte is changed only when it is a lower-case letter, and then by the distance from `a` to `A` |
| Beeper.ToUpperIdempotent | beeper.c:89 | raising a byte twice is raising it once |
| Beeper.Clamp | beeper.c:143-146 | the result lies in the range, is the input when the input does, the lower bound when the input is below it and the upper bound when it is above |
| Beeper.PlayedOctave | beeper.c:141-146 | the played octave lies in 3..8; a note's own octave in 3..8 is kept; a note without an octave (0) takes the default octave when that lies in 3..8, and octave 3 when the default is also 0 |
| Beeper.PlayedDuration | beeper.c:142-144 | the played duration divisor lies in 1..32; a note's own divisor in 1..32 is kept; a note without one (0) takes the default when that lies in 1..32, and 1 when the default is also 0 |
| Beeper.NoteFrequency | beeper.c:152-157 | the played frequency is at most 16 times the highest table entry |
| Beeper.DigitAppends | beeper.c:89-95 | with a target selected, a digit makes the target `target*10+digit` in 16 bits, and nothing else changes or sounds |
| Beeper.TitleSkipped | beeper.c:98-103 | in the title every byte but `:` is ignored, and `:` moves to the defaults |
| Beeper.ParamsSelect | beeper.c:105-125 | `o`, `d` and `b` zero and select their default; `:` starts the song with a zero duration as target; other bytes change nothing |
| Beeper.NotePlayed | beeper.c:140-169 | `,` or NUL plays the note (a tone for length-10 ms and a 10 ms pause for notes 0..13, one pause otherwise) and resets the note fields |
| Beeper.NoteKeepsTime | beeper.c:158-159 | a note of at least 10 ms and its pause together last the note length |
| Beeper.ShortNoteWraps | beeper.c:158 | a note shorter than 10 ms asks for a tone of 65526 ms or more, because the `unsigned` length wraps |
| Beeper.OctaveDoubles | beeper.c:153-157 | octave 4 plays the table entry itself, each octave above 4 doubles the frequency, and octave 3 halves the table entry |
| Beeper.NoteLengthPlain | beeper.c:148 | from 8 bpm up, the length is `(60000/(bpm/4))/duration` and at most 30000 ms |
| Beeper.RunSnoc | beeper.c:195-205 | playing one more byte is one more step of `RTTTL_PlayByte` |
| Beeper.RunConcat | beeper.c:195-205 | playing `a + b` plays `a`, then `b` from where `a` left off, and the tones follow in order |
| Beeper.PlayablePrefix | beeper.c:195-205 | every prefix of a melody that can be played can be played |
| Beeper.SilentBeforeSong | beeper.c:98-125 | no tone sounds before the `:` that starts the song |
| Beeper.Rtttl.Init | beeper.c:176-187 | default octave 5, default duration 4, 125 bpm, note -1, octave and duration 0, not dotted, no target, in the title |
| Beeper.Rtttl.Beep | beeper.c:65-84 | asks for one tone of the given frequency and length, changing no player field |
| Beeper.Rtttl.Store | beeper.c:92-93 | stores into the field the target names and changes nothing else |
| Beeper.Rtttl.PlayByte | beeper.c:87-173 | the record and the tones change exactly as `Next` says |
| Beeper.Rtttl.ParamsCase | beeper.c:105-125 | the defaults case changes the record as `ParamsByte` says |
| Beeper.Rtttl.SongCase | beeper.c:127-171 | the song case changes the record and the tones as `SongByte` says |
| Beeper.Rtttl.PlayNote | beeper.c:140-169 | the note is played as `NoteTones` says and the note fields are reset |
| Beeper.Rtttl.Normalize | beeper.c:141-146 | the octave and duration get their defaults and are clamped, and nothing else changes |
| Beeper.Rtttl.Sound | beeper.c:152-163 | the tones of a note whose octave and length are set |
| Beeper.ShiftLeft | beeper.c:155 | `x << k` is `x` times 2^k |
| Beeper.Play | beeper.c:195-205 | every byte of the melody and the terminating NUL is fed once, in order, from the initial state, and the tones are those of that run |
| Uart.Succ | uart.c:37 | `(i+1) & MASK` is the successor modulo the ring size |
| Uart.Used | uart.c:116 | `(tail-head) & MASK` is the difference modulo the ring size |
| Uart.EmptyIff | uart.c:73 | a ring is empty exactly when its head and tail are equal |
| Uart.FullIff | uart.c:37-38 | the tail's successor is the head exactly when the ring holds SIZE-1 bytes |
| Uart.ContentsPush | uart.c:37-40 | storing at the tail's successor and moving the tail appends the byte to the queue |
| Uart.ContentsPop | uart.c:76-78 | the byte at the head's successor is the oldest, and moving the head removes it |
| Uart.Uart.Init | uart.c:120-137 | both queues become empty, nothing is sent, and the transmit (data-register-empty) interrupt is left disabled |
| Uart.Uart.RxInterrupt | uart.c:34-42 | the received byte is appended unless the queue holds 255 bytes, when it is dropped and nothing changes |
| Uart.Uart.GetChar | uart.c:71-81 | with a byte queued, returns the oldest byte and removes it |
| Uart.Uart.CharsAvail | uart.c:114-117 | returns `(tail-head) & MASK`, which is the number of queued bytes and lies in 0..255 |
| Uart.Uart.PutChar | uart.c:84-96 | with room, appends the byte to the transmit queue and enables the transmit interrupt |
| Uart.Uart.TxInterrupt | uart.c:56-68 | sends and removes the oldest queued byte, or, with nothing queued, disables the interrupt |
| Uart.Uart.PutString | uart.c:99-103 | every byte before the terminating NUL is queued, in order |
| Bootloader.HexDigits | bootloader/bootloader.c:411-422 | nibbles 0-9 become `'0'`-`'9'` and 10-15 become `'a'`-`'f'`, and `gethex`'s conversion reads each back |
| Bootloader.HexRoundTrip | bootloader/bootloader.c:389-425 | `gethex` applied to what `puthex` writes gives the byte back |
| Bootloader.HexValueRoundTrip | bootloader/bootloader.c:389-425 | any two lower-case hex digits are what `puthex` writes for the byte `gethex` reads from them |
| Bootloader.UpperCaseMisread | bootloader/bootloader.c:394-398 | upper-case digits are not hex to `gethex`: `'A'` reads as 0x11 |
| Bootloader.Reply | bootloader/bootloader.c:452-468 | a reply is empty unless the next byte is the space; then it is 0x14, the body and 0x10 |
| Bootloader.Word | bootloader/bootloader.c:66-74 | the word stored through its union bytes has those bytes as its low and high byte |
| Bootloader.WordOrders | bootloader/bootloader.c:211-228 | an address sent low byte first and a length sent high byte first are read back as sent |
| Bootloader.OppositeOrders | bootloader/bootloader.c:211-228 | the same two bytes read as an address and as a length give byte-swapped words |
| Bootloader.FlashByteAddress | bootloader/bootloader.c:245 | the doubled word address is twice the word below 32 Ki words, and wraps modulo 2^16 from there up |
| Bootloader.EvenLength | bootloader/bootloader.c:246 | an odd length is rounded up to even, and the increment wraps 0xFFFF to 0 |
| Bootloader.ReadBlock | bootloader/bootloader.c:347-359 | the block has the requested length, and byte `w` is the memory at the start address plus `w`, modulo 2^16 |
| Bootloader.EepromWrites | bootloader/bootloader.c:236-239 | one EEPROM write per stored byte, at consecutive addresses |
| Bootloader.BlockOverrunsBuffer | bootloader/bootloader.c:81 | length bytes 0x01 0x01 make the store loop write `buff[256]`, one past the 256-byte buffer |
| Bootloader.Serial.GetCh | bootloader/bootloader.c:435-439 | returns the next byte and removes it from the line |
| Bootloader.Serial.PutCh | bootloader/bootloader.c:428-432 | appends the byte to the output |
| Bootloader.Serial.GetNCh | bootloader/bootloader.c:442-449 | reads and ignores `count` bytes |
| Bootloader.Serial.ByteResponse | bootloader/bootloader.c:452-459 | reads one byte; sends 0x14, `val`, 0x10 exactly when it is the space, and nothing otherwise |
| Bootloader.Serial.NothingResponse | bootloader/bootloader.c:462-468 | reads one byte; sends 0x14, 0x10 exactly when it is the space, and nothing otherwise |
| Bootloader.Serial.GetHex | bootloader/bootloader.c:389-405 | echoes both characters and returns `(hi<<4)+lo`, truncated to a byte |
| Bootloader.Serial.PutHex | bootloader/bootloader.c:408-425 | writes the byte's two lower-case hex digits |
| Bootloader.Loader.SetAddress | bootloader/bootloader.c:211-215 | the address is taken low byte first, then an empty reply is sent |
| Bootloader.Loader.ReadLength | bootloader/bootloader.c:227-228 | the length is taken high byte first |
| Bootloader.Loader.StoreBlock | bootloader/bootloader.c:231-233 | the next `length` bytes of the line land in `buff`, in order |
| Bootloader.Loader.DiscardBlock | bootloader/bootloader.c:231-233 | a block too long for `buff` is read off the line, byte for byte, and nothing is sent |
| Bootloader.Loader.WriteEeprom | bootloader/bootloader.c:235-239 | every stored byte is written to the EEPROM at consecutive addresses, and the address advances by the length |
| Bootloader.Loader.WriteMemory | bootloader/bootloader.c:226-331 | for every 16-bit length the line stays in step: exactly the length, type, data and terminator bytes are consumed. A block that fits lands in `buff`; on the space the EEPROM is written, or for flash the address is doubled, the length evened up, the bank selected, and an empty reply sent; otherwise only the length and the flag change. A block longer than `buff` leaves `buff`, the address, the bank and the EEPROM untouched and gets no reply |
| Bootloader.Loader.Commit | bootloader/bootloader.c:234-330 | on the terminator the EEPROM block is written, or the flash address, length and bank are prepared, and then 0x14, 0x10 is sent |
| Bootloader.Loader.PrepareFlash | bootloader/bootloader.c:242-246 | the bank is 1 exactly when the address's high byte is above 127; the word address is doubled modulo 2^16; an odd length is evened up |
| Bootloader.Loader.ReadHeader | bootloader/bootloader.c:336-344 | the length is taken high byte first; the far-flash flag is set from 32 Ki words up; a flash address is doubled |
| Bootloader.Loader.SendBlock | bootloader/bootloader.c:347-359 | sends `length` bytes of the selected memory from the address, which advances once per byte |
| Bootloader.Loader.ReadByte | bootloader/bootloader.c:348-355 | reads the EEPROM, flash below 64 KiB or flash from 64 KiB up, as the two flags select |
| Bootloader.Loader.ReplyBlock | bootloader/bootloader.c:345-361 | on the space, the block is sent between 0x14 and 0x10; otherwise nothing is sent and the address stays |
| Bootloader.Loader.ReadMemory | bootloader/bootloader.c:335-362 | the reply is the block of the selected memory from the doubled or plain address, the address advancing by the length |

## Left out

- Timer and port hardware of `servo.c`: TCCR1, TCNT1, OCR1A, TIFR and the busy-waits are not modelled (servo.c:108-111, 137-166, 182). Samples are an input sequence of (tick, PINA, PINB, PINC), and DDR writes are a list. Real timing cannot be stated here.
- Servo.ServoTable.Drive: the wait `while (TCNT1 < e->tick)` before each write is not modelled, only the order of the writes.
- `SRV_Init` and everything else in `servo.c` outside the two functions above.
- Servo.ServoTable.SortEvents: `qsort` is library code. It is modelled by an insertion sort with the same sorted-and-permutation contract. The order it leaves equal ticks in is not fixed, so `SetPositions` states its result for some sorted order.
- `US_TICKS` uses a floating-point literal. It is a compile-time constant, modelled as the integer 16·t.
- UART interrupt wiring and baud-register setup (uart.c:124-137): these are hardware registers.
- The duplicate UART1 receive handler (uart.c:45-53): it is the same code as the UART0 handler.
- The second data-register write `UDR1` of the transmit handler: only one sent list is kept.
- The `wdt_reset` spins: the waits become preconditions.
- Interrupt concurrency: each handler and each API call is one atomic step.
- `UART_PutString_P`: it reads from program memory, and is otherwise the same as `UART_PutString`.
- `RTTTL_Play_P` (beeper.c:213-224): it reads the melody from program memory with `pgm_read_byte_near`, and is otherwise the same loop as `RTTTL_Play`, which `Beeper.Play` models.
- Uart.Uart.PutString: it requires room for the whole string up front. The source waits for room before each byte while the transmit interrupt drains the queue, and that concurrency is not modelled.
- The pin toggling and `_delay_loop_2` of `Beep` (beeper.c:67-83): only the count arithmetic is kept.
- Beeper.Rtttl.PlayByte: it requires `bpm/4` to be nonzero when a note ends. Otherwise the source divides by zero, which is undefined behaviour in C.
- Beeper: digit accumulation into the 16-bit `int` fields wraps modulo 2^16 (`Wrap16`). C makes signed overflow undefined, and wrapping is what avr-gcc does.
- Packet.Sender.SendByte: `txLen` is an unbounded count. A frame of 32768 or more bytes would overflow the C `int`, which is undefined behaviour.
- Packet.Receive: `rxPos` and the `int length` copied from it (packet.c:143, 153) are unbounded counts. The model does not follow them past 32767 buffered bytes, where the C `int` would go negative. Reaching that needs a receive buffer of more than 32 KiB, which the part does not have.
- Packet.Sender.SendBlock, Packet.Receiver.BeginReceive: the C `int len` may be negative. The model takes a list, or a `nat` size, and so cannot represent that. A negative `len` makes `while (len--)` run until it wraps (packet.c:94-97). In `PKT_BeginReceive` it becomes a `uint16_t rxBufSize` of `len + 65536` (packet.c:30, 126), so data bytes are stored past the caller's buffer (packet.c:169-174).
- Packet.EmptyFrame: the empty-payload case is stated for any stale register. `EmptyFrameAfterPacket` names the usual consequence. The register is 0 after reset and after every nonempty packet, so an empty packet sent from those states is rejected, although `PKT_ReceiveAsync` would accept an empty payload with a valid CRC.
- The UART that `packet.c` uses is modelled as byte lists rather than through the `Uart` class: the packet code only sees it through `UART_PutChar`, `UART_CharsAvail` and `UART_GetChar`.
- Bootloader flash programming: the inline SPM assembly (bootloader/bootloader.c:247-324), page erase and the final page write are outside the model. Bootloader.Loader.WriteMemory states the address, length and bank handed to them.
- Bootloader.Loader.WriteMemory: a block longer than the 256-byte `buff` is dropped unanswered (the corrected behaviour in Findings). The source stores it past the end of `buff`, which is undefined behaviour in C and is not modelled.
- Bootloader.Loader.StoreBlock, Bootloader.Loader.WriteEeprom, Bootloader.Loader.Commit: these require a length of at most 256. `WriteMemory` calls them only for a block that fits `buff`, and a longer one goes to `DiscardBlock`.
- Flash and EEPROM reads: `pgm_read_byte_near`, `pgm_read_byte_far` and `eeprom_read_byte` are given as the function parameter `memory`.
- EEPROM writes are recorded as a list of (address, value) pairs.
- The bootloader's other commands and its main loop (entry, programmer identification, fuse commands, `flash_led`, the application jump).
- The UART registers of `putch` and `getch`.
- `adc.c`: it is a sleep-mode conversion with an interrupt flag.
- `main.c`: its dispatcher is a switch over ADC, EEPROM and servo calls.
- `misc.c`: its `hexdump` is formatting through library `printf` calls.

## Findings

| source | as written | input that shows it | evidently intended | confidence | as-written member | corrected member |
|---|---|---|---|---|---|---|
| servo.c:32, servo.c:168-183 | `servoEvents` has 24 entries. The sampling loop may record 24 events, and then the terminator is written at `servoEvents[24]` | twenty-four samples, each pulling one more servo line low (`Staircase`) | a table of 25 entries, 24 events and the terminator | high (not executed) | Servo.StaircaseOverrunsTable | Servo.ServoTable.GetPositions |
| bootloader/bootloader.c:81, bootloader/bootloader.c:226-233 | the `'d'` store loop writes `buff[w]` for every `w` below the host's length, and `buff` has 256 bytes | length bytes 0x01 0x01 (257) | a block longer than `buff` is read off the line and dropped unanswered, so the line stays in step and nothing past `buff` is written | high (not executed) | Bootloader.BlockOverrunsBuffer | Bootloader.Loader.WriteMemory |
