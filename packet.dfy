/**
 * Packet framing of the serial protocol (packet.c): SLIP byte stuffing in
 * the style of RFC 1055 with a trailing CRC-16 per frame.  The UART is a byte
 * list: the sender appends to `wire`, the receiver consumes `input`.
 */
module Packet {
  import opened Bytes
  import opened Crc

  const END: byte := 0xC0
  const ESC: byte := 0xDB
  const ESC_END: byte := 0xDC
  const ESC_ESC: byte := 0xDD

  const ERR_OK: int := 0
  const ERR_CRC: int := -1
  const ERR_OVERFLOW: int := -2
  const ERR_TIMEOUT: int := -3
  const ERR_UNKNOWN_CMD: int := -4
  const ERR_DATA_LENGTH: int := -5
  const ERR_BATTERY_LOW: int := -6

  /** The CRC register every frame starts from. */
  const CRC_INIT: bv16 := 0xFFFF

  // ---------------------------------------------------------------------
  // Byte stuffing

  /** How one payload byte goes out on the wire. */
  function Escape(b: byte): seq<byte> {
    if b == END then [ESC, ESC_END]
    else if b == ESC then [ESC, ESC_ESC]
    else [b]
  }

  /** How a run of payload bytes goes out on the wire. */
  function EscapeAll(s: seq<byte>): seq<byte> {
    if s == [] then [] else Escape(s[0]) + EscapeAll(s[1..])
  }

  lemma {:induction false} EscapeAllConcat(a: seq<byte>, b: seq<byte>)
    ensures EscapeAll(a + b) == EscapeAll(a) + EscapeAll(b)
  {
    if a != [] {
      assert (a + b)[1..] == a[1..] + b;
      EscapeAllConcat(a[1..], b);
    } else {
      assert a + b == b;
    }
  }

  lemma EscapeAllSnoc(s: seq<byte>, b: byte)
    ensures EscapeAll(s + [b]) == EscapeAll(s) + Escape(b)
  {
    EscapeAllConcat(s, [b]);
    assert EscapeAll([b]) == Escape(b) + EscapeAll([]);
  }

  /**
   * The stuffed form never contains a bare END, every ESC in it is followed
   * by ESC_END or ESC_ESC, and it is never shorter than the payload.
   */
  lemma {:induction false} EscapedIsClean(s: seq<byte>)
    ensures forall i :: 0 <= i < |EscapeAll(s)| ==> EscapeAll(s)[i] != END
    ensures forall i :: 0 <= i < |EscapeAll(s)| && EscapeAll(s)[i] == ESC ==>
              i + 1 < |EscapeAll(s)| && EscapeAll(s)[i + 1] in {ESC_END, ESC_ESC}
    ensures |s| <= |EscapeAll(s)| <= 2 * |s|
  {
    if s != [] {
      EscapedIsClean(s[1..]);
      var e, t := Escape(s[0]), EscapeAll(s[1..]);
      assert EscapeAll(s) == e + t;
      forall i | 0 <= i < |e + t| && (e + t)[i] == ESC
        ensures i + 1 < |e + t| && (e + t)[i + 1] in {ESC_END, ESC_ESC}
      {
        if i >= |e| {
          assert (e + t)[i] == t[i - |e|];
          assert (e + t)[i + 1] == t[i + 1 - |e|];
        }
      }
    }
  }

  // ---------------------------------------------------------------------
  // Send side

  /** A leading END goes out before the first byte of a frame. */
  function Lead(txLen: nat): seq<byte> {
    if txLen == 0 then [END] else []
  }

  /** The register the next byte is folded into: a new frame restarts it. */
  function Start(txLen: nat, txCrc: bv16): bv16 {
    if txLen == 0 then CRC_INIT else txCrc
  }

  /** The CRC word appended to payload `p`; an empty frame sends whatever the register holds. */
  function TrailerCrc(p: seq<byte>, stale: bv16): bv16 {
    if p == [] then stale else CrcOf(CRC_INIT, p)
  }

  /** The unstuffed content of the frame for payload `p`: the payload and its CRC, low byte first. */
  function Body(p: seq<byte>, stale: bv16): seq<byte> {
    p + Le16(TrailerCrc(p, stale))
  }

  /** The wire bytes of a whole frame for payload `p`, sent from idle with register `stale`. */
  function Frame(p: seq<byte>, stale: bv16): seq<byte> {
    [END] + EscapeAll(Body(p, stale)) + [END]
  }

  /** The transmitter state of packet.c: `txCrc`, `txLen`, and the bytes put to the UART. */
  class Sender {
    var txCrc: bv16
    var txLen: nat
    var wire: seq<byte>

    /** Static storage starts zeroed and nothing has been sent. */
    constructor ()
      ensures txCrc == 0 && txLen == 0 && wire == []
    {
      txCrc := 0;
      txLen := 0;
      wire := [];
    }

    /** `PKT_SendByte`. */
    method SendByte(u8: byte)
      modifies this`txCrc, this`txLen, this`wire
      ensures wire == old(wire) + Lead(old(txLen)) + Escape(u8)
      ensures txCrc == Update(Start(old(txLen), old(txCrc)), u8)
      ensures txLen == old(txLen) + 1
    {
      if txLen == 0 {
        wire := wire + [END];
        txCrc := 0xFFFF;
      }
      if u8 == END {
        wire := wire + [ESC];
        wire := wire + [ESC_END];
      } else if u8 == ESC {
        wire := wire + [ESC];
        wire := wire + [ESC_ESC];
      } else {
        wire := wire + [u8];
      }
      txCrc := Update(txCrc, u8);
      txLen := txLen + 1;
    }

    /** `PKT_SendBlock`: every byte of `data`, in order. */
    method SendBlock(data: seq<byte>)
      modifies this`txCrc, this`txLen, this`wire
      ensures data != [] ==> wire == old(wire) + Lead(old(txLen)) + EscapeAll(data)
      ensures data != [] ==> txCrc == CrcOf(Start(old(txLen), old(txCrc)), data)
      ensures data == [] ==> wire == old(wire) && txCrc == old(txCrc)
      ensures txLen == old(txLen) + |data|
    {
      var i := 0;
      while i < |data|
        invariant 0 <= i <= |data|
        invariant txLen == old(txLen) + i
        invariant BlockSent(old(wire), old(txLen), old(txCrc), data, i, wire, txCrc)
      {
        BlockSentNext(old(wire), old(txLen), old(txCrc), data, i, wire, txCrc);
        SendByte(data[i]);
        i := i + 1;
      }
      assert data[..|data|] == data;
    }

    /** `PKT_SendUInt16`: the low byte, then the high byte. */
    method SendUInt16(u16: bv16)
      modifies this`txCrc, this`txLen, this`wire
      ensures wire == old(wire) + Lead(old(txLen)) + EscapeAll(Le16(u16))
      ensures txCrc == CrcOf(Start(old(txLen), old(txCrc)), Le16(u16))
      ensures txLen == old(txLen) + 2
    {
      ghost var w0, c0 := wire, Start(txLen, txCrc);
      SendByte(Lo8(u16));
      SendByte(Hi8(u16));
      EscapeAllPair(Lo8(u16), Hi8(u16));
      CrcOfPair(c0, Lo8(u16), Hi8(u16));
      AppendEmpty(w0, Lead(old(txLen)), Escape(Lo8(u16)), Escape(Hi8(u16)));
    }

    /** `PKT_SendUInt32`: the four bytes, least significant first. */
    method SendUInt32(u32: bv32)
      modifies this`txCrc, this`txLen, this`wire
      ensures wire == old(wire) + Lead(old(txLen)) + EscapeAll(Le32(u32))
      ensures txCrc == CrcOf(Start(old(txLen), old(txCrc)), Le32(u32))
      ensures txLen == old(txLen) + 4
    {
      var b := Le32(u32);
      ghost var w0, c0 := wire, Start(txLen, txCrc);
      SendByte(b[0]);
      SendByte(b[1]);
      SendByte(b[2]);
      SendByte(b[3]);
      assert b == [b[0], b[1]] + [b[2], b[3]];
      EscapeAllPair(b[0], b[1]);
      EscapeAllPair(b[2], b[3]);
      EscapeAllConcat([b[0], b[1]], [b[2], b[3]]);
      CrcOfPair(c0, b[0], b[1]);
      CrcOfPair(CrcOf(c0, [b[0], b[1]]), b[2], b[3]);
      CrcOfConcat(c0, [b[0], b[1]], [b[2], b[3]]);
      AppendEmpty4(w0, Lead(old(txLen)), Escape(b[0]), Escape(b[1]), Escape(b[2]), Escape(b[3]));
    }

    /** `PKT_EndPacket`: the CRC register, low byte first, then END; the next byte starts a new frame. */
    method EndPacket()
      modifies this`txCrc, this`txLen, this`wire
      ensures wire == old(wire) + Lead(old(txLen)) + EscapeAll(Le16(old(txCrc))) + [END]
      ensures txCrc == CrcOf(Start(old(txLen), old(txCrc)), Le16(old(txCrc)))
      ensures txLen == 0
    {
      SendUInt16(txCrc);
      wire := wire + [END];
      txLen := 0;
    }

    /**
     * A reply as the firmware's callers issue it: from idle, the payload
     * bytes and then the end of the packet.  The wire carries exactly
     * `Frame(p, _)`, and after a non-empty payload the register is zero.
     */
    method SendPacket(p: seq<byte>)
      requires txLen == 0
      modifies this`txCrc, this`txLen, this`wire
      ensures wire == old(wire) + Frame(p, old(txCrc))
      ensures txCrc == CrcOf(CRC_INIT, Body(p, old(txCrc)))
      ensures p != [] ==> txCrc == 0
      ensures txLen == 0
    {
      ghost var w0, stale := wire, txCrc;
      SendBlock(p);
      EndPacket();
      SentFrame(w0, p, stale);
      SentCrc(p, stale);
    }
  }

  /** What `SendBlock` has put out after its first `i` bytes. */
  predicate BlockSent(w0: seq<byte>, t0: nat, c0: bv16, data: seq<byte>, i: nat, w: seq<byte>, crc: bv16)
    requires i <= |data|
  {
    if i == 0 then w == w0 && crc == c0
    else w == w0 + Lead(t0) + EscapeAll(data[..i]) && crc == CrcOf(Start(t0, c0), data[..i])
  }

  lemma BlockSentNext(w0: seq<byte>, t0: nat, c0: bv16, data: seq<byte>, i: nat, w: seq<byte>, crc: bv16)
    requires i < |data| && BlockSent(w0, t0, c0, data, i, w, crc)
    ensures BlockSent(w0, t0, c0, data, i + 1, w + Lead(t0 + i) + Escape(data[i]), Update(Start(t0 + i, crc), data[i]))
  {
    if i == 0 {
      BlockSentFirst(w0, t0, c0, data);
    } else {
      BlockSentLater(w0, t0, c0, data, i);
    }
  }

  lemma BlockSentFirst(w0: seq<byte>, t0: nat, c0: bv16, data: seq<byte>)
    requires 0 < |data|
    ensures BlockSent(w0, t0, c0, data, 1, w0 + Lead(t0) + Escape(data[0]), Update(Start(t0, c0), data[0]))
  {
    var s := data[..1];
    assert s == [] + [data[0]];
    EscapeAllSnoc([], data[0]);
    CrcOfSnoc(Start(t0, c0), [], data[0]);
  }

  lemma BlockSentLater(w0: seq<byte>, t0: nat, c0: bv16, data: seq<byte>, i: nat)
    requires 0 < i < |data|
    ensures var w, crc := w0 + Lead(t0) + EscapeAll(data[..i]), CrcOf(Start(t0, c0), data[..i]);
      BlockSent(w0, t0, c0, data, i + 1, w + Lead(t0 + i) + Escape(data[i]), Update(Start(t0 + i, crc), data[i]))
  {
    assert data[..i + 1] == data[..i] + [data[i]];
    EscapeAllSnoc(data[..i], data[i]);
    CrcOfSnoc(Start(t0, c0), data[..i], data[i]);
    AppendEmpty(w0, Lead(t0), EscapeAll(data[..i]), Escape(data[i]));
  }

  lemma EscapeAllPair(a: byte, b: byte)
    ensures EscapeAll([a, b]) == Escape(a) + Escape(b)
  {
    assert [a, b][1..] == [b];
    assert EscapeAll([b]) == Escape(b) + EscapeAll([]);
  }

  lemma CrcOfPair(init: bv16, a: byte, b: byte)
    ensures CrcOf(init, [a, b]) == Update(Update(init, a), b)
  {
    CrcOfSnoc(init, [], a);
    CrcOfSnoc(init, [a], b);
    assert [] + [a] == [a] && [a] + [b] == [a, b];
  }

  lemma AppendEmpty(w: seq<byte>, l: seq<byte>, e1: seq<byte>, e2: seq<byte>)
    ensures w + l + e1 + [] + e2 == w + l + (e1 + e2)
  {
  }

  lemma AppendEmpty4(w: seq<byte>, l: seq<byte>, e1: seq<byte>, e2: seq<byte>, e3: seq<byte>, e4: seq<byte>)
    ensures w + l + e1 + [] + e2 + [] + e3 + [] + e4 == w + l + ((e1 + e2) + (e3 + e4))
  {
  }

  /** The bytes `SendBlock(p); EndPacket()` put on the wire from idle form `Frame(p, stale)`. */
  lemma SentFrame(w0: seq<byte>, p: seq<byte>, stale: bv16)
    ensures p == [] ==> w0 + Lead(0) + EscapeAll(Le16(stale)) + [END] == w0 + Frame(p, stale)
    ensures p != [] ==>
      w0 + Lead(0) + EscapeAll(p) + Lead(|p|) + EscapeAll(Le16(CrcOf(Start(0, stale), p))) + [END] == w0 + Frame(p, stale)
  {
    if p != [] {
      var t := Le16(CrcOf(CRC_INIT, p));
      assert Body(p, stale) == p + t;
      EscapeAllConcat(p, t);
      assert Lead(|p|) == [] && Lead(0) == [END] && Start(0, stale) == CRC_INIT;
      Regroup(w0, [END], EscapeAll(p), EscapeAll(t), [END]);
    } else {
      assert Body(p, stale) == Le16(stale);
      Regroup(w0, [END], [], EscapeAll(Le16(stale)), [END]);
    }
  }

  lemma Regroup(w: seq<byte>, x: seq<byte>, a: seq<byte>, b: seq<byte>, y: seq<byte>)
    ensures w + x + a + [] + b + y == w + (x + (a + b) + y)
    ensures w + x + b + y == w + (x + ([] + b) + y)
  {
  }

  /** The register `SendBlock(p); EndPacket()` leave from idle is the CRC of the frame body. */
  lemma SentCrc(p: seq<byte>, stale: bv16)
    ensures p == [] ==> CrcOf(Start(0, stale), Le16(stale)) == CrcOf(CRC_INIT, Body(p, stale))
    ensures p != [] ==> CrcOf(Start(|p|, CrcOf(Start(0, stale), p)), Le16(CrcOf(Start(0, stale), p))) == CrcOf(CRC_INIT, Body(p, stale)) == 0
  {
    if p != [] {
      CrcOfConcat(CRC_INIT, p, Le16(CrcOf(CRC_INIT, p)));
      Residue(CRC_INIT, p, CrcOf(CRC_INIT, p));
    } else {
      assert Body(p, stale) == Le16(stale);
    }
  }

  // ---------------------------------------------------------------------
  // Receive side: the state machine as pure functions

  /** The receiver's state: the caller's buffer, its size, `rxPos` and `rxEsc`. */
  datatype RxState = RxState(buf: seq<byte>, size: nat, pos: nat, esc: bool)

  predicate WellFormed(st: RxState) {
    st.pos <= st.size <= |st.buf|
  }

  /** The state after one byte, and the value `PKT_ReceiveAsync` returns on it, if any. */
  datatype Step = Step(st: RxState, ret: Option<int>)

  /** A byte stored after ESC: ESC_END stands for END, ESC_ESC for ESC, anything else for itself. */
  function Unescape(esc: bool, c: byte): byte {
    if esc && c == ESC_END then END
    else if esc && c == ESC_ESC then ESC
    else c
  }

  /** The verdict on an END after `length` buffered bytes: nothing, the payload length, or a CRC error. */
  function Verdict(buf: seq<byte>, length: nat): Option<int>
    requires length <= |buf|
  {
    if length < 2 then None
    else if CrcOf(CRC_INIT, buf[..length]) == 0 then Some(length - 2)
    else Some(ERR_CRC)
  }

  /** One pass of the receive loop's body, on byte `c`. */
  function RxStep(st: RxState, c: byte): (r: Step)
    requires WellFormed(st)
    ensures WellFormed(r.st) && r.st.size == st.size && |r.st.buf| == |st.buf|
  {
    if c == ESC then
      Step(st.(esc := true), None)
    else if c == END then
      Step(st.(pos := 0, esc := false), Verdict(st.buf, st.pos))
    else if st.pos < st.size then
      Step(st.(buf := st.buf[st.pos := Unescape(st.esc, c)], pos := st.pos + 1, esc := false), None)
    else
      Step(st.(pos := 0, esc := false), Some(ERR_OVERFLOW))
  }

  /** What one call of `PKT_ReceiveAsync` leaves: the new state, the unread input, the return value. */
  datatype Poll = Poll(st: RxState, rest: seq<byte>, ret: int)

  /** One call of `PKT_ReceiveAsync` on the bytes waiting in the UART. */
  function Receive(st: RxState, input: seq<byte>): (r: Poll)
    requires WellFormed(st)
    ensures WellFormed(r.st) && r.st.size == st.size && |r.st.buf| == |st.buf|
    decreases |input|
  {
    if input == [] then Poll(st, [], ERR_OK)
    else
      var s := RxStep(st, input[0]);
      if s.ret.Some? then Poll(s.st, input[1..], s.ret.value)
      else Receive(s.st, input[1..])
  }

  /** A step that returns leaves the receiver idle, with an error code or a payload length that fits the buffer. */
  lemma StepBounds(st: RxState, c: byte)
    requires WellFormed(st)
    ensures RxStep(st, c).ret.Some? ==> RxStep(st, c).st.pos == 0 && !RxStep(st, c).st.esc
    ensures RxStep(st, c).ret.Some? ==>
      RxStep(st, c).ret.value in {ERR_CRC, ERR_OVERFLOW} || 0 <= RxStep(st, c).ret.value <= st.size - 2
  {
  }

  /**
   * A poll returns 0 (nothing complete), an error code, or a payload length
   * that fits the buffer; what it leaves unread is a suffix of its input, and
   * it consumes at least one byte whenever it returns something other than 0.
   */
  lemma {:induction false} ReceiveBounds(st: RxState, input: seq<byte>)
    requires WellFormed(st)
    ensures var r := Receive(st, input);
      (r.ret in {ERR_OK, ERR_CRC, ERR_OVERFLOW} || 0 <= r.ret <= st.size - 2) &&
      |r.rest| <= |input| && r.rest == input[|input| - |r.rest|..] &&
      (r.ret != ERR_OK ==> |r.rest| < |input|)
    decreases |input|
  {
    if input != [] {
      var s := RxStep(st, input[0]);
      StepBounds(st, input[0]);
      if s.ret.None? {
        ReceiveBounds(s.st, input[1..]);
        var r := Receive(s.st, input[1..]);
        assert input[1..][|input[1..]| - |r.rest|..] == input[|input| - |r.rest|..];
      }
    }
  }

  /** One pass of the loop either returns the step's verdict or continues on the rest of the input. */
  lemma ReceiveFirst(st: RxState, input: seq<byte>)
    requires WellFormed(st) && input != []
    ensures RxStep(st, input[0]).ret.Some? ==>
      Receive(st, input) == Poll(RxStep(st, input[0]).st, input[1..], RxStep(st, input[0]).ret.value)
    ensures RxStep(st, input[0]).ret.None? ==>
      Receive(st, input) == Receive(RxStep(st, input[0]).st, input[1..])
  {
  }

  // ---------------------------------------------------------------------
  // Receive side: what the state machine promises

  /** An END after two or more bytes accepts exactly when the last two are the CRC of the rest, low byte first. */
  lemma VerdictAccepts(buf: seq<byte>, length: nat)
    requires 2 <= length <= |buf|
    ensures Verdict(buf, length) == Some(length - 2) <==>
      buf[length - 2..length] == Le16(CrcOf(CRC_INIT, buf[..length - 2]))
    ensures Verdict(buf, length) != Some(length - 2) ==> Verdict(buf, length) == Some(ERR_CRC)
  {
    var p, t := buf[..length - 2], buf[length - 2..length];
    assert buf[..length] == p + t;
    FromLe16RoundTrip(t);
    Residue(CRC_INIT, p, FromLe16(t));
    Le16RoundTrip(CrcOf(CRC_INIT, p));
  }

  /** `buf` with `q` written from index `pos` on. */
  function Stored(buf: seq<byte>, pos: nat, q: seq<byte>): (r: seq<byte>)
    requires pos + |q| <= |buf|
    ensures |r| == |buf| && r[pos..pos + |q|] == q
  {
    buf[..pos] + q + buf[pos + |q|..]
  }

  /** The state after feeding `s` byte by byte, whatever the steps return. */
  function Run(st: RxState, s: seq<byte>): (r: RxState)
    requires WellFormed(st)
    ensures WellFormed(r) && r.size == st.size && |r.buf| == |st.buf|
    decreases |s|
  {
    if s == [] then st else Run(RxStep(st, s[0]).st, s[1..])
  }

  /** No byte of `s`, fed from `st`, makes the loop return. */
  predicate Quiet(st: RxState, s: seq<byte>)
    requires WellFormed(st)
    decreases |s|
  {
    s == [] || (RxStep(st, s[0]).ret.None? && Quiet(RxStep(st, s[0]).st, s[1..]))
  }

  /** Bytes on which the loop does not return are consumed, and the poll goes on after them. */
  lemma {:induction false} ReceiveQuiet(st: RxState, s: seq<byte>, tail: seq<byte>)
    requires WellFormed(st) && Quiet(st, s)
    ensures Receive(st, s + tail) == Receive(Run(st, s), tail)
    decreases |s|
  {
    if s == [] {
      assert s + tail == tail;
    } else {
      var input := s + tail;
      ReceiveFirst(st, input);
      assert input[0] == s[0] && input[1..] == s[1..] + tail;
      ReceiveQuiet(RxStep(st, s[0]).st, s[1..], tail);
    }
  }

  /** Feeding a concatenation feeds its parts in turn. */
  lemma {:induction false} RunConcat(st: RxState, a: seq<byte>, b: seq<byte>)
    requires WellFormed(st)
    ensures Quiet(st, a + b) <==> Quiet(st, a) && Quiet(Run(st, a), b)
    ensures Run(st, a + b) == Run(Run(st, a), b)
    decreases |a|
  {
    if a == [] {
      assert a + b == b;
    } else {
      assert (a + b)[0] == a[0] && (a + b)[1..] == a[1..] + b;
      RunConcat(RxStep(st, a[0]).st, a[1..], b);
    }
  }

  lemma StepEsc(st: RxState)
    requires WellFormed(st)
    ensures RxStep(st, ESC) == Step(st.(esc := true), None)
  {
  }

  lemma StepEnd(st: RxState)
    requires WellFormed(st)
    ensures RxStep(st, END) == Step(st.(pos := 0, esc := false), Verdict(st.buf, st.pos))
  {
  }

  lemma StepFull(st: RxState, c: byte)
    requires WellFormed(st) && c != END && c != ESC && st.pos == st.size
    ensures RxStep(st, c) == Step(st.(pos := 0, esc := false), Some(ERR_OVERFLOW))
  {
  }

  lemma StepStore(st: RxState, c: byte)
    requires WellFormed(st) && c != END && c != ESC && st.pos < st.size
    ensures RxStep(st, c) == Step(st.(buf := st.buf[st.pos := Unescape(st.esc, c)], pos := st.pos + 1, esc := false), None)
  {
  }

  /** Feeding one byte whose step does not return. */
  lemma RunOne(st: RxState, c: byte, next: RxState)
    requires WellFormed(st) && RxStep(st, c) == Step(next, None)
    ensures Quiet(st, [c]) && Run(st, [c]) == next
  {
    assert [c][1..] == [];
  }

  /** The stuffed form of one byte, read with no escape pending and room left, stores that byte. */
  lemma RunEscape(st: RxState, x: byte)
    requires WellFormed(st) && !st.esc && st.pos < st.size
    ensures Quiet(st, Escape(x))
    ensures Run(st, Escape(x)) == st.(buf := st.buf[st.pos := x], pos := st.pos + 1, esc := false)
  {
    var next := st.(buf := st.buf[st.pos := x], pos := st.pos + 1, esc := false);
    if x == END || x == ESC {
      var st1 := st.(esc := true);
      var code := if x == END then ESC_END else ESC_ESC;
      assert Escape(x) == [ESC] + [code];
      RunOne(st, ESC, st1);
      StepStore(st1, code);
      assert Unescape(true, code) == x;
      RunOne(st1, code, next);
      RunConcat(st, [ESC], [code]);
    } else {
      StepStore(st, x);
      RunOne(st, x, next);
    }
  }

  /** Writing the first byte of `q`, then the rest after it, writes all of `q`. */
  lemma StoredStep(buf: seq<byte>, pos: nat, q: seq<byte>)
    requires q != [] && pos + |q| <= |buf|
    ensures Stored(buf[pos := q[0]], pos + 1, q[1..]) == Stored(buf, pos, q)
  {
    var a, b := Stored(buf[pos := q[0]], pos + 1, q[1..]), Stored(buf, pos, q);
    assert forall i | 0 <= i < |a| :: a[i] == b[i];
  }

  /** A stuffed run, read with no escape pending and room left, is stored in order without a return. */
  lemma {:induction false} RunEscaped(st: RxState, q: seq<byte>)
    requires WellFormed(st) && !st.esc && st.pos + |q| <= st.size
    ensures Quiet(st, EscapeAll(q))
    ensures Run(st, EscapeAll(q)) == RxState(Stored(st.buf, st.pos, q), st.size, st.pos + |q|, false)
    decreases |q|
  {
    if q == [] {
      assert Stored(st.buf, st.pos, q) == st.buf;
    } else {
      var st1 := st.(buf := st.buf[st.pos := q[0]], pos := st.pos + 1, esc := false);
      assert EscapeAll(q) == Escape(q[0]) + EscapeAll(q[1..]);
      RunEscape(st, q[0]);
      RunEscaped(st1, q[1..]);
      RunConcat(st, Escape(q[0]), EscapeAll(q[1..]));
      StoredStep(st.buf, st.pos, q);
    }
  }

  /** A stuffed run, read with no escape pending and room left, is stored in order. */
  lemma ReceiveEscaped(st: RxState, q: seq<byte>, tail: seq<byte>)
    requires WellFormed(st) && !st.esc && st.pos + |q| <= st.size
    ensures Receive(st, EscapeAll(q) + tail) ==
      Receive(RxState(Stored(st.buf, st.pos, q), st.size, st.pos + |q|, false), tail)
  {
    RunEscaped(st, q);
    ReceiveQuiet(st, EscapeAll(q), tail);
  }

  /** The state after a whole frame body `q`: `q` at the start of the buffer, position and escape reset. */
  function AfterFrame(st: RxState, q: seq<byte>): RxState
    requires |q| <= |st.buf|
  {
    RxState(Stored(st.buf, 0, q), st.size, 0, false)
  }

  /** What the closing END of a body `q` of two or more bytes makes the loop return. */
  function FrameVerdict(q: seq<byte>): int {
    if CrcOf(CRC_INIT, q) == 0 then |q| - 2 else ERR_CRC
  }

  /** An END returns the verdict on the buffered bytes, or, with fewer than two, only resets. */
  lemma ReceiveEnd(st: RxState, tail: seq<byte>)
    requires WellFormed(st)
    ensures st.pos >= 2 ==>
      Receive(st, [END] + tail) == Poll(st.(pos := 0, esc := false), tail, Verdict(st.buf, st.pos).value)
    ensures st.pos < 2 ==>
      Receive(st, [END] + tail) == Receive(st.(pos := 0, esc := false), tail)
  {
    ReceiveFirst(st, [END] + tail);
    assert ([END] + tail)[1..] == tail;
  }

  lemma VerdictOnBody(buf: seq<byte>, q: seq<byte>)
    requires 2 <= |q| <= |buf|
    ensures Verdict(Stored(buf, 0, q), |q|) == Some(FrameVerdict(q))
  {
    assert Stored(buf, 0, q)[..|q|] == q;
  }

  lemma Assoc(a: seq<byte>, b: seq<byte>, c: seq<byte>)
    ensures a + b + c == a + (b + c)
  {
  }

  lemma Assoc4(a: seq<byte>, b: seq<byte>, c: seq<byte>, d: seq<byte>)
    ensures a + b + c + d == a + (b + c + d)
  {
  }

  /** A stuffed body and its closing END, read from an empty buffer, give the CRC verdict on the body. */
  lemma DecodeBody(st: RxState, q: seq<byte>, tail: seq<byte>)
    requires WellFormed(st) && st.pos == 0 && !st.esc && 2 <= |q| <= st.size
    ensures Receive(st, EscapeAll(q) + [END] + tail) == Poll(AfterFrame(st, q), tail, FrameVerdict(q))
  {
    var full := RxState(Stored(st.buf, 0, q), st.size, |q|, false);
    Assoc(EscapeAll(q), [END], tail);
    ReceiveEscaped(st, q, [END] + tail);
    ReceiveEnd(full, tail);
    VerdictOnBody(st.buf, q);
    assert full.(pos := 0, esc := false) == AfterFrame(st, q);
  }

  /**
   * A whole frame, read from a state with fewer than two buffered bytes,
   * gives the CRC verdict on its body: the leading END only resynchronises.
   */
  lemma DecodeFrame(st: RxState, q: seq<byte>, tail: seq<byte>)
    requires WellFormed(st) && st.pos <= 1 && 2 <= |q| <= st.size
    ensures Receive(st, [END] + EscapeAll(q) + [END] + tail) == Poll(AfterFrame(st, q), tail, FrameVerdict(q))
  {
    Assoc4([END], EscapeAll(q), [END], tail);
    ReceiveEnd(st, EscapeAll(q) + [END] + tail);
    DecodeBody(st.(pos := 0, esc := false), q, tail);
  }

  /** A nonempty payload followed by its CRC checks. */
  lemma BodyChecks(p: seq<byte>, stale: bv16)
    requires p != []
    ensures CrcOf(CRC_INIT, Body(p, stale)) == 0
  {
    Residue(CRC_INIT, p, CrcOf(CRC_INIT, p));
  }

  lemma StoredPrefix(buf: seq<byte>, q: seq<byte>, n: nat)
    requires n <= |q| <= |buf|
    ensures Stored(buf, 0, q)[..n] == q[..n]
  {
  }

  /**
   * Round trip: the frame the sender puts out for a payload of n >= 1 bytes,
   * read into a buffer of at least n + 2 bytes, returns n and leaves the
   * payload at the start of the buffer, followed by its CRC.
   */
  lemma RoundTrip(st: RxState, p: seq<byte>, stale: bv16, tail: seq<byte>)
    requires WellFormed(st) && st.pos <= 1 && 1 <= |p| && |p| + 2 <= st.size
    ensures Receive(st, Frame(p, stale) + tail).ret == |p|
    ensures Receive(st, Frame(p, stale) + tail).rest == tail
    ensures Receive(st, Frame(p, stale) + tail).st.buf[..|p|] == p
  {
    var q := Body(p, stale);
    BodyChecks(p, stale);
    DecodeFrame(st, q, tail);
    StoredPrefix(st.buf, q, |p|);
    assert q[..|p|] == p;
  }

  /**
   * An empty packet carries the stale register instead of a CRC: it is
   * accepted, as a 0-byte payload, only when that register is 0xFFFF.
   */
  lemma EmptyFrame(st: RxState, stale: bv16, tail: seq<byte>)
    requires WellFormed(st) && st.pos <= 1 && 2 <= st.size
    ensures Receive(st, Frame([], stale) + tail).ret == (if stale == CRC_INIT then 0 else ERR_CRC)
    ensures Receive(st, Frame([], stale) + tail).rest == tail
  {
    var q := Body([], stale);
    assert q == [] + Le16(stale);
    Residue(CRC_INIT, [], stale);
    DecodeFrame(st, q, tail);
  }

  /**
   * The sender's register is 0 after reset and after every nonempty packet,
   * so an empty packet sent from either state is rejected.
   */
  lemma EmptyFrameAfterPacket(st: RxState, tail: seq<byte>)
    requires WellFormed(st) && st.pos <= 1 && 2 <= st.size
    ensures Receive(st, Frame([], 0) + tail).ret == ERR_CRC
  {
    EmptyFrame(st, 0, tail);
  }

  lemma FrameTail(x: byte, e: seq<byte>, tail: seq<byte>)
    ensures ([x] + e + [x])[1..] + tail == e + [x] + tail
  {
  }

  /**
   * Whatever state the receiver is in, a well-formed frame is decoded by the
   * first poll or, when the leading END flushes earlier bytes, by the next.
   */
  lemma Resync(st: RxState, p: seq<byte>, stale: bv16, tail: seq<byte>)
    requires WellFormed(st) && 1 <= |p| && |p| + 2 <= st.size
    ensures var r := Receive(st, Frame(p, stale) + tail);
      (r.ret == |p| && r.rest == tail) ||
      (r.rest == Frame(p, stale)[1..] + tail &&
       Receive(r.st, r.rest).ret == |p| && Receive(r.st, r.rest).rest == tail)
  {
    if st.pos <= 1 {
      RoundTrip(st, p, stale, tail);
    } else {
      var q := Body(p, stale);
      Assoc4([END], EscapeAll(q), [END], tail);
      ReceiveEnd(st, EscapeAll(q) + [END] + tail);
      FrameTail(END, EscapeAll(q), tail);
      BodyChecks(p, stale);
      DecodeBody(st.(pos := 0, esc := false), q, tail);
    }
  }

  /**
   * A frame whose unstuffed body differs from a correct one in any single
   * byte, payload or CRC, is rejected with ERR_CRC.
   */
  lemma CorruptedFrameRejected(st: RxState, p: seq<byte>, stale: bv16, k: nat, x: byte, tail: seq<byte>)
    requires WellFormed(st) && st.pos <= 1 && 1 <= |p| && |p| + 2 <= st.size
    requires k < |Body(p, stale)| && x != Body(p, stale)[k]
    ensures Receive(st, [END] + EscapeAll(Body(p, stale)[k := x]) + [END] + tail).ret == ERR_CRC
  {
    var q := Body(p, stale);
    BodyChecks(p, stale);
    SingleByteChangeDetected(CRC_INIT, q, k, x);
    DecodeFrame(st, q[k := x], tail);
  }

  /** A byte read into a full buffer returns ERR_OVERFLOW, escaped or not. */
  lemma ReceiveFull(st: RxState, x: byte, more: seq<byte>)
    requires WellFormed(st) && !st.esc && st.pos == st.size
    ensures Receive(st, Escape(x) + more).ret == ERR_OVERFLOW
  {
    if x == END || x == ESC {
      var code := if x == END then ESC_END else ESC_ESC;
      PairFront(ESC, code, more);
      ReceiveFullEscaped(st, code, more);
    } else {
      ReceiveFullPlain(st, x, more);
    }
  }

  lemma PairFront(a: byte, b: byte, more: seq<byte>)
    ensures [a, b] + more == [a] + ([b] + more)
  {
  }

  lemma ReceiveFullPlain(st: RxState, x: byte, more: seq<byte>)
    requires WellFormed(st) && st.pos == st.size && x != END && x != ESC
    ensures Receive(st, [x] + more).ret == ERR_OVERFLOW
  {
    StepFull(st, x);
    ReceiveFirst(st, [x] + more);
  }

  lemma ReceiveFullEscaped(st: RxState, code: byte, more: seq<byte>)
    requires WellFormed(st) && st.pos == st.size && code != END && code != ESC
    ensures Receive(st, [ESC] + ([code] + more)).ret == ERR_OVERFLOW
  {
    var st1 := st.(esc := true);
    StepEsc(st);
    RunOne(st, ESC, st1);
    ReceiveQuiet(st, [ESC], [code] + more);
    ReceiveFullPlain(st1, code, more);
  }

  /** Splitting a stuffed run before its byte `n`. */
  lemma EscapeAllAt(q: seq<byte>, n: nat)
    requires n < |q|
    ensures EscapeAll(q) == EscapeAll(q[..n]) + (Escape(q[n]) + EscapeAll(q[n + 1..]))
  {
    var r := q[n..];
    assert q == q[..n] + r;
    EscapeAllConcat(q[..n], r);
    assert r[0] == q[n] && r[1..] == q[n + 1..];
  }

  lemma Assoc3(a: seq<byte>, b: seq<byte>, c: seq<byte>, d: seq<byte>)
    ensures a + (b + c) + d == a + (b + (c + d))
  {
  }

  /** A stuffed body longer than the buffer, read from an empty buffer, gives ERR_OVERFLOW. */
  lemma OverflowBody(st: RxState, q: seq<byte>, tail: seq<byte>)
    requires WellFormed(st) && st.pos == 0 && !st.esc && st.size < |q|
    ensures Receive(st, EscapeAll(q) + tail).ret == ERR_OVERFLOW
  {
    var n := st.size;
    var head, x, more := q[..n], q[n], EscapeAll(q[n + 1..]) + tail;
    EscapeAllAt(q, n);
    Assoc3(EscapeAll(head), Escape(x), EscapeAll(q[n + 1..]), tail);
    assert EscapeAll(q) + tail == EscapeAll(head) + (Escape(x) + more);
    ReceiveEscaped(st, head, Escape(x) + more);
    var full := RxState(Stored(st.buf, 0, head), n, n, false);
    assert Receive(st, EscapeAll(q) + tail) == Receive(full, Escape(x) + more);
    ReceiveFull(full, x, more);
  }

  /** A frame body longer than the buffer gives ERR_OVERFLOW. */
  lemma Overflow(st: RxState, q: seq<byte>, tail: seq<byte>)
    requires WellFormed(st) && st.pos <= 1 && st.size < |q|
    ensures Receive(st, [END] + EscapeAll(q) + tail).ret == ERR_OVERFLOW
  {
    Assoc([END], EscapeAll(q), tail);
    ReceiveEnd(st, EscapeAll(q) + tail);
    OverflowBody(st.(pos := 0, esc := false), q, tail);
  }

  // ---------------------------------------------------------------------
  // Receive side: the code

  /** The receiver state of packet.c and the UART receive queue it drains. */
  class Receiver {
    var rxBuf: array<byte>
    var rxBufSize: nat
    var rxPos: nat
    var rxEsc: bool
    var input: seq<byte>

    predicate Valid()
      reads this
    {
      rxPos <= rxBufSize <= rxBuf.Length
    }

    function State(): RxState
      reads this, rxBuf
    {
      RxState(rxBuf[..], rxBufSize, rxPos, rxEsc)
    }

    /** Before `PKT_BeginReceive` there is no buffer (a null pointer of size 0). */
    constructor (pending: seq<byte>)
      ensures Valid() && rxBufSize == 0 && rxPos == 0 && !rxEsc && input == pending
    {
      rxBuf := new byte[0];
      rxBufSize := 0;
      rxPos := 0;
      rxEsc := false;
      input := pending;
    }

    /** `PKT_BeginReceive`: adopt the caller's buffer of `len` bytes and start empty. */
    method BeginReceive(data: array<byte>, len: nat)
      requires len <= data.Length && len < 0x1_0000
      modifies this`rxBuf, this`rxBufSize, this`rxPos, this`rxEsc
      ensures Valid() && rxBuf == data && rxBufSize == len && rxPos == 0 && !rxEsc
    {
      rxBuf := data;
      rxBufSize := len;
      rxPos := 0;
      rxEsc := false;
    }

    /** `PKT_ReceiveAsync`: consume input until a frame ends, an error occurs, or the queue is empty. */
    method ReceiveAsync() returns (r: int)
      requires Valid()
      modifies this`rxPos, this`rxEsc, this`input, rxBuf
      ensures Valid()
      ensures Poll(State(), input, r) == Receive(old(State()), old(input))
    {
      while |input| > 0
        invariant Valid()
        invariant Receive(State(), input) == Receive(old(State()), old(input))
        decreases |input|
      {
        ReceiveFirst(State(), input);
        var c := input[0];
        input := input[1..];
        var ret := Consume(c);
        if ret.Some? {
          return ret.value;
        }
      }
      return 0;
    }

    /** One pass of the loop in `PKT_ReceiveAsync`, on byte `c`: the new state and the value to return, if any. */
    method Consume(c: byte) returns (ret: Option<int>)
      requires Valid()
      modifies this`rxPos, this`rxEsc, rxBuf
      ensures Valid()
      ensures Step(State(), ret) == RxStep(old(State()), c)
    {
      ghost var st := State();
      if c == ESC {
        rxEsc := true;
        ret := None;
      } else if c == END {
        var length := rxPos;
        rxPos := 0;
        rxEsc := false;
        ret := None;
        if length >= 2 {
          var crc := BufferCrc(length);
          assert rxBuf[..length] == st.buf[..length];
          if crc == 0 {
            ret := Some(length - 2);
          } else {
            ret := Some(ERR_CRC);
          }
        }
      } else {
        if rxPos < rxBufSize {
          var b := c;
          if rxEsc && b == ESC_END {
            b := END;
          }
          if rxEsc && b == ESC_ESC {
            b := ESC;
          }
          rxBuf[rxPos] := b;
          rxPos := rxPos + 1;
          rxEsc := false;
          ret := None;
        } else {
          rxPos := 0;
          rxEsc := false;
          ret := Some(ERR_OVERFLOW);
        }
      }
    }

    /** The CRC loop of `PKT_ReceiveAsync` over the first `length` buffered bytes. */
    method BufferCrc(length: nat) returns (crc: bv16)
      requires length <= rxBuf.Length
      ensures crc == CrcOf(CRC_INIT, rxBuf[..length])
    {
      crc := 0xFFFF;
      for i := 0 to length
        invariant crc == CrcOf(CRC_INIT, rxBuf[..i])
      {
        assert rxBuf[..i + 1] == rxBuf[..i] + [rxBuf[i]];
        CrcOfSnoc(CRC_INIT, rxBuf[..i], rxBuf[i]);
        crc := Update(crc, rxBuf[i]);
      }
    }
  }
}
