/**
 * The interrupt-driven UART queues of uart.c.  Each direction is a ring
 * buffer of a power-of-two size with a head and a tail index: the queued
 * bytes are the slots after `head` up to and including `tail`, so one slot
 * always stays free and a ring of `n` slots holds at most `n - 1` bytes.
 * `(i + 1) & MASK` is the successor of `i` wrapping to 0 at the size, and
 * `(tail - head) & MASK` on the promoted `int` is the difference modulo the
 * size, which is Dafny's (Euclidean) `%`.
 *
 * Interrupt handlers are modelled as atomic steps: the receive handler
 * takes the byte read from the data register as a parameter, and the
 * transmit handler appends the byte it writes to the data register to
 * `sent`.  The waits for a non-empty or non-full queue become preconditions.
 */
module Uart {
  import opened Bytes

  const RX_SIZE: nat := 256
  const TX_SIZE: nat := 128

  /** `(i + 1) & (n - 1)` for an index of a ring of `n` slots. */
  function Succ(i: nat, n: nat): (r: nat)
    requires i < n
    ensures r < n
    ensures r == (i + 1) % n
  {
    if i + 1 == n then 0 else i + 1
  }

  /** The slot `k` places after `head`. */
  function Slot(head: nat, k: nat, n: nat): (r: nat)
    requires head < n && k < n
    ensures r < n
    ensures r == (head + k) % n
  {
    if head + k < n then head + k else head + k - n
  }

  /** The number of queued bytes, `(tail - head) & (n - 1)`. */
  function Used(head: nat, tail: nat, n: nat): (r: nat)
    requires head < n && tail < n
    ensures r < n
    ensures r == (tail - head) % n
  {
    if head <= tail then tail - head else tail + n - head
  }

  /** The queue a ring holds, oldest byte first. */
  function Contents(buf: seq<byte>, head: nat, tail: nat): (r: seq<byte>)
    requires head < |buf| && tail < |buf|
    ensures |r| == Used(head, tail, |buf|) < |buf|
  {
    seq(Used(head, tail, |buf|), k requires 0 <= k < Used(head, tail, |buf|) => buf[Slot(head, k + 1, |buf|)])
  }

  /** A ring is empty exactly when its indices are equal. */
  lemma EmptyIff(buf: seq<byte>, head: nat, tail: nat)
    requires head < |buf| && tail < |buf|
    ensures Contents(buf, head, tail) == [] <==> head == tail
  {
    assert |Contents(buf, head, tail)| == 0 <==> head == tail;
  }

  /** A ring is full, its tail's successor being the head, exactly when it holds `n - 1` bytes. */
  lemma FullIff(buf: seq<byte>, head: nat, tail: nat)
    requires head < |buf| && tail < |buf|
    ensures Succ(tail, |buf|) == head <==> |Contents(buf, head, tail)| == |buf| - 1
  {
  }

  /** Storing at the tail's successor and advancing the tail appends a byte. */
  lemma {:induction false} ContentsPush(buf: seq<byte>, head: nat, tail: nat, c: byte)
    requires head < |buf| && tail < |buf| && Succ(tail, |buf|) != head
    ensures Contents(buf[Succ(tail, |buf|) := c], head, Succ(tail, |buf|)) == Contents(buf, head, tail) + [c]
  {
    var n, t := |buf|, Succ(tail, |buf|);
    var q, q' := Contents(buf, head, tail), Contents(buf[t := c], head, t);
    assert |q'| == |q| + 1;
    forall k | 0 <= k < |q'|
      ensures q'[k] == (q + [c])[k]
    {
      if k < |q| {
        assert Slot(head, k + 1, n) != t;
      } else {
        assert Slot(head, k + 1, n) == t;
      }
    }
  }

  /** Reading at the head's successor and advancing the head removes the oldest byte. */
  lemma {:induction false} ContentsPop(buf: seq<byte>, head: nat, tail: nat)
    requires head < |buf| && tail < |buf| && head != tail
    ensures buf[Succ(head, |buf|)] == Contents(buf, head, tail)[0]
    ensures Contents(buf, Succ(head, |buf|), tail) == Contents(buf, head, tail)[1..]
  {
    var n, h := |buf|, Succ(head, |buf|);
    var q, q' := Contents(buf, head, tail), Contents(buf, h, tail);
    assert |q| > 0;
    assert |q'| == |q| - 1;
    forall k | 0 <= k < |q'|
      ensures q'[k] == q[k + 1]
    {
      assert Slot(h, k + 1, n) == Slot(head, k + 2, n);
    }
  }

  /** The two rings of uart.c, their indices, the transmit interrupt's enable bit and the bytes sent. */
  class Uart {
    const rxBuf: array<byte>
    const txBuf: array<byte>
    var rxHead: nat
    var rxTail: nat
    var txHead: nat
    var txTail: nat
    /** `UDRIE0` in `UCSR0B`: the transmit interrupt is enabled. */
    var udrie: bool
    /** The bytes the transmit handler has written to `UDR0`. */
    var sent: seq<byte>

    ghost predicate Valid()
      reads this
    {
      rxBuf.Length == RX_SIZE && txBuf.Length == TX_SIZE && rxBuf != txBuf &&
      rxHead < RX_SIZE && rxTail < RX_SIZE && txHead < TX_SIZE && txTail < TX_SIZE
    }

    /** The received bytes not yet read, oldest first. */
    function RxQueue(): seq<byte>
      reads this, rxBuf
      requires Valid()
    {
      Contents(rxBuf[..], rxHead, rxTail)
    }

    /** The bytes queued for sending, oldest first. */
    function TxQueue(): seq<byte>
      reads this, txBuf
      requires Valid()
    {
      Contents(txBuf[..], txHead, txTail)
    }

    constructor ()
      ensures Valid() && RxQueue() == [] && TxQueue() == [] && sent == [] && !udrie
    {
      rxBuf := new byte[RX_SIZE](_ => 0);
      txBuf := new byte[TX_SIZE](_ => 0);
      rxHead, rxTail, txHead, txTail := 0, 0, 0, 0;
      udrie := false;
      sent := [];
    }

    /**
     * `UART_Init`: both rings are emptied and the control register is
     * rewritten with the data-register-empty interrupt off; the baud
     * registers are not modelled.
     */
    method Init()
      requires Valid()
      modifies this
      ensures Valid() && RxQueue() == [] && TxQueue() == []
      ensures sent == old(sent) && !udrie
    {
      txHead, txTail := 0, 0;
      rxHead, rxTail := 0, 0;
      udrie := false;
    }

    /** The receive interrupt: the byte is queued unless the ring is full, when it is dropped. */
    method RxInterrupt(c: byte)
      requires Valid()
      modifies this, rxBuf
      ensures Valid()
      ensures |old(RxQueue())| < RX_SIZE - 1 ==> RxQueue() == old(RxQueue()) + [c]
      ensures |old(RxQueue())| == RX_SIZE - 1 ==> RxQueue() == old(RxQueue())
      ensures TxQueue() == old(TxQueue()) && sent == old(sent) && udrie == old(udrie)
    {
      FullIff(rxBuf[..], rxHead, rxTail);
      var tail := Succ(rxTail, RX_SIZE);
      if tail != rxHead {
        ContentsPush(rxBuf[..], rxHead, rxTail, c);
        rxTail := tail;
        rxBuf[tail] := c;
      }
    }

    /** `UART_GetChar`, once a byte has arrived: the oldest byte is removed and returned. */
    method GetChar() returns (data: byte)
      requires Valid() && RxQueue() != []
      modifies this
      ensures Valid()
      ensures data == old(RxQueue())[0] && RxQueue() == old(RxQueue())[1..]
      ensures TxQueue() == old(TxQueue()) && sent == old(sent) && udrie == old(udrie)
    {
      EmptyIff(rxBuf[..], rxHead, rxTail);
      ContentsPop(rxBuf[..], rxHead, rxTail);
      var head := Succ(rxHead, RX_SIZE);
      data := rxBuf[head];
      rxHead := head;
    }

    /** `UART_CharsAvail`: the number of received bytes not yet read. */
    method CharsAvail() returns (n: int)
      requires Valid()
      ensures n == |RxQueue()| && 0 <= n < RX_SIZE
      ensures n == (rxTail - rxHead) % RX_SIZE
    {
      n := Used(rxHead, rxTail, RX_SIZE);
    }

    /** `UART_PutChar`, once there is room: the byte is queued and the transmit interrupt enabled. */
    method PutChar(data: byte)
      requires Valid() && |TxQueue()| < TX_SIZE - 1
      modifies this, txBuf
      ensures Valid()
      ensures TxQueue() == old(TxQueue()) + [data] && udrie
      ensures RxQueue() == old(RxQueue()) && sent == old(sent)
    {
      FullIff(txBuf[..], txHead, txTail);
      var tail := Succ(txTail, TX_SIZE);
      ContentsPush(txBuf[..], txHead, txTail, data);
      txBuf[tail] := data;
      txTail := tail;
      udrie := true;
    }

    /**
     * The data-register-empty interrupt: the oldest queued byte is sent, or,
     * with nothing queued, the interrupt disables itself.
     */
    method TxInterrupt()
      requires Valid()
      modifies this
      ensures Valid()
      ensures old(TxQueue()) != [] ==>
        sent == old(sent) + [old(TxQueue())[0]] && TxQueue() == old(TxQueue())[1..] && udrie == old(udrie)
      ensures old(TxQueue()) == [] ==> sent == old(sent) && TxQueue() == [] && !udrie
      ensures RxQueue() == old(RxQueue())
    {
      EmptyIff(txBuf[..], txHead, txTail);
      var head := txHead;
      if txTail != head {
        ContentsPop(txBuf[..], txHead, txTail);
        head := Succ(head, TX_SIZE);
        txHead := head;
        sent := sent + [txBuf[head]];
      } else {
        udrie := false;
      }
    }

    /** `UART_PutString`: every byte before the terminating NUL is queued, in order. */
    method PutString(s: seq<byte>)
      requires forall i | 0 <= i < |s| :: s[i] != 0
      requires Valid() && |TxQueue()| + |s| < TX_SIZE
      modifies this, txBuf
      ensures Valid()
      ensures TxQueue() == old(TxQueue()) + s
      ensures RxQueue() == old(RxQueue()) && sent == old(sent)
    {
      var i := 0;
      while i < |s|
        invariant 0 <= i <= |s|
        invariant Valid()
        invariant TxQueue() == old(TxQueue()) + s[..i]
        invariant RxQueue() == old(RxQueue()) && sent == old(sent)
      {
        PutChar(s[i]);
        assert s[..i + 1] == s[..i] + [s[i]];
        i := i + 1;
      }
      assert s[..i] == s;
    }
  }
}
