/**
 * The servo event table of servo.c.  Twenty-four servo lines sit on the
 * three 8-bit ports A, B and C; channel `ch` is bit `ch % 8` of port
 * `ch / 8`.  `SRV_SetPositions` turns 24 pulse widths into a short table of
 * cumulative port masks, and `SRV_GetPositions` turns the sampled feedback
 * pulses back into 24 widths.  The timer and the port registers are not
 * modelled: samples come in as a sequence and port-direction writes go out
 * as a list.
 */
module Servo {
  import opened Bytes

  /** Number of servo channels. */
  const SERVOS: nat := 24

  /** Entries in the event table: one per servo and one for the terminator. */
  const TABLE: nat := SERVOS + 1

  /** CPU ticks per microsecond at F_CPU = 16 MHz: `US_TICKS(t)` is 16·t. */
  function UsTicks(t: nat): nat {
    16 * t
  }

  /** The 250 µs between the start of the read-back and a servo's answer pulse. */
  const PULSE_OFFSET: uint16 := UsTicks(250)

  /** Events whose ticks differ by less than this many ticks share one table entry. */
  const MERGE_WINDOW: nat := 30

  // ---------------------------------------------------------------------
  // Port bytes and their channel view

  /** The three port bytes `a`, `b`, `c` (ports A, B and C). */
  datatype Ports = Ports(a: byte, b: byte, c: byte)

  const NONE: Ports := Ports(0x00, 0x00, 0x00)
  const ALL: Ports := Ports(0xFF, 0xFF, 0xFF)

  function And(p: Ports, q: Ports): Ports {
    Ports(p.a & q.a, p.b & q.b, p.c & q.c)
  }

  function Or(p: Ports, q: Ports): Ports {
    Ports(p.a | q.a, p.b | q.b, p.c | q.c)
  }

  /** `~` on each port byte. */
  function Not(p: Ports): Ports {
    Ports(!p.a, !p.b, !p.c)
  }

  /** `(pina ^ a) | (pinb ^ b) | (pinc ^ c)` is nonzero: the test of the sampling loop. */
  function Changed(p: Ports, q: Ports): (r: bool)
    ensures r <==> p != q
  {
    XorZero(p.a, q.a);
    XorZero(p.b, q.b);
    XorZero(p.c, q.c);
    OrZero(p.a ^ q.a, p.b ^ q.b, p.c ^ q.c);
    (p.a ^ q.a) | (p.b ^ q.b) | (p.c ^ q.c) != 0
  }

  lemma XorZero(x: byte, y: byte)
    ensures x ^ y == 0 <==> x == y
  {
  }

  lemma OrZero(x: byte, y: byte, z: byte)
    ensures x | y | z == 0 <==> x == 0 && y == 0 && z == 0
  {
  }

  /** The mask of bit `k`: 0x01, 0x02, …, 0x80, as servo.c writes them out. */
  function BitMask(k: nat): byte
    requires k < 8
  {
    if k == 0 then 0x01 else if k == 1 then 0x02 else if k == 2 then 0x04 else if k == 3 then 0x08
    else if k == 4 then 0x10 else if k == 5 then 0x20 else if k == 6 then 0x40 else 0x80
  }

  /** `x & mask` is nonzero for the mask of bit `k`. */
  function ByteBit(x: byte, k: nat): bool
    requires k < 8
  {
    x & BitMask(k) != 0
  }

  /** The bit of channel `ch`, read from its port byte as the reconstruction does. */
  function PortBit(p: Ports, ch: nat): bool
    requires ch < SERVOS
  {
    if ch < 8 then ByteBit(p.a, ch)
    else if ch < 16 then ByteBit(p.b, ch - 8)
    else ByteBit(p.c, ch - 16)
  }

  /** The eight bits of a byte, bit 0 first. */
  function Bits(x: byte): (r: seq<bool>)
    ensures |r| == 8
  {
    seq(8, k requires 0 <= k < 8 => ByteBit(x, k))
  }

  /** The 24 channel bits of a set of port bytes, channel 0 first. */
  function Channels(p: Ports): (r: seq<bool>)
    ensures |r| == SERVOS
  {
    Bits(p.a) + Bits(p.b) + Bits(p.c)
  }

  function AndBits(s: seq<bool>, t: seq<bool>): (r: seq<bool>)
    requires |s| == |t|
    ensures |r| == |s| && forall i | 0 <= i < |s| :: r[i] == (s[i] && t[i])
  {
    seq(|s|, i requires 0 <= i < |s| => s[i] && t[i])
  }

  function OrBits(s: seq<bool>, t: seq<bool>): (r: seq<bool>)
    requires |s| == |t|
    ensures |r| == |s| && forall i | 0 <= i < |s| :: r[i] == (s[i] || t[i])
  {
    seq(|s|, i requires 0 <= i < |s| => s[i] || t[i])
  }

  function NotBits(s: seq<bool>): (r: seq<bool>)
    ensures |r| == |s| && forall i | 0 <= i < |s| :: r[i] == !s[i]
  {
    seq(|s|, i requires 0 <= i < |s| => !s[i])
  }

  lemma ByteBitAnd(x: byte, y: byte, k: nat)
    requires k < 8
    ensures ByteBit(x & y, k) == (ByteBit(x, k) && ByteBit(y, k))
  {
  }

  lemma ByteBitOr(x: byte, y: byte, k: nat)
    requires k < 8
    ensures ByteBit(x | y, k) == (ByteBit(x, k) || ByteBit(y, k))
  {
  }

  lemma ByteBitNot(x: byte, k: nat)
    requires k < 8
    ensures ByteBit(!x, k) == !ByteBit(x, k)
  {
  }

  lemma ByteBitConst(k: nat)
    requires k < 8
    ensures !ByteBit(0x00, k) && ByteBit(0xFF, k)
  {
  }

  /** `1 << i` is the `BitMask(i)` of the table. */
  lemma ShiftMask(i: nat)
    requires i < 8
    ensures 1 << i == BitMask(i)
  {
  }

  lemma ByteBitMask(i: nat, k: nat)
    requires i < 8 && k < 8
    ensures ByteBit(BitMask(i), k) == (i == k)
  {
  }

  /** A byte is determined by its eight bits. */
  lemma ByteExt(x: byte, y: byte)
    requires ByteBit(x, 0) == ByteBit(y, 0) && ByteBit(x, 1) == ByteBit(y, 1)
    requires ByteBit(x, 2) == ByteBit(y, 2) && ByteBit(x, 3) == ByteBit(y, 3)
    requires ByteBit(x, 4) == ByteBit(y, 4) && ByteBit(x, 5) == ByteBit(y, 5)
    requires ByteBit(x, 6) == ByteBit(y, 6) && ByteBit(x, 7) == ByteBit(y, 7)
    ensures x == y
  {
  }

  lemma BitsAnd(x: byte, y: byte)
    ensures Bits(x & y) == AndBits(Bits(x), Bits(y))
  {
    forall k | 0 <= k < 8
      ensures Bits(x & y)[k] == AndBits(Bits(x), Bits(y))[k]
    {
      ByteBitAnd(x, y, k);
    }
  }

  lemma BitsOr(x: byte, y: byte)
    ensures Bits(x | y) == OrBits(Bits(x), Bits(y))
  {
    forall k | 0 <= k < 8
      ensures Bits(x | y)[k] == OrBits(Bits(x), Bits(y))[k]
    {
      ByteBitOr(x, y, k);
    }
  }

  lemma BitsNot(x: byte)
    ensures Bits(!x) == NotBits(Bits(x))
  {
    forall k | 0 <= k < 8
      ensures Bits(!x)[k] == NotBits(Bits(x))[k]
    {
      ByteBitNot(x, k);
    }
  }

  lemma BitsInjective(x: byte, y: byte)
    ensures Bits(x) == Bits(y) <==> x == y
  {
    if Bits(x) == Bits(y) {
      forall k | 0 <= k < 8
        ensures ByteBit(x, k) == ByteBit(y, k)
      {
        assert Bits(x)[k] == Bits(y)[k];
      }
      ByteExt(x, y);
    }
  }

  lemma BitsShift(i: nat)
    requires i < 8
    ensures Bits(1 << i) == seq(8, k => k == i)
  {
    ShiftMask(i);
    forall k | 0 <= k < 8
      ensures ByteBit(BitMask(i), k) == (k == i)
    {
      ByteBitMask(i, k);
    }
  }

  lemma BitsConst()
    ensures Bits(0x00) == seq(8, k => false) && Bits(0xFF) == seq(8, k => true)
  {
    forall k | 0 <= k < 8
      ensures !ByteBit(0x00, k) && ByteBit(0xFF, k)
    {
      ByteBitConst(k);
    }
  }

  lemma AndConcat(s1: seq<bool>, s2: seq<bool>, s3: seq<bool>, t1: seq<bool>, t2: seq<bool>, t3: seq<bool>)
    requires |s1| == |t1| && |s2| == |t2| && |s3| == |t3|
    ensures AndBits(s1 + s2 + s3, t1 + t2 + t3) == AndBits(s1, t1) + AndBits(s2, t2) + AndBits(s3, t3)
  {
  }

  lemma OrConcat(s1: seq<bool>, s2: seq<bool>, s3: seq<bool>, t1: seq<bool>, t2: seq<bool>, t3: seq<bool>)
    requires |s1| == |t1| && |s2| == |t2| && |s3| == |t3|
    ensures OrBits(s1 + s2 + s3, t1 + t2 + t3) == OrBits(s1, t1) + OrBits(s2, t2) + OrBits(s3, t3)
  {
  }

  lemma NotConcat(s1: seq<bool>, s2: seq<bool>, s3: seq<bool>)
    ensures NotBits(s1 + s2 + s3) == NotBits(s1) + NotBits(s2) + NotBits(s3)
  {
  }

  /** ANDing the port bytes ANDs the channel bits. */
  lemma ChannelsAnd(p: Ports, q: Ports)
    ensures Channels(And(p, q)) == AndBits(Channels(p), Channels(q))
  {
    BitsAnd(p.a, q.a);
    BitsAnd(p.b, q.b);
    BitsAnd(p.c, q.c);
    AndConcat(Bits(p.a), Bits(p.b), Bits(p.c), Bits(q.a), Bits(q.b), Bits(q.c));
  }

  /** ORing the port bytes ORs the channel bits. */
  lemma ChannelsOr(p: Ports, q: Ports)
    ensures Channels(Or(p, q)) == OrBits(Channels(p), Channels(q))
  {
    BitsOr(p.a, q.a);
    BitsOr(p.b, q.b);
    BitsOr(p.c, q.c);
    assert Channels(Or(p, q)) == Bits(p.a | q.a) + Bits(p.b | q.b) + Bits(p.c | q.c);
    OrConcat(Bits(p.a), Bits(p.b), Bits(p.c), Bits(q.a), Bits(q.b), Bits(q.c));
  }

  /** Complementing the port bytes complements the channel bits. */
  lemma ChannelsNot(p: Ports)
    ensures Channels(Not(p)) == NotBits(Channels(p))
  {
    BitsNot(p.a);
    BitsNot(p.b);
    BitsNot(p.c);
    NotConcat(Bits(p.a), Bits(p.b), Bits(p.c));
  }

  /** Port bytes are determined by their channel bits. */
  lemma ChannelsInjective(p: Ports, q: Ports)
    ensures Channels(p) == Channels(q) <==> p == q
  {
    if Channels(p) == Channels(q) {
      assert Channels(p)[..8] == Bits(p.a) && Channels(q)[..8] == Bits(q.a);
      assert Channels(p)[8..16] == Bits(p.b) && Channels(q)[8..16] == Bits(q.b);
      assert Channels(p)[16..] == Bits(p.c) && Channels(q)[16..] == Bits(q.c);
      BitsInjective(p.a, q.a);
      BitsInjective(p.b, q.b);
      BitsInjective(p.c, q.c);
    }
  }

  /** `NONE` has no channel set and `ALL` has every channel set. */
  lemma ChannelsConst()
    ensures Channels(NONE) == seq(SERVOS, ch => false)
    ensures Channels(ALL) == seq(SERVOS, ch => true)
  {
    BitsConst();
  }

  /** The test `x & 0x..` of the reconstruction reads the channel bit. */
  lemma PortBitChannel(p: Ports, ch: nat)
    requires ch < SERVOS
    ensures PortBit(p, ch) == Channels(p)[ch]
  {
  }

  /** The number of channels set. */
  function Count(s: seq<bool>): (r: nat)
    ensures r <= |s|
  {
    if s == [] then 0 else Count(s[..|s| - 1]) + (if s[|s| - 1] then 1 else 0)
  }

  /** ANDing in more bits never sets a channel, and if it changes anything it clears one. */
  lemma {:induction false} CountAnd(s: seq<bool>, t: seq<bool>)
    requires |s| == |t|
    ensures Count(AndBits(s, t)) <= Count(s)
    ensures AndBits(s, t) != s ==> Count(AndBits(s, t)) < Count(s)
    decreases |s|
  {
    if s != [] {
      var n := |s| - 1;
      assert AndBits(s, t)[..n] == AndBits(s[..n], t[..n]);
      CountAnd(s[..n], t[..n]);
    }
  }

  /** A sample that changes the accumulated pins drops at least one channel. */
  lemma PinsShrink(p: Ports, x: Ports)
    ensures Count(Channels(And(p, x))) <= Count(Channels(p))
    ensures And(p, x) != p ==> Count(Channels(And(p, x))) < Count(Channels(p))
  {
    ChannelsAnd(p, x);
    CountAnd(Channels(p), Channels(x));
    ChannelsInjective(And(p, x), p);
  }

  // ---------------------------------------------------------------------
  // compare_uint16

  /** `compare_uint16`, the `qsort` comparator: the sign of `a - b`. */
  function CompareUint16(a: uint16, b: uint16): (r: int)
    ensures r == 1 <==> a > b
    ensures r == -1 <==> a < b
    ensures r == 0 <==> a == b
  {
    if a > b then 1 else if a < b then -1 else 0
  }

  // ---------------------------------------------------------------------
  // SRV_SetPositions: the event table

  /** One entry of `servoEvents`: a tick and the port bytes that go with it. */
  datatype ServoEvent = ServoEvent(tick: uint16, port: Ports)

  /** The one-bit mask of servo `i`, set in whichever port holds its line. */
  function OneHot(i: nat): Ports
    requires i < SERVOS
  {
    if i < 8 then Ports(1 << i, 0x00, 0x00)
    else if i < 16 then Ports(0x00, 1 << (i - 8), 0x00)
    else Ports(0x00, 0x00, 1 << (i - 16))
  }

  /** Servo `i`'s mask has exactly channel `i` set. */
  lemma OneHotChannels(i: nat)
    requires i < SERVOS
    ensures Channels(OneHot(i)) == seq(SERVOS, ch => ch == i)
  {
    BitsConst();
    if i < 8 {
      BitsShift(i);
    } else if i < 16 {
      BitsShift(i - 8);
    } else {
      BitsShift(i - 16);
    }
  }

  /** The table before sorting: servo `i`'s width and its one-bit mask. */
  function InitialEvents(positions: seq<uint16>): (r: seq<ServoEvent>)
    requires |positions| == SERVOS
    ensures |r| == SERVOS
  {
    seq(SERVOS, i requires 0 <= i < SERVOS => ServoEvent(positions[i], OneHot(i)))
  }

  /** Entry `i` of the initial table has tick `positions[i]` and exactly channel `i` set. */
  lemma InitialEventsOneHot(positions: seq<uint16>, i: nat)
    requires |positions| == SERVOS && i < SERVOS
    ensures InitialEvents(positions)[i].tick == positions[i]
    ensures forall ch | 0 <= ch < SERVOS :: Channels(InitialEvents(positions)[i].port)[ch] <==> ch == i
  {
    OneHotChannels(i);
  }

  predicate SortedByTick(s: seq<ServoEvent>) {
    forall i, j | 0 <= i < j < |s| :: s[i].tick <= s[j].tick
  }

  /** The group of events starting at `s[i]` that are less than the merge window after it, scanned from `j`. */
  function GroupEnd(s: seq<ServoEvent>, i: nat, j: nat): (r: nat)
    requires i <= j <= |s| && i < |s|
    ensures j <= r <= |s| && i < r
    decreases |s| - j
  {
    if j < |s| && Sub16(s[j].tick, s[i].tick) < MERGE_WINDOW then GroupEnd(s, i, j + 1) else j
  }

  /** `acc` with the masks of `s[i..j]` ORed in. */
  function GroupOr(s: seq<ServoEvent>, i: nat, j: nat, acc: Ports): Ports
    requires i <= j <= |s|
    decreases j - i
  {
    if j == i then acc else Or(GroupOr(s, i, j - 1, acc), s[j - 1].port)
  }

  /**
   * The merged table from `s[i]` on when the masks so far add up to `acc`:
   * one entry per group, carrying the group's first tick and the running OR.
   */
  function Merged(s: seq<ServoEvent>, i: nat, acc: Ports): (r: seq<ServoEvent>)
    requires i <= |s|
    ensures |r| <= |s| - i
    decreases |s| - i
  {
    if i == |s| then []
    else
      var j := GroupEnd(s, i, i);
      var m := GroupOr(s, i, j, acc);
      [ServoEvent(s[i].tick, m)] + Merged(s, j, m)
  }


  /** Every channel set in `q` is set in `p`. */
  predicate Within(q: Ports, p: Ports) {
    forall ch | 0 <= ch < SERVOS :: Channels(q)[ch] ==> Channels(p)[ch]
  }

  /** `s` is what `qsort` may leave: the initial table, sorted by tick. */
  predicate SortedOrder(s: seq<ServoEvent>, positions: seq<uint16>)
    requires |positions| == SERVOS
  {
    |s| == SERVOS && SortedByTick(s) && multiset(s) == multiset(InitialEvents(positions))
  }

  /** The port bytes of each entry, in order. */
  function PortsOf(s: seq<ServoEvent>): (r: seq<Ports>)
    ensures |r| == |s| && forall n | 0 <= n < |s| :: r[n] == s[n].port
  {
    seq(|s|, n requires 0 <= n < |s| => s[n].port)
  }

  /** A group holds the entries less than the merge window after its first one, and no more. */
  lemma {:induction false} GroupEndWindow(s: seq<ServoEvent>, i: nat, j: nat)
    requires i <= j <= |s| && i < |s|
    ensures forall x | j <= x < GroupEnd(s, i, j) :: Sub16(s[x].tick, s[i].tick) < MERGE_WINDOW
    ensures GroupEnd(s, i, j) < |s| ==> Sub16(s[GroupEnd(s, i, j)].tick, s[i].tick) >= MERGE_WINDOW
    decreases |s| - j
  {
    if j < |s| && Sub16(s[j].tick, s[i].tick) < MERGE_WINDOW {
      GroupEndWindow(s, i, j + 1);
    }
  }

  /** A channel is set in the running OR exactly when it was set before or in one of the entries. */
  lemma {:induction false} GroupOrChannels(s: seq<ServoEvent>, i: nat, j: nat, acc: Ports, ch: nat)
    requires i <= j <= |s| && ch < SERVOS
    ensures Channels(GroupOr(s, i, j, acc))[ch]
      <==> Channels(acc)[ch] || exists x | i <= x < j :: Channels(s[x].port)[ch]
    decreases j - i
  {
    if j > i {
      GroupOrChannels(s, i, j - 1, acc, ch);
      ChannelsOr(GroupOr(s, i, j - 1, acc), s[j - 1].port);
    }
  }

  /** The running OR only ever adds channels. */
  lemma GroupOrGrows(s: seq<ServoEvent>, i: nat, j: nat, acc: Ports)
    requires i <= j <= |s|
    ensures Within(acc, GroupOr(s, i, j, acc))
  {
    forall ch | 0 <= ch < SERVOS
      ensures Channels(acc)[ch] ==> Channels(GroupOr(s, i, j, acc))[ch]
    {
      GroupOrChannels(s, i, j, acc, ch);
    }
  }

  /**
   * On a sorted table the merge keeps the first tick, and consecutive
   * merged entries are at least the merge window apart.
   */
  lemma {:induction false} MergedTicks(s: seq<ServoEvent>, i: nat, acc: Ports)
    requires SortedByTick(s) && i < |s|
    ensures 1 <= |Merged(s, i, acc)|
    ensures Merged(s, i, acc)[0].tick == s[i].tick
    ensures forall n | 0 <= n < |Merged(s, i, acc)| - 1 ::
      Merged(s, i, acc)[n].tick + MERGE_WINDOW <= Merged(s, i, acc)[n + 1].tick
    decreases |s| - i
  {
    var j := GroupEnd(s, i, i);
    var m := GroupOr(s, i, j, acc);
    var r := Merged(s, i, acc);
    assert r == [ServoEvent(s[i].tick, m)] + Merged(s, j, m);
    if j < |s| {
      MergedTicks(s, j, m);
      GroupEndWindow(s, i, i);
      assert r[1].tick == s[j].tick;
      assert forall n | 1 <= n < |r| :: r[n] == Merged(s, j, m)[n - 1];
    }
  }

  /** Each merged mask holds every channel of the one before it (and of `acc`). */
  lemma {:induction false} MergedGrows(s: seq<ServoEvent>, i: nat, acc: Ports)
    requires i < |s|
    ensures Within(acc, Merged(s, i, acc)[0].port)
    ensures forall n | 0 <= n < |Merged(s, i, acc)| - 1 ::
      Within(Merged(s, i, acc)[n].port, Merged(s, i, acc)[n + 1].port)
    decreases |s| - i
  {
    var j := GroupEnd(s, i, i);
    var m := GroupOr(s, i, j, acc);
    var r := Merged(s, i, acc);
    assert r == [ServoEvent(s[i].tick, m)] + Merged(s, j, m);
    GroupOrGrows(s, i, j, acc);
    if j < |s| {
      MergedGrows(s, j, m);
      assert forall n | 1 <= n < |r| :: r[n] == Merged(s, j, m)[n - 1];
    }
  }

  /** The last merged mask holds exactly the channels of `acc` and of every entry from `i` on. */
  lemma {:induction false} MergedLast(s: seq<ServoEvent>, i: nat, acc: Ports, ch: nat)
    requires i < |s| && ch < SERVOS
    ensures 1 <= |Merged(s, i, acc)|
    ensures Channels(Merged(s, i, acc)[|Merged(s, i, acc)| - 1].port)[ch]
      <==> Channels(acc)[ch] || exists x | i <= x < |s| :: Channels(s[x].port)[ch]
    decreases |s| - i
  {
    var j := GroupEnd(s, i, i);
    var m := GroupOr(s, i, j, acc);
    var r := Merged(s, i, acc);
    assert r == [ServoEvent(s[i].tick, m)] + Merged(s, j, m);
    GroupOrChannels(s, i, j, acc, ch);
    if j < |s| {
      MergedLast(s, j, m, ch);
      assert r[|r| - 1] == Merged(s, j, m)[|Merged(s, j, m)| - 1];
      GroupOrChannels(s, i, j, acc, ch);
    }
  }

  /**
   * When consecutive entries are at least the merge window apart, no two
   * share a group: the merge keeps one entry per event, at the event's tick.
   */
  lemma {:induction false} MergedSpread(s: seq<ServoEvent>, i: nat, acc: Ports)
    requires i <= |s|
    requires forall x | i <= x < |s| - 1 :: s[x].tick + MERGE_WINDOW <= s[x + 1].tick
    ensures |Merged(s, i, acc)| == |s| - i
    ensures forall n | 0 <= n < |s| - i :: Merged(s, i, acc)[n].tick == s[i + n].tick
    decreases |s| - i
  {
    if i < |s| {
      var j := GroupEnd(s, i, i);
      assert j == i + 1 by {
        assert Sub16(s[i].tick, s[i].tick) == 0;
        assert j == GroupEnd(s, i, i + 1);
        if i + 1 < |s| {
          assert Sub16(s[i + 1].tick, s[i].tick) >= MERGE_WINDOW;
        }
      }
      var m := GroupOr(s, i, j, acc);
      var r := Merged(s, i, acc);
      assert r == [ServoEvent(s[i].tick, m)] + Merged(s, j, m);
      MergedSpread(s, j, m);
      assert forall n | 1 <= n < |r| :: r[n] == Merged(s, j, m)[n - 1];
    }
  }

  /**
   * A sorted table of 24 events each at least the merge window after the one
   * before it merges into 24 entries at the same ticks: `SRV_SetPositions`
   * then writes 24 masks, one at each event.
   */
  lemma MergedSpreadTable(s: seq<ServoEvent>)
    requires SortedByTick(s) && |s| == SERVOS
    requires forall n | 0 <= n < SERVOS - 1 :: s[n].tick + MERGE_WINDOW <= s[n + 1].tick
    ensures |Merged(s, 0, NONE)| == SERVOS
    ensures forall n | 0 <= n < SERVOS :: Merged(s, 0, NONE)[n].tick == s[n].tick
  {
    MergedSpread(s, 0, NONE);
  }

  /** After any sort of the initial table, the last merged entry drives all 24 lines: a = b = c = 0xFF. */
  lemma MergedEndsAll(s: seq<ServoEvent>, positions: seq<uint16>)
    requires |positions| == SERVOS && SortedOrder(s, positions)
    ensures 1 <= |Merged(s, 0, NONE)| <= SERVOS
    ensures Merged(s, 0, NONE)[|Merged(s, 0, NONE)| - 1].port == ALL
  {
    var r := Merged(s, 0, NONE);
    MergedLast(s, 0, NONE, 0);
    var last := r[|r| - 1].port;
    ChannelsConst();
    forall ch | 0 <= ch < SERVOS
      ensures Channels(last)[ch] == Channels(ALL)[ch]
    {
      MergedEndsChannel(s, positions, ch);
    }
    ChannelsInjective(last, ALL);
  }

  /** Channel `ch` is set in the last merged entry, since its event is somewhere in the sorted table. */
  lemma MergedEndsChannel(s: seq<ServoEvent>, positions: seq<uint16>, ch: nat)
    requires |positions| == SERVOS && SortedOrder(s, positions) && ch < SERVOS
    ensures 1 <= |Merged(s, 0, NONE)|
    ensures Channels(Merged(s, 0, NONE)[|Merged(s, 0, NONE)| - 1].port)[ch]
  {
    var e := InitialEvents(positions)[ch];
    assert e in multiset(InitialEvents(positions));
    assert e in s;
    var x :| 0 <= x < |s| && s[x] == e;
    InitialEventsOneHot(positions, ch);
    MergedLast(s, 0, NONE, ch);
  }

  // ---------------------------------------------------------------------
  // SRV_GetPositions: sampling and reconstruction

  /** One pass of the sampling loop: the timer count and the three `PINx` bytes read. */
  datatype Sample = Sample(tick: uint16, pins: Ports)

  /**
   * The events the sampling loop records from `s` when the pins ANDed so far
   * are `pin`: one for every sample that clears further bits.
   */
  function Recorded(pin: Ports, s: seq<Sample>): seq<ServoEvent>
    decreases |s|
  {
    if s == [] then []
    else
      var p := And(pin, s[0].pins);
      if Changed(p, pin) then [ServoEvent(s[0].tick, p)] + Recorded(p, s[1..])
      else Recorded(p, s[1..])
  }

  /** The table the reconstruction walks: the recorded events and the zero terminator. */
  function Table(samples: seq<Sample>): (r: seq<ServoEvent>)
    ensures |r| <= TABLE
  {
    RecordedAtMost24(samples);
    Recorded(ALL, samples) + [ServoEvent(0, NONE)]
  }

  /** The tick of the first entry whose mask has channel `ch` cleared. */
  function FirstCleared(tbl: seq<ServoEvent>, ch: nat): uint16
    requires ch < SERVOS
  {
    if tbl == [] then 0
    else if !Channels(tbl[0].port)[ch] then tbl[0].tick
    else FirstCleared(tbl[1..], ch)
  }

  /** The positions the reconstruction computes from a table. */
  function Widths(tbl: seq<ServoEvent>): (r: seq<uint16>)
    ensures |r| == SERVOS
  {
    seq(SERVOS, ch requires 0 <= ch < SERVOS => Sub16(FirstCleared(tbl, ch), PULSE_OFFSET))
  }

  /** The tick of the first sample in which channel `ch` reads low, or 0 if it never does. */
  function FirstLow(s: seq<Sample>, ch: nat): uint16
    requires ch < SERVOS
  {
    if s == [] then 0
    else if !Channels(s[0].pins)[ch] then s[0].tick
    else FirstLow(s[1..], ch)
  }


  /** The table with one more sample processed. */
  lemma RecordedStep(done: seq<ServoEvent>, pin: Ports, s: seq<Sample>, t: nat)
    requires t < |s|
    ensures done + Recorded(pin, s[t..])
      == (done + (if Changed(And(pin, s[t].pins), pin) then [ServoEvent(s[t].tick, And(pin, s[t].pins))] else []))
         + Recorded(And(pin, s[t].pins), s[t + 1..])
  {
    assert s[t..][1..] == s[t + 1..];
  }

  /**
   * Each recorded mask is a strict subset of the one before it (the first
   * one of `pin`), and there are no more of them than channels set in `pin`.
   */
  lemma {:induction false} RecordedShrinks(pin: Ports, s: seq<Sample>)
    ensures |Recorded(pin, s)| <= Count(Channels(pin))
    ensures 0 < |Recorded(pin, s)| ==> Within(Recorded(pin, s)[0].port, pin) && Recorded(pin, s)[0].port != pin
    ensures forall n | 0 < n < |Recorded(pin, s)| ::
      Within(Recorded(pin, s)[n].port, Recorded(pin, s)[n - 1].port) && Recorded(pin, s)[n].port != Recorded(pin, s)[n - 1].port
    decreases |s|
  {
    if s != [] {
      var p := And(pin, s[0].pins);
      var r := Recorded(pin, s);
      RecordedShrinks(p, s[1..]);
      PinsShrink(pin, s[0].pins);
      ChannelsAnd(pin, s[0].pins);
      if Changed(p, pin) {
        assert r == [ServoEvent(s[0].tick, p)] + Recorded(p, s[1..]);
        assert forall n | 1 <= n < |r| :: r[n] == Recorded(p, s[1..])[n - 1];
      } else {
        assert Within(p, pin) by {
          assert p == pin;
        }
        if 0 < |r| {
          WithinTrans(r[0].port, p, pin);
        }
      }
    }
  }

  lemma WithinTrans(x: Ports, y: Ports, z: Ports)
    requires Within(x, y) && Within(y, z)
    ensures Within(x, z)
  {
  }

  /** All 24 channels are set in `ALL`. */
  lemma {:induction false} CountAll(n: nat)
    ensures Count(seq(n, ch => true)) == n
  {
    if n > 0 {
      assert seq(n, ch => true)[..n - 1] == seq(n - 1, ch => true);
      CountAll(n - 1);
    }
  }

  /** The sampling loop records at most 24 events, so with the terminator it needs up to 25 entries. */
  lemma RecordedAtMost24(s: seq<Sample>)
    ensures |Recorded(ALL, s)| <= SERVOS
  {
    RecordedShrinks(ALL, s);
    ChannelsConst();
    CountAll(SERVOS);
  }

  /**
   * While channel `ch` is still set in the accumulated pins, the first
   * recorded mask that clears it is the one from the first sample in which
   * it reads low (or the terminator if it never does).
   */
  lemma {:induction false} RecordedFirstCleared(pin: Ports, s: seq<Sample>, ch: nat)
    requires ch < SERVOS && Channels(pin)[ch]
    ensures FirstCleared(Recorded(pin, s) + [ServoEvent(0, NONE)], ch) == FirstLow(s, ch)
    decreases |s|
  {
    ChannelsConst();
    if s == [] {
      assert Recorded(pin, s) + [ServoEvent(0, NONE)] == [ServoEvent(0, NONE)];
    } else {
      var p := And(pin, s[0].pins);
      ChannelsAnd(pin, s[0].pins);
      var rest := Recorded(p, s[1..]) + [ServoEvent(0, NONE)];
      if !Channels(s[0].pins)[ch] {
        assert p != pin;
        assert Recorded(pin, s) + [ServoEvent(0, NONE)] == [ServoEvent(s[0].tick, p)] + rest;
      } else {
        RecordedFirstCleared(p, s[1..], ch);
        if Changed(p, pin) {
          assert Recorded(pin, s) + [ServoEvent(0, NONE)] == [ServoEvent(s[0].tick, p)] + rest;
          assert ([ServoEvent(s[0].tick, p)] + rest)[1..] == rest;
        } else {
          assert Recorded(pin, s) + [ServoEvent(0, NONE)] == rest;
        }
      }
    }
  }

  /**
   * The read-back end to end: position `ch` is the tick of the first sample
   * in which servo `ch`'s line reads low, less 250 µs, modulo 2^16.
   */
  lemma ReadBack(s: seq<Sample>)
    ensures Widths(Table(s)) == seq(SERVOS, ch requires 0 <= ch < SERVOS => Sub16(FirstLow(s, ch), PULSE_OFFSET))
  {
    ChannelsConst();
    forall ch | 0 <= ch < SERVOS
      ensures FirstCleared(Table(s), ch) == FirstLow(s, ch)
    {
      RecordedFirstCleared(ALL, s, ch);
    }
  }

  /** The widths from an entry and the entries after it. */
  lemma WidthsCons(x: ServoEvent, rest: seq<ServoEvent>, ch: nat)
    requires ch < SERVOS
    ensures Widths([x] + rest)[ch]
      == if !Channels(x.port)[ch] then Sub16(x.tick, PULSE_OFFSET) else Widths(rest)[ch]
  {
    assert ([x] + rest)[1..] == rest;
  }

  /**
   * One step of the reconstruction: entry `x` gives its tick to the servos
   * whose bit it clears, in front of the widths already given for `rest`
   * (or of anything, when `x` clears every bit).
   */
  lemma WidthsAssign(x: ServoEvent, rest: seq<ServoEvent>, before: seq<uint16>, after: seq<uint16>)
    requires |before| == SERVOS && |after| == SERVOS
    requires forall ch | 0 <= ch < SERVOS ::
      after[ch] == if Channels(Not(x.port))[ch] then Sub16(x.tick, PULSE_OFFSET) else before[ch]
    requires x.port == NONE || before == Widths(rest)
    ensures after == Widths([x] + rest)
  {
    ChannelsNot(x.port);
    ChannelsConst();
    forall ch | 0 <= ch < SERVOS
      ensures after[ch] == Widths([x] + rest)[ch]
    {
      WidthsCons(x, rest, ch);
    }
  }

  /** Twenty-four staggered samples that each pull one more line low, all 24 of them in turn. */
  function Staircase(): seq<Sample> {
    [ Sample(100, Ports(0xFE, 0xFF, 0xFF)), Sample(101, Ports(0xFC, 0xFF, 0xFF)),
      Sample(102, Ports(0xF8, 0xFF, 0xFF)), Sample(103, Ports(0xF0, 0xFF, 0xFF)),
      Sample(104, Ports(0xE0, 0xFF, 0xFF)), Sample(105, Ports(0xC0, 0xFF, 0xFF)),
      Sample(106, Ports(0x80, 0xFF, 0xFF)), Sample(107, Ports(0x00, 0xFF, 0xFF)),
      Sample(108, Ports(0x00, 0xFE, 0xFF)), Sample(109, Ports(0x00, 0xFC, 0xFF)),
      Sample(110, Ports(0x00, 0xF8, 0xFF)), Sample(111, Ports(0x00, 0xF0, 0xFF)),
      Sample(112, Ports(0x00, 0xE0, 0xFF)), Sample(113, Ports(0x00, 0xC0, 0xFF)),
      Sample(114, Ports(0x00, 0x80, 0xFF)), Sample(115, Ports(0x00, 0x00, 0xFF)),
      Sample(116, Ports(0x00, 0x00, 0xFE)), Sample(117, Ports(0x00, 0x00, 0xFC)),
      Sample(118, Ports(0x00, 0x00, 0xF8)), Sample(119, Ports(0x00, 0x00, 0xF0)),
      Sample(120, Ports(0x00, 0x00, 0xE0)), Sample(121, Ports(0x00, 0x00, 0xC0)),
      Sample(122, Ports(0x00, 0x00, 0x80)), Sample(123, Ports(0x00, 0x00, 0x00)) ]
  }

  /**
   * As written, `servoEvents` has 24 entries, and the terminator goes to
   * index `|Recorded(ALL, s)|`: when every servo ends its pulse at a
   * different sample that index is 24, one past the end of the array.
   */
  lemma StaircaseOverrunsTable()
    ensures |Recorded(ALL, Staircase())| == SERVOS
  {
    var s := Staircase();
    forall t | 0 <= t < |s|
      ensures Drops(ALL, s, t)
    {
      ghost var prev := if t == 0 then ALL else s[t - 1].pins;
      assert prev != s[t].pins && And(prev, s[t].pins) == s[t].pins;
    }
    RecordedEvery(ALL, s);
  }

  /** Sample `t` clears a further bit, after the samples before it left exactly their own pins. */
  predicate Drops(pin: Ports, s: seq<Sample>, t: nat)
    requires t < |s|
  {
    var prev := if t == 0 then pin else s[t - 1].pins;
    And(prev, s[t].pins) == s[t].pins && s[t].pins != prev
  }

  /** When every sample clears a further bit, every sample is recorded. */
  lemma {:induction false} RecordedEvery(pin: Ports, s: seq<Sample>)
    requires forall t | 0 <= t < |s| :: Drops(pin, s, t)
    ensures |Recorded(pin, s)| == |s|
    decreases |s|
  {
    if s != [] {
      assert Drops(pin, s, 0);
      forall t | 0 <= t < |s| - 1
        ensures Drops(s[0].pins, s[1..], t)
      {
        assert Drops(pin, s, t + 1);
      }
      RecordedEvery(s[0].pins, s[1..]);
    }
  }

  // ---------------------------------------------------------------------
  // The static table and the port-direction writes

  class ServoTable {
    /** `servoEvents`, with room for the terminator. */
    const events: array<ServoEvent>
    /** Every `DDRA`/`DDRB`/`DDRC` write, as the three bytes written together. */
    var ddr: seq<Ports>

    predicate Valid()
      reads this
    {
      events.Length == TABLE
    }

    constructor ()
      ensures Valid() && ddr == []
    {
      events := new ServoEvent[TABLE](_ => ServoEvent(0, NONE));
      ddr := [];
    }

    /** The first loop of `SRV_SetPositions`: one event per servo. */
    method InitEvents(positions: seq<uint16>)
      requires Valid() && |positions| == SERVOS
      modifies events
      ensures events[..SERVOS] == InitialEvents(positions)
      ensures events[SERVOS] == old(events[SERVOS])
    {
      for i := 0 to SERVOS
        invariant events[..i] == InitialEvents(positions)[..i]
        invariant events[SERVOS] == old(events[SERVOS])
      {
        if i < 8 {
          events[i] := ServoEvent(positions[i], Ports(1 << i, 0x00, 0x00));
        } else if i < 16 {
          events[i] := ServoEvent(positions[i], Ports(0x00, 1 << (i - 8), 0x00));
        } else {
          events[i] := ServoEvent(positions[i], Ports(0x00, 0x00, 1 << (i - 16)));
        }
      }
    }

    /**
     * `SRV_SetPositions`: builds, sorts and merges the table, then drives
     * the lines: all released, then each merged mask in turn.  The C
     * library's sort may order equal ticks either way, so the contract names
     * the sorted table it used.
     */
    method SetPositions(positions: seq<uint16>)
      requires Valid() && |positions| == SERVOS
      modifies this, events
      ensures Valid()
      ensures exists s | SortedOrder(s, positions) :: ddr == old(ddr) + [NONE] + PortsOf(Merged(s, 0, NONE))
      ensures |old(ddr)| + 2 <= |ddr| <= |old(ddr)| + 1 + SERVOS && ddr[|ddr| - 1] == ALL
    {
      InitEvents(positions);
      SortEvents();
      ghost var sorted := events[..SERVOS];
      assert SortedOrder(sorted, positions);
      var k := MergeEvents();
      ghost var merged := Merged(sorted, 0, NONE);
      Drive(k);
      MergedEndsAll(sorted, positions);
      assert ddr == old(ddr) + [NONE] + PortsOf(merged);
    }

    /** The output loop of `SRV_SetPositions`: release every line, then write each merged mask in turn. */
    method Drive(k: nat)
      requires Valid() && k <= SERVOS
      modifies this
      ensures ddr == old(ddr) + [NONE] + PortsOf(events[..k])
    {
      ddr := ddr + [NONE];
      for i := 0 to k
        invariant ddr == old(ddr) + [NONE] + PortsOf(events[..i])
      {
        ddr := ddr + [events[i].port];
        assert PortsOf(events[..i + 1]) == PortsOf(events[..i]) + [events[i].port];
      }
    }

    /**
     * The sampling loop of `SRV_GetPositions`: ANDs each sample into the
     * pins and records an entry whenever that clears a further bit.
     */
    method Record(samples: seq<Sample>) returns (n: nat)
      requires Valid()
      modifies events
      ensures n == |Recorded(ALL, samples)| <= SERVOS
      ensures events[..n] == Recorded(ALL, samples)
    {
      var pin, last := ALL, ALL;
      n := 0;
      ChannelsConst();
      CountAll(SERVOS);
      for t := 0 to |samples|
        invariant last == pin
        invariant n + Count(Channels(pin)) <= SERVOS
        invariant events[..n] + Recorded(pin, samples[t..]) == Recorded(ALL, samples)
      {
        ghost var done := events[..n];
        RecordedStep(done, pin, samples, t);
        PinsShrink(pin, samples[t].pins);
        pin := And(pin, samples[t].pins);
        if Changed(pin, last) {
          events[n] := ServoEvent(samples[t].tick, pin);
          assert events[..n + 1] == done + [ServoEvent(samples[t].tick, pin)];
          last := pin;
          n := n + 1;
        }
      }
      assert samples[|samples|..] == [];
    }

    /**
     * The reconstruction loop of `SRV_GetPositions`: walks from the
     * terminator at `servoEvents[n]` back to the first entry and gives every
     * servo whose bit an entry clears that entry's tick less 250 µs.
     */
    method Reconstruct(n: nat, positions: array<uint16>)
      requires Valid() && n < TABLE && positions.Length == SERVOS
      requires events[n].port == NONE
      modifies positions
      ensures positions[..] == Widths(events[..n + 1])
    {
      var e: int := n;
      while e >= 0
        invariant -1 <= e <= n
        invariant e < n ==> positions[..] == Widths(events[e + 1..n + 1])
        decreases e
      {
        var x := events[e];
        var tick := Sub16(x.tick, PULSE_OFFSET);
        var bits := Not(x.port);
        ghost var before := positions[..];
        ghost var rest := events[e + 1..n + 1];
        Assign(positions, tick, bits);
        WidthsAssign(x, rest, before, positions[..]);
        assert events[e..n + 1] == [x] + rest;
        e := e - 1;
      }
      assert events[0..n + 1] == events[..n + 1];
    }

    /**
     * `SRV_GetPositions`: the 100 µs start pulse, the sampling window, the
     * terminator, and the reconstruction.  Every position is written.
     */
    method GetPositions(samples: seq<Sample>, positions: array<uint16>)
      requires Valid() && positions.Length == SERVOS
      modifies this, events, positions
      ensures Valid()
      ensures ddr == old(ddr) + [NONE, ALL, NONE, ALL]
      ensures events[..|Table(samples)|] == Table(samples)
      ensures positions[..] == Widths(Table(samples))
      ensures forall ch | 0 <= ch < SERVOS :: positions[ch] == Sub16(FirstLow(samples, ch), PULSE_OFFSET)
    {
      ddr := ddr + [NONE, ALL, NONE];
      var n := Record(samples);
      ddr := ddr + [ALL];
      events[n] := ServoEvent(0, NONE);
      assert events[..n + 1] == Table(samples);
      Reconstruct(n, positions);
      ReadBack(samples);
    }

    /** Exchange two entries of the table. */
    method Swap(x: nat, y: nat)
      requires Valid() && x < y < SERVOS
      modifies events
      ensures events[..SERVOS] == old(events[..SERVOS])[x := old(events[..SERVOS])[y]][y := old(events[..SERVOS])[x]]
      ensures multiset(events[..SERVOS]) == multiset(old(events[..SERVOS]))
      ensures events[SERVOS] == old(events[SERVOS])
    {
      ghost var s := events[..SERVOS];
      events[x], events[y] := events[y], events[x];
      assert events[..SERVOS] == s[x := s[y]][y := s[x]];
    }

    /**
     * `qsort(servoEvents, 24, …, compare_uint16)`.  The C library's sort is
     * not part of this model; any sort meets the same contract, and this one
     * is an insertion sort driven by the same comparator.
     */
    method SortEvents()
      requires Valid()
      modifies events
      ensures SortedByTick(events[..SERVOS])
      ensures multiset(events[..SERVOS]) == multiset(old(events[..SERVOS]))
      ensures events[SERVOS] == old(events[SERVOS])
    {
      for i := 1 to SERVOS
        invariant SortedByTick(events[..i])
        invariant multiset(events[..SERVOS]) == multiset(old(events[..SERVOS]))
        invariant events[SERVOS] == old(events[SERVOS])
      {
        Insert(i);
      }
    }

    /** Sinks `servoEvents[i]` into the sorted entries before it. */
    method Insert(i: nat)
      requires Valid() && 0 < i < SERVOS && SortedByTick(events[..i])
      modifies events
      ensures SortedByTick(events[..i + 1])
      ensures multiset(events[..SERVOS]) == multiset(old(events[..SERVOS]))
      ensures events[SERVOS] == old(events[SERVOS])
    {
      SortedExceptStart(events[..SERVOS], i);
      var j := i;
      while j > 0 && CompareUint16(events[j - 1].tick, events[j].tick) > 0
        invariant 0 <= j <= i
        invariant SortedExcept(events[..SERVOS], i, j)
        invariant multiset(events[..SERVOS]) == multiset(old(events[..SERVOS]))
        invariant events[SERVOS] == old(events[SERVOS])
      {
        ghost var before := events[..SERVOS];
        Swap(j - 1, j);
        SortedExceptSwap(before, i, j);
        j := j - 1;
      }
      ghost var sorted := events[..SERVOS];
      SortedExceptEnd(sorted, i, j);
      assert sorted[..i + 1] == events[..i + 1];
    }

    /**
     * The inner loop of the merge: ORs into `acc` every entry from `i` on
     * that is less than the merge window after `servoEvents[i]`.
     */
    method ScanGroup(i: nat, acc: Ports) returns (next: nat, merged: Ports)
      requires Valid() && i < SERVOS
      ensures next == GroupEnd(events[..SERVOS], i, i)
      ensures merged == GroupOr(events[..SERVOS], i, next, acc)
    {
      var tick := events[i].tick;
      merged := acc;
      next := i;
      var j := i;
      while j < SERVOS && Sub16(events[j].tick, tick) < MERGE_WINDOW
        invariant i <= j == next <= SERVOS
        invariant GroupEnd(events[..SERVOS], i, j) == GroupEnd(events[..SERVOS], i, i)
        invariant merged == GroupOr(events[..SERVOS], i, j, acc)
      {
        merged := Or(merged, events[j].port);
        next := next + 1;
        j := j + 1;
      }
    }

    /**
     * The merge loop of `SRV_SetPositions`: compacts the sorted table in
     * place into `k` entries.  Writes go to `servoEvents[k]` with `k < i`,
     * behind every entry still to be read.
     */
    method MergeEvents() returns (k: nat)
      requires Valid()
      modifies events
      ensures 1 <= k <= SERVOS
      ensures events[..k] == Merged(old(events[..SERVOS]), 0, NONE)
      ensures events[SERVOS] == old(events[SERVOS])
    {
      ghost var s := events[..SERVOS];
      k := 0;
      var acc := NONE;
      var i := 0;
      while i < SERVOS
        invariant k <= i <= SERVOS
        invariant 0 < i ==> 0 < k
        invariant forall x | i <= x < SERVOS :: events[x] == s[x]
        invariant events[SERVOS] == old(events[SERVOS])
        invariant events[..k] + Merged(s, i, acc) == Merged(s, 0, NONE)
        decreases SERVOS - i
      {
        var tick := events[i].tick;
        ghost var start, acc0 := i, acc;
        i, acc := ScanGroup(i, acc);
        GroupSuffix(s, events[..SERVOS], start);
        ghost var done := events[..k];
        MergeStep(done, s, start, acc0);
        events[k] := ServoEvent(tick, acc);
        assert events[..k + 1] == done + [ServoEvent(tick, acc)];
        k := k + 1;
      }
    }
  }

  /** The 24 `if (x & 0x..) positions[..] = tick;` lines: each set bit of `bits` assigns `tick`. */
  method Assign(positions: array<uint16>, tick: uint16, bits: Ports)
    requires positions.Length == SERVOS
    modifies positions
    ensures forall ch | 0 <= ch < SERVOS :: positions[ch] == if Channels(bits)[ch] then tick else old(positions[ch])
  {
    for ch := 0 to SERVOS
      invariant forall c | 0 <= c < SERVOS :: positions[c] == if c < ch && Channels(bits)[c] then tick else old(positions[c])
    {
      PortBitChannel(bits, ch);
      if PortBit(bits, ch) {
        positions[ch] := tick;
      }
    }
  }

  /** `s[..i + 1]` is sorted except possibly for the entry at `j`, which is no later than any after it. */
  predicate SortedExcept(s: seq<ServoEvent>, i: nat, j: nat)
    requires j <= i < |s|
  {
    forall a, b | 0 <= a < b <= i && b != j :: s[a].tick <= s[b].tick
  }

  lemma SortedExceptStart(s: seq<ServoEvent>, i: nat)
    requires i < |s| && SortedByTick(s[..i])
    ensures SortedExcept(s, i, i)
  {
    assert forall a, b | 0 <= a < b < i :: s[..i][a] == s[a] && s[..i][b] == s[b];
  }

  lemma SortedExceptSwap(s: seq<ServoEvent>, i: nat, j: nat)
    requires 0 < j <= i < |s| && SortedExcept(s, i, j) && s[j - 1].tick > s[j].tick
    ensures SortedExcept(s[j - 1 := s[j]][j := s[j - 1]], i, j - 1)
  {
  }

  lemma SortedExceptEnd(s: seq<ServoEvent>, i: nat, j: nat)
    requires j <= i < |s| && SortedExcept(s, i, j)
    requires j > 0 ==> s[j - 1].tick <= s[j].tick
    ensures SortedByTick(s[..i + 1])
  {
  }

  /** The groups from `i` on depend only on the entries from `i` on. */
  lemma GroupSuffix(s: seq<ServoEvent>, t: seq<ServoEvent>, i: nat)
    requires |s| == |t| && i < |s|
    requires forall x | i <= x < |s| :: s[x] == t[x]
    ensures GroupEnd(s, i, i) == GroupEnd(t, i, i)
    ensures forall acc :: GroupOr(s, i, GroupEnd(s, i, i), acc) == GroupOr(t, i, GroupEnd(s, i, i), acc)
  {
    GroupEndSuffix(s, t, i, i);
    forall acc
      ensures GroupOr(s, i, GroupEnd(s, i, i), acc) == GroupOr(t, i, GroupEnd(s, i, i), acc)
    {
      GroupOrSuffix(s, t, i, GroupEnd(s, i, i), acc);
    }
  }

  lemma {:induction false} GroupEndSuffix(s: seq<ServoEvent>, t: seq<ServoEvent>, i: nat, j: nat)
    requires |s| == |t| && i <= j <= |s| && i < |s|
    requires forall x | i <= x < |s| :: s[x] == t[x]
    ensures GroupEnd(s, i, j) == GroupEnd(t, i, j)
    decreases |s| - j
  {
    if j < |s| && Sub16(s[j].tick, s[i].tick) < MERGE_WINDOW {
      GroupEndSuffix(s, t, i, j + 1);
    }
  }

  lemma {:induction false} GroupOrSuffix(s: seq<ServoEvent>, t: seq<ServoEvent>, i: nat, j: nat, acc: Ports)
    requires |s| == |t| && i <= j <= |s|
    requires forall x | i <= x < |s| :: s[x] == t[x]
    ensures GroupOr(s, i, j, acc) == GroupOr(t, i, j, acc)
    decreases j - i
  {
    if j > i {
      GroupOrSuffix(s, t, i, j - 1, acc);
    }
  }

  /** One more group of the merge: its entry, then the rest. */
  lemma MergeStep(done: seq<ServoEvent>, s: seq<ServoEvent>, i: nat, acc: Ports)
    requires i < |s|
    ensures done + Merged(s, i, acc)
      == (done + [ServoEvent(s[i].tick, GroupOr(s, i, GroupEnd(s, i, i), acc))]) + Merged(s, GroupEnd(s, i, i), GroupOr(s, i, GroupEnd(s, i, i), acc))
  {
  }
}
