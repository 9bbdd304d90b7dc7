/**
 * The RTTTL ringtone player of beeper.c.  `RTTTL_PlayByte` is a
 * character-driven state machine over the `RTTTL_State` record: the title is
 * skipped, the `d=`, `o=` and `b=` defaults are read, and each note of the
 * song ends in one or two calls of `Beep`.  The `number` pointer, which
 * selects the field that digits go into, is an enumeration of the five
 * fields it can point to.  `Beep` itself is modelled by the tone it is
 * asked for and by its cycle-count arithmetic; the pin toggling is not.
 *
 * `int` is 16 bits wide on the AVR.  Every store into an `int` field keeps
 * the low 16 bits, as avr-gcc does, and `/` truncates toward zero.
 */
module Beeper {
  import opened Bytes

  /** A 16-bit `int`. */
  type int16 = x: int | -0x8000 <= x < 0x8000

  /** Conversion to `int`: the value modulo 2^16, in the signed range. */
  function Wrap16(x: int): (r: int16)
    ensures -0x8000 <= x < 0x8000 ==> r == x
    ensures (r - x) % 0x1_0000 == 0
  {
    (x + 0x8000) % 0x1_0000 - 0x8000
  }

  /** Conversion to `unsigned`: the value modulo 2^16. */
  function U16(x: int): (r: uint16)
    ensures 0 <= x < 0x1_0000 ==> r == x
    ensures (r - x) % 0x1_0000 == 0
  {
    x % 0x1_0000
  }

  /** C's `/`, which truncates toward zero (Dafny's `/` is Euclidean). */
  function CDiv(a: int, b: int): (r: int)
    requires b != 0
    ensures 0 <= a && 0 < b ==> r == a / b
  {
    if a >= 0 && b > 0 then a / b
    else if a >= 0 then -(a / -b)
    else if b > 0 then -((-a) / b)
    else (-a) / (-b)
  }

  /** Truncation makes the quotient's sign follow the operands and its size ignore their signs. */
  lemma CDivSymmetric(a: int, b: int)
    requires b != 0
    ensures CDiv(-a, b) == -CDiv(a, b) && CDiv(a, -b) == -CDiv(a, b)
  {
  }

  // ---------------------------------------------------------------------
  // Beep

  // F_CPU is 16 MHz.  `_delay_loop_2(n)` takes 4n CPU cycles, so a half
  // period of `delay` loops lasts `delay/4` µs: F_CPU/8 = 2000000 loops per
  // second of full period, and F_CPU/4000 = 4000 loops per millisecond.

  /** A tone `Beep` is asked for: frequency in Hz (0 for a pause) and length in ms. */
  datatype Tone = Tone(freq: uint16, ms: uint16)

  /** The frequency `Beep` times its loop with: a pause is timed as 1000 Hz. */
  function LoopFreq(freq: uint16): (r: nat)
    ensures 0 < r < 0x1_0000
    ensures freq == 0 ==> r == 1000
    ensures freq != 0 ==> r == freq
  {
    if freq == 0 then 1000 else freq
  }

  /** `delay = (F_CPU/8)/freq`: the `_delay_loop_2` count of one half period. */
  function Delay(freq: uint16): uint16 {
    U16(2_000_000 / LoopFreq(freq))
  }

  /** `count = (duration*(F_CPU/4000))/delay`: the number of half periods. */
  function Cycles(delay: uint16, ms: uint16): uint16
    requires delay > 0
  {
    U16((ms * 4000) / delay)
  }

  /** The half periods `Beep(freq, ms)` toggles the pins for. */
  function BeepCycles(freq: uint16, ms: uint16): uint16 {
    DelayPositive(freq);
    Cycles(Delay(freq), ms)
  }

  /** The half-period count never wraps to zero, so the division in `BeepCycles` is defined. */
  lemma DelayPositive(freq: uint16)
    ensures Delay(freq) > 0
  {
    var f := LoopFreq(freq);
    if f > 30 {
      DivMonotone(2_000_000, f, 0xFFFF);
      DivMonotone(2_000_000, 31, f);
      assert 30 <= 2_000_000 / f <= 64516;
    } else {
      SmallFreqDelay(f);
    }
  }

  lemma SmallFreqDelay(f: nat)
    requires 0 < f <= 30
    ensures U16(2_000_000 / f) > 0
  {
    if f <= 10 {
      assert f == 1 || f == 2 || f == 3 || f == 4 || f == 5 || f == 6 || f == 7 || f == 8 || f == 9 || f == 10;
    } else if f <= 20 {
      assert f == 11 || f == 12 || f == 13 || f == 14 || f == 15 || f == 16 || f == 17 || f == 18 || f == 19 || f == 20;
    } else {
      assert f == 21 || f == 22 || f == 23 || f == 24 || f == 25 || f == 26 || f == 27 || f == 28 || f == 29 || f == 30;
    }
  }

  /**
   * Each half period is `4·delay` CPU cycles (`_delay_loop_2`), so the
   * square wave's period is `delay/2` µs: for any frequency of 31 Hz or
   * more that is `1/freq` to within one step of the delay count.
   */
  lemma DelayMatchesFrequency(freq: uint16)
    requires freq >= 31
    ensures Delay(freq) * freq <= 2_000_000 < (Delay(freq) + 1) * freq
  {
    assert 2_000_000 / freq <= 2_000_000 / 31;
    DivFloor(2_000_000, freq);
  }

  /**
   * When the count fits in 16 bits, the `count` half periods of `4·delay`
   * cycles fill the `ms · 16000` cycles asked for, to within one half
   * period.  The product `ms · 4000` is a 32-bit `long` and never wraps;
   * only the quotient is truncated to the 16-bit `unsigned count`.
   */
  lemma CyclesFillDuration(delay: uint16, ms: uint16)
    requires 0 < delay && ms * 4000 < 0x1_0000 * delay
    ensures Cycles(delay, ms) * delay <= ms * 4000 < (Cycles(delay, ms) + 1) * delay
  {
    FloorCount(ms * 4000, delay);
  }

  /** A quotient below 2^16, bracketed by multiples of its divisor. */
  lemma FloorCount(a: nat, d: nat)
    requires 0 < d && a < 0x1_0000 * d
    ensures a / d < 0x1_0000
    ensures (a / d) * d <= a < (a / d + 1) * d
  {
    var q := a / d;
    assert q * d <= a < (q + 1) * d by {
      DivFloor(a, d);
    }
    if q >= 0x1_0000 {
      MulMonotone(0x1_0000, q, d);
    }
  }

  lemma DivMonotone(a: nat, d1: nat, d2: nat)
    requires 0 < d1 <= d2
    ensures a / d2 <= a / d1
  {
    DivFloor(a, d1);
    DivFloor(a, d2);
    if a / d2 > a / d1 {
      MulMonotone(a / d1 + 1, a / d2, d2);
      MulMonotone(d1, d2, a / d1 + 1);
    }
  }

  lemma MulMonotone(x: nat, y: nat, z: nat)
    requires x <= y
    ensures x * z <= y * z
  {
  }

  /** Floor division brackets its dividend between two multiples of the divisor. */
  lemma DivFloor(a: nat, d: nat)
    requires d > 0
    ensures (a / d) * d <= a < (a / d + 1) * d
  {
  }

  // ---------------------------------------------------------------------
  // The RTTTL state

  datatype Phase = Title | Params | Song

  /** The field `number` points to, or none (`NULL`). */
  datatype Target = NoTarget | DefaultOctave | DefaultDuration | Bpm | Octave | Duration

  /** `RTTTL_State`. */
  datatype Player = Player(
    defaultOctave: int16, defaultDuration: int16, bpm: int16,
    note: int16, octave: int16, duration: int16, dotted: bool,
    number: Target, phase: Phase)

  /** `RTTTL_Init`: octave 5, quarter notes, 125 beats per minute, no note, no target, in the title. */
  const INITIAL: Player := Player(5, 4, 125, -1, 0, 0, false, NoTarget, Title)

  /** `*number`. */
  function Field(p: Player, t: Target): int16
    requires t != NoTarget
  {
    match t
    case DefaultOctave => p.defaultOctave
    case DefaultDuration => p.defaultDuration
    case Bpm => p.bpm
    case Octave => p.octave
    case Duration => p.duration
  }

  /** `*number = v`. */
  function WithField(p: Player, t: Target, v: int16): Player
    requires t != NoTarget
  {
    match t
    case DefaultOctave => p.(defaultOctave := v)
    case DefaultDuration => p.(defaultDuration := v)
    case Bpm => p.(bpm := v)
    case Octave => p.(octave := v)
    case Duration => p.(duration := v)
  }

  /** Writing through the pointer changes the field it points to and nothing else. */
  lemma WithFieldOnly(p: Player, t: Target, v: int16, u: Target)
    requires t != NoTarget && u != NoTarget
    ensures Field(WithField(p, t, v), u) == if u == t then v else Field(p, u)
    ensures WithField(p, t, v).note == p.note && WithField(p, t, v).dotted == p.dotted
    ensures WithField(p, t, v).number == p.number && WithField(p, t, v).phase == p.phase
  {
  }

  /** avr-libc's `toupper`: lower-case ASCII letters are raised, every other byte is kept. */
  function ToUpper(c: uint8): (r: uint8)
    ensures !('a' as int <= r <= 'z' as int)
    ensures ('A' as int <= r <= 'Z' as int) <==> ('A' as int <= c <= 'Z' as int || 'a' as int <= c <= 'z' as int)
    ensures r != c ==> 'a' as int <= c <= 'z' as int && c - r == 'a' as int - 'A' as int
  {
    if 'a' as int <= c <= 'z' as int then c - 0x20 else c
  }

  /** Raising a byte twice is raising it once. */
  lemma ToUpperIdempotent(c: uint8)
    ensures ToUpper(ToUpper(c)) == ToUpper(c)
  {
  }

  function IsDigit(c: uint8): bool {
    '0' as int <= c <= '9' as int
  }

  /** The note table: A, A#, B, -, C, C#, D, D#, E, -, F, F#, G, G#, in Hz, an octave below the 6th MIDI octave. */
  const FREQ_TABLE: seq<nat> := [440, 466, 494, 0, 262, 277, 294, 311, 330, 0, 349, 370, 392, 415]

  /** `x` when it lies in `[lo, hi]`, else the nearer bound. */
  function Clamp(x: int16, lo: int16, hi: int16): (r: int16)
    requires lo <= hi
    ensures lo <= r <= hi
    ensures lo <= x <= hi ==> r == x
    ensures x < lo ==> r == lo
    ensures x > hi ==> r == hi
  {
    if x < lo then lo else if x > hi then hi else x
  }

  /** The octave a note is played in: its own, else the default, clamped to 3..8. */
  function PlayedOctave(p: Player): (r: int16)
    ensures 3 <= r <= 8
    ensures p.octave != 0 && 3 <= p.octave <= 8 ==> r == p.octave
    ensures p.octave == 0 && 3 <= p.defaultOctave <= 8 ==> r == p.defaultOctave
    ensures p.octave == 0 && p.defaultOctave == 0 ==> r == 3
  {
    Clamp(if p.octave == 0 then p.defaultOctave else p.octave, 3, 8)
  }

  /** The duration divisor of a note: its own, else the default, clamped to 1..32. */
  function PlayedDuration(p: Player): (r: int16)
    ensures 1 <= r <= 32
    ensures p.duration != 0 && 1 <= p.duration <= 32 ==> r == p.duration
    ensures p.duration == 0 && 1 <= p.defaultDuration <= 32 ==> r == p.defaultDuration
    ensures p.duration == 0 && p.defaultDuration == 0 ==> r == 1
  {
    Clamp(if p.duration == 0 then p.defaultDuration else p.duration, 1, 32)
  }

  /** `bpm/4` is nonzero: the condition for the note length to be defined. */
  predicate TempoDefined(bpm: int16) {
    CDiv(bpm, 4) != 0
  }

  /** `(60000/(bpm/4))/duration` ms, and half as much again when dotted. */
  function NoteLength(bpm: int16, duration: int16, dotted: bool): int16
    requires TempoDefined(bpm) && 1 <= duration
  {
    var len := Wrap16(CDiv(CDiv(60000, CDiv(bpm, 4)), duration));
    if dotted then Wrap16(len + CDiv(len, 2)) else len
  }

  /** Note `n` of the table in octave `oct`: shifted left for octaves above 4, right for octave 3. */
  function NoteFrequency(n: nat, oct: int16): (r: nat)
    requires n < |FREQ_TABLE| && 3 <= oct <= 8
    ensures r <= 494 * 16
  {
    var f := FREQ_TABLE[n];
    match oct
    case 3 => f / 2
    case 4 => f
    case 5 => f * 2
    case 6 => f * 4
    case 7 => f * 8
    case 8 => f * 16
  }

  /** One step of `RTTTL_PlayByte`: the new state and the tones it plays. */
  datatype Step = Step(player: Player, tones: seq<Tone>)

  /** Whether byte `c` ends a note in state `p`, which divides by `bpm/4`. */
  predicate EndsNote(p: Player, c: uint8) {
    var u := ToUpper(c);
    !(p.number != NoTarget && IsDigit(u)) && p.phase == Song && (u == ',' as int || u == 0)
  }

  /** `RTTTL_PlayByte` on a state and a byte. */
  function Next(p: Player, c: uint8): Step
    requires EndsNote(p, c) ==> TempoDefined(p.bpm)
  {
    var u := ToUpper(c);
    if p.number != NoTarget && IsDigit(u) then
      Step(WithField(p, p.number, Wrap16(Wrap16(Field(p, p.number) * 10) + u - '0' as int)), [])
    else
      match p.phase
      case Title => Step(if u == ':' as int then p.(phase := Params) else p, [])
      case Params => Step(ParamsByte(p, u), [])
      case Song => SongByte(p, u)
  }

  /** The `PARAMS` case: `o`, `d` and `b` select a default to read, `:` starts the song. */
  function ParamsByte(p: Player, u: uint8): Player {
    if u == 'O' as int then p.(number := DefaultOctave, defaultOctave := 0)
    else if u == 'D' as int then p.(number := DefaultDuration, defaultDuration := 0)
    else if u == 'B' as int then p.(number := Bpm, bpm := 0)
    else if u == ':' as int then p.(number := Duration, duration := 0, phase := Song)
    else p
  }

  /** The `SONG` case: letters pick a note, `p` a pause, `#` a semitone up, `.` dots, `,` or NUL plays it. */
  function SongByte(p: Player, u: uint8): Step
    requires (u == ',' as int || u == 0) ==> TempoDefined(p.bpm)
  {
    var p1 := if 'A' as int <= u <= 'G' as int then p.(note := (u - 'A' as int) * 2, number := Octave, octave := 0) else p;
    var p2 := if u == 'P' as int then p1.(note := -1) else p1;
    var p3 := if u == '#' as int then p2.(note := Wrap16(p2.note + 1)) else p2;
    var p4 := if u == '.' as int then p3.(dotted := true) else p3;
    if u == ',' as int || u == 0 then Step(Reset(p4), NoteTones(p4)) else Step(p4, [])
  }

  /** The note fields after a note is played; the duration is the target again. */
  function Reset(p: Player): Player {
    p.(note := -1, octave := 0, duration := 0, dotted := false, number := Duration)
  }

  /** The `Beep` calls that play the note of `p`. */
  function NoteTones(p: Player): seq<Tone>
    requires TempoDefined(p.bpm)
  {
    var len := NoteLength(p.bpm, PlayedDuration(p), p.dotted);
    if 0 <= p.note <= 13 then
      [Tone(U16(NoteFrequency(p.note, PlayedOctave(p))), U16(len - 10)), Tone(0, 10)]
    else
      [Tone(0, U16(len))]
  }

  // ---------------------------------------------------------------------
  // Properties of one step

  /** With a target selected, a digit is appended to it in decimal and nothing else changes. */
  lemma DigitAppends(p: Player, c: uint8)
    requires p.number != NoTarget && IsDigit(ToUpper(c))
    ensures Next(p, c).tones == []
    ensures Field(Next(p, c).player, p.number) == Wrap16(Field(p, p.number) * 10 + c - '0' as int)
    ensures Next(p, c).player == WithField(p, p.number, Field(Next(p, c).player, p.number))
  {
    var x: int := Field(p, p.number);
    var w := Wrap16(x * 10);
    var d := c - '0' as int;
    assert (w + d - (x * 10 + d)) % 0x1_0000 == 0;
    Wrap16Congruent(w + d, x * 10 + d);
  }

  /** Values congruent modulo 2^16 convert to the same `int`. */
  lemma Wrap16Congruent(x: int, y: int)
    requires (x - y) % 0x1_0000 == 0
    ensures Wrap16(x) == Wrap16(y)
  {
    var k := (x - y) / 0x1_0000;
    assert x + 0x8000 == (y + 0x8000) + k * 0x1_0000;
    ModShift(y + 0x8000, k);
  }

  lemma ModShift(a: int, k: int)
    ensures (a + k * 0x1_0000) % 0x1_0000 == a % 0x1_0000
  {
  }

  /** In the title every byte but `:` is skipped, and `:` moves on to the defaults. */
  lemma TitleSkipped(p: Player, c: uint8)
    requires p.phase == Title && !(p.number != NoTarget && IsDigit(ToUpper(c)))
    ensures Next(p, c).tones == []
    ensures Next(p, c).player == if c == ':' as int then p.(phase := Params) else p
  {
  }

  /** In the defaults, `o`, `d`, `b` zero and select their field, `:` starts the song on a zero duration. */
  lemma ParamsSelect(p: Player, c: uint8)
    requires p.phase == Params && !(p.number != NoTarget && IsDigit(ToUpper(c)))
    ensures Next(p, c).tones == []
    ensures ToUpper(c) == 'O' as int ==> Next(p, c).player.number == DefaultOctave && Next(p, c).player.defaultOctave == 0
    ensures ToUpper(c) == 'D' as int ==> Next(p, c).player.number == DefaultDuration && Next(p, c).player.defaultDuration == 0
    ensures ToUpper(c) == 'B' as int ==> Next(p, c).player.number == Bpm && Next(p, c).player.bpm == 0
    ensures ToUpper(c) == ':' as int ==>
      Next(p, c).player == p.(number := Duration, duration := 0, phase := Song)
    ensures ToUpper(c) !in {'O' as int, 'D' as int, 'B' as int, ':' as int} ==> Next(p, c).player == p
  {
  }

  /**
   * A note is played on `,` or NUL: the tone for the length less 10 ms and
   * a 10 ms pause when the index is in the table, one pause otherwise; then
   * the note fields are reset and the duration is the target.
   */
  lemma NotePlayed(p: Player, c: uint8)
    requires EndsNote(p, c) && TempoDefined(p.bpm)
    ensures Next(p, c).player == Reset(p)
    ensures var len := NoteLength(p.bpm, PlayedDuration(p), p.dotted);
      if 0 <= p.note <= 13 then
        |Next(p, c).tones| == 2 && Next(p, c).tones[0].ms == U16(len - 10) && Next(p, c).tones[1] == Tone(0, 10)
      else
        Next(p, c).tones == [Tone(0, U16(len))]
  {
  }

  /** A played note and its pause together last the whole note length. */
  lemma NoteKeepsTime(p: Player)
    requires TempoDefined(p.bpm) && 0 <= p.note <= 13
    requires 10 <= NoteLength(p.bpm, PlayedDuration(p), p.dotted)
    ensures NoteTones(p)[0].ms + NoteTones(p)[1].ms == NoteLength(p.bpm, PlayedDuration(p), p.dotted)
  {
  }

  /** A note shorter than 10 ms makes the tone's `unsigned` length wrap to 65526 ms or more. */
  lemma ShortNoteWraps(p: Player)
    requires TempoDefined(p.bpm) && 0 <= p.note <= 13
    requires 0 <= NoteLength(p.bpm, PlayedDuration(p), p.dotted) < 10
    ensures NoteTones(p)[0].ms == NoteLength(p.bpm, PlayedDuration(p), p.dotted) + 0x1_0000 - 10
    ensures NoteTones(p)[0].ms >= 65526
  {
  }

  /** Octave 4 plays the table entry; going up an octave doubles the frequency; octave 3 halves it. */
  lemma OctaveDoubles(n: nat, oct: int16)
    requires n < |FREQ_TABLE| && 3 <= oct < 8
    ensures NoteFrequency(n, 4) == FREQ_TABLE[n]
    ensures oct >= 4 ==> NoteFrequency(n, oct + 1) == 2 * NoteFrequency(n, oct)
    ensures oct == 3 ==> NoteFrequency(n, 3) == FREQ_TABLE[n] / 2
  {
  }

  /**
   * For an ordinary tempo the note length is the beat arithmetic without
   * wrap-around: a whole note is four beats of `60000/bpm` ms.
   */
  lemma NoteLengthPlain(bpm: int16, duration: int16)
    requires 8 <= bpm && 1 <= duration <= 32
    ensures TempoDefined(bpm)
    ensures NoteLength(bpm, duration, false) == (60000 / (bpm / 4)) / duration
    ensures (60000 / (bpm / 4)) / duration <= 30000
  {
    var q := bpm / 4;
    assert CDiv(bpm, 4) == q && 2 <= q;
    var beat := 60000 / q;
    assert CDiv(60000, q) == beat;
    assert beat <= 30000 by {
      DivMonotone(60000, 2, q);
    }
    assert CDiv(beat, duration) == beat / duration;
    assert beat / duration <= beat by {
      DivMonotone(beat, 1, duration);
    }
  }

  // ---------------------------------------------------------------------
  // A whole melody

  /** The bytes of `s` can each be played in turn from `p`: each note that ends finds `bpm/4` nonzero. */
  predicate Playable(p: Player, s: seq<uint8>)
    decreases |s|, 0
  {
    s == [] || (Playable(p, s[..|s| - 1]) && var q := Run(p, s[..|s| - 1]).player;
      EndsNote(q, s[|s| - 1]) ==> TempoDefined(q.bpm))
  }

  /** The bytes of `s` played in order from `p`: the final state and every tone. */
  function Run(p: Player, s: seq<uint8>): Step
    requires Playable(p, s)
    decreases |s|, 1
  {
    if s == [] then Step(p, [])
    else
      var before := Run(p, s[..|s| - 1]);
      var last := Next(before.player, s[|s| - 1]);
      Step(last.player, before.tones + last.tones)
  }

  /** One more byte is one more step. */
  lemma RunSnoc(p: Player, s: seq<uint8>, x: uint8)
    requires Playable(p, s) && (EndsNote(Run(p, s).player, x) ==> TempoDefined(Run(p, s).player.bpm))
    ensures Playable(p, s + [x])
    ensures Run(p, s + [x]) == Step(Next(Run(p, s).player, x).player, Run(p, s).tones + Next(Run(p, s).player, x).tones)
  {
    assert (s + [x])[..|s|] == s;
  }

  /** Playing `a` then `b` is playing `a + b`: every byte is fed once, in order. */
  lemma {:induction false} RunConcat(p: Player, a: seq<uint8>, b: seq<uint8>)
    requires Playable(p, a + b)
    ensures Playable(p, a) && Playable(Run(p, a).player, b)
    ensures Run(p, a + b).player == Run(Run(p, a).player, b).player
    ensures Run(p, a + b).tones == Run(p, a).tones + Run(Run(p, a).player, b).tones
    decreases |b|
  {
    if b == [] {
      assert a + b == a;
    } else {
      var b', x := b[..|b| - 1], b[|b| - 1];
      assert (a + b) == (a + b') + [x];
      assert b == b' + [x];
      PlayablePrefix(p, a + b, |a + b'|);
      assert (a + b)[..|a + b'|] == a + b';
      RunConcat(p, a, b');
      var q := Run(p, a).player;
      var mid, rest := Run(p, a + b'), Run(q, b');
      RunSnoc(p, a + b', x);
      RunSnoc(q, b', x);
      var last := Next(mid.player, x);
      assert mid.tones == Run(p, a).tones + rest.tones;
      ConcatAssoc(Run(p, a).tones, rest.tones, last.tones);
    }
  }

  lemma ConcatAssoc<T>(x: seq<T>, y: seq<T>, z: seq<T>)
    ensures (x + y) + z == x + (y + z)
  {
  }

  /** Every prefix of a playable sequence is playable. */
  lemma {:induction false} PlayablePrefix(p: Player, s: seq<uint8>, k: nat)
    requires Playable(p, s) && k <= |s|
    ensures Playable(p, s[..k])
    decreases |s|
  {
    if k < |s| {
      PlayablePrefix(p, s[..|s| - 1], k);
      assert s[..|s| - 1][..k] == s[..k];
    } else {
      assert s[..k] == s;
    }
  }

  /** A melody sounds nothing until its title and defaults are over. */
  lemma {:induction false} SilentBeforeSong(p: Player, s: seq<uint8>)
    requires p.phase != Song && Playable(p, s)
    requires forall i | 0 <= i < |s| :: ToUpper(s[i]) != ':' as int
    ensures Run(p, s).tones == [] && Run(p, s).player.phase == p.phase
    decreases |s|
  {
    if s != [] {
      SilentBeforeSong(p, s[..|s| - 1]);
      var q := Run(p, s[..|s| - 1]).player;
      if !(q.number != NoTarget && IsDigit(ToUpper(s[|s| - 1]))) {
        if q.phase == Params {
          assert ParamsByte(q, ToUpper(s[|s| - 1])).phase == Params;
        }
      }
    }
  }

  // ---------------------------------------------------------------------
  // The imperative player

  /** An `RTTTL_State` record together with the tones `Beep` has been asked for. */
  class Rtttl {
    var defaultOctave: int16
    var defaultDuration: int16
    var bpm: int16
    var note: int16
    var octave: int16
    var duration: int16
    var dotted: bool
    var number: Target
    var state: Phase
    var tones: seq<Tone>

    function Snapshot(): Player
      reads this
    {
      Player(defaultOctave, defaultDuration, bpm, note, octave, duration, dotted, number, state)
    }

    /** A record whose fields are not yet set, and no tones. */
    constructor ()
      ensures tones == []
    {
      tones := [];
    }

    /** `RTTTL_Init`. */
    method Init()
      modifies this
      ensures Snapshot() == INITIAL && tones == old(tones)
    {
      defaultOctave := 5;
      defaultDuration := 4;
      bpm := 125;
      note := -1;
      octave := 0;
      duration := 0;
      dotted := false;
      number := NoTarget;
      state := Title;
    }

    /** `Beep(freq, duration)`: the tone is asked for; the pins are not modelled. */
    method Beep(freq: uint16, ms: uint16)
      modifies this
      ensures tones == old(tones) + [Tone(freq, ms)] && Snapshot() == old(Snapshot())
    {
      tones := tones + [Tone(freq, ms)];
    }

    /** `*state->number = v`. */
    method Store(v: int16)
      requires number != NoTarget
      modifies this
      ensures Snapshot() == WithField(old(Snapshot()), old(number), v) && tones == old(tones)
    {
      match number
      case DefaultOctave => defaultOctave := v;
      case DefaultDuration => defaultDuration := v;
      case Bpm => bpm := v;
      case Octave => octave := v;
      case Duration => duration := v;
    }

    /** `RTTTL_PlayByte`. */
    method PlayByte(c0: uint8)
      requires EndsNote(Snapshot(), c0) ==> TempoDefined(bpm)
      modifies this
      ensures Snapshot() == Next(old(Snapshot()), c0).player
      ensures tones == old(tones) + Next(old(Snapshot()), c0).tones
    {
      var c := ToUpper(c0);
      if number != NoTarget && IsDigit(c) {
        var v: int := Field(Snapshot(), number);
        Store(Wrap16(v * 10));
        var w: int := Field(Snapshot(), number);
        Store(Wrap16(w + c - '0' as int));
        return;
      }
      match state
      case Title =>
        if c == ':' as int {
          state := Params;
        }
      case Params =>
        ParamsCase(c);
      case Song =>
        SongCase(c);
    }

    /** The `PARAMS` case of `RTTTL_PlayByte`. */
    method ParamsCase(c: uint8)
      modifies this
      ensures Snapshot() == ParamsByte(old(Snapshot()), c) && tones == old(tones)
    {
      if c == 'O' as int {
        number := DefaultOctave;
        defaultOctave := 0;
      } else if c == 'D' as int {
        number := DefaultDuration;
        defaultDuration := 0;
      } else if c == 'B' as int {
        number := Bpm;
        bpm := 0;
      } else if c == ':' as int {
        number := Duration;
        duration := 0;
        state := Song;
      }
    }

    /** The `SONG` case of `RTTTL_PlayByte`. */
    method SongCase(c: uint8)
      requires (c == ',' as int || c == 0) ==> TempoDefined(bpm)
      modifies this
      ensures Snapshot() == SongByte(old(Snapshot()), c).player
      ensures tones == old(tones) + SongByte(old(Snapshot()), c).tones
    {
      if 'A' as int <= c <= 'G' as int {
        note := (c - 'A' as int) * 2;
        number := Octave;
        octave := 0;
      }
      if c == 'P' as int {
        note := -1;
      }
      if c == '#' as int {
        note := Wrap16(note + 1);
      }
      if c == '.' as int {
        dotted := true;
      }
      if c == ',' as int || c == 0 {
        PlayNote();
      }
    }

    /** The note-ending branch of `RTTTL_PlayByte`. */
    method PlayNote()
      requires TempoDefined(bpm)
      modifies this
      ensures Snapshot() == Reset(old(Snapshot()))
      ensures tones == old(tones) + NoteTones(old(Snapshot()))
    {
      ghost var p := Snapshot();
      Normalize();
      duration := Wrap16(CDiv(CDiv(60000, CDiv(bpm, 4)), duration));
      if dotted {
        duration := Wrap16(duration + CDiv(duration, 2));
      }
      assert duration == NoteLength(p.bpm, PlayedDuration(p), p.dotted);
      Sound();
      note := -1;
      octave := 0;
      duration := 0;
      dotted := false;
      number := Duration;
    }

    /** The `Beep` calls of a note whose octave and length are set. */
    method Sound()
      requires TempoDefined(bpm) && 3 <= octave <= 8
      modifies this
      ensures Snapshot() == old(Snapshot())
      ensures tones == old(tones) +
        if 0 <= note <= 13 then [Tone(U16(NoteFrequency(note, octave)), U16(duration - 10)), Tone(0, 10)]
        else [Tone(0, U16(duration))]
    {
      if 0 <= note <= 13 {
        var frequency := FREQ_TABLE[note];
        if octave > 4 {
          frequency := ShiftLeft(frequency, octave - 4);
        }
        if octave < 4 {
          // `>> (4 - octave)` with the octave at 3
          frequency := frequency / 2;
        }
        assert frequency == NoteFrequency(note, octave);
        Beep(U16(frequency), U16(duration - 10));
        Beep(0, 10);
      } else {
        Beep(0, U16(duration));
      }
    }

    /** The defaulting and clamping of the octave and duration before a note is played. */
    method Normalize()
      modifies this
      ensures octave == PlayedOctave(old(Snapshot())) && duration == PlayedDuration(old(Snapshot()))
      ensures Snapshot() == old(Snapshot()).(octave := octave, duration := duration) && tones == old(tones)
    {
      if octave == 0 {
        octave := defaultOctave;
      }
      if duration == 0 {
        duration := defaultDuration;
      }
      if duration < 1 {
        duration := 1;
      }
      if duration > 32 {
        duration := 32;
      }
      if octave < 3 {
        octave := 3;
      }
      if octave > 8 {
        octave := 8;
      }
    }
  }

  /** `x << k` for the shifts a note's octave asks for. */
  function ShiftLeft(x: nat, k: nat): (r: nat)
    requires k <= 4
    ensures r == x * [1, 2, 4, 8, 16][k]
  {
    if k == 0 then x else 2 * ShiftLeft(x, k - 1)
  }

  /**
   * `RTTTL_Play`: a fresh, initialised record is fed every byte of the
   * NUL-terminated melody, the terminating NUL included, once and in order.
   */
  method Play(melody: seq<uint8>) returns (tones: seq<Tone>)
    requires forall i | 0 <= i < |melody| :: melody[i] != 0
    requires Playable(INITIAL, melody + [0])
    ensures tones == Run(INITIAL, melody + [0]).tones
  {
    var text := melody + [0];
    var player := new Rtttl();
    player.Init();
    var i := 0;
    var c: uint8 := 0xFF;
    while c != 0
      invariant 0 <= i <= |text|
      invariant (c == 0) == (i == |text|)
      invariant Playable(INITIAL, text[..i])
      invariant player.Snapshot() == Run(INITIAL, text[..i]).player
      invariant player.tones == Run(INITIAL, text[..i]).tones
      decreases |text| - i
    {
      c := text[i];
      PlayablePrefix(INITIAL, text, i + 1);
      assert text[..i + 1][..i] == text[..i];
      i := i + 1;
      player.PlayByte(c);
    }
    assert text[..i] == text;
    tones := player.tones;
  }
}
