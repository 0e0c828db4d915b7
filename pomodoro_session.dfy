/** The session record of the timer engine (com.model.PomodoroSession) and the
    two enumerations it carries (TimerState, TimerMode, whose values are the
    ones the service uses). */
module PomodoroModel {
  import opened JavaLang

  /** The phase a session is in. `Paused` is the resting state after creation,
      reset and pause; `Completed` ends a cycle until the next start. */
  datatype TimerState = Paused | Working | ShortBreak | LongBreak | Completed

  /** Classic: one work phase, then one long break. Continuous: one long work
      phase interrupted by short breaks at seeded checkpoints. */
  datatype TimerMode = Classic | Continuous

  /** java.util.UUID: two 64-bit halves. */
  datatype Uuid = Uuid(mostSigBits: bv64, leastSigBits: bv64)

  /** 16 to the power n. */
  function Pow16(n: nat): (p: nat)
    ensures p >= 1
  {
    if n == 0 then 1 else 16 * Pow16(n - 1)
  }

  /** The lower-case hexadecimal digit for 0 <= d < 16. */
  function HexDigit(d: nat): (c: char)
    requires d < 16
    ensures IsHexDigit(c)
  {
    if d < 10 then (48 + d) as char else (87 + d) as char
  }

  predicate IsHexDigit(c: char) {
    '0' <= c <= '9' || 'a' <= c <= 'f'
  }

  /** The value of a lower-case hexadecimal digit. */
  function DigitValue(c: char): nat
  {
    if '0' <= c <= '9' then c as int - 48
    else if 'a' <= c <= 'f' then c as int - 87
    else 0
  }

  /** The n lowest hexadecimal digits of x, most significant first, padded with
      zeros: what UUID.toString writes for one group (Long.toHexString of
      `hi | (val & (hi - 1))` without its leading digit). */
  function HexDigits(x: nat, n: nat): (s: string)
    ensures |s| == n
    ensures forall i :: 0 <= i < n ==> IsHexDigit(s[i])
  {
    if n == 0 then "" else HexDigits(x / 16, n - 1) + [HexDigit(x % 16)]
  }

  /** The number a string of hexadecimal digits denotes. */
  function HexValue(s: string): nat
  {
    if s == [] then 0 else HexValue(s[..|s| - 1]) * 16 + DigitValue(s[|s| - 1])
  }

  /** Division with remainder is unique. */
  lemma DivModUnique(x: int, d: int, q: int, r: int)
    requires d > 0 && x == d * q + r && 0 <= r < d
    ensures x / d == q && x % d == r
  {
    var k := x / d - q;
    assert d * (x / d) + x % d == x;
    assert d * k == r - x % d by {
      assert d * k == d * (x / d) - d * q;
    }
  }

  /** Dropping the lowest hexadecimal digit and keeping n - 1 more digits keeps
      the n lowest digits. */
  lemma ModPow16Step(x: nat, m: nat)
    requires m >= 1
    ensures (x / 16 % m) * 16 + x % 16 == x % (16 * m)
  {
    var q, r := x / 16, x % 16;
    var a, b := q / m, q % m;
    assert q == m * a + b;
    assert x == 16 * q + r;
    assert x == (16 * m) * a + (16 * b + r) by {
      assert 16 * q == 16 * (m * a) + 16 * b;
      assert 16 * (m * a) == (16 * m) * a;
    }
    assert 16 * b + r < 16 * m by {
      assert b <= m - 1;
    }
    DivModUnique(x, 16 * m, a, 16 * b + r);
  }

  /** Reading back the digits written for x gives x modulo 16^n: the group
      written for a UUID determines those bits. */
  lemma {:induction false} HexDigitsRoundTrip(x: nat, n: nat)
    ensures HexValue(HexDigits(x, n)) == x % Pow16(n)
  {
    if n > 0 {
      var s := HexDigits(x, n);
      assert s[..|s| - 1] == HexDigits(x / 16, n - 1);
      HexDigitsRoundTrip(x / 16, n - 1);
      ModPow16Step(x, Pow16(n - 1));
    }
  }

  /** UUID.toString: five groups of 8, 4, 4, 4 and 12 lower-case hexadecimal
      digits separated by dashes, taken from bits 63-32, 31-16 and 15-0 of the
      most significant half and bits 63-48 and 47-0 of the least significant. */
  function UuidToString(u: Uuid): string
  {
    var msb, lsb := u.mostSigBits as nat, u.leastSigBits as nat;
    DashedGroups(Shift(msb, 0x1_0000_0000), Shift(msb, 0x1_0000), msb, Shift(lsb, 0x1_0000_0000_0000), lsb)
  }

  /** `x >> k` on a non-negative value, for `divisor` = 2^k. */
  function Shift(x: nat, divisor: nat): nat
    requires divisor > 0
  {
    x / divisor
  }

  /** The groups of a UUID's string form, joined with dashes. */
  function DashedGroups(g1: nat, g2: nat, g3: nat, g4: nat, g5: nat): (s: string)
    ensures |s| == 36
    ensures s[8] == '-' && s[13] == '-' && s[18] == '-' && s[23] == '-'
  {
    HexDigits(g1, 8) + "-" + HexDigits(g2, 4) + "-" + HexDigits(g3, 4) + "-" +
    HexDigits(g4, 4) + "-" + HexDigits(g5, 12)
  }

  /** A timer session. The fields and their initial values are the record's;
      each Lombok setter changes exactly the field it names, which the
      `modifies this`field` frame of each setter states. */
  class PomodoroSession {
    const sessionUUId: Uuid
    const sessionId: string

    var timerMode: TimerMode
    var isRunning: bool

    var shortBreakTimes: seq<int>
    var nextShortBreakIndex: nat
    var curTimerState: Option<TimerState>
    var remainingTime: int

    var longBreakDuration: int
    var shortBreakDuration: int
    var shortBreakMinInterval: int
    var shortBreakMaxInterval: int
    var workTime: int

    /** `new PomodoroSession()`; `uuid` is what UUID.randomUUID() returned. */
    constructor (uuid: Uuid)
      ensures sessionUUId == uuid && sessionId == UuidToString(uuid)
      ensures timerMode == Continuous && !isRunning
      ensures shortBreakTimes == [] && nextShortBreakIndex == 0
      ensures curTimerState == None && remainingTime == 0
      ensures longBreakDuration == 0 && shortBreakDuration == 0
      ensures shortBreakMinInterval == 0 && shortBreakMaxInterval == 0 && workTime == 0
    {
      sessionUUId := uuid;
      sessionId := UuidToString(uuid);
      timerMode := Continuous;
      isRunning := false;
      shortBreakTimes := [];
      nextShortBreakIndex := 0;
      curTimerState := None;
      remainingTime := 0;
      longBreakDuration := 0;
      shortBreakDuration := 0;
      shortBreakMinInterval := 0;
      shortBreakMaxInterval := 0;
      workTime := 0;
    }

    method SetTimerMode(mode: TimerMode)
      modifies this`timerMode
      ensures timerMode == mode
    {
      timerMode := mode;
    }

    method SetRunning(running: bool)
      modifies this`isRunning
      ensures isRunning == running
    {
      isRunning := running;
    }

    method SetShortBreakTimes(times: seq<int>)
      modifies this`shortBreakTimes
      ensures shortBreakTimes == times
    {
      shortBreakTimes := times;
    }

    method SetNextShortBreakIndex(index: nat)
      modifies this`nextShortBreakIndex
      ensures nextShortBreakIndex == index
    {
      nextShortBreakIndex := index;
    }

    method SetCurTimerState(state: TimerState)
      modifies this`curTimerState
      ensures curTimerState == Some(state)
    {
      curTimerState := Some(state);
    }

    method SetRemainingTime(time: int)
      modifies this`remainingTime
      ensures remainingTime == time
    {
      remainingTime := time;
    }

    method SetLongBreakDuration(duration: int)
      modifies this`longBreakDuration
      ensures longBreakDuration == duration
    {
      longBreakDuration := duration;
    }

    method SetShortBreakDuration(duration: int)
      modifies this`shortBreakDuration
      ensures shortBreakDuration == duration
    {
      shortBreakDuration := duration;
    }

    method SetWorkTime(time: int)
      modifies this`workTime
      ensures workTime == time
    {
      workTime := time;
    }
  }
}
