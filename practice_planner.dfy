/**
 * The practice planner's session timer: a countdown loaded from a generated
 * routine, its `m:ss` display, and the progress bar's percentage.
 *
 * Each firing of the one-second interval is a call to `IntervalTick`, and each
 * run of the timer effect after a render is a call to `TimerEffect`; the alarm
 * and the failure notice are counted in ghost fields.
 */
module PracticePlanner {
  import opened Wrappers

  datatype Category = Warmup | Technique | Repertoire | Theory | CoolDown

  datatype PracticeItem = PracticeItem(title: string, durationMinutes: int, description: string, category: Category)

  /** A generated routine; `totalDuration` is in minutes. */
  datatype PracticeRoutine = PracticeRoutine(title: string, totalDuration: int, items: seq<PracticeItem>)

  /** The routine's length in seconds, the countdown's starting value. */
  function SessionSeconds(r: PracticeRoutine): (s: int)
    ensures s % 60 == 0 && s / 60 == r.totalDuration
    ensures s > 0 <==> r.totalDuration > 0
  {
    r.totalDuration * 60
  }

  /* ---------------------------------------------------------------------- */
  /* Number.prototype.toString, String.prototype.padStart and the `%` of    */
  /* JavaScript, on integers                                                */
  /* ---------------------------------------------------------------------- */

  predicate IsDigit(c: char)
  {
    '0' <= c <= '9'
  }

  predicate AllDigits(s: string)
  {
    forall i :: 0 <= i < |s| ==> IsDigit(s[i])
  }

  function DigitChar(d: nat): (c: char)
    requires d < 10
    ensures IsDigit(c)
  {
    ('0' as int + d) as char
  }

  function DigitValue(c: char): (d: nat)
    requires IsDigit(c)
    ensures d < 10
  {
    c as int - '0' as int
  }

  /** The decimal numeral of `n`, without leading zeros. */
  function NatToString(n: nat): (s: string)
    ensures AllDigits(s)
    ensures 1 <= |s|
    ensures n < 10 <==> |s| == 1
    ensures n < 100 ==> |s| <= 2
    ensures s[0] == '0' <==> n == 0
    ensures |s| > 1 ==> s[0] != '0'
  {
    if n < 10 then [DigitChar(n)] else NatToString(n / 10) + [DigitChar(n % 10)]
  }

  /** `String(i)` for an integer `i`. */
  function IntToString(i: int): (s: string)
    ensures 1 <= |s|
    ensures AllDigits(s) <==> i >= 0
  {
    if i < 0 then
      var s := "-" + NatToString(-i);
      assert s[0] == '-' && !IsDigit(s[0]);
      s
    else NatToString(i)
  }

  /** The value of a string of decimal digits. */
  function ParseNat(s: string): nat
    requires AllDigits(s)
  {
    if s == [] then 0 else ParseNat(s[..|s| - 1]) * 10 + DigitValue(s[|s| - 1])
  }

  /** Reading a numeral back gives the number. */
  lemma {:induction false} ParseNatToString(n: nat)
    ensures ParseNat(NatToString(n)) == n
  {
    if n >= 10 {
      var s := NatToString(n);
      assert s[..|s| - 1] == NatToString(n / 10);
      ParseNatToString(n / 10);
    }
  }

  /** `s.padStart(width, fill)`. */
  function PadStart(s: string, width: nat, fill: char): (r: string)
    ensures |r| == if |s| >= width then |s| else width
    ensures r[|r| - |s|..] == s
    ensures forall i :: 0 <= i < |r| - |s| ==> r[i] == fill
  {
    if |s| >= width then s else seq(width - |s|, _ => fill) + s
  }

  /** JavaScript's `a % b` for `b > 0`: the remainder takes the sign of `a`. */
  function JsRemainder(a: int, b: int): (r: int)
    requires b > 0
    ensures a >= 0 ==> 0 <= r < b
    ensures a < 0 ==> -b < r <= 0
    ensures r == a - b * (if a >= 0 then a / b else -((-a) / b))
  {
    if a >= 0 then a % b else -((-a) % b)
  }

  /**
   * `formatTime`: `Math.floor(seconds / 60)`, a colon, and `seconds % 60`
   * padded with '0' to two characters.
   */
  function FormatTime(seconds: int): (r: string)
    ensures seconds >= 0 ==>
      |r| >= 4 && r[|r| - 3] == ':' && AllDigits(r[..|r| - 3]) && AllDigits(r[|r| - 2..])
  {
    var mins := seconds / 60;
    var secs := JsRemainder(seconds, 60);
    var minsField, secsField := IntToString(mins), PadStart(IntToString(secs), 2, '0');
    SplitClock(minsField, secsField);
    minsField + ":" + secsField
  }

  /** Reads an `m:ss` display back into seconds. */
  function ParseTime(t: string): Option<nat>
  {
    if |t| >= 4 && t[|t| - 3] == ':' && AllDigits(t[..|t| - 3]) && AllDigits(t[|t| - 2..])
    then Some(ParseNat(t[..|t| - 3]) * 60 + ParseNat(t[|t| - 2..]))
    else None
  }

  /** A seconds field below 60, padded: two digits that read back as the field. */
  lemma PaddedSeconds(sec: nat)
    requires sec < 60
    ensures var pad := PadStart(NatToString(sec), 2, '0');
      |pad| == 2 && AllDigits(pad) && ParseNat(pad) == sec
  {
    var digits := NatToString(sec);
    var pad := PadStart(digits, 2, '0');
    ParseNatToString(sec);
    if sec < 10 {
      assert pad == ['0'] + digits;
      assert pad[..1] == ['0'];
      assert ParseNat(pad[..1]) == 0;
    } else {
      assert pad == digits;
    }
  }

  /** For a non-negative count, minutes and seconds are plain quotient and remainder. */
  lemma FormatTimeFields(seconds: nat)
    ensures FormatTime(seconds) ==
      NatToString(seconds / 60) + ":" + PadStart(NatToString(seconds % 60), 2, '0')
  {
    assert JsRemainder(seconds, 60) == seconds % 60;
    assert IntToString(seconds / 60) == NatToString(seconds / 60);
    assert IntToString(seconds % 60) == NatToString(seconds % 60);
  }

  /** The pieces of `mins + ":" + pad` with a two-character `pad`. */
  lemma SplitClock(mins: string, pad: string)
    ensures var t := mins + ":" + pad;
      |pad| == 2 ==>
        |t| == |mins| + 3 && t[|t| - 3] == ':' && t[..|t| - 3] == mins && t[|t| - 2..] == pad
  {
  }

  /** How `ParseTime` reads a numeral, a colon and a two-digit field. */
  lemma ParseTimeOf(mins: string, pad: string, total: nat)
    requires AllDigits(mins) && AllDigits(pad) && |mins| >= 1 && |pad| == 2
    requires ParseNat(mins) * 60 + ParseNat(pad) == total
    ensures ParseTime(mins + ":" + pad) == Some(total)
  {
    SplitClock(mins, pad);
  }

  /**
   * For a non-negative count the display is the minutes, a colon and exactly
   * two digits holding the seconds below 60; reading it back gives the count.
   */
  lemma FormatTimeRoundTrip(seconds: nat)
    ensures var r := FormatTime(seconds);
      && r == NatToString(seconds / 60) + ":" + r[|r| - 2..]
      && AllDigits(r[|r| - 2..])
      && ParseNat(r[|r| - 2..]) == seconds % 60 < 60
      && ParseTime(r) == Some(seconds)
  {
    var m, sec := seconds / 60, seconds % 60;
    var ms, pad := NatToString(m), PadStart(NatToString(sec), 2, '0');
    FormatTimeFields(seconds);
    var r := ms + ":" + pad;
    assert FormatTime(seconds) == r;
    PaddedSeconds(sec);
    ParseNatToString(m);
    assert m * 60 + sec == seconds;
    ParseTimeOf(ms, pad, seconds);
    assert r[|r| - 2..] == pad;
  }

  /* ---------------------------------------------------------------------- */
  /* The progress bar                                                       */
  /* ---------------------------------------------------------------------- */

  /** A JavaScript number as far as the percentage formula can produce one. */
  datatype JsNumber = Finite(value: real) | NaN | PositiveInfinity | NegativeInfinity

  /** JavaScript's `/`, including division by zero. */
  function JsDivide(a: real, b: real): (r: JsNumber)
    ensures r.Finite? <==> b != 0.0
    ensures r.Finite? ==> r.value * b == a
    ensures r == NaN <==> a == 0.0 && b == 0.0
  {
    if b != 0.0 then Finite(a / b)
    else if a > 0.0 then PositiveInfinity
    else if a < 0.0 then NegativeInfinity
    else NaN
  }

  /** JavaScript's `x * 100`. */
  function Percent(x: JsNumber): (r: JsNumber)
    ensures r.Finite? <==> x.Finite?
    ensures x.Finite? ==> r.value == x.value * 100.0
    ensures !x.Finite? ==> r == x
  {
    match x
    case Finite(v) => Finite(v * 100.0)
    case _ => x
  }

  /** A fraction `done / total` of a positive total lies in [0, 1]. */
  lemma FractionBounds(done: real, total: real)
    requires 0.0 <= done <= total && total > 0.0
    ensures 0.0 <= done / total <= 1.0
  {
    var q := done / total;
    assert q * total == done;
  }

  /**
   * `progressPercentage`: 0 without a routine, otherwise the elapsed share of
   * the session in percent. For a positive session length and a count within
   * it, the value is a finite number in [0, 100].
   */
  function ProgressPercentage(routine: Option<PracticeRoutine>, timeLeft: int): (p: JsNumber)
    ensures routine.None? ==> p == Finite(0.0)
    ensures routine.Some? && routine.value.totalDuration > 0 && 0 <= timeLeft <= SessionSeconds(routine.value) ==>
      p.Finite? && 0.0 <= p.value <= 100.0
  {
    match routine
    case None => Finite(0.0)
    case Some(r) =>
      var total := SessionSeconds(r) as real;
      if r.totalDuration > 0 && 0 <= timeLeft <= SessionSeconds(r) then
        FractionBounds(total - timeLeft as real, total);
        Percent(JsDivide(total - timeLeft as real, total))
      else
        Percent(JsDivide(total - timeLeft as real, total))
  }

  /** Dividing by a positive total keeps the order of the numerators. */
  lemma DivideMonotone(d1: real, d2: real, total: real)
    requires d2 <= d1 && total > 0.0
    ensures d2 / total <= d1 / total
  {
    var q1, q2 := d1 / total, d2 / total;
    assert q1 * total == d1 && q2 * total == d2;
    assert (q1 - q2) * total == d1 - d2;
  }

  /** The bar is empty when the full session is left and full when nothing is. */
  lemma ProgressEnds(r: PracticeRoutine)
    requires r.totalDuration > 0
    ensures ProgressPercentage(Some(r), SessionSeconds(r)) == Finite(0.0)
    ensures ProgressPercentage(Some(r), 0) == Finite(100.0)
  {
    var total := SessionSeconds(r) as real;
    assert total / total == 1.0;
    assert ProgressPercentage(Some(r), 0) == Finite(total / total * 100.0);
  }

  /** The bar grows as the count goes down. */
  lemma ProgressMonotone(r: PracticeRoutine, t1: int, t2: int)
    requires r.totalDuration > 0
    requires 0 <= t1 <= t2 <= SessionSeconds(r)
    ensures ProgressPercentage(Some(r), t1).value >= ProgressPercentage(Some(r), t2).value
  {
    var total := SessionSeconds(r) as real;
    var d1, d2 := total - t1 as real, total - t2 as real;
    DivideMonotone(d1, d2, total);
    assert ProgressPercentage(Some(r), t1) == Finite(d1 / total * 100.0);
    assert ProgressPercentage(Some(r), t2) == Finite(d2 / total * 100.0);
  }

  /** A routine of zero minutes makes the formula divide zero by zero. */
  lemma ProgressOfEmptyRoutine(r: PracticeRoutine)
    requires r.totalDuration == 0
    ensures ProgressPercentage(Some(r), 0) == NaN
  {
  }

  /* ---------------------------------------------------------------------- */
  /* The component's routine and timer state                                */
  /* ---------------------------------------------------------------------- */

  class Planner {
    var loading: bool
    var routine: Option<PracticeRoutine>
    /** Seconds left in the session. */
    var timeLeft: int
    var isActive: bool
    var isFinished: bool
    /** How often the end-of-session alarm has sounded. */
    ghost var alarms: nat
    /** How often a generation failure has been reported. */
    ghost var failures: nat

    constructor ()
      ensures !loading && routine == None
      ensures timeLeft == 0 && !isActive && !isFinished
      ensures alarms == 0 && failures == 0
    {
      loading, routine := false, None;
      timeLeft, isActive, isFinished := 0, false, false;
      alarms, failures := 0, 0;
    }

    /**
     * Replaces the routine; the routine effect then loads a new routine into a
     * stopped, unfinished countdown. Clearing the routine leaves the timer alone.
     */
    method SetRoutine(r: Option<PracticeRoutine>)
      modifies this`routine, this`timeLeft, this`isActive, this`isFinished
      ensures routine == r
      ensures r.Some? ==> timeLeft == SessionSeconds(r.value) && !isActive && !isFinished
      ensures r.None? ==>
        timeLeft == old(timeLeft) && isActive == old(isActive) && isFinished == old(isFinished)
    {
      routine := r;
      if r.Some? {
        timeLeft := SessionSeconds(r.value);
        isActive := false;
        isFinished := false;
      }
    }

    /**
     * The timer effect after a render: an active countdown that has reached
     * zero stops, is marked finished and sounds the alarm once. Otherwise
     * nothing changes here (arming the interval is the host's business).
     */
    method TimerEffect()
      modifies this`isActive, this`isFinished, this`alarms
      ensures old(isActive) && timeLeft == 0 ==> !isActive && isFinished && alarms == old(alarms) + 1
      ensures !(old(isActive) && timeLeft == 0) ==>
        isActive == old(isActive) && isFinished == old(isFinished) && alarms == old(alarms)
    {
      if isActive && timeLeft > 0 {
        // the host arms the one-second interval
      } else if timeLeft == 0 && isActive {
        isActive := false;
        isFinished := true;
        alarms := alarms + 1;
      }
    }

    /**
     * The one-second interval fires. It is armed only while active with time
     * left, so it takes exactly one second off and never makes the count negative.
     */
    method IntervalTick()
      modifies this`timeLeft
      ensures old(isActive) && old(timeLeft) > 0 ==> timeLeft == old(timeLeft) - 1 >= 0
      ensures !(old(isActive) && old(timeLeft) > 0) ==> timeLeft == old(timeLeft)
      ensures old(timeLeft) >= 0 ==> timeLeft >= 0
    {
      if isActive && timeLeft > 0 {
        timeLeft := timeLeft - 1;
      }
    }

    /** The play/pause button: flips `isActive` and nothing else. */
    method ToggleTimer()
      modifies this`isActive
      ensures isActive == !old(isActive)
    {
      isActive := !isActive;
    }

    /**
     * The reset button: stopped and not finished; the count goes back to the
     * session length when there is a routine and is kept otherwise.
     */
    method ResetTimer()
      modifies this`isActive, this`isFinished, this`timeLeft
      ensures !isActive && !isFinished
      ensures routine.Some? ==> timeLeft == SessionSeconds(routine.value)
      ensures routine.None? ==> timeLeft == old(timeLeft)
    {
      isActive := false;
      isFinished := false;
      if routine.Some? {
        timeLeft := SessionSeconds(routine.value);
      }
    }

    /** The generate button: the request is in flight. */
    method StartGenerate()
      modifies this`loading
      ensures loading
    {
      loading := true;
    }

    /**
     * The request settles with `reply` (None when the service call threw). A
     * routine replaces the old one and is loaded into the timer; a failure is
     * reported and leaves routine and timer as they were. Loading ends on both paths.
     */
    method CompleteGenerate(reply: Option<PracticeRoutine>)
      modifies this`loading, this`routine, this`timeLeft, this`isActive, this`isFinished, this`failures
      ensures !loading
      ensures reply.Some? ==>
        && routine == reply && failures == old(failures)
        && timeLeft == SessionSeconds(reply.value) && !isActive && !isFinished
      ensures reply.None? ==>
        && routine == old(routine) && failures == old(failures) + 1
        && timeLeft == old(timeLeft) && isActive == old(isActive) && isFinished == old(isFinished)
    {
      if reply.Some? {
        SetRoutine(reply);
      } else {
        failures := failures + 1;
      }
      loading := false;
    }
  }

  /**
   * A one-minute routine run to the end: sixty ticks bring the count to zero,
   * the effect then stops the timer, marks it finished and sounds the alarm
   * once; a further effect run sounds nothing.
   */
  method OneMinuteSession(title: string)
  {
    var p := new Planner();
    p.SetRoutine(Some(PracticeRoutine(title, 1, [])));
    p.ToggleTimer();
    var n := 0;
    while n < 60
      invariant 0 <= n <= 60
      invariant p.timeLeft == 60 - n
      invariant p.isActive == (n < 60) && p.isFinished == (n == 60)
      invariant p.alarms == if n == 60 then 1 else 0
    {
      p.IntervalTick();
      p.TimerEffect();
      n := n + 1;
    }
    assert !p.isActive && p.isFinished && p.alarms == 1;
    p.TimerEffect();
    assert p.alarms == 1;
  }
}
