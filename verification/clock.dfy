/**
 * The workout timer's `MM:SS` display and the whole-minute duration sent when a workout
 * is finished. Times are integer milliseconds; `deltaMs` is `Date.now()` minus the start.
 */
module Clock {
  import opened Text

  const MsPerSecond := 1000
  const MsPerMinute := 60000

  /** `Math.floor(deltaMs / 1000)`: for a positive divisor Dafny's `/` is floor division. */
  function ElapsedSeconds(deltaMs: int): int {
    deltaMs / MsPerSecond
  }

  /** JavaScript's integer division before truncation: the quotient rounded toward zero. */
  function JsQuot(a: int, b: int): int
    requires b > 0
  {
    if a >= 0 then a / b else -((-a) / b)
  }

  /** JavaScript's `%`, which takes the sign of the dividend. */
  function JsRem(a: int, b: int): (r: int)
    requires b > 0
    ensures a >= 0 ==> 0 <= r < b
    ensures a < 0 ==> -b < r <= 0
  {
    if a >= 0 then a % b else -((-a) % b)
  }

  /**
   * The remainder is what is left after taking away the truncated quotient times the
   * divisor; with the sign bounds this fixes it.
   */
  lemma JsRemDivision(a: int, b: int)
    requires b > 0
    ensures a == JsQuot(a, b) * b + JsRem(a, b)
    ensures a >= 0 ==> 0 <= JsRem(a, b) < b
    ensures a < 0 ==> -b < JsRem(a, b) <= 0
  {
  }

  /** The minutes field: `Math.floor(elapsed / 60)`. */
  function ClockMinutes(deltaMs: int): (m: int)
    ensures deltaMs >= 0 ==> m >= 0 && m * 60 <= ElapsedSeconds(deltaMs) < m * 60 + 60
  {
    ElapsedSeconds(deltaMs) / 60
  }

  /** The seconds field: `elapsed % 60`. */
  function ClockSeconds(deltaMs: int): (s: int)
    ensures deltaMs >= 0 ==> 0 <= s < 60 && ClockMinutes(deltaMs) * 60 + s == ElapsedSeconds(deltaMs)
  {
    JsRem(ElapsedSeconds(deltaMs), 60)
  }

  /** `s.padStart(2, '0')`: never shortens, only prefixes zeros. */
  function PadTwo(s: string): (r: string)
    ensures |r| == if |s| >= 2 then |s| else 2
    ensures exists z :: AllZeros(z) && r == z + s
  {
    if |s| >= 2 then
      assert s == [] + s;
      s
    else
      var z := seq(2 - |s|, _ => '0');
      assert AllZeros(z);
      z + s
  }

  /** The text the timer element shows. */
  function FormatClock(deltaMs: int): string {
    PadTwo(IntToString(ClockMinutes(deltaMs))) + ":" + PadTwo(IntToString(ClockSeconds(deltaMs)))
  }

  /** The `duration_minutes` field: `Math.floor(deltaMs / 60000)`. */
  function DurationMinutes(deltaMs: int): (d: int)
    ensures deltaMs >= 0 ==> d >= 0 && d * MsPerMinute <= deltaMs < (d + 1) * MsPerMinute
  {
    deltaMs / MsPerMinute
  }

  /**
   * For a non-negative elapsed time the display reads back as the two fields: a string of
   * digits for the minutes (at least two, never truncated), a colon, and exactly two digits
   * for the seconds.
   */
  lemma ClockReadsBack(deltaMs: int)
    requires deltaMs >= 0
    ensures var t := FormatClock(deltaMs);
      && |t| >= 5 && t[|t| - 3] == ':'
      && AllDigits(t[..|t| - 3]) && DigitsValue(t[..|t| - 3]) == ClockMinutes(deltaMs)
      && AllDigits(t[|t| - 2..]) && DigitsValue(t[|t| - 2..]) == ClockSeconds(deltaMs)
  {
    var m, s := ClockMinutes(deltaMs), ClockSeconds(deltaMs);
    assert m >= 0 && 0 <= s < 60;
    assert FormatClock(deltaMs) == PadTwo(IntToString(m)) + ":" + PadTwo(IntToString(s));
    FieldsReadBack(m, s);
  }

  /** The two padded fields joined by a colon split back into the numbers they show. */
  lemma FieldsReadBack(m: nat, s: nat)
    requires s < 60
    ensures var t := PadTwo(IntToString(m)) + ":" + PadTwo(IntToString(s));
      && |t| >= 5 && t[|t| - 3] == ':'
      && AllDigits(t[..|t| - 3]) && DigitsValue(t[..|t| - 3]) == m
      && AllDigits(t[|t| - 2..]) && DigitsValue(t[|t| - 2..]) == s
  {
    PaddedReadsBack(m);
    PaddedReadsBack(s);
    ColonSplit(PadTwo(IntToString(m)), PadTwo(IntToString(s)));
  }

  lemma ColonSplit(a: string, b: string)
    requires |a| >= 2 && |b| == 2
    ensures var t := a + ":" + b;
      |t| >= 5 && t[|t| - 3] == ':' && t[..|t| - 3] == a && t[|t| - 2..] == b
  {
    var t := a + ":" + b;
    assert t[..|t| - 3] == a;
    assert t[|t| - 2..] == b;
  }

  /** A padded field is digits only and keeps its value; below 100 it is exactly two wide. */
  lemma PaddedReadsBack(n: nat)
    ensures var p := PadTwo(IntToString(n));
      AllDigits(p) && DigitsValue(p) == n && |p| >= 2 && (n < 100 ==> |p| == 2)
  {
    var d := IntToString(n);
    assert d == NatDigits(n);
    var z :| AllZeros(z) && PadTwo(d) == z + d;
    LeadingZerosValue(z, d);
    DigitsRoundTrip(n);
  }

  /** The logged duration is the minutes field the timer shows at the same instant. */
  lemma DurationMatchesClock(deltaMs: int)
    ensures DurationMinutes(deltaMs) == ClockMinutes(deltaMs)
  {
    var q := deltaMs / 1000;
    var m := q / 60;
    assert deltaMs == q * 1000 + deltaMs % 1000;
    assert q == m * 60 + q % 60;
    assert deltaMs == m * 60000 + (q % 60) * 1000 + deltaMs % 1000;
    assert m * 60000 <= deltaMs < m * 60000 + 60000;
  }

  /**
   * With a clock that reads earlier than the start, JavaScript's truncating `%` breaks the
   * split: one second before the start the timer shows "-1:-1", and -1 * 60 + -1 is not -1.
   */
  lemma NegativeElapsedDisplay()
    ensures FormatClock(-1000) == "-1:-1"
    ensures ClockMinutes(-1000) * 60 + ClockSeconds(-1000) != ElapsedSeconds(-1000)
  {
    assert ElapsedSeconds(-1000) == -1;
    assert ClockMinutes(-1000) == -1;
    assert ClockSeconds(-1000) == -1;
    assert NatDigits(1) == "1";
  }
}
