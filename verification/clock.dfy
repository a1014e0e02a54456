/** The observer's local time: an angle on the Earth and a time-zone offset
 * turned into a zero-padded `HH:MM` string. */
module Clock {
  import opened Numerics

  predicate IsDigit(c: char)
  {
    '0' <= c <= '9'
  }

  function Digit(d: int): (c: char)
    requires 0 <= d < 10
    ensures IsDigit(c) && c as int - '0' as int == d
  {
    ('0' as int + d) as char
  }

  /** The number a two-character decimal field stands for. */
  function FieldValue(s: string): int
    requires |s| == 2
  {
    10 * (s[0] as int - '0' as int) + (s[1] as int - '0' as int)
  }

  /** Python's `f"{n:02d}"` for `0 <= n < 100`. */
  function Pad2(n: int): (s: string)
    requires 0 <= n < 100
    ensures |s| == 2 && IsDigit(s[0]) && IsDigit(s[1])
    ensures FieldValue(s) == n
  {
    [Digit(n / 10), Digit(n % 10)]
  }

  /** A well-formed clock reading: `HH:MM` with `HH` in 00..23 and `MM` in 00..59. */
  predicate IsClockText(s: string)
  {
    |s| == 5 && s[2] == ':' &&
    IsDigit(s[0]) && IsDigit(s[1]) && IsDigit(s[3]) && IsDigit(s[4]) &&
    0 <= FieldValue(s[..2]) < 24 && 0 <= FieldValue(s[3..]) < 60
  }

  /** The minute of the day a clock reading denotes. */
  function MinuteOfDay(s: string): int
    requires IsClockText(s)
  {
    FieldValue(s[..2]) * 60 + FieldValue(s[3..])
  }

  /** `((position % 360) / 360 * 24 + offset) % 24`: the hour of the day as a real. */
  function Hour(position: int, offset: int): (h: real)
    ensures 0.0 <= h < 24.0
  {
    Mod((position % 360) as real / 360.0 * 24.0 + offset as real, 24.0)
  }

  /** The time of day shown for an observer angle (degrees) and a whole-hour offset. */
  function TimeOfDay(position: int, offset: int): (s: string)
    ensures IsClockText(s)
  {
    var h := Hour(position, offset);
    var minutes := Mod(h, 1.0) * 60.0;
    Pad2(Trunc(h)) + ":" + Pad2(Trunc(minutes))
  }

  /** Two clock readings of the same minute are the same string. */
  lemma ClockTextUnique(s: string, t: string)
    requires IsClockText(s) && IsClockText(t) && MinuteOfDay(s) == MinuteOfDay(t)
    ensures s == t
  {
    assert FieldValue(s[..2]) == FieldValue(t[..2]);
    assert FieldValue(s[3..]) == FieldValue(t[3..]);
    FieldDigits(s[..2], t[..2]);
    FieldDigits(s[3..], t[3..]);
    assert s == s[..2] + [':'] + s[3..];
    assert t == t[..2] + [':'] + t[3..];
  }

  /** Two decimal fields with the same value have the same digits. */
  lemma FieldDigits(a: string, b: string)
    requires |a| == 2 && |b| == 2
    requires IsDigit(a[0]) && IsDigit(a[1]) && IsDigit(b[0]) && IsDigit(b[1])
    requires FieldValue(a) == FieldValue(b)
    ensures a == b
  {
  }

  /** The hour of the day is the whole-minute count, taken modulo one day, in hours. */
  lemma HourIsMinuteCount(position: int, offset: int)
    ensures Hour(position, offset) ==
      (((position % 360) * 4 + offset * 60) % 1440) as real / 60 as real
  {
    var total := (position % 360) * 4 + offset * 60;
    assert (position % 360) as real / 360.0 * 24.0 + offset as real == total as real / 60 as real;
    ModOfRatio(total, 60, 24);
  }

  /** Splitting a whole-minute hour into the `HH` and `MM` fields. */
  lemma SplitMinutes(h: real, t: int)
    requires 0 <= t && h == t as real / 60 as real
    ensures Trunc(h) == t / 60
    ensures Trunc(Mod(h, 1.0) * 60.0) == t % 60
  {
  }

  /** The reading is whole-minute integer arithmetic: every 15 degrees of the
   * angle is one hour and the offset is added in hours, all modulo one day. */
  lemma TimeOfDayMinute(position: int, offset: int)
    ensures MinuteOfDay(TimeOfDay(position, offset)) == ((position % 360) * 4 + offset * 60) % 1440
  {
    var t := ((position % 360) * 4 + offset * 60) % 1440;
    var h := Hour(position, offset);
    HourIsMinuteCount(position, offset);
    SplitMinutes(h, t);
    var s := TimeOfDay(position, offset);
    assert s == Pad2(t / 60) + ":" + Pad2(t % 60);
    assert s[..2] == Pad2(t / 60) && s[3..] == Pad2(t % 60);
  }

  /** A reading is determined by its minute of the day. */
  lemma TimeOfDayIsMinute(position: int, offset: int, s: string)
    requires IsClockText(s)
    ensures TimeOfDay(position, offset) == s <==>
      MinuteOfDay(s) == ((position % 360) * 4 + offset * 60) % 1440
  {
    TimeOfDayMinute(position, offset);
    if MinuteOfDay(s) == ((position % 360) * 4 + offset * 60) % 1440 {
      ClockTextUnique(TimeOfDay(position, offset), s);
    }
  }

  /** The whole-minute count is unchanged by whole turns and whole days. */
  lemma MinuteCountPeriodic(position: int, offset: int, turns: int, days: int)
    ensures ((position + 360 * turns) % 360 * 4 + (offset + 24 * days) * 60) % 1440 ==
      ((position % 360) * 4 + offset * 60) % 1440
  {
    var a := position % 360;
    DegreesModTurn(position + 360 * turns, position / 360 + turns, a);
    var m := a * 4 + offset * 60;
    MinutesModDay(m + 1440 * days, m / 1440 + days, m % 1440);
  }

  /** Euclidean remainder by a full turn, from an explicit decomposition. */
  lemma DegreesModTurn(x: int, turns: int, rest: int)
    requires x == 360 * turns + rest && 0 <= rest < 360
    ensures x % 360 == rest
  {
  }

  /** Euclidean remainder by the 1440 minutes of a day, from an explicit decomposition. */
  lemma MinutesModDay(x: int, days: int, rest: int)
    requires x == 1440 * days + rest && 0 <= rest < 1440
    ensures x % 1440 == rest
  {
  }

  /** The time depends on the angle only modulo a full turn, and on the offset
   * only modulo a day. */
  lemma TimeOfDayPeriodic(position: int, offset: int, turns: int, days: int)
    ensures TimeOfDay(position + 360 * turns, offset + 24 * days) == TimeOfDay(position, offset)
  {
    var s := TimeOfDay(position, offset);
    TimeOfDayMinute(position, offset);
    MinuteCountPeriodic(position, offset, turns, days);
    TimeOfDayIsMinute(position + 360 * turns, offset + 24 * days, s);
  }

  /** Angle 0 (or any whole turn) is midnight, angle 180 is noon, and a negative
   * offset wraps into the previous day rather than going negative. */
  lemma TimeOfDayExamples(position: int, offset: int)
    ensures position % 360 == 0 && offset == 0 ==> TimeOfDay(position, offset) == "00:00"
    ensures position % 360 == 180 && offset == 0 ==> TimeOfDay(position, offset) == "12:00"
    ensures position % 360 == 0 && offset == -5 ==> TimeOfDay(position, offset) == "19:00"
  {
    assert IsClockText("00:00") && MinuteOfDay("00:00") == 0;
    assert IsClockText("12:00") && MinuteOfDay("12:00") == 720;
    assert IsClockText("19:00") && MinuteOfDay("19:00") == 1140;
    TimeOfDayIsMinute(position, offset, "00:00");
    TimeOfDayIsMinute(position, offset, "12:00");
    TimeOfDayIsMinute(position, offset, "19:00");
  }
}
