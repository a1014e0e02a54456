/** The control panel: the session state kept between page runs and the
 * sidebar actions that change it. */
module Session {
  import opened Orbit
  import opened Clock

  /** The selectable time zones and their whole-hour offsets from GMT. */
  const TimeZones: map<string, int> := map[
    "GMT" := 0,
    "New York (EST)" := -5,
    "London (GMT)" := 0,
    "Beijing (CST)" := 8,
    "Sydney (AEDT)" := 11
  ]

  /** Degrees the Earth turns per press of "Spin the Earth". */
  const SpinStep: int := 30

  /** "Add Day": one day later, back to day 0 once the orbit period is exceeded. */
  function NextDay(day: real): (next: real)
    ensures next <= OrbitPeriod
    ensures 0.0 <= day ==> 0.0 <= next
  {
    if day + 1.0 > OrbitPeriod then 0.0 else day + 1.0
  }

  /** "Spin the Earth": 30 degrees further, back to 0 on reaching a full turn. */
  function NextPosition(position: int): (next: int)
    ensures next < 360
    ensures 0 <= position && position % SpinStep == 0 ==> 0 <= next && next % SpinStep == 0
  {
    if position + SpinStep >= 360 then 0 else position + SpinStep
  }

  /** On the whole days 0..27 that a session can hold, "Add Day" counts modulo 28:
   * day 27 is the last day before 27.32 is exceeded. */
  lemma NextWholeDay(day: int)
    requires 0 <= day <= 27
    ensures NextDay(day as real) == ((day + 1) % 28) as real
  {
  }

  /** The day shown after `presses` presses of "Add Day" from the initial day 0. */
  function DayAfter(presses: nat): real
  {
    if presses == 0 then 0.0 else NextDay(DayAfter(presses - 1))
  }

  /** From day 0 the day only takes the values 0..27, never exceeds the period,
   * and returns to 0 after every 28 presses. */
  lemma {:induction false} DayAfterPresses(presses: nat)
    ensures DayAfter(presses) == (presses % 28) as real
    ensures 0.0 <= DayAfter(presses) <= 27.0 < OrbitPeriod
  {
    if presses > 0 {
      var r := (presses - 1) % 28;
      DayAfterPresses(presses - 1);
      assert DayAfter(presses) == NextDay(r as real);
      NextWholeDay(r);
      assert (r + 1) % 28 == presses % 28;
    }
  }

  /** The observer angle after `presses` presses of "Spin the Earth" from angle 0. */
  function PositionAfter(presses: nat): int
  {
    if presses == 0 then 0 else NextPosition(PositionAfter(presses - 1))
  }

  /** From angle 0 the observer only stands at 0, 30, ..., 330 degrees and is back
   * at 0 after every 12 presses. */
  lemma {:induction false} PositionAfterPresses(presses: nat)
    ensures PositionAfter(presses) == (presses % 12) * SpinStep
  {
    if presses > 0 {
      var r := (presses - 1) % 12;
      PositionAfterPresses(presses - 1);
      PressesModTurn(presses, (presses - 1) / 12, r);
    }
  }

  /** The remainder of a press count by the 12 presses of a full turn, from the
   * decomposition of the previous count. */
  lemma PressesModTurn(presses: int, q: int, r: int)
    requires presses - 1 == 12 * q + r && 0 <= r < 12
    ensures NextPosition(r * SpinStep) == (presses % 12) * SpinStep
  {
    if r == 11 {
      assert presses == 12 * (q + 1);
    } else {
      assert presses == 12 * q + (r + 1);
    }
  }

  /** The minute-of-day arithmetic behind one press of "Spin the Earth". */
  lemma SpinMinutes(position: int, offset: int)
    requires 0 <= position < 360 && position % SpinStep == 0
    ensures (NextPosition(position) * 4 + offset * 60) % 1440 ==
      ((position * 4 + offset * 60) % 1440 + 120) % 1440
    ensures (position * 4 + offset * 60) % 1440 % 60 == 0
  {
    var next := NextPosition(position);
    var hours := position / 30 * 2 + offset;
    var q, r := hours / 24, hours % 24;
    var w := if next == 0 then 1 else 0;
    assert position * 4 + offset * 60 == 1440 * q + 60 * r;
    assert next * 4 == position * 4 + 120 - 1440 * w;
    MinutesModDay(position * 4 + offset * 60, q, 60 * r);
    if r < 22 {
      MinutesModDay(next * 4 + offset * 60, q - w, 60 * (r + 2));
      MinutesModDay(60 * r + 120, 0, 60 * r + 120);
    } else {
      MinutesModDay(next * 4 + offset * 60, q + 1 - w, 60 * (r - 22));
      MinutesModDay(60 * r + 120, 1, 60 * (r - 22));
    }
  }

  /** On the angles a session can hold, every press of "Spin the Earth" moves the
   * displayed clock on by exactly two hours, wrapping at midnight. */
  lemma SpinAdvancesClock(position: int, offset: int)
    requires 0 <= position < 360 && position % SpinStep == 0
    ensures MinuteOfDay(TimeOfDay(NextPosition(position), offset)) ==
      (MinuteOfDay(TimeOfDay(position, offset)) + 120) % 1440
  {
    var next := NextPosition(position);
    assert position % 360 == position && next % 360 == next;
    TimeOfDayMinute(position, offset);
    TimeOfDayMinute(next, offset);
    SpinMinutes(position, offset);
  }

  /** On the angles a session can hold the minutes always read "00". */
  lemma WholeHourReading(position: int, offset: int)
    requires 0 <= position < 360 && position % SpinStep == 0
    ensures TimeOfDay(position, offset)[3..] == "00"
  {
    var s := TimeOfDay(position, offset);
    assert position % 360 == position;
    TimeOfDayMinute(position, offset);
    SpinMinutes(position, offset);
    var hh, mm := FieldValue(s[..2]), FieldValue(s[3..]);
    assert MinuteOfDay(s) == 60 * hh + mm;
    MinutesModHour(MinuteOfDay(s), hh, mm);
    FieldDigits(s[3..], "00");
  }

  /** Euclidean remainder by the 60 minutes of an hour, from an explicit decomposition. */
  lemma MinutesModHour(x: int, hours: int, rest: int)
    requires x == 60 * hours + rest && 0 <= rest < 60
    ensures x % 60 == rest
  {
  }

  /** Which sidebar button, if any, was pressed on this page run. */
  datatype Button = NoButton | AddDayButton | SpinButton | ResetButton

  /** The session state that survives between page runs. */
  class SessionState {
    var currentDay: real
    var personPosition: int
    var timeZoneOffset: int

    /** What the four actions keep true: a whole day 0..27, an angle on the
     * 30-degree grid below a full turn, and the offset of a listed zone. */
    ghost predicate Valid()
      reads this
    {
      currentDay == currentDay.Floor as real && 0.0 <= currentDay <= 27.0 &&
      0 <= personPosition < 360 && personPosition % SpinStep == 0 &&
      timeZoneOffset in TimeZones.Values
    }

    /** The first page run: day 0, angle 0, the GMT offset. */
    constructor ()
      ensures Valid()
      ensures currentDay == 0.0 && personPosition == 0 && timeZoneOffset == TimeZones["GMT"]
    {
      currentDay := 0.0;
      personPosition := 0;
      timeZoneOffset := TimeZones["GMT"];
    }

    /** "Add Day". */
    method AddDay()
      requires Valid()
      modifies this
      ensures Valid()
      ensures currentDay == NextDay(old(currentDay))
      ensures currentDay == ((old(currentDay).Floor + 1) % 28) as real
      ensures personPosition == old(personPosition) && timeZoneOffset == old(timeZoneOffset)
    {
      NextWholeDay(currentDay.Floor);
      currentDay := currentDay + 1.0;
      if currentDay > OrbitPeriod {
        currentDay := 0.0;
      }
    }

    /** "Spin the Earth". */
    method Spin()
      requires Valid()
      modifies this
      ensures Valid()
      ensures personPosition == NextPosition(old(personPosition))
      ensures personPosition == (old(personPosition) + SpinStep) % 360
      ensures currentDay == old(currentDay) && timeZoneOffset == old(timeZoneOffset)
    {
      personPosition := personPosition + SpinStep;
      if personPosition >= 360 {
        personPosition := 0;
      }
    }

    /** The time-zone select box: the offset becomes that zone's entry.  A name
     * that is not a listed zone fails the lookup and leaves the state as it was. */
    method SelectTimeZone(zone: string) returns (found: bool)
      requires Valid()
      modifies this
      ensures Valid()
      ensures found == (zone in TimeZones)
      ensures timeZoneOffset == if found then TimeZones[zone] else old(timeZoneOffset)
      ensures currentDay == old(currentDay) && personPosition == old(personPosition)
    {
      found := zone in TimeZones;
      if found {
        timeZoneOffset := TimeZones[zone];
      }
    }

    /** "Reset": day and angle back to 0; the time zone is kept. */
    method Reset()
      requires Valid()
      modifies this
      ensures Valid()
      ensures currentDay == 0.0 && personPosition == 0
      ensures timeZoneOffset == old(timeZoneOffset)
    {
      currentDay := 0.0;
      personPosition := 0;
    }

    /** One page run of the sidebar, in the order the page evaluates it: the
     * pressed button among "Add Day" and "Spin the Earth", then the select box,
     * then "Reset".  A failed zone lookup ends the run before "Reset". */
    method Interact(pressed: Button, zone: string) returns (found: bool)
      requires Valid()
      modifies this
      ensures Valid()
      ensures found == (zone in TimeZones)
      ensures timeZoneOffset == if found then TimeZones[zone] else old(timeZoneOffset)
      ensures pressed == ResetButton && found ==> currentDay == 0.0 && personPosition == 0
      ensures pressed == AddDayButton ==>
        currentDay == NextDay(old(currentDay)) && personPosition == old(personPosition)
      ensures pressed == SpinButton ==>
        currentDay == old(currentDay) && personPosition == NextPosition(old(personPosition))
      ensures pressed == NoButton || (pressed == ResetButton && !found) ==>
        currentDay == old(currentDay) && personPosition == old(personPosition)
    {
      if pressed == AddDayButton {
        AddDay();
      }
      if pressed == SpinButton {
        Spin();
      }
      found := SelectTimeZone(zone);
      if !found {
        return;
      }
      if pressed == ResetButton {
        Reset();
      }
    }

    /** What the page shows for the current state: the phase caption and the
     * clock text.  On a valid state the phase is integer arithmetic on the day
     * and the clock always shows a whole hour. */
    method Readout() returns (phase: string, time: string)
      requires Valid()
      ensures phase == DeterminePhase(currentDay) && time == TimeOfDay(personPosition, timeZoneOffset)
      ensures phase == MoonPhases[(200 * currentDay.Floor) % 5464 / 683]
      ensures IsClockText(time) && time[3..] == "00"
    {
      PhaseOfWholeDay(currentDay.Floor);
      WholeHourReading(personPosition, timeZoneOffset);
      phase := DeterminePhase(currentDay);
      time := TimeOfDay(personPosition, timeZoneOffset);
    }
  }
}
