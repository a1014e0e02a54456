/** The Moon's orbit: the period and the eight phase labels assigned to a day count. */
module Orbit {
  import opened Numerics

  /** Days for one revolution of the Moon (27.32; a Dafny real literal is exact). */
  const OrbitPeriod: real := 27.32

  /** The eight phase labels, in orbit order. */
  const MoonPhases: seq<string> := [
    "\U{1F311} New Moon", "\U{1F312} Waxing Crescent", "\U{1F313} First Quarter", "\U{1F314} Waxing Gibbous",
    "\U{1F315} Full Moon", "\U{1F316} Waning Gibbous", "\U{1F317} Last Quarter", "\U{1F318} Waning Crescent"
  ]

  /** The fraction of the orbit completed, in eighths: `day / P * 8`. */
  function Eighths(day: real): real
  {
    day / OrbitPeriod * 8.0
  }

  /** `int((day / P * 8) % 8)`: the octant of the orbit the Moon is in, for any day. */
  function PhaseIndex(day: real): (i: int)
    ensures 0 <= i < |MoonPhases|
  {
    Trunc(Mod(Eighths(day), 8.0))
  }

  /** The label shown for a day; the table lookup can never go out of range. */
  function DeterminePhase(day: real): (name: string)
    ensures name in MoonPhases
  {
    MoonPhases[PhaseIndex(day)]
  }

  /** Within the first orbit, phase `i` is exactly the `i`-th eighth of the period:
   * `i * P / 8 <= day < (i + 1) * P / 8`. */
  lemma PhaseIsOctant(day: real)
    requires 0.0 <= day < OrbitPeriod
    ensures var i := PhaseIndex(day);
      i as real * OrbitPeriod <= 8.0 * day < (i + 1) as real * OrbitPeriod
  {
  }

  /** The label depends on the day only modulo the orbit period. */
  lemma PhasePeriodic(day: real, k: int)
    ensures PhaseIndex(day + k as real * OrbitPeriod) == PhaseIndex(day)
    ensures DeterminePhase(day + k as real * OrbitPeriod) == DeterminePhase(day)
  {
    assert Eighths(day + k as real * OrbitPeriod) == Eighths(day) + k as real * 8.0;
    ModPeriodic(Eighths(day), 8.0, k);
  }

  /** On a whole number of days the phase is integer arithmetic:
   * `day / 27.32 * 8 == 200 * day / 683`. */
  lemma PhaseOfWholeDay(day: int)
    ensures PhaseIndex(day as real) == (200 * day) % 5464 / 683
  {
    var n := 200 * day;
    assert Eighths(day as real) == n as real / 683 as real;
    ModOfRatio(n, 683, 8);
    assert Mod(Eighths(day as real), 8.0) == (n % 5464) as real / 683 as real;
    FloorOfRatio(n % 5464, 683);
  }

  /** Day 0 is New Moon, a quarter period is First Quarter, half is Full Moon
   * and three quarters is Last Quarter. */
  lemma QuarterPhases()
    ensures DeterminePhase(0.0) == "\U{1F311} New Moon"
    ensures DeterminePhase(OrbitPeriod / 4.0) == "\U{1F313} First Quarter"
    ensures DeterminePhase(OrbitPeriod / 2.0) == "\U{1F315} Full Moon"
    ensures DeterminePhase(0.75 * OrbitPeriod) == "\U{1F317} Last Quarter"
  {
  }
}
