# Moon orbit simulation — verified model of the core

The application is a single Streamlit page (`webapp.py`). It shows the Moon on a
circular orbit around the Earth, labels its phase and shows a lit/shadowed Moon
sprite. It also places an observer (the "stickman") on the Earth's edge and
shows that observer's local time. A sidebar holds the controls: "Add Day",
"Spin the Earth", a time-zone select box and "Reset".

This project models the deterministic core of that page in Dafny:

- `numerics.dfy` (module `Numerics`): the Python numeric operations the core
  relies on, computed on exact reals. `int(x)` truncates toward zero (`Trunc`).
  `x % m` with a positive divisor always lands in `[0, m)` (`Mod`). Lemmas give
  the uniqueness and periodicity of the remainder and its value on ratios of
  integers.
- `orbit.dfy` (module `Orbit`): the orbit period 27.32 days (a Dafny real
  literal, so exactly 683/25) and the eight ordered phase labels. The phase index
  is `int((day / 27.32 * 8) % 8)`. It is proved to lie in 0..7 for every real
  day, negative ones included. Inside the first orbit it is proved to be exactly
  the eighth of the orbit the day falls in. It repeats with the period, and on
  whole days it reduces to integer arithmetic.
- `clock.dfy` (module `Clock`): the observer's local time,
  `((angle % 360) / 360 * 24 + offset) % 24`, formatted as zero-padded `HH:MM`.
  The result is always a well-formed reading with `HH` in 00..23 and `MM` in
  00..59, negative offsets included. It is fully characterised by whole-minute
  integer arithmetic (15 degrees per hour, the offset in hours, all modulo 1440
  minutes). It repeats every full turn and every 24 hours of offset.
- `session.dfy` (module `Session`): the session state
  `(current_day, person_position, time_zone_offset)` as a class, with one method
  per sidebar action and one for a whole page run of the sidebar. `Valid()` is
  the invariant every action keeps: a whole day in 0..27, an angle in
  {0, 30, ..., 330}, and the offset of a listed zone. Lemmas about the pure
  transition functions show the following. From day 0 the day cycles through
  0..27 and is back at 0 after 28 presses. The angle cycles with period 12. Each
  spin moves the displayed clock on by exactly two hours, and the minutes always
  read `00`.
- `moon_image.dfy` (module `MoonImage`): the shadow mask of `create_moon_image`.
  The texture is copied. `int(lit_ratio * width)` columns stay lit. Every pixel
  in a column at or to the right of that width, in every row, becomes black. The
  copy is a fresh 2-D array and the texture itself is not changed.

Where the documentation and the code disagree, the model follows the code:

- The comment at `webapp.py:34` calls angle 0 "noon", but the code maps angle 0 to
  `00:00`.
- The day does not wrap at 27.32 days. The day goes back to 0 on the press that
  would take it past 27.32, so from day 0 it returns to 0 after 28 presses.
- Day 0 carries the "New Moon" label while the sprite at day 0 is fully lit. That
  is how the code draws it, and the model keeps it.

Integer `%` in the source (`person_position % 360`) has a positive divisor.
Python's result then matches Dafny's Euclidean `%`, so the model uses it
directly.

## Model

| member | source | states |
|---|---|---|
| `Numerics.Trunc` | webapp.py:47 | Python's `int()` on a float: the result is the integer next to the argument on the side of zero (`n <= x < n + 1` for non-negative `x`, `n - 1 < x <= n` for negative `x`) |
| `Numerics.Mod` | webapp.py:53 | Python's float `%` with a positive divisor always lands in `[0, m)` |
| `Numerics.ModUnique` | webapp.py:53 | the remainder is the only value in `[0, m)` that differs from the dividend by a whole number of divisors |
| `Numerics.ModPeriodic` | webapp.py:47 | adding whole multiples of the divisor does not change the remainder |
| `Orbit.PhaseIndex` | webapp.py:47 | the phase index is in 0..7 for every day, so the lookup into the eight labels never goes out of range |
| `Orbit.DeterminePhase` | webapp.py:46-48 | the label shown is always one of the eight `MOON_PHASES` labels |
| `Orbit.PhaseIsOctant` | webapp.py:47 | for `0 <= day < 27.32`, phase `i` holds exactly when `i * P <= 8 * day < (i + 1) * P`: the i-th eighth of the orbit |
| `Orbit.PhasePeriodic` | webapp.py:47 | `day` and `day + k * 27.32` get the same index and the same label, for every integer `k` |
| `Orbit.PhaseOfWholeDay` | webapp.py:47 | on a whole day `d` the index is `(200 * d) % 5464 / 683` |
| `Orbit.QuarterPhases` | webapp.py:17-20 | day 0 is "New Moon", P/4 is "First Quarter", P/2 is "Full Moon" and 0.75 P is "Last Quarter" |
| `Clock.Pad2` | webapp.py:54 | `:02d` formatting of `0..99` gives two decimal digits that read back as the number |
| `Clock.Hour` | webapp.py:53 | the hour of the day lies in `[0, 24)` for every angle and every offset, negative ones included |
| `Clock.TimeOfDay` | webapp.py:51-55 | the result is always a well-formed `HH:MM` with `HH` in 00..23 and `MM` in 00..59 |
| `Clock.ClockTextUnique` | webapp.py:54 | two well-formed readings that denote the same minute of the day are the same string |
| `Clock.TimeOfDayMinute` | webapp.py:53-54 | the reading denotes minute `((angle % 360) * 4 + offset * 60) % 1440` of the day |
| `Clock.TimeOfDayIsMinute` | webapp.py:53-54 | a well-formed reading is the result exactly when it denotes that minute (both directions) |
| `Clock.TimeOfDayPeriodic` | webapp.py:53 | adding whole turns to the angle or whole days to the offset does not change the reading |
| `Clock.TimeOfDayExamples` | webapp.py:53-54 | at any whole turn with offset 0 the clock reads `00:00`; at half a turn it reads `12:00`; at a whole turn with offset -5 it reads `19:00` |
| `Session.NextDay` | webapp.py:151-154 | "Add Day" never leaves the day above 27.32 and never makes a non-negative day negative |
| `Session.NextPosition` | webapp.py:157-160 | "Spin the Earth" leaves the angle below 360 and keeps a non-negative multiple of 30 on that grid |
| `Session.DayAfterPresses` | webapp.py:151-154 | after `n` presses from day 0 the day is `n % 28`: it stays in 0..27 and returns to 0 every 28 presses |
| `Session.PositionAfterPresses` | webapp.py:157-160 | after `n` presses from angle 0 the angle is `(n % 12) * 30`: it stays in {0, ..., 330} and returns to 0 every 12 presses |
| `Session.SpinAdvancesClock` | webapp.py:157-160 | for every angle on the 30-degree grid below 360 and every offset, one spin makes the shown time's minute of the day exactly 120 more, modulo 1440 |
| `Session.WholeHourReading` | webapp.py:53-54 | on the reachable angles (multiples of 30 below 360) the minutes of the shown time always read `00` |
| `Session.SessionState.constructor` | webapp.py:30-36 | the first run starts at day 0, angle 0 and the GMT offset, and satisfies the invariant |
| `Session.SessionState.AddDay` | webapp.py:151-154 | the day becomes `(day + 1) % 28`, the invariant is kept, angle and offset are unchanged |
| `Session.SessionState.Spin` | webapp.py:157-160 | the angle becomes `(angle + 30) % 360`, the invariant is kept, day and offset are unchanged |
| `Session.SessionState.SelectTimeZone` | webapp.py:163-164 | a listed zone sets the offset to exactly its table entry; an unlisted name fails the lookup and changes nothing |
| `Session.SessionState.Reset` | webapp.py:167-169 | day and angle go back to 0 and the time-zone offset is kept |
| `Session.SessionState.Interact` | webapp.py:147-169 | one run of the sidebar in page order: the pressed button's change to day or angle, then the offset set to the zone's entry or kept when the lookup fails, then "Reset" only if the lookup succeeded; the invariant is kept |
| `Session.SessionState.Readout` | webapp.py:172-177 | the shown phase is the label of index `(200 * day) % 5464 / 683`, and the shown time is a well-formed reading on a whole hour |
| `MoonImage.LitWidth` | webapp.py:66 | for a ratio in `[0, 1]` the lit width is in `0..width` and is the truncation of `ratio * width` |
| `MoonImage.LitWidthMonotone` | webapp.py:65-66 | a larger ratio never lights fewer columns; ratio 1 lights every column and ratio 0 none |
| `MoonImage.CopyImage` | webapp.py:60 | the copy is a fresh image with the texture's size and pixels |
| `MoonImage.ShadeFrom` | webapp.py:69 | every pixel in a column at or right of the start column, in every row, becomes black; every other pixel is unchanged |
| `MoonImage.CreateMoonImage` | webapp.py:58-70 | the result is a fresh image of the texture's size. Columns below the lit width keep the texture's pixels and the others are black. The texture is unchanged |

## Left out

- `MoonImage.CreateMoonImage`: it takes the lit ratio as an input in `[0, 1]`. The source computes that ratio as `0.5 * (1 + cos(moon_angle))` (webapp.py:65). Cosine is floating-point trigonometry. The model keeps only the bound that the formula guarantees.
- `calculate_moon_position` (webapp.py:39-43): the Moon's x/y coordinates and angle come from `cos`/`sin`, which are floating-point trigonometry.
- `plot_moon_orbit` and `draw_stickman` (webapp.py:73-140): these are matplotlib rendering calls with presentation constants (axis limits, label offsets, stickman coordinates). `Session.SessionState.Readout` models the two values the page shows from them: the phase label returned at webapp.py:93 and handed back at webapp.py:140, and the time text drawn into the figure at webapp.py:133-134. The returned figure is not modelled; the returned `lit_moon_image` is `MoonImage.CreateMoonImage`.
- Image loading (`Image.open`, webapp.py:7-8): this is file I/O. The texture is a given 2-D array of RGB pixels.
- Streamlit widgets and page output (webapp.py:143-201): only the state changes the buttons and the select box cause are modelled. Which button was pressed and which zone is selected are parameters.
- The select box lists the zones in table order and starts on "GMT". The model treats the zone as a name parameter and keeps no order.
- The floats are modelled as exact rationals. IEEE-754 rounding (for example, Python's float `%` returning the divisor for a tiny negative dividend) is not modelled.
