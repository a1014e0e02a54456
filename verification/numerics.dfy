/** Python's numeric conversions on exact reals.
 *
 * The application computes with floats; this model computes with exact
 * rationals.  Two Python operations matter: `int(x)`, which truncates toward
 * zero, and `x % m` for a positive `m`, whose result always lies in `[0, m)`.
 */
module Numerics {

  /** Python's `int(x)` on a float: drop the fractional part, rounding toward zero. */
  function Trunc(x: real): (n: int)
    ensures 0.0 <= x ==> n as real <= x < n as real + 1.0
    ensures x < 0.0 ==> n as real - 1.0 < x <= n as real
  {
    if x >= 0.0 then x.Floor else -((-x).Floor)
  }

  /** Python's `x % m` for a positive divisor: the representative of `x` in `[0, m)`. */
  function Mod(x: real, m: real): (r: real)
    requires 0.0 < m
    ensures 0.0 <= r < m
  {
    var q := (x / m).Floor as real;
    ScaleFloorBounds(x / m, q, m, x);
    x - m * q
  }

  lemma MulPos(a: real, b: real)
    requires 0.0 < a && 0.0 < b
    ensures 0.0 < a * b
  {
  }

  lemma MulNonNeg(a: real, b: real)
    requires 0.0 <= a && 0.0 <= b
    ensures 0.0 <= a * b
  {
  }

  /** Scaling a fraction `t` in `[0, 1)` by a positive `m` stays in `[0, m)`. */
  lemma ScaledBelow(m: real, t: real)
    requires 0.0 < m && 0.0 <= t < 1.0
    ensures 0.0 <= m * t < m
  {
    MulNonNeg(m, t);
    MulPos(m, 1.0 - t);
    assert m * (1.0 - t) == m - m * t;
  }

  /** From `q <= y < q + 1` and `x == m * y` with `m > 0`: `x - m * q` lies in `[0, m)`. */
  lemma ScaleFloorBounds(y: real, q: real, m: real, x: real)
    requires 0.0 < m && q <= y < q + 1.0 && x == m * y
    ensures 0.0 <= x - m * q < m
  {
    var t := y - q;
    assert x - m * q == m * t;
    ScaledBelow(m, t);
  }

  /** Dividing `0 <= a < bound * d` by a positive `d` gives a quotient in `[0, bound)`. */
  lemma DivBelow(a: real, d: real, bound: real)
    requires 0.0 < d && 0.0 <= a < bound * d
    ensures 0.0 <= a / d < bound
  {
  }

  /** The remainder is the only value in `[0, m)` that differs from `x` by a whole
   * number of `m`s. */
  lemma ModUnique(x: real, m: real, y: real, k: int)
    requires 0.0 < m && 0.0 <= y < m && x == y + k as real * m
    ensures Mod(x, m) == y
  {
    DivBelow(y, m, 1.0);
    calc {
      x / m;
      (y + k as real * m) / m;
      y / m + k as real;
    }
    assert (x / m).Floor == k;
  }

  /** Shifting the dividend by whole multiples of `m` does not change the remainder. */
  lemma ModPeriodic(x: real, m: real, k: int)
    requires 0.0 < m
    ensures Mod(x + k as real * m, m) == Mod(x, m)
  {
    var q := (x / m).Floor;
    ModUnique(x + k as real * m, m, Mod(x, m), q + k);
  }

  /** On a ratio of integers `Floor` is Euclidean integer division. */
  lemma FloorOfRatio(n: int, d: int)
    requires 0 < d
    ensures (n as real / d as real).Floor == n / d
  {
    var q, r := n / d, n % d;
    DivBelow(r as real, d as real, 1.0);
    calc {
      n as real / d as real;
      (q as real * d as real + r as real) / d as real;
      q as real + r as real / d as real;
    }
  }

  /** On a ratio of integers the real remainder is the integer remainder, rescaled. */
  lemma ModOfRatio(n: int, d: int, m: int)
    requires 0 < d && 0 < m
    ensures Mod(n as real / d as real, m as real) == (n % (m * d)) as real / d as real
  {
    var md := m * d;
    var q, r := n / md, n % md;
    var y := r as real / d as real;
    DivBelow(r as real, d as real, m as real);
    calc {
      n as real / d as real;
      (r as real + q as real * m as real * d as real) / d as real;
      y + q as real * m as real;
    }
    ModUnique(n as real / d as real, m as real, y, q);
  }
}
