/** The few JavaScript number semantics the dashboard relies on: division
    that yields Infinity or NaN instead of failing, and
    parseFloat(x.toFixed(d)), which rounds to d decimals with ties away from
    zero. */
module JsNumbers {
  import opened RealMath

  /** A JavaScript number on exact reals, with the non-finite values. */
  datatype JsNumber = Finite(v: real) | PosInfinity | NegInfinity | NaN

  /** a / b: defined for every divisor. */
  function Div(a: real, b: real): (q: JsNumber)
    ensures b != 0.0 ==> q.Finite? && q.v * b == a
    ensures b == 0.0 && a > 0.0 ==> q == PosInfinity
    ensures b == 0.0 && a < 0.0 ==> q == NegInfinity
    ensures b == 0.0 && a == 0.0 ==> q == NaN
  {
    if b != 0.0 then Finite(a / b)
    else if a > 0.0 then PosInfinity
    else if a < 0.0 then NegInfinity
    else NaN
  }

  /** x in units of 10^-d, rounded to the nearest unit with ties going away
      from zero (toFixed rounds the magnitude and restores the sign). */
  function FixedUnits(x: real, d: nat): (n: int)
    ensures x >= 0.0 ==> n >= 0 && n as real - 0.5 <= x * Pow10(d) < n as real + 0.5
    ensures x < 0.0 ==> n <= 0 && n as real - 0.5 < x * Pow10(d) <= n as real + 0.5
  {
    var p := Pow10(d);
    if x >= 0.0 then (x * p + 0.5).Floor
    else
      assert -x * p == -(x * p);
      -(((-x) * p + 0.5).Floor)
  }

  /** parseFloat(x.toFixed(d)) for a finite x, rounded on the decimal grid
      whatever its magnitude. */
  function ToFixed(x: real, d: nat): (r: real)
    ensures r * Pow10(d) == FixedUnits(x, d) as real
    ensures -0.5 <= (r - x) * Pow10(d) <= 0.5
    ensures x >= 0.0 ==> r >= 0.0
  {
    var p := Pow10(d);
    var n := FixedUnits(x, d);
    var r := n as real / p;
    assert r * p == n as real;
    assert (r - x) * p == r * p - x * p;
    r
  }

  /** Rounding to d decimals keeps the order of non-negative values. */
  lemma ToFixedMonotone(x: real, y: real, d: nat)
    requires 0.0 <= x <= y
    ensures ToFixed(x, d) <= ToFixed(y, d)
  {
    var p := Pow10(d);
    MulMonotone(x, y, p, p);
    assert FixedUnits(x, d) <= FixedUnits(y, d);
    var rx := ToFixed(x, d);
    var ry := ToFixed(y, d);
    if rx > ry {
      assert (rx - ry) * p > 0.0;
      assert rx * p - ry * p > 0.0;
    }
  }

  /** A value already on the grid of 10^-d is left as it is. */
  lemma ToFixedOnGrid(n: nat, d: nat)
    ensures ToFixed(n as real / Pow10(d), d) == n as real / Pow10(d)
  {
    var p := Pow10(d);
    var x := n as real / p;
    assert x * p == n as real;
    assert FixedUnits(x, d) == n;
  }

  /** parseFloat(x.toFixed(d)) for any number: the non-finite values print
      as "Infinity", "-Infinity" and "NaN" and parse back to themselves. */
  function ToFixedNumber(x: JsNumber, d: nat): (r: JsNumber)
    ensures x.Finite? ==> r == Finite(ToFixed(x.v, d))
    ensures !x.Finite? ==> r == x
  {
    if x.Finite? then Finite(ToFixed(x.v, d)) else x
  }
}
