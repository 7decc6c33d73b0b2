/** Real-number helpers shared by the backend model: Python's max/min/abs,
    its int() truncation and its round(), all over exact reals. */
module RealMath {

  function Max(a: real, b: real): (r: real)
    ensures r >= a && r >= b
    ensures r == a || r == b
  {
    if a >= b then a else b
  }

  function Min(a: real, b: real): (r: real)
    ensures r <= a && r <= b
    ensures r == a || r == b
  {
    if a <= b then a else b
  }

  function Abs(x: real): (r: real)
    ensures r >= 0.0
    ensures r == x || r == -x
  {
    if x >= 0.0 then x else -x
  }

  /** Python's int() applied to a float: truncation toward zero. */
  function Trunc(x: real): (n: int)
    ensures 0.0 <= x ==> 0 <= n && n as real <= x < n as real + 1.0
    ensures x < 0.0 ==> n <= 0 && n as real - 1.0 < x <= n as real
  {
    if x >= 0.0 then x.Floor else -((-x).Floor)
  }

  /** 10^n. A non-recursive front for TenToThe: the solver then treats the two
      occurrences of Pow10(n) inside a product as the same term. */
  function Pow10(n: nat): (p: real)
    ensures p >= 1.0
  {
    TenToThe(n)
  }

  function TenToThe(n: nat): (p: real)
    ensures p >= 1.0
  {
    if n == 0 then 1.0 else 10.0 * TenToThe(n - 1)
  }

  function Pow4(x: real): real
  {
    x * x * x * x
  }

  /** Products of non-negative reals are monotone in both factors. */
  lemma MulMonotone(a: real, b: real, c: real, d: real)
    requires 0.0 <= a <= b && 0.0 <= c <= d
    ensures a * c <= b * d
  {
    assert (b - a) * c >= 0.0;
    assert b * (d - c) >= 0.0;
  }

  lemma Pow4Monotone(x: real, y: real)
    requires 0.0 <= x <= y
    ensures Pow4(x) <= Pow4(y)
  {
    MulMonotone(x, y, x, y);
    assert 0.0 <= x * x <= y * y;
    MulMonotone(x * x, y * y, x * x, y * y);
    assert Pow4(x) == (x * x) * (x * x);
    assert Pow4(y) == (y * y) * (y * y);
  }

  /** The integer nearest to y, ties going to the even neighbour. */
  function NearestEven(y: real): (n: int)
    ensures n as real - 0.5 <= y <= n as real + 0.5
  {
    var f := y.Floor;
    var frac := y - f as real;
    if frac < 0.5 then f
    else if frac > 0.5 then f + 1
    else if IsEven(f) then f
    else f + 1
  }

  predicate IsEven(n: int)
  {
    n % 2 == 0
  }

  /** On a tie NearestEven picks the even neighbour. */
  lemma NearestEvenTie(y: real)
    requires y - y.Floor as real == 0.5
    ensures IsEven(NearestEven(y))
    ensures NearestEven(y) as real - y == 0.5 || y - NearestEven(y) as real == 0.5
  {
  }

  /** x measured in units of 10^-places and rounded half to even. */
  function RoundedUnits(x: real, places: nat): (n: int)
    ensures n as real - 0.5 <= x * Pow10(places) <= n as real + 0.5
  {
    NearestEven(x * Pow10(places))
  }

  /** Python's round(x, places) on an exact value: round half to even at
      10^-places. The result is a whole number of units 10^-places, at most
      half a unit away from x. */
  function RoundDecimals(x: real, places: nat): (r: real)
    ensures r * Pow10(places) == RoundedUnits(x, places) as real
    ensures -0.5 <= (r - x) * Pow10(places) <= 0.5
    ensures x >= 0.0 ==> r >= 0.0
  {
    var p := Pow10(places);
    var n := RoundedUnits(x, places);
    var r := n as real / p;
    assert r * p == n as real;
    assert (r - x) * p == r * p - x * p;
    assert x >= 0.0 ==> x * p >= 0.0 && n >= 0;
    r
  }

  /** Rounding to one decimal keeps a value of [0, 100] inside [0, 100]. */
  lemma RoundPercentInRange(x: real)
    requires 0.0 <= x <= 100.0
    ensures 0.0 <= RoundDecimals(x, 1) <= 100.0
  {
    assert Pow10(1) == 10.0;
    var n := RoundedUnits(x, 1);
    assert n as real <= 1000.5;
    assert n <= 1000;
  }

  /** Rounding to two decimals moves a value by at most 0.005. */
  lemma RoundHundredthsError(x: real)
    ensures x - 0.005 <= RoundDecimals(x, 2) <= x + 0.005
  {
    assert Pow10(2) == 100.0;
  }
}
