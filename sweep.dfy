/** The dashboard's pure helpers (app.js): the temperature sweep of the
    parameters-versus-temperature chart with its alpha axis bounds, and the
    floor of the seasonality chart's energy axis. */
module Sweep {
  import opened RealMath
  import opened JsNumbers
  import opened Thermo

  /** Math.min over a non-empty list. */
  function SeqMin(s: seq<real>): (m: real)
    requires |s| > 0
    ensures m in s
    ensures forall i :: 0 <= i < |s| ==> m <= s[i]
  {
    if |s| == 1 then s[0] else Min(s[0], SeqMin(s[1..]))
  }

  /** Math.max over a non-empty list. */
  function SeqMax(s: seq<real>): (m: real)
    requires |s| > 0
    ensures m in s
    ensures forall i :: 0 <= i < |s| ==> s[i] <= m
  {
    if |s| == 1 then s[0] else Max(s[0], SeqMax(s[1..]))
  }

  const SweepPoints: nat := 9

  /** The swept temperatures in degrees Celsius, 50 + 25 i for i in 0 .. 8. */
  function SweepTemps(): (ts: seq<int>)
    ensures |ts| == SweepPoints
    ensures forall i :: 0 <= i < SweepPoints ==> ts[i] == 50 + 25 * i
    ensures ts[0] == 50 && ts[SweepPoints - 1] == 250
  {
    seq(SweepPoints, i requires 0 <= i < SweepPoints => 50 + 25 * i)
  }

  /** The dashboard's own copy of the Seebeck law. */
  function AlphaFormula(t: real): real
  {
    0.045 + 0.00008 * (t + 273.15 - 300.0)
  }

  /** It is the backend's law for bismuth telluride. */
  lemma AlphaMatchesBackend(t: real)
    ensures AlphaFormula(t) == SeebeckCoefficient(t, BismuthTelluride)
  {
  }

  /** The chart's alpha values, each rounded to five decimals. */
  function AlphaVals(): (alphas: seq<real>)
    ensures |alphas| == SweepPoints
    ensures forall i :: 0 <= i < SweepPoints ==>
              alphas[i] == ToFixed(SeebeckCoefficient(SweepTemps()[i] as real, BismuthTelluride), 5)
  {
    var ts := SweepTemps();
    seq(SweepPoints, i requires 0 <= i < SweepPoints => ToFixed(AlphaFormula(ts[i] as real), 5))
  }

  /** The alpha values rise along the sweep. */
  lemma AlphaValsSorted(i: nat, j: nat)
    requires i <= j < SweepPoints
    ensures AlphaVals()[i] <= AlphaVals()[j]
  {
    var ts := SweepTemps();
    var ai := SeebeckCoefficient(ts[i] as real, BismuthTelluride);
    var aj := SeebeckCoefficient(ts[j] as real, BismuthTelluride);
    if i < j {
      SeebeckIncreasing(ts[i] as real, ts[j] as real);
    }
    ToFixedMonotone(ai, aj, 5);
  }

  /** So the smallest alpha is at 50 degrees and the largest at 250 degrees:
      0.04685 and 0.06285 V/K. */
  lemma AlphaExtremes()
    ensures SeqMin(AlphaVals()) == AlphaVals()[0] == 0.04685
    ensures SeqMax(AlphaVals()) == AlphaVals()[SweepPoints - 1] == 0.06285
  {
    var alphas := AlphaVals();
    forall i | 0 <= i < SweepPoints
      ensures alphas[0] <= alphas[i] <= alphas[SweepPoints - 1]
    {
      AlphaValsSorted(0, i);
      AlphaValsSorted(i, SweepPoints - 1);
    }
    assert Pow10(5) == 100000.0;
    assert FixedUnits(SeebeckCoefficient(50.0, BismuthTelluride), 5) == 4685;
    assert FixedUnits(SeebeckCoefficient(250.0, BismuthTelluride), 5) == 6285;
  }

  /** The alpha axis of the chart, [0.95 min alpha, 1.05 max alpha], set the
      same way when the chart is created and when it is updated. */
  datatype Axis = Axis(yMin: real, yMax: real)

  function AlphaAxis(alphas: seq<real>): (a: Axis)
    requires |alphas| > 0
    ensures a.yMin == SeqMin(alphas) * 0.95 && a.yMax == SeqMax(alphas) * 1.05
    ensures SeqMin(alphas) >= 0.0 ==> forall i :: 0 <= i < |alphas| ==> a.yMin <= alphas[i] <= a.yMax
  {
    var lo := SeqMin(alphas);
    var hi := SeqMax(alphas);
    Axis(lo * 0.95, hi * 1.05)
  }

  /** For the sweep the axis is [0.95 * 0.04685, 1.05 * 0.06285]. */
  lemma SweepAxis()
    ensures AlphaAxis(AlphaVals()) == Axis(0.0445075, 0.0659925)
  {
    AlphaExtremes();
  }

  /** The dashboard's copy of the resistivity law. */
  function RhoFormula(t: real): real
  {
    0.000012 * (1.0 + 0.003 * (t + 273.15 - 300.0))
  }

  /** It is the backend's resistivity law. */
  lemma RhoMatchesBackend(t: real)
    ensures RhoFormula(t) == Resistivity(t)
  {
  }

  /** The dashboard's copy of the resistance law: resistivity times the leg
      length over the area, rounded to three decimals. A zero area gives
      Infinity or NaN rather than an error. */
  function RVal(t: real, espesorMm: real, areaCm2: real): JsNumber
  {
    ToFixedNumber(Div(RhoFormula(t) * espesorMm / 10.0, areaCm2), 3)
  }

  /** With a non-zero area it is the backend's internal resistance, rounded;
      with a zero area the backend raises ZeroDivisionError while the
      dashboard plots a non-finite value. */
  lemma RValMatchesBackend(t: real, espesorMm: real, areaCm2: real)
    ensures areaCm2 != 0.0 ==>
              RVal(t, espesorMm, areaCm2)
              == Finite(ToFixed(InternalResistance(t, areaCm2, espesorMm, BismuthTelluride).value, 3))
    ensures areaCm2 == 0.0 ==>
              !RVal(t, espesorMm, areaCm2).Finite? &&
              InternalResistance(t, areaCm2, espesorMm, BismuthTelluride).Err?
  {
    RhoMatchesBackend(t);
    if areaCm2 != 0.0 {
      var num := Resistivity(t) * espesorMm / 10.0;
      assert RhoFormula(t) * espesorMm / 10.0 == num;
      assert RVal(t, espesorMm, areaCm2) == ToFixedNumber(Div(num, areaCm2), 3);
      assert Div(num, areaCm2) == Finite(num / areaCm2);
      assert InternalResistance(t, areaCm2, espesorMm, BismuthTelluride).value == num / areaCm2;
    }
  }

  /** The chart's resistance values. */
  function RVals(espesorMm: real, areaCm2: real): (rs: seq<JsNumber>)
    ensures |rs| == SweepPoints
    ensures forall i :: 0 <= i < SweepPoints ==> rs[i] == RVal(SweepTemps()[i] as real, espesorMm, areaCm2)
  {
    var ts := SweepTemps();
    seq(SweepPoints, i requires 0 <= i < SweepPoints => RVal(ts[i] as real, espesorMm, areaCm2))
  }

  /** yAxisMin of the seasonality chart: the floor of 0.95 times the smallest
      monthly minimum energy. */
  function SeasonalityFloor(minEnergies: seq<real>): (f: int)
    requires |minEnergies| > 0
    ensures f as real <= SeqMin(minEnergies) * 0.95 < f as real + 1.0
  {
    (SeqMin(minEnergies) * 0.95).Floor
  }

  /** With non-negative energies the floor is non-negative and below every
      month's minimum, so no month is cut off. */
  lemma SeasonalityFloorBelowData(minEnergies: seq<real>)
    requires |minEnergies| > 0
    requires forall i :: 0 <= i < |minEnergies| ==> minEnergies[i] >= 0.0
    ensures SeasonalityFloor(minEnergies) >= 0
    ensures forall i :: 0 <= i < |minEnergies| ==> SeasonalityFloor(minEnergies) as real <= minEnergies[i]
  {
    var m := SeqMin(minEnergies);
    assert m >= 0.0;
    assert m * 0.95 <= m;
  }
}
