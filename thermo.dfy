/** The temperature-dependent material laws of the thermoelectric module and
    its heat-loss terms (backend_v2.py, lines 7-69). Temperatures are in
    degrees Celsius unless a name says Kelvin. */
module Thermo {
  import opened RealMath
  import opened Wrappers

  /** Absolute zero in degrees Celsius. */
  const AbsoluteZeroC: real := -273.15

  /** The one material with temperature-dependent laws; any other material
      name gets fixed constants. */
  const BismuthTelluride: string := "bismuto-telurio"

  /** Stefan-Boltzmann constant, W/(m^2 K^4). */
  const Sigma: real := 0.0000000567

  function CelsiusToKelvin(c: real): (k: real)
    ensures k == c + 273.15
    ensures k >= 0.0 <==> c >= AbsoluteZeroC
  {
    c - AbsoluteZeroC
  }

  /** Seebeck coefficient in V/K at mean temperature tMeanC. */
  function SeebeckCoefficient(tMeanC: real, material: string): (alpha: real)
    ensures material == BismuthTelluride ==> alpha == 0.045 + 0.00008 * (tMeanC - 26.85)
    ensures material != BismuthTelluride ==> alpha == 0.05
  {
    if material == BismuthTelluride then
      var alphaBase := 0.045;
      var beta := 0.00008;
      alphaBase + beta * (CelsiusToKelvin(tMeanC) - 300.0)
    else
      0.05
  }

  /** For bismuth telluride alpha grows strictly with the mean temperature. */
  lemma SeebeckIncreasing(t1: real, t2: real)
    requires t1 < t2
    ensures SeebeckCoefficient(t1, BismuthTelluride) < SeebeckCoefficient(t2, BismuthTelluride)
  {
  }

  /** Bismuth-telluride resistivity rho(T) = rho_300K * (1 + 0.003 (T_K - 300)). */
  function Resistivity(tMeanC: real): (rho: real)
    ensures tMeanC >= AbsoluteZeroC ==> rho > 0.0
  {
    var rho300K := 0.000012;
    var tempCoef := 0.003;
    rho300K * (1.0 + tempCoef * (CelsiusToKelvin(tMeanC) - 300.0))
  }

  /** Internal resistance in ohm: resistivity times length (espesor_mm / 10)
      over area; a zero area raises ZeroDivisionError. */
  function InternalResistance(tMeanC: real, areaCm2: real, espesorMm: real, material: string): (r: Result<real>)
    ensures r.Err? <==> material == BismuthTelluride && areaCm2 == 0.0
    ensures material != BismuthTelluride ==> r == Ok(2.5)
  {
    if material == BismuthTelluride then
      if areaCm2 == 0.0 then Err(ZeroDivision)
      else Ok((Resistivity(tMeanC) * espesorMm / 10.0) / areaCm2)
    else
      Ok(2.5)
  }

  /** R times the area is the resistivity times the length espesor_mm / 10. */
  lemma InternalResistanceTimesArea(tMeanC: real, areaCm2: real, espesorMm: real)
    requires areaCm2 != 0.0
    ensures InternalResistance(tMeanC, areaCm2, espesorMm, BismuthTelluride).value * areaCm2
            == Resistivity(tMeanC) * espesorMm / 10.0
  {
  }

  /** At a physical temperature and with positive geometry the internal
      resistance is positive. */
  lemma InternalResistancePositive(tMeanC: real, areaCm2: real, espesorMm: real)
    requires tMeanC >= AbsoluteZeroC && areaCm2 > 0.0 && espesorMm > 0.0
    ensures InternalResistance(tMeanC, areaCm2, espesorMm, BismuthTelluride).Ok?
    ensures InternalResistance(tMeanC, areaCm2, espesorMm, BismuthTelluride).value > 0.0
  {
    var r := InternalResistance(tMeanC, areaCm2, espesorMm, BismuthTelluride).value;
    var rho := Resistivity(tMeanC);
    InternalResistanceTimesArea(tMeanC, areaCm2, espesorMm);
    assert rho * espesorMm > 0.0;
    assert r * areaCm2 > 0.0;
  }

  /** Multiplying the area by k divides the internal resistance by k. */
  lemma InternalResistanceInverseInArea(tMeanC: real, areaCm2: real, espesorMm: real, k: real)
    requires areaCm2 != 0.0 && k > 0.0
    ensures InternalResistance(tMeanC, k * areaCm2, espesorMm, BismuthTelluride).value * k
            == InternalResistance(tMeanC, areaCm2, espesorMm, BismuthTelluride).value
  {
    var num := Resistivity(tMeanC) * espesorMm / 10.0;
    var r1 := InternalResistance(tMeanC, areaCm2, espesorMm, BismuthTelluride).value;
    var rk := InternalResistance(tMeanC, k * areaCm2, espesorMm, BismuthTelluride).value;
    assert k * areaCm2 != 0.0;
    InternalResistanceTimesArea(tMeanC, areaCm2, espesorMm);
    InternalResistanceTimesArea(tMeanC, k * areaCm2, espesorMm);
    assert r1 * areaCm2 == num;
    assert rk * (k * areaCm2) == num;
    assert (rk * k) * areaCm2 == r1 * areaCm2;
  }

  /** Bismuth-telluride thermal conductivity kappa(T) = 1.5 (1 - 0.001 (T_K - 300)). */
  function ThermalConductivity(tMeanC: real): (kappa: real)
    ensures CelsiusToKelvin(tMeanC) < 1300.0 ==> kappa > 0.0
  {
    var kappa300K := 1.5;
    var tempCoefK := -0.001;
    kappa300K * (1.0 + tempCoefK * (CelsiusToKelvin(tMeanC) - 300.0))
  }

  /** Thermal conductance in W/K: conductivity times area (cm^2 to m^2) over
      thickness (mm to m); a zero thickness raises ZeroDivisionError. */
  function ThermalConductance(tMeanC: real, areaCm2: real, espesorMm: real, material: string): (k: Result<real>)
    ensures k.Err? <==> material == BismuthTelluride && espesorMm == 0.0
    ensures material != BismuthTelluride ==> k == Ok(0.6)
  {
    if material == BismuthTelluride then
      if espesorMm == 0.0 then Err(ZeroDivision)
      else Ok(ThermalConductivity(tMeanC) * (areaCm2 / 10000.0) / (espesorMm / 1000.0))
    else
      Ok(0.6)
  }

  /** K times the thickness is the conductivity times the area, with the
      unit conversions cm^2 to m^2 and mm to m folded into a factor 1/10. */
  lemma ThermalConductanceTimesThickness(tMeanC: real, areaCm2: real, espesorMm: real)
    requires espesorMm != 0.0
    ensures ThermalConductance(tMeanC, areaCm2, espesorMm, BismuthTelluride).value * espesorMm
            == ThermalConductivity(tMeanC) * areaCm2 / 10.0
  {
    var kappa := ThermalConductivity(tMeanC);
    var k := ThermalConductance(tMeanC, areaCm2, espesorMm, BismuthTelluride).value;
    assert k * (espesorMm / 1000.0) == kappa * (areaCm2 / 10000.0);
  }

  /** Radiated power in W: sigma * emittance * area * (T_h^4 - T_amb^4), in
      Kelvin, never below zero. */
  function RadiationLoss(thC: real, tAmbC: real, areaM2: real, emitancia: real): (q: real)
    ensures q >= 0.0
    ensures thC == tAmbC ==> q == 0.0
  {
    var thK := CelsiusToKelvin(thC);
    var tAmbK := CelsiusToKelvin(tAmbC);
    Max(0.0, Sigma * emitancia * areaM2 * (Pow4(thK) - Pow4(tAmbK)))
  }

  /** Above ambient (and above absolute zero) the clamp never bites: the loss
      is the Stefan-Boltzmann difference itself. */
  lemma RadiationLossUnclamped(thC: real, tAmbC: real, areaM2: real, emitancia: real)
    requires AbsoluteZeroC <= tAmbC <= thC
    requires emitancia >= 0.0 && areaM2 >= 0.0
    ensures RadiationLoss(thC, tAmbC, areaM2, emitancia)
            == Sigma * emitancia * areaM2 * (Pow4(CelsiusToKelvin(thC)) - Pow4(CelsiusToKelvin(tAmbC)))
  {
    Pow4Monotone(CelsiusToKelvin(tAmbC), CelsiusToKelvin(thC));
    var d := Pow4(CelsiusToKelvin(thC)) - Pow4(CelsiusToKelvin(tAmbC));
    assert emitancia * areaM2 >= 0.0;
    MulMonotone(0.0, Sigma * emitancia * areaM2, 0.0, d);
  }

  /** A hot side at or below ambient radiates nothing. */
  lemma RadiationLossZeroBelowAmbient(thC: real, tAmbC: real, areaM2: real, emitancia: real)
    requires AbsoluteZeroC <= thC <= tAmbC
    requires emitancia >= 0.0 && areaM2 >= 0.0
    ensures RadiationLoss(thC, tAmbC, areaM2, emitancia) == 0.0
  {
    Pow4Monotone(CelsiusToKelvin(thC), CelsiusToKelvin(tAmbC));
    var d := Pow4(CelsiusToKelvin(tAmbC)) - Pow4(CelsiusToKelvin(thC));
    assert emitancia * areaM2 >= 0.0;
    MulMonotone(0.0, Sigma * emitancia * areaM2, 0.0, d);
    assert Sigma * emitancia * areaM2 * (-d) == -(Sigma * emitancia * areaM2 * d);
  }

  /** Conducted power in W: delta-T over the insulation's thermal resistance,
      zero when that resistance is not positive, never below zero. */
  function ConductionLoss(thC: real, tAmbC: real, rTh: real): (q: real)
    ensures q >= 0.0
    ensures rTh <= 0.0 ==> q == 0.0
    ensures thC <= tAmbC ==> q == 0.0
    ensures rTh > 0.0 ==> q * rTh == Max(0.0, thC - tAmbC)
  {
    var deltaT := thC - tAmbC;
    var qCond := if rTh > 0.0 then deltaT / rTh else 0.0;
    Max(0.0, qCond)
  }

  datatype Losses = Losses(total: real, radiation: real, conduction: real)

  /** Total loss is radiation plus conduction; each part is non-negative. */
  function TotalLoss(thC: real, tAmbC: real, areaM2: real, rTh: real, emitancia: real): (l: Losses)
    ensures l.radiation == RadiationLoss(thC, tAmbC, areaM2, emitancia)
    ensures l.conduction == ConductionLoss(thC, tAmbC, rTh)
    ensures l.total == l.radiation + l.conduction
    ensures l.total >= l.radiation >= 0.0 && l.total >= l.conduction >= 0.0
  {
    var qRad := RadiationLoss(thC, tAmbC, areaM2, emitancia);
    var qCond := ConductionLoss(thC, tAmbC, rTh);
    Losses(qRad + qCond, qRad, qCond)
  }
}
