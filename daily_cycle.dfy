/** The hour-by-hour hot-side temperature of the heat source
    (T_h_diario, backend_v2.py lines 72-107). */
module DailyCycle {
  import opened RealMath

  /** x |-> sin(pi * x). The model does not compute the sine: it is passed in,
      and all it relies on is that the values lie in [-1, 1]. */
  type SinePi = f: real -> real | forall x :: -1.0 <= f(x) <= 1.0 witness (x: real) => 0.0

  const Fuego: string := "fuego"
  const Residuos: string := "residuos"
  const Industrial: string := "industrial"

  /** Hours of the three daily peaks of a waste-burning source. */
  const ResiduosPeaks: seq<real> := [8.0, 13.0, 18.0]

  /** One step of the residuos loop: within 2 h of a peak the temperature is
      raised to the triangular profile peak * (1 - |h - p| / 2). */
  function ResiduosStep(hora: real, pico: real, tHPico: real, current: real): real
  {
    if Abs(hora - pico) < 2.0 then Max(current, tHPico * (1.0 - Abs(hora - pico) / 2.0))
    else current
  }

  /** T_current after the residuos loop has seen the first n peaks. */
  function ResiduosAfter(hora: real, tHPico: real, tAmbiente: real, n: nat): real
    requires n <= |ResiduosPeaks|
  {
    if n == 0 then tAmbiente
    else ResiduosStep(hora, ResiduosPeaks[n - 1], tHPico, ResiduosAfter(hora, tHPico, tAmbiente, n - 1))
  }

  /** The point a fraction p of the way from `from` to `to`. */
  function Lerp(from: real, to: real, p: real): real
  {
    from + (to - from) * p
  }

  /** Fire, 6:00-11:00: linear rise from ambient towards the peak. */
  function FuegoRampUp(hora: real, tHPico: real, tAmbiente: real): real
  {
    var progress := (hora - 6.0) / 5.0;
    Lerp(tAmbiente, tHPico, progress)
  }

  /** Fire, 11:00-15:00: the peak plus 30 sin^2, with s the sine value. */
  function FuegoPeak(s: real, tHPico: real): real
  {
    tHPico + 30.0 * s * s
  }

  /** Fire, 15:00-22:00: linear fall from the peak towards ambient
      (peak - (peak - ambient) * progress). */
  function FuegoRampDown(hora: real, tHPico: real, tAmbiente: real): real
  {
    var progress := (hora - 15.0) / 7.0;
    Lerp(tHPico, tAmbiente, progress)
  }

  /** The "fuego" profile: a fire lit from 6:00 to 22:00. */
  function FuegoTemp(hora: real, tHPico: real, tAmbiente: real, sinPi: SinePi): real
  {
    if hora < 6.0 || hora >= 22.0 then tAmbiente
    else if hora < 11.0 then FuegoRampUp(hora, tHPico, tAmbiente)
    else if hora < 15.0 then FuegoPeak(sinPi((hora - 11.0) / 4.0), tHPico)
    else FuegoRampDown(hora, tHPico, tAmbiente)
  }

  /** The "industrial" profile: the peak modulated by 0.95 + 0.1 s, with s
      the value of sin(pi h / 12). */
  function IndustrialTemp(s: real, tHPico: real): real
  {
    tHPico * (0.95 + 0.1 * s)
  }

  /** The hot-side temperature at a given hour for a source type. */
  function HotSideTemp(hora: real, tipoFuente: string, tHPico: real, tAmbiente: real, sinPi: SinePi): real
  {
    if tipoFuente == Fuego then FuegoTemp(hora, tHPico, tAmbiente, sinPi)
    else if tipoFuente == Residuos then ResiduosAfter(hora, tHPico, tAmbiente, |ResiduosPeaks|)
    else if tipoFuente == Industrial then IndustrialTemp(sinPi(hora / 12.0), tHPico)
    else tHPico
  }

  /** T_h_diario as the source runs it, with the residuos loop over the peaks. */
  method ComputeHotSideTemp(hora: real, tipoFuente: string, tHPico: real, tAmbiente: real, sinPi: SinePi)
    returns (t: real)
    ensures t == HotSideTemp(hora, tipoFuente, tHPico, tAmbiente, sinPi)
  {
    if tipoFuente == Fuego {
      if hora < 6.0 || hora >= 22.0 {
        t := tAmbiente;
      } else if 6.0 <= hora < 11.0 {
        t := FuegoRampUp(hora, tHPico, tAmbiente);
      } else if 11.0 <= hora < 15.0 {
        t := FuegoPeak(sinPi((hora - 11.0) / 4.0), tHPico);
      } else {
        t := FuegoRampDown(hora, tHPico, tAmbiente);
      }
    } else if tipoFuente == Residuos {
      t := ResiduosLoop(hora, tHPico, tAmbiente);
    } else if tipoFuente == Industrial {
      t := IndustrialTemp(sinPi(hora / 12.0), tHPico);
    } else {
      t := tHPico;
    }
  }

  /** The residuos branch of T_h_diario: start at ambient and raise
      T_current near each of the three peaks in turn. */
  method ResiduosLoop(hora: real, tHPico: real, tAmbiente: real) returns (current: real)
    ensures current == ResiduosAfter(hora, tHPico, tAmbiente, |ResiduosPeaks|)
  {
    current := tAmbiente;
    var i := 0;
    while i < |ResiduosPeaks|
      invariant 0 <= i <= |ResiduosPeaks|
      invariant current == ResiduosAfter(hora, tHPico, tAmbiente, i)
    {
      var picoHora := ResiduosPeaks[i];
      if Abs(hora - picoHora) < 2.0 {
        current := Max(current, tHPico * (1.0 - Abs(hora - picoHora) / 2.0));
      }
      i := i + 1;
    }
  }

  /** Fire: ambient outside 6:00-22:00. */
  lemma FuegoOffHours(hora: real, tHPico: real, tAmbiente: real, sinPi: SinePi)
    requires hora < 6.0 || hora >= 22.0
    ensures HotSideTemp(hora, Fuego, tHPico, tAmbiente, sinPi) == tAmbiente
  {
  }

  /** Fire: the rise starts at ambient at 6:00 and is linear: between two
      hours of the rise the temperature changes by (peak - ambient) / 5 per
      hour, and stays between ambient and the peak. */
  lemma FuegoRisesLinearly(h1: real, h2: real, tHPico: real, tAmbiente: real, sinPi: SinePi)
    requires 6.0 <= h1 <= h2 < 11.0
    ensures HotSideTemp(6.0, Fuego, tHPico, tAmbiente, sinPi) == tAmbiente
    ensures HotSideTemp(h1, Fuego, tHPico, tAmbiente, sinPi) == FuegoRampUp(h1, tHPico, tAmbiente)
    ensures HotSideTemp(h2, Fuego, tHPico, tAmbiente, sinPi) == FuegoRampUp(h2, tHPico, tAmbiente)
    ensures tAmbiente <= tHPico ==>
              tAmbiente <= FuegoRampUp(h1, tHPico, tAmbiente) <= FuegoRampUp(h2, tHPico, tAmbiente) <= tHPico
    ensures tHPico <= tAmbiente ==>
              tHPico <= FuegoRampUp(h2, tHPico, tAmbiente) <= FuegoRampUp(h1, tHPico, tAmbiente) <= tAmbiente
    ensures FuegoRampUp(h2, tHPico, tAmbiente) - FuegoRampUp(h1, tHPico, tAmbiente)
            == (tHPico - tAmbiente) * (h2 - h1) / 5.0
  {
    RampUpFacts(h1, h2, tHPico, tAmbiente);
  }

  lemma RampUpFacts(h1: real, h2: real, tHPico: real, tAmbiente: real)
    requires 6.0 <= h1 <= h2 <= 11.0
    ensures tAmbiente <= tHPico ==>
              tAmbiente <= FuegoRampUp(h1, tHPico, tAmbiente) <= FuegoRampUp(h2, tHPico, tAmbiente) <= tHPico
    ensures tHPico <= tAmbiente ==>
              tHPico <= FuegoRampUp(h2, tHPico, tAmbiente) <= FuegoRampUp(h1, tHPico, tAmbiente) <= tAmbiente
    ensures FuegoRampUp(h2, tHPico, tAmbiente) - FuegoRampUp(h1, tHPico, tAmbiente)
            == (tHPico - tAmbiente) * (h2 - h1) / 5.0
  {
    LerpFacts(tAmbiente, tHPico, (h1 - 6.0) / 5.0, (h2 - 6.0) / 5.0);
  }

  /** Fire: the fall starts at the peak at 15:00 and is linear: it changes by
      (ambient - peak) / 7 per hour and stays between ambient and the
      peak. */
  lemma FuegoFallsLinearly(h1: real, h2: real, tHPico: real, tAmbiente: real, sinPi: SinePi)
    requires 15.0 <= h1 <= h2 < 22.0
    ensures HotSideTemp(15.0, Fuego, tHPico, tAmbiente, sinPi) == tHPico
    ensures HotSideTemp(h1, Fuego, tHPico, tAmbiente, sinPi) == FuegoRampDown(h1, tHPico, tAmbiente)
    ensures HotSideTemp(h2, Fuego, tHPico, tAmbiente, sinPi) == FuegoRampDown(h2, tHPico, tAmbiente)
    ensures tAmbiente <= tHPico ==>
              tAmbiente <= FuegoRampDown(h2, tHPico, tAmbiente) <= FuegoRampDown(h1, tHPico, tAmbiente) <= tHPico
    ensures tHPico <= tAmbiente ==>
              tHPico <= FuegoRampDown(h1, tHPico, tAmbiente) <= FuegoRampDown(h2, tHPico, tAmbiente) <= tAmbiente
    ensures FuegoRampDown(h1, tHPico, tAmbiente) - FuegoRampDown(h2, tHPico, tAmbiente)
            == (tHPico - tAmbiente) * (h2 - h1) / 7.0
  {
    RampDownFacts(h1, h2, tHPico, tAmbiente);
  }

  lemma RampDownFacts(h1: real, h2: real, tHPico: real, tAmbiente: real)
    requires 15.0 <= h1 <= h2 <= 22.0
    ensures tAmbiente <= tHPico ==>
              tAmbiente <= FuegoRampDown(h2, tHPico, tAmbiente) <= FuegoRampDown(h1, tHPico, tAmbiente) <= tHPico
    ensures tHPico <= tAmbiente ==>
              tHPico <= FuegoRampDown(h1, tHPico, tAmbiente) <= FuegoRampDown(h2, tHPico, tAmbiente) <= tAmbiente
    ensures FuegoRampDown(h1, tHPico, tAmbiente) - FuegoRampDown(h2, tHPico, tAmbiente)
            == (tHPico - tAmbiente) * (h2 - h1) / 7.0
  {
    LerpFacts(tHPico, tAmbiente, (h1 - 15.0) / 7.0, (h2 - 15.0) / 7.0);
  }

  /** Moving p forward within [0, 1] moves Lerp monotonically from `from`
      towards `to`, by (to - from) times the step. */
  lemma LerpFacts(from: real, to: real, p1: real, p2: real)
    requires 0.0 <= p1 <= p2 <= 1.0
    ensures from <= to ==> from <= Lerp(from, to, p1) <= Lerp(from, to, p2) <= to
    ensures to <= from ==> to <= Lerp(from, to, p2) <= Lerp(from, to, p1) <= from
    ensures Lerp(from, to, p2) - Lerp(from, to, p1) == (to - from) * (p2 - p1)
  {
    if from <= to {
      LerpRising(from, to, p1, p2);
    }
    if to <= from {
      LerpFalling(from, to, p1, p2);
    }
    LerpStep(from, to, p1, p2);
  }

  lemma LerpRising(from: real, to: real, p1: real, p2: real)
    requires 0.0 <= p1 <= p2 <= 1.0 && from <= to
    ensures from <= Lerp(from, to, p1) <= Lerp(from, to, p2) <= to
  {
    LerpStepBounds(to - from, p1, p2);
  }

  lemma LerpFalling(from: real, to: real, p1: real, p2: real)
    requires 0.0 <= p1 <= p2 <= 1.0 && to <= from
    ensures to <= Lerp(from, to, p2) <= Lerp(from, to, p1) <= from
  {
    LerpStepBoundsFalling(to - from, p1, p2);
  }

  lemma LerpStep(from: real, to: real, p1: real, p2: real)
    ensures Lerp(from, to, p2) - Lerp(from, to, p1) == (to - from) * (p2 - p1)
  {
  }

  /** A non-negative span d scaled by 0 <= p1 <= p2 <= 1 grows from 0 to d. */
  lemma LerpStepBounds(d: real, p1: real, p2: real)
    requires d >= 0.0 && 0.0 <= p1 <= p2 <= 1.0
    ensures 0.0 <= d * p1 <= d * p2 <= d
  {
    MulMonotone(0.0, d, p1, p1);
    MulMonotone(d, d, p1, p2);
    MulMonotone(d, d, p2, 1.0);
  }

  /** A non-positive span d scaled by 0 <= p1 <= p2 <= 1 falls from 0 to d. */
  lemma LerpStepBoundsFalling(d: real, p1: real, p2: real)
    requires d <= 0.0 && 0.0 <= p1 <= p2 <= 1.0
    ensures d <= d * p2 <= d * p1 <= 0.0
  {
    LerpStepBounds(-d, p1, p2);
    assert (-d) * p1 == -(d * p1) && (-d) * p2 == -(d * p2);
  }

  /** Fire: between 11:00 and 15:00 the temperature stays within 30 degrees
      above the peak, whatever the sine. */
  lemma FuegoPlateau(hora: real, tHPico: real, tAmbiente: real, sinPi: SinePi)
    requires 11.0 <= hora < 15.0
    ensures tHPico <= HotSideTemp(hora, Fuego, tHPico, tAmbiente, sinPi) <= tHPico + 30.0
  {
    PeakBounds(sinPi((hora - 11.0) / 4.0), tHPico);
  }

  lemma PeakBounds(s: real, tHPico: real)
    requires -1.0 <= s <= 1.0
    ensures tHPico <= FuegoPeak(s, tHPico) <= tHPico + 30.0
  {
    if s >= 0.0 { MulMonotone(s, 1.0, s, 1.0); } else { MulMonotone(-s, 1.0, -s, 1.0); }
  }

  /** Residuos: the loop only ever raises T_current, so the result is never
      below ambient. */
  lemma {:induction false} ResiduosAtLeastAmbient(hora: real, tHPico: real, tAmbiente: real, n: nat)
    requires n <= |ResiduosPeaks|
    ensures ResiduosAfter(hora, tHPico, tAmbiente, n) >= tAmbiente
  {
    if n > 0 {
      ResiduosAtLeastAmbient(hora, tHPico, tAmbiente, n - 1);
    }
  }

  /** Residuos: at least 2 h away from every peak the temperature is ambient. */
  lemma {:induction false} ResiduosAmbientAwayFromPeaks(hora: real, tHPico: real, tAmbiente: real, n: nat)
    requires n <= |ResiduosPeaks|
    requires forall i :: 0 <= i < |ResiduosPeaks| ==> Abs(hora - ResiduosPeaks[i]) >= 2.0
    ensures ResiduosAfter(hora, tHPico, tAmbiente, n) == tAmbiente
  {
    if n > 0 {
      ResiduosAmbientAwayFromPeaks(hora, tHPico, tAmbiente, n - 1);
    }
  }

  /** Residuos: with a non-negative peak the temperature never exceeds
      max(ambient, peak). */
  lemma {:induction false} ResiduosAtMostPeak(hora: real, tHPico: real, tAmbiente: real, n: nat)
    requires n <= |ResiduosPeaks| && tHPico >= 0.0
    ensures ResiduosAfter(hora, tHPico, tAmbiente, n) <= Max(tAmbiente, tHPico)
  {
    if n > 0 {
      ResiduosAtMostPeak(hora, tHPico, tAmbiente, n - 1);
      var p := ResiduosPeaks[n - 1];
      if Abs(hora - p) < 2.0 {
        var f := 1.0 - Abs(hora - p) / 2.0;
        MulMonotone(tHPico, tHPico, f, 1.0);
      }
    }
  }

  lemma ResiduosBounds(hora: real, tHPico: real, tAmbiente: real, sinPi: SinePi)
    ensures HotSideTemp(hora, Residuos, tHPico, tAmbiente, sinPi) >= tAmbiente
    ensures tHPico >= 0.0 ==> HotSideTemp(hora, Residuos, tHPico, tAmbiente, sinPi) <= Max(tAmbiente, tHPico)
    ensures (forall i :: 0 <= i < |ResiduosPeaks| ==> Abs(hora - ResiduosPeaks[i]) >= 2.0) ==>
              HotSideTemp(hora, Residuos, tHPico, tAmbiente, sinPi) == tAmbiente
  {
    ResiduosAtLeastAmbient(hora, tHPico, tAmbiente, 3);
    if tHPico >= 0.0 {
      ResiduosAtMostPeak(hora, tHPico, tAmbiente, 3);
    }
    if forall i :: 0 <= i < |ResiduosPeaks| ==> Abs(hora - ResiduosPeaks[i]) >= 2.0 {
      ResiduosAmbientAwayFromPeaks(hora, tHPico, tAmbiente, 3);
    }
  }

  /** Industrial: with a non-negative peak the result lies in [0.85, 1.05]
      times the peak. */
  lemma IndustrialBand(hora: real, tHPico: real, tAmbiente: real, sinPi: SinePi)
    requires tHPico >= 0.0
    ensures 0.85 * tHPico <= HotSideTemp(hora, Industrial, tHPico, tAmbiente, sinPi) <= 1.05 * tHPico
  {
    ModulationBounds(sinPi(hora / 12.0), tHPico);
  }

  lemma ModulationBounds(s: real, tHPico: real)
    requires -1.0 <= s <= 1.0 && tHPico >= 0.0
    ensures 0.85 * tHPico <= IndustrialTemp(s, tHPico) <= 1.05 * tHPico
  {
    var m := 0.95 + 0.1 * s;
    MulMonotone(tHPico, tHPico, 0.85, m);
    MulMonotone(tHPico, tHPico, m, 1.05);
  }

  /** Any other source type holds the peak all day. */
  lemma OtherSourceConstant(hora: real, tipoFuente: string, tHPico: real, tAmbiente: real, sinPi: SinePi)
    requires tipoFuente != Fuego && tipoFuente != Residuos && tipoFuente != Industrial
    ensures HotSideTemp(hora, tipoFuente, tHPico, tAmbiente, sinPi) == tHPico
  {
  }
}
