/** The thermoelectric module (TEGModule, backend_v2.py lines 109-214): its
    geometry, the load power at a given load resistance, and the full
    theoretical report with its power-transfer curve. */
module Teg {
  import opened RealMath
  import opened Wrappers
  import opened Thermo

  /** The parameters of a module: junction area (cm^2), leg thickness (mm),
      material, insulation thermal resistance (K/W), emittance and the
      radiating area (m^2). */
  datatype TegModule = TegModule(
    areaCm2: real,
    espesorMm: real,
    material: string,
    aislamientoRTh: real,
    emitancia: real,
    areaM2: real)

  /** The constructor's default arguments. */
  const DefaultModule: TegModule := TegModule(1.0, 4.0, BismuthTelluride, 0.5, 0.8, 0.0001)

  /** The SP1848 datasheet module used for the Puno analysis. */
  const Sp1848: TegModule := TegModule(16.0, 3.8, BismuthTelluride, 0.5, 0.8, 0.0016)

  datatype ValidTemps = ValidTemps(thK: real, tcK: real, deltaT: real)

  /** _validar_temps: all zero unless the hot side is strictly hotter;
      otherwise both sides in Kelvin and their difference. */
  function ValidateTemps(thC: real, tcC: real): (v: ValidTemps)
    ensures thC <= tcC ==> v == ValidTemps(0.0, 0.0, 0.0)
    ensures thC > tcC ==> v.thK == CelsiusToKelvin(thC) && v.tcK == CelsiusToKelvin(tcC)
    ensures thC > tcC ==> v.deltaT == thC - tcC && v.deltaT > 0.0
    ensures v.deltaT > 0.0 <==> thC > tcC
  {
    if thC <= tcC then ValidTemps(0.0, 0.0, 0.0)
    else
      var thK := CelsiusToKelvin(thC);
      var tcK := CelsiusToKelvin(tcC);
      ValidTemps(thK, tcK, thK - tcK)
  }

  function MeanTemp(thC: real, tcC: real): (t: real)
    ensures tcC <= t <= thC || thC <= t <= tcC
  {
    (thC + tcC) / 2.0
  }

  /** The circuit current V_oc / (R + R_L), zero when the loop resistance is
      not positive. (Ohm's law for it is the lemma OhmsLaw; keeping products
      out of this contract keeps the solver's work small wherever the
      function appears.) */
  function Current(vOc: real, r: real, rL: real): (i: real)
    ensures r + rL <= 0.0 ==> i == 0.0
  {
    if r + rL > 0.0 then vOc / (r + rL) else 0.0
  }

  /** Ohm's law: the current times the loop resistance is the open-circuit
      voltage. */
  lemma OhmsLaw(vOc: real, r: real, rL: real)
    requires r + rL > 0.0
    ensures Current(vOc, r, rL) * (r + rL) == vOc
  {
  }

  /** The matched-load power V_oc^2 / (4 R), zero when R is not positive. */
  function MaxPower(vOc: real, r: real): (p: real)
    ensures r <= 0.0 ==> p == 0.0
    ensures p >= 0.0
  {
    if r > 0.0 then (vOc * vOc) / (4.0 * r) else 0.0
  }

  /** Four times R times the matched-load power is V_oc^2. */
  lemma MatchedPower(vOc: real, r: real)
    requires r > 0.0
    ensures MaxPower(vOc, r) * (4.0 * r) == vOc * vOc
  {
  }

  /** Carnot efficiency in percent, (1 - T_c / T_h) * 100, zero when T_h is
      not positive. */
  function CarnotEfficiency(thK: real, tcK: real): (e: real)
    ensures thK <= 0.0 ==> e == 0.0
    ensures 0.0 <= tcK < thK ==> 0.0 < e <= 100.0
  {
    if thK > 0.0 then
      var ratio := tcK / thK;
      assert ratio * thK == tcK;
      assert 0.0 <= tcK < thK ==> 0.0 <= ratio < 1.0 by {
        if 0.0 <= tcK < thK && ratio >= 1.0 {
          MulMonotone(1.0, ratio, thK, thK);
        }
      }
      (1.0 - ratio) * 100.0
    else 0.0
  }

  /** Times T_h, the Carnot efficiency is 100 (T_h - T_c). */
  lemma CarnotTimesHot(thK: real, tcK: real)
    requires thK > 0.0
    ensures CarnotEfficiency(thK, tcK) * thK == (thK - tcK) * 100.0
  {
    var ratio := tcK / thK;
    assert ratio * thK == tcK;
  }

  /** calcular_potencia_carga: the power delivered to the load R_L. Zero when
      the hot side is not hotter or the loop resistance is not positive;
      otherwise (V_oc / (R + R_L))^2 R_L, clamped at zero. The internal
      resistance raises ZeroDivisionError on a zero area. */
  function LoadPower(m: TegModule, thC: real, tcC: real, rL: real): (p: Result<real>)
    ensures p.Err? <==> thC > tcC && m.material == BismuthTelluride && m.areaCm2 == 0.0
    ensures p.Ok? ==> p.value >= 0.0
    ensures thC <= tcC ==> p == Ok(0.0)
  {
    var v := ValidateTemps(thC, tcC);
    if v.deltaT <= 0.0 then Ok(0.0)
    else
      var tMedia := MeanTemp(thC, tcC);
      var alpha := SeebeckCoefficient(tMedia, m.material);
      var r :- InternalResistance(tMedia, m.areaCm2, m.espesorMm, m.material);
      Ok(ClampedLoadPower(alpha * v.deltaT, r, rL))
  }

  /** The last step of calcular_potencia_carga once V_oc and R are known:
      zero when the loop resistance is not positive, otherwise I^2 R_L
      clamped at zero. */
  function ClampedLoadPower(vOc: real, r: real, rL: real): (p: real)
    ensures p >= 0.0
    ensures r + rL <= 0.0 ==> p == 0.0
  {
    if r + rL <= 0.0 then 0.0
    else
      var i := vOc / (r + rL);
      Max(0.0, i * i * rL)
  }

  /** The clamped power is Max(0, I^2 R_L) for the circuit current I, also
      when the loop resistance is not positive (then I = 0). */
  lemma ClampedLoadPowerFormula(vOc: real, r: real, rL: real)
    ensures ClampedLoadPower(vOc, r, rL) == Max(0.0, Current(vOc, r, rL) * Current(vOc, r, rL) * rL)
  {
    if r + rL <= 0.0 {
      assert Current(vOc, r, rL) == 0.0;
    }
  }

  /** For a hot side hotter than the cold side, the load power is
      Max(0, I^2 R_L) with I the circuit current for V_oc = alpha dT at the
      mean temperature. */
  lemma LoadPowerFormula(m: TegModule, thC: real, tcC: real, rL: real,
                          alpha: real, deltaT: real, vOc: real, r: real)
    requires thC > tcC && deltaT == thC - tcC
    requires alpha == SeebeckCoefficient(MeanTemp(thC, tcC), m.material) && vOc == alpha * deltaT
    requires InternalResistance(MeanTemp(thC, tcC), m.areaCm2, m.espesorMm, m.material) == Ok(r)
    ensures LoadPower(m, thC, tcC, rL).Ok?
    ensures LoadPower(m, thC, tcC, rL).value == Max(0.0, Current(vOc, r, rL) * Current(vOc, r, rL) * rL)
  {
    LoadPowerClamped(m, thC, tcC, rL, alpha, deltaT, vOc, r);
    ClampedLoadPowerFormula(vOc, r, rL);
  }

  /** For a hot side hotter than the cold side, the load power is the
      clamped power of V_oc = alpha dT and the internal resistance. */
  lemma LoadPowerClamped(m: TegModule, thC: real, tcC: real, rL: real,
                         alpha: real, deltaT: real, vOc: real, r: real)
    requires thC > tcC && deltaT == thC - tcC
    requires alpha == SeebeckCoefficient(MeanTemp(thC, tcC), m.material) && vOc == alpha * deltaT
    requires InternalResistance(MeanTemp(thC, tcC), m.areaCm2, m.espesorMm, m.material) == Ok(r)
    ensures LoadPower(m, thC, tcC, rL).Ok?
    ensures LoadPower(m, thC, tcC, rL).value == ClampedLoadPower(vOc, r, rL)
  {
    var v := ValidateTemps(thC, tcC);
    assert alpha * v.deltaT == vOc;
  }

  /** Maximum power transfer: with R > 0 no load R_L >= 0 draws more than
      V_oc^2 / (4 R), and the matched load R_L = R draws exactly that. */
  lemma MaxPowerTransfer(vOc: real, r: real, rL: real)
    requires r > 0.0 && rL >= 0.0
    ensures Current(vOc, r, rL) * Current(vOc, r, rL) * rL <= MaxPower(vOc, r)
    ensures rL == r ==> Current(vOc, r, rL) * Current(vOc, r, rL) * rL == MaxPower(vOc, r)
  {
    var s := r + rL;
    var i := Current(vOc, r, rL);
    var pMax := MaxPower(vOc, r);
    OhmsLaw(vOc, r, rL);
    MatchedPower(vOc, r);
    assert i * s == vOc;
    assert s * s - 4.0 * r * rL == (r - rL) * (r - rL);
    assert 4.0 * r * rL <= s * s;
    var ii := i * i;
    assert ii >= 0.0;
    MulMonotone(ii, ii, 4.0 * r * rL, s * s);
    assert ii * (4.0 * r * rL) <= ii * (s * s);
    assert ii * (s * s) == vOc * vOc;
    assert (ii * rL) * (4.0 * r) <= pMax * (4.0 * r);
    if rL == r {
      assert ii * (4.0 * r * rL) == ii * (s * s);
      assert (ii * rL) * (4.0 * r) == pMax * (4.0 * r);
    }
  }

  /** Hence the clamped load power never exceeds the matched-load power: a
      non-negative load by maximum power transfer, a negative one because
      the clamp then gives zero. */
  lemma LoadPowerAtMostMax(m: TegModule, thC: real, tcC: real, rL: real,
                            alpha: real, deltaT: real, vOc: real, r: real)
    requires thC > tcC && deltaT == thC - tcC && r > 0.0
    requires alpha == SeebeckCoefficient(MeanTemp(thC, tcC), m.material) && vOc == alpha * deltaT
    requires InternalResistance(MeanTemp(thC, tcC), m.areaCm2, m.espesorMm, m.material) == Ok(r)
    ensures LoadPower(m, thC, tcC, rL).Ok?
    ensures LoadPower(m, thC, tcC, rL).value <= MaxPower(vOc, r)
  {
    if rL >= 0.0 {
      LoadPowerFormula(m, thC, tcC, rL, alpha, deltaT, vOc, r);
      MaxPowerTransfer(vOc, r, rL);
    } else {
      LoadPowerClamped(m, thC, tcC, rL, alpha, deltaT, vOc, r);
      NegativeLoadDrawsNothing(vOc, r, rL);
    }
  }

  /** A negative load resistance gets no power from the clamp. */
  lemma NegativeLoadDrawsNothing(vOc: real, r: real, rL: real)
    requires rL < 0.0
    ensures ClampedLoadPower(vOc, r, rL) == 0.0
  {
    if r + rL > 0.0 {
      var i := vOc / (r + rL);
      assert i * i >= 0.0;
      assert (i * i) * rL <= 0.0;
    }
  }

  /** One point of the power-transfer curve: the load resistance (rounded
      to two decimals) and the load power in mW. */
  datatype TransferPoint = TransferPoint(x: real, y: real)

  /** np.linspace(lo, hi, n)[i] on exact reals. */
  function Linspace(lo: real, hi: real, n: nat, i: nat): (x: real)
    requires n >= 2
    ensures i == 0 ==> x == lo
    ensures i == n - 1 ==> x == hi
    ensures lo <= hi && i <= n - 1 ==> lo <= x <= hi
  {
    var m := (n - 1) as real;
    var x := lo + i as real * ((hi - lo) / m);
    LinspaceEnd(lo, hi, m);
    assert lo <= hi && i <= n - 1 ==> lo <= x <= hi by {
      if lo <= hi && i <= n - 1 {
        LinspaceWithin(lo, hi, m, i as real);
      }
    }
    x
  }

  /** The last of m equal steps from lo lands on hi. */
  lemma LinspaceEnd(lo: real, hi: real, m: real)
    requires m > 0.0
    ensures lo + m * ((hi - lo) / m) == hi
  {
  }

  /** k of m equal steps from lo to hi stay between them. */
  lemma LinspaceWithin(lo: real, hi: real, m: real, k: real)
    requires m > 0.0 && 0.0 <= k <= m && lo <= hi
    ensures lo <= lo + k * ((hi - lo) / m) <= hi
  {
    var step := (hi - lo) / m;
    assert step >= 0.0;
    MulMonotone(0.0, k, step, step);
    MulMonotone(k, m, step, step);
    LinspaceEnd(lo, hi, m);
  }

  /** Number of points of the transfer curve. */
  const TransferPoints: nat := 50

  /** The minimum load resistance of the transfer curve. */
  const TransferStart: real := 0.1

  /** The theoretical report of calcular_teoria_completa. */
  datatype TheoryReport = TheoryReport(
    deltaT: real,
    vOc: real,
    current: real,
    pLoad: real,
    pMax: real,
    qH: real,
    effCarnot: real,
    effTeg: real,
    vLoad: real,
    eLoad: real,
    eMax: real,
    lossTotal: real,
    alpha: real,
    rInternal: real,
    kThermal: real,
    lossRad: real,
    lossCond: real,
    transfer: seq<TransferPoint>)

  /** The report for a hot side that is not hotter than the cold side: every
      field zero and a flat transfer curve over 0.1 .. 20 ohm. */
  function DegenerateReport(): (rep: TheoryReport)
    ensures |rep.transfer| == TransferPoints
    ensures forall k :: 0 <= k < |rep.transfer| ==>
              rep.transfer[k].y == 0.0 &&
              rep.transfer[k].x == RoundDecimals(Linspace(TransferStart, 20.0, TransferPoints, k), 2)
    ensures rep == TheoryReport(0.0, 0.0, 0.0, 0.0, 0.0, 0.0, 0.0, 0.0, 0.0, 0.0, 0.0, 0.0, 0.0, 0.0, 0.0, 0.0, 0.0, rep.transfer)
  {
    var flat := seq(TransferPoints, k requires 0 <= k < TransferPoints =>
                      TransferPoint(RoundDecimals(Linspace(TransferStart, 20.0, TransferPoints, k), 2), 0.0));
    TheoryReport(0.0, 0.0, 0.0, 0.0, 0.0, 0.0, 0.0, 0.0, 0.0, 0.0, 0.0, 0.0, 0.0, 0.0, 0.0, 0.0, 0.0, flat)
  }

  /** The heat drawn from the hot side: Q_h = K dT + alpha I T_h - I^2 R / 2. */
  function HeatInput(k: real, deltaT: real, alpha: real, i: real, thK: real, r: real): real
  {
    (k * deltaT) + (alpha * i * thK) - (0.5 * (i * i) * r)
  }

  /** The load resistances the transfer curve samples, 0.1 up to
      max(20, 2 R_L). */
  function TransferLoad(rL: real, k: nat): (x: real)
    requires k < TransferPoints
    ensures TransferStart <= x <= Max(20.0, rL * 2.0)
  {
    Linspace(TransferStart, Max(20.0, rL * 2.0), TransferPoints, k)
  }

  /** The transfer loop of calcular_teoria_completa: 50 load resistances,
      each point the rounded resistance and the load power in mW. */
  method TransferCurve(m: TegModule, thC: real, tcC: real, rL: real) returns (pts: seq<TransferPoint>)
    requires !(thC > tcC && m.material == BismuthTelluride && m.areaCm2 == 0.0)
    ensures |pts| == TransferPoints
    ensures forall k :: 0 <= k < TransferPoints ==>
              pts[k].x == RoundDecimals(TransferLoad(rL, k), 2) &&
              pts[k].y == 1000.0 * LoadPower(m, thC, tcC, TransferLoad(rL, k)).value
    ensures forall k :: 0 <= k < TransferPoints ==> pts[k].y >= 0.0
  {
    pts := [];
    var k := 0;
    while k < TransferPoints
      invariant 0 <= k <= TransferPoints
      invariant |pts| == k
      invariant forall j :: 0 <= j < k ==>
                  pts[j].x == RoundDecimals(TransferLoad(rL, j), 2) &&
                  pts[j].y == 1000.0 * LoadPower(m, thC, tcC, TransferLoad(rL, j)).value
    {
      var rStep := TransferLoad(rL, k);
      var pStep := LoadPower(m, thC, tcC, rStep);
      pts := pts + [TransferPoint(RoundDecimals(rStep, 2), pStep.value * 1000.0)];
      k := k + 1;
    }
  }

  /** The relations calcular_teoria_completa keeps between the fields of a
      non-degenerate report, given the hot- and cold-side temperatures in
      Kelvin: V_oc = alpha dT, Ohm's law for the load, P = V I, the
      matched-load power, the heat-flow equation, the efficiencies, the
      energies over the charging time and the loss total. */
  predicate Consistent(rep: TheoryReport, rL: real, chargeHours: real, thK: real, tcK: real)
  {
    && ElectricalFields(rep, rL)
    && rep.qH == HeatInput(rep.kThermal, rep.deltaT, rep.alpha, rep.current, thK, rep.rInternal)
    && rep.effCarnot == CarnotEfficiency(thK, tcK)
    && rep.effTeg == 0.06 * rep.effCarnot
    && rep.eLoad == rep.pLoad * chargeHours
    && rep.eMax == rep.pMax * chargeHours
    && rep.lossTotal == rep.lossRad + rep.lossCond
  }

  /** The electrical relations of a report: V_oc = alpha dT, the circuit
      current, the matched-load power, V_load = I R_L and P_load = V_load I. */
  predicate ElectricalFields(rep: TheoryReport, rL: real)
  {
    && EmfFields(rep)
    && rep.current == Current(rep.vOc, rep.rInternal, rL)
    && rep.vLoad == rep.current * rL
    && rep.pLoad == rep.vLoad * rep.current
  }

  /** The fields that do not depend on the load: V_oc = alpha dT and the
      matched-load power. */
  predicate EmfFields(rep: TheoryReport)
  {
    && rep.vOc == rep.alpha * rep.deltaT
    && rep.pMax == MaxPower(rep.vOc, rep.rInternal)
  }

  /** The straight-line part of calcular_teoria_completa once the material
      laws have been evaluated: alpha, the Kelvin temperatures, R, K and the
      losses are given, and so is the transfer curve. */
  function AssembleReport(alpha: real, thK: real, tcK: real, r: real, k: real, rL: real, chargeHours: real,
                          losses: Losses, transfer: seq<TransferPoint>): (rep: TheoryReport)
    requires losses.total == losses.radiation + losses.conduction
    ensures Consistent(rep, rL, chargeHours, thK, tcK)
    ensures rep.deltaT == thK - tcK && rep.alpha == alpha && rep.rInternal == r && rep.kThermal == k
    ensures rep.lossRad == losses.radiation && rep.lossCond == losses.conduction
    ensures rep.transfer == transfer
  {
    var deltaT := thK - tcK;
    var vOc := alpha * deltaT;
    var c := LoadCircuit(vOc, r, rL);
    var qH := HeatInput(k, deltaT, alpha, c.current, thK, r);
    var effCarnot := CarnotEfficiency(thK, tcK);
    var effTeg := effCarnot * 0.06;
    var eLoad := c.pLoad * chargeHours;
    var eMax := c.pMax * chargeHours;
    TheoryReport(deltaT, vOc, c.current, c.pLoad, c.pMax, qH, effCarnot, effTeg, c.vLoad, eLoad, eMax,
                 losses.total, alpha, r, k, losses.radiation, losses.conduction, transfer)
  }

  /** The electrical side of the report for open-circuit voltage V_oc,
      internal resistance R and load R_L. */
  datatype Circuit = Circuit(current: real, vLoad: real, pLoad: real, pMax: real)

  /** The load circuit: the current by Ohm's law, the load voltage I R_L,
      the load power V_load I (not clamped here, unlike
      calcular_potencia_carga) and the matched-load power, which bounds the
      load power whenever R > 0 and R_L >= 0. */
  function LoadCircuit(vOc: real, r: real, rL: real): (c: Circuit)
    ensures c.current == Current(vOc, r, rL)
    ensures c.vLoad == c.current * rL
    ensures c.pLoad == c.vLoad * c.current
    ensures c.pMax == MaxPower(vOc, r)
    ensures r > 0.0 && rL >= 0.0 ==> c.pLoad <= c.pMax
    ensures r > 0.0 && rL == r ==> c.pLoad == c.pMax
  {
    var pMax := MaxPower(vOc, r);
    var i := Current(vOc, r, rL);
    var pLoad := (i * i) * rL;
    assert r > 0.0 && rL >= 0.0 ==> pLoad <= pMax && (rL == r ==> pLoad == pMax) by {
      if r > 0.0 && rL >= 0.0 {
        MaxPowerTransfer(vOc, r, rL);
      }
    }
    Circuit(i, i * rL, pLoad, pMax)
  }

  /** What calcular_teoria_completa promises of its report for a hot side
      hotter than the cold side: the material laws evaluated at the mean
      temperature, the losses of the module's insulation, and the relations
      between the fields. */
  predicate ReportFor(m: TegModule, thC: real, tcC: real, rL: real, chargeHours: real, rep: TheoryReport)
  {
    var tMedia := MeanTemp(thC, tcC);
    && MaterialFields(m, thC, tcC, rep)
    && ThermalConductance(tMedia, m.areaCm2, m.espesorMm, m.material) == Ok(rep.kThermal)
    && Losses(rep.lossTotal, rep.lossRad, rep.lossCond) == TotalLoss(thC, tcC, m.areaM2, m.aislamientoRTh, m.emitancia)
    && Consistent(rep, rL, chargeHours, CelsiusToKelvin(thC), CelsiusToKelvin(tcC))
  }

  /** The temperature difference, alpha and R of a report are those of the
      module at the mean temperature. */
  predicate MaterialFields(m: TegModule, thC: real, tcC: real, rep: TheoryReport)
  {
    var tMedia := MeanTemp(thC, tcC);
    && rep.deltaT == thC - tcC
    && rep.alpha == SeebeckCoefficient(tMedia, m.material)
    && InternalResistance(tMedia, m.areaCm2, m.espesorMm, m.material) == Ok(rep.rInternal)
  }

  /** The report's load power, clamped at zero, is what
      calcular_potencia_carga gives for the same load; with R > 0 and
      R_L >= 0 it never exceeds the matched-load power, which the matched
      load R_L = R attains. */
  lemma ReportLoadPower(m: TegModule, thC: real, tcC: real, rL: real, rep: TheoryReport)
    requires thC > tcC && MaterialFields(m, thC, tcC, rep) && ElectricalFields(rep, rL)
    ensures LoadPower(m, thC, tcC, rL).Ok?
    ensures LoadPower(m, thC, tcC, rL).value == Max(0.0, rep.pLoad)
    ensures rep.rInternal > 0.0 && rL >= 0.0 ==> rep.pLoad <= rep.pMax
    ensures rep.rInternal > 0.0 && rL == rep.rInternal ==> rep.pLoad == rep.pMax
  {
    LoadPowerFormula(m, thC, tcC, rL, rep.alpha, rep.deltaT, rep.vOc, rep.rInternal);
    ReportCircuit(rep, rL);
  }

  /** The report's electrical fields satisfy the load-circuit relations. */
  lemma ReportCircuit(rep: TheoryReport, rL: real)
    requires ElectricalFields(rep, rL)
    ensures rep.pLoad == rep.current * rep.current * rL
    ensures rep.rInternal > 0.0 && rL >= 0.0 ==> rep.pLoad <= rep.pMax
    ensures rep.rInternal > 0.0 && rL == rep.rInternal ==> rep.pLoad == rep.pMax
  {
    if rep.rInternal > 0.0 && rL >= 0.0 {
      MaxPowerTransfer(rep.vOc, rep.rInternal, rL);
    }
  }

  /** No point of the transfer curve draws more than the report's
      matched-load power. */
  lemma TransferAtMostMax(m: TegModule, thC: real, tcC: real, rL: real, rep: TheoryReport)
    requires thC > tcC && rep.rInternal > 0.0 && MaterialFields(m, thC, tcC, rep) && EmfFields(rep)
    ensures forall k :: 0 <= k < TransferPoints ==>
              LoadPower(m, thC, tcC, TransferLoad(rL, k)).value <= rep.pMax
  {
    forall k | 0 <= k < TransferPoints
      ensures LoadPower(m, thC, tcC, TransferLoad(rL, k)).value <= rep.pMax
    {
      LoadPowerAtMostMax(m, thC, tcC, TransferLoad(rL, k), rep.alpha, rep.deltaT, rep.vOc, rep.rInternal);
    }
  }

  /** With both temperatures in Kelvin and 0 <= T_c < T_h, the Carnot
      efficiency lies in (0, 100] and the module's in (0, 6]. */
  lemma ReportEfficiency(rep: TheoryReport, rL: real, chargeHours: real, thK: real, tcK: real)
    requires 0.0 <= tcK < thK && Consistent(rep, rL, chargeHours, thK, tcK)
    ensures 0.0 < rep.effCarnot <= 100.0
    ensures 0.0 < rep.effTeg <= 6.0
  {
  }

  /** calcular_teoria_completa. A zero area or thickness of a
      bismuth-telluride module raises ZeroDivisionError (only when the hot
      side is hotter: the degenerate case returns before any division). */
  method TheoryComplete(m: TegModule, thC: real, tcC: real, rL: real, chargeHours: real)
    returns (res: Result<TheoryReport>)
    ensures res.Err? <==>
              thC > tcC && m.material == BismuthTelluride && (m.areaCm2 == 0.0 || m.espesorMm == 0.0)
    ensures thC <= tcC ==> res == Ok(DegenerateReport())
    ensures res.Ok? && thC > tcC ==> ReportFor(m, thC, tcC, rL, chargeHours, res.value)
    ensures res.Ok? && thC > tcC ==>
              |res.value.transfer| == TransferPoints &&
              forall k :: 0 <= k < TransferPoints ==>
                res.value.transfer[k].x == RoundDecimals(TransferLoad(rL, k), 2) &&
                res.value.transfer[k].y == 1000.0 * LoadPower(m, thC, tcC, TransferLoad(rL, k)).value
    ensures res.Ok? && thC > tcC && res.value.rInternal > 0.0 ==>
              forall k :: 0 <= k < TransferPoints ==> 0.0 <= res.value.transfer[k].y <= 1000.0 * res.value.pMax
  {
    var v := ValidateTemps(thC, tcC);
    if v.deltaT <= 0.0 {
      return Ok(DegenerateReport());
    }
    var tMedia := MeanTemp(thC, tcC);
    var alpha := SeebeckCoefficient(tMedia, m.material);
    var r :- InternalResistance(tMedia, m.areaCm2, m.espesorMm, m.material);
    var k :- ThermalConductance(tMedia, m.areaCm2, m.espesorMm, m.material);
    var losses := TotalLoss(thC, tcC, m.areaM2, m.aislamientoRTh, m.emitancia);

    var transfer := TransferCurve(m, thC, tcC, rL);
    var rep := AssembleReport(alpha, v.thK, v.tcK, r, k, rL, chargeHours, losses, transfer);
    if r > 0.0 {
      TransferAtMostMax(m, thC, tcC, rL, rep);
    }
    res := Ok(rep);
  }
}
