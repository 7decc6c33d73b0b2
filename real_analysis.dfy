/** The analysis of the Puno temperature record with the SP1848 module
    (backend_v2.py, lines 307-471): the energy harvested each day, the
    battery simulation over the record and the viability of a device. The
    record is a sequence of day records; the CSV it is loaded from can fail
    to load, which is the Option around it. */
module RealAnalysis {
  import opened RealMath
  import opened Wrappers
  import opened DailyCycle
  import opened Teg

  /** One row of the record: its date and the mean and minimum temperature
      of the day (rows missing either were dropped on loading). */
  datatype DayRecord = DayRecord(date: string, tavg: real, tmin: real)

  /** The hot-side peak temperature of a named scenario. */
  function ScenarioPeak(scenario: string): (t: real)
    ensures scenario == "pesimista" ==> t == 80.0
    ensures scenario == "realista" ==> t == 150.0
    ensures scenario == "optimista" ==> t == 250.0
    ensures scenario != "pesimista" && scenario != "optimista" ==> t == 150.0
    ensures 80.0 <= t <= 250.0
  {
    if scenario == "pesimista" then 80.0
    else if scenario == "realista" then 150.0
    else if scenario == "optimista" then 250.0
    else 150.0
  }

  /** The cold-side temperature of a day: the minimum for data type "tmin",
      the mean for anything else. */
  function ColdTemp(day: DayRecord, dataType: string): (t: real)
    ensures t == day.tmin || t == day.tavg
    ensures dataType == "tmin" ==> t == day.tmin
    ensures dataType != "tmin" ==> t == day.tavg
  {
    if dataType == "tmin" then day.tmin else day.tavg
  }

  /** What stays fixed across the days of one analysis: the heat source, its
      peak temperature, the load resistance, the charging hours and the sine
      the daily cycle uses. */
  datatype Setting = Setting(tipoFuente: string, tHPico: real, rL: real, chargeHours: real, sinPi: SinePi)

  function SettingFor(scenario: string, tipoFuente: string, rL: real, chargeHours: real, sinPi: SinePi): (s: Setting)
    ensures s.tHPico == ScenarioPeak(scenario)
    ensures s.tipoFuente == tipoFuente && s.rL == rL && s.chargeHours == chargeHours
  {
    Setting(tipoFuente, ScenarioPeak(scenario), rL, chargeHours, sinPi)
  }

  const HoursPerDay: nat := 24

  /** The first hour of the fire's charging window. */
  const FireStartHour: nat := 6

  /** The SP1848 load power at a whole hour of the day, with the day's cold
      side as the ambient temperature of the cycle. The module's area is not
      zero, so the power is always defined. */
  function HourPower(s: Setting, tc: real, hora: nat): (p: real)
    ensures p >= 0.0
    ensures HotSideTemp(hora as real, s.tipoFuente, s.tHPico, tc, s.sinPi) <= tc ==> p == 0.0
  {
    LoadPower(Sp1848, HotSideTemp(hora as real, s.tipoFuente, s.tHPico, tc, s.sinPi), tc, s.rL).value
  }

  /** Whether the hour's power is added to the day's total: for a fire, the
      hours from 6 up to but excluding 6 + int(charge_hours); for any other
      source, the hours before int(charge_hours) that deliver power. */
  predicate Counted(s: Setting, hora: nat, p: real)
  {
    if s.tipoFuente == Fuego then FireStartHour <= hora < FireStartHour + Trunc(s.chargeHours)
    else p > 0.0 && hora < Trunc(s.chargeHours)
  }

  /** The SP1848 power at each of the 24 hours of a day. */
  function DayPowers(s: Setting, tc: real): (ps: seq<real>)
    ensures |ps| == HoursPerDay
    ensures forall h :: 0 <= h < HoursPerDay ==> ps[h] == HourPower(s, tc, h) && ps[h] >= 0.0
  {
    seq(HoursPerDay, h requires 0 <= h < HoursPerDay => HourPower(s, tc, h))
  }

  /** What an hour delivering power p adds to the day's total. */
  function Contribution(s: Setting, hora: nat, p: real): real
  {
    if Counted(s, hora, p) then p else 0.0
  }

  /** The running total after the first n hours of the day, for the hourly
      powers ps. */
  function EnergyUpTo(s: Setting, ps: seq<real>, n: nat): real
    requires n <= |ps|
  {
    if n == 0 then 0.0 else EnergyUpTo(s, ps, n - 1) + Contribution(s, n - 1, ps[n - 1])
  }

  /** energia_diaria_con_ciclo: zero when the cold side is at least the
      peak, otherwise the 24-hour total clamped at zero. */
  function DailyEnergy(s: Setting, tc: real): (e: real)
    ensures e >= 0.0
    ensures tc >= s.tHPico ==> e == 0.0
  {
    if tc >= s.tHPico then 0.0 else Max(0.0, EnergyUpTo(s, DayPowers(s, tc), HoursPerDay))
  }

  /** The 24-hour loop of energia_diaria_con_ciclo, evaluating the daily
      cycle hour by hour. */
  method DailyEnergyWithCycle(s: Setting, tc: real) returns (e: real)
    ensures e == DailyEnergy(s, tc)
  {
    if tc >= s.tHPico {
      return 0.0;
    }
    ghost var ps := DayPowers(s, tc);
    var energiaTotal := 0.0;
    var hora: nat := 0;
    while hora < HoursPerDay
      invariant hora <= HoursPerDay
      invariant energiaTotal == EnergyUpTo(s, ps, hora)
    {
      var th := ComputeHotSideTemp(hora as real, s.tipoFuente, s.tHPico, tc, s.sinPi);
      var potencia := LoadPower(Sp1848, th, tc, s.rL).value;
      assert potencia == ps[hora];
      assert EnergyUpTo(s, ps, hora + 1) == energiaTotal + Contribution(s, hora, potencia);
      if s.tipoFuente == Fuego {
        var horaInicioCarga := FireStartHour;
        var horaFinCarga := horaInicioCarga + Trunc(s.chargeHours);
        if horaInicioCarga <= hora < horaFinCarga {
          energiaTotal := energiaTotal + potencia;
        }
      } else {
        if potencia > 0.0 && hora < Trunc(s.chargeHours) {
          energiaTotal := energiaTotal + potencia;
        }
      }
      hora := hora + 1;
    }
    e := Max(0.0, energiaTotal);
  }

  /** The reference sum: the powers of the hours in [lo, hi). */
  function PowerSum(ps: seq<real>, lo: nat, hi: nat): real
    requires hi <= |ps|
    decreases hi
  {
    if hi <= lo then 0.0 else PowerSum(ps, lo, hi - 1) + ps[hi - 1]
  }

  /** Summing non-negative powers gives a non-negative total. */
  lemma {:induction false} PowerSumNonNegative(ps: seq<real>, lo: nat, hi: nat)
    requires hi <= |ps|
    requires forall h :: lo <= h < hi ==> ps[h] >= 0.0
    ensures PowerSum(ps, lo, hi) >= 0.0
    decreases hi
  {
    if hi > lo {
      PowerSumNonNegative(ps, lo, hi - 1);
    }
  }

  function NatMin(a: nat, b: nat): nat
  {
    if a <= b then a else b
  }

  function NatMax(a: nat, b: nat): nat
  {
    if a >= b then a else b
  }

  /** When exactly the hours of [lo, hi) contribute their power, the running
      total after n hours is the power summed over the part of that window
      before n. */
  lemma {:induction false} WindowEnergy(s: Setting, ps: seq<real>, n: nat, lo: nat, hi: nat)
    requires n <= |ps| && lo <= hi && lo <= |ps|
    requires forall h :: 0 <= h < n ==> Contribution(s, h, ps[h]) == (if lo <= h < hi then ps[h] else 0.0)
    ensures EnergyUpTo(s, ps, n) == PowerSum(ps, lo, NatMax(lo, NatMin(n, hi)))
  {
    if n > 0 {
      WindowEnergy(s, ps, n - 1, lo, hi);
      var h := n - 1;
      if lo <= h < hi {
        assert NatMax(lo, NatMin(n, hi)) == n;
        assert NatMax(lo, NatMin(h, hi)) == h;
      }
    }
  }

  /** The end of the fire's charging window, 6 + int(charge_hours), as an
      hour no earlier than the start. */
  function FireWindowEnd(chargeHours: real): (n: nat)
    ensures n >= FireStartHour
    ensures Trunc(chargeHours) >= 0 ==> n == FireStartHour + Trunc(chargeHours)
  {
    if Trunc(chargeHours) > 0 then FireStartHour + Trunc(chargeHours) else FireStartHour
  }

  /** For a fire, a day's energy is the power summed over the hours
      [6, 6 + int(charge_hours)) that fall inside the day; the clamp at zero
      never changes the total. */
  lemma FireChargingWindow(s: Setting, tc: real)
    requires s.tipoFuente == Fuego && tc < s.tHPico
    ensures DailyEnergy(s, tc)
            == PowerSum(DayPowers(s, tc), FireStartHour, NatMin(HoursPerDay, FireWindowEnd(s.chargeHours)))
  {
    var ps := DayPowers(s, tc);
    var hi := FireWindowEnd(s.chargeHours);
    WindowEnergy(s, ps, HoursPerDay, FireStartHour, hi);
    PowerSumNonNegative(ps, FireStartHour, NatMin(HoursPerDay, hi));
  }

  /** The number of leading hours another source may charge, int(charge_hours)
      or none. */
  function OtherWindowEnd(chargeHours: real): (n: nat)
    ensures Trunc(chargeHours) >= 0 ==> n == Trunc(chargeHours)
    ensures Trunc(chargeHours) < 0 ==> n == 0
  {
    if Trunc(chargeHours) > 0 then Trunc(chargeHours) else 0
  }

  /** For any other source, a day's energy is the power summed over the
      hours before int(charge_hours): the test for positive power excludes
      only hours that would add nothing. */
  lemma OtherChargingWindow(s: Setting, tc: real)
    requires s.tipoFuente != Fuego && tc < s.tHPico
    ensures DailyEnergy(s, tc) == PowerSum(DayPowers(s, tc), 0, NatMin(HoursPerDay, OtherWindowEnd(s.chargeHours)))
  {
    var ps := DayPowers(s, tc);
    var hi := OtherWindowEnd(s.chargeHours);
    WindowEnergy(s, ps, HoursPerDay, 0, hi);
    PowerSumNonNegative(ps, 0, NatMin(HoursPerDay, hi));
  }

  /** Hours without power add nothing to the reference sum. */
  lemma {:induction false} PowerSumZero(ps: seq<real>, lo: nat, hi: nat)
    requires hi <= |ps|
    requires forall h :: lo <= h < hi ==> ps[h] == 0.0
    ensures PowerSum(ps, lo, hi) == 0.0
    decreases hi
  {
    if hi > lo {
      PowerSumZero(ps, lo, hi - 1);
    }
  }

  /** Waste heat peaks at 8, 13 and 18, so before 7 the hot side is at the
      cold side's temperature and the module delivers nothing. */
  lemma EarlyWasteHeatPowerless(s: Setting, tc: real, hora: nat)
    requires s.tipoFuente == Residuos && hora < 7
    ensures HourPower(s, tc, hora) == 0.0
  {
    var h := hora as real;
    assert Abs(h - ResiduosPeaks[0]) >= 2.0;
    assert Abs(h - ResiduosPeaks[1]) >= 2.0;
    assert Abs(h - ResiduosPeaks[2]) >= 2.0;
    ResiduosBounds(h, s.tHPico, tc, s.sinPi);
  }

  /** Waste heat charges only in the leading int(charge_hours) hours, so with
      at most 7 of them a day yields no energy at all. */
  lemma WasteHeatShortChargeYieldsNothing(s: Setting, tc: real)
    requires s.tipoFuente == Residuos && Trunc(s.chargeHours) <= 7
    ensures DailyEnergy(s, tc) == 0.0
  {
    if tc < s.tHPico {
      OtherChargingWindow(s, tc);
      var ps := DayPowers(s, tc);
      var hi := NatMin(HoursPerDay, OtherWindowEnd(s.chargeHours));
      forall h | 0 <= h < hi
        ensures ps[h] == 0.0
      {
        EarlyWasteHeatPowerless(s, tc, h);
      }
      PowerSumZero(ps, 0, hi);
    }
  }

  /** calcular_energia_diaria_sp1848: the energy of every day of the record,
      in order; a record that failed to load is an error. */
  method DailyEnergies(dataset: Option<seq<DayRecord>>, scenario: string, tipoFuente: string,
                       dataType: string, rL: real, chargeHours: real, sinPi: SinePi)
    returns (res: Result<seq<real>>)
    ensures dataset.None? ==> res == Err(DataNotLoaded)
    ensures dataset.Some? ==> res.Ok? && |res.value| == |dataset.value|
    ensures dataset.Some? ==> forall i :: 0 <= i < |dataset.value| ==>
              res.value[i] == DailyEnergy(SettingFor(scenario, tipoFuente, rL, chargeHours, sinPi),
                                          ColdTemp(dataset.value[i], dataType))
  {
    if dataset.None? {
      return Err(DataNotLoaded);
    }
    var days := dataset.value;
    var s := SettingFor(scenario, tipoFuente, rL, chargeHours, sinPi);
    var energies: seq<real> := [];
    var i := 0;
    while i < |days|
      invariant 0 <= i <= |days|
      invariant |energies| == i
      invariant forall j :: 0 <= j < i ==> energies[j] == DailyEnergy(s, ColdTemp(days[j], dataType))
    {
      var e := DailyEnergyWithCycle(s, ColdTemp(days[i], dataType));
      energies := energies + [e];
      i := i + 1;
    }
    res := Ok(energies);
  }

  /** One entry of the battery history: the date and the level in Wh,
      rounded to two decimals. */
  datatype BatteryEntry = BatteryEntry(date: string, level: real)

  /** The battery level after the first n days: each day adds the day's
      energy, removes the daily consumption and is clamped to
      [0, capacity]. The carried level is never rounded. */
  function LevelAfter(energies: seq<real>, capacity: real, consumption: real, n: nat): (level: real)
    requires n <= |energies|
    ensures level >= 0.0
    ensures capacity >= 0.0 ==> level <= capacity
  {
    if n == 0 then 0.0
    else Max(0.0, Min(capacity, LevelAfter(energies, capacity, consumption, n - 1) + energies[n - 1] - consumption))
  }

  /** The battery loop of analisis_real: one entry per day, in order, each the
      rounded level after that day. */
  method SimulateBattery(days: seq<DayRecord>, energies: seq<real>, capacity: real, consumption: real)
    returns (history: seq<BatteryEntry>)
    requires |energies| == |days|
    ensures |history| == |days|
    ensures forall i :: 0 <= i < |days| ==>
              history[i] == BatteryEntry(days[i].date, RoundDecimals(LevelAfter(energies, capacity, consumption, i + 1), 2))
  {
    var batteryLevel := 0.0;
    history := [];
    var i := 0;
    while i < |days|
      invariant 0 <= i <= |days|
      invariant batteryLevel == LevelAfter(energies, capacity, consumption, i)
      invariant |history| == i
      invariant forall j :: 0 <= j < i ==>
                  history[j] == BatteryEntry(days[j].date, RoundDecimals(LevelAfter(energies, capacity, consumption, j + 1), 2))
    {
      var energyIn := energies[i];
      var energyOut := consumption;
      batteryLevel := batteryLevel + (energyIn - energyOut);
      batteryLevel := Max(0.0, Min(capacity, batteryLevel));
      history := history + [BatteryEntry(days[i].date, RoundDecimals(batteryLevel, 2))];
      i := i + 1;
    }
  }

  /** Every recorded level is non-negative and, for a non-negative capacity,
      at most half a hundredth above it. */
  lemma BatteryHistoryBounds(energies: seq<real>, capacity: real, consumption: real, n: nat)
    requires 1 <= n <= |energies|
    ensures RoundDecimals(LevelAfter(energies, capacity, consumption, n), 2) >= 0.0
    ensures capacity >= 0.0 ==> RoundDecimals(LevelAfter(energies, capacity, consumption, n), 2) <= capacity + 0.005
  {
    RoundHundredthsError(LevelAfter(energies, capacity, consumption, n));
  }

  /** A battery that never receives more than it gives stays empty. */
  lemma {:induction false} NoSurplusStaysEmpty(energies: seq<real>, capacity: real, consumption: real, n: nat)
    requires n <= |energies|
    requires forall i :: 0 <= i < n ==> energies[i] <= consumption
    ensures LevelAfter(energies, capacity, consumption, n) == 0.0
  {
    if n > 0 {
      NoSurplusStaysEmpty(energies, capacity, consumption, n - 1);
    }
  }

  /** More energy on every day never leaves the battery lower. */
  lemma {:induction false} LevelMonotoneInEnergy(e1: seq<real>, e2: seq<real>, capacity: real, consumption: real, n: nat)
    requires n <= |e1| && n <= |e2|
    requires forall i :: 0 <= i < n ==> e1[i] <= e2[i]
    ensures LevelAfter(e1, capacity, consumption, n) <= LevelAfter(e2, capacity, consumption, n)
  {
    if n > 0 {
      LevelMonotoneInEnergy(e1, e2, capacity, consumption, n - 1);
    }
  }

  /** When the day's balance keeps the level inside [0, capacity], the clamp
      does nothing and the level moves by exactly energy in minus energy out. */
  lemma {:induction false} UnclampedStep(energies: seq<real>, capacity: real, consumption: real, n: nat)
    requires n < |energies|
    requires 0.0 <= LevelAfter(energies, capacity, consumption, n) + energies[n] - consumption <= capacity
    ensures LevelAfter(energies, capacity, consumption, n + 1)
            == LevelAfter(energies, capacity, consumption, n) + energies[n] - consumption
  {
    assert LevelAfter(energies, capacity, consumption, n + 1)
           == Max(0.0, Min(capacity, LevelAfter(energies, capacity, consumption, n) + energies[n] - consumption));
  }

  /** The number of days whose energy meets the device's need. */
  function CountViable(energies: seq<real>, need: real): (n: nat)
    ensures n <= |energies|
  {
    if |energies| == 0 then 0
    else (if energies[0] >= need then 1 else 0) + CountViable(energies[1..], need)
  }

  /** A more demanding device is viable on no more days. */
  lemma {:induction false} CountViableAntitone(energies: seq<real>, need1: real, need2: real)
    requires need1 <= need2
    ensures CountViable(energies, need2) <= CountViable(energies, need1)
  {
    if |energies| > 0 {
      CountViableAntitone(energies[1..], need1, need2);
    }
  }

  /** Every day counts when every day meets the need; none counts when none
      does. */
  lemma {:induction false} CountViableExtremes(energies: seq<real>, need: real)
    ensures (forall i :: 0 <= i < |energies| ==> energies[i] >= need) ==> CountViable(energies, need) == |energies|
    ensures (forall i :: 0 <= i < |energies| ==> energies[i] < need) ==> CountViable(energies, need) == 0
  {
    if |energies| > 0 {
      CountViableExtremes(energies[1..], need);
      assert forall i :: 0 <= i < |energies| - 1 ==> energies[1..][i] == energies[i + 1];
    }
  }

  /** The share of viable days in percent, zero for an empty record. */
  function Percentage(viable: nat, total: nat): (pct: real)
    ensures total == 0 ==> pct == 0.0
    ensures total > 0 ==> pct * total as real == viable as real * 100.0
    ensures viable <= total ==> 0.0 <= pct <= 100.0
  {
    if total > 0 then
      var ratio := viable as real / total as real;
      assert ratio * total as real == viable as real;
      assert viable <= total ==> 0.0 <= ratio <= 1.0 by {
        if viable <= total && ratio > 1.0 {
          MulMonotone(1.0, ratio, total as real, total as real);
        }
      }
      ratio * 100.0
    else 0.0
  }

  /** More viable days out of the same total never lower the percentage. */
  lemma PercentageMonotone(v1: nat, v2: nat, total: nat)
    requires v1 <= v2
    ensures Percentage(v1, total) <= Percentage(v2, total)
  {
    if total > 0 {
      var t := total as real;
      CancelPositiveFactor(Percentage(v1, total), Percentage(v2, total), t, v1 as real * 100.0, v2 as real * 100.0);
    }
  }

  /** Dividing both sides of a * t == x <= y == b * t by a t of at least one. */
  lemma CancelPositiveFactor(a: real, b: real, t: real, x: real, y: real)
    requires t >= 1.0 && a * t == x && b * t == y && x <= y
    ensures a <= b
  {
    assert (a - b) * t == x - y;
    if a > b {
      MulMonotone(0.0, a - b, 1.0, t);
    }
  }

  datatype Viability = HighlyViable | Moderate | PoorlyViable

  /** The status thresholds: above 75 percent, above 40 percent, otherwise. */
  function Classify(pct: real): (v: Viability)
    ensures v == HighlyViable <==> pct > 75.0
    ensures v == Moderate <==> 40.0 < pct <= 75.0
    ensures v == PoorlyViable <==> pct <= 40.0
  {
    if pct > 75.0 then HighlyViable else if pct > 40.0 then Moderate else PoorlyViable
  }

  /** A higher percentage never gets a worse status. */
  lemma ClassifyMonotone(p1: real, p2: real)
    requires p1 <= p2
    ensures Classify(p1) == HighlyViable ==> Classify(p2) == HighlyViable
    ensures Classify(p2) == PoorlyViable ==> Classify(p1) == PoorlyViable
  {
  }

  function StatusLabel(v: Viability): (text: string)
    ensures v == HighlyViable ==> text == "\U{2705} Altamente Viable"
    ensures v == Moderate ==> text == "\U{26A0}\U{FE0F} Moderado"
    ensures v == PoorlyViable ==> text == "\U{274C} Poco Viable"
  {
    match v
    case HighlyViable => "\U{2705} Altamente Viable"
    case Moderate => "\U{26A0}\U{FE0F} Moderado"
    case PoorlyViable => "\U{274C} Poco Viable"
  }

  /** The result of analizar_dispositivo. */
  datatype DeviceReport = DeviceReport(
    device: string,
    energyNeeded: real,
    viableDays: nat,
    totalDays: nat,
    percentage: real,
    status: string)

  /** The viability rule of analizar_dispositivo over the days' energies. The
      status is classified on the unrounded percentage; only the reported
      percentage is rounded to one decimal. */
  function AnalyzeDevice(deviceName: string, deviceEnergy: real, energies: seq<real>): (rep: DeviceReport)
    ensures rep.device == deviceName && rep.energyNeeded == deviceEnergy
    ensures rep.totalDays == |energies|
    ensures rep.viableDays == CountViable(energies, deviceEnergy) <= rep.totalDays
    ensures 0.0 <= rep.percentage <= 100.0
    ensures rep.percentage == RoundDecimals(Percentage(rep.viableDays, rep.totalDays), 1)
    ensures rep.totalDays == 0 ==> rep.percentage == 0.0 && rep.status == StatusLabel(PoorlyViable)
    ensures rep.status == StatusLabel(Classify(Percentage(rep.viableDays, rep.totalDays)))
  {
    var totalDias := |energies|;
    var diasViables := CountViable(energies, deviceEnergy);
    var pct := Percentage(diasViables, totalDias);
    RoundPercentInRange(pct);
    assert totalDias == 0 ==> RoundDecimals(pct, 1) == 0.0 by {
      if totalDias == 0 {
        assert RoundedUnits(0.0, 1) == 0;
      }
    }
    DeviceReport(deviceName, deviceEnergy, diasViables, totalDias, RoundDecimals(pct, 1), StatusLabel(Classify(pct)))
  }

  /** A more demanding device is viable on no more days, with no higher a
      percentage, and is never classified better. */
  lemma MoreDemandingDeviceIsNoMoreViable(name: string, need1: real, need2: real, energies: seq<real>)
    requires need1 <= need2
    ensures AnalyzeDevice(name, need2, energies).viableDays <= AnalyzeDevice(name, need1, energies).viableDays
    ensures Percentage(CountViable(energies, need2), |energies|) <= Percentage(CountViable(energies, need1), |energies|)
    ensures AnalyzeDevice(name, need2, energies).status == StatusLabel(HighlyViable) ==>
              AnalyzeDevice(name, need1, energies).status == StatusLabel(HighlyViable)
    ensures AnalyzeDevice(name, need1, energies).status == StatusLabel(PoorlyViable) ==>
              AnalyzeDevice(name, need2, energies).status == StatusLabel(PoorlyViable)
  {
    var p1 := Percentage(CountViable(energies, need1), |energies|);
    var p2 := Percentage(CountViable(energies, need2), |energies|);
    CountViableAntitone(energies, need1, need2);
    PercentageMonotone(CountViable(energies, need2), CountViable(energies, need1), |energies|);
    ClassifyMonotone(p2, p1);
    StatusLabelInjective(Classify(p1), HighlyViable);
    StatusLabelInjective(Classify(p2), HighlyViable);
    StatusLabelInjective(Classify(p1), PoorlyViable);
    StatusLabelInjective(Classify(p2), PoorlyViable);
  }

  /** The three status texts are distinct. */
  lemma StatusLabelInjective(v: Viability, w: Viability)
    ensures StatusLabel(v) == StatusLabel(w) ==> v == w
  {
    if v != w {
      assert |StatusLabel(v)| != |StatusLabel(w)|;
    }
  }
}
