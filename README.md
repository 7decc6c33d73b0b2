# Seebeck-effect generator simulator — Dafny model

This project models the core of a thermoelectric generator (TEG) simulator
for the Puno region. The simulator has two parts.

The Flask backend (`backend_v2.py`) holds the physics and the daily
analysis:

- the Celsius-to-Kelvin conversion;
- the temperature-dependent Seebeck coefficient, internal resistance and
  thermal conductance of a bismuth-telluride module;
- the radiative and conductive heat losses;
- the hour-by-hour hot-side temperature of three kinds of heat source;
- the load power and the complete theoretical report of a module, with its
  50-point power-transfer curve;
- the daily energy of the SP1848 module over a record of days, where only
  the charging hours count;
- the clamped battery simulation;
- the viability rule for a device's daily need.

The browser dashboard (`app.js`) holds the state of the page:

- the two-tab switch;
- the module-preset handler;
- the two chart tables, where each chart is constructed once and then
  updated in place;
- the temperature sweep of the parameters chart and its alpha axis;
- the floor of the seasonality axis;
- the key derived from a canvas id;
- the list of device cards, which only grows.

All arithmetic is on Dafny's exact `real`. This is the real-valued maths
the code intends, not IEEE floating point. Two operations have no exact
counterpart in Dafny and are written out as their own functions:

- Python's `round` (half to even) is `RealMath.RoundDecimals`.
- JavaScript's `parseFloat(x.toFixed(d))` (half away from zero) is
  `JsNumbers.ToFixed`.

JavaScript division by zero yields `Infinity` or `NaN` (`JsNumbers.Div`).
In Python the same division raises `ZeroDivisionError`, which is modelled
as `Err(ZeroDivision)` of a `Result`.

The sine that `np.sin` computes is a parameter of type `SinePi`, a
function whose values lie in [-1, 1].

Files by module:

| file | module | models |
|---|---|---|
| thermo.dfy | Thermo | the material laws and the heat losses |
| daily_cycle.dfy | DailyCycle | `T_h_diario` |
| teg.dfy | Teg | `TEGModule`: validation, load power, the theoretical report |
| real_analysis.dfy | RealAnalysis | daily energy, battery, device viability |
| real_math.dfy | RealMath | `max`/`min`, `int()`, Python `round` |
| js_numbers.dfy | JsNumbers | JS division and `toFixed` |
| sweep.dfy | Sweep | the temperature sweep, the alpha axis, the seasonality floor |
| chart_data.dfy | ChartData | the chart key and the line-chart data |
| charts.dfy | Charts | the chart tables and the `update*Chart` functions |
| tabs.dfy | Tabs | `switchTab` |
| presets.dfy | Presets | the module-preset handler |
| devices.dfy | Devices | the device-card list |
| wrappers.dfy | Wrappers | `Option` and `Result` |

At 50 °C the formula at backend_v2.py:19 gives alpha = 0.046852 V/K;
`Sweep.AlphaExtremes` proves that the dashboard's sweep rounds it to
0.04685.

## Model

| member | source | states |
|---|---|---|
| Thermo.CelsiusToKelvin | backend_v2.py:7-10 | adds exactly 273.15; the result is non-negative iff the input is at or above absolute zero |
| Thermo.SeebeckCoefficient | backend_v2.py:13-20 | bismuth telluride: 0.045 + 0.00008 (T_K - 300); any other material: 0.05 |
| Thermo.SeebeckIncreasing | backend_v2.py:13-19 | for bismuth telluride alpha is strictly increasing in the mean temperature |
| Thermo.Resistivity | backend_v2.py:25-27 | the resistivity is positive at every temperature at or above absolute zero |
| Thermo.InternalResistance | backend_v2.py:22-32 | an error (ZeroDivisionError) exactly for bismuth telluride with zero area; 2.5 ohm for any other material |
| Thermo.InternalResistanceTimesArea | backend_v2.py:28-30 | R times the area is resistivity times thickness / 10 |
| Thermo.InternalResistancePositive | backend_v2.py:22-31 | R succeeds and is positive for a physical temperature and positive geometry |
| Thermo.InternalResistanceInverseInArea | backend_v2.py:30 | scaling the area by k > 0 divides R by k |
| Thermo.ThermalConductivity | backend_v2.py:37-40 | kappa is positive below 1300 K |
| Thermo.ThermalConductance | backend_v2.py:34-44 | an error exactly for bismuth telluride with zero thickness; 0.6 for any other material |
| Thermo.ThermalConductanceTimesThickness | backend_v2.py:41-42 | K times the thickness is kappa times the area, scaled by the unit conversions |
| Thermo.RadiationLoss | backend_v2.py:47-53 | never negative; zero when the hot side is at ambient |
| Thermo.RadiationLossUnclamped | backend_v2.py:47-53 | for T_amb <= T_h the clamp is inactive: the loss is sigma eps A (T_h^4 - T_amb^4) |
| Thermo.RadiationLossZeroBelowAmbient | backend_v2.py:47-53 | a hot side no hotter than ambient radiates nothing |
| Thermo.ConductionLoss | backend_v2.py:55-62 | never negative; zero when R_th <= 0 or T_h <= T_amb; otherwise loss times R_th is max(0, dT) |
| Thermo.TotalLoss | backend_v2.py:64-69 | the total is radiation plus conduction, and each part is non-negative and at most the total |
| DailyCycle.ComputeHotSideTemp | backend_v2.py:72-107 | the imperative T_h_diario equals the HotSideTemp profile for every source |
| DailyCycle.ResiduosLoop | backend_v2.py:96-102 | the loop over the peaks 8, 13 and 18 computes the profile ResiduosAfter over all three peaks |
| DailyCycle.FuegoOffHours | backend_v2.py:76-78 | a fire gives ambient before 6:00 and from 22:00 |
| DailyCycle.FuegoRisesLinearly | backend_v2.py:80-82 | from 6:00 to 11:00 the fire starts at ambient and changes linearly by (peak - ambient) / 5 per hour, for any ambient and peak; it stays within [ambient, peak], rising when ambient <= peak and falling otherwise |
| DailyCycle.RampUpFacts | backend_v2.py:80-82 | the ramp is monotone between ambient and peak in whichever order they come, and its slope is (peak - ambient) / 5 |
| DailyCycle.FuegoFallsLinearly | backend_v2.py:91-94 | from 15:00 to 22:00 the fire starts at the peak and changes linearly by (ambient - peak) / 7 per hour, for any ambient and peak; it stays between the two, falling when ambient <= peak and rising otherwise |
| DailyCycle.RampDownFacts | backend_v2.py:91-94 | the ramp is monotone between peak and ambient in whichever order they come, and its slope is (ambient - peak) / 7 |
| DailyCycle.LerpFacts | backend_v2.py:80-94 | linear interpolation is monotone between its ends and changes in proportion to the progress |
| DailyCycle.FuegoPlateau | backend_v2.py:84-90 | from 11:00 to 15:00 the fire stays within [peak, peak + 30] |
| DailyCycle.PeakBounds | backend_v2.py:90 | peak + 30 sin^2 lies within [peak, peak + 30] for any sine value |
| DailyCycle.ResiduosAtLeastAmbient | backend_v2.py:97-102 | the loop never brings the temperature below ambient |
| DailyCycle.ResiduosAmbientAwayFromPeaks | backend_v2.py:97-102 | at least 2 h from every peak the temperature is ambient |
| DailyCycle.ResiduosAtMostPeak | backend_v2.py:97-102 | with a non-negative peak the temperature never exceeds max(ambient, peak) |
| DailyCycle.ResiduosBounds | backend_v2.py:95-102 | waste heat is at least ambient, at most max(ambient, peak), and exactly ambient away from the peaks |
| DailyCycle.IndustrialBand | backend_v2.py:104-105 | industrial heat stays within [0.85, 1.05] times the peak |
| DailyCycle.ModulationBounds | backend_v2.py:105 | peak (0.95 + 0.1 s) lies within [0.85, 1.05] times the peak for any sine value |
| DailyCycle.OtherSourceConstant | backend_v2.py:107 | an unknown source is constantly at the peak |
| Teg.ValidateTemps | backend_v2.py:119-127 | (0, 0, 0) when T_h <= T_c; otherwise both temperatures in Kelvin and a positive dT equal to T_h - T_c |
| Teg.MeanTemp | backend_v2.py:135 | the mean temperature lies between the two temperatures |
| Teg.Current | backend_v2.py:167 | zero when R + R_L <= 0 |
| Teg.OhmsLaw | backend_v2.py:142 | with R + R_L > 0 the current times R + R_L is V_oc |
| Teg.MaxPower | backend_v2.py:166 | never negative; zero when R <= 0 |
| Teg.MatchedPower | backend_v2.py:166 | P_max times 4R is V_oc squared |
| Teg.CarnotEfficiency | backend_v2.py:174 | zero when T_h <= 0; within (0, 100] when 0 <= T_c < T_h |
| Teg.CarnotTimesHot | backend_v2.py:174 | efficiency times T_h is 100 (T_h - T_c) |
| Teg.LoadPower | backend_v2.py:129-144 | an error exactly when T_h > T_c and the area of a bismuth-telluride module is zero; otherwise non-negative; zero when T_h <= T_c |
| Teg.ClampedLoadPower | backend_v2.py:139-144 | never negative; zero when R + R_L <= 0 |
| Teg.ClampedLoadPowerFormula | backend_v2.py:139-144 | the clamped power is max(0, I^2 R_L) with I the circuit current |
| Teg.LoadPowerFormula | backend_v2.py:129-144 | for T_h > T_c the load power is max(0, (alpha dT / (R + R_L))^2 R_L) |
| Teg.LoadPowerClamped | backend_v2.py:129-144 | for T_h > T_c the load power succeeds and is the clamped power of V_oc = alpha dT and R |
| Teg.MaxPowerTransfer | backend_v2.py:166-168 | with R > 0 and R_L >= 0, I^2 R_L is at most P_max, with equality at R_L = R |
| Teg.LoadPowerAtMostMax | backend_v2.py:129-144 | for R > 0 the load power never exceeds the module's P_max, for every load resistance (a negative one gets zero from the clamp) |
| Teg.Linspace | backend_v2.py:190 | the first point is lo, the last is hi, and every point lies between them |
| Teg.DegenerateReport | backend_v2.py:150-157 | the degenerate report has all seventeen numeric fields zero, and 50 transfer points with y = 0 spanning 0.1 to 20 |
| Teg.TransferLoad | backend_v2.py:189-190 | every sampled load lies within [0.1, max(20, 2 R_L)] |
| Teg.TransferCurve | backend_v2.py:187-193 | 50 points; point k is the rounded load and 1000 times its load power, never negative |
| Teg.AssembleReport | backend_v2.py:159-185 | the report keeps the field relations: V_oc = alpha dT, I, V_load = I R_L, P_load = V_load I, P_max, Q_h, the 0.06 ratio of the efficiencies, E_load and E_max per charge hour, and the loss total |
| Teg.LoadCircuit | backend_v2.py:166-178 | P_load = V_load I, V_load = I R_L; with R > 0 and R_L >= 0 P_load is at most P_max, with equality at R_L = R |
| Teg.ReportLoadPower | backend_v2.py:129-168 | the report's P_load agrees with calcular_potencia_carga up to its clamp, is at most P_max, and reaches it at R_L = R |
| Teg.ReportCircuit | backend_v2.py:166-178 | the report's P_load is I^2 R_L and is bounded by P_max |
| Teg.TransferAtMostMax | backend_v2.py:188-193 | every point of the transfer curve is at most P_max |
| Teg.ReportEfficiency | backend_v2.py:174-176 | for 0 <= T_c < T_h the Carnot efficiency lies in (0, 100] and the module's in (0, 6] |
| Teg.TheoryComplete | backend_v2.py:146-214 | an error exactly on a division by a zero area or thickness; the degenerate report when T_h <= T_c; otherwise a report consistent with the module's laws and losses, whose 50 transfer points are the rounded loads and 1000 times the load power, and lie in [0, 1000 P_max] when R > 0 |
| RealMath.Trunc | backend_v2.py:336 | int() truncates towards zero: within 1 of x, never past it |
| RealMath.NearestEvenTie | backend_v2.py:431 | at a tie the nearest-even rounding picks the even neighbour half a unit away |
| RealMath.RoundDecimals | backend_v2.py:431 | the rounded value is a whole number of units of 10^-d within half a unit of x, and keeps the sign of non-negative x |
| RealMath.RoundPercentInRange | backend_v2.py:469 | rounding a percentage to one decimal keeps it within [0, 100] |
| RealMath.RoundHundredthsError | backend_v2.py:431 | rounding to two decimals moves a value by at most 0.005 |
| JsNumbers.Div | app.js:192 | finite with q b = a for b != 0; Infinity, -Infinity or NaN by the sign of a for b = 0 |
| JsNumbers.ToFixed | app.js:186 | the result is a whole number of units of 10^-d within half a unit of x, and non-negative for non-negative x |
| JsNumbers.ToFixedMonotone | app.js:186 | rounding keeps the order of non-negative values |
| JsNumbers.ToFixedOnGrid | app.js:186 | a value already on the 10^-d grid is unchanged |
| JsNumbers.ToFixedNumber | app.js:193 | finite values are rounded; Infinity and NaN pass through |
| Sweep.SeqMin | app.js:197 | Math.min: an element of the list and at most every element |
| Sweep.SeqMax | app.js:198 | Math.max: an element of the list and at least every element |
| Sweep.SweepTemps | app.js:182 | 9 temperatures, 50 + 25 i, from 50 to 250 |
| Sweep.AlphaMatchesBackend | app.js:185 | the dashboard's alpha formula is the backend's bismuth-telluride law |
| Sweep.AlphaVals | app.js:184-187 | each alpha value is the backend's coefficient at the swept temperature, rounded to 5 decimals |
| Sweep.AlphaValsSorted | app.js:184-187 | the alpha values rise along the sweep |
| Sweep.AlphaExtremes | app.js:197-198 | the smallest alpha is the first (0.04685) and the largest the last (0.06285) |
| Sweep.AlphaAxis | app.js:206-207 | [0.95 min, 1.05 max], which contains every value when they are non-negative |
| Sweep.SweepAxis | app.js:241-242 | the sweep's axis is [0.0445075, 0.0659925] |
| Sweep.RhoMatchesBackend | app.js:190 | the dashboard's resistivity formula is the backend's |
| Sweep.RValMatchesBackend | app.js:189-194 | with a non-zero area each R value is the backend's internal resistance rounded to 3 decimals; with a zero area the dashboard plots a non-finite value where the backend fails |
| Sweep.RVals | app.js:189-194 | 9 resistance values, one per swept temperature |
| Sweep.SeasonalityFloor | app.js:508-513 | the floor of 0.95 times the smallest monthly minimum |
| Sweep.SeasonalityFloorBelowData | app.js:508-513 | for non-negative energies the floor is non-negative and below every month's minimum |
| ChartData.ChartKey | app.js:463 | removes the prefix or leaves the id unchanged in length |
| ChartData.ChartKeyRemovesFirst | app.js:463 | the key is the id with exactly its first occurrence of "chart-" removed |
| ChartData.ChartKeyWithoutPrefix | app.js:463 | an id without "chart-" is its own key |
| ChartData.RealChartKeys | app.js:436-450 | "chart-temp", "chart-energy" and "chart-battery" map to "temp", "energy" and "battery" |
| ChartData.Field | app.js:470 | a row's field is defined iff the row has it, and then it is its value |
| ChartData.BuildLineData | app.js:465-478 | one label per row and one dataset per series, of the rows' length, with the legend, colour, translucent fill and each row's field |
| Charts.Refresh | app.js:282-285 | an update replaces the content, except that the daily-cycle chart keeps its hour labels |
| Charts.ShownWellFormed | app.js:200-248 | a create-or-update block keeps every key at exactly one construction, leaves a chart under the key, keeps an existing chart's identity and touches no other key |
| Charts.ShownRepeatedlyCreatesOnce | app.js:480-499 | after N >= 1 calls for a key its creation count is 1, its chart is the one first constructed, and the other keys are untouched |
| Charts.ChartTable.constructor | app.js:37 | the table starts with no charts and no constructions |
| Charts.ChartTable.Show | app.js:480-499 | absent canvas: no change; existing key: same chart, content refreshed; new key: one construction; afterwards the key has a chart constructed once |
| Charts.UpdateParamsTempChart | app.js:174-248 | the chart shows the sweep, the alpha and R values and the alpha axis, on both the create and the update path |
| Charts.UpdatePerdidasPieChart | app.js:252-269 | the chart shows the radiation and conduction losses |
| Charts.UpdateCicloDiarioChart | app.js:272-308 | the chart shows the hourly hot-side temperatures |
| Charts.UpdateTransferenciaChart | app.js:314-355 | the chart shows the transfer curve and the current operating point |
| Charts.UpdateRealChartWithAllData | app.js:457-499 | the chart under the key derived from the canvas id shows every row |
| Charts.UpdateSeasonalityChart | app.js:503-604 | the chart shows the months with the energy axis starting at the seasonality floor |
| Tabs.AfterSwitch | app.js:16-30 | "teorica" unhides the theory panel, hides the real one and highlights its button; anything else does the reverse and refreshes the analysis; other classes stay |
| Tabs.SwitchShowsOne | app.js:16-30 | after a switch exactly one panel is visible and exactly its button is highlighted |
| Tabs.SwitchIdempotent | app.js:16-30 | a second switch to the same tab changes no panel or button |
| Tabs.TabView.SwitchTab | app.js:16-30 | the page's tab state after the call is AfterSwitch of the state before |
| Presets.Preset | app.js:368-377 | a preset exists exactly for "sp1848" and "generico" |
| Presets.PresetsMatchBackend | app.js:368-377 | the SP1848 preset is the backend's SP1848 module and the generic preset is the module constructor's defaults |
| Presets.TheoryInputs.OnModuleChange | app.js:361-378 | both geometry inputs are disabled iff the module is not custom; a preset sets all four values; otherwise they are unchanged |
| Devices.CardOfAnalysis | app.js:641-655 | a card built from an analysis has a bar width within [0, 100] and viable days at most the total |
| Devices.CardsAfterAppends | app.js:656 | submissions only append: earlier cards stay in place, one new card per successful response |
| Devices.DeviceList.OnSubmit | app.js:656 | a response appends its card at the end; a failed request changes nothing |
| RealAnalysis.ScenarioPeak | backend_v2.py:312-313 | pesimista 80, realista 150, optimista 250, anything else 150; always within [80, 250] |
| RealAnalysis.ColdTemp | backend_v2.py:314 | "tmin" selects the daily minimum, anything else the average |
| RealAnalysis.SettingFor | backend_v2.py:312-314 | the peak is the scenario's and the other parameters pass through |
| RealAnalysis.HourPower | backend_v2.py:328-329 | an hour's power is non-negative, and zero when the hot side is not hotter than the cold side |
| RealAnalysis.DayPowers | backend_v2.py:326-329 | 24 hourly powers, each non-negative |
| RealAnalysis.DailyEnergy | backend_v2.py:318-345 | never negative; zero when T_c >= T_h_pico |
| RealAnalysis.DailyEnergyWithCycle | backend_v2.py:318-345 | the 24-hour accumulation loop computes DailyEnergy |
| RealAnalysis.PowerSumNonNegative | backend_v2.py:345 | a sum of non-negative powers is non-negative |
| RealAnalysis.WindowEnergy | backend_v2.py:326-343 | counting exactly the hours of a window sums the powers of the window |
| RealAnalysis.FireWindowEnd | backend_v2.py:335-336 | the end of the fire's charging window is 6 + int(charge_hours), and never before 6 |
| RealAnalysis.FireChargingWindow | backend_v2.py:333-339 | a fire's daily energy is the power summed over hours [6, 6 + int(charge_hours)) within the day |
| RealAnalysis.OtherWindowEnd | backend_v2.py:342 | int(charge_hours), or 0 when that is negative |
| RealAnalysis.OtherChargingWindow | backend_v2.py:340-343 | another source's daily energy is the power summed over the hours before int(charge_hours); the positive-power test drops only zero terms |
| RealAnalysis.EarlyWasteHeatPowerless | backend_v2.py:97-102 | waste heat yields no power before 7:00 |
| RealAnalysis.WasteHeatShortChargeYieldsNothing | backend_v2.py:340-343 | waste heat with int(charge_hours) <= 7 yields no energy |
| RealAnalysis.DailyEnergies | backend_v2.py:307-348 | "data not loaded" is an error; otherwise one energy per day, in order, each that day's DailyEnergy |
| RealAnalysis.LevelAfter | backend_v2.py:422-428 | the carried battery level stays within [0, capacity] |
| RealAnalysis.SimulateBattery | backend_v2.py:422-432 | one entry per day, in order, each the day's date and the unrounded carried level rounded to 2 decimals |
| RealAnalysis.BatteryHistoryBounds | backend_v2.py:428-431 | every reported level is within [0, capacity + 0.005] |
| RealAnalysis.NoSurplusStaysEmpty | backend_v2.py:425-428 | with no day's energy above the consumption the battery stays empty |
| RealAnalysis.LevelMonotoneInEnergy | backend_v2.py:425-428 | more energy on every day never lowers the level |
| RealAnalysis.UnclampedStep | backend_v2.py:427-428 | when the new level is within bounds it is the old one plus the energy minus the consumption |
| RealAnalysis.CountViable | backend_v2.py:460 | the viable days are at most the total |
| RealAnalysis.CountViableAntitone | backend_v2.py:460 | a larger need never gives more viable days |
| RealAnalysis.CountViableExtremes | backend_v2.py:460 | every day viable gives the total; none gives 0 |
| RealAnalysis.Percentage | backend_v2.py:461 | 0 with no days; otherwise pct times total is 100 times viable; within [0, 100] |
| RealAnalysis.PercentageMonotone | backend_v2.py:461 | more viable days never lower the percentage |
| RealAnalysis.Classify | backend_v2.py:462 | highly viable iff pct > 75; moderate iff 40 < pct <= 75; poorly viable iff pct <= 40 |
| RealAnalysis.ClassifyMonotone | backend_v2.py:462 | a higher percentage is never classified worse |
| RealAnalysis.StatusLabel | backend_v2.py:462 | the three status texts, emoji included |
| RealAnalysis.AnalyzeDevice | backend_v2.py:457-471 | the counts, a rounded percentage within [0, 100] (0 with no days), and the status of the unrounded percentage |
| RealAnalysis.MoreDemandingDeviceIsNoMoreViable | backend_v2.py:460-462 | a more demanding device has no more viable days, no higher percentage, and never a better status |

## Left out

- Flask routes, query-string parsing, JSON output and the catch-all 500 responses: these are framework I/O. The division errors they turn into 500 are modelled as `Err(ZeroDivision)`.
- CSV loading and the pandas operations `read_csv`, `to_datetime`, `dropna`, `apply` and `iterrows`. The record is a sequence of day records, and a record that failed to load is `None`.
- `pd.isna` checks and NaN temperatures: the day record holds only finite reals.
- The seasonality `groupby`/`quantile` aggregation and the `temp_data`/`energy_timeline` construction: these are library statistics and plain copying.
- `np.sin`: its values are a `SinePi` parameter within [-1, 1].
- IEEE floating point in both files: all numbers are exact reals, and `np.linspace` is exact.
- JsNumbers.ToFixed: rounds every finite real, also magnitudes of 10^21 and above, for which JavaScript's `toFixed` returns the number's own exponential text so that `parseFloat` gives the number back unchanged; the dashboard's values are far below that.
- In app.js, the following are left out as UI, network and rendering concerns:
  - `fetch` and `await`, including the race between out-of-order responses;
  - console logging and the lucide icons;
  - Chart.js rendering and chart options other than the alpha and energy axes;
  - the result cards, the `innerHTML` texts and the label strings;
  - registering event listeners, and the synthetic `input` events the preset handler dispatches to re-run the simulation.
- `updateRealChart` (app.js:608-612) is an empty stub and is not modelled.
- Charts.ChartContent: axis labels such as "50°C" and "6:00" are kept as the numbers they are built from.
- Presets.TheoryInputs: input values are reals rather than the strings the DOM holds.
- Devices.DeviceCard: the card keeps the report's fields rather than the HTML text built from them.
- Tabs.TabView.SwitchTab: the call to `updateReal` is recorded as a refresh count, not modelled as an analysis run.
- UpdateSeasonalityChart: requires a non-empty month list, because the backend always sends the twelve months. `Math.min` of an empty list (`Infinity`) is not modelled.
