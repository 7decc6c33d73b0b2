/** The dashboard's chart tables (chartsTeoria and chartsReal in app.js): a
    table from key to chart instance, filled in by the update functions,
    which construct a key's chart on their first call and afterwards only
    replace its data in place. */
module Charts {
  import opened JsNumbers
  import opened Sweep
  import opened ChartData

  /** A point of a scatter or line chart. */
  datatype Point = Point(x: real, y: real)

  /** One month of the seasonality box plot. */
  datatype MonthStats = MonthStats(month: string, minEnergy: real, q1Energy: real, medianEnergy: real,
                                   q3Energy: real, maxEnergy: real)

  /** What a chart shows, per kind of chart. */
  datatype ChartContent =
    | ParamsTemp(temps: seq<int>, alphas: seq<real>, rs: seq<JsNumber>, axis: Axis)
    | Doughnut(radiation: real, conduction: real)
    | HourlyTemps(hours: seq<int>, hotSide: seq<real>)
    | Transfer(curve: seq<Point>, current: Point)
    | Lines(data: LineData)
    | Boxes(months: seq<MonthStats>, yMin: int)

  /** A constructed chart: the serial number of its construction and what it
      currently shows. */
  datatype Chart = Chart(serial: nat, content: ChartContent)

  /** What an update leaves on an existing chart: the new content, except
      that the daily-cycle chart keeps the hour labels it was constructed
      with and replaces only the temperatures. */
  function Refresh(current: ChartContent, next: ChartContent): (c: ChartContent)
    ensures !next.HourlyTemps? ==> c == next
    ensures next.HourlyTemps? && current.HourlyTemps? ==> c == HourlyTemps(current.hours, next.hotSide)
    ensures next.HourlyTemps? && !current.HourlyTemps? ==> c == next
  {
    if current.HourlyTemps? && next.HourlyTemps? then HourlyTemps(current.hours, next.hotSide) else next
  }

  /** A snapshot of a table: the charts by key, how many charts were
      constructed per key, and the number of charts constructed so far,
      which is also the next serial number. */
  datatype TableState = TableState(charts: map<string, Chart>, created: map<string, nat>, nextSerial: nat)

  /** The number of charts constructed under a key. */
  function CreatedCount(t: TableState, key: string): nat
  {
    if key in t.created then t.created[key] else 0
  }

  /** Every key with a chart had exactly one constructed, every other key
      none. */
  ghost predicate CountsMatch(t: TableState)
  {
    forall k :: CreatedCount(t, k) == (if k in t.charts then 1 else 0)
  }

  /** Every serial was issued before n. */
  ghost predicate SerialsBelow(charts: map<string, Chart>, n: nat)
  {
    forall k :: k in charts ==> charts[k].serial < n
  }

  /** No two keys share a chart serial. */
  ghost predicate SerialsDistinct(charts: map<string, Chart>)
  {
    forall k1, k2 :: k1 in charts && k2 in charts && k1 != k2 ==> charts[k1].serial != charts[k2].serial
  }

  /** Every key with a chart had exactly one constructed and every other key
      none; as many keys as charts constructed, with distinct serials
      already issued. */
  ghost predicate WellFormed(t: TableState)
  {
    && CountsMatch(t)
    && |t.charts| == t.nextSerial
    && SerialsBelow(t.charts, t.nextSerial)
    && SerialsDistinct(t.charts)
  }

  /** One create-or-update block: nothing when the canvas is absent;
      otherwise the key's chart is refreshed in place, or constructed when
      the key has none yet. */
  function Shown(t: TableState, key: string, canvasPresent: bool, content: ChartContent): (u: TableState)
    ensures !canvasPresent ==> u == t
    ensures canvasPresent && key in t.charts ==>
              u == TableState(t.charts[key := Chart(t.charts[key].serial, Refresh(t.charts[key].content, content))],
                              t.created, t.nextSerial)
    ensures canvasPresent && key !in t.charts ==>
              u == TableState(t.charts[key := Chart(t.nextSerial, content)],
                              t.created[key := CreatedCount(t, key) + 1], t.nextSerial + 1)
  {
    if !canvasPresent then t
    else if key in t.charts then
      var c := t.charts[key];
      TableState(t.charts[key := Chart(c.serial, Refresh(c.content, content))], t.created, t.nextSerial)
    else
      TableState(t.charts[key := Chart(t.nextSerial, content)], t.created[key := CreatedCount(t, key) + 1],
                 t.nextSerial + 1)
  }

  /** A create-or-update block keeps the table well formed, leaves a chart
      under the key, keeps the serial of an existing one, and touches no
      other key. */
  lemma ShownWellFormed(t: TableState, key: string, canvasPresent: bool, content: ChartContent)
    requires WellFormed(t)
    ensures WellFormed(Shown(t, key, canvasPresent, content))
    ensures canvasPresent ==> key in Shown(t, key, canvasPresent, content).charts
    ensures canvasPresent ==> CreatedCount(Shown(t, key, canvasPresent, content), key) == 1
    ensures canvasPresent && key in t.charts ==> Shown(t, key, canvasPresent, content).charts[key].serial == t.charts[key].serial
    ensures forall k :: k != key && k in t.charts ==>
              (k in Shown(t, key, canvasPresent, content).charts && Shown(t, key, canvasPresent, content).charts[k] == t.charts[k])
  {
    if canvasPresent {
      if key in t.charts {
        RefreshedWellFormed(t, key, content);
      } else {
        ConstructedWellFormed(t, key, content);
      }
    }
  }

  /** Refreshing an existing chart keeps its serial and the key set. */
  lemma RefreshedWellFormed(t: TableState, key: string, content: ChartContent)
    requires WellFormed(t) && key in t.charts
    ensures WellFormed(Shown(t, key, true, content))
    ensures CreatedCount(Shown(t, key, true, content), key) == 1
  {
    var u := Shown(t, key, true, content);
    assert u.charts.Keys == t.charts.Keys;
    forall k
      ensures CreatedCount(u, k) == (if k in u.charts then 1 else 0)
    {
      assert CreatedCount(u, k) == CreatedCount(t, k);
    }
    forall k | k in u.charts
      ensures u.charts[k].serial == t.charts[k].serial
    {
    }
  }

  /** Constructing a chart adds one key with the next serial. */
  lemma ConstructedWellFormed(t: TableState, key: string, content: ChartContent)
    requires WellFormed(t) && key !in t.charts
    ensures WellFormed(Shown(t, key, true, content))
    ensures CreatedCount(Shown(t, key, true, content), key) == 1
  {
    var u := Shown(t, key, true, content);
    assert u.charts == t.charts[key := Chart(t.nextSerial, content)];
    ConstructedCounts(t, key, content);
    InsertedSerials(t.charts, key, Chart(t.nextSerial, content), t.nextSerial);
    assert u.charts.Keys == t.charts.Keys + {key};
    assert |u.charts| == |t.charts| + 1;
  }

  /** The construction counts of a newly constructed key. */
  lemma ConstructedCounts(t: TableState, key: string, content: ChartContent)
    requires CountsMatch(t) && key !in t.charts
    ensures CountsMatch(Shown(t, key, true, content))
    ensures CreatedCount(Shown(t, key, true, content), key) == 1
  {
    var u := Shown(t, key, true, content);
    assert u.created == t.created[key := 1];
    forall k
      ensures CreatedCount(u, k) == (if k in u.charts then 1 else 0)
    {
      if k != key {
        assert CreatedCount(u, k) == CreatedCount(t, k);
      }
    }
  }

  /** Inserting a chart with serial n under a new key keeps the serials
      distinct and below n + 1. */
  lemma InsertedSerials(charts: map<string, Chart>, key: string, c: Chart, n: nat)
    requires key !in charts && c.serial == n
    requires SerialsBelow(charts, n) && SerialsDistinct(charts)
    ensures SerialsBelow(charts[key := c], n + 1) && SerialsDistinct(charts[key := c])
  {
  }

  /** Calling the same block repeatedly, with the canvas present. */
  function ShownRepeatedly(t: TableState, key: string, contents: seq<ChartContent>): TableState
    decreases |contents|
  {
    if |contents| == 0 then t
    else ShownRepeatedly(Shown(t, key, true, contents[0]), key, contents[1..])
  }

  /** After N >= 1 calls the key has a chart and its creation count is 1: the
      chart is the one the first call constructed (or that was already
      there), no other chart was constructed, and the other keys are
      untouched. */
  lemma {:induction false} ShownRepeatedlyCreatesOnce(t: TableState, key: string, contents: seq<ChartContent>)
    requires WellFormed(t) && |contents| >= 1
    ensures WellFormed(ShownRepeatedly(t, key, contents))
    ensures key in ShownRepeatedly(t, key, contents).charts
    ensures CreatedCount(ShownRepeatedly(t, key, contents), key) == 1
    ensures ShownRepeatedly(t, key, contents).charts[key].serial ==
              (if key in t.charts then t.charts[key].serial else t.nextSerial)
    ensures ShownRepeatedly(t, key, contents).nextSerial == (if key in t.charts then t.nextSerial else t.nextSerial + 1)
    ensures forall k :: k != key && k in t.charts ==>
              (k in ShownRepeatedly(t, key, contents).charts && ShownRepeatedly(t, key, contents).charts[k] == t.charts[k])
    decreases |contents|
  {
    var t1 := Shown(t, key, true, contents[0]);
    ShownWellFormed(t, key, true, contents[0]);
    assert t1.charts[key].serial == (if key in t.charts then t.charts[key].serial else t.nextSerial);
    if |contents| > 1 {
      ShownRepeatedlyCreatesOnce(t1, key, contents[1..]);
    }
  }

  /** A chart table, mutated in place by the update functions. */
  class ChartTable {
    var charts: map<string, Chart>
    var created: map<string, nat>
    var nextSerial: nat

    function State(): TableState
      reads this
    {
      TableState(charts, created, nextSerial)
    }

    ghost predicate Valid()
      reads this
    {
      WellFormed(State())
    }

    /** The table as the page creates it: every key null. */
    constructor ()
      ensures Valid()
      ensures charts == map[] && created == map[] && nextSerial == 0
    {
      charts := map[];
      created := map[];
      nextSerial := 0;
    }

    /** One create-or-update block of an update*Chart function. */
    method Show(key: string, canvasPresent: bool, content: ChartContent)
      requires Valid()
      modifies this
      ensures Valid()
      ensures State() == Shown(old(State()), key, canvasPresent, content)
      ensures canvasPresent ==> key in charts && CreatedCount(State(), key) == 1
    {
      ghost var target := Shown(State(), key, canvasPresent, content);
      ShownWellFormed(State(), key, canvasPresent, content);
      if !canvasPresent {
        return;
      }
      if key in charts {
        var c := charts[key];
        charts := charts[key := Chart(c.serial, Refresh(c.content, content))];
      } else {
        created := created[key := CreatedCount(State(), key) + 1];
        charts := charts[key := Chart(nextSerial, content)];
        nextSerial := nextSerial + 1;
      }
      assert State() == target;
    }
  }

  /** updateParamsTempChart: the alpha and R sweep for the module's current
      geometry, with the alpha axis set from the sweep's extremes. */
  method UpdateParamsTempChart(table: ChartTable, canvasPresent: bool, areaCm2: real, espesorMm: real)
    requires table.Valid()
    modifies table
    ensures table.Valid()
    ensures table.State() ==
              Shown(old(table.State()), "paramsTemp", canvasPresent,
                    ParamsTemp(SweepTemps(), AlphaVals(), RVals(espesorMm, areaCm2), AlphaAxis(AlphaVals())))
  {
    if !canvasPresent {
      return;
    }
    var temps := SweepTemps();
    var alphaVals := AlphaVals();
    var rVals := RVals(espesorMm, areaCm2);
    var axis := AlphaAxis(alphaVals);
    table.Show("paramsTemp", true, ParamsTemp(temps, alphaVals, rVals, axis));
  }

  /** updatePerdidasPieChart: the radiation and conduction losses. */
  method UpdatePerdidasPieChart(table: ChartTable, canvasPresent: bool, rad: real, cond: real)
    requires table.Valid()
    modifies table
    ensures table.Valid()
    ensures table.State() == Shown(old(table.State()), "perdidasPie", canvasPresent, Doughnut(rad, cond))
  {
    table.Show("perdidasPie", canvasPresent, Doughnut(rad, cond));
  }

  /** updateCicloDiarioChart once the daily-cycle response has arrived (a
      failed request changes nothing). */
  method UpdateCicloDiarioChart(table: ChartTable, canvasPresent: bool, hours: seq<int>, hotSide: seq<real>)
    requires table.Valid()
    modifies table
    ensures table.Valid()
    ensures table.State() == Shown(old(table.State()), "cicloDiario", canvasPresent, HourlyTemps(hours, hotSide))
  {
    table.Show("cicloDiario", canvasPresent, HourlyTemps(hours, hotSide));
  }

  /** updateTransferenciaChart: the power-transfer curve and the current
      operating point. */
  method UpdateTransferenciaChart(table: ChartTable, canvasPresent: bool, curve: seq<Point>, current: Point)
    requires table.Valid()
    modifies table
    ensures table.Valid()
    ensures table.State() == Shown(old(table.State()), "transferencia", canvasPresent, Transfer(curve, current))
  {
    table.Show("transferencia", canvasPresent, Transfer(curve, current));
  }

  /** updateRealChartWithAllData: the chart of the key derived from the
      canvas id, showing every row. */
  method UpdateRealChartWithAllData(table: ChartTable, canvasPresent: bool, canvasId: string,
                                    rows: seq<Row>, specs: seq<SeriesSpec>)
    requires table.Valid()
    modifies table
    ensures table.Valid()
    ensures table.State() ==
              Shown(old(table.State()), ChartKey(canvasId), canvasPresent, Lines(BuildLineData(rows, specs)))
  {
    if !canvasPresent {
      return;
    }
    var chartKey := ChartKey(canvasId);
    var chartData := BuildLineData(rows, specs);
    table.Show(chartKey, true, Lines(chartData));
  }

  /** updateSeasonalityChart: the monthly boxes, with the energy axis
      starting at the seasonality floor. */
  method UpdateSeasonalityChart(table: ChartTable, canvasPresent: bool, months: seq<MonthStats>)
    requires |months| > 0
    requires table.Valid()
    modifies table
    ensures table.Valid()
    ensures table.State() ==
              Shown(old(table.State()), "seasonality", canvasPresent,
                    Boxes(months, SeasonalityFloor(seq(|months|, i requires 0 <= i < |months| => months[i].minEnergy))))
  {
    if !canvasPresent {
      return;
    }
    var allMinValues := seq(|months|, i requires 0 <= i < |months| => months[i].minEnergy);
    var yAxisMin := SeasonalityFloor(allMinValues);
    table.Show("seasonality", true, Boxes(months, yAxisMin));
  }
}
