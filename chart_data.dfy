/** The data side of updateRealChartWithAllData (app.js): the chart key
    derived from the canvas id and the line-chart data built from the rows
    the backend sends. */
module ChartData {
  import opened Wrappers

  const CanvasPrefix: string := "chart-"

  /** The canvas prefix starts at position i of s. */
  predicate OccursAt(s: string, i: nat)
  {
    i + |CanvasPrefix| <= |s| && s[i..i + |CanvasPrefix|] == CanvasPrefix
  }

  /** canvasId.replace('chart-', ''): the first occurrence of the prefix
      removed, the id unchanged when there is none. */
  function ChartKey(canvasId: string): (key: string)
    ensures |key| == |canvasId| || |key| + |CanvasPrefix| == |canvasId|
    decreases |canvasId|
  {
    if |canvasId| < |CanvasPrefix| then canvasId
    else if canvasId[..|CanvasPrefix|] == CanvasPrefix then canvasId[|CanvasPrefix|..]
    else [canvasId[0]] + ChartKey(canvasId[1..])
  }

  /** The key removes exactly the first occurrence of the prefix. */
  lemma {:induction false} ChartKeyRemovesFirst(canvasId: string, i: nat)
    requires OccursAt(canvasId, i)
    requires forall j :: 0 <= j < i ==> !OccursAt(canvasId, j)
    ensures ChartKey(canvasId) == canvasId[..i] + canvasId[i + |CanvasPrefix|..]
    decreases i
  {
    if i == 0 {
      assert canvasId[..|CanvasPrefix|] == CanvasPrefix;
    } else {
      assert !OccursAt(canvasId, 0);
      assert canvasId[..|CanvasPrefix|] != CanvasPrefix;
      var rest := canvasId[1..];
      OccursAtTail(canvasId, i - 1);
      forall j | 0 <= j < i - 1
        ensures !OccursAt(rest, j)
      {
        OccursAtTail(canvasId, j);
      }
      ChartKeyRemovesFirst(rest, i - 1);
      assert ChartKey(canvasId) == [canvasId[0]] + ChartKey(rest);
      assert canvasId[..i] == [canvasId[0]] + rest[..i - 1];
      assert canvasId[i + |CanvasPrefix|..] == rest[i - 1 + |CanvasPrefix|..];
    }
  }

  /** The prefix occurs at j in the tail of s exactly when it occurs at j + 1
      in s. */
  lemma OccursAtTail(s: string, j: nat)
    requires |s| >= 1
    ensures OccursAt(s[1..], j) <==> OccursAt(s, j + 1)
  {
    if j + 1 + |CanvasPrefix| <= |s| {
      assert s[1..][j..j + |CanvasPrefix|] == s[j + 1..j + 1 + |CanvasPrefix|];
    }
  }

  /** An id without the prefix is its own key. */
  lemma {:induction false} ChartKeyWithoutPrefix(canvasId: string)
    requires forall j :: 0 <= j <= |canvasId| ==> !OccursAt(canvasId, j)
    ensures ChartKey(canvasId) == canvasId
    decreases |canvasId|
  {
    if |canvasId| >= |CanvasPrefix| {
      assert !OccursAt(canvasId, 0);
      var rest := canvasId[1..];
      forall j | 0 <= j <= |rest|
        ensures !OccursAt(rest, j)
      {
        OccursAtTail(canvasId, j);
      }
      ChartKeyWithoutPrefix(rest);
      assert canvasId == [canvasId[0]] + rest;
    }
  }

  /** The three canvases drawn this way map to the keys of the real-data
      chart table. */
  lemma RealChartKeys()
    ensures ChartKey("chart-temp") == "temp"
    ensures ChartKey("chart-energy") == "energy"
    ensures ChartKey("chart-battery") == "battery"
  {
    assert "chart-temp"[..|CanvasPrefix|] == CanvasPrefix;
    assert "chart-energy"[..|CanvasPrefix|] == CanvasPrefix;
    assert "chart-battery"[..|CanvasPrefix|] == CanvasPrefix;
  }

  /** A row of the backend's series: its date and its named numeric fields. */
  datatype Row = Row(date: string, fields: map<string, real>)

  /** d[key]: undefined when the row has no such field. */
  function Field(row: Row, key: string): (v: Option<real>)
    ensures v.Some? <==> key in row.fields
    ensures v.Some? ==> v.value == row.fields[key]
  {
    if key in row.fields then Some(row.fields[key]) else None
  }

  /** One requested series: legend label, colour and the field to plot. */
  datatype SeriesSpec = SeriesSpec(legend: string, color: string, key: string)

  datatype Dataset = Dataset(legend: string, data: seq<Option<real>>, borderColor: string, backgroundColor: string)

  datatype LineData = LineData(labels: seq<string>, datasets: seq<Dataset>)

  /** The chartData of updateRealChartWithAllData: the dates as labels and
      one dataset per requested series, with a translucent fill of the same
      colour. */
  function BuildLineData(rows: seq<Row>, specs: seq<SeriesSpec>): (c: LineData)
    ensures |c.labels| == |rows| && |c.datasets| == |specs|
    ensures forall i :: 0 <= i < |rows| ==> c.labels[i] == rows[i].date
    ensures forall k :: 0 <= k < |specs| ==>
              c.datasets[k].legend == specs[k].legend &&
              c.datasets[k].borderColor == specs[k].color &&
              c.datasets[k].backgroundColor == specs[k].color + "33" &&
              |c.datasets[k].data| == |rows|
    ensures forall k, i :: 0 <= k < |specs| && 0 <= i < |rows| ==>
              c.datasets[k].data[i] == Field(rows[i], specs[k].key)
  {
    var labels := seq(|rows|, i requires 0 <= i < |rows| => rows[i].date);
    var datasets := seq(|specs|, k requires 0 <= k < |specs| =>
                          Dataset(specs[k].legend,
                                  seq(|rows|, i requires 0 <= i < |rows| => Field(rows[i], specs[k].key)),
                                  specs[k].color,
                                  specs[k].color + "33"));
    LineData(labels, datasets)
  }
}
