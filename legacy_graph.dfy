/** The older graph state holder of src/Graph.ts: statistics from the older engine, fixed marker
    sizes, and a maxLogAxis that rounds up to 5 or 10 times a power of ten on the log scale.  Its
    getLogAxisRange is the same code as the newer one's and is modelled once, by
    Graph.GetLogAxisRange. */
module LegacyGraph {
  import opened Wrappers
  import opened JsNumber
  import opened DataSource
  import opened LegacyStats
  import Graph

  /** log10(5), the threshold and offset maxLogAxis uses. */
  const LogFive: real := 0.69897

  /** maxLogAxis on log = log10(maxValue): the next point up among p + log10(5) and p + 1, with
      p the integer part of log. */
  function MaxLogAxis(log: real): (top: real)
    ensures top > log
    ensures top == Trunc(log) as real + LogFive || top == Trunc(log) as real + 1.0
    ensures log >= 0.0 ==> top - log <= LogFive
  {
    var power10 := Trunc(log) as real;
    if log - power10 < LogFive then power10 + LogFive else power10 + 1.0
  }

  /** For values of at least one, a larger maximum never gets a lower axis top. */
  lemma MaxLogAxisMonotone(a: real, b: real)
    requires 0.0 <= a <= b
    ensures MaxLogAxis(a) <= MaxLogAxis(b)
  {
    var p, q := Trunc(a), Trunc(b);
    assert p <= q;
    if p < q {
      assert p as real + 1.0 <= q as real;
    }
  }

  class GraphBase {
    const casesAveraging: nat
    const deathsAveraging: nat
    const activeWindow: nat

    var rawData: Option<CountryData>
    var stats: Option<LegacyStatsT>
    var colors: seq<Graph.Color>
    var dateLabels: seq<Graph.Label>
    var markerSize: seq<int>

    /** The display arrays are those derived from s. */
    predicate ShowsStats(s: LegacyStatsT)
      reads this
    {
      && colors == Graph.Colors(s.r)
      && dateLabels == Graph.DateLabels(s.rawData.dates, activeWindow)
      && markerSize == Graph.MarkerSizes(|s.active|, 20, 10)
    }

    /** The display arrays follow the last statistics computed, which may be older than rawData:
        setRawData does not recompute them. */
    predicate Consistent()
      reads this
    {
      && casesAveraging >= 1 && deathsAveraging >= 1
      && (stats.Some? ==> rawData.Some? && ShowsStats(stats.value))
      && (stats.None? ==> colors == [] && dateLabels == [] && markerSize == [])
    }

    constructor(casesAveraging: nat, deathsAveraging: nat, activeWindow: nat)
      requires casesAveraging >= 1 && deathsAveraging >= 1
      ensures Consistent() && rawData.None? && stats.None?
      ensures this.casesAveraging == casesAveraging && this.deathsAveraging == deathsAveraging
      ensures this.activeWindow == activeWindow
    {
      this.casesAveraging := casesAveraging;
      this.deathsAveraging := deathsAveraging;
      this.activeWindow := activeWindow;
      rawData := None;
      stats := None;
      colors := [];
      dateLabels := [];
      markerSize := [];
    }

    /** setRawData: stores the data and nothing else. */
    method SetRawData(rawData: CountryData)
      requires Consistent()
      modifies this
      ensures Consistent()
      ensures this.rawData == Some(rawData)
      ensures stats == old(stats) && colors == old(colors) && dateLabels == old(dateLabels) && markerSize == old(markerSize)
    {
      this.rawData := Some(rawData);
    }

    /** calcStats: nothing without data; otherwise the older statistics of the data and the display
        arrays derived from them. */
    method CalcStats()
      requires Consistent()
      modifies this
      ensures Consistent()
      ensures old(rawData).None? ==> unchanged(this)
      ensures rawData == old(rawData)
      ensures rawData.Some? ==>
        stats == Some(GetStats(rawData.value, casesAveraging, deathsAveraging, activeWindow)) &&
        ShowsStats(stats.value)
    {
      if rawData.Some? {
        var s := GetStats(rawData.value, casesAveraging, deathsAveraging, activeWindow);
        stats := Some(s);
        SetColors(s);
        SetDateLabels(s);
        SetMarkerSize(s);
      }
    }

    method SetColors(s: LegacyStatsT)
      modifies this
      ensures colors == Graph.Colors(s.r)
      ensures rawData == old(rawData) && stats == old(stats)
      ensures dateLabels == old(dateLabels) && markerSize == old(markerSize)
    {
      colors := Graph.Colors(s.r);
    }

    method SetDateLabels(s: LegacyStatsT)
      modifies this
      ensures dateLabels == Graph.DateLabels(s.rawData.dates, activeWindow)
      ensures rawData == old(rawData) && stats == old(stats)
      ensures colors == old(colors) && markerSize == old(markerSize)
    {
      dateLabels := Graph.DateLabels(s.rawData.dates, activeWindow);
    }

    /** setMarkerSize: 20 for the first point, 10 for the others. */
    method SetMarkerSize(s: LegacyStatsT)
      modifies this
      ensures markerSize == Graph.MarkerSizes(|s.active|, 20, 10)
      ensures rawData == old(rawData) && stats == old(stats)
      ensures colors == old(colors) && dateLabels == old(dateLabels)
    {
      markerSize := Graph.MarkerSizes(|s.active|, 20, 10);
    }
  }
}
