/** The statistics engine of src/graph/stats.ts: smoothed cases, the clamped
    active-case estimate, smoothed deaths, the reproduction number R, their
    extrema and the per-country default view; and the linear projection. */
module Stats {
  import opened Wrappers
  import opened JsNumber
  import opened DataSource
  import opened RollingWindow

  /** stats_t. */
  datatype StatsT = StatsT(
    rawData: CountryData,
    cases: seq<real>,
    active: seq<real>,
    rollingDeaths: seq<real>,
    r: seq<Num>,
    activeMin: Num,
    activeMax: Num,
    rollingDeathsMin: Num,
    rollingDeathsMax: Num,
    defaultView: Option<DefaultView>)

  /** `_.map(xs, i => i < 1 ? 0 : i)`: less than one active case counts as none. */
  function ClampActive(s: seq<real>): seq<real>
  {
    seq(|s|, k requires 0 <= k < |s| => if s[k] < 1.0 then 0.0 else s[k])
  }

  /** `Math.min(...s)`: +Infinity for an empty list, otherwise the least element. */
  function MinOf(s: seq<real>): (m: Num)
    ensures s == [] <==> m == PosInf
    ensures s != [] ==> m.Finite? && exists k :: 0 <= k < |s| && m.v == s[k]
    ensures forall k :: 0 <= k < |s| ==> Le(m, Finite(s[k]))
  {
    if s == [] then PosInf else Min(MinOf(s[..|s| - 1]), Finite(s[|s| - 1]))
  }

  /** `Math.max(...s)`: -Infinity for an empty list, otherwise the greatest element. */
  function MaxOf(s: seq<real>): (m: Num)
    ensures s == [] <==> m == NegInf
    ensures s != [] ==> m.Finite? && exists k :: 0 <= k < |s| && m.v == s[k]
    ensures forall k :: 0 <= k < |s| ==> Le(Finite(s[k]), m)
  {
    if s == [] then NegInf else Max(MaxOf(s[..|s| - 1]), Finite(s[|s| - 1]))
  }

  /** The number of R values: the loop runs while i < cases.length - activeWindow - 1. */
  function RLength(cases: seq<real>, activeWindow: nat): nat
  {
    if |cases| > activeWindow + 1 then |cases| - activeWindow - 1 else 0
  }

  /** One value of R: activeWindow * cases / active, non-finite when active is zero. */
  function RAt(activeWindow: nat, cases: real, active: real): Num
  {
    Div(activeWindow as real * cases, active)
  }

  /** R at day i: activeWindow * cases[i] / active[i + 1], one step of look-ahead into active. */
  function RSeries(cases: seq<real>, active: seq<real>, activeWindow: nat): seq<Num>
    requires RLength(cases, activeWindow) == 0 || RLength(cases, activeWindow) < |active|
  {
    seq(RLength(cases, activeWindow), i requires 0 <= i < RLength(cases, activeWindow) =>
      RAt(activeWindow, cases[i], active[i + 1]))
  }

  /** `defaultViews.get(displayName)`. */
  function LookupView(views: map<string, DefaultView>, name: string): Option<DefaultView>
  {
    if name in views then Some(views[name]) else None
  }

  /** The statistics getStats computes, stated with the brute-force rolling sums. */
  function StatsOf(raw: CountryData, casesAveraging: nat, deathsAveraging: nat, activeWindow: nat,
                   views: map<string, DefaultView>): StatsT
    requires casesAveraging >= 1 && deathsAveraging >= 1
  {
    var cases := Rolling(raw.cases, casesAveraging, casesAveraging as real);
    var active := ClampActive(Rolling(cases, activeWindow, 1.0));
    var rollingDeaths := Rolling(raw.deaths, deathsAveraging, deathsAveraging as real);
    StatsT(raw, cases, active, rollingDeaths, RSeries(cases, active, activeWindow),
           MinOf(active), MaxOf(active), MinOf(rollingDeaths), MaxOf(rollingDeaths),
           LookupView(views, raw.displayName))
  }

  /** getStats: three rolling series, then R built by an index loop. */
  method GetStats(raw: CountryData, casesAveraging: nat, deathsAveraging: nat, activeWindow: nat,
                  views: map<string, DefaultView>) returns (stats: StatsT)
    requires casesAveraging >= 1 && deathsAveraging >= 1
    ensures stats == StatsOf(raw, casesAveraging, deathsAveraging, activeWindow, views)
    ensures |stats.r| == RLength(stats.cases, activeWindow)
    ensures forall k :: 0 <= k < |stats.active| ==>
      Le(stats.activeMin, Finite(stats.active[k])) && Le(Finite(stats.active[k]), stats.activeMax)
    ensures forall k :: 0 <= k < |stats.rollingDeaths| ==>
      Le(stats.rollingDeathsMin, Finite(stats.rollingDeaths[k])) &&
      Le(Finite(stats.rollingDeaths[k]), stats.rollingDeathsMax)
  {
    var cases := GetRolling(raw.cases, casesAveraging, casesAveraging as real);
    var rawActive := GetRolling(cases, activeWindow, 1.0);
    var active := ClampActive(rawActive);
    assert |active| == |rawActive|;
    var rollingDeaths := GetRolling(raw.deaths, deathsAveraging, deathsAveraging as real);
    var r: seq<Num> := [];
    var i := 0;
    while i < |cases| - activeWindow - 1
      invariant 0 <= i && (i == 0 || i <= |cases| - activeWindow - 1)
      invariant |r| == i
      invariant forall k :: 0 <= k < i ==> r[k] == RAt(activeWindow, cases[k], active[k + 1])
    {
      r := r + [RAt(activeWindow, cases[i], active[i + 1])];
      i := i + 1;
    }
    assert r == RSeries(cases, active, activeWindow);
    stats := StatsT(raw, cases, active, rollingDeaths, r,
                    MinOf(active), MaxOf(active), MinOf(rollingDeaths), MaxOf(rollingDeaths),
                    LookupView(views, raw.displayName));
  }

  /** The lengths of the series: each rolling window shortens its input by window - 1 (or empties
      it), and R is two shorter than active. */
  lemma StatsLengths(raw: CountryData, casesAveraging: nat, deathsAveraging: nat, activeWindow: nat,
                     views: map<string, DefaultView>)
    requires casesAveraging >= 1 && deathsAveraging >= 1
    ensures var s := StatsOf(raw, casesAveraging, deathsAveraging, activeWindow, views);
      && |s.cases| == (if casesAveraging <= |raw.cases| then |raw.cases| - casesAveraging + 1 else 0)
      && |s.active| == (if activeWindow <= |s.cases| then |s.cases| - activeWindow + 1 else 0)
      && |s.rollingDeaths| == (if deathsAveraging <= |raw.deaths| then |raw.deaths| - deathsAveraging + 1 else 0)
      && |s.r| == (if |s.active| >= 2 then |s.active| - 2 else 0)
  {
  }

  /** Every active value is either zero or at least one; values of one or more are the rolling sum. */
  lemma ActiveClamped(raw: CountryData, casesAveraging: nat, deathsAveraging: nat, activeWindow: nat,
                      views: map<string, DefaultView>)
    requires casesAveraging >= 1 && deathsAveraging >= 1
    ensures var s := StatsOf(raw, casesAveraging, deathsAveraging, activeWindow, views);
      var sums := Rolling(s.cases, activeWindow, 1.0);
      && |s.active| == |sums|
      && forall k :: 0 <= k < |s.active| ==>
           (s.active[k] == 0.0 || s.active[k] >= 1.0) && (sums[k] >= 1.0 ==> s.active[k] == sums[k])
  {
  }

  /** R reads active one step ahead, which is always in range, and is finite exactly where that
      active value is at least one. */
  lemma RLookAhead(raw: CountryData, casesAveraging: nat, deathsAveraging: nat, activeWindow: nat,
                   views: map<string, DefaultView>, i: nat)
    requires casesAveraging >= 1 && deathsAveraging >= 1
    requires i < |StatsOf(raw, casesAveraging, deathsAveraging, activeWindow, views).r|
    ensures var s := StatsOf(raw, casesAveraging, deathsAveraging, activeWindow, views);
      && i + 1 < |s.active|
      && (s.r[i].Finite? <==> s.active[i + 1] >= 1.0)
      && (s.active[i + 1] >= 1.0 ==> s.r[i] == Finite(activeWindow as real * s.cases[i] / s.active[i + 1]))
  {
    var s := StatsOf(raw, casesAveraging, deathsAveraging, activeWindow, views);
    var sums := Rolling(s.cases, activeWindow, 1.0);
    assert s.active == ClampActive(sums);
    assert |s.r| == RLength(s.cases, activeWindow);
    assert |sums| == |s.cases| - activeWindow + 1;
    assert s.r[i] == RAt(activeWindow, s.cases[i], s.active[i + 1]);
    assert s.active[i + 1] == if sums[i + 1] < 1.0 then 0.0 else sums[i + 1];
  }

  /** With a constant daily count c whose active-window total is at least one, the smoothed cases
      are c, the active estimate is activeWindow * c everywhere, and R is exactly 1. */
  lemma ConstantSeries(raw: CountryData, c: real, casesAveraging: nat, deathsAveraging: nat,
                        activeWindow: nat, views: map<string, DefaultView>)
    requires casesAveraging >= 1 && deathsAveraging >= 1
    requires forall k :: 0 <= k < |raw.cases| ==> raw.cases[k] == c
    requires activeWindow as real * c >= 1.0
    ensures var s := StatsOf(raw, casesAveraging, deathsAveraging, activeWindow, views);
      && (forall k :: 0 <= k < |s.cases| ==> s.cases[k] == c)
      && (forall k :: 0 <= k < |s.active| ==> s.active[k] == activeWindow as real * c)
      && (forall i :: 0 <= i < |s.r| ==> s.r[i] == Finite(1.0))
  {
    var s := StatsOf(raw, casesAveraging, deathsAveraging, activeWindow, views);
    RollingAverageConstant(raw.cases, c, casesAveraging, casesAveraging as real);
    var sums := Rolling(s.cases, activeWindow, 1.0);
    RollingSumConstant(s.cases, c, activeWindow);
    ClampAboveOne(sums, activeWindow as real * c);
    StatsLengths(raw, casesAveraging, deathsAveraging, activeWindow, views);
    ConstantR(s.cases, s.active, activeWindow, c);
  }

  /** Clamping leaves a series whose every value is at least one as it is. */
  lemma ClampAboveOne(s: seq<real>, x: real)
    requires x >= 1.0
    requires forall k :: 0 <= k < |s| ==> s[k] == x
    ensures forall k :: 0 <= k < |ClampActive(s)| ==> ClampActive(s)[k] == x
  {
  }

  /** R over constant smoothed cases c and constant active activeWindow * c is 1 everywhere. */
  lemma ConstantR(cases: seq<real>, active: seq<real>, activeWindow: nat, c: real)
    requires RLength(cases, activeWindow) == 0 || RLength(cases, activeWindow) < |active|
    requires activeWindow as real * c >= 1.0
    requires forall k :: 0 <= k < |cases| ==> cases[k] == c
    requires forall k :: 0 <= k < |active| ==> active[k] == activeWindow as real * c
    ensures forall i :: 0 <= i < |RSeries(cases, active, activeWindow)| ==>
      RSeries(cases, active, activeWindow)[i] == Finite(1.0)
  {
    forall i | 0 <= i < |RSeries(cases, active, activeWindow)|
      ensures RSeries(cases, active, activeWindow)[i] == Finite(1.0)
    {
      var d := active[i + 1];
      assert RAt(activeWindow, cases[i], d) == Finite(d / d);
    }
  }

  /** The end-to-end example: thirty days of 100 new cases with 7-day averages and a 14-day active
      window give 24 smoothed values of 100, 11 active values of 1400 and 9 values of R, all 1. */
  lemma EndToEndExample(raw: CountryData, views: map<string, DefaultView>)
    requires |raw.cases| == 30 && |raw.deaths| == 30
    requires forall k :: 0 <= k < 30 ==> raw.cases[k] == 100.0
    ensures var s := StatsOf(raw, 7, 7, 14, views);
      && |s.cases| == 24 && |s.active| == 11 && |s.r| == 9 && |s.rollingDeaths| == 24
      && (forall k :: 0 <= k < 24 ==> s.cases[k] == 100.0)
      && (forall k :: 0 <= k < 11 ==> s.active[k] == 1400.0)
      && (forall i :: 0 <= i < 9 ==> s.r[i] == Finite(1.0))
      && s.activeMin == s.activeMax == Finite(1400.0)
  {
    StatsLengths(raw, 7, 7, 14, views);
    ConstantSeries(raw, 100.0, 7, 7, 14, views);
  }

  /** projectLinear: continues the line through data[1] and data[0] for max(1, steps) points. */
  method ProjectLinear(data: seq<real>, steps: int) returns (projection: seq<real>)
    requires |data| >= 2
    ensures |projection| == if steps > 1 then steps else 1
    ensures forall k :: 0 <= k < |projection| ==>
      projection[k] == data[0] + (k + 1) as real * (data[0] - data[1])
  {
    var delta := data[0] - data[1];
    projection := [data[0] + delta];
    var left := steps - 1;
    while left > 0
      invariant left >= 0 ==> |projection| + left == steps
      invariant left < 0 ==> |projection| == 1 && steps <= 0
      invariant forall k :: 0 <= k < |projection| ==> projection[k] == data[0] + (k + 1) as real * delta
    {
      projection := projection + [projection[|projection| - 1] + delta];
      left := left - 1;
    }
  }
}
