/** The older statistics engine of src/stats.ts: no clamp on the active
    estimate, and R divides by active at the same day, over the full length of
    active.  Its getRolling and projectLinear are the same code as the newer
    engine's and are modelled once, by RollingWindow.GetRolling and
    Stats.ProjectLinear. */
module LegacyStats {
  import opened JsNumber
  import opened DataSource
  import opened RollingWindow
  import Stats

  /** The older stats_t. */
  datatype LegacyStatsT = LegacyStatsT(
    rawData: CountryData,
    cases: seq<real>,
    active: seq<real>,
    rollingDeaths: seq<real>,
    r: seq<Num>)

  /** getStats: `r` maps active to activeWindow * cases[i] / active[i]; an index past the end of
      cases (only possible with a zero active window) reads undefined and gives NaN. */
  function GetStats(raw: CountryData, casesAveraging: nat, deathsAveraging: nat, activeWindow: nat): LegacyStatsT
    requires casesAveraging >= 1 && deathsAveraging >= 1
  {
    var cases := Rolling(raw.cases, casesAveraging, casesAveraging as real);
    var active := Rolling(cases, activeWindow, 1.0);
    LegacyStatsT(raw, cases, active, Rolling(raw.deaths, deathsAveraging, deathsAveraging as real),
      seq(|active|, i requires 0 <= i < |active| =>
        if i < |cases| then Stats.RAt(activeWindow, cases[i], active[i]) else NaN))
  }

  /** The older statistics keep the raw data; smoothed cases and deaths are window means of the
      daily series and active is the window sum of smoothed cases. */
  lemma LegacyWindows(raw: CountryData, casesAveraging: nat, deathsAveraging: nat, activeWindow: nat, i: nat)
    requires casesAveraging >= 1 && deathsAveraging >= 1
    ensures var s := GetStats(raw, casesAveraging, deathsAveraging, activeWindow);
      && s.rawData == raw && |s.r| == |s.active|
      && (i < |s.cases| ==>
            i + casesAveraging <= |raw.cases| && s.cases[i] == Sum(raw.cases[i..i + casesAveraging]) / casesAveraging as real)
      && (i < |s.active| ==> i + activeWindow <= |s.cases| && s.active[i] == Sum(s.cases[i..i + activeWindow]))
      && (i < |s.rollingDeaths| ==>
            i + deathsAveraging <= |raw.deaths| && s.rollingDeaths[i] == Sum(raw.deaths[i..i + deathsAveraging]) / deathsAveraging as real)
  {
  }

  /** R has one value per active value and, for a positive window, reads cases and active at the
      same index; it is finite exactly where active is non-zero. */
  lemma LegacyShape(raw: CountryData, casesAveraging: nat, deathsAveraging: nat, activeWindow: nat, i: nat)
    requires casesAveraging >= 1 && deathsAveraging >= 1 && activeWindow >= 1
    requires i < |GetStats(raw, casesAveraging, deathsAveraging, activeWindow).active|
    ensures var s := GetStats(raw, casesAveraging, deathsAveraging, activeWindow);
      && |s.r| == |s.active| <= |s.cases|
      && (s.r[i].Finite? <==> s.active[i] != 0.0)
      && (s.active[i] != 0.0 ==> s.r[i] == Finite(activeWindow as real * s.cases[i] / s.active[i]))
  {
    var s := GetStats(raw, casesAveraging, deathsAveraging, activeWindow);
    assert s.r[i] == Stats.RAt(activeWindow, s.cases[i], s.active[i]);
  }

  /** The two engines agree on the smoothed cases and deaths; the newer one floors active values
      below one to zero and computes R two values shorter, dividing by active one day later. */
  lemma VariantsCompared(raw: CountryData, casesAveraging: nat, deathsAveraging: nat, activeWindow: nat,
                         views: map<string, DefaultView>, i: nat)
    requires casesAveraging >= 1 && deathsAveraging >= 1 && activeWindow >= 1
    requires i < |Stats.StatsOf(raw, casesAveraging, deathsAveraging, activeWindow, views).r|
    ensures var older := GetStats(raw, casesAveraging, deathsAveraging, activeWindow);
      var newer := Stats.StatsOf(raw, casesAveraging, deathsAveraging, activeWindow, views);
      && newer.cases == older.cases
      && newer.rollingDeaths == older.rollingDeaths
      && |newer.active| == |older.active|
      && |newer.r| + 2 == |older.r|
      && newer.active == Stats.ClampActive(older.active)
      && (older.active[i + 1] >= 1.0 ==> newer.r[i] == Stats.RAt(activeWindow, older.cases[i], older.active[i + 1]))
  {
    var older := GetStats(raw, casesAveraging, deathsAveraging, activeWindow);
    var newer := Stats.StatsOf(raw, casesAveraging, deathsAveraging, activeWindow, views);
    Stats.StatsLengths(raw, casesAveraging, deathsAveraging, activeWindow, views);
    assert newer.r[i] == Stats.RAt(activeWindow, newer.cases[i], newer.active[i + 1]);
  }

  /** With a constant daily count c and activeWindow * c at least one, every R value is 1. */
  lemma LegacyConstantSeries(raw: CountryData, c: real, casesAveraging: nat, deathsAveraging: nat,
                             activeWindow: nat)
    requires casesAveraging >= 1 && deathsAveraging >= 1 && activeWindow >= 1
    requires forall k :: 0 <= k < |raw.cases| ==> raw.cases[k] == c
    requires activeWindow as real * c >= 1.0
    ensures var s := GetStats(raw, casesAveraging, deathsAveraging, activeWindow);
      forall i :: 0 <= i < |s.r| ==> s.r[i] == Finite(1.0)
  {
    var s := GetStats(raw, casesAveraging, deathsAveraging, activeWindow);
    RollingAverageConstant(raw.cases, c, casesAveraging, casesAveraging as real);
    RollingSumConstant(s.cases, c, activeWindow);
    forall i | 0 <= i < |s.r| ensures s.r[i] == Finite(1.0) {
      var d := s.active[i];
      assert s.r[i] == Stats.RAt(activeWindow, s.cases[i], d);
      assert s.cases[i] == c;
      assert d == activeWindow as real * c;
      assert d != 0.0;
      assert Stats.RAt(activeWindow, s.cases[i], d) == Finite(d / d);
      assert d / d == 1.0;
    }
  }
}
