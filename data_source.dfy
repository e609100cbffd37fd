/** The record every data source stores per country (`CountryData`). */
module DataSource {
  import opened Wrappers

  /** A date as `moment(text, format)` parses it; date arithmetic and formatting are not modelled. */
  datatype Moment = Moment(text: string, format: string)

  /** The reproduction-number ranges GOV.UK publishes, attached to its one record. */
  datatype RData = RData(dates: seq<Moment>, rMin: seq<real>, rMax: seq<real>)

  /** Index 0 is the first row the source delivered: the newest day for the John Hopkins
      series, which are reversed after parsing. */
  datatype CountryData = CountryData(
    displayName: string,
    dates: seq<Moment>,
    cases: seq<real>,
    deaths: seq<real>,
    cumCases: Option<seq<real>>,
    cumDeaths: seq<real>,
    rData: Option<RData>)

  /** A per-country manual override of the axis bounds, case bounds already in log10 space. */
  datatype DefaultView = DefaultView(
    casesMin: Option<real>,
    casesMax: Option<real>,
    rMin: Option<real>,
    rMax: Option<real>)
}
