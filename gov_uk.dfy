/** GovUK (src/data/GovUK.ts): the single-record data source for the whole United Kingdom, with
    daily cases and deaths from the v1 API and the R ranges from the v2 API. */
module GovUK {
  import opened Wrappers
  import opened DataSource
  import opened DataSourceImpl
  import opened Lists
  import UkData

  /** One element of the v1 response's `data` array. */
  datatype GovRecord = GovRecord(dates: string, cases: real, deaths: real, cumDeaths: real)

  /** One element of the v2 response's `body` array. */
  datatype RRecord = RRecord(date: string, transmissionRateMin: real, transmissionRateMax: real)

  /** `_.remove(data, i => i.cases == 0)` removes these. */
  predicate ZeroCases(r: GovRecord)
  {
    r.cases == 0.0
  }

  /** The one record load stores, from the records it kept and the R records. */
  function UkEntry(data: seq<GovRecord>, rData: seq<RRecord>): CountryData
  {
    CountryData(
      "United Kingdom",
      seq(|data|, i requires 0 <= i < |data| => Moment(data[i].dates, "YYYY-MM-DD")),
      seq(|data|, i requires 0 <= i < |data| => data[i].cases),
      seq(|data|, i requires 0 <= i < |data| => data[i].deaths),
      None,
      seq(|data|, i requires 0 <= i < |data| => data[i].cumDeaths),
      Some(RData(
        seq(|rData|, i requires 0 <= i < |rData| => Moment(rData[i].date, "YYYY-MM-DD")),
        seq(|rData|, i requires 0 <= i < |rData| => rData[i].transmissionRateMin),
        seq(|rData|, i requires 0 <= i < |rData| => rData[i].transmissionRateMax))))
  }

  /** The stored record has columns of one length, one entry per record with non-zero cases, none
      of them zero; its R columns have one entry per R record. */
  lemma EntryShape(data: seq<GovRecord>, rData: seq<RRecord>)
    ensures var e := UkEntry(Filter(data, Not(ZeroCases)), rData);
      && |e.dates| == |e.cases| == |e.deaths| == |e.cumDeaths| == |Filter(data, Not(ZeroCases))| <= |data|
      && (forall i :: 0 <= i < |e.cases| ==> e.cases[i] != 0.0)
      && (forall r :: r in data && r.cases != 0.0 ==> r.cases in e.cases)
      && e.rData.Some? && |e.rData.value.dates| == |e.rData.value.rMin| == |e.rData.value.rMax| == |rData|
  {
    var kept := Filter(data, Not(ZeroCases));
    forall i | 0 <= i < |kept| ensures kept[i].cases != 0.0 {
      assert Not(ZeroCases)(kept[i]);
      assert Not(ZeroCases)(kept[i]) == !ZeroCases(kept[i]);
    }
    forall r | r in data && r.cases != 0.0 ensures r.cases in UkEntry(kept, rData).cases {
      assert Not(ZeroCases)(r) == !ZeroCases(r);
      assert r in kept;
      var i :| 0 <= i < |kept| && kept[i] == r;
      assert UkEntry(kept, rData).cases[i] == r.cases;
    }
  }

  class GovUK {
    const base: DataSourceImpl
    /** The query filters, as key/value pairs in the object's order. */
    const options: seq<(string, string)>

    /** With no options the filter is the national overview; any options given, even none at all,
        are kept as they are. */
    constructor(options: Option<seq<(string, string)>>)
      ensures fresh(base) && base.source == "GOV.UK" && base.store == map[]
      ensures options.Some? ==> this.options == options.value
      ensures options.None? ==> this.options == [("areaType", "overview")]
    {
      base := new DataSourceImpl("GOV.UK");
      this.options := if options.Some? then options.value else [("areaType", "overview")];
    }

    /** The `filters` query parameter load sends. */
    function Filters(): string
      reads this
    {
      UkData.ToFilterString(options)
    }

    /** load once both requests have completed: the zero-case records go, the store is cleared and
        gets the one "United Kingdom" record. The filter string the first request sends is
        returned. */
    method Load(data: seq<GovRecord>, rData: seq<RRecord>) returns (filters: string)
      modifies base
      ensures filters == Filters()
      ensures base.store == map["United Kingdom" := UkEntry(Filter(data, Not(ZeroCases)), rData)]
    {
      filters := UkData.ToFilterString(options);
      var kept, _ := Remove(data, ZeroCases);
      base.store := map[];
      base.store := base.store["United Kingdom" := UkEntry(kept, rData)];
    }
  }

  /** The default options read back from the filter string as the one national overview filter. */
  lemma DefaultFilters()
    ensures UkData.FromFilterString(UkData.ToFilterString([("areaType", "overview")])) == [("areaType", "overview")]
  {
    UkData.FilterStringRoundTrip([("areaType", "overview")]);
  }
}
