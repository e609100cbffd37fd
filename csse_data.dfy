/** The older John Hopkins (CSSE) loader of src/CSSEGISandData.ts, from the two
    parsed CSV files on: case rows create records by key, death rows attach
    their cumulative series by key lookup, and every record then gets its daily
    counts.  A deaths row whose key has no case row, or a case row left without
    deaths, makes the JavaScript throw a TypeError; the model returns a Failure. */
module CSSEGISandData {
  import opened Wrappers
  import opened DataSource
  import opened Lists
  import opened Stores
  import opened JohnHopkins

  /** One country of data_t. */
  datatype CsseCountry = CsseCountry(
    displayName: string,
    cases: seq<real>,
    deaths: seq<real>,
    cumCases: seq<real>,
    cumDeaths: seq<real>)

  /** data_t: the header dates (newest first, none popped) and the countries by key. */
  datatype DataT = DataT(date: seq<Moment>, country: map<string, CsseCountry>)

  /** The TypeErrors loadData can throw. */
  datatype LoadError =
    | UnknownDeathsKey(key: string)   // `data.country[key].cumDeaths = …` with no such country
    | MissingDeaths                   // `difference(country.cumDeaths)` with cumDeaths undefined

  /** A country record while the loops fill it in. */
  datatype Partial = Partial(displayName: string, cumCases: seq<real>, cumDeaths: Option<seq<real>>)

  /** The (key, record) pair a case row sets: `data.country[key] = {displayName: key, cumCases}`. */
  function CaseEntry(toNumber: string -> real): seq<string> -> (string, Partial)
  {
    row => (MakeKey(row), Partial(MakeKey(row), Series(row, toNumber), None))
  }

  /** The (key, record) pair each case row sets, in row order. */
  function CasePairs(rows: seq<seq<string>>, toNumber: string -> real): (pairs: seq<(string, Partial)>)
    ensures |pairs| == |rows|
  {
    Entries(rows, CaseEntry(toNumber))
  }

  /** The records the case loop creates: `data.country[key] = {displayName, cumCases}`, a later row
      with the same key replacing the earlier record. */
  function CasePartials(rows: seq<seq<string>>, toNumber: string -> real): map<string, Partial>
  {
    Assign(CasePairs(rows, toNumber), |rows|)
  }

  /** The (key, cumulative deaths) pair each death row carries, in row order. */
  function DeathEntries(deathRows: seq<seq<string>>, toNumber: string -> real): (entries: seq<(string, seq<real>)>)
    ensures |entries| == |deathRows|
  {
    Entries(deathRows, row => (MakeKey(row), Series(row, toNumber)))
  }

  /** The deaths loop over the first n death entries: each attaches its series to the record with
      its key, and the first entry whose key has no record throws. */
  function AttachDeaths(partials: map<string, Partial>, entries: seq<(string, seq<real>)>, n: nat)
    : Result<map<string, Partial>, LoadError>
    requires n <= |entries|
  {
    if n == 0 then Success(partials)
    else
      var prev := AttachDeaths(partials, entries, n - 1);
      var key := entries[n - 1].0;
      if prev.Failure? then prev
      else if key !in prev.value then Failure(UnknownDeathsKey(key))
      else Success(prev.value[key := prev.value[key].(cumDeaths := Some(entries[n - 1].1))])
  }

  /** The record a partial becomes once its daily counts are computed. */
  function Complete(p: Partial): CsseCountry
    requires p.cumDeaths.Some?
  {
    CsseCountry(p.displayName, Diff(p.cumCases), Diff(p.cumDeaths.value), p.cumCases, p.cumDeaths.value)
  }

  /** The last loop: every record gets cases and deaths; one without deaths throws. */
  function Finish(m: map<string, Partial>): Result<map<string, CsseCountry>, LoadError>
  {
    if exists k :: k in m && m[k].cumDeaths.None? then Failure(MissingDeaths)
    else Success(map k | k in m :: Complete(m[k]))
  }

  /** loadData's result for the two parsed files. */
  function LoadResult(cases: seq<seq<string>>, deaths: seq<seq<string>>, toNumber: string -> real)
    : Result<DataT, LoadError>
  {
    var attached := AttachDeaths(CasePartials(Body(cases), toNumber), DeathEntries(Body(deaths), toNumber), |Body(deaths)|);
    if attached.Failure? then Failure(attached.error)
    else
      var countries := Finish(attached.value);
      if countries.Failure? then Failure(countries.error)
      else Success(DataT(HeaderDates(Header(cases)), countries.value))
  }

  /** Some of the first n entries carry key k. */
  ghost predicate Carries(entries: seq<(string, seq<real>)>, n: nat, k: string)
    requires n <= |entries|
  {
    exists j :: 0 <= j < n && entries[j].0 == k
  }

  /** The deaths loop succeeds exactly when every entry's key names a country, and it keeps the
      set of countries with their names and case series. */
  lemma {:induction false} AttachDeathsKeys(partials: map<string, Partial>, entries: seq<(string, seq<real>)>, n: nat)
    requires n <= |entries|
    ensures AttachDeaths(partials, entries, n).Success? <==> forall j :: 0 <= j < n ==> entries[j].0 in partials
    ensures AttachDeaths(partials, entries, n).Success? ==>
      var m := AttachDeaths(partials, entries, n).value;
      && m.Keys == partials.Keys
      && forall k :: k in m ==> m[k].displayName == partials[k].displayName && m[k].cumCases == partials[k].cumCases
  {
    if n > 0 {
      AttachDeathsKeys(partials, entries, n - 1);
    }
  }

  /** After a successful deaths loop over records without deaths, a country has deaths exactly when
      some entry carries its key. */
  lemma {:induction false} AttachDeathsPresent(partials: map<string, Partial>, entries: seq<(string, seq<real>)>,
                                               n: nat, k: string)
    requires n <= |entries|
    requires forall k' :: k' in partials ==> partials[k'].cumDeaths.None?
    requires AttachDeaths(partials, entries, n).Success?
    requires k in AttachDeaths(partials, entries, n).value
    ensures AttachDeaths(partials, entries, n).value[k].cumDeaths.Some? <==> Carries(entries, n, k)
  {
    if n > 0 {
      AttachDeathsKeys(partials, entries, n - 1);
      AttachDeathsPresent(partials, entries, n - 1, k);
      if entries[n - 1].0 == k {
        assert Carries(entries, n, k);
      } else if Carries(entries, n, k) {
        var j :| 0 <= j < n && entries[j].0 == k;
        assert Carries(entries, n - 1, k);
      }
    }
  }

  /** The deaths a country ends up with are those of the last entry with its key. */
  lemma {:induction false} AttachDeathsLastWins(partials: map<string, Partial>, entries: seq<(string, seq<real>)>,
                                                n: nat, j: nat)
    requires j < n <= |entries|
    requires AttachDeaths(partials, entries, n).Success?
    requires forall j' :: j < j' < n ==> entries[j'].0 != entries[j].0
    ensures entries[j].0 in AttachDeaths(partials, entries, n).value
    ensures AttachDeaths(partials, entries, n).value[entries[j].0].cumDeaths == Some(entries[j].1)
  {
    AttachDeathsKeys(partials, entries, n);
    if j < n - 1 {
      AttachDeathsLastWins(partials, entries, n - 1, j);
    }
  }

  /** Every record the case loop creates is still waiting for its deaths. */
  lemma {:induction false} AssignNoDeaths(pairs: seq<(string, Partial)>, n: nat)
    requires n <= |pairs|
    requires forall i :: 0 <= i < |pairs| ==> pairs[i].1.cumDeaths.None?
    ensures forall k :: k in Assign(pairs, n) ==> Assign(pairs, n)[k].cumDeaths.None?
  {
    if n > 0 {
      AssignNoDeaths(pairs, n - 1);
    }
  }

  /** The case loop creates one record per distinct key of the case rows, none with deaths yet. */
  lemma CasePartialsKeys(rows: seq<seq<string>>, toNumber: string -> real, k: string)
    ensures k in CasePartials(rows, toNumber) <==> HasKey(rows, |rows|, k)
    ensures k in CasePartials(rows, toNumber) ==> CasePartials(rows, toNumber)[k].cumDeaths.None?
  {
    var pairs := CasePairs(rows, toNumber);
    AssignKeys(pairs, |rows|, k);
    if HasKey(rows, |rows|, k) {
      var i :| 0 <= i < |rows| && MakeKey(rows[i]) == k;
      assert pairs[i].0 == k;
    }
    AssignNoDeaths(pairs, |rows|);
  }

  /** The death entries carry exactly the keys of the death rows. */
  lemma DeathEntriesKeys(deathRows: seq<seq<string>>, toNumber: string -> real, k: string)
    ensures Carries(DeathEntries(deathRows, toNumber), |deathRows|, k) <==> HasKey(deathRows, |deathRows|, k)
  {
    var entries := DeathEntries(deathRows, toNumber);
    if HasKey(deathRows, |deathRows|, k) {
      var j :| 0 <= j < |deathRows| && MakeKey(deathRows[j]) == k;
      assert entries[j].0 == k;
    }
  }

  /** loadData succeeds exactly when the case rows and the death rows name the same set of keys. */
  lemma LoadSucceedsIff(cases: seq<seq<string>>, deaths: seq<seq<string>>, toNumber: string -> real)
    ensures LoadResult(cases, deaths, toNumber).Success? <==>
      (forall j :: 0 <= j < |Body(deaths)| ==> HasKey(Body(cases), |Body(cases)|, MakeKey(Body(deaths)[j]))) &&
      (forall i :: 0 <= i < |Body(cases)| ==> HasKey(Body(deaths), |Body(deaths)|, MakeKey(Body(cases)[i])))
  {
    var rows, deathRows := Body(cases), Body(deaths);
    var partials := CasePartials(rows, toNumber);
    var entries := DeathEntries(deathRows, toNumber);
    forall k ensures (k in partials <==> HasKey(rows, |rows|, k)) && (k in partials ==> partials[k].cumDeaths.None?) {
      CasePartialsKeys(rows, toNumber, k);
    }
    forall j | 0 <= j < |deathRows| ensures entries[j].0 == MakeKey(deathRows[j]) {
    }
    AttachDeathsKeys(partials, entries, |deathRows|);
    var attached := AttachDeaths(partials, entries, |deathRows|);
    if attached.Success? {
      forall k | k in attached.value ensures attached.value[k].cumDeaths.Some? <==> HasKey(deathRows, |deathRows|, k) {
        AttachDeathsPresent(partials, entries, |deathRows|, k);
        DeathEntriesKeys(deathRows, toNumber, k);
      }
      forall i | 0 <= i < |rows| ensures MakeKey(rows[i]) in partials {
        assert HasKey(rows, |rows|, MakeKey(rows[i]));
      }
    }
  }

  /** On success every country's daily counts are the differences of its cumulative series, and for
      rows as wide as the header the dates are as many as the cumulative values, one more than the
      daily values. */
  lemma CountryShape(cases: seq<seq<string>>, deaths: seq<seq<string>>, toNumber: string -> real, k: string)
    requires LoadResult(cases, deaths, toNumber).Success?
    requires k in LoadResult(cases, deaths, toNumber).value.country
    ensures var d := LoadResult(cases, deaths, toNumber).value;
      && d.country[k].cases == Diff(d.country[k].cumCases)
      && d.country[k].deaths == Diff(d.country[k].cumDeaths)
      && |d.date| == |Drop(Header(cases), 4)|
      && (|d.country[k].cumCases| == |d.date| > 0 ==> |d.country[k].cases| == |d.date| - 1)
  {
  }

  /** loadData after parsing: the header dates, a loop creating records from the case rows, a loop
      attaching the death rows by key, and a loop computing the daily counts. */
  method LoadData(cases: seq<seq<string>>, deaths: seq<seq<string>>, toNumber: string -> real)
    returns (result: Result<DataT, LoadError>)
    ensures result == LoadResult(cases, deaths, toNumber)
  {
    var date := HeaderDates(Header(cases));
    var country := SetEach(Body(cases), CaseEntry(toNumber));
    var attached := AddDeathRows(country, DeathEntries(Body(deaths), toNumber));
    if attached.Failure? {
      return Failure(attached.error);
    }
    var countries := AddDailyCounts(attached.value);
    if countries.Failure? {
      return Failure(countries.error);
    }
    result := Success(DataT(date, countries.value));
  }

  /** The deaths loop of loadData, over the (key, cumulative deaths) pair of each death row. */
  method AddDeathRows(partials: map<string, Partial>, entries: seq<(string, seq<real>)>)
    returns (result: Result<map<string, Partial>, LoadError>)
    ensures result == AttachDeaths(partials, entries, |entries|)
  {
    var country := partials;
    var j := 0;
    while j < |entries|
      invariant 0 <= j <= |entries|
      invariant AttachDeaths(partials, entries, j) == Success(country)
    {
      var key, series := entries[j].0, entries[j].1;
      AttachStep(partials, entries, j, country);
      if key !in country {
        result := Failure(UnknownDeathsKey(key));
        FailureSticks(partials, entries, j + 1);
        return;
      }
      country := country[key := country[key].(cumDeaths := Some(series))];
      j := j + 1;
    }
    result := Success(country);
  }

  /** The last loop of loadData, visiting the countries in some order. */
  method AddDailyCounts(country: map<string, Partial>) returns (result: Result<map<string, CsseCountry>, LoadError>)
    ensures result == Finish(country)
  {
    var todo := country.Keys;
    var done: map<string, CsseCountry> := map[];
    while todo != {}
      invariant todo <= country.Keys
      invariant forall k :: k in country.Keys - todo ==> country[k].cumDeaths.Some?
      invariant done == map k | k in country.Keys - todo :: Complete(country[k])
      decreases todo
    {
      var k :| k in todo;
      if country[k].cumDeaths.None? {
        return Failure(MissingDeaths);
      }
      done := done[k := Complete(country[k])];
      todo := todo - {k};
    }
    assert country.Keys - todo == country.Keys;
    result := Success(done);
  }

  /** One step of the deaths loop. */
  lemma AttachStep(partials: map<string, Partial>, entries: seq<(string, seq<real>)>, j: nat,
                   country: map<string, Partial>)
    requires j < |entries|
    requires AttachDeaths(partials, entries, j) == Success(country)
    ensures entries[j].0 !in country ==> AttachDeaths(partials, entries, j + 1) == Failure(UnknownDeathsKey(entries[j].0))
    ensures entries[j].0 in country ==>
      AttachDeaths(partials, entries, j + 1) == Success(country[entries[j].0 := country[entries[j].0].(cumDeaths := Some(entries[j].1))])
  {
  }

  /** Once a death entry has thrown, the entries after it change nothing. */
  lemma {:induction false} FailureSticks(partials: map<string, Partial>, entries: seq<(string, seq<real>)>, n: nat)
    requires 0 < n <= |entries|
    requires AttachDeaths(partials, entries, n).Failure?
    ensures AttachDeaths(partials, entries, |entries|) == AttachDeaths(partials, entries, n)
    decreases |entries| - n
  {
    if n < |entries| {
      FailureSticks(partials, entries, n + 1);
    }
  }
}
