/** The John Hopkins (CSSE) source after parsing: the row key, the daily
    counts derived from the cumulative totals, and the store that `load`
    clears and fills.  The same makeKey and difference appear in
    src/CSSEGISandData.ts and are modelled here once. */
module JohnHopkins {
  import opened Wrappers
  import opened DataSource
  import opened DataSourceImpl
  import opened Lists
  import opened RollingWindow
  import opened Stores

  /** `column[k]` where it is used as a string: past the end it is undefined, which prints as "undefined". */
  function Column(column: seq<string>, k: nat): string
  {
    if k < |column| then column[k] else "undefined"
  }

  /** The province column, "" when it is empty or missing. */
  function Province(column: seq<string>): string
  {
    if |column| > 0 then column[0] else ""
  }

  /** makeKey: `column[1] + (column[0] ? ': ' + column[0] : '')`. */
  function MakeKey(column: seq<string>): (key: string)
    ensures Province(column) == "" ==> key == Column(column, 1)
    ensures Province(column) != "" ==> key == Column(column, 1) + ": " + Province(column)
  {
    Column(column, 1) + (if |column| > 0 && column[0] != "" then ": " + column[0] else "")
  }

  /** The position of the first c in s, |s| when there is none. */
  function IndexOf(s: string, c: char): (i: nat)
    ensures i <= |s|
    ensures i < |s| ==> s[i] == c
    ensures forall j :: 0 <= j < i ==> s[j] != c
  {
    if s == [] then 0 else if s[0] == c then 0 else 1 + IndexOf(s[1..], c)
  }

  /** The country part of a key: everything before the first ':'. */
  function CountryOfKey(key: string): string
  {
    key[..IndexOf(key, ':')]
  }

  /** The province part of a key: everything after the first ": ", or "" when there is none. */
  function ProvinceOfKey(key: string): string
  {
    var i := IndexOf(key, ':');
    if i + 2 <= |key| then key[i + 2..] else ""
  }

  lemma {:induction false} IndexOfAppend(a: string, b: string, c: char)
    requires c !in a
    ensures IndexOf(a + b, c) == |a| + IndexOf(b, c)
  {
    if a != [] {
      assert (a + b)[1..] == a[1..] + b;
      IndexOfAppend(a[1..], b, c);
    } else {
      assert a + b == b;
    }
  }

  /** A key splits back into its country and province when the country name has no ':'. */
  lemma KeyRoundTrip(column: seq<string>)
    requires ':' !in Column(column, 1)
    ensures CountryOfKey(MakeKey(column)) == Column(column, 1)
    ensures ProvinceOfKey(MakeKey(column)) == Province(column)
  {
    var country := Column(column, 1);
    var rest := if Province(column) != "" then ": " + Province(column) else "";
    assert MakeKey(column) == country + rest;
    IndexOfAppend(country, rest, ':');
    if rest == "" {
      assert IndexOf(rest, ':') == 0;
      assert country + rest == country;
    } else {
      assert rest[0] == ':';
      assert (country + rest)[|country| + 2..] == Province(column);
    }
  }

  /** Two rows whose country names have no ':' share a key only when they name the same country
      and province, so the store keeps one entry per region. */
  lemma KeysDistinguishRegions(a: seq<string>, b: seq<string>)
    requires ':' !in Column(a, 1) && ':' !in Column(b, 1)
    requires MakeKey(a) == MakeKey(b)
    ensures Column(a, 1) == Column(b, 1) && Province(a) == Province(b)
  {
    KeyRoundTrip(a);
    KeyRoundTrip(b);
  }

  /** The daily counts of a newest-first cumulative series: diff[i] = data[i] - data[i + 1]. */
  function Diff(data: seq<real>): seq<real>
  {
    if |data| <= 1 then [] else seq(|data| - 1, i requires 0 <= i < |data| - 1 => data[i] - data[i + 1])
  }

  /** difference: an index loop pushing data[i] - data[i + 1]. */
  method Difference(data: seq<real>) returns (diff: seq<real>)
    ensures diff == Diff(data)
    ensures |diff| == if |data| > 0 then |data| - 1 else 0
  {
    diff := [];
    var i := 0;
    while i < |data| - 1
      invariant 0 <= i && (i == 0 || i <= |data| - 1)
      invariant |diff| == i
      invariant forall k :: 0 <= k < i ==> diff[k] == data[k] - data[k + 1]
    {
      diff := diff + [data[i] - data[i + 1]];
      i := i + 1;
    }
  }

  /** The differences add back up to the cumulative totals: each total is the oldest total plus
      the daily counts from that day on. */
  lemma {:induction false} DiffTelescopes(data: seq<real>, i: nat)
    requires i < |data|
    ensures data[i] == data[|data| - 1] + Sum(Diff(data)[i..])
    decreases |data| - i
  {
    var d := Diff(data);
    if i == |data| - 1 {
      assert d[i..] == [];
    } else {
      DiffTelescopes(data, i + 1);
      assert d[i..] == [d[i]] + d[i + 1..];
      SumCons(d[i], d[i + 1..]);
    }
  }

  /** A cumulative series that never grows toward older days has no negative daily count. */
  lemma DiffNonNegative(data: seq<real>)
    requires forall i :: 0 <= i < |data| - 1 ==> data[i] >= data[i + 1]
    ensures forall k :: 0 <= k < |Diff(data)| ==> Diff(data)[k] >= 0.0
  {
  }

  /** The header row (`cases.shift()`); an empty file has none, and `_.drop(undefined, 4)` is []. */
  function Header(csv: seq<seq<string>>): seq<string>
  {
    if csv == [] then [] else csv[0]
  }

  /** The rows left after the header has been shifted off. */
  function Body(csv: seq<seq<string>>): seq<seq<string>>
  {
    if csv == [] then [] else csv[1..]
  }

  /** The dates of the header, newest first: `_.reverse(_.map(_.drop(header, 4), d => moment(d, 'M/D/YY')))`. */
  function HeaderDates(header: seq<string>): (dates: seq<Moment>)
    ensures |dates| == |Drop(header, 4)|
    ensures forall k :: 0 <= k < |dates| ==> 4 <= |header| - 1 - k < |header| && dates[k] == Moment(header[|header| - 1 - k], "M/D/YY")
  {
    Reverse(seq(|Drop(header, 4)|, k requires 0 <= k < |Drop(header, 4)| => Moment(Drop(header, 4)[k], "M/D/YY")))
  }

  /** A row's cumulative series, newest first: `_.reverse(_.map(_.drop(column, 4), v => Number(v)))`. */
  function Series(row: seq<string>, toNumber: string -> real): (s: seq<real>)
    ensures |s| == |Drop(row, 4)|
    ensures forall k :: 0 <= k < |s| ==> 4 <= |row| - 1 - k < |row| && s[k] == toNumber(row[|row| - 1 - k])
  {
    Reverse(seq(|Drop(row, 4)|, k requires 0 <= k < |Drop(row, 4)| => toNumber(Drop(row, 4)[k])))
  }

  /** The store's dates: the header dates with the oldest popped off. */
  function JhDates(cases: seq<seq<string>>): seq<Moment>
  {
    Pop(HeaderDates(Header(cases)))
  }

  /** The store's dates are the header's date columns newest first, without the oldest. */
  lemma JhDatesNewestFirst(cases: seq<seq<string>>, k: nat)
    ensures var header := Header(cases);
      && |JhDates(cases)| == (if |header| <= 5 then 0 else |header| - 5)
      && (k < |JhDates(cases)| ==> 5 <= |header| - 1 - k < |header| && JhDates(cases)[k] == Moment(header[|header| - 1 - k], "M/D/YY"))
  {
  }

  /** `deaths[i]`, the death row paired with case row i by position; undefined past the end. */
  function DeathRow(deathRows: seq<seq<string>>, i: nat): seq<string>
  {
    if i < |deathRows| then deathRows[i] else []
  }

  /** The record stored for one case row and the death row at the same position. */
  function Entry(row: seq<string>, deathRow: seq<string>, dates: seq<Moment>, toNumber: string -> real): CountryData
  {
    var cumCases := Series(row, toNumber);
    var cumDeaths := Series(deathRow, toNumber);
    CountryData(MakeKey(row), dates, Diff(cumCases), Diff(cumDeaths), Some(cumCases), cumDeaths, None)
  }

  /** The (key, record) pair each case row sets, in row order. */
  function Pairs(rows: seq<seq<string>>, deathRows: seq<seq<string>>, dates: seq<Moment>,
                 toNumber: string -> real): (pairs: seq<(string, CountryData)>)
    ensures |pairs| == |rows|
  {
    seq(|rows|, i requires 0 <= i < |rows| => (MakeKey(rows[i]), Entry(rows[i], DeathRow(deathRows, i), dates, toNumber)))
  }

  /** The store after load: every case row set under its key, in row order. */
  function StoreOf(rows: seq<seq<string>>, deathRows: seq<seq<string>>, dates: seq<Moment>,
                   toNumber: string -> real): map<string, CountryData>
  {
    Assign(Pairs(rows, deathRows, dates, toNumber), |rows|)
  }

  /** Some of the first n rows carry key k. */
  ghost predicate HasKey(rows: seq<seq<string>>, n: nat, k: string)
    requires n <= |rows|
  {
    exists j :: 0 <= j < n && MakeKey(rows[j]) == k
  }

  /** The store holds exactly the keys of the case rows. */
  lemma StoreKeys(rows: seq<seq<string>>, deathRows: seq<seq<string>>, dates: seq<Moment>,
                  toNumber: string -> real, k: string)
    ensures k in StoreOf(rows, deathRows, dates, toNumber) <==> HasKey(rows, |rows|, k)
  {
    var pairs := Pairs(rows, deathRows, dates, toNumber);
    AssignKeys(pairs, |rows|, k);
    if HasKey(rows, |rows|, k) {
      var i :| 0 <= i < |rows| && MakeKey(rows[i]) == k;
      assert pairs[i].0 == k;
    }
  }

  /** A key holds the record of the LAST case row with that key, its deaths taken from the death
      row at the same position. */
  lemma StoreLastWins(rows: seq<seq<string>>, deathRows: seq<seq<string>>, dates: seq<Moment>,
                      toNumber: string -> real, i: nat)
    requires i < |rows|
    requires forall j :: i < j < |rows| ==> MakeKey(rows[j]) != MakeKey(rows[i])
    ensures MakeKey(rows[i]) in StoreOf(rows, deathRows, dates, toNumber)
    ensures StoreOf(rows, deathRows, dates, toNumber)[MakeKey(rows[i])] == Entry(rows[i], DeathRow(deathRows, i), dates, toNumber)
  {
    var pairs := Pairs(rows, deathRows, dates, toNumber);
    forall j | i < j < |rows| ensures pairs[j].0 != pairs[i].0 {
      assert pairs[j].0 == MakeKey(rows[j]);
    }
    AssignLast(pairs, |rows|, i);
  }

  /** For a row as wide as the header, the daily cases line up with the dates, both one shorter
      than the cumulative totals; the record's key is its display name. */
  lemma EntryShape(header: seq<string>, row: seq<string>, deathRow: seq<string>, toNumber: string -> real)
    requires |row| == |header| > 4
    ensures var e := Entry(row, deathRow, Pop(HeaderDates(header)), toNumber);
      && e.displayName == MakeKey(row)
      && e.cumCases.Some?
      && |e.cases| == |e.dates| == |e.cumCases.value| - 1
      && e.cases == Diff(e.cumCases.value) && e.deaths == Diff(e.cumDeaths)
  {
  }

  /** The body of load's row loop: the key, the two cumulative series and their differences. */
  method MakeEntry(row: seq<string>, deathRow: seq<string>, dates: seq<Moment>, toNumber: string -> real)
    returns (key: string, record: CountryData)
    ensures key == MakeKey(row) && record == Entry(row, deathRow, dates, toNumber)
    ensures record.displayName == key && record.dates == dates
  {
    key := MakeKey(row);
    var cumCases := Series(row, toNumber);
    var cumDeaths := Series(deathRow, toNumber);
    var dailyCases := Difference(cumCases);
    var dailyDeaths := Difference(cumDeaths);
    record := CountryData(key, dates, dailyCases, dailyDeaths, Some(cumCases), cumDeaths, None);
  }

  /** The John Hopkins source: a DataSourceImpl (held as `base`) plus the shared date axis. */
  class JohnHopkins {
    const base: DataSourceImpl
    var dates: seq<Moment>

    constructor()
      ensures fresh(base) && base.source == "John Hopkins" && base.store == map[] && dates == []
    {
      base := new DataSourceImpl("John Hopkins");
      dates := [];
    }

    /** load, from the two parsed CSV files on: dates from the case header, oldest popped; the store
        cleared; then one record per case row, under its key. */
    method Load(cases: seq<seq<string>>, deaths: seq<seq<string>>, toNumber: string -> real)
      modifies this, base
      ensures dates == JhDates(cases)
      ensures base.store == StoreOf(Body(cases), Body(deaths), dates, toNumber)
    {
      var headerDates := HeaderDates(Header(cases));
      dates := Pop(headerDates);
      var rows := Body(cases);
      var deathRows := Body(deaths);
      base.store := map[];
      var i := 0;
      while i < |rows|
        invariant 0 <= i <= |rows|
        modifies base
        invariant base.store == Assign(Pairs(rows, deathRows, dates, toNumber), i)
      {
        var key, record := MakeEntry(rows[i], DeathRow(deathRows, i), dates, toNumber);
        assert Pairs(rows, deathRows, dates, toNumber)[i] == (key, record);
        base.store := base.store[key := record];
        i := i + 1;
      }
    }
  }
}
