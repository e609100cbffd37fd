/** The UK government API loader of src/data.ts: the filter query string, and the cleaning of the
    JSON records the API returns (the HTTP request itself is a parameter of the model). */
module UkData {
  import opened Wrappers
  import opened DataSource
  import opened Lists

  /** One element of the API's `data` array. */
  datatype UkRecord = UkRecord(date: string, cases: real, deaths: real, cumDeaths: Option<real>)

  /** raw_data_t: the four columns, one entry per kept record. */
  datatype RawData = RawData(date: seq<Moment>, cases: seq<real>, deaths: seq<real>, cumDeaths: seq<real>)

  /** What axios resolves to: the status line and the parsed body's `data` array. */
  datatype Response = Response(status: int, statusText: string, data: seq<UkRecord>)

  /** One `key=val` piece of the filter string. */
  function FilterPiece(filter: (string, string)): string
  {
    filter.0 + "=" + filter.1
  }

  /** toFilterString: the filters, in the object's own order, as `key=val` pieces joined by `;`. */
  function ToFilterString(filters: seq<(string, string)>): (s: string)
    ensures s == "" <==> filters == []
    ensures filters != [] ==> FilterPiece(filters[0]) <= s
  {
    Join(seq(|filters|, i requires 0 <= i < |filters| => FilterPiece(filters[i])), ';')
  }

  /** Reading a filter string back: split on `;`, then each piece at its first `=`. */
  function FromFilterString(s: string): seq<(string, string)>
  {
    var pieces := Split(s, ';');
    seq(|pieces|, i requires 0 <= i < |pieces| => KeyValue(pieces[i]))
  }

  function KeyValue(piece: string): (string, string)
  {
    var kv := Split(piece, '=');
    (kv[0], if |kv| == 1 then "" else Join(kv[1..], '='))
  }

  /** Keys and values free of `;` and `=` make the filter string readable back into the same
      filters. */
  lemma FilterStringRoundTrip(filters: seq<(string, string)>)
    requires filters != []
    requires forall i :: 0 <= i < |filters| ==> ';' !in filters[i].0 && '=' !in filters[i].0
    requires forall i :: 0 <= i < |filters| ==> ';' !in filters[i].1 && '=' !in filters[i].1
    ensures FromFilterString(ToFilterString(filters)) == filters
  {
    var pieces := seq(|filters|, i requires 0 <= i < |filters| => FilterPiece(filters[i]));
    forall i | 0 <= i < |pieces| ensures ';' !in pieces[i] {
      assert pieces[i] == filters[i].0 + ("=" + filters[i].1);
    }
    SplitJoin(pieces, ';');
    forall i | 0 <= i < |filters| ensures KeyValue(pieces[i]) == filters[i] {
      PieceRoundTrip(filters[i]);
    }
  }

  lemma PieceRoundTrip(filter: (string, string))
    requires '=' !in filter.0 && '=' !in filter.1
    ensures KeyValue(FilterPiece(filter)) == filter
  {
    var rest := "=" + filter.1;
    assert FilterPiece(filter) == filter.0 + rest;
    SplitPrefix(filter.0, rest, '=');
    assert rest[1..] == filter.1;
    SplitNoSep(filter.1, '=');
    assert Split(rest, '=') == ["", filter.1];
    assert filter.0 + "" == filter.0;
  }

  /** No filters give the empty string. */
  lemma NoFilters()
    ensures ToFilterString([]) == ""
  {
  }

  /** `_.remove(data.data, i => i.cases == 0)` removes these. */
  predicate ZeroCases(r: UkRecord)
  {
    r.cases == 0.0
  }

  /** The columns of the kept records; a missing or zero cumDeaths reads as 0. */
  function Columns(records: seq<UkRecord>): (c: RawData)
    ensures |c.date| == |c.cases| == |c.deaths| == |c.cumDeaths| == |records|
    ensures forall i :: 0 <= i < |records| ==>
      && c.date[i] == Moment(records[i].date, "YYYY-MM-DD")
      && c.cases[i] == records[i].cases && c.deaths[i] == records[i].deaths
      && (records[i].cumDeaths.Some? ==> c.cumDeaths[i] == records[i].cumDeaths.value)
      && (records[i].cumDeaths.None? ==> c.cumDeaths[i] == 0.0)
  {
    RawData(
      seq(|records|, i requires 0 <= i < |records| => Moment(records[i].date, "YYYY-MM-DD")),
      seq(|records|, i requires 0 <= i < |records| => records[i].cases),
      seq(|records|, i requires 0 <= i < |records| => records[i].deaths),
      seq(|records|, i requires 0 <= i < |records| => if records[i].cumDeaths.Some? then records[i].cumDeaths.value else 0.0))
  }

  /** loadData's outcome for the response: the status text as an error for a status of 400 or
      more, otherwise the columns of the records with non-zero cases. */
  function LoadResult(response: Response): Result<RawData, string>
  {
    if response.status >= 400 then Failure(response.statusText)
    else Success(Columns(Filter(response.data, Not(ZeroCases))))
  }

  /** loadData once the request has completed. */
  method LoadData(response: Response) returns (result: Result<RawData, string>)
    ensures result == LoadResult(response)
  {
    if response.status >= 400 {
      return Failure(response.statusText);
    }
    var data, _ := Remove(response.data, ZeroCases);
    result := Success(Columns(data));
  }

  /** The cases of a list of records. */
  function CasesOf(records: seq<UkRecord>): seq<real>
  {
    seq(|records|, i requires 0 <= i < |records| => records[i].cases)
  }

  /** A day with cases. */
  predicate NonZero(c: real)
  {
    c != 0.0
  }

  /** Filtering on the cases commutes with taking the cases column. */
  lemma {:induction false} CasesOfFilter(records: seq<UkRecord>)
    ensures CasesOf(Filter(records, Not(ZeroCases))) == Filter(CasesOf(records), NonZero)
  {
    if records != [] {
      var keep := Not(ZeroCases);
      var head, rest := records[0], records[1..];
      CasesOfFilter(rest);
      CasesOfCons(head, rest);
      assert records == [head] + rest;
      assert keep(head) == !ZeroCases(head);
      var cases := CasesOf(records);
      assert cases[0] == head.cases && cases[1..] == CasesOf(rest);
      if keep(head) {
        assert Filter(records, keep) == [head] + Filter(rest, keep);
        CasesOfCons(head, Filter(rest, keep));
        assert Filter(cases, NonZero) == [head.cases] + Filter(CasesOf(rest), NonZero);
      } else {
        assert Filter(records, keep) == Filter(rest, keep);
        assert Filter(cases, NonZero) == Filter(CasesOf(rest), NonZero);
      }
    }
  }

  lemma CasesOfCons(head: UkRecord, rest: seq<UkRecord>)
    ensures CasesOf([head] + rest) == [head.cases] + CasesOf(rest)
  {
    assert CasesOf([head] + rest)[1..] == CasesOf(rest);
  }

  /** A successful load gives four columns of one length, no zero among the cases, and the cases
      in the order the API sent them with just the zeros taken out; it fails exactly on an HTTP
      error status. */
  lemma LoadShape(response: Response)
    ensures LoadResult(response).Failure? <==> response.status >= 400
    ensures LoadResult(response).Failure? ==> LoadResult(response).error == response.statusText
    ensures LoadResult(response).Success? ==>
      var d := LoadResult(response).value;
      && |d.date| == |d.cases| == |d.deaths| == |d.cumDeaths| <= |response.data|
      && (forall i :: 0 <= i < |d.cases| ==> d.cases[i] != 0.0)
      && d.cases == Filter(CasesOf(response.data), NonZero)
  {
    if response.status < 400 {
      CasesOfFilter(response.data);
      assert LoadResult(response).value.cases == CasesOf(Filter(response.data, Not(ZeroCases)));
    }
  }

  /** The records taken out are exactly the zero-case ones: kept and removed make up the input. */
  lemma RemovedAreZeros(response: Response)
    ensures multiset(Filter(response.data, Not(ZeroCases))) + multiset(Filter(response.data, ZeroCases))
      == multiset(response.data)
  {
    FilterPartition(response.data, ZeroCases);
  }
}
