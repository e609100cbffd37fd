# COVID-19 visualisation core, modelled in Dafny

The repository draws per-country COVID-19 graphs in the browser. Its core is in three layers, and each has a model here.

- **Data sources.** These are the John Hopkins (CSSE) CSV time series, the GOV.UK API and a source that merges several others. Each one fills a per-country store with a `CountryData` record: display name, dates, daily cases and deaths, and cumulative series.
- **Statistics engine.** It turns one country's record into:
  - smoothed daily cases;
  - an "active cases" estimate, which is a rolling sum;
  - smoothed deaths;
  - a reproduction-number estimate `r`;
  - the extrema of these series and the country's default view.

  There are two versions of the engine: `src/graph/stats.ts` and the older `src/stats.ts`.
- **Graph state holder.** `GraphBase` exists in a newer and an older version. It keeps the selected country's data and statistics, and the arrays the plots draw from them:
  - point colours;
  - date labels;
  - marker sizes.

  It also computes axis ranges.

Modules and the files they model:

| module (file) | models |
|---|---|
| `JsNumber` (js_number.dfy) | JavaScript numbers as reals plus `Infinity`, `-Infinity` and `NaN`; also `Math.trunc`, `Math.min`, `Math.max`, `Number.MAX_VALUE` and `Number.MIN_VALUE` |
| `DataSource` (data_source.dfy) | the `CountryData` record of src/data/DataSource.ts |
| `DataSourceImpl` (data_source_impl.dfy) | the Map-backed store and its three getters |
| `Lists`, `Stores` (lists.dfy) | the lodash operations the sources apply (`_.reverse`, `_.drop`, `pop`, `_.remove`, `join`), and a Map filled by `set` calls in order |
| `JohnHopkins` (john_hopkins.dfy) | `makeKey`, `difference`, and the store that `load` builds from the parsed CSV rows |
| `CSSEGISandData` (csse_data.dfy) | the older loader, which builds `data_t` by key lookup |
| `MultipleSource` (multiple_source.dfy) | the merge of several sources into one store |
| `UkData` (uk_data.dfy) | src/data.ts: the filter string, the status check, the zero-case filter and the column projection |
| `GovUK` (gov_uk.dfy) | the GOV.UK source: default options, zero-case removal, and the single-record store |
| `RollingWindow` (rolling.dfy) | `getRolling`: a running-sum loop, proved equal to brute-force window sums |
| `Stats` (stats.dfy) | `getStats` and `projectLinear` of src/graph/stats.ts |
| `LegacyStats` (legacy_stats.dfy) | `getStats` of src/stats.ts |
| `Graph` (graph.dfy) | `GraphBase` of src/graph/Graph.ts, plus its display arrays and range helpers |
| `LegacyGraph` (legacy_graph.dfy) | `GraphBase` of src/Graph.ts |

Some code is the same in two files. It is modelled once and reused:

- `getRolling` and `projectLinear` appear in both stats files.
- `makeKey` and `difference` appear in both John Hopkins loaders.
- `getLogAxisRange` appears in both Graph files, at src/Graph.ts:101-108 and src/graph/Graph.ts:152-159.
- The colour, label and marker arrays are built the same way in both Graph files.

Classes whose fields the source updates in place are Dafny classes. Each data source extends `DataSourceImpl` in the source; here each one holds a `DataSourceImpl` as `base` instead. The rest of the model is functions and lemmas. The loops in the source are methods, proved against those functions.

The merge in src/data/MultipleSource.ts copies every entry of every source. It does not drop countries whose case series is empty.

## Model

| member | source | states |
|---|---|---|
| `RollingWindow.GetRolling` | src/graph/stats.ts:25-37 | The running-sum loop gives exactly the brute-force window sums over scale: element i is the sum of data[i..i+interval] divided by scale. The result is empty when the window is longer than the data; otherwise it has length n - interval + 1. The same code is at src/stats.ts:19-31. |
| `RollingWindow.RollingAverageConstant` | src/graph/stats.ts:41 | A constant daily series c has rolling average c everywhere. |
| `RollingWindow.RollingSumConstant` | src/graph/stats.ts:42 | A constant series c has rolling sum interval * c everywhere. |
| `RollingWindow.RollingExample` | src/graph/stats.ts:25-37 | A two-day average of 10, 20, 30, 40 is 15, 25, 35. |
| `JsNumber.Trunc` | src/graph/Graph.ts:156 | `Math.trunc` rounds toward zero: within one below a non-negative x, within one above a negative x. |
| `JsNumber.Min` | src/graph/Graph.ts:185 | `Math.min` of two numbers is NaN iff either is NaN. Otherwise it is one of them and no greater than either. |
| `JsNumber.Max` | src/graph/Graph.ts:185 | `Math.max` of two numbers is NaN iff either is NaN. Otherwise it is one of them and no less than either. |
| `Stats.MinOf` | src/graph/stats.ts:54 | `Math.min(...s)` is +Infinity exactly for an empty list. Otherwise it is an element of s, and it is a lower bound of every element. |
| `Stats.MaxOf` | src/graph/stats.ts:55 | `Math.max(...s)` is -Infinity exactly for an empty list. Otherwise it is an element of s, and it is an upper bound of every element. |
| `Stats.GetStats` | src/graph/stats.ts:39-60 | The method computes the reference statistics `StatsOf`. `r` has max(0, cases - activeWindow - 1) values. activeMin/activeMax bound every active value; rollingDeathsMin/Max bound every smoothed death count. |
| `Stats.StatsLengths` | src/graph/stats.ts:41-47 | Each rolling series is window - 1 shorter than its input, or empty. `r` is two shorter than active, or empty. |
| `Stats.ActiveClamped` | src/graph/stats.ts:42 | Every active value is 0 or at least 1. A window sum of at least 1 is kept as it is. |
| `Stats.RLookAhead` | src/graph/stats.ts:44-47 | `r[i]` reads `active[i + 1]`, which is always in range. `r[i]` is finite iff that active value is at least 1; it is then activeWindow * cases[i] / active[i + 1]. |
| `Stats.ConstantSeries` | src/graph/stats.ts:41-47 | Suppose daily cases are a constant c with activeWindow * c >= 1. Then the smoothed cases are c, active is activeWindow * c, and every `r` is exactly 1. |
| `Stats.ClampAboveOne` | src/graph/stats.ts:42 | The clamp leaves a series whose values are all at least 1 unchanged. |
| `Stats.ConstantR` | src/graph/stats.ts:44-47 | With constant smoothed cases and active values, every `r` is 1. |
| `Stats.EndToEndExample` | src/graph/stats.ts:39-60 | 30 days of 100 cases, with 7-day averages and a 14-day active window, give 24 cases of 100, 11 active values of 1400, and 9 values of `r`, all 1. |
| `Stats.ProjectLinear` | src/graph/stats.ts:62-69 | `projectLinear` returns max(1, steps) values. Value k is data[0] + (k + 1) * (data[0] - data[1]). The same code is at src/stats.ts:46-53. |
| `LegacyStats.LegacyWindows` | src/stats.ts:33-44 | About `LegacyStats.GetStats`, the older `getStats`: it keeps the raw data; smoothed cases and deaths are the window means of the daily series, active is the window sum of smoothed cases, and `r` has one value per active value. `LegacyStats.LegacyShape` states `r` itself. |
| `LegacyStats.LegacyShape` | src/stats.ts:33-44 | The older `r` has one value per active value and divides by active on the same day. It is finite iff that active value is non-zero. |
| `LegacyStats.VariantsCompared` | src/stats.ts:35-42 | The two engines give the same smoothed cases and deaths. The newer one clamps the older active values and has two fewer `r` values, each read one day ahead. |
| `LegacyStats.LegacyConstantSeries` | src/stats.ts:36-42 | With constant daily cases c and activeWindow * c >= 1, every older `r` value is 1. |
| `DataSourceImpl.DataSourceImpl.constructor` | src/data/DataSourceImpl.ts:13-16 | A new store is empty and has the given source name. |
| `DataSourceImpl.DataSourceImpl.GetStoreEntries` | src/data/DataSourceImpl.ts:18-20 | A pair is listed iff its key is stored with that value. |
| `DataSourceImpl.DataSourceImpl.GetCountryKeys` | src/data/DataSourceImpl.ts:22-24 | The listed keys are exactly the stored keys. |
| `DataSourceImpl.DataSourceImpl.GetCountryData` | src/data/DataSourceImpl.ts:26-28 | The result is undefined iff the key is absent; otherwise it is the stored value. |
| `DataSourceImpl.DataSourceImpl.GettersAgree` | src/data/DataSourceImpl.ts:18-28 | The three getters describe one store: keys, entries and lookups agree. |
| `Lists.Reverse` | src/data/JohnHopkins.ts:30 | `_.reverse` keeps the length, and index k of the result is index n - 1 - k of the input. |
| `Lists.Filter` | src/data.ts:42 | What is kept satisfies the predicate. Every input element that satisfies it is kept, and nothing else is. |
| `Lists.FilterPartition` | src/data.ts:42 | The kept and the rejected elements together are the input, as a multiset. |
| `Lists.Remove` | src/data/GovUK.ts:41 | `_.remove` leaves, in order, the elements the predicate rejects, and returns, in order, those it accepts. |
| `Lists.SplitJoin` | src/data.ts:20-22 | Splitting a `join(sep)` result on sep gives the parts back when no part holds sep. |
| `Stores.SetEach` | src/CSSEGISandData.ts:36-42 | Setting each item's pair into an empty map in order gives the last-writer-wins map of those pairs. |
| `Stores.AssignKeys` | src/data/JohnHopkins.ts:34-46 | After a sequence of `set` calls, the keys are exactly those that were set. |
| `Stores.AssignLast` | src/data/JohnHopkins.ts:38 | A key holds the value of the last `set` with that key. |
| `JohnHopkins.MakeKey` | src/data/JohnHopkins.ts:53-55 | The key is the country column alone, or `country: province` when the province is non-empty. The same code is at src/CSSEGISandData.ts:59-61. |
| `JohnHopkins.KeyRoundTrip` | src/data/JohnHopkins.ts:53-55 | The country and province can be read back from a key when the country name has no ':'. |
| `JohnHopkins.KeysDistinguishRegions` | src/data/JohnHopkins.ts:35 | Two rows share a key only if they name the same country and province, given country names without ':'. |
| `JohnHopkins.Difference` | src/data/JohnHopkins.ts:57-63 | `difference` has max(0, n - 1) values, and value i is data[i] - data[i + 1]. The same code is at src/CSSEGISandData.ts:63-69. |
| `JohnHopkins.DiffTelescopes` | src/data/JohnHopkins.ts:57-63 | The differences add back up: each cumulative total is the oldest total plus the daily counts from that day on. |
| `JohnHopkins.DiffNonNegative` | src/data/JohnHopkins.ts:57-63 | A newest-first cumulative series that never increases with the index has no negative daily count. |
| `JohnHopkins.HeaderDates` | src/data/JohnHopkins.ts:30 | The header dates are the header's columns after the first four, parsed as `M/D/YY`, newest first: date k is the column k places from the end. |
| `JohnHopkins.JhDatesNewestFirst` | src/data/JohnHopkins.ts:30-31 | About `JohnHopkins.JhDates`: the store's dates are the header's date columns, newest first, with the oldest popped off: date k is the column k places from the end, and the first date column is never among them. |
| `JohnHopkins.Series` | src/data/JohnHopkins.ts:36-37 | A row's cumulative series has one value per column after the first four, newest first: value k is the number in the column k places from the end. |
| `JohnHopkins.StoreKeys` | src/data/JohnHopkins.ts:33-46 | After `load`, the store's keys are exactly the keys of the case rows. |
| `JohnHopkins.StoreLastWins` | src/data/JohnHopkins.ts:34-46 | A key holds the record built from the last case row with that key. Its deaths come from the death row at the same position, not from a row with the same key. |
| `JohnHopkins.EntryShape` | src/data/JohnHopkins.ts:30-44 | Take a row as wide as the header. Its daily cases line up with the popped dates, and both are one shorter than the cumulative cases. Daily cases and deaths are the differences of the cumulative series. |
| `JohnHopkins.MakeEntry` | src/data/JohnHopkins.ts:35-45 | The loop body builds the key and the record for one row; the display name is the key. |
| `JohnHopkins.JohnHopkins.constructor` | src/data/JohnHopkins.ts:19-22 | A new source is named "John Hopkins" and has an empty store and no dates. |
| `JohnHopkins.JohnHopkins.Load` | src/data/JohnHopkins.ts:24-47 | `load` sets the dates to the header dates with the oldest popped. It clears the store, then sets one record per case row, in row order. |
| `CSSEGISandData.CasePartialsKeys` | src/CSSEGISandData.ts:36-42 | The case loop creates one record per distinct case-row key, none with deaths yet. |
| `CSSEGISandData.DeathEntriesKeys` | src/CSSEGISandData.ts:44-46 | The death entries carry exactly the keys of the death rows. |
| `CSSEGISandData.AttachDeathsKeys` | src/CSSEGISandData.ts:43-47 | The deaths loop succeeds iff every death key names a country. On success it keeps the set of countries, their names and their case series. |
| `CSSEGISandData.AttachDeathsPresent` | src/CSSEGISandData.ts:44-47 | After the deaths loop, a country has deaths iff some death row carries its key. |
| `CSSEGISandData.AttachDeathsLastWins` | src/CSSEGISandData.ts:44-47 | A country's deaths are those of the last death row with its key. |
| `CSSEGISandData.AddDeathRows` | src/CSSEGISandData.ts:44-47 | The deaths loop computes the reference fold. It stops at the first unknown key. |
| `CSSEGISandData.AddDailyCounts` | src/CSSEGISandData.ts:48-51 | The last loop completes every country, or fails if some country has no deaths. |
| `CSSEGISandData.LoadData` | src/CSSEGISandData.ts:29-53 | `loadData` after parsing computes the reference result `LoadResult`. |
| `CSSEGISandData.LoadSucceedsIff` | src/CSSEGISandData.ts:29-53 | `loadData` succeeds iff every death-row key is a case-row key and every case-row key is a death-row key. |
| `CSSEGISandData.CountryShape` | src/CSSEGISandData.ts:33-51 | On success, every country's cases and deaths are the differences of its cumulative series. The dates are the header minus its first four columns, none popped. With cumulative values as many as the dates, there is one fewer daily value. |
| `MultipleSource.MergeKeys` | src/data/MultipleSource.ts:20-27 | After the merge, the keys are the prior keys plus every key of every source. Nothing is dropped. |
| `MultipleSource.MergeLastWins` | src/data/MultipleSource.ts:21-25 | A key holds the value from the last source that has it. |
| `MultipleSource.MergeUntouched` | src/data/MultipleSource.ts:23-25 | A key that no source has keeps its prior value, or stays absent. |
| `MultipleSource.MultipleSource.constructor` | src/data/MultipleSource.ts:15-18 | The source is named "Multiple Sources", has an empty store, and keeps the given source list. |
| `MultipleSource.MultipleSource.Load` | src/data/MultipleSource.ts:20-27 | Sources load in order. Each source's entries are copied over this store after it loads, so the store becomes the in-order merge of the loaded stores over the old one. |
| `UkData.ToFilterString` | src/data.ts:20-22 | The filter string is empty iff there are no filters, and starts with the first `key=val` piece. `UkData.FilterStringRoundTrip` reads it back. |
| `UkData.FilterStringRoundTrip` | src/data.ts:20-22 | The filter string can be read back into the same filters when keys and values hold no ';' or '='. |
| `UkData.PieceRoundTrip` | src/data.ts:21 | One `key=val` piece can be read back into its key and value. |
| `UkData.NoFilters` | src/data.ts:20-22 | No filters give the empty string. |
| `UkData.LoadData` | src/data.ts:39-48 | Once the request completes, `loadData` computes the reference result: an error for status 400 or more (a branch axios's default status check keeps from being reached; see "Left out"), otherwise the columns of the non-zero-case records. |
| `UkData.CasesOfFilter` | src/data.ts:42-45 | Removing zero-case records and then taking the cases column equals taking the column and then removing its zeros. |
| `UkData.Columns` | src/data.ts:43-48 | The four columns have one entry per record, taken from record i; a missing `cumDeaths` becomes 0. `UkData.LoadShape` states it for the load. |
| `UkData.LoadShape` | src/data.ts:39-48 | The load fails iff the status is 400 or more, with the status text as the error. On success the four columns have one length, no case count is 0, and the cases are the API's cases in order without the zeros. |
| `UkData.RemovedAreZeros` | src/data.ts:42 | The records kept and the records removed make up the response. |
| `GovUK.EntryShape` | src/data/GovUK.ts:41-54 | The stored record's four columns have one entry per non-zero-case record, and none of its cases is 0. Every non-zero case count appears. The R columns have one entry per R record. |
| `GovUK.GovUK.constructor` | src/data/GovUK.ts:21-24 | Missing options default to `areaType=overview`; any given options are kept. |
| `GovUK.GovUK.Load` | src/data/GovUK.ts:26-55 | `load` sends the filter string of the options. It clears the store and then holds only "United Kingdom": the record of the non-zero-case records and the R records. |
| `GovUK.DefaultFilters` | src/data/GovUK.ts:23-29 | The default options give a filter string that reads back as the one overview filter. |
| `Graph.Colors` | src/graph/Graph.ts:119-121 | There is one colour per `r` value, red iff r > 1. The same code is at src/Graph.ts:69-71. |
| `Graph.SteadyIsGreen` | src/graph/Graph.ts:119-121 | A steady epidemic, with constant daily cases, is drawn all green. |
| `Graph.DateLabels` | src/graph/Graph.ts:123-126 | There is one label per date. Label i shows date i iff i % activeWindow == 0; otherwise it is blank. The same code is at src/Graph.ts:73-76. |
| `Graph.LabelsPeriodic` | src/graph/Graph.ts:123-126 | The first label is shown, and the labels repeat with period activeWindow. |
| `Graph.MarkerSizes` | src/graph/Graph.ts:128-131 | There is one marker per active value: the large one at index 0, small ones elsewhere. |
| `Graph.GetLogAxisRange` | src/graph/Graph.ts:152-159 | The high end never changes. When the span exceeds decadeLimit, the low end becomes trunc(high - decadeLimit), leaving a span within one of the limit; otherwise the low end stays too. The same code is at src/Graph.ts:101-108. |
| `Graph.FoldBounds` | src/graph/Graph.ts:182-189 | The reduce is NaN iff some counted value is NaN. Otherwise its two ends bound every counted value. |
| `Graph.FoldAttained` | src/graph/Graph.ts:182-189 | Each end of the reduce is its start value or a counted value, and it is the start pair when nothing is counted. |
| `Graph.AsWrittenReadsPastEnd` | src/graph/Graph.ts:182-189 | As written, one counted index past the end of the series makes the result (NaN, NaN). |
| `Graph.MinMaxInRangeSpec` | src/graph/Graph.ts:175-191 | The range is limited to indices where both series exist. It is the start pair when nothing is counted, and NaN iff a counted value is NaN. Otherwise it bounds every value whose active count lies in the window, and each end is attained or is its start. |
| `Graph.SteadyRangeOfR` | src/graph/Graph.ts:175-191 | For 30 days of 100 cases, with windows 7/7/14 and the cases window [1000, 10000], the range of R is (NaN, NaN) as written and [1, 1] when limited. |
| `Graph.TickFloor` | src/graph/Graph.ts:197 | `trunc(x/dtick)*dtick` is NaN iff x is NaN and keeps an infinite x. When x/dtick overflows it is +Infinity or -Infinity with the sign of x. |
| `Graph.TickFloorWhole` | src/graph/Graph.ts:197 | A finite low end is a whole number of ticks. |
| `Graph.TickFloorNear` | src/graph/Graph.ts:197 | Where x/dtick does not overflow, the low end is within one tick below a non-negative x and within one tick above a negative x (rounding is toward zero). |
| `Graph.TickAboveNegative` | src/graph/Graph.ts:197 | A negative value rounded toward zero to a multiple of the tick lies at or above it and less than one tick above it. |
| `Graph.NegativeMinimumClipped` | src/graph/Graph.ts:197 | A negative minimum of -0.3 with a tick of 0.25 gives a lower axis end of -0.25, above the minimum. |
| `Graph.TickCeilCapped` | src/graph/Graph.ts:198-199 | The capped upper end is NaN iff x is NaN and is at most 5. When x/dtick overflows it is 5 for a large x and -Infinity for a very negative x. |
| `Graph.TickCeilNear` | src/graph/Graph.ts:198-199 | Unless x/dtick overflows downwards, the upper end is 5 or above x; for x >= 0 it is 5 or at most one tick above x. |
| `Graph.EmptyWindowRange` | src/graph/Graph.ts:186-199 | With no active value in the cases window the range starts from `[MAX_VALUE, MIN_VALUE]`. With the tick 0.25 that src/graph/Scatter2D.ts:97 passes, the low end overflows to +Infinity and the high end is 0.25. |
| `Graph.GraphBase.constructor` | src/graph/Graph.ts:61-93 | The constructor keeps the parameters. For the extra-small view port it sets fonts 10/12/8/10/8 and markers 5/10; otherwise fonts 12/17/12/11/14 and markers 10/20. Nothing is selected and the display arrays are empty. |
| `Graph.GraphBase.SetCountry` | src/graph/Graph.ts:95-101 | A country the source does not know changes nothing. Otherwise the country's data is selected and its statistics are computed. The holder stays consistent. |
| `Graph.GraphBase.CalcStats` | src/graph/Graph.ts:103-109 | Without data this does nothing. Otherwise the statistics of the data are computed and the display arrays are derived from them. |
| `Graph.GraphBase.CalcGraphData` | src/graph/Graph.ts:111-117 | The colours, labels and markers are those of the given statistics; data and statistics are left alone. |
| `Graph.GraphBase.SetColors` | src/graph/Graph.ts:119-121 | `colors` becomes the colours of `r`; nothing else changes. |
| `Graph.GraphBase.SetDateLabels` | src/graph/Graph.ts:123-126 | `dateLabels` becomes the labels of the raw dates; nothing else changes. |
| `Graph.GraphBase.SetMarkerSize` | src/graph/Graph.ts:128-131 | `markerSizes` becomes the markers of the active series; nothing else changes. |
| `Graph.GraphBase.MinMaxInActiveCasesRange` | src/graph/Graph.ts:175-191 | The result is null iff there are no statistics. It is the start pair when no day's active value lies in the window; otherwise its ends bound every such day's value. |
| `Graph.GraphBase.RRange` | src/graph/Graph.ts:193-204 | The result is null iff there are no statistics. The low end is a whole number of ticks, within a tick below a non-negative minimum, and +Infinity when the minimum over the tick overflows, as it does for the start pair (see `Graph.EmptyWindowRange`); a negative minimum is rounded up toward zero, so it can fall below the axis (see `Graph.NegativeMinimumClipped`). The high end is at most 5, and otherwise above the maximum unless the maximum over the tick overflows downwards. NaN stays NaN. The pair is exactly the tick rounding of the minimum and the capped rounding of the maximum. |
| `LegacyGraph.MaxLogAxis` | src/Graph.ts:120-124 | The axis top lies strictly above log. It is trunc(log) + 0.69897 or trunc(log) + 1, and for log >= 0 at most 0.69897 above log. |
| `LegacyGraph.MaxLogAxisMonotone` | src/Graph.ts:120-124 | For maxima of at least one, a larger maximum never gets a lower axis top. |
| `LegacyGraph.GraphBase.constructor` | src/Graph.ts:42-47 | The constructor keeps the three windows and starts with no data, no statistics and empty arrays. |
| `LegacyGraph.GraphBase.SetRawData` | src/Graph.ts:49-51 | `setRawData` stores the data and nothing else. |
| `LegacyGraph.GraphBase.CalcStats` | src/Graph.ts:53-59 | Without data this does nothing. Otherwise it computes the older statistics and derives the display arrays from them. |
| `LegacyGraph.GraphBase.SetColors` | src/Graph.ts:69-71 | `colors` becomes the colours of the older `r`; nothing else changes. |
| `LegacyGraph.GraphBase.SetDateLabels` | src/Graph.ts:73-76 | `dateLabels` becomes the labels of the raw dates; nothing else changes. |
| `LegacyGraph.GraphBase.SetMarkerSize` | src/Graph.ts:78-80 | The marker is 20 at index 0 and 10 elsewhere, one per active value; nothing else changes. |

## Left out

- Network and parsing are not modelled:
  - the axios requests, the papaparse CSV parsing and async sequencing;
  - `Number(v)`, which is the parameter `toNumber`;
  - the HTTP responses, which are parameters;
  - each source's own `load` inside MultipleSource, whose outcome is the parameter `loaded`.
- A failed request is not modelled, apart from the status check of src/data.ts.
- MultipleSource.MultipleSource.Load: in the source, a source whose `load` rejects makes the merge reject (src/data/MultipleSource.ts:20-27 awaits each load in turn), leaving the entries of the sources before it already copied. The model takes each loaded store as given and has no rejection path.
- UkData.LoadData: the `status >= 400` branch of src/data.ts:39-41 is modelled as written, but axios's default `validateStatus` already rejects every non-2xx response before that line runs, and the source sets no other. So in the running program the branch is not reached, and an HTTP error surfaces as axios's rejection, which is not modelled.
- Numbers are exact reals, with no IEEE rounding. Non-finite values are modelled where the statistics and range code produce them: division by zero, Math.min/Math.max of nothing, reads past the end of an array, and the overflow of `x/dtick` in `rRange`. Signed zero is not modelled.
- JsNumber.DivBy: a quotient becomes an infinity once its magnitude reaches 2^1024 - 2^970, where round-to-nearest overflows. Below that bound the quotient is kept exact; `Times` and `Plus` are kept exact throughout, since on the range code's inputs their results do not exceed the magnitude of a value already finite.
- Map iteration order is not modelled. Stores are Dafny maps, and `getStoreEntries`/`getCountryKeys` return sets.
- Dates are kept as the text and format given to `moment`. Date arithmetic and `format` are not modelled, so a shown label carries the date rather than its formatted text.
- Not modelled: `minLogAxis` and `maxLogAxis` of src/graph/Graph.ts, `deathsRange`, and the `Math.pow(10, …)` bounds of `minMaxInActiveCasesRange`. They need log10 and pow. The model takes the log values, and the case window they give, as inputs.
- `setCustomData` and `setTitle` in both Graph files are not modelled: they format strings for hover text and the title.
- Graph.GraphBase.CalcGraphData: always returns normally. In the source, `setTitle` then reads `customData[0][0]` and `rawData.cases[0]`, which throws a TypeError when the series are empty; the colours, labels and marker sizes are already assigned at that point. The same holds for `Graph.GraphBase.CalcStats`.
- LegacyGraph.GraphBase.CalcStats: always returns normally, while the source's `setTitle` throws a TypeError on empty series after the display arrays are assigned, as above.
- The Plotly renderers, the React app, the defaultViews JSON and population.ts are not part of this model. The default views are the parameter `views`.
- `CountryData` carries an optional `rData` field. GovUK adds it to its record, although the TypeScript type does not declare it.
- GovUK.GovRecord: `cumDeaths` is always a number. A missing value from the API is not modelled.
- RollingWindow.GetRolling: requires a non-zero scale. A zero averaging window makes the source divide by zero, and that case is not modelled.
- Stats.GetStats: requires casesAveraging and deathsAveraging of at least one, for the same reason. The same holds for `Stats.StatsOf`, `LegacyStats.GetStats` and the lemmas about them.
- Graph.GraphBase.constructor: requires averaging windows of at least one, because the statistics are computed with them. The same holds for `Graph.GraphBase.CalcStats` and `LegacyGraph.GraphBase.constructor`.
- Stats.ProjectLinear: requires at least two values. On shorter input the source reads undefined and gives NaN.
- Graph.GraphBase.RRange: requires a positive tick. The source would divide by zero.
- MultipleSource.MultipleSource.Load: requires that the merged store is not one of its own sources. The source would then recurse into its own `load` without end.
- MultipleSource.MultipleSource.Load: when one source object appears twice in the list, it states the loaded store only for its last appearance.
- Graph.GraphBase.MinMaxInActiveCasesRange: is modelled with the corrected index limit of the finding below, not as written.
- Graph.GraphBase.RRange: rests on the corrected `MinMaxInActiveCasesRange`. On the input of the finding below the source's range is `[NaN, NaN]`, which the model does not produce.
- Graph.GraphBase.MinMaxInActiveCasesRange: keeps the source's start pair `[Number.MAX_VALUE, Number.MIN_VALUE]`, as written. `Number.MIN_VALUE` is the smallest positive double, so an upper end never drops below it, even when every counted value is negative.

## Findings

| source | as written | input that shows it | evidently intended | confidence | as-written member | corrected member |
|---|---|---|---|---|---|---|
| src/graph/Graph.ts:182-189 | The reduce runs over every index of `active`, but `r` is two values shorter. So `this.stats[prop][i]` reads undefined for the last two days, and when either day's active value is in the cases window, `Math.min`/`Math.max` make both ends NaN. | 30 days of 100 daily cases, averaging windows 7 and 7, active window 14, cases window [1000, 10000]: active is 11 values of 1400, r is 9 values of 1, and index 9 is counted. | Restrict the reduce to indices where both `active` and the chosen series have a value, which gives [1, 1] here. | not executed | `Graph.AsWrittenReadsPastEnd` | `Graph.MinMaxInRangeSpec` |
