# U.S. renewable-energy analysis: fetch, align, label

A Dafny model of the core of a small analysis script that downloads annual
U.S. electricity generation per renewable source from the EIA statistics API,
aligns the series into one table indexed by year, and plots it.

What is modelled:

- **Fetching** (`Fetcher`, `fetch_eia_data`): a loop over the series
  dictionary, one request per series in dictionary order. A response with
  status 200 stores its data list under the series name; any other status
  ends the loop at once with `None`. The HTTP exchange is an input: one
  `Response(status, data)` per requested series. The method also returns how
  many requests it issued, so that "later series are not requested" is part
  of its contract.
- **Alignment** (`Aligner`, `process_data_to_dataframe`): a loop collects one
  single-series frame (period -> generation, renamed to the series name) per
  series with a non-empty record list and skips the empty ones. The frames are
  outer-joined on period, the rows are sorted by period and every missing cell
  becomes 0. A record whose `generation` is null or missing gets NaN in its
  frame, so it too ends up 0. A non-empty series none of whose records has a
  `generation` field gives a frame without that column, and selecting the
  column raises a KeyError; here that is `Failure(MissingColumn(name))` for
  the first such series. An empty list of frames makes the concatenation
  raise; here that is `Failure(NoData)`. `Aligned` is the function the loop is proved against.
  `AlignmentTheorems` proves what the table means in terms of the raw series.
- **Row order** (`Periods`): periods are strings, so the sort compares them
  as Python compares strings: code point by code point, with a proper prefix
  first. `Less` is proved to be a strict total order. `YearOrder` proves that
  on digit strings of one length this is numeric order, so four-digit years
  come out chronologically.
- **Tick labels** (`TickFormat`, the y-axis formatter): `format(n, ',')` on
  integers. The model covers the sign, the comma before every group of three
  digits counted from the right, the equality with `str(n)` once the commas
  are deleted, and a parse-back round trip.

The dictionaries (the series to fetch, the fetched data) are sequences of
pairs in insertion order. A record's `generation` field is a number, null,
or absent (`Field`); numbers are integers.

## Model

| member | source | states |
|---|---|---|
| Fetcher.FetchEiaData | analysis.py:16-45 | returns None exactly when some response status is not 200; in that case the first such request is the last one issued and every earlier one succeeded; otherwise it issues every request and returns one entry per requested name, in request order, holding that response's data list, with unique names |
| Aligner.ProcessDataToDataFrame | analysis.py:47-79 | the loop that skips empty series and collects one frame per non-empty series, then joins, sorts and fills, yields exactly `Aligned(raw)` |
| Aligner.FirstLacking | analysis.py:57-63 | finds a series whose records all lack the `generation` field, with every series before it having the field somewhere; or finds none, and then no series lacks it |
| Aligner.Lookup | analysis.py:69 | a frame yields a value for a period exactly when it has a row labelled with that period, and the value is that of such a row |
| Aligner.OuterJoin | analysis.py:69-71 | the joined index is strictly ascending and holds exactly the periods of all frames |
| AlignmentTheorems.AlignedFailsIffNoData | analysis.py:57-69 | the transform fails with NoData exactly when no series has a record; this includes the empty dictionary |
| AlignmentTheorems.AlignedMissingColumn | analysis.py:57-63 | the transform fails with a missing-column error exactly when some non-empty series has no record with a `generation` field, and the error names the first such series |
| AlignmentTheorems.AlignedColumnCount | analysis.py:57-69 | the table has one column per series with a non-empty record list |
| AlignmentTheorems.AlignedColumnOfSeries | analysis.py:57-69 | each series with records has a column named after it, placed after exactly one column per non-empty series before it |
| AlignmentTheorems.AlignedSeriesOfColumn | analysis.py:57-69 | each column belongs to a non-empty series, the one with as many non-empty series before it as there are columns before the column |
| AlignmentTheorems.ColumnPositionsIncrease | analysis.py:57-66 | columns keep dictionary order: a non-empty series' column precedes that of any later series |
| AlignmentTheorems.AlignedRows | analysis.py:69-71 | the rows are exactly the periods found in some series' records, strictly ascending; every row has one cell per column |
| AlignmentTheorems.AlignedCell | analysis.py:62-76 | in the column of a series, the cell of a row is the generation of the series' record for the row's period when that is a number, and 0 when it is null or absent or the series has no record for the period |
| AlignmentTheorems.AlignedIgnoresOtherFields | analysis.py:62-65 | two inputs that agree on series names and on every record's period and generation give the same result, whatever the other fields hold |
| AlignmentTheorems.ExampleSolarWind | analysis.py:47-79 | Solar {2020: 5, 2021: 7} and Wind {2021: 3} give rows 2020, 2021 with Solar [5, 7] and Wind [0, 3] |
| AlignmentTheorems.ExampleOnlyEmptySeries | analysis.py:58-69 | a dictionary whose only series is empty fails with NoData |
| AlignmentTheorems.ExampleNullGeneration | analysis.py:62-76 | Solar {2020: null} gives row 2020 with Solar [0] |
| AlignmentTheorems.ExampleMissingColumn | analysis.py:57-63 | Solar {2020: 5} followed by a Wind series whose one record has no `generation` field fails, naming Wind |
| Periods.LessIrreflexive | analysis.py:71 | no period sorts before itself |
| Periods.LessTransitive | analysis.py:71 | the string order used by the sort is transitive |
| Periods.LessTotal | analysis.py:71 | of two different periods one sorts before the other |
| Periods.YearOrder | analysis.py:71 | on digit strings of equal length the string order is the numeric order |
| Periods.Insert | analysis.py:69-71 | adding a period to a strictly ascending sequence keeps it strictly ascending and adds exactly that period |
| Periods.InsertAll | analysis.py:69-71 | adding many periods keeps the sequence strictly ascending and adds exactly those periods |
| Periods.SortedUnion | analysis.py:69-71 | the result is strictly ascending and holds exactly the given periods |
| TickFormat.Decimal | analysis.py:101 | the decimal form of a natural number is a non-empty digit string without leading zeros |
| TickFormat.ParseDecimalRoundTrip | analysis.py:101 | reading back the decimal form gives the number |
| TickFormat.GroupedShape | analysis.py:101 | the grouped form starts with a non-zero digit (unless the number is 0); a character is a comma exactly when 3, 7, 11, ... characters follow it, and every other character is a digit |
| TickFormat.FormatThousands | analysis.py:101 | the label starts with '-' exactly for negative numbers, and the rest follows the comma pattern |
| TickFormat.GroupedStripsToDecimal | analysis.py:101 | deleting the commas of the grouped form gives the plain decimal form |
| TickFormat.FormatThousandsStripsToDecimal | analysis.py:101 | deleting the commas of a label gives `str(n)` |
| TickFormat.SignedDecimalRoundTrip | analysis.py:101 | `str(n)` is a well-formed signed digit string that reads back as `n` |
| TickFormat.TickLabelRoundTrip | analysis.py:101 | reading back a label with its commas deleted gives the number |
| TickFormat.FormatThousandsInjective | analysis.py:101 | different numbers get different labels |

## Left out

- Network I/O: building the request URL from the series id and the API key, the GET itself, decoding the JSON body, and `time.sleep(0.5)`. The fetcher receives each request's status and data list as input.
- The response envelope: a body without `response.data` makes the script raise a KeyError. The model has no malformed responses.
- Console output (`print`, `DataFrame.info()`, `head()`), which carries no behaviour.
- `plot_generation_trends`: figure building, styling, `savefig` and `plt.show`. Only the tick-label callback is modelled.
- TickFormat.TickLabel: tick values are floats truncated by `int(x)`. The model takes an integer, so truncation is not modelled.
- The `__main__` block: the hard-coded key and series dictionary. Its `if raw_energy_data:` guard also skips the alignment when the fetched dictionary is empty. That guard is not modelled.
- AlignmentTheorems.AlignedCell, Aligner.ProcessDataToDataFrame, Aligner.Aligned, AlignmentTheorems.AlignedRows: repeated periods within one series are not modelled as pandas handles them. With two or more frames, a frame with a repeated period makes the concatenation raise, but the model returns `Success`. With a single frame, pandas keeps every duplicate row, but the model's index holds the period once and `Lookup` takes the first matching row. `AlignedCell` is therefore stated only for series without repeated periods.
- The `period` field: every modelled record has one. A series none of whose records has a `period` raises a KeyError at the column selection, and a record without one gets a NaN index label. Neither case is modelled. The `generation` field may be absent or null, and both cases are modelled.
- Column dtypes: `generation` may stay a string in an object column. The model treats generation amounts as integers and fills with the integer 0.
- The row order that the concatenation produces before `sort_index` is not modelled, because only the sorted table is ever returned.
- Fetcher.FetchEiaData: requires one response per request. A request the loop never reaches still has a response in the input, and the model does not use it.
