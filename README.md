# Nord Pool Elbas price parsing, modelled in Dafny

This project models the parsing core of a small client for the Nord Pool
Elbas market-data API. The client's `Prices._parse_json` takes the decoded
response of one page request. That response is `{currency, data: {DateUpdated,
Rows}}`, and each row has a `Name`, an `IsExtraRow` flag and `Columns` of
`{Name, Value}`. The parser turns it into
`{updated, currency, areas: {areas[0]: {column name: [{start, end, value}, ...]}}}`.
`Prices.hourly` picks the default column list and then hands over to the same
transform.

The parser does the following, in order:

- It fails with `CurrencyMismatch` when the response's currency is not the
  configured one.
- It parses the update time.
- It walks the rows in order. It skips a row whose name is null, or whose first
  token (the name is split on `-` and on space) is not `PH`.
- For a `PH` row, it computes the start of the hour. This is the date token,
  a `-`, and the 1-based hour token minus one, zero-padded to two digits, all
  passed to the timestamp parser. The end is the start plus one hour.
- It walks the row's columns. It skips a column that is not on a non-empty
  allow-list. It creates an empty list for a new column name, even in an extra
  row. Unless the row is an extra row, it appends a point. The point holds the
  raw text for `Product` and the converted number for every other column.
- All series go under the first requested area only, however many areas were
  asked for.

Files:

- `wrappers.dfy` (module `Wrappers`): `Option` and `Result`.
- `strings.dfy` (module `Strings`): the Python built-ins the row-name handling
  uses. These are `str.split` with one separator, `str.join`, `int()` on a
  token and `format(n, "02")`. Each comes with its round-trip lemma.
- `elbas.dfy` (module `Elbas`): the response and result data model, and the
  functional specification of the walk. The specification is one step function
  per column (`AddColumn`), one per row (`ParseRow`) and left-to-right folds
  (`ColumnsFrom`, `RowsFrom`), wrapped by `Parse`. The file also holds the
  imperative `ParseJson`, whose `for` loop over the rows updates the series
  map in place and is proved to return exactly `Parse`. The loop over one
  row's columns, nested inside it in the source, is the method
  `ParseColumns`, which is proved to return exactly `ColumnsFrom`. The file
  also holds `Hourly`.
- `elbas_properties.dfy` (module `ElbasProperties`): reference definitions
  that look at one column name at a time. `Cells` gives, in row order, the
  cells that yield points for a name. `SeenKeys` gives the created keys.
  `Occurrences` counts the points. `RowOk` says when a row parses. The file
  also holds the lemmas tying the walk to these definitions, and the
  properties that follow.

The collaborator `Base` is not part of this model. Its configured currency,
its timestamp parser `_parse_dt` and its number converter `_conv_to_float`
are fields of the `Prices` value. Both parsers are arbitrary functions that
may reject their input (`None`), and a rejection is raised as an error. A
timestamp is an integer count of seconds, and "plus one hour" adds 3600.
Python floats are modelled as `real`.

A note on row names: the code splits a row name at every `-`. So a name such
as `PH-2023-10-15-3` yields the five tokens `PH`, `2023`, `10`, `15`, `3`,
not a date token `2023-10-15`. `RowTokensSplitOnBoth` proves that no token
can contain `-`. The model follows the code.

## Model

| member | source | states |
|---|---|---|
| `Strings.Split` | nordpool/elbas.py:51 | `s.split(sep)` always gives at least one piece |
| `Strings.SplitPieces` | nordpool/elbas.py:51 | no piece of a split contains the separator, and every character of a piece comes from `s` |
| `Strings.Join` | nordpool/elbas.py:51 | `sep.join(parts)`: empty for no parts, the part itself for one, and otherwise the first part followed by the separator opens the result |
| `Strings.JoinSplit` | nordpool/elbas.py:51 | joining the pieces of a split on `sep` with `d` is `s` with every `sep` replaced by `d` |
| `Strings.SplitRoundTrip` | nordpool/elbas.py:51 | joining the pieces with the separator they were split on gives `s` back |
| `Strings.ParseInt` | nordpool/elbas.py:56 | `int(token)` succeeds exactly on an optional sign followed by at least one ASCII decimal digit (with no limit on the number of digits) |
| `Strings.Decimal` | nordpool/elbas.py:56 | the decimal text of `n` is non-empty digits with no leading zero from 10 on; one digit exactly below 10, two digits for 10..99 |
| `Strings.DecimalRoundTrip` | nordpool/elbas.py:56 | reading back the decimal text of `n` gives `n` |
| `Strings.LeadingZero` | nordpool/elbas.py:56 | a leading `0` does not change the value of a digit string |
| `Strings.Pad2` | nordpool/elbas.py:56 | `format(n, "02")` is at least two characters, starts with `-` exactly for a negative `n`, and is otherwise all digits (after the sign for a negative `n`) |
| `Strings.Pad2RoundTrip` | nordpool/elbas.py:56 | `int(format(n, "02")) == n` for every integer; the text is at least two characters, exactly two for -9..99 |
| `Elbas.RowTokens` | nordpool/elbas.py:51 | a row name always has a first token, so the `PH` test never fails on a missing token |
| `Elbas.RowStart` | nordpool/elbas.py:55-57 | the start is found exactly when there are three tokens, token 2 is an integer and the parser accepts `token1-pad2(hour-1)`; it is then that parse; otherwise the error is tied to its cause, in the source's order: IndexError on token 1 for fewer than two tokens, on token 2 for exactly two, ValueError on a non-integer hour token, and then a parse error on the built text |
| `Elbas.CellValue` | nordpool/elbas.py:75-93 | a `Product` cell keeps its raw text; any other cell's value exists exactly when `_conv_to_float` accepts the text, and is that number |
| `Elbas.AddColumn` | nordpool/elbas.py:62-93 | a name off a non-empty allow-list leaves the series unchanged; fails exactly on an allowed, non-extra cell whose value does not convert; an allowed name becomes a key; only that key's list changes, by one point `(start, start + 1h, value)` unless the row is extra |
| `Elbas.ColumnsFrom` | nordpool/elbas.py:60-93 | the only error a column walk raises is a value conversion error, and it never removes a key |
| `Elbas.ParseRow` | nordpool/elbas.py:47-59 | a row with a null name or a first token other than `PH` leaves the series unchanged; a row never removes a key and never raises a currency error |
| `Elbas.RowsFrom` | nordpool/elbas.py:44-93 | the row walk never raises a currency error |
| `Elbas.Parse` | nordpool/elbas.py:33-45 | fails with `CurrencyMismatch` exactly when the currencies differ; on success the currency is the configured one, `updated` is the parse of `DateUpdated`, and `areas` has exactly the one key `areas[0]` |
| `Elbas.ColumnsStep` | nordpool/elbas.py:60 | the walk over one more column is one more `AddColumn` step |
| `Elbas.RowsStep` | nordpool/elbas.py:47 | the walk over one more row is one more `ParseRow` step |
| `Elbas.ColumnsFailureSticks` | nordpool/elbas.py:85-93 | an error in a column ends the whole column walk with that error |
| `Elbas.RowsFailureSticks` | nordpool/elbas.py:47-93 | an error in a row ends the whole row walk with that error |
| `Elbas.ParseJson` | nordpool/elbas.py:16-94 | the currency check, the update-time parse and the loop over rows, with its skips and row-name failures, return exactly `Parse` of the same inputs |
| `Elbas.ParseColumns` | nordpool/elbas.py:60-93 | the inner loop over one row's columns, with the allow-list skip, lazy key creation, extra-row skip and conversion failure, returns exactly `ColumnsFrom` of the same inputs |
| `ElbasProperties.RowTokensSplitOnBoth` | nordpool/elbas.py:51 | the tokens are the name split on both `-` and space; no token holds either; joining them with spaces gives the name with `-` read as space |
| `ElbasProperties.RowStartOfHour` | nordpool/elbas.py:55-57 | for an hour token that `int()` reads as `h` in 1..100 (so also `03` or `+3`), the start is the parse of the date token, `-`, and the two digits of `h - 1` |
| `ElbasProperties.AddColumnStep` | nordpool/elbas.py:65-93 | one column step appends for name `k` exactly the point of that column's cell, if it has one |
| `ElbasProperties.ColumnsWalk` | nordpool/elbas.py:60-93 | a row's column walk appends for name `k` exactly the points of that row's cells named `k`, in column order |
| `ElbasProperties.ColumnsKeys` | nordpool/elbas.py:62-71 | a row's column walk adds exactly the row's allowed column names as keys |
| `ElbasProperties.ExtraColumnsKeepPoints` | nordpool/elbas.py:72-74 | in an extra row the column walk never fails and changes no list |
| `ElbasProperties.ColumnsSucceedIff` | nordpool/elbas.py:85-93 | a row's column walk succeeds, whatever the series, exactly when the row is extra or every allowed cell's value converts |
| `ElbasProperties.ColumnCellsCount` | nordpool/elbas.py:60-93 | a row yields for `k` as many cells as it has columns named `k`, none if it is extra or `k` is not allowed |
| `ElbasProperties.ColumnKeysMembers` | nordpool/elbas.py:62-71 | a row creates key `k` exactly when `k` is allowed and some column of the row is named `k` |
| `ElbasProperties.RowsWalk` | nordpool/elbas.py:44-93 | after the row walk the keys are exactly `SeenKeys`, and each list is, one for one and in row order, the points of `Cells` |
| `ElbasProperties.CellsCount` | nordpool/elbas.py:72-93 | on success the number of cells for `k` is the number of occurrences of `k` in non-extra `PH` rows |
| `ElbasProperties.ColumnCellsStart` | nordpool/elbas.py:55-59 | every cell of a row starts at that row's start |
| `ElbasProperties.RowCellsStart` | nordpool/elbas.py:49-59 | a row yields cells only if it is a `PH` row whose start parses, and they start there |
| `ElbasProperties.CellsStartAtRows` | nordpool/elbas.py:47-59 | every cell starts at the start of some `PH` row |
| `ElbasProperties.SeenKeysMembers` | nordpool/elbas.py:49-71 | `k` is a key exactly when it is allowed and some `PH` row has a column named `k` |
| `ElbasProperties.SeenKeysSound` | nordpool/elbas.py:49-71 | every key is allowed and is the name of a column of some `PH` row |
| `ElbasProperties.SeenKeysComplete` | nordpool/elbas.py:49-71 | every allowed column name of a `PH` row is a key |
| `ElbasProperties.SeenKeysIgnoreExtraFlag` | nordpool/elbas.py:65-74 | the set of keys does not depend on the rows' `IsExtraRow` flags |
| `ElbasProperties.RowSucceedsIff` | nordpool/elbas.py:49-93 | one row parses, whatever the series before it, exactly when `RowOk` holds |
| `ElbasProperties.RowsSucceedIff` | nordpool/elbas.py:47-93 | the row walk succeeds exactly when every row satisfies `RowOk` |
| `ElbasProperties.NonPhRowsIgnored` | nordpool/elbas.py:49-54 | deleting every row that has a null name or is not `PH` leaves the outcome of the walk, error or series, unchanged |
| `ElbasProperties.ExtraRowAddsNoPoints` | nordpool/elbas.py:65-74 | an extra row changes no list; it only adds keys, each mapped to an empty list |
| `ElbasProperties.ParseSeries` | nordpool/elbas.py:44-94 | on success the area's keys are exactly `SeenKeys`, and each list realises `Cells` in row order |
| `ElbasProperties.KeysWithinColumns` | nordpool/elbas.py:62-64 | with a non-empty allow-list every key of the result is on the list |
| `ElbasProperties.PhColumnsBecomeKeys` | nordpool/elbas.py:62-71 | every allowed column name of every `PH` row is a key; with an empty allow-list that is every column name |
| `ElbasProperties.PointsAreHourly` | nordpool/elbas.py:55-93 | every point has `end = start + 1h`, starts at some `PH` row's start, and holds text exactly in the `Product` list |
| `ElbasProperties.PointCounts` | nordpool/elbas.py:72-93 | each list's length is the number of occurrences of its column in non-extra `PH` rows |
| `ElbasProperties.ParseSucceedsIff` | nordpool/elbas.py:33-93 | the transform succeeds exactly when the currency matches, the update time parses and every row satisfies `RowOk` |
| `ElbasProperties.KeysIgnoreExtraFlag` | nordpool/elbas.py:65-74 | two responses that differ only in extra-row flags give the same key set |
| `Elbas.Hourly` | nordpool/elbas.py:141-150 | `hourly` uses the six default columns exactly when `columns` is None, and otherwise the given list, an empty one included, then runs `Parse` |
| `ElbasProperties.HourlyDefaultKeys` | nordpool/elbas.py:141-150 | `hourly` without columns returns only keys among the six defaults `Product, High, Low, Last, Avg, Volume` |
| `ElbasProperties.HourlyEmptyListKeepsAll` | nordpool/elbas.py:141-150 | `hourly` with an explicit empty list is not given the defaults: every column of every `PH` row is a key |

## Left out

- `_fetch_json` and the HTTP part of `fetch` are not modelled, because they are network I/O. This covers the `requests.get` call, the URL built from `API_URL` and the page id (`HOURLY = 194`), the query parameters and the timeout. `fetch` itself only applies `_parse_json` to what `_fetch_json` returns, so `Hourly` takes the fetched document as a parameter.
- The default `end_date` (yesterday) and date-string parsing with `dateutil` are not modelled; they depend on the clock and on a foreign library.
- `Base` is not part of this model. Its `_parse_dt` and `_conv_to_float` are arbitrary functions held by `Prices` and do not parse anything. Whether they raise or return a sentinel is not visible; a rejection is modelled as an error that ends the transform.
- The `isinstance`/`list(...)` coercion of `areas` and `columns` is not modelled: both are typed sequences. A non-empty `areas` is a precondition. Python would raise IndexError at `areas[0]` after the currency check.
- Strings.ParseInt: Python's `int()` also strips surrounding whitespace other than spaces, accepts `_` between digits and accepts non-ASCII decimal digits. The model rejects those tokens as `BadHour`. In the other direction, the model has no digit limit: CPython rejects a decimal string longer than `sys.int_info.default_max_str_digits` (4300 by default, configurable), so such an hour token raises ValueError in the source where the model goes on to the timestamp parser.
- Elbas.ParseJson: the series dictionary is a local map filed under `areas[0]` when the walk ends. The source mutates the dictionary already stored under that key. Nothing else holds it, so the result is the same, but the aliasing is not modelled.
- The insertion order of the keys of the series dictionary is not modelled: Dafny maps are unordered. The order of points within each list is modelled.
- Floating-point rounding is not modelled: numbers are `real`.
- Timestamps are unbounded integers, so `AddHour` never fails. In the source, `row_start_time + timedelta(hours=1)` raises OverflowError past `datetime.max`; that error is not modelled.
- Crashes on malformed documents are not modelled: a missing field, or a `Value` that is not a string. Every row has a `Name` (string or null), a flag and columns of strings.
