/**
 * Nord Pool Elbas price parsing: the transform that turns a decoded price
 * response into one area's per-column lists of hourly points, together with
 * the functional specification that the imperative walk is proved against.
 */
module Elbas {
  import opened Wrappers
  import opened Strings

  /** A point in time, in seconds; how timestamps are parsed is the collaborator's business. */
  type Timestamp = int

  const SecondsPerHour: int := 3600

  /** `t + timedelta(hours=1)`. */
  function AddHour(t: Timestamp): (r: Timestamp) {
    t + SecondsPerHour
  }

  /** Columns that `hourly` asks for when its caller names none. */
  const DefaultColumns: seq<string> := ["Product", "High", "Low", "Last", "Avg", "Volume"]

  /** One `{Name, Value}` cell of a response row. */
  datatype Column = Column(name: string, value: string)

  /** One response row; `name` is None when the JSON holds null. */
  datatype Row = Row(name: Option<string>, isExtraRow: bool, columns: seq<Column>)

  /** The `data` part of a response. */
  datatype Data = Data(dateUpdated: string, rows: seq<Row>)

  /** A decoded response: `{currency, data}`. */
  datatype Response = Response(currency: string, data: Data)

  /** A point's value: the raw text for the `Product` column, a number otherwise. */
  datatype Value = Text(text: string) | Number(number: real)

  datatype Point = Point(start: Timestamp, end: Timestamp, value: Value)

  /** Column name to the points of that column, in row order. */
  type Series = map<string, seq<Point>>

  datatype FetchResult = FetchResult(updated: Timestamp, currency: string, areas: map<string, Series>)

  /** The exceptions `_parse_json` can raise. */
  datatype Error =
    | CurrencyMismatch           // the response is in another currency
    | BadTimestamp(text: string) // the timestamp parser rejected `text`
    | MissingToken(index: nat)   // IndexError: the row name has no token `index`
    | BadHour(token: string)     // ValueError: the hour token is not an integer
    | BadValue(column: string, value: string) // the number converter rejected `value`

  /**
   * The configuration a fetcher holds: the currency it asks for and the two
   * parsing helpers it inherits, either of which may reject its input.
   */
  datatype Prices = Prices(
    currency: string,
    parseDt: string -> Option<Timestamp>,
    convToFloat: string -> Option<real>)

  /** Whether a column passes the allow-list; an empty list allows every column. */
  predicate Allowed(columns: seq<string>, name: string) {
    |columns| == 0 || name in columns
  }

  /** The points held for `name`, or none when the key is absent. */
  function PointsOf(s: Series, name: string): (r: seq<Point>) {
    if name in s then s[name] else []
  }

  /** `" ".join(name.split("-")).split(" ")`: the tokens of a row name. */
  function RowTokens(name: string): (tokens: seq<string>)
    ensures |tokens| >= 1
  {
    Split(Join(Split(name, '-'), " "), ' ')
  }

  /** The text handed to the timestamp parser for an hour token `hour`: the hour made 0-based. */
  function StartText(date: string, hour: int): (r: string) {
    date + "-" + Pad2(hour - 1)
  }

  /**
   * The start of the delivery hour named by a "PH" row's tokens: token 1 is
   * the date, token 2 the 1-based hour.
   */
  function RowStart(p: Prices, tokens: seq<string>): (r: Result<Timestamp, Error>)
    ensures r.Success? <==>
      |tokens| >= 3 && ParseInt(tokens[2]).Some? &&
      p.parseDt(StartText(tokens[1], ParseInt(tokens[2]).value)).Some?
    ensures r.Success? ==> p.parseDt(StartText(tokens[1], ParseInt(tokens[2]).value)) == Some(r.value)
    ensures r.Failure? ==> r.error.MissingToken? || r.error.BadHour? || r.error.BadTimestamp?
    ensures |tokens| < 2 ==> r == Failure(MissingToken(1))
    ensures |tokens| == 2 ==> r == Failure(MissingToken(2))
    ensures |tokens| >= 3 && ParseInt(tokens[2]).None? ==> r == Failure(BadHour(tokens[2]))
    ensures |tokens| >= 3 && ParseInt(tokens[2]).Some? && r.Failure? ==>
      r.error == BadTimestamp(StartText(tokens[1], ParseInt(tokens[2]).value))
  {
    if |tokens| < 2 then Failure(MissingToken(1))
    else if |tokens| < 3 then Failure(MissingToken(2))
    else match ParseInt(tokens[2])
      case None => Failure(BadHour(tokens[2]))
      case Some(hour) =>
        var text := StartText(tokens[1], hour);
        match p.parseDt(text)
        case None => Failure(BadTimestamp(text))
        case Some(t) => Success(t)
  }

  /** The value a cell contributes: raw text for "Product", a converted number otherwise. */
  function CellValue(p: Prices, c: Column): (r: Option<Value>)
    ensures c.name == "Product" ==> r == Some(Text(c.value))
    ensures c.name != "Product" ==> (r.Some? <==> p.convToFloat(c.value).Some?)
    ensures c.name != "Product" && r.Some? ==> r.value == Number(p.convToFloat(c.value).value)
  {
    if c.name == "Product" then Some(Text(c.value))
    else match p.convToFloat(c.value)
      case None => None
      case Some(x) => Some(Number(x))
  }

  /**
   * One step of the column walk: an allowed column gets an (empty) list if it
   * has none yet, and, unless the row is an extra row, one more point.
   */
  function AddColumn(p: Prices, columns: seq<string>, extra: bool, start: Timestamp,
                     c: Column, s: Series): (r: Result<Series, Error>)
    ensures !Allowed(columns, c.name) ==> r == Success(s)
    ensures r.Failure? <==> Allowed(columns, c.name) && !extra && CellValue(p, c).None?
    ensures r.Failure? ==> r.error == BadValue(c.name, c.value)
    ensures r.Success? ==> r.value.Keys == s.Keys + (if Allowed(columns, c.name) then {c.name} else {})
    ensures r.Success? ==> forall k :: k in s && k != c.name ==> r.value[k] == s[k]
    ensures r.Success? && Allowed(columns, c.name) ==>
      PointsOf(r.value, c.name) ==
        PointsOf(s, c.name) + (if extra then [] else [Point(start, AddHour(start), CellValue(p, c).value)])
  {
    if !Allowed(columns, c.name) then Success(s)
    else
      var s1 := if c.name in s then s else s[c.name := []];
      if extra then Success(s1)
      else match CellValue(p, c)
        case None => Failure(BadValue(c.name, c.value))
        case Some(v) => Success(s1[c.name := s1[c.name] + [Point(start, AddHour(start), v)]])
  }

  /** The column walk over `cols`, in order, from the series `s`. */
  function ColumnsFrom(p: Prices, columns: seq<string>, extra: bool, start: Timestamp,
                       cols: seq<Column>, s: Series): (r: Result<Series, Error>)
    ensures r.Failure? ==> r.error.BadValue?
    ensures r.Success? ==> s.Keys <= r.value.Keys
    decreases |cols|
  {
    if cols == [] then Success(s)
    else match ColumnsFrom(p, columns, extra, start, cols[..|cols| - 1], s)
      case Failure(e) => Failure(e)
      case Success(s') => AddColumn(p, columns, extra, start, cols[|cols| - 1], s')
  }

  /** Whether a row is an hourly product row: it has a name whose first token is "PH". */
  predicate IsPhRow(row: Row) {
    row.name.Some? && RowTokens(row.name.value)[0] == "PH"
  }

  /** One row of the walk: rows other than "PH" rows are skipped untouched. */
  function ParseRow(p: Prices, columns: seq<string>, row: Row, s: Series): (r: Result<Series, Error>)
    ensures !IsPhRow(row) ==> r == Success(s)
    ensures r.Success? ==> s.Keys <= r.value.Keys
    ensures r.Failure? ==> !r.error.CurrencyMismatch?
  {
    if row.name.None? then Success(s)
    else
      var tokens := RowTokens(row.name.value);
      if tokens[0] != "PH" then Success(s)
      else match RowStart(p, tokens)
        case Failure(e) => Failure(e)
        case Success(start) => ColumnsFrom(p, columns, row.isExtraRow, start, row.columns, s)
  }

  /** The row walk over `rows`, in order, from an empty series. */
  function RowsFrom(p: Prices, columns: seq<string>, rows: seq<Row>): (r: Result<Series, Error>)
    ensures r.Failure? ==> !r.error.CurrencyMismatch?
    decreases |rows|
  {
    if rows == [] then Success(map[])
    else match RowsFrom(p, columns, rows[..|rows| - 1])
      case Failure(e) => Failure(e)
      case Success(s) => ParseRow(p, columns, rows[|rows| - 1], s)
  }

  /**
   * The whole transform: the currency check, the update time, and the row
   * walk, whose series is filed under the first requested area only.
   */
  function Parse(p: Prices, response: Response, columns: seq<string>, areas: seq<string>)
    : (r: Result<FetchResult, Error>)
    requires |areas| > 0
    ensures r == Failure(CurrencyMismatch) <==> response.currency != p.currency
    ensures r.Success? ==>
      && r.value.currency == p.currency
      && p.parseDt(response.data.dateUpdated) == Some(r.value.updated)
      && r.value.areas.Keys == {areas[0]}
  {
    if response.currency != p.currency then Failure(CurrencyMismatch)
    else match p.parseDt(response.data.dateUpdated)
      case None => Failure(BadTimestamp(response.data.dateUpdated))
      case Some(updated) =>
        match RowsFrom(p, columns, response.data.rows)
        case Failure(e) => Failure(e)
        case Success(series) => Success(FetchResult(updated, response.currency, map[areas[0] := series]))
  }

  /** One more column is one more step of the column walk. */
  lemma ColumnsStep(p: Prices, columns: seq<string>, extra: bool, start: Timestamp,
                    cols: seq<Column>, j: nat, s: Series, s': Series)
    requires j < |cols|
    requires ColumnsFrom(p, columns, extra, start, cols[..j], s) == Success(s')
    ensures ColumnsFrom(p, columns, extra, start, cols[..j + 1], s) == AddColumn(p, columns, extra, start, cols[j], s')
  {
    assert cols[..j + 1][..j] == cols[..j];
  }

  /** One more row is one more step of the row walk. */
  lemma RowsStep(p: Prices, columns: seq<string>, rows: seq<Row>, i: nat, s: Series)
    requires i < |rows|
    requires RowsFrom(p, columns, rows[..i]) == Success(s)
    ensures RowsFrom(p, columns, rows[..i + 1]) == ParseRow(p, columns, rows[i], s)
  {
    assert rows[..i + 1][..i] == rows[..i];
  }

  /** A failure part-way through the columns is the failure of the whole column walk. */
  lemma {:induction false} ColumnsFailureSticks(p: Prices, columns: seq<string>, extra: bool,
                                                start: Timestamp, cols: seq<Column>, n: nat, s: Series)
    requires n <= |cols|
    requires ColumnsFrom(p, columns, extra, start, cols[..n], s).Failure?
    ensures ColumnsFrom(p, columns, extra, start, cols, s) == ColumnsFrom(p, columns, extra, start, cols[..n], s)
    decreases |cols| - n
  {
    if n < |cols| {
      assert cols[..n + 1][..n] == cols[..n];
      ColumnsFailureSticks(p, columns, extra, start, cols, n + 1, s);
    } else {
      assert cols[..n] == cols;
    }
  }

  /** A failure part-way through the rows is the failure of the whole row walk. */
  lemma {:induction false} RowsFailureSticks(p: Prices, columns: seq<string>, rows: seq<Row>, n: nat)
    requires n <= |rows|
    requires RowsFrom(p, columns, rows[..n]).Failure?
    ensures RowsFrom(p, columns, rows) == RowsFrom(p, columns, rows[..n])
    decreases |rows| - n
  {
    if n < |rows| {
      assert rows[..n + 1][..n] == rows[..n];
      RowsFailureSticks(p, columns, rows, n + 1);
    } else {
      assert rows[..n] == rows;
    }
  }

  /**
   * `Prices._parse_json`: walks the rows and their columns, updating the
   * area's series in place, and returns what `Parse` specifies. The series
   * is the dictionary the source keeps under `areas[0]`; it is filed under
   * that key when the walk is done.
   */
  method ParseJson(p: Prices, response: Response, columns: seq<string>, areas: seq<string>)
    returns (r: Result<FetchResult, Error>)
    requires |areas| > 0
    ensures r == Parse(p, response, columns, areas)
  {
    var currency := response.currency;
    if currency != p.currency {
      return Failure(CurrencyMismatch);
    }
    var data := response.data;
    var parsedUpdate := p.parseDt(data.dateUpdated);
    if parsedUpdate.None? {
      return Failure(BadTimestamp(data.dateUpdated));
    }
    var updated := parsedUpdate.value;
    var series: Series := map[];
    assert data.rows[..0] == [];
    for i := 0 to |data.rows|
      invariant RowsFrom(p, columns, data.rows[..i]) == Success(series)
    {
      var row := data.rows[i];
      RowsStep(p, columns, data.rows, i, series);
      if row.name.None? {
        continue;
      }
      var name := RowTokens(row.name.value);
      if name[0] != "PH" {
        continue;
      }
      var rowStart := RowStart(p, name);
      if rowStart.Failure? {
        RowsFailureSticks(p, columns, data.rows, i + 1);
        return Failure(rowStart.error);
      }
      var walked := ParseColumns(p, columns, row.isExtraRow, rowStart.value, row.columns, series);
      if walked.Failure? {
        RowsFailureSticks(p, columns, data.rows, i + 1);
        return Failure(walked.error);
      }
      series := walked.value;
    }
    assert data.rows[..|data.rows|] == data.rows;
    return Success(FetchResult(updated, currency, map[areas[0] := series]));
  }

  /**
   * The inner loop of the parse: the columns of one PH row, in order,
   * adding a point for each allowed column of a non-extra row.
   */
  method ParseColumns(p: Prices, columns: seq<string>, extra: bool, rowStartTime: Timestamp,
                      cols: seq<Column>, initial: Series)
    returns (r: Result<Series, Error>)
    ensures r == ColumnsFrom(p, columns, extra, rowStartTime, cols, initial)
  {
    var rowEndTime := AddHour(rowStartTime);
    var series := initial;
    assert cols[..0] == [];
    for j := 0 to |cols|
      invariant ColumnsFrom(p, columns, extra, rowStartTime, cols[..j], initial) == Success(series)
    {
      var c := cols[j];
      ColumnsStep(p, columns, extra, rowStartTime, cols, j, initial, series);
      ghost var prev := series;
      var columnName := c.name;
      if |columns| > 0 && columnName !in columns {
        assert AddColumn(p, columns, extra, rowStartTime, c, prev) == Success(series);
        continue;
      }
      if columnName !in series {
        series := series[columnName := []];
      }
      if extra {
        assert AddColumn(p, columns, extra, rowStartTime, c, prev) == Success(series);
        continue;
      }
      if columnName == "Product" {
        series := series[columnName := series[columnName] + [Point(rowStartTime, rowEndTime, Text(c.value))]];
      } else {
        var number := p.convToFloat(c.value);
        if number.None? {
          ColumnsFailureSticks(p, columns, extra, rowStartTime, cols, j + 1, initial);
          return Failure(BadValue(columnName, c.value));
        }
        series := series[columnName := series[columnName] + [Point(rowStartTime, rowEndTime, Number(number.value))]];
      }
      assert AddColumn(p, columns, extra, rowStartTime, c, prev) == Success(series);
    }
    assert cols[..|cols|] == cols;
    return Success(series);
  }

  /**
   * `Prices.hourly` on the document the fetch returned: the six default
   * columns when the caller names none (None, not an empty list), then the
   * same transform.
   */
  function Hourly(p: Prices, response: Response, areas: seq<string>, columns: Option<seq<string>>)
    : (r: Result<FetchResult, Error>)
    requires |areas| > 0
    ensures columns.None? ==> r == Parse(p, response, DefaultColumns, areas)
    ensures columns.Some? ==> r == Parse(p, response, columns.value, areas)
  {
    var requested := match columns
      case None => DefaultColumns
      case Some(cs) => cs;
    Parse(p, response, requested, areas)
  }
}
