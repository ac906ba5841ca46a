/**
 * What the Elbas transform promises, stated against reference definitions
 * that look at one column name at a time instead of walking a series.
 */
module ElbasProperties {
  import opened Wrappers
  import opened Strings
  import opened Elbas

  /** A cell that yields a point: the start of its row's hour and its raw value. */
  datatype Cell = Cell(start: Timestamp, raw: string)

  /** The cells named `k` that a row's columns turn into points, in column order. */
  function ColumnCells(columns: seq<string>, extra: bool, start: Timestamp,
                       cols: seq<Column>, k: string): seq<Cell>
    decreases |cols|
  {
    if cols == [] then []
    else
      ColumnCells(columns, extra, start, cols[..|cols| - 1], k) + CellOf(columns, extra, start, cols[|cols| - 1], k)
  }

  /** The cell one column gives for `k`, if any. */
  function CellOf(columns: seq<string>, extra: bool, start: Timestamp, c: Column, k: string): seq<Cell> {
    if c.name == k && Allowed(columns, k) && !extra then [Cell(start, c.value)] else []
  }

  /** The column names of a row that pass the allow-list. */
  function ColumnKeys(columns: seq<string>, cols: seq<Column>): set<string>
    decreases |cols|
  {
    if cols == [] then {}
    else
      var c := cols[|cols| - 1];
      ColumnKeys(columns, cols[..|cols| - 1]) + (if Allowed(columns, c.name) then {c.name} else {})
  }

  /** The cells named `k` that a row turns into points. */
  function RowCells(p: Prices, columns: seq<string>, row: Row, k: string): seq<Cell> {
    if IsPhRow(row) then
      match RowStart(p, RowTokens(row.name.value))
      case Success(start) => ColumnCells(columns, row.isExtraRow, start, row.columns, k)
      case Failure(_) => []
    else []
  }

  /** The keys a row creates. */
  function RowKeys(columns: seq<string>, row: Row): set<string> {
    if IsPhRow(row) then ColumnKeys(columns, row.columns) else {}
  }

  /** The cells named `k` over all rows, in row order. */
  function Cells(p: Prices, columns: seq<string>, rows: seq<Row>, k: string): seq<Cell>
    decreases |rows|
  {
    if rows == [] then []
    else Cells(p, columns, rows[..|rows| - 1], k) + RowCells(p, columns, rows[|rows| - 1], k)
  }

  /** The keys created over all rows. */
  function SeenKeys(columns: seq<string>, rows: seq<Row>): set<string>
    decreases |rows|
  {
    if rows == [] then {}
    else SeenKeys(columns, rows[..|rows| - 1]) + RowKeys(columns, rows[|rows| - 1])
  }

  /** How many times column `k` occurs, in total, in the non-extra PH rows. */
  function Occurrences(columns: seq<string>, rows: seq<Row>, k: string): nat
    decreases |rows|
  {
    if rows == [] then 0
    else
      var row := rows[|rows| - 1];
      Occurrences(columns, rows[..|rows| - 1], k) +
        (if IsPhRow(row) && !row.isExtraRow && Allowed(columns, k) then Count(row.columns, k) else 0)
  }

  /** How many columns of a row are named `k`. */
  function Count(cols: seq<Column>, k: string): nat
    decreases |cols|
  {
    if cols == [] then 0
    else Count(cols[..|cols| - 1], k) + (if cols[|cols| - 1].name == k then 1 else 0)
  }

  /** `pt` is the point that column `k` makes of `cell`. */
  predicate PointOf(p: Prices, k: string, pt: Point, cell: Cell) {
    && pt.start == cell.start
    && pt.end == AddHour(cell.start)
    && if k == "Product" then pt.value == Text(cell.raw)
       else p.convToFloat(cell.raw).Some? && pt.value == Number(p.convToFloat(cell.raw).value)
  }

  /** `pts` are, one for one and in order, the points column `k` makes of `cells`. */
  predicate Realizes(p: Prices, k: string, pts: seq<Point>, cells: seq<Cell>) {
    |pts| == |cells| && forall i :: 0 <= i < |pts| ==> PointOf(p, k, pts[i], cells[i])
  }

  /** Whether a row parses: non-PH rows always do, PH rows need a start and convertible values. */
  predicate RowOk(p: Prices, columns: seq<string>, row: Row) {
    !IsPhRow(row) ||
    (RowStart(p, RowTokens(row.name.value)).Success? &&
     (row.isExtraRow ||
      forall j :: 0 <= j < |row.columns| && Allowed(columns, row.columns[j].name) ==>
        CellValue(p, row.columns[j]).Some?))
  }

  lemma RealizesAppend(p: Prices, k: string, a: seq<Point>, ca: seq<Cell>, b: seq<Point>, cb: seq<Cell>)
    requires Realizes(p, k, a, ca) && Realizes(p, k, b, cb)
    ensures Realizes(p, k, a + b, ca + cb)
  {
    forall i | 0 <= i < |a + b| ensures PointOf(p, k, (a + b)[i], (ca + cb)[i]) {
      if i >= |a| {
        assert (a + b)[i] == b[i - |a|] && (ca + cb)[i] == cb[i - |a|];
      }
    }
  }

  // ---------------------------------------------------------------------
  // The row-name tokens

  /**
   * The row name is in effect split on both '-' and ' ': the tokens are the
   * pieces of the name with '-' read as ' ', none of them holds either
   * separator, and joining them with spaces gives that name back.
   */
  lemma RowTokensSplitOnBoth(name: string)
    ensures RowTokens(name) == Split(Replace(name, '-', ' '), ' ')
    ensures Join(RowTokens(name), " ") == Replace(name, '-', ' ')
    ensures forall t :: t in RowTokens(name) ==> '-' !in t && ' ' !in t
  {
    var spaced := Replace(name, '-', ' ');
    JoinSplit(name, '-', ' ');
    assert [' '] == " ";
    SplitRoundTrip(spaced, ' ');
    SplitPieces(spaced, ' ');
  }

  /**
   * A 1-based hour token that `int()` reads as `h` (with or without a sign
   * or leading zeros) becomes a two-digit, 0-based hour in the text handed
   * to the timestamp parser.
   */
  lemma RowStartOfHour(p: Prices, tokens: seq<string>, h: nat)
    requires |tokens| >= 3 && 1 <= h <= 100 && ParseInt(tokens[2]) == Some(h)
    ensures var text := tokens[1] + "-" + [DigitChar((h - 1) / 10), DigitChar((h - 1) % 10)];
      && (RowStart(p, tokens).Success? <==> p.parseDt(text).Some?)
      && (RowStart(p, tokens).Success? ==> p.parseDt(text) == Some(RowStart(p, tokens).value))
  {
    var m := h - 1;
    assert StartText(tokens[1], h) == tokens[1] + "-" + Pad2(m);
    if m < 10 {
      assert Decimal(m) == [DigitChar(m)];
      assert m / 10 == 0 && m % 10 == m;
    } else {
      assert Decimal(m) == Decimal(m / 10) + [DigitChar(m % 10)];
      assert Decimal(m / 10) == [DigitChar(m / 10)];
    }
    assert Pad2(m) == [DigitChar(m / 10), DigitChar(m % 10)];
  }

  // ---------------------------------------------------------------------
  // The column walk

  /** One column step appends, for `k`, exactly the point of that column's cell. */
  lemma AddColumnStep(p: Prices, columns: seq<string>, extra: bool, start: Timestamp,
                      c: Column, s: Series, s': Series, k: string, c0: seq<Cell>)
    requires AddColumn(p, columns, extra, start, c, s) == Success(s')
    requires Realizes(p, k, PointsOf(s, k), c0)
    ensures Realizes(p, k, PointsOf(s', k), c0 + CellOf(columns, extra, start, c, k))
  {
    var added := CellOf(columns, extra, start, c, k);
    if c.name == k && Allowed(columns, k) && !extra {
      var pt := Point(start, AddHour(start), CellValue(p, c).value);
      assert PointsOf(s', k) == PointsOf(s, k) + [pt];
      assert PointOf(p, k, pt, Cell(start, c.value));
      RealizesAppend(p, k, PointsOf(s, k), c0, [pt], added);
    } else {
      assert PointsOf(s', k) == PointsOf(s, k);
      assert c0 + added == c0;
    }
  }

  lemma AppendAssoc<T>(a: seq<T>, b: seq<T>, c: seq<T>)
    ensures a + (b + c) == (a + b) + c
  {
  }

  /** The column walk appends, for `k`, exactly the points of that row's cells named `k`. */
  lemma {:induction false} ColumnsWalk(p: Prices, columns: seq<string>, extra: bool, start: Timestamp,
                                       cols: seq<Column>, s: Series, s': Series, k: string, c0: seq<Cell>)
    requires ColumnsFrom(p, columns, extra, start, cols, s) == Success(s')
    requires Realizes(p, k, PointsOf(s, k), c0)
    ensures Realizes(p, k, PointsOf(s', k), c0 + ColumnCells(columns, extra, start, cols, k))
    decreases |cols|
  {
    if cols == [] {
      assert c0 + [] == c0;
    } else {
      var prefix, c := cols[..|cols| - 1], cols[|cols| - 1];
      var r1 := ColumnsFrom(p, columns, extra, start, prefix, s);
      assert r1.Success?;
      var s1 := r1.value;
      ColumnsWalk(p, columns, extra, start, prefix, s, s1, k, c0);
      var c1 := c0 + ColumnCells(columns, extra, start, prefix, k);
      AddColumnStep(p, columns, extra, start, c, s1, s', k, c1);
      var added := CellOf(columns, extra, start, c, k);
      assert ColumnCells(columns, extra, start, cols, k) == ColumnCells(columns, extra, start, prefix, k) + added;
      AppendAssoc(c0, ColumnCells(columns, extra, start, prefix, k), added);
    }
  }

  /** In an extra row the column walk never fails and leaves every list as it was. */
  lemma {:induction false} ExtraColumnsKeepPoints(p: Prices, columns: seq<string>, start: Timestamp,
                                                  cols: seq<Column>, s: Series)
    ensures ColumnsFrom(p, columns, true, start, cols, s).Success?
    ensures var s' := ColumnsFrom(p, columns, true, start, cols, s).value;
      forall k :: PointsOf(s', k) == PointsOf(s, k)
    decreases |cols|
  {
    if cols != [] {
      ExtraColumnsKeepPoints(p, columns, start, cols[..|cols| - 1], s);
    }
  }

  /** The column walk succeeds, whatever the series, exactly when every value it converts converts. */
  lemma {:induction false} ColumnsSucceedIff(p: Prices, columns: seq<string>, extra: bool, start: Timestamp,
                                             cols: seq<Column>, s: Series)
    ensures ColumnsFrom(p, columns, extra, start, cols, s).Success? <==>
      (extra || forall j :: 0 <= j < |cols| && Allowed(columns, cols[j].name) ==> CellValue(p, cols[j]).Some?)
    decreases |cols|
  {
    if cols != [] {
      var prefix := cols[..|cols| - 1];
      ColumnsSucceedIff(p, columns, extra, start, prefix, s);
      assert forall j :: 0 <= j < |prefix| ==> prefix[j] == cols[j];
    }
  }

  /** The number of cells a row's columns give for `k`. */
  lemma {:induction false} ColumnCellsCount(columns: seq<string>, extra: bool, start: Timestamp,
                                            cols: seq<Column>, k: string)
    ensures |ColumnCells(columns, extra, start, cols, k)| ==
      if extra || !Allowed(columns, k) then 0 else Count(cols, k)
    decreases |cols|
  {
    if cols != [] {
      ColumnCellsCount(columns, extra, start, cols[..|cols| - 1], k);
    }
  }

  /** A key comes from a row exactly when an allowed column of that row has that name. */
  lemma {:induction false} ColumnKeysMembers(columns: seq<string>, cols: seq<Column>, k: string)
    ensures k in ColumnKeys(columns, cols) <==>
      Allowed(columns, k) && exists j :: 0 <= j < |cols| && cols[j].name == k
    decreases |cols|
  {
    if cols != [] {
      var prefix, c := cols[..|cols| - 1], cols[|cols| - 1];
      ColumnKeysMembers(columns, prefix, k);
      if k in ColumnKeys(columns, prefix) {
        var j :| 0 <= j < |prefix| && prefix[j].name == k;
        assert cols[j] == prefix[j];
      }
      if Allowed(columns, k) && (exists j :: 0 <= j < |cols| && cols[j].name == k) {
        var j :| 0 <= j < |cols| && cols[j].name == k;
        if j < |prefix| {
          assert prefix[j] == cols[j];
        }
      }
    }
  }

  // ---------------------------------------------------------------------
  // The row walk

  /**
   * The row walk's keys are exactly the allowed column names of the PH rows,
   * and each key's list is, in row order, the points of that column's cells.
   */
  lemma {:induction false} RowsWalk(p: Prices, columns: seq<string>, rows: seq<Row>, s: Series, k: string)
    requires RowsFrom(p, columns, rows) == Success(s)
    ensures s.Keys == SeenKeys(columns, rows)
    ensures Realizes(p, k, PointsOf(s, k), Cells(p, columns, rows, k))
    decreases |rows|
  {
    if rows != [] {
      var prefix, row := rows[..|rows| - 1], rows[|rows| - 1];
      var s0 :| RowsFrom(p, columns, prefix) == Success(s0);
      RowsWalk(p, columns, prefix, s0, k);
      assert ParseRow(p, columns, row, s0) == Success(s);
      if IsPhRow(row) {
        var start :| RowStart(p, RowTokens(row.name.value)) == Success(start);
        ColumnsWalk(p, columns, row.isExtraRow, start, row.columns, s0, s, k, Cells(p, columns, prefix, k));
        ColumnsKeys(p, columns, row.isExtraRow, start, row.columns, s0, s);
      } else {
        assert Cells(p, columns, rows, k) == Cells(p, columns, prefix, k) + [];
      }
    }
  }

  /** On success, each list holds one point per occurrence of its column in a non-extra PH row. */
  lemma {:induction false} CellsCount(p: Prices, columns: seq<string>, rows: seq<Row>, k: string)
    requires RowsFrom(p, columns, rows).Success?
    ensures |Cells(p, columns, rows, k)| == Occurrences(columns, rows, k)
    decreases |rows|
  {
    if rows != [] {
      var prefix, row := rows[..|rows| - 1], rows[|rows| - 1];
      CellsCount(p, columns, prefix, k);
      if IsPhRow(row) {
        var start :| RowStart(p, RowTokens(row.name.value)) == Success(start);
        ColumnCellsCount(columns, row.isExtraRow, start, row.columns, k);
      }
    }
  }

  /** `t` is the start of the hour of some PH row of `rows`. */
  predicate StartsAtPhRow(p: Prices, rows: seq<Row>, t: Timestamp) {
    exists i :: 0 <= i < |rows| && IsPhRow(rows[i]) && RowStart(p, RowTokens(rows[i].name.value)) == Success(t)
  }

  /** Every cell's start is the start of the hour of some PH row. */
  lemma {:induction false} CellsStartAtRows(p: Prices, columns: seq<string>, rows: seq<Row>, k: string)
    ensures forall cell :: cell in Cells(p, columns, rows, k) ==> StartsAtPhRow(p, rows, cell.start)
    decreases |rows|
  {
    if rows != [] {
      var prefix, row := rows[..|rows| - 1], rows[|rows| - 1];
      CellsStartAtRows(p, columns, prefix, k);
      RowCellsStart(p, columns, row, k);
      forall cell | cell in Cells(p, columns, rows, k) ensures StartsAtPhRow(p, rows, cell.start) {
        if cell in Cells(p, columns, prefix, k) {
          StartsAtPhRowExtend(p, rows, cell.start);
        } else {
          StartsAtLastRow(p, rows, cell.start);
        }
      }
    }
  }

  lemma StartsAtPhRowExtend(p: Prices, rows: seq<Row>, t: Timestamp)
    requires rows != [] && StartsAtPhRow(p, rows[..|rows| - 1], t)
    ensures StartsAtPhRow(p, rows, t)
  {
    var prefix := rows[..|rows| - 1];
    var i :| 0 <= i < |prefix| && IsPhRow(prefix[i]) && RowStart(p, RowTokens(prefix[i].name.value)) == Success(t);
    assert rows[i] == prefix[i];
  }

  lemma StartsAtLastRow(p: Prices, rows: seq<Row>, t: Timestamp)
    requires rows != []
    requires IsPhRow(rows[|rows| - 1]) && RowStart(p, RowTokens(rows[|rows| - 1].name.value)) == Success(t)
    ensures StartsAtPhRow(p, rows, t)
  {
  }

  /** The cells of a row start at that row's hour. */
  lemma RowCellsStart(p: Prices, columns: seq<string>, row: Row, k: string)
    ensures forall cell :: cell in RowCells(p, columns, row, k) ==>
      IsPhRow(row) && RowStart(p, RowTokens(row.name.value)) == Success(cell.start)
  {
    if IsPhRow(row) && RowStart(p, RowTokens(row.name.value)).Success? {
      var start := RowStart(p, RowTokens(row.name.value)).value;
      assert RowCells(p, columns, row, k) == ColumnCells(columns, row.isExtraRow, start, row.columns, k);
      ColumnCellsStart(columns, row.isExtraRow, start, row.columns, k);
    } else {
      assert RowCells(p, columns, row, k) == [];
    }
  }

  lemma {:induction false} ColumnCellsStart(columns: seq<string>, extra: bool, start: Timestamp,
                                            cols: seq<Column>, k: string)
    ensures forall cell :: cell in ColumnCells(columns, extra, start, cols, k) ==> cell.start == start
    decreases |cols|
  {
    if cols != [] {
      ColumnCellsStart(columns, extra, start, cols[..|cols| - 1], k);
    }
  }

  /** A key is seen exactly when an allowed column of some PH row has that name. */
  lemma {:induction false} SeenKeysMembers(columns: seq<string>, rows: seq<Row>, k: string)
    ensures k in SeenKeys(columns, rows) <==>
      Allowed(columns, k) &&
      exists i, j :: 0 <= i < |rows| && IsPhRow(rows[i]) && 0 <= j < |rows[i].columns| &&
        rows[i].columns[j].name == k
  {
    if k in SeenKeys(columns, rows) {
      SeenKeysSound(columns, rows, k);
    }
    if Allowed(columns, k) &&
       exists i, j :: 0 <= i < |rows| && IsPhRow(rows[i]) && 0 <= j < |rows[i].columns| &&
         rows[i].columns[j].name == k
    {
      var i, j :| 0 <= i < |rows| && IsPhRow(rows[i]) && 0 <= j < |rows[i].columns| &&
        rows[i].columns[j].name == k;
      SeenKeysComplete(columns, rows, k, i, j);
    }
  }

  /** Every key comes from an allowed column of some PH row. */
  lemma {:induction false} SeenKeysSound(columns: seq<string>, rows: seq<Row>, k: string)
    requires k in SeenKeys(columns, rows)
    ensures Allowed(columns, k)
    ensures exists i, j ::
      0 <= i < |rows| && IsPhRow(rows[i]) && 0 <= j < |rows[i].columns| && rows[i].columns[j].name == k
    decreases |rows|
  {
    var prefix, row := rows[..|rows| - 1], rows[|rows| - 1];
    if k in SeenKeys(columns, prefix) {
      SeenKeysSound(columns, prefix, k);
      var i, j :| 0 <= i < |prefix| && IsPhRow(prefix[i]) && 0 <= j < |prefix[i].columns| &&
        prefix[i].columns[j].name == k;
      assert rows[i] == prefix[i];
    } else {
      assert k in RowKeys(columns, row);
      ColumnKeysMembers(columns, row.columns, k);
      var j :| 0 <= j < |row.columns| && row.columns[j].name == k;
      assert rows[|rows| - 1] == row;
    }
  }

  /** An allowed column of a PH row is a key. */
  lemma {:induction false} SeenKeysComplete(columns: seq<string>, rows: seq<Row>, k: string, i: int, j: int)
    requires Allowed(columns, k)
    requires 0 <= i < |rows| && IsPhRow(rows[i]) && 0 <= j < |rows[i].columns|
    requires rows[i].columns[j].name == k
    ensures k in SeenKeys(columns, rows)
    decreases |rows|
  {
    var prefix, row := rows[..|rows| - 1], rows[|rows| - 1];
    if i < |prefix| {
      assert prefix[i] == rows[i];
      SeenKeysComplete(columns, prefix, k, i, j);
    } else {
      ColumnKeysMembers(columns, row.columns, k);
    }
  }

  /** The keys do not depend on the extra-row flags. */
  lemma {:induction false} SeenKeysIgnoreExtraFlag(columns: seq<string>, rows: seq<Row>, rows': seq<Row>)
    requires |rows| == |rows'|
    requires forall i :: 0 <= i < |rows| ==> rows[i].name == rows'[i].name && rows[i].columns == rows'[i].columns
    ensures SeenKeys(columns, rows) == SeenKeys(columns, rows')
    decreases |rows|
  {
    if rows != [] {
      SeenKeysIgnoreExtraFlag(columns, rows[..|rows| - 1], rows'[..|rows'| - 1]);
    }
  }

  /** One row parses, whatever the series before it, exactly when it is well formed. */
  lemma RowSucceedsIff(p: Prices, columns: seq<string>, row: Row, s: Series)
    ensures ParseRow(p, columns, row, s).Success? <==> RowOk(p, columns, row)
  {
    if IsPhRow(row) {
      match RowStart(p, RowTokens(row.name.value))
      case Failure(_) =>
      case Success(start) =>
        ColumnsSucceedIff(p, columns, row.isExtraRow, start, row.columns, s);
    }
  }

  /** The row walk succeeds exactly when every row parses. */
  lemma {:induction false} RowsSucceedIff(p: Prices, columns: seq<string>, rows: seq<Row>)
    ensures RowsFrom(p, columns, rows).Success? <==> forall i :: 0 <= i < |rows| ==> RowOk(p, columns, rows[i])
    decreases |rows|
  {
    if rows != [] {
      var prefix, row := rows[..|rows| - 1], rows[|rows| - 1];
      RowsSucceedIff(p, columns, prefix);
      RowsOkSnoc(p, columns, rows, prefix);
      var before := RowsFrom(p, columns, prefix);
      if before.Success? {
        RowSucceedsIff(p, columns, row, before.value);
      }
    }
  }

  lemma RowsOkSnoc(p: Prices, columns: seq<string>, rows: seq<Row>, prefix: seq<Row>)
    requires rows != [] && prefix == rows[..|rows| - 1]
    ensures (forall i :: 0 <= i < |rows| ==> RowOk(p, columns, rows[i])) <==>
      (forall i :: 0 <= i < |prefix| ==> RowOk(p, columns, prefix[i])) && RowOk(p, columns, rows[|rows| - 1])
  {
    assert forall i :: 0 <= i < |prefix| ==> prefix[i] == rows[i];
  }

  /** Rows other than PH rows can be removed without changing the outcome. */
  function PhRows(rows: seq<Row>): (r: seq<Row>)
    ensures forall row :: row in r ==> IsPhRow(row) && row in rows
    decreases |rows|
  {
    if rows == [] then []
    else PhRows(rows[..|rows| - 1]) + (if IsPhRow(rows[|rows| - 1]) then [rows[|rows| - 1]] else [])
  }

  lemma {:induction false} NonPhRowsIgnored(p: Prices, columns: seq<string>, rows: seq<Row>)
    ensures RowsFrom(p, columns, rows) == RowsFrom(p, columns, PhRows(rows))
    decreases |rows|
  {
    if rows != [] {
      var prefix, row := rows[..|rows| - 1], rows[|rows| - 1];
      NonPhRowsIgnored(p, columns, prefix);
      if IsPhRow(row) {
        var filtered := PhRows(prefix) + [row];
        assert PhRows(rows) == filtered;
        assert filtered[..|filtered| - 1] == PhRows(prefix);
      } else {
        assert PhRows(rows) == PhRows(prefix) + [] == PhRows(prefix);
        assert RowsFrom(p, columns, rows) == RowsFrom(p, columns, prefix);
      }
    }
  }

  /** Adding an extra row leaves every list as it was and at most adds empty ones. */
  lemma ExtraRowAddsNoPoints(p: Prices, columns: seq<string>, rows: seq<Row>, row: Row, s: Series, s': Series)
    requires row.isExtraRow
    requires RowsFrom(p, columns, rows) == Success(s)
    requires RowsFrom(p, columns, rows + [row]) == Success(s')
    ensures s'.Keys == s.Keys + RowKeys(columns, row)
    ensures forall k :: PointsOf(s', k) == PointsOf(s, k)
    ensures forall k :: k in s' && k !in s ==> s'[k] == []
  {
    var all := rows + [row];
    assert all[..|all| - 1] == rows && all[|all| - 1] == row;
    assert ParseRow(p, columns, row, s) == Success(s');
    if IsPhRow(row) {
      var start :| RowStart(p, RowTokens(row.name.value)) == Success(start);
      ExtraColumnsKeepPoints(p, columns, start, row.columns, s);
      ColumnsKeys(p, columns, true, start, row.columns, s, s');
    }
    forall k | k in s' && k !in s ensures s'[k] == [] {
      assert PointsOf(s', k) == PointsOf(s, k);
    }
  }

  /** The column walk adds exactly the allowed names as keys. */
  lemma {:induction false} ColumnsKeys(p: Prices, columns: seq<string>, extra: bool, start: Timestamp,
                                       cols: seq<Column>, s: Series, s': Series)
    requires ColumnsFrom(p, columns, extra, start, cols, s) == Success(s')
    ensures s'.Keys == s.Keys + ColumnKeys(columns, cols)
    decreases |cols|
  {
    if cols != [] {
      var s1 :| ColumnsFrom(p, columns, extra, start, cols[..|cols| - 1], s) == Success(s1);
      ColumnsKeys(p, columns, extra, start, cols[..|cols| - 1], s, s1);
    }
  }

  // ---------------------------------------------------------------------
  // The whole transform

  /**
   * On success the single area's keys are exactly the allowed column names
   * of the PH rows, and each list is, in row order and one for one, the
   * points of the cells of that column.
   */
  lemma ParseSeries(p: Prices, response: Response, columns: seq<string>, areas: seq<string>, res: FetchResult)
    requires |areas| > 0 && Parse(p, response, columns, areas) == Success(res)
    ensures areas[0] in res.areas
    ensures res.areas[areas[0]].Keys == SeenKeys(columns, response.data.rows)
    ensures forall k :: Realizes(p, k, PointsOf(res.areas[areas[0]], k), Cells(p, columns, response.data.rows, k))
  {
    var series :| RowsFrom(p, columns, response.data.rows) == Success(series);
    assert res.areas[areas[0]] == series;
    forall k ensures Realizes(p, k, PointsOf(series, k), Cells(p, columns, response.data.rows, k)) {
      RowsWalk(p, columns, response.data.rows, series, k);
    }
    RowsWalk(p, columns, response.data.rows, series, "");
  }

  /** With a non-empty allow-list, every key of the result is on the list. */
  lemma KeysWithinColumns(p: Prices, response: Response, columns: seq<string>, areas: seq<string>, res: FetchResult)
    requires |areas| > 0 && |columns| > 0 && Parse(p, response, columns, areas) == Success(res)
    ensures forall k :: k in res.areas[areas[0]] ==> k in columns
  {
    ParseSeries(p, response, columns, areas, res);
    forall k | k in res.areas[areas[0]] ensures k in columns {
      SeenKeysMembers(columns, response.data.rows, k);
    }
  }

  /** Every allowed column name of a PH row is a key; with no allow-list, every one is. */
  lemma PhColumnsBecomeKeys(p: Prices, response: Response, columns: seq<string>, areas: seq<string>, res: FetchResult)
    requires |areas| > 0 && Parse(p, response, columns, areas) == Success(res)
    ensures var rows := response.data.rows;
      forall i, j ::
        (0 <= i < |rows| && IsPhRow(rows[i]) && 0 <= j < |rows[i].columns| &&
         Allowed(columns, rows[i].columns[j].name)) ==> rows[i].columns[j].name in res.areas[areas[0]]
  {
    ParseSeries(p, response, columns, areas, res);
    var rows := response.data.rows;
    forall i, j | 0 <= i < |rows| && IsPhRow(rows[i]) && 0 <= j < |rows[i].columns| &&
        Allowed(columns, rows[i].columns[j].name)
      ensures rows[i].columns[j].name in res.areas[areas[0]]
    {
      SeenKeysMembers(columns, rows, rows[i].columns[j].name);
    }
  }

  /**
   * Every point lasts exactly one hour and starts at the hour of some PH
   * row; "Product" points hold text and all others numbers.
   */
  lemma PointsAreHourly(p: Prices, response: Response, columns: seq<string>, areas: seq<string>, res: FetchResult)
    requires |areas| > 0 && Parse(p, response, columns, areas) == Success(res)
    ensures var series: Series := res.areas[areas[0]];
      forall k: string, i: int :: k in series && 0 <= i < |series[k]| ==>
        && series[k][i].end == AddHour(series[k][i].start)
        && StartsAtPhRow(p, response.data.rows, series[k][i].start)
        && (series[k][i].value.Text? <==> k == "Product")
  {
    ParseSeries(p, response, columns, areas, res);
    var series: Series := res.areas[areas[0]];
    forall k: string, i: int | k in series && 0 <= i < |series[k]|
      ensures && series[k][i].end == AddHour(series[k][i].start)
              && StartsAtPhRow(p, response.data.rows, series[k][i].start)
              && (series[k][i].value.Text? <==> k == "Product")
    {
      var cells := Cells(p, columns, response.data.rows, k);
      assert PointsOf(series, k) == series[k];
      assert PointOf(p, k, series[k][i], cells[i]);
      assert cells[i] in cells;
      CellsStartAtRows(p, columns, response.data.rows, k);
    }
  }

  /** Each list holds one point per occurrence of its column in a non-extra PH row. */
  lemma PointCounts(p: Prices, response: Response, columns: seq<string>, areas: seq<string>, res: FetchResult, k: string)
    requires |areas| > 0 && Parse(p, response, columns, areas) == Success(res)
    ensures |PointsOf(res.areas[areas[0]], k)| == Occurrences(columns, response.data.rows, k)
  {
    ParseSeries(p, response, columns, areas, res);
    CellsCount(p, columns, response.data.rows, k);
  }

  /**
   * The transform succeeds exactly when the currency matches, the update
   * time parses and every row is well formed.
   */
  lemma ParseSucceedsIff(p: Prices, response: Response, columns: seq<string>, areas: seq<string>)
    requires |areas| > 0
    ensures Parse(p, response, columns, areas).Success? <==>
      && response.currency == p.currency
      && p.parseDt(response.data.dateUpdated).Some?
      && forall i :: 0 <= i < |response.data.rows| ==> RowOk(p, columns, response.data.rows[i])
  {
    RowsSucceedIff(p, columns, response.data.rows);
  }

  /** Two responses that differ only in their extra-row flags give the same keys. */
  lemma KeysIgnoreExtraFlag(p: Prices, response: Response, response': Response,
                            columns: seq<string>, areas: seq<string>, res: FetchResult, res': FetchResult)
    requires |areas| > 0
    requires Parse(p, response, columns, areas) == Success(res)
    requires Parse(p, response', columns, areas) == Success(res')
    requires |response.data.rows| == |response'.data.rows|
    requires forall i :: 0 <= i < |response.data.rows| ==>
      response.data.rows[i].name == response'.data.rows[i].name &&
      response.data.rows[i].columns == response'.data.rows[i].columns
    ensures res.areas[areas[0]].Keys == res'.areas[areas[0]].Keys
  {
    ParseSeries(p, response, columns, areas, res);
    ParseSeries(p, response', columns, areas, res');
    SeenKeysIgnoreExtraFlag(columns, response.data.rows, response'.data.rows);
  }

  /** Without a column list, `hourly` only ever returns the six default columns. */
  lemma HourlyDefaultKeys(p: Prices, response: Response, areas: seq<string>, res: FetchResult)
    requires |areas| > 0 && Hourly(p, response, areas, None) == Success(res)
    ensures forall k :: k in res.areas[areas[0]] ==> k in DefaultColumns
  {
    KeysWithinColumns(p, response, DefaultColumns, areas, res);
  }

  /** An explicitly empty column list is not replaced by the defaults: every PH column is kept. */
  lemma HourlyEmptyListKeepsAll(p: Prices, response: Response, areas: seq<string>, res: FetchResult)
    requires |areas| > 0 && Hourly(p, response, areas, Some([])) == Success(res)
    ensures var rows := response.data.rows;
      forall i, j :: 0 <= i < |rows| && IsPhRow(rows[i]) && 0 <= j < |rows[i].columns| ==>
        rows[i].columns[j].name in res.areas[areas[0]]
  {
    PhColumnsBecomeKeys(p, response, [], areas, res);
  }
}
