/**
 * How the table widget shows the view: each cell as text, and a row marked
 * when its `EventNext` falls on the current date (passed in, not read from a
 * clock).
 */
module Render {
  import opened Common
  import opened Text
  import opened Stamps
  import opened Subsequences
  import opened Tables
  import opened Filters
  import opened FilterProperties

  /** The column whose date marks a row as an event today. */
  const EventColumn: string := "EventNext"

  /**
   * The text of one cell: nothing for a null, the `YYYY-MM-DD HH:MM:SS`
   * layout for a timestamp (it reads back as the same instant up to the
   * second), the string itself for text, and `str` of the number otherwise.
   */
  function FormatCell(env: Coercions, c: Cell): (s: string)
    ensures c.Null? ==> s == ""
    ensures c.Str? ==> s == c.text
    ensures c.Stamp? ==> |s| == 19
  {
    match c
    case Null => ""
    case Num(x) => env.formatNumber(x)
    case Stamp(t) => FormatStamp(t)
    case Str(text) => text
  }

  /** A timestamp cell's text reads back as the same instant, up to the second. */
  lemma StampCellReadsBack(env: Coercions, t: Instant)
    requires ValidInstant(t)
    ensures ParseStamp(FormatCell(env, Stamp(t))) == Some(Instant(t.date, t.second, 0))
  {
    FormatStampRoundTrip(t);
  }

  /** A row is tagged when the table has `EventNext` and that cell converts to a timestamp on `today`. */
  predicate IsEventToday(env: Coercions, t: Table, r: Row, today: Date) {
    match ColumnIndex(t.columns, EventColumn)
    case None => false
    case Some(i) =>
      var ev := ToDatetime(env, CellAt(r, i));
      ev.Some? && ev.value.date == today
  }

  /** The tag of every row, in row order. */
  function EventTodayMask(env: Coercions, t: Table, today: Date): (m: seq<bool>)
    ensures |m| == |t.rows|
    ensures forall k :: 0 <= k < |t.rows| ==> m[k] == IsEventToday(env, t, t.rows[k], today)
  {
    seq(|t.rows|, k requires 0 <= k < |t.rows| => IsEventToday(env, t, t.rows[k], today))
  }

  /** One line of the widget: the cell texts and the "event today" tag. */
  datatype Line = Line(values: seq<string>, eventToday: bool)

  /** `line` shows `r`: the text of each of its cells, in column order, and its tag. */
  predicate Shows(env: Coercions, t: Table, today: Date, r: Row, line: Line) {
    && |line.values| == |r|
    && (forall j :: 0 <= j < |r| ==> line.values[j] == FormatCell(env, r[j]))
    && line.eventToday == IsEventToday(env, t, r, today)
  }

  /**
   * `_populate_rows`: nothing for a frame without columns (`df.empty`, which
   * a frame without rows also is); otherwise one line per row, in row order,
   * each showing its row's cells and tag.
   */
  method PopulateRows(env: Coercions, t: Table, today: Date) returns (lines: seq<Line>)
    ensures |t.columns| == 0 ==> lines == []
    ensures |t.columns| > 0 ==> |lines| == |t.rows|
    ensures |t.columns| > 0 ==> forall k :: 0 <= k < |t.rows| ==> Shows(env, t, today, t.rows[k], lines[k])
  {
    lines := [];
    if |t.columns| == 0 {
      return;
    }
    var n := 0;
    while n < |t.rows|
      invariant 0 <= n <= |t.rows|
      invariant |lines| == n
      invariant forall k :: 0 <= k < n ==> Shows(env, t, today, t.rows[k], lines[k])
    {
      var line := RenderLine(env, t, t.rows[n], today);
      lines := lines + [line];
      n := n + 1;
    }
  }

  /** On a well-formed table every line holds exactly one text per column of the header. */
  lemma LinesMatchHeader(env: Coercions, t: Table, today: Date, lines: seq<Line>)
    requires WellFormed(t)
    requires |lines| == |t.rows|
    requires forall k :: 0 <= k < |t.rows| ==> Shows(env, t, today, t.rows[k], lines[k])
    ensures forall k :: 0 <= k < |lines| ==> |lines[k].values| == |t.columns|
  {
    forall k | 0 <= k < |lines| ensures |lines[k].values| == |t.columns| {
      assert t.rows[k] in t.rows;
    }
  }

  /** The line of one row: its cell texts and its tag. */
  method RenderLine(env: Coercions, t: Table, r: Row, today: Date) returns (line: Line)
    ensures Shows(env, t, today, r, line)
  {
    var values := FormatRow(env, r);
    line := Line(values, IsEventToday(env, t, r, today));
  }

  /** The texts of one row's cells, column by column. */
  method FormatRow(env: Coercions, row: Row) returns (values: seq<string>)
    ensures |values| == |row|
    ensures forall j :: 0 <= j < |row| ==> values[j] == FormatCell(env, row[j])
  {
    values := [];
    var j := 0;
    while j < |row|
      invariant 0 <= j <= |row|
      invariant |values| == j
      invariant forall c :: 0 <= c < j ==> values[c] == FormatCell(env, row[c])
    {
      values := values + [FormatCell(env, row[j])];
      j := j + 1;
    }
  }

  // ----- `_populate_rows` as written: NaT stops the rendering -----

  /**
   * A cell the loop as written cannot show: a NaT in a datetime-typed column.
   * NaT passes the `isinstance(val, datetime)` test before `pd.isna` is
   * reached, and its `strftime` raises outside the `try`.
   */
  predicate Unprintable(columns: seq<ColumnDef>, r: Row, j: int) {
    0 <= j < |r| && j < |columns| && columns[j].isDatetime && r[j].Null?
  }

  predicate HasUnprintable(columns: seq<ColumnDef>, r: Row) {
    exists j :: 0 <= j < |r| && Unprintable(columns, r, j)
  }

  /** How many rows reach the widget before the first row holding a NaT. */
  function PrintablePrefix(columns: seq<ColumnDef>, rows: seq<Row>): (n: nat)
    ensures n <= |rows|
    ensures forall k :: 0 <= k < n ==> !HasUnprintable(columns, rows[k])
    ensures n < |rows| ==> HasUnprintable(columns, rows[n])
    decreases |rows|
  {
    if rows == [] || HasUnprintable(columns, rows[0]) then 0
    else 1 + PrintablePrefix(columns, rows[1..])
  }

  /**
   * `_populate_rows` as written: a frame without columns shows nothing;
   * otherwise the rows before the first one holding a NaT are shown as
   * `PopulateRows` shows them, and that row raises.
   */
  method PopulateRowsAsWritten(env: Coercions, t: Table, today: Date) returns (lines: seq<Line>, raised: bool)
    ensures |t.columns| == 0 ==> lines == [] && !raised
    ensures |t.columns| > 0 ==> |lines| == PrintablePrefix(t.columns, t.rows)
    ensures |t.columns| > 0 ==> (raised <==> |lines| < |t.rows|)
    ensures forall k :: 0 <= k < |lines| ==> Shows(env, t, today, t.rows[k], lines[k])
  {
    lines := [];
    raised := false;
    if |t.columns| == 0 {
      return;
    }
    var n := 0;
    while n < |t.rows|
      invariant 0 <= n <= |t.rows|
      invariant |lines| == n
      invariant forall k :: 0 <= k < n ==> !HasUnprintable(t.columns, t.rows[k])
      invariant forall k :: 0 <= k < n ==> Shows(env, t, today, t.rows[k], lines[k])
    {
      var values, failed := FormatRowAsWritten(env, t.columns, t.rows[n]);
      if failed {
        raised := true;
        return;
      }
      lines := lines + [Line(values, IsEventToday(env, t, t.rows[n], today))];
      n := n + 1;
    }
  }

  /** The cell loop as written: it raises at the first NaT of a datetime-typed column. */
  method FormatRowAsWritten(env: Coercions, columns: seq<ColumnDef>, row: Row) returns (values: seq<string>, failed: bool)
    ensures failed <==> HasUnprintable(columns, row)
    ensures !failed ==> |values| == |row| && forall j :: 0 <= j < |row| ==> values[j] == FormatCell(env, row[j])
  {
    values := [];
    failed := false;
    var j := 0;
    while j < |row|
      invariant 0 <= j <= |row|
      invariant |values| == j
      invariant forall c :: 0 <= c < j ==> values[c] == FormatCell(env, row[c]) && !Unprintable(columns, row, c)
    {
      if j < |columns| && columns[j].isDatetime && row[j].Null? {
        assert Unprintable(columns, row, j);
        failed := true;
        return;
      }
      values := values + [FormatCell(env, row[j])];
      j := j + 1;
    }
  }

  /**
   * The discrepancy on one input: a table whose datetime column `EventNext`
   * holds a NaT shows no line as written, where the intended rendering shows
   * that row with an empty cell.
   */
  lemma NaTStopsRendering(env: Coercions, t: Table, today: Date)
    requires t.columns == [ColumnDef(EventColumn, true)] && t.rows == [[Null]]
    ensures PrintablePrefix(t.columns, t.rows) == 0 < |t.rows|
    ensures Shows(env, t, today, t.rows[0], Line([""], false))
  {
    assert Unprintable(t.columns, t.rows[0], 0);
    assert ColumnIndex(t.columns, EventColumn) == Some(0);
  }

  /** On a well-formed table, the dates datetime mode compares for `EventNext` are the ones the tag looks at. */
  lemma EventDatesAreTagDates(env: Coercions, t: Table, today: Date)
    requires WellFormed(t)
    requires ColumnIndex(t.columns, EventColumn).Some?
    ensures var i := ColumnIndex(t.columns, EventColumn).value;
      SameDateMask(DatetimeSeries(env, t.columns[i].isDatetime, ColumnCells(t, i)), today) == EventTodayMask(env, t, today)
  {
    var i := ColumnIndex(t.columns, EventColumn).value;
    var cells := ColumnCells(t, i);
    var s := DatetimeSeries(env, t.columns[i].isDatetime, cells);
    forall k | 0 <= k < |t.rows| ensures s[k] == ToDatetime(env, cells[k]) {
      if t.columns[i].isDatetime {
        assert t.rows[k] in t.rows;
        assert cells[k].Null? || cells[k].Stamp?;
      }
    }
  }

  /**
   * On a well-formed table, the "event today" tag marks exactly the rows that
   * the datetime filter `EventNext = v` keeps when `v` is a date on `today`.
   */
  lemma EventTagAgreesWithDateFilter(env: Coercions, t: Table, v: string, w: string, today: Date)
    requires WellFormed(t)
    requires ColumnIndex(t.columns, EventColumn).Some?
    requires var i := ColumnIndex(t.columns, EventColumn).value;
      DecideMode(env, t.columns[i], ColumnCells(t, i), Strip(v)) == DatetimeMode
    requires env.parseDatetime(Strip(v)).Some? && env.parseDatetime(Strip(v)).value.date == today
    ensures ApplySingleFilter(env, t, FilterSpec(EventColumn, "=", v, w)) == Ok(Where(t, EventTodayMask(env, t, today)))
  {
    var f := FilterSpec(EventColumn, "=", v, w);
    var s := DatetimeSeriesOf(env, t, f);
    assert ParseOp(f.op) == Eq;
    Dispatch(env, t, f);
    assert CompareDatetime(env, t, s, Eq, Strip(v), Strip(w)) == Ok(Where(t, SameDateMask(s, today)));
    EventDatesAreTagDates(env, t, today);
  }
}
