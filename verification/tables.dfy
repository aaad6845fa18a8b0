/**
 * A table as the filter engine sees a pandas DataFrame: named columns, an
 * ordered sequence of rows, nullable cells, and boolean-mask row selection.
 */
module Tables {
  import opened Common
  import opened Stamps
  import opened Subsequences

  /** One cell: NaN/None/NaT are all `Null`. */
  datatype Cell = Null | Num(number: real) | Stamp(instant: Instant) | Str(text: string)

  /** A column header; `isDatetime` is the column's datetime64 dtype (`is_datetime64_any_dtype`). */
  datatype ColumnDef = ColumnDef(name: string, isDatetime: bool)

  /** A row holds one cell per column, in column order. */
  type Row = seq<Cell>

  datatype Table = Table(columns: seq<ColumnDef>, rows: seq<Row>)

  /**
   * What every DataFrame satisfies: rows as wide as the header, unique column
   * names, and a datetime-typed column holding only timestamps and NaT.
   */
  predicate WellFormed(t: Table) {
    && (forall r :: r in t.rows ==> |r| == |t.columns|)
    && (forall a, b :: 0 <= a < b < |t.columns| ==> t.columns[a].name != t.columns[b].name)
    && (forall r: Row, j: int :: r in t.rows && 0 <= j < |r| && j < |t.columns| && t.columns[j].isDatetime ==> r[j].Null? || r[j].Stamp?)
  }

  /** The position of the column called `name` (`df[name]`), or `None` when `name not in df.columns`. */
  function ColumnIndex(columns: seq<ColumnDef>, name: string): (r: Option<nat>)
    ensures r.Some? ==> r.value < |columns| && columns[r.value].name == name
    ensures r.None? <==> forall j :: 0 <= j < |columns| ==> columns[j].name != name
  {
    if columns == [] then None
    else if columns[0].name == name then Some(0)
    else match ColumnIndex(columns[1..], name)
      case None => None
      case Some(j) => Some(j + 1)
  }

  /** The cell of row `r` in column `i` (a missing cell reads as null; well-formed rows have none). */
  function CellAt(r: Row, i: nat): Cell {
    if i < |r| then r[i] else Null
  }

  /** The column `i` as a series, one cell per row. */
  function ColumnCells(t: Table, i: nat): (s: seq<Cell>)
    ensures |s| == |t.rows|
    ensures forall k :: 0 <= k < |s| ==> s[k] == CellAt(t.rows[k], i)
  {
    seq(|t.rows|, k requires 0 <= k < |t.rows| => CellAt(t.rows[k], i))
  }

  /** `df[mask]`: the same columns, and the rows where the mask is true, in their original order. */
  function Where(t: Table, mask: seq<bool>): (r: Table)
    requires |mask| == |t.rows|
    ensures r.columns == t.columns
    ensures IsSubsequence(r.rows, t.rows)
    ensures WellFormed(t) ==> WellFormed(r)
  {
    SelectIsSubsequence(t.rows, mask);
    SubsequenceMembers(Select(t.rows, mask), t.rows);
    Table(t.columns, Select(t.rows, mask))
  }

  /** `df.iloc[0:0]`: the same columns and no rows. */
  function Empty(t: Table): (r: Table)
    ensures r.columns == t.columns && r.rows == []
    ensures IsSubsequence(r.rows, t.rows)
  {
    EmptySubsequence(t.rows);
    Table(t.columns, [])
  }

  /** The null mask of a series (`s.isna()`). */
  function NullMask(cells: seq<Cell>): (m: seq<bool>)
    ensures |m| == |cells|
    ensures forall k :: 0 <= k < |cells| ==> m[k] == cells[k].Null?
  {
    seq(|cells|, k requires 0 <= k < |cells| => cells[k].Null?)
  }

  /** A subsequence of a well-formed table's rows forms a well-formed table with the same header. */
  lemma SubsequencePreservesWellFormed(t: Table, rows: seq<Row>)
    requires WellFormed(t) && IsSubsequence(rows, t.rows)
    ensures WellFormed(Table(t.columns, rows))
  {
    SubsequenceMembers(rows, t.rows);
  }
}
