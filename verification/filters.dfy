/**
 * Evaluation of one stacked filter against a table (`DataModel._apply_single_filter`
 * and `DataModel._apply_string_ops`): null checks first, then a comparison mode
 * chosen in the fixed order datetime, numeric, text, then the operator.
 */
module Filters {
  import opened Common
  import opened Text
  import opened Stamps
  import opened Subsequences
  import opened Tables

  /** A filter as the panel builds it; the values stay raw user text until the filter is evaluated. */
  datatype FilterSpec = FilterSpec(column: string, op: string, value1: string, value2: string)

  /** The operators; any other operator name is `Unsupported`. */
  datatype Op =
    | Eq | Ne | Lt | Le | Gt | Ge | Between
    | Contains | StartsWith | EndsWith
    | IsNull | IsNotNull
    | Unsupported(name: string)

  /** The operator names the filter panel offers, in its order. */
  const Operators: seq<string> :=
    ["=", "!=", "<", "<=", ">", ">=", "between", "contains", "startswith", "endswith", "is null", "is not null"]

  function ParseOp(s: string): Op {
    if s == "=" then Eq
    else if s == "!=" then Ne
    else if s == "<" then Lt
    else if s == "<=" then Le
    else if s == ">" then Gt
    else if s == ">=" then Ge
    else if s == "between" then Between
    else if s == "contains" then Contains
    else if s == "startswith" then StartsWith
    else if s == "endswith" then EndsWith
    else if s == "is null" then IsNull
    else if s == "is not null" then IsNotNull
    else Unsupported(s)
  }

  function OpName(op: Op): string {
    match op
    case Eq => "=" case Ne => "!=" case Lt => "<" case Le => "<=" case Gt => ">" case Ge => ">="
    case Between => "between" case Contains => "contains" case StartsWith => "startswith"
    case EndsWith => "endswith" case IsNull => "is null" case IsNotNull => "is not null"
    case Unsupported(name) => name
  }

  /** The substring family, which also applies to timestamps and numbers rendered as text. */
  predicate IsSubstringOp(op: Op) {
    op == Contains || op == StartsWith || op == EndsWith
  }

  /**
   * The library conversions the evaluation calls and this model does not
   * define: `float(x)` on the value, `pd.to_numeric` on a text cell,
   * `pd.to_datetime(x)` on text and on a number, `str(x)` on a float, and
   * whether `re` accepts a `contains` needle as a pattern.
   */
  datatype Coercions = Coercions(
    parseFloat: string -> Option<real>,
    coerceNumber: string -> Option<real>,
    parseDatetime: string -> Option<Instant>,
    numberToDatetime: real -> Option<Instant>,
    formatNumber: real -> string,
    patternCompiles: string -> bool)

  /** `pd.to_numeric(cell, errors="coerce")`; `None` is NaN. */
  function ToNumber(env: Coercions, c: Cell): Option<real> {
    match c
    case Null => None
    case Num(x) => Some(x)
    case Stamp(_) => None
    case Str(s) => env.coerceNumber(s)
  }

  /** `pd.to_datetime(cell, errors="coerce")`; `None` is NaT. */
  function ToDatetime(env: Coercions, c: Cell): Option<Instant> {
    match c
    case Null => None
    case Num(x) => env.numberToDatetime(x)
    case Stamp(t) => Some(t)
    case Str(s) => env.parseDatetime(s)
  }

  /** A cell of a datetime64 column read as it is: a timestamp or NaT. */
  function StampOf(c: Cell): Option<Instant> {
    if c.Stamp? then Some(c.instant) else None
  }

  /** `cell.astype("string")` with nulls filled by `""`. */
  function AsText(env: Coercions, c: Cell): string {
    match c
    case Null => ""
    case Num(x) => env.formatNumber(x)
    case Stamp(t) => FormatStamp(t)
    case Str(s) => s
  }

  /** The series compared in datetime mode: the column itself when it is datetime-typed, its coerced conversion otherwise. */
  function DatetimeSeries(env: Coercions, isDatetime: bool, cells: seq<Cell>): (s: seq<Option<Instant>>)
    ensures |s| == |cells|
  {
    seq(|cells|, k requires 0 <= k < |cells| => if isDatetime then StampOf(cells[k]) else ToDatetime(env, cells[k]))
  }

  /** The series compared in numeric mode (`pd.to_numeric(s, errors="coerce")`). */
  function NumericSeries(env: Coercions, cells: seq<Cell>): (s: seq<Option<real>>)
    ensures |s| == |cells|
  {
    seq(|cells|, k requires 0 <= k < |cells| => ToNumber(env, cells[k]))
  }

  /** The series compared in text mode. */
  function TextSeries(env: Coercions, cells: seq<Cell>): (s: seq<string>)
    ensures |s| == |cells|
  {
    seq(|cells|, k requires 0 <= k < |cells| => AsText(env, cells[k]))
  }

  /** Timestamps rendered for the substring operators, NaT as `""`. */
  function InstantText(s: seq<Option<Instant>>): (r: seq<string>)
    ensures |r| == |s|
  {
    seq(|s|, k requires 0 <= k < |s| => if s[k].Some? then FormatStamp(s[k].value) else "")
  }

  /** Numbers rendered for the substring operators, NaN as `""`. */
  function NumberText(env: Coercions, s: seq<Option<real>>): (r: seq<string>)
    ensures |r| == |s|
  {
    seq(|s|, k requires 0 <= k < |s| => if s[k].Some? then env.formatNumber(s[k].value) else "")
  }

  /** `series.notna().any()`. */
  predicate AnySome<T>(s: seq<Option<T>>) {
    exists k :: 0 <= k < |s| && s[k].Some?
  }

  /** How a filter compares values. */
  datatype Mode = DatetimeMode | NumericMode | TextMode

  /** The comparison mode, decided in the fixed order datetime, numeric, text. */
  function DecideMode(env: Coercions, col: ColumnDef, cells: seq<Cell>, v1: string): (m: Mode)
    ensures col.isDatetime ==> m == DatetimeMode
    ensures m == DatetimeMode <==>
      col.isDatetime || (env.parseDatetime(v1).Some? && AnySome(DatetimeSeries(env, false, cells)))
    ensures m == NumericMode <==>
      && !(col.isDatetime || (env.parseDatetime(v1).Some? && AnySome(DatetimeSeries(env, false, cells))))
      && env.parseFloat(v1).Some? && AnySome(NumericSeries(env, cells))
    ensures m == TextMode <==>
      && !(col.isDatetime || (env.parseDatetime(v1).Some? && AnySome(DatetimeSeries(env, false, cells))))
      && !(env.parseFloat(v1).Some? && AnySome(NumericSeries(env, cells)))
  {
    if col.isDatetime then DatetimeMode
    else if env.parseDatetime(v1).Some? && AnySome(DatetimeSeries(env, false, cells)) then DatetimeMode
    else if env.parseFloat(v1).Some? && AnySome(NumericSeries(env, cells)) then NumericMode
    else TextMode
  }

  // ----- masks: one boolean per row, as pandas builds them -----

  /** `x <op> d` on timestamps for the ordering operators. */
  predicate InstantCompare(x: Instant, op: Op, d: Instant) {
    match op
    case Lt => Before(x, d)
    case Le => AtOrBefore(x, d)
    case Gt => Before(d, x)
    case Ge => AtOrBefore(d, x)
    case _ => false
  }

  /** `s.dt.date == day`: NaT compares false. */
  function SameDateMask(s: seq<Option<Instant>>, day: Date): (m: seq<bool>)
    ensures |m| == |s|
    ensures forall k :: 0 <= k < |s| ==> m[k] == (s[k].Some? && s[k].value.date == day)
  {
    seq(|s|, k requires 0 <= k < |s| => s[k].Some? && s[k].value.date == day)
  }

  /** `s.dt.date != day`: NaT compares true. */
  function OtherDateMask(s: seq<Option<Instant>>, day: Date): (m: seq<bool>)
    ensures |m| == |s|
    ensures forall k :: 0 <= k < |s| ==> m[k] == (s[k].None? || s[k].value.date != day)
  {
    seq(|s|, k requires 0 <= k < |s| => s[k].None? || s[k].value.date != day)
  }

  /** `s < d`, `s <= d`, `s > d`, `s >= d` at full precision: NaT compares false. */
  function InstantCompareMask(s: seq<Option<Instant>>, op: Op, d: Instant): (m: seq<bool>)
    ensures |m| == |s|
    ensures forall k :: 0 <= k < |s| ==> m[k] == (s[k].Some? && InstantCompare(s[k].value, op, d))
  {
    seq(|s|, k requires 0 <= k < |s| => s[k].Some? && InstantCompare(s[k].value, op, d))
  }

  /** `(s >= lo) & (s <= hi)`: NaT compares false. */
  function InstantRangeMask(s: seq<Option<Instant>>, lo: Instant, hi: Instant): (m: seq<bool>)
    ensures |m| == |s|
    ensures forall k :: 0 <= k < |s| ==> m[k] == (s[k].Some? && AtOrBefore(lo, s[k].value) && AtOrBefore(s[k].value, hi))
  {
    seq(|s|, k requires 0 <= k < |s| => s[k].Some? && AtOrBefore(lo, s[k].value) && AtOrBefore(s[k].value, hi))
  }

  /** `x <op> n` on numbers for `=` and the ordering operators. */
  predicate NumberCompare(x: real, op: Op, n: real) {
    match op
    case Eq => x == n
    case Lt => x < n
    case Le => x <= n
    case Gt => x > n
    case Ge => x >= n
    case _ => false
  }

  /** `s_num == n`, `s_num < n`, ...: NaN compares false. */
  function NumberCompareMask(s: seq<Option<real>>, op: Op, n: real): (m: seq<bool>)
    ensures |m| == |s|
    ensures forall k :: 0 <= k < |s| ==> m[k] == (s[k].Some? && NumberCompare(s[k].value, op, n))
  {
    seq(|s|, k requires 0 <= k < |s| => s[k].Some? && NumberCompare(s[k].value, op, n))
  }

  /** `s_num != n`: NaN compares true. */
  function NumberNotEqualMask(s: seq<Option<real>>, n: real): (m: seq<bool>)
    ensures |m| == |s|
    ensures forall k :: 0 <= k < |s| ==> m[k] == (s[k].None? || s[k].value != n)
  {
    seq(|s|, k requires 0 <= k < |s| => s[k].None? || s[k].value != n)
  }

  /** `(s_num >= lo) & (s_num <= hi)`: NaN compares false. */
  function NumberRangeMask(s: seq<Option<real>>, lo: real, hi: real): (m: seq<bool>)
    ensures |m| == |s|
    ensures forall k :: 0 <= k < |s| ==> m[k] == (s[k].Some? && lo <= s[k].value <= hi)
  {
    seq(|s|, k requires 0 <= k < |s| => s[k].Some? && lo <= s[k].value <= hi)
  }

  /** The text operators: exact `=`/`!=`, case-insensitive `contains`, case-sensitive `startswith`/`endswith`. */
  predicate TextMatches(x: string, op: Op, needle: string) {
    match op
    case Eq => x == needle
    case Ne => x != needle
    case Contains => ContainsIgnoringCase(x, needle)
    case StartsWith => IsPrefix(needle, x)
    case EndsWith => IsSuffix(needle, x)
    case _ => true
  }

  function TextMask(s: seq<string>, op: Op, needle: string): (m: seq<bool>)
    ensures |m| == |s|
    ensures forall k :: 0 <= k < |s| ==> m[k] == TextMatches(s[k], op, needle)
  {
    seq(|s|, k requires 0 <= k < |s| => TextMatches(s[k], op, needle))
  }

  // ----- evaluation -----

  /** `_apply_string_ops`: compare a text series with the needle; any other operator leaves the table as it is. */
  function StringOps(env: Coercions, t: Table, s: seq<string>, op: Op, needle: string): (r: Result<Table>)
    requires |s| == |t.rows|
    ensures r.Ok? ==> r.value.columns == t.columns && IsSubsequence(r.value.rows, t.rows)
    ensures r.Failed? <==> op == Contains && !env.patternCompiles(needle)
  {
    match op
    case Eq | Ne | StartsWith | EndsWith => Ok(Where(t, TextMask(s, op, needle)))
    case Contains =>
      if env.patternCompiles(needle) then Ok(Where(t, TextMask(s, op, needle)))
      else Failed("re.error: " + needle)
    case _ =>
      SubsequenceReflexive(t.rows);
      Ok(t)
  }

  /** The bounds of `between` put in order: `(lo, hi) = (a, b) if a <= b else (b, a)`. */
  function OrderedInstants(a: Instant, b: Instant): (Instant, Instant) {
    if AtOrBefore(a, b) then (a, b) else (b, a)
  }

  function OrderedNumbers(a: real, b: real): (real, real) {
    if a <= b then (a, b) else (b, a)
  }

  /** Datetime mode: the series `s` against `value1` (and `value2` for `between`). */
  function CompareDatetime(env: Coercions, t: Table, s: seq<Option<Instant>>, op: Op, v1: string, v2: string): (r: Result<Table>)
    requires |s| == |t.rows|
    ensures r.Ok? ==> r.value.columns == t.columns && IsSubsequence(r.value.rows, t.rows)
    ensures r.Failed? <==> op == Contains && !env.patternCompiles(v1)
  {
    var dt1 := env.parseDatetime(v1);
    var dt2 := if v2 != "" then env.parseDatetime(v2) else None;
    if dt1.None? && !IsSubstringOp(op) then Ok(Empty(t))
    else
      match op
      case Eq => Ok(Where(t, SameDateMask(s, dt1.value.date)))
      case Ne => Ok(Where(t, OtherDateMask(s, dt1.value.date)))
      case Lt | Le | Gt | Ge => Ok(Where(t, InstantCompareMask(s, op, dt1.value)))
      case Between =>
        if dt2.None? then Ok(Empty(t))
        else
          var (lo, hi) := OrderedInstants(dt1.value, dt2.value);
          Ok(Where(t, InstantRangeMask(s, lo, hi)))
      case _ => StringOps(env, t, InstantText(s), op, v1)
  }

  /** Numeric mode: the series `s` against the number `n1` parsed from `value1` (and `value2` for `between`). */
  function CompareNumeric(env: Coercions, t: Table, s: seq<Option<real>>, op: Op, n1: real, v1: string, v2: string): (r: Result<Table>)
    requires |s| == |t.rows|
    ensures r.Ok? ==> r.value.columns == t.columns && IsSubsequence(r.value.rows, t.rows)
    ensures r.Failed? <==> op == Contains && !env.patternCompiles(v1)
  {
    var n2 := if v2 != "" then env.parseFloat(v2) else None;
    match op
    case Eq | Lt | Le | Gt | Ge => Ok(Where(t, NumberCompareMask(s, op, n1)))
    case Ne => Ok(Where(t, NumberNotEqualMask(s, n1)))
    case Between =>
      if n2.None? then Ok(Empty(t))
      else
        var (lo, hi) := OrderedNumbers(n1, n2.value);
        Ok(Where(t, NumberRangeMask(s, lo, hi)))
    case _ => StringOps(env, t, NumberText(env, s), op, v1)
  }

  /**
   * `_apply_single_filter`: evaluate one filter. `Failed` stands for the
   * exception the source raises (an unknown column, a `contains` needle that
   * is not a valid pattern).
   */
  function ApplySingleFilter(env: Coercions, t: Table, f: FilterSpec): (r: Result<Table>)
    ensures r.Ok? ==> r.value.columns == t.columns && IsSubsequence(r.value.rows, t.rows)
    ensures r.Failed? <==>
      ColumnIndex(t.columns, f.column).None? || (ParseOp(f.op) == Contains && !env.patternCompiles(Strip(f.value1)))
  {
    match ColumnIndex(t.columns, f.column)
    case None => Failed("KeyError: " + f.column)
    case Some(i) =>
      var cells := ColumnCells(t, i);
      var op := ParseOp(f.op);
      var v1 := Strip(f.value1);
      var v2 := Strip(f.value2);
      if op == IsNull then Ok(Where(t, NullMask(cells)))
      else if op == IsNotNull then Ok(Where(t, Complement(NullMask(cells))))
      else
        match DecideMode(env, t.columns[i], cells, v1)
        case DatetimeMode => CompareDatetime(env, t, DatetimeSeries(env, t.columns[i].isDatetime, cells), op, v1, v2)
        case NumericMode => CompareNumeric(env, t, NumericSeries(env, cells), op, env.parseFloat(v1).value, v1, v2)
        case TextMode => StringOps(env, t, TextSeries(env, cells), op, v1)
  }
}
