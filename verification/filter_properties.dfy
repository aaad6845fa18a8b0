/**
 * What one filter does to a table, stated against the evaluation in `Filters`:
 * the null operators partition, `=` and `!=` partition, nulls never satisfy a
 * comparison, `between` is symmetric and inclusive, datetime equality is by
 * calendar day, and the text operators differ in case sensitivity.
 */
module FilterProperties {
  import opened Common
  import opened Text
  import opened Stamps
  import opened Subsequences
  import opened Tables
  import opened Filters

  /** The comparison mode the filter `f` gets on table `t` (its column must exist). */
  function ModeOf(env: Coercions, t: Table, f: FilterSpec): Mode
    requires ColumnIndex(t.columns, f.column).Some?
  {
    var i := ColumnIndex(t.columns, f.column).value;
    DecideMode(env, t.columns[i], ColumnCells(t, i), Strip(f.value1))
  }

  /** The series datetime mode compares for the column of `f`. */
  function DatetimeSeriesOf(env: Coercions, t: Table, f: FilterSpec): (s: seq<Option<Instant>>)
    requires ColumnIndex(t.columns, f.column).Some?
    ensures |s| == |t.rows|
  {
    var i := ColumnIndex(t.columns, f.column).value;
    DatetimeSeries(env, t.columns[i].isDatetime, ColumnCells(t, i))
  }

  /** The series numeric mode compares for the column of `f`. */
  function NumericSeriesOf(env: Coercions, t: Table, f: FilterSpec): (s: seq<Option<real>>)
    requires ColumnIndex(t.columns, f.column).Some?
    ensures |s| == |t.rows|
  {
    NumericSeries(env, ColumnCells(t, ColumnIndex(t.columns, f.column).value))
  }

  /** Outside the null operators, a filter is the comparison of its mode. */
  lemma Dispatch(env: Coercions, t: Table, f: FilterSpec)
    requires ColumnIndex(t.columns, f.column).Some?
    requires ParseOp(f.op) != IsNull && ParseOp(f.op) != IsNotNull
    ensures var op := ParseOp(f.op);
      var v1 := Strip(f.value1);
      var v2 := Strip(f.value2);
      && (ModeOf(env, t, f) == DatetimeMode ==>
            ApplySingleFilter(env, t, f) == CompareDatetime(env, t, DatetimeSeriesOf(env, t, f), op, v1, v2))
      && (ModeOf(env, t, f) == NumericMode ==>
            ApplySingleFilter(env, t, f) == CompareNumeric(env, t, NumericSeriesOf(env, t, f), op, env.parseFloat(v1).value, v1, v2))
      && (ModeOf(env, t, f) == TextMode ==>
            ApplySingleFilter(env, t, f) == StringOps(env, t, TextSeries(env, ColumnCells(t, ColumnIndex(t.columns, f.column).value)), op, v1))
  {
  }

  /** Every operator name the panel offers reads back as itself, and only those names are supported. */
  lemma OperatorNamesRoundTrip(s: string)
    ensures OpName(ParseOp(s)) == s
    ensures ParseOp(s).Unsupported? <==> s !in Operators
  {
  }

  /** The null operators select by the column's null mask. */
  lemma NullDispatch(env: Coercions, t: Table, f: FilterSpec)
    requires ColumnIndex(t.columns, f.column).Some?
    requires f.op == "is null" || f.op == "is not null"
    ensures var m := NullMask(ColumnCells(t, ColumnIndex(t.columns, f.column).value));
      ApplySingleFilter(env, t, f) == Ok(Where(t, if f.op == "is null" then m else Complement(m)))
  {
    assert ParseOp("is null") == IsNull && ParseOp("is not null") == IsNotNull;
  }

  /** The rows with a null cell at `i` and the others split the rows of `t`. */
  lemma NullMaskPartition(t: Table, i: nat)
    ensures var m := NullMask(ColumnCells(t, i));
      && IsInterleaving(Select(t.rows, m), Select(t.rows, Complement(m)), t.rows)
      && multiset(Select(t.rows, m)) + multiset(Select(t.rows, Complement(m))) == multiset(t.rows)
      && (forall r :: r in Select(t.rows, m) ==> CellAt(r, i).Null?)
      && (forall r :: r in Select(t.rows, Complement(m)) ==> !CellAt(r, i).Null?)
  {
    var m := NullMask(ColumnCells(t, i));
    SelectPartition(t.rows, m);
    InterleavingMultiset(Select(t.rows, m), Select(t.rows, Complement(m)), t.rows);
    forall r | r in Select(t.rows, m) ensures CellAt(r, i).Null? {
      SelectMembers(t.rows, m, r);
    }
    forall r | r in Select(t.rows, Complement(m)) ensures !CellAt(r, i).Null? {
      SelectMembers(t.rows, Complement(m), r);
    }
  }

  /**
   * `is null` and `is not null` split the rows of any table, whatever the
   * column's type and whatever values the filters carry: the two results
   * interleave to exactly the original rows, the first holding the rows with
   * a null cell and the second the others.
   */
  lemma NullOpsPartition(env: Coercions, t: Table, column: string, a1: string, a2: string, b1: string, b2: string)
    requires ColumnIndex(t.columns, column).Some?
    ensures
      var i := ColumnIndex(t.columns, column).value;
      var nulls := ApplySingleFilter(env, t, FilterSpec(column, "is null", a1, a2));
      var others := ApplySingleFilter(env, t, FilterSpec(column, "is not null", b1, b2));
      && nulls.Ok? && others.Ok?
      && IsInterleaving(nulls.value.rows, others.value.rows, t.rows)
      && multiset(nulls.value.rows) + multiset(others.value.rows) == multiset(t.rows)
      && (forall r :: r in nulls.value.rows ==> CellAt(r, i).Null?)
      && (forall r :: r in others.value.rows ==> !CellAt(r, i).Null?)
  {
    var i := ColumnIndex(t.columns, column).value;
    NullDispatch(env, t, FilterSpec(column, "is null", a1, a2));
    NullDispatch(env, t, FilterSpec(column, "is not null", b1, b2));
    NullMaskPartition(t, i);
  }

  /** Datetime `=` and `!=` against the same date split the rows. */
  lemma DatetimeEqualsPartition(env: Coercions, t: Table, s: seq<Option<Instant>>, v1: string, a: string, b: string)
    requires |s| == |t.rows| && env.parseDatetime(v1).Some?
    ensures var eq := CompareDatetime(env, t, s, Eq, v1, a);
      var ne := CompareDatetime(env, t, s, Ne, v1, b);
      eq.Ok? && ne.Ok? && IsInterleaving(eq.value.rows, ne.value.rows, t.rows)
  {
    var day := env.parseDatetime(v1).value.date;
    assert OtherDateMask(s, day) == Complement(SameDateMask(s, day));
    SelectPartition(t.rows, SameDateMask(s, day));
  }

  /** Numeric `=` and `!=` against the same number split the rows. */
  lemma NumericEqualsPartition(env: Coercions, t: Table, s: seq<Option<real>>, n: real, v1: string, a: string, b: string)
    requires |s| == |t.rows|
    ensures var eq := CompareNumeric(env, t, s, Eq, n, v1, a);
      var ne := CompareNumeric(env, t, s, Ne, n, v1, b);
      eq.Ok? && ne.Ok? && IsInterleaving(eq.value.rows, ne.value.rows, t.rows)
  {
    assert NumberNotEqualMask(s, n) == Complement(NumberCompareMask(s, Eq, n));
    SelectPartition(t.rows, NumberCompareMask(s, Eq, n));
  }

  /** Text `=` and `!=` against the same needle split the rows. */
  lemma TextEqualsPartition(env: Coercions, t: Table, s: seq<string>, needle: string)
    requires |s| == |t.rows|
    ensures var eq := StringOps(env, t, s, Eq, needle);
      var ne := StringOps(env, t, s, Ne, needle);
      eq.Ok? && ne.Ok? && IsInterleaving(eq.value.rows, ne.value.rows, t.rows)
  {
    assert TextMask(s, Ne, needle) == Complement(TextMask(s, Eq, needle));
    SelectPartition(t.rows, TextMask(s, Eq, needle));
  }

  /**
   * `=` and `!=` with the same value split the rows in every mode (nulls go
   * to `!=`), except in datetime mode with a value that is not a date, where
   * both keep nothing.
   */
  lemma EqualsNotEqualsPartition(env: Coercions, t: Table, column: string, v: string, w1: string, w2: string)
    requires ColumnIndex(t.columns, column).Some?
    requires ModeOf(env, t, FilterSpec(column, "=", v, w1)) == DatetimeMode ==> env.parseDatetime(Strip(v)).Some?
    ensures
      var eq := ApplySingleFilter(env, t, FilterSpec(column, "=", v, w1));
      var ne := ApplySingleFilter(env, t, FilterSpec(column, "!=", v, w2));
      && eq.Ok? && ne.Ok?
      && IsInterleaving(eq.value.rows, ne.value.rows, t.rows)
  {
    var f := FilterSpec(column, "=", v, w1);
    var g := FilterSpec(column, "!=", v, w2);
    assert ParseOp(f.op) == Eq && ParseOp(g.op) == Ne;
    assert ModeOf(env, t, f) == ModeOf(env, t, g);
    Dispatch(env, t, f);
    Dispatch(env, t, g);
    var v1 := Strip(v);
    match ModeOf(env, t, f)
    case DatetimeMode =>
      DatetimeEqualsPartition(env, t, DatetimeSeriesOf(env, t, f), v1, Strip(w1), Strip(w2));
    case NumericMode =>
      NumericEqualsPartition(env, t, NumericSeriesOf(env, t, f), env.parseFloat(v1).value, v1, Strip(w1), Strip(w2));
    case TextMode =>
      TextEqualsPartition(env, t, TextSeries(env, ColumnCells(t, ColumnIndex(t.columns, column).value)), v1);
  }

  /** Rows kept by a mask that only keeps rows whose cell in column `i` is not null have no null cell there. */
  lemma KeptRowsHaveValues(rows: seq<Row>, m: seq<bool>, i: nat)
    requires |m| == |rows|
    requires forall k :: 0 <= k < |m| && m[k] ==> !CellAt(rows[k], i).Null?
    ensures forall r :: r in Select(rows, m) ==> !CellAt(r, i).Null?
  {
    forall r | r in Select(rows, m) ensures !CellAt(r, i).Null? {
      SelectMembers(rows, m, r);
    }
  }

  /** Datetime mode keeps no row without a timestamp under `=`, the ordering operators and `between`. */
  lemma DatetimeComparisonsNeedValues(env: Coercions, t: Table, s: seq<Option<Instant>>, i: nat, op: Op, v1: string, v2: string)
    requires |s| == |t.rows|
    requires forall k :: 0 <= k < |s| && s[k].Some? ==> !CellAt(t.rows[k], i).Null?
    requires op in {Eq, Lt, Le, Gt, Ge, Between}
    ensures var r := CompareDatetime(env, t, s, op, v1, v2);
      r.Ok? && forall row :: row in r.value.rows ==> !CellAt(row, i).Null?
  {
    var dt1 := env.parseDatetime(v1);
    var dt2 := if v2 != "" then env.parseDatetime(v2) else None;
    if dt1.None? || (op == Between && dt2.None?) {
    } else if op == Eq {
      KeptRowsHaveValues(t.rows, SameDateMask(s, dt1.value.date), i);
    } else if op == Between {
      var (lo, hi) := OrderedInstants(dt1.value, dt2.value);
      KeptRowsHaveValues(t.rows, InstantRangeMask(s, lo, hi), i);
    } else {
      KeptRowsHaveValues(t.rows, InstantCompareMask(s, op, dt1.value), i);
    }
  }

  /** Numeric mode keeps no row without a number under `=`, the ordering operators and `between`. */
  lemma NumericComparisonsNeedValues(env: Coercions, t: Table, s: seq<Option<real>>, i: nat, op: Op, n1: real, v1: string, v2: string)
    requires |s| == |t.rows|
    requires forall k :: 0 <= k < |s| && s[k].Some? ==> !CellAt(t.rows[k], i).Null?
    requires op in {Eq, Lt, Le, Gt, Ge, Between}
    ensures var r := CompareNumeric(env, t, s, op, n1, v1, v2);
      r.Ok? && forall row :: row in r.value.rows ==> !CellAt(row, i).Null?
  {
    var n2 := if v2 != "" then env.parseFloat(v2) else None;
    if op == Between {
      if n2.Some? {
        var (lo, hi) := OrderedNumbers(n1, n2.value);
        KeptRowsHaveValues(t.rows, NumberRangeMask(s, lo, hi), i);
      }
    } else {
      KeptRowsHaveValues(t.rows, NumberCompareMask(s, op, n1), i);
    }
  }

  /**
   * In datetime and numeric mode a null cell never satisfies `=`, `<`, `<=`,
   * `>`, `>=` or `between` (a missing timestamp or number compares false).
   */
  lemma NullsNeverCompare(env: Coercions, t: Table, f: FilterSpec)
    requires ColumnIndex(t.columns, f.column).Some?
    requires ModeOf(env, t, f) != TextMode
    requires ParseOp(f.op) in {Eq, Lt, Le, Gt, Ge, Between}
    ensures
      var i := ColumnIndex(t.columns, f.column).value;
      var r := ApplySingleFilter(env, t, f);
      r.Ok? && forall row :: row in r.value.rows ==> !CellAt(row, i).Null?
  {
    var i := ColumnIndex(t.columns, f.column).value;
    var v1 := Strip(f.value1);
    Dispatch(env, t, f);
    if ModeOf(env, t, f) == DatetimeMode {
      DatetimeComparisonsNeedValues(env, t, DatetimeSeriesOf(env, t, f), i, ParseOp(f.op), v1, Strip(f.value2));
    } else {
      NumericComparisonsNeedValues(env, t, NumericSeriesOf(env, t, f), i, ParseOp(f.op), env.parseFloat(v1).value, v1, Strip(f.value2));
    }
  }

  /**
   * `!=` keeps every row whose cell is null, in numeric mode and in datetime
   * mode with a value that is a date (a missing value is "not equal").
   */
  lemma NullsAlwaysDiffer(env: Coercions, t: Table, f: FilterSpec)
    requires ColumnIndex(t.columns, f.column).Some?
    requires f.op == "!="
    requires ModeOf(env, t, f) == NumericMode || (ModeOf(env, t, f) == DatetimeMode && env.parseDatetime(Strip(f.value1)).Some?)
    ensures
      var i := ColumnIndex(t.columns, f.column).value;
      var r := ApplySingleFilter(env, t, f);
      r.Ok? && forall row :: row in t.rows && CellAt(row, i).Null? ==> row in r.value.rows
  {
    var i := ColumnIndex(t.columns, f.column).value;
    var cells := ColumnCells(t, i);
    var v1 := Strip(f.value1);
    var r := ApplySingleFilter(env, t, f);
    assert ParseOp(f.op) == Ne;
    var m;
    if ModeOf(env, t, f) == DatetimeMode {
      var s := DatetimeSeriesOf(env, t, f);
      m := OtherDateMask(s, env.parseDatetime(v1).value.date);
      assert r == Ok(Where(t, m));
    } else {
      var s := NumericSeriesOf(env, t, f);
      m := NumberNotEqualMask(s, env.parseFloat(v1).value);
      assert r == Ok(Where(t, m));
    }
    assert forall k :: 0 <= k < |m| && cells[k].Null? ==> m[k];
    forall row | row in t.rows && CellAt(row, i).Null? ensures row in r.value.rows {
      var k :| 0 <= k < |t.rows| && t.rows[k] == row;
      SelectMembers(t.rows, m, row);
    }
  }

  /** `x` lies between `a` and `b`, both ends included, whichever of the two comes first. */
  predicate InstantWithin(x: Instant, a: Instant, b: Instant) {
    (AtOrBefore(a, x) && AtOrBefore(x, b)) || (AtOrBefore(b, x) && AtOrBefore(x, a))
  }

  ghost function InstantWithinMask(s: seq<Option<Instant>>, a: Instant, b: Instant): (m: seq<bool>)
    ensures |m| == |s|
  {
    seq(|s|, k requires 0 <= k < |s| => s[k].Some? && InstantWithin(s[k].value, a, b))
  }

  predicate NumberWithin(x: real, a: real, b: real) {
    (a <= x <= b) || (b <= x <= a)
  }

  ghost function NumberWithinMask(s: seq<Option<real>>, a: real, b: real): (m: seq<bool>)
    ensures |m| == |s|
  {
    seq(|s|, k requires 0 <= k < |s| => s[k].Some? && NumberWithin(s[k].value, a, b))
  }

  /** Putting the bounds in order and testing `lo <= x <= hi` is the either-order inclusive test. */
  lemma OrderedInstantsWithin(a: Instant, b: Instant, x: Instant)
    ensures var (lo, hi) := OrderedInstants(a, b);
      AtOrBefore(lo, x) && AtOrBefore(x, hi) <==> InstantWithin(x, a, b)
  {
    BeforeIsStrictTotalOrder(a, b, x);
    BeforeIsStrictTotalOrder(b, a, x);
    BeforeIsStrictTotalOrder(a, x, b);
    BeforeIsStrictTotalOrder(b, x, a);
    BeforeIsStrictTotalOrder(x, a, b);
    BeforeIsStrictTotalOrder(x, b, a);
  }

  /** In datetime mode `between a and b` keeps the rows whose timestamp lies between the two dates, both included, in either order. */
  lemma DatetimeBetweenInclusive(env: Coercions, t: Table, f: FilterSpec, a: Instant, b: Instant)
    requires ColumnIndex(t.columns, f.column).Some?
    requires f.op == "between" && ModeOf(env, t, f) == DatetimeMode
    requires env.parseDatetime(Strip(f.value1)) == Some(a)
    requires Strip(f.value2) != "" && env.parseDatetime(Strip(f.value2)) == Some(b)
    ensures ApplySingleFilter(env, t, f) == Ok(Where(t, InstantWithinMask(DatetimeSeriesOf(env, t, f), a, b)))
  {
    var s := DatetimeSeriesOf(env, t, f);
    var (lo, hi) := OrderedInstants(a, b);
    assert ParseOp(f.op) == Between;
    assert ApplySingleFilter(env, t, f) == Ok(Where(t, InstantRangeMask(s, lo, hi)));
    forall k | 0 <= k < |s| ensures InstantRangeMask(s, lo, hi)[k] == InstantWithinMask(s, a, b)[k] {
      if s[k].Some? {
        OrderedInstantsWithin(a, b, s[k].value);
      }
    }
    assert InstantRangeMask(s, lo, hi) == InstantWithinMask(s, a, b);
  }

  /** In numeric mode `between a and b` keeps the rows whose number lies between the two bounds, both included, in either order. */
  lemma NumericBetweenInclusive(env: Coercions, t: Table, f: FilterSpec, a: real, b: real)
    requires ColumnIndex(t.columns, f.column).Some?
    requires f.op == "between" && ModeOf(env, t, f) == NumericMode
    requires env.parseFloat(Strip(f.value1)) == Some(a)
    requires Strip(f.value2) != "" && env.parseFloat(Strip(f.value2)) == Some(b)
    ensures ApplySingleFilter(env, t, f) == Ok(Where(t, NumberWithinMask(NumericSeriesOf(env, t, f), a, b)))
  {
    var s := NumericSeriesOf(env, t, f);
    var (lo, hi) := OrderedNumbers(a, b);
    assert ParseOp(f.op) == Between;
    assert ApplySingleFilter(env, t, f) == Ok(Where(t, NumberRangeMask(s, lo, hi)));
    assert NumberRangeMask(s, lo, hi) == NumberWithinMask(s, a, b);
  }

  /**
   * Swapping the bounds of `between` changes nothing, provided both bounds
   * are given and each parses as a date, and as a number, exactly when the
   * other does (the mode is decided by the first value alone).
   */
  lemma BetweenSymmetric(env: Coercions, t: Table, column: string, a: string, b: string)
    requires Strip(a) != "" && Strip(b) != ""
    requires env.parseDatetime(Strip(a)).Some? == env.parseDatetime(Strip(b)).Some?
    requires env.parseFloat(Strip(a)).Some? == env.parseFloat(Strip(b)).Some?
    ensures ApplySingleFilter(env, t, FilterSpec(column, "between", a, b))
         == ApplySingleFilter(env, t, FilterSpec(column, "between", b, a))
  {
    var f := FilterSpec(column, "between", a, b);
    var g := FilterSpec(column, "between", b, a);
    assert ParseOp("between") == Between;
    if ColumnIndex(t.columns, column).Some? {
      var i := ColumnIndex(t.columns, column).value;
      assert ModeOf(env, t, f) == ModeOf(env, t, g);
      match ModeOf(env, t, f)
      case DatetimeMode =>
        var s := DatetimeSeriesOf(env, t, f);
        var da := env.parseDatetime(Strip(a));
        var db := env.parseDatetime(Strip(b));
        assert ApplySingleFilter(env, t, f) == CompareDatetime(env, t, s, Between, Strip(a), Strip(b));
        assert ApplySingleFilter(env, t, g) == CompareDatetime(env, t, s, Between, Strip(b), Strip(a));
        if da.Some? {
          BeforeIsStrictTotalOrder(da.value, db.value, da.value);
          assert OrderedInstants(da.value, db.value) == OrderedInstants(db.value, da.value);
        }
      case NumericMode =>
        var s := NumericSeriesOf(env, t, f);
        var na := env.parseFloat(Strip(a)).value;
        var nb := env.parseFloat(Strip(b)).value;
        assert ApplySingleFilter(env, t, f) == CompareNumeric(env, t, s, Between, na, Strip(a), Strip(b));
        assert ApplySingleFilter(env, t, g) == CompareNumeric(env, t, s, Between, nb, Strip(b), Strip(a));
        assert OrderedNumbers(na, nb) == OrderedNumbers(nb, na);
      case TextMode =>
    }
  }

  /** `between` with a blank or unparseable second bound keeps nothing, in datetime and in numeric mode. */
  lemma BetweenWithoutSecondBound(env: Coercions, t: Table, f: FilterSpec)
    requires ColumnIndex(t.columns, f.column).Some?
    requires f.op == "between"
    requires
      || (ModeOf(env, t, f) == DatetimeMode && (Strip(f.value2) == "" || env.parseDatetime(Strip(f.value2)).None?))
      || (ModeOf(env, t, f) == NumericMode && (Strip(f.value2) == "" || env.parseFloat(Strip(f.value2)).None?))
    ensures ApplySingleFilter(env, t, f) == Ok(Empty(t))
  {
    assert ParseOp(f.op) == Between;
  }

  /** In datetime mode a first value that is not a date makes every operator outside the substring family keep nothing. */
  lemma UnparseableDateKeepsNothing(env: Coercions, t: Table, f: FilterSpec)
    requires ColumnIndex(t.columns, f.column).Some?
    requires ModeOf(env, t, f) == DatetimeMode && env.parseDatetime(Strip(f.value1)).None?
    requires f.op !in {"is null", "is not null", "contains", "startswith", "endswith"}
    ensures ApplySingleFilter(env, t, f) == Ok(Empty(t))
  {
    assert !IsSubstringOp(ParseOp(f.op)) && ParseOp(f.op) != IsNull && ParseOp(f.op) != IsNotNull;
  }

  /** Being on a given calendar day is lying between its first and its last instant, row by row. */
  lemma SameDateMaskIsDayRange(s: seq<Option<Instant>>, day: Date)
    ensures SameDateMask(s, day) == InstantRangeMask(s, StartOfDay(day), EndOfDay(day))
  {
    forall k | 0 <= k < |s| ensures SameDateMask(s, day)[k] == InstantRangeMask(s, StartOfDay(day), EndOfDay(day))[k] {
      if s[k].Some? {
        SameDateIffWithinDay(s[k].value, day);
      }
    }
  }

  /**
   * In datetime mode `=` compares calendar dates: it keeps the same rows as
   * `between` the first and the last instant of that day.
   */
  lemma DateEqualityIsWholeDay(env: Coercions, t: Table, column: string, v: string, w: string, a: string, b: string)
    requires ColumnIndex(t.columns, column).Some?
    requires ModeOf(env, t, FilterSpec(column, "=", v, w)) == DatetimeMode
    requires env.parseDatetime(Strip(v)).Some?
    requires var day := env.parseDatetime(Strip(v)).value.date;
      && env.parseDatetime(Strip(a)) == Some(StartOfDay(day))
      && Strip(b) != "" && env.parseDatetime(Strip(b)) == Some(EndOfDay(day))
    ensures ApplySingleFilter(env, t, FilterSpec(column, "=", v, w))
         == ApplySingleFilter(env, t, FilterSpec(column, "between", a, b))
  {
    var f := FilterSpec(column, "=", v, w);
    var g := FilterSpec(column, "between", a, b);
    var day := env.parseDatetime(Strip(v)).value.date;
    var s := DatetimeSeriesOf(env, t, f);
    assert ParseOp(f.op) == Eq && ParseOp(g.op) == Between;
    assert ModeOf(env, t, g) == DatetimeMode;
    Dispatch(env, t, f);
    Dispatch(env, t, g);
    assert OrderedInstants(StartOfDay(day), EndOfDay(day)) == (StartOfDay(day), EndOfDay(day));
    SameDateMaskIsDayRange(s, day);
  }

  /** In text mode the ordering operators and `between` leave the table as it is. */
  lemma TextModeIgnoresOrdering(env: Coercions, t: Table, f: FilterSpec)
    requires ColumnIndex(t.columns, f.column).Some?
    requires ModeOf(env, t, f) == TextMode
    requires f.op in {"<", "<=", ">", ">=", "between"}
    ensures ApplySingleFilter(env, t, f) == Ok(t)
  {
    assert ParseOp(f.op) in {Lt, Le, Gt, Ge, Between};
  }

  /**
   * An operator name outside the offered list leaves the table as it is,
   * except in datetime mode with a first value that is not a date, where the
   * early exit keeps nothing.
   */
  lemma UnknownOperatorKeepsAll(env: Coercions, t: Table, f: FilterSpec)
    requires ColumnIndex(t.columns, f.column).Some?
    requires f.op !in Operators
    ensures ModeOf(env, t, f) == DatetimeMode && env.parseDatetime(Strip(f.value1)).None? ==>
      ApplySingleFilter(env, t, f) == Ok(Empty(t))
    ensures !(ModeOf(env, t, f) == DatetimeMode && env.parseDatetime(Strip(f.value1)).None?) ==>
      ApplySingleFilter(env, t, f) == Ok(t)
  {
    assert ParseOp(f.op) == Unsupported(f.op);
    Dispatch(env, t, f);
    var v1 := Strip(f.value1);
    var n := if env.parseFloat(v1).Some? then env.parseFloat(v1).value else 0.0;
    UnknownOperatorPerMode(env, t, DatetimeSeriesOf(env, t, f), NumericSeriesOf(env, t, f),
      TextSeries(env, ColumnCells(t, ColumnIndex(t.columns, f.column).value)), f.op, n, v1, Strip(f.value2));
  }

  /** Each comparison leaves the table as it is under an unknown operator, past the datetime early exit. */
  lemma UnknownOperatorPerMode(env: Coercions, t: Table, ds: seq<Option<Instant>>, ns: seq<Option<real>>, ts: seq<string>,
                               name: string, n: real, v1: string, v2: string)
    requires |ds| == |t.rows| && |ns| == |t.rows| && |ts| == |t.rows|
    requires name !in Operators
    ensures CompareDatetime(env, t, ds, Unsupported(name), v1, v2)
         == if env.parseDatetime(v1).None? then Ok(Empty(t)) else Ok(t)
    ensures CompareNumeric(env, t, ns, Unsupported(name), n, v1, v2) == Ok(t)
    ensures StringOps(env, t, ts, Unsupported(name), v1) == Ok(t)
  {
  }

  /**
   * `contains` ignores case: two needles with the same lower-case form keep
   * the same rows of a text-mode column.
   */
  lemma ContainsIgnoresCase(env: Coercions, t: Table, f: FilterSpec, w: string)
    requires ColumnIndex(t.columns, f.column).Some?
    requires f.op == "contains"
    requires ModeOf(env, t, f) == TextMode && ModeOf(env, t, f.(value1 := w)) == TextMode
    requires Lower(Strip(w)) == Lower(Strip(f.value1))
    requires env.patternCompiles(Strip(f.value1)) && env.patternCompiles(Strip(w))
    ensures ApplySingleFilter(env, t, f) == ApplySingleFilter(env, t, f.(value1 := w))
  {
    var g := f.(value1 := w);
    var i := ColumnIndex(t.columns, f.column).value;
    var s := TextSeries(env, ColumnCells(t, i));
    assert ParseOp(f.op) == Contains;
    assert ApplySingleFilter(env, t, f) == Ok(Where(t, TextMask(s, Contains, Strip(f.value1))));
    assert ApplySingleFilter(env, t, g) == Ok(Where(t, TextMask(s, Contains, Strip(w))));
    assert TextMask(s, Contains, Strip(f.value1)) == TextMask(s, Contains, Strip(w));
  }

  /**
   * A column that is not datetime-typed and holds only nulls is compared as
   * text whatever the value: no cell converts to a date or to a number.
   */
  lemma NullOnlyColumnIsText(env: Coercions, col: ColumnDef, cells: seq<Cell>, v1: string)
    requires !col.isDatetime
    requires forall k :: 0 <= k < |cells| ==> cells[k].Null?
    ensures DecideMode(env, col, cells, v1) == TextMode
  {
    var ds := DatetimeSeries(env, false, cells);
    var ns := NumericSeries(env, cells);
    assert forall k :: 0 <= k < |cells| ==> ds[k].None? && ns[k].None?;
  }

  /** Only `between` reads the second value. */
  lemma SecondValueOnlyForBetween(env: Coercions, t: Table, f: FilterSpec, w: string)
    requires f.op != "between"
    ensures ApplySingleFilter(env, t, f) == ApplySingleFilter(env, t, f.(value2 := w))
  {
    var g := f.(value2 := w);
    if ColumnIndex(t.columns, f.column).Some? && ParseOp(f.op) != IsNull && ParseOp(f.op) != IsNotNull {
      assert ParseOp(f.op) != Between;
      assert ModeOf(env, t, f) == ModeOf(env, t, g);
      Dispatch(env, t, f);
      Dispatch(env, t, g);
    }
  }

  /** The null operators read neither value. */
  lemma NullOpsIgnoreValues(env: Coercions, t: Table, f: FilterSpec, w1: string, w2: string)
    requires f.op == "is null" || f.op == "is not null"
    ensures ApplySingleFilter(env, t, f) == ApplySingleFilter(env, t, f.(value1 := w1, value2 := w2))
  {
    assert ParseOp(f.op) == IsNull || ParseOp(f.op) == IsNotNull;
  }

  /** A one-column table of company names. */
  predicate IsCompanyTable(t: Table) {
    && t.columns == [ColumnDef("CompanyName", false)]
    && t.rows == [[Str("Company 0001")], [Str("Zeta")], [Str("company 2")]]
  }

  /** Which company names the needle "Co" matches under each text operator. */
  lemma CompanyNameMatches()
    ensures ContainsIgnoringCase("Company 0001", "Co") && ContainsIgnoringCase("company 2", "Co")
    ensures !ContainsIgnoringCase("Zeta", "Co")
    ensures IsPrefix("Co", "Company 0001") && !IsPrefix("Co", "Zeta") && !IsPrefix("Co", "company 2")
  {
    assert Lower("Co") == "co";
    assert Lower("Company 0001")[..2] == "co";
    assert Lower("company 2")[..2] == "co";
    assert Lower("Zeta") == "zeta";
    assert "company 2"[..2][0] == 'c';
    assert "zeta"[1..] == "eta" && "eta"[1..] == "ta" && "ta"[1..] == "a";
    assert !IsPrefix("co", "zeta") by { assert "zeta"[..2][0] == 'z'; }
    assert !IsPrefix("co", "eta") by { assert "eta"[..2][0] == 'e'; }
    assert !IsPrefix("co", "ta") by { assert "ta"[..2][0] == 't'; }
    TooLongNeverOccurs("co", "a");
  }

  /** The needle "Co" has no surrounding whitespace. */
  lemma StripCo()
    ensures Strip("Co") == "Co"
  {
    assert !IsSpace("Co"[0]) && !IsSpace("Co"[|"Co"| - 1]);
    assert StripLeft("Co") == "Co";
  }

  /** Which of the company names, read as text, the needle "Co" keeps. */
  lemma CompanyNameMasksOf(s: seq<string>)
    requires s == ["Company 0001", "Zeta", "company 2"]
    ensures TextMask(s, Contains, "Co") == [true, false, true]
    ensures TextMask(s, StartsWith, "Co") == [true, false, false]
  {
    CompanyNameMatches();
    var contains := TextMask(s, Contains, "Co");
    assert contains[0] && !contains[1] && contains[2];
    var starts := TextMask(s, StartsWith, "Co");
    assert starts[0] && !starts[1] && !starts[2];
  }

  /** The company names read as text, and which of them the needle "Co" keeps. */
  lemma CompanyNameMasks(env: Coercions, t: Table) returns (s: seq<string>)
    requires IsCompanyTable(t)
    ensures s == TextSeries(env, ColumnCells(t, 0))
    ensures TextMask(s, Contains, "Co") == [true, false, true]
    ensures TextMask(s, StartsWith, "Co") == [true, false, false]
  {
    var cells := ColumnCells(t, 0);
    assert cells == [Str("Company 0001"), Str("Zeta"), Str("company 2")];
    s := TextSeries(env, cells);
    assert s == ["Company 0001", "Zeta", "company 2"] by {
      assert |s| == 3 && s[0] == AsText(env, cells[0]) && s[1] == AsText(env, cells[1]) && s[2] == AsText(env, cells[2]);
    }
    CompanyNameMasksOf(s);
  }

  /** On the company names the needle "Co" reaches `_apply_string_ops` in text mode. */
  lemma CompanyNamesInTextMode(env: Coercions, t: Table, op: string)
    requires IsCompanyTable(t)
    requires env.parseDatetime("Co").None? && env.parseFloat("Co").None?
    requires op == "contains" || op == "startswith"
    ensures ApplySingleFilter(env, t, FilterSpec("CompanyName", op, "Co", ""))
         == StringOps(env, t, TextSeries(env, ColumnCells(t, 0)), ParseOp(op), "Co")
  {
    assert ColumnIndex(t.columns, "CompanyName") == Some(0);
    StripCo();
    assert DecideMode(env, t.columns[0], ColumnCells(t, 0), "Co") == TextMode;
    assert ParseOp(op) != IsNull && ParseOp(op) != IsNotNull;
  }

  /** A three-element sequence under a three-element mask. */
  lemma SelectOfThree<T>(a: T, b: T, c: T, x: bool, y: bool, z: bool)
    ensures Select([a, b, c], [x, y, z])
         == (if x then [a] else []) + (if y then [b] else []) + (if z then [c] else [])
  {
    assert [a, b, c][..2] == [a, b] && [x, y, z][..2] == [x, y];
    assert [a, b][..1] == [a] && [x, y][..1] == [x];
    assert [a][..0] == [] && [x][..0] == [];
    assert Select([a], [x]) == (if x then [a] else []);
    assert Select([a, b], [x, y]) == Select([a], [x]) + (if y then [b] else []);
    assert Select([a, b, c], [x, y, z]) == Select([a, b], [x, y]) + (if z then [c] else []);
  }

  /**
   * On the company names `contains "Co"` keeps the first and the last row
   * (case is ignored); with `CompanyNamesInTextMode` this is the result of
   * the filter.
   */
  lemma ContainsOnCompanyNames(env: Coercions, t: Table)
    requires IsCompanyTable(t)
    requires env.patternCompiles("Co")
    ensures StringOps(env, t, TextSeries(env, ColumnCells(t, 0)), Contains, "Co")
         == Ok(Table(t.columns, [[Str("Company 0001")], [Str("company 2")]]))
  {
    var s := CompanyNameMasks(env, t);
    SelectOfThree(t.rows[0], t.rows[1], t.rows[2], true, false, true);
    assert t.rows == [t.rows[0], t.rows[1], t.rows[2]];
    assert Select(t.rows, [true, false, true]) == [t.rows[0], t.rows[2]];
    assert StringOps(env, t, s, Contains, "Co") == Ok(Where(t, [true, false, true]));
  }

  /**
   * On the company names `startswith "Co"` keeps only the first row (case
   * matters); with `CompanyNamesInTextMode` this is the result of the filter.
   */
  lemma StartsWithOnCompanyNames(env: Coercions, t: Table)
    requires IsCompanyTable(t)
    ensures StringOps(env, t, TextSeries(env, ColumnCells(t, 0)), StartsWith, "Co")
         == Ok(Table(t.columns, [[Str("Company 0001")]]))
  {
    var s := CompanyNameMasks(env, t);
    SelectOfThree(t.rows[0], t.rows[1], t.rows[2], true, false, false);
    assert t.rows == [t.rows[0], t.rows[1], t.rows[2]];
    assert Select(t.rows, [true, false, false]) == [t.rows[0]];
    assert StringOps(env, t, s, StartsWith, "Co") == Ok(Where(t, [true, false, false]));
  }

  /** Which company names end with "eta". */
  lemma CompanyNamesEndingEta(s: seq<string>)
    requires s == ["Company 0001", "Zeta", "company 2"]
    ensures TextMask(s, EndsWith, "eta") == [false, true, false]
  {
    assert !IsSuffix("eta", "Company 0001") by { assert "Company 0001"[9..][0] == '0'; }
    assert IsSuffix("eta", "Zeta") by { assert "Zeta"[1..] == "eta"; }
    assert !IsSuffix("eta", "company 2") by { assert "company 2"[6..][0] == 'y'; }
    var m := TextMask(s, EndsWith, "eta");
    assert !m[0] && m[1] && !m[2];
  }

  /** No company name ends with "ETA": the test does not ignore case. */
  lemma CompanyNamesEndingUpperEta(s: seq<string>)
    requires s == ["Company 0001", "Zeta", "company 2"]
    ensures TextMask(s, EndsWith, "ETA") == [false, false, false]
  {
    assert "Company 0001"[9..][0] == '0' && "Zeta"[1..][0] == 'e' && "company 2"[6..][0] == 'y';
    var m := TextMask(s, EndsWith, "ETA");
    assert !m[0] && !m[1] && !m[2];
  }

  /**
   * `endswith` is case-sensitive like `startswith`: on the company names
   * "eta" keeps "Zeta" and "ETA" keeps nothing.
   */
  lemma EndsWithOnCompanyNames(env: Coercions, t: Table)
    requires IsCompanyTable(t)
    ensures StringOps(env, t, TextSeries(env, ColumnCells(t, 0)), EndsWith, "eta")
         == Ok(Table(t.columns, [[Str("Zeta")]]))
    ensures StringOps(env, t, TextSeries(env, ColumnCells(t, 0)), EndsWith, "ETA")
         == Ok(Table(t.columns, []))
  {
    var s := CompanyNameMasks(env, t);
    CompanyNamesEndingEta(s);
    CompanyNamesEndingUpperEta(s);
    assert t.rows == [t.rows[0], t.rows[1], t.rows[2]];
    SelectOfThree(t.rows[0], t.rows[1], t.rows[2], false, true, false);
    SelectOfThree(t.rows[0], t.rows[1], t.rows[2], false, false, false);
    assert Select(t.rows, [false, true, false]) == [t.rows[1]];
    assert Select(t.rows, [false, false, false]) == [];
    assert StringOps(env, t, s, EndsWith, "eta") == Ok(Where(t, [false, true, false]));
    assert StringOps(env, t, s, EndsWith, "ETA") == Ok(Where(t, [false, false, false]));
  }

  /**
   * The mode is decided by the first value alone, so without the parsing
   * hypotheses of `BetweenSymmetric` swapping the bounds can change the
   * result: on a numeric column `between "5" and "x"` keeps nothing (numeric
   * mode, no second bound) while `between "x" and "5"` keeps every row (text
   * mode, where `between` is not a text operator).
   */
  lemma BetweenSwapAcrossModes(env: Coercions)
    requires env.parseFloat("5") == Some(5.0) && env.parseFloat("x").None?
    requires env.parseDatetime("5").None? && env.parseDatetime("x").None?
    ensures var t := Table([ColumnDef("Price", false)], [[Num(7.0)]]);
      && ApplySingleFilter(env, t, FilterSpec("Price", "between", "5", "x")) == Ok(Empty(t))
      && ApplySingleFilter(env, t, FilterSpec("Price", "between", "x", "5")) == Ok(t)
  {
    var t := Table([ColumnDef("Price", false)], [[Num(7.0)]]);
    assert ColumnIndex(t.columns, "Price") == Some(0);
    assert Strip("5") == "5" by { assert StripLeft("5") == "5"; }
    assert Strip("x") == "x" by { assert StripLeft("x") == "x"; }
    assert ParseOp("between") == Between;
    var cells := ColumnCells(t, 0);
    assert cells == [Num(7.0)];
    assert NumericSeries(env, cells)[0].Some?;
    assert DecideMode(env, t.columns[0], cells, "5") == NumericMode;
    assert DecideMode(env, t.columns[0], cells, "x") == TextMode;
  }

  /** The operators compared by order (and `=` in numeric mode) rather than by day or as text. */
  predicate IsOrdering(op: Op) {
    op == Lt || op == Le || op == Gt || op == Ge
  }

  /**
   * In numeric mode `=`, `<`, `<=`, `>` and `>=` keep exactly the rows whose
   * cell converts to a number standing in that relation to the parsed first
   * value; a cell that does not convert (NaN) is never kept.
   */
  lemma NumericComparisonKeeps(env: Coercions, t: Table, f: FilterSpec)
    requires ColumnIndex(t.columns, f.column).Some?
    requires ModeOf(env, t, f) == NumericMode
    requires ParseOp(f.op) == Eq || IsOrdering(ParseOp(f.op))
    ensures var i := ColumnIndex(t.columns, f.column).value;
      var op := ParseOp(f.op);
      var n1 := env.parseFloat(Strip(f.value1)).value;
      var m := NumberCompareMask(NumericSeriesOf(env, t, f), op, n1);
      && ApplySingleFilter(env, t, f) == Ok(Where(t, m))
      && forall k :: 0 <= k < |t.rows| ==>
           (m[k] <==>
              var x := ToNumber(env, CellAt(t.rows[k], i));
              && x.Some?
              && (op == Eq ==> x.value == n1)
              && (op == Lt ==> x.value < n1)
              && (op == Le ==> x.value <= n1)
              && (op == Gt ==> x.value > n1)
              && (op == Ge ==> x.value >= n1))
  {
    Dispatch(env, t, f);
  }

  /**
   * In datetime mode with a first value that reads as the instant `d`, `<`,
   * `<=`, `>` and `>=` keep exactly the rows whose timestamp stands in that
   * relation to `d` at full precision (date, second and nanoseconds); NaT is
   * never kept.
   */
  lemma DatetimeOrderingKeeps(env: Coercions, t: Table, f: FilterSpec)
    requires ColumnIndex(t.columns, f.column).Some?
    requires ModeOf(env, t, f) == DatetimeMode
    requires IsOrdering(ParseOp(f.op))
    requires env.parseDatetime(Strip(f.value1)).Some?
    ensures var op := ParseOp(f.op);
      var d := env.parseDatetime(Strip(f.value1)).value;
      var s := DatetimeSeriesOf(env, t, f);
      var m := InstantCompareMask(s, op, d);
      && ApplySingleFilter(env, t, f) == Ok(Where(t, m))
      && forall k :: 0 <= k < |t.rows| ==>
           (m[k] <==>
              && s[k].Some?
              && (op == Lt ==> Before(s[k].value, d))
              && (op == Le ==> AtOrBefore(s[k].value, d))
              && (op == Gt ==> Before(d, s[k].value))
              && (op == Ge ==> AtOrBefore(d, s[k].value)))
  {
    Dispatch(env, t, f);
  }

  /** The operators `_apply_string_ops` answers with a mask: the four exact ones, and `contains` when its pattern compiles. */
  predicate IsMaskedTextOp(env: Coercions, op: Op, needle: string) {
    op == Eq || op == Ne || op == StartsWith || op == EndsWith || (op == Contains && env.patternCompiles(needle))
  }

  /**
   * In text mode the text operators compare the cell's text with the
   * stripped first value: `=` and `!=` exactly, `startswith` and `endswith`
   * with case, `contains` without it; a null reads as `""`.
   */
  lemma TextComparisonKeeps(env: Coercions, t: Table, f: FilterSpec)
    requires ColumnIndex(t.columns, f.column).Some?
    requires ModeOf(env, t, f) == TextMode
    requires IsMaskedTextOp(env, ParseOp(f.op), Strip(f.value1))
    ensures var i := ColumnIndex(t.columns, f.column).value;
      var op := ParseOp(f.op);
      var v1 := Strip(f.value1);
      var m := TextMask(TextSeries(env, ColumnCells(t, i)), op, v1);
      && ApplySingleFilter(env, t, f) == Ok(Where(t, m))
      && forall k :: 0 <= k < |t.rows| ==>
           (m[k] <==>
              var x := AsText(env, CellAt(t.rows[k], i));
              && (op == Eq ==> x == v1)
              && (op == Ne ==> x != v1)
              && (op == StartsWith ==> IsPrefix(v1, x))
              && (op == EndsWith ==> IsSuffix(v1, x))
              && (op == Contains ==> ContainsIgnoringCase(x, v1)))
  {
    Dispatch(env, t, f);
  }

  /** The substring operators in datetime mode are the text operators on the formatted timestamps. */
  lemma DatetimeFallsBackToText(env: Coercions, t: Table, s: seq<Option<Instant>>, op: Op, v1: string, v2: string)
    requires |s| == |t.rows|
    requires IsSubstringOp(op)
    ensures CompareDatetime(env, t, s, op, v1, v2) == StringOps(env, t, InstantText(s), op, v1)
  {
  }

  /**
   * In datetime mode the substring operators fall back to text: they match
   * the first value against each timestamp in the `YYYY-MM-DD HH:MM:SS`
   * layout, NaT reading as `""`, whether or not the value is a date.
   */
  lemma DatetimeSubstringKeeps(env: Coercions, t: Table, f: FilterSpec)
    requires ColumnIndex(t.columns, f.column).Some?
    requires ModeOf(env, t, f) == DatetimeMode
    requires IsSubstringOp(ParseOp(f.op)) && IsMaskedTextOp(env, ParseOp(f.op), Strip(f.value1))
    ensures var op := ParseOp(f.op);
      var v1 := Strip(f.value1);
      var s := DatetimeSeriesOf(env, t, f);
      var m := TextMask(InstantText(s), op, v1);
      && ApplySingleFilter(env, t, f) == Ok(Where(t, m))
      && forall k :: 0 <= k < |t.rows| ==>
           (m[k] <==>
              var x := if s[k].Some? then FormatStamp(s[k].value) else "";
              && (op == StartsWith ==> IsPrefix(v1, x))
              && (op == EndsWith ==> IsSuffix(v1, x))
              && (op == Contains ==> ContainsIgnoringCase(x, v1)))
  {
    Dispatch(env, t, f);
    DatetimeFallsBackToText(env, t, DatetimeSeriesOf(env, t, f), ParseOp(f.op), Strip(f.value1), Strip(f.value2));
  }

  /**
   * In numeric mode the substring operators fall back to text: they match
   * the first value against `str` of each converted number, NaN reading as
   * `""`.
   */
  lemma NumericSubstringKeeps(env: Coercions, t: Table, f: FilterSpec)
    requires ColumnIndex(t.columns, f.column).Some?
    requires ModeOf(env, t, f) == NumericMode
    requires IsSubstringOp(ParseOp(f.op)) && IsMaskedTextOp(env, ParseOp(f.op), Strip(f.value1))
    ensures var op := ParseOp(f.op);
      var v1 := Strip(f.value1);
      var s := NumericSeriesOf(env, t, f);
      var m := TextMask(NumberText(env, s), op, v1);
      && ApplySingleFilter(env, t, f) == Ok(Where(t, m))
      && forall k :: 0 <= k < |t.rows| ==>
           (m[k] <==>
              var x := if s[k].Some? then env.formatNumber(s[k].value) else "";
              && (op == StartsWith ==> IsPrefix(v1, x))
              && (op == EndsWith ==> IsSuffix(v1, x))
              && (op == Contains ==> ContainsIgnoringCase(x, v1)))
  {
    Dispatch(env, t, f);
  }

  /** A datetime column `EventNext` holding a morning and an evening timestamp of the same day. */
  predicate IsSameDayTable(t: Table, day: Date) {
    && t.columns == [ColumnDef("EventNext", true)]
    && t.rows == [[Stamp(Instant(day, 28800, 0))], [Stamp(Instant(day, 64800, 0))]]
  }

  /** A two-element sequence under a two-element mask. */
  lemma SelectOfTwo<T>(a: T, b: T, x: bool, y: bool)
    ensures Select([a, b], [x, y]) == (if x then [a] else []) + (if y then [b] else [])
  {
    assert [a, b][..1] == [a] && [x, y][..1] == [x];
    assert [a][..0] == [] && [x][..0] == [];
    assert Select([a], [x]) == (if x then [a] else []);
  }

  /** The series both same-day filters compare: the two timestamps as they are. */
  lemma SameDaySeries(env: Coercions, t: Table, day: Date, f: FilterSpec)
    requires IsSameDayTable(t, day)
    requires f.column == "EventNext"
    ensures ColumnIndex(t.columns, f.column) == Some(0)
    ensures ModeOf(env, t, f) == DatetimeMode
    ensures DatetimeSeriesOf(env, t, f) == [Some(Instant(day, 28800, 0)), Some(Instant(day, 64800, 0))]
  {
    assert ColumnIndex(t.columns, "EventNext") == Some(0);
    var s := DatetimeSeriesOf(env, t, f);
    assert s[0] == Some(Instant(day, 28800, 0)) && s[1] == Some(Instant(day, 64800, 0));
  }

  /** Against noon of the same day, `=` keeps both the morning and the evening row. */
  lemma SameDayEqualsKeepsBoth(env: Coercions, t: Table, day: Date, v: string)
    requires IsSameDayTable(t, day)
    requires env.parseDatetime(Strip(v)) == Some(Instant(day, 43200, 0))
    ensures ApplySingleFilter(env, t, FilterSpec("EventNext", "=", v, "")) == Ok(t)
  {
    var f := FilterSpec("EventNext", "=", v, "");
    assert ParseOp("=") == Eq;
    SameDaySeries(env, t, day, f);
    var s := DatetimeSeriesOf(env, t, f);
    Dispatch(env, t, f);
    assert ApplySingleFilter(env, t, f) == Ok(Where(t, SameDateMask(s, day)));
    assert SameDateMask(s, day) == [true, true];
    assert t.rows == [t.rows[0], t.rows[1]];
    SelectOfTwo(t.rows[0], t.rows[1], true, true);
    assert Select(t.rows, [true, true]) == t.rows;
  }

  /** Against noon of the same day, `<` keeps only the morning row. */
  lemma SameDayBeforeKeepsMorning(env: Coercions, t: Table, day: Date, v: string)
    requires IsSameDayTable(t, day)
    requires env.parseDatetime(Strip(v)) == Some(Instant(day, 43200, 0))
    ensures ApplySingleFilter(env, t, FilterSpec("EventNext", "<", v, "")) == Ok(Table(t.columns, [t.rows[0]]))
  {
    var f := FilterSpec("EventNext", "<", v, "");
    assert ParseOp("<") == Lt;
    SameDaySeries(env, t, day, f);
    var s := DatetimeSeriesOf(env, t, f);
    DatetimeOrderingKeeps(env, t, f);
    assert InstantCompareMask(s, Lt, Instant(day, 43200, 0)) == [true, false];
    assert t.rows == [t.rows[0], t.rows[1]];
    SelectOfTwo(t.rows[0], t.rows[1], true, false);
    assert Select(t.rows, [true, false]) == [t.rows[0]];
  }

  /**
   * `=` compares calendar days while `<` compares instants: against noon of
   * the same day, `=` keeps both the morning and the evening row, and `<`
   * keeps only the morning row.
   */
  lemma SameDayEqualsVersusBefore(env: Coercions, t: Table, day: Date, v: string)
    requires IsSameDayTable(t, day)
    requires env.parseDatetime(Strip(v)) == Some(Instant(day, 43200, 0))
    ensures ApplySingleFilter(env, t, FilterSpec("EventNext", "=", v, "")) == Ok(t)
    ensures ApplySingleFilter(env, t, FilterSpec("EventNext", "<", v, "")) == Ok(Table(t.columns, [t.rows[0]]))
  {
    SameDayEqualsKeepsBoth(env, t, day, v);
    SameDayBeforeKeepsMorning(env, t, day, v);
  }

  /** An `age` column holding 25, a missing value, 31 and 30. */
  predicate IsAgeTable(t: Table) {
    && t.columns == [ColumnDef("age", false)]
    && t.rows == [[Num(25.0)], [Null], [Num(31.0)], [Num(30.0)]]
  }

  /** A four-element sequence under a four-element mask. */
  lemma SelectOfFour<T>(a: T, b: T, c: T, d: T, x: bool, y: bool, z: bool, w: bool)
    ensures Select([a, b, c, d], [x, y, z, w])
         == (if x then [a] else []) + (if y then [b] else []) + (if z then [c] else []) + (if w then [d] else [])
  {
    assert [a, b, c, d][..3] == [a, b, c] && [x, y, z, w][..3] == [x, y, z];
    SelectOfThree(a, b, c, x, y, z);
  }

  /**
   * When "30" reads as a number and not as a date, `age > "30"` compares
   * numerically and keeps only the row holding 31: 30 itself is not kept,
   * and neither is the missing value.
   */
  lemma AgeAboveThirty(env: Coercions, t: Table)
    requires IsAgeTable(t)
    requires env.parseFloat("30") == Some(30.0) && env.parseDatetime("30").None?
    ensures ApplySingleFilter(env, t, FilterSpec("age", ">", "30", "")) == Ok(Table(t.columns, [[Num(31.0)]]))
  {
    var f := FilterSpec("age", ">", "30", "");
    var s := AgeSeries(env, t, f);
    assert ParseOp(">") == Gt;
    NumericComparisonKeeps(env, t, f);
    assert NumberCompareMask(s, Gt, 30.0) == [false, false, true, false];
    AgeRowAboveThirty(t);
  }

  /** With "30" read as a number and not as a date, the ages are compared numerically as 25, NaN, 31, 30. */
  lemma AgeSeries(env: Coercions, t: Table, f: FilterSpec) returns (s: seq<Option<real>>)
    requires IsAgeTable(t) && f.column == "age" && f.value1 == "30"
    requires env.parseFloat("30") == Some(30.0) && env.parseDatetime("30").None?
    ensures ColumnIndex(t.columns, f.column) == Some(0)
    ensures Strip(f.value1) == "30"
    ensures ModeOf(env, t, f) == NumericMode
    ensures s == NumericSeriesOf(env, t, f) == [Some(25.0), None, Some(31.0), Some(30.0)]
  {
    assert ColumnIndex(t.columns, "age") == Some(0);
    assert Strip("30") == "30" by { assert StripLeft("30") == "30"; }
    var cells := ColumnCells(t, 0);
    s := NumericSeriesOf(env, t, f);
    assert s == NumericSeries(env, cells);
    assert s == [Some(25.0), None, Some(31.0), Some(30.0)];
    assert s[0].Some?;
    assert DecideMode(env, t.columns[0], cells, "30") == NumericMode;
  }

  /** Only the third age row is kept by the mask of `> 30`. */
  lemma AgeRowAboveThirty(t: Table)
    requires IsAgeTable(t)
    ensures Where(t, [false, false, true, false]) == Table(t.columns, [[Num(31.0)]])
  {
    assert t.rows == [t.rows[0], t.rows[1], t.rows[2], t.rows[3]];
    SelectOfFour(t.rows[0], t.rows[1], t.rows[2], t.rows[3], false, false, true, false);
    assert Select(t.rows, [false, false, true, false]) == [t.rows[2]];
  }
}
