/**
 * The stacked-filter engine: a canonical table, the list of filters in the
 * order they were added, and the view the list derives from the table.
 */
module Engine {
  import opened Common
  import opened Subsequences
  import opened Tables
  import opened Filters

  /**
   * One filter applied to the intermediate table. A filter on a column the
   * table lacks, or one whose evaluation raises, is skipped: the table goes
   * on unchanged to the next filter.
   */
  function Step(env: Coercions, t: Table, f: FilterSpec): (r: Table)
    ensures r.columns == t.columns && IsSubsequence(r.rows, t.rows)
    ensures ApplySingleFilter(env, t, f).Failed? ==> r == t
    ensures ApplySingleFilter(env, t, f).Ok? ==> r == ApplySingleFilter(env, t, f).value
  {
    if ColumnIndex(t.columns, f.column).None? then
      SubsequenceReflexive(t.rows);
      t
    else
      match ApplySingleFilter(env, t, f)
      case Ok(u) => u
      case Failed(_) =>
        SubsequenceReflexive(t.rows);
        t
  }

  /**
   * The filters applied one after another, in list order, starting from `t`:
   * the result has the same columns and keeps a subset of the rows in their
   * original order.
   */
  function Fold(env: Coercions, t: Table, fs: seq<FilterSpec>): (r: Table)
    ensures r.columns == t.columns && IsSubsequence(r.rows, t.rows)
    decreases |fs|
  {
    if fs == [] then
      SubsequenceReflexive(t.rows);
      t
    else
      var before := Fold(env, t, fs[..|fs| - 1]);
      var r := Step(env, before, fs[|fs| - 1]);
      SubsequenceTransitive(r.rows, before.rows, t.rows);
      r
  }

  /** The view the filters derive from the canonical table; no table, no view. */
  function Derived(env: Coercions, df: Option<Table>, fs: seq<FilterSpec>): (v: Option<Table>)
    ensures v.Some? <==> df.Some?
    ensures v.Some? ==> v.value.columns == df.value.columns && IsSubsequence(v.value.rows, df.value.rows)
  {
    match df
    case None => None
    case Some(t) => Some(Fold(env, t, fs))
  }

  /** Adding one filter to the end of the list applies it to the previous result. */
  lemma FoldSnoc(env: Coercions, t: Table, fs: seq<FilterSpec>, f: FilterSpec)
    ensures Fold(env, t, fs + [f]) == Step(env, Fold(env, t, fs), f)
  {
    assert (fs + [f])[..|fs|] == fs;
  }

  /** One more filter of a list: the fold up to `i + 1` steps once past the fold up to `i`. */
  lemma FoldStep(env: Coercions, t: Table, fs: seq<FilterSpec>, i: nat)
    requires i < |fs|
    ensures Fold(env, t, fs[..i + 1]) == Step(env, Fold(env, t, fs[..i]), fs[i])
  {
    assert fs[..i + 1] == fs[..i] + [fs[i]];
    FoldSnoc(env, t, fs[..i], fs[i]);
  }

  /** Folding a concatenation is folding the second list over the result of the first. */
  lemma {:induction false} FoldAppend(env: Coercions, t: Table, fs: seq<FilterSpec>, gs: seq<FilterSpec>)
    ensures Fold(env, t, fs + gs) == Fold(env, Fold(env, t, fs), gs)
    decreases |gs|
  {
    if gs == [] {
      assert fs + gs == fs;
    } else {
      var init := gs[..|gs| - 1];
      var last := gs[|gs| - 1];
      assert fs + gs == (fs + init) + [last];
      assert init + [last] == gs;
      calc {
        Fold(env, t, fs + gs);
        { FoldSnoc(env, t, fs + init, last); }
        Step(env, Fold(env, t, fs + init), last);
        { FoldAppend(env, t, fs, init); }
        Step(env, Fold(env, Fold(env, t, fs), init), last);
        { FoldSnoc(env, Fold(env, t, fs), init, last); }
        Fold(env, Fold(env, t, fs), gs);
      }
    }
  }

  /**
   * A filter that fails on the table it meets (its column is missing, or
   * its evaluation raises) can be dropped from the list without changing the
   * result; the filters after it still apply.
   */
  lemma FailedFilterIsInert(env: Coercions, t: Table, fs: seq<FilterSpec>, f: FilterSpec, gs: seq<FilterSpec>)
    requires ApplySingleFilter(env, Fold(env, t, fs), f).Failed?
    ensures Fold(env, t, fs + [f] + gs) == Fold(env, t, fs + gs)
  {
    FoldAppend(env, t, fs + [f], gs);
    FoldSnoc(env, t, fs, f);
    FoldAppend(env, t, fs, gs);
  }

  /** Filtering a well-formed table yields a well-formed table. */
  lemma FoldPreservesWellFormed(env: Coercions, t: Table, fs: seq<FilterSpec>)
    requires WellFormed(t)
    ensures WellFormed(Fold(env, t, fs))
  {
    SubsequencePreservesWellFormed(t, Fold(env, t, fs).rows);
  }

  /** Every row of the view is a row of the canonical table. */
  lemma ViewRowsComeFromTable(env: Coercions, t: Table, fs: seq<FilterSpec>)
    ensures forall r :: r in Fold(env, t, fs).rows ==> r in t.rows
  {
    SubsequenceMembers(Fold(env, t, fs).rows, t.rows);
  }

  /** `DataModel`: the canonical table `df`, the filter list and the derived `view`. */
  class DataModel {
    const env: Coercions
    var df: Option<Table>
    var view: Option<Table>
    var filters: seq<FilterSpec>

    /** The view is always the filters folded over the canonical table. */
    ghost predicate Valid()
      reads this
    {
      view == Derived(env, df, filters)
    }

    constructor (env: Coercions)
      ensures this.env == env && df == None && view == None && filters == []
      ensures Valid()
    {
      this.env := env;
      df := None;
      view := None;
      filters := [];
    }

    /** `set_df`: a new canonical table drops every filter, so the view is the whole table. */
    method SetDf(table: Table)
      modifies this
      ensures df == Some(table) && filters == [] && view == Some(table)
      ensures Valid()
    {
      df := Some(table);
      filters := [];
      ApplyFilters();
    }

    /** `apply_filters`: recompute the view by running the filters over the table in list order. */
    method ApplyFilters()
      modifies this`view
      ensures view == Derived(env, df, filters)
    {
      if df.None? {
        view := None;
        return;
      }
      var table := df.value;
      var fs := filters;
      var acc := table;
      var i := 0;
      while i < |fs|
        invariant 0 <= i <= |fs|
        invariant acc == Fold(env, table, fs[..i])
      {
        FoldStep(env, table, fs, i);
        acc := FilterOnce(acc, fs[i]);
        i := i + 1;
      }
      assert fs[..i] == fs;
      view := Some(acc);
    }

    /**
     * The body of the loop in `apply_filters`: the filter is skipped when its
     * column is missing or it raises, and otherwise replaces the intermediate table.
     */
    method FilterOnce(acc: Table, f: FilterSpec) returns (next: Table)
      ensures next == Step(env, acc, f)
    {
      next := acc;
      if ColumnIndex(acc.columns, f.column).Some? {
        var r := ApplySingleFilter(env, acc, f);
        if r.Ok? {
          next := r.value;
        }
      }
    }

    /** `add_filter`: append the filter; the new view is the old one with that filter applied. */
    method AddFilter(spec: FilterSpec)
      modifies this
      ensures df == old(df) && filters == old(filters) + [spec]
      ensures Valid()
      ensures old(Valid()) && df.Some? ==> view == Some(Step(env, old(view).value, spec))
    {
      filters := filters + [spec];
      ApplyFilters();
      if df.Some? {
        FoldSnoc(env, df.value, old(filters), spec);
      }
    }

    /** `clear_filters`: drop every filter; the view is the canonical table again. */
    method ClearFilters()
      modifies this
      ensures df == old(df) && filters == [] && view == df
      ensures Valid()
    {
      filters := [];
      ApplyFilters();
    }

    /** `remove_filter_at`: drop the filter at `idx`; an index out of range changes nothing. */
    method RemoveFilterAt(idx: int)
      modifies this
      ensures !(0 <= idx < old(|filters|)) ==> unchanged(this)
      ensures 0 <= idx < old(|filters|) ==>
        && df == old(df)
        && filters == old(filters[..idx]) + old(filters[idx + 1..])
        && |filters| == old(|filters|) - 1
        && Valid()
    {
      if 0 <= idx < |filters| {
        filters := filters[..idx] + filters[idx + 1..];
        ApplyFilters();
      }
    }
  }
}
