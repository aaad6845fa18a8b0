/**
 * The filter panel's pure parts: the validation that turns the panel's
 * fields into a filter, and the labels of the active-filter list.
 */
module Panel {
  import opened Text
  import opened Filters

  /** What pressing "Add filter" does: refuse with a reason, or add a filter. */
  datatype AddOutcome =
    | NoData          // no table loaded yet
    | NoColumn        // no column chosen
    | MissingValues   // `between` without both values
    | MissingValue    // a comparison without a value
    | Added(spec: FilterSpec)

  /** The operators that take no value. */
  predicate IsNullOp(op: string) {
    op == "is null" || op == "is not null"
  }

  /**
   * `_add_filter`: a filter is added exactly when a table is loaded, a column
   * is chosen, and the values the operator needs are not blank. It stores
   * the values as typed, and empty strings in the fields the operator does
   * not use.
   */
  function BuildFilter(dataLoaded: bool, column: string, op: string, v1: string, v2: string): (r: AddOutcome)
    ensures r.Added? <==>
      && dataLoaded && column != ""
      && (op == "between" ==> !AllSpace(v1) && !AllSpace(v2))
      && (op != "between" && !IsNullOp(op) ==> !AllSpace(v1))
    ensures !dataLoaded ==> r == NoData
    ensures r.Added? ==> r.spec.column == column && r.spec.op == op
    ensures r.Added? && op == "between" ==> r.spec.value1 == v1 && r.spec.value2 == v2
    ensures r.Added? && IsNullOp(op) ==> r.spec.value1 == "" && r.spec.value2 == ""
    ensures r.Added? && op != "between" && !IsNullOp(op) ==> r.spec.value1 == v1 && r.spec.value2 == ""
  {
    BlankIffAllSpace(v1);
    BlankIffAllSpace(v2);
    if !dataLoaded then NoData
    else if column == "" then NoColumn
    else if op == "between" then
      if Strip(v1) == "" || Strip(v2) == "" then MissingValues
      else Added(FilterSpec(column, op, v1, v2))
    else if IsNullOp(op) then Added(FilterSpec(column, op, "", ""))
    else if Strip(v1) == "" then MissingValue
    else Added(FilterSpec(column, op, v1, ""))
  }

  /** A `between` filter the panel adds always has a second bound, so the engine never drops it for a blank one. */
  lemma AddedBetweenHasBothBounds(dataLoaded: bool, column: string, v1: string, v2: string)
    requires BuildFilter(dataLoaded, column, "between", v1, v2).Added?
    ensures var f := BuildFilter(dataLoaded, column, "between", v1, v2).spec;
      Strip(f.value1) != "" && Strip(f.value2) != ""
  {
    BlankIffAllSpace(v1);
    BlankIffAllSpace(v2);
  }

  /** The panel's operator list is the operator list the engine understands. */
  lemma PanelOffersEveryOperator(op: string)
    requires op in Operators
    ensures !ParseOp(op).Unsupported?
  {
  }

  /**
   * The label of one active filter: the column and the operator, then the
   * values the operator uses (both for `between`, none for the null
   * operators, the first for the rest).
   */
  function FilterLabel(f: FilterSpec): (s: string)
    ensures IsPrefix(f.column + " " + f.op, s)
    ensures IsNullOp(f.op) ==> s == f.column + " " + f.op
    ensures f.op == "between" ==> IsSuffix(" " + f.value1 + " and " + f.value2, s)
    ensures f.op == "between" ==> |s| == |f.column| + 1 + |f.op| + 1 + |f.value1| + 5 + |f.value2|
    ensures f.op != "between" && !IsNullOp(f.op) ==> IsSuffix(" " + f.value1, s)
    ensures f.op != "between" && !IsNullOp(f.op) ==> |s| == |f.column| + 1 + |f.op| + 1 + |f.value1|
  {
    var head := f.column + " " + f.op;
    if f.op == "between" then
      assert (head + (" " + f.value1 + " and " + f.value2))[..|head|] == head;
      head + (" " + f.value1 + " and " + f.value2)
    else if IsNullOp(f.op) then
      head
    else
      assert (head + (" " + f.value1))[..|head|] == head;
      head + (" " + f.value1)
  }

  /** `refresh_active_filters`: the list box gets one label per filter, in list order. */
  method RefreshActiveFilters(filters: seq<FilterSpec>) returns (listbox: seq<string>)
    ensures |listbox| == |filters|
    ensures forall k :: 0 <= k < |filters| ==> listbox[k] == FilterLabel(filters[k])
  {
    listbox := [];
    for i := 0 to |filters|
      invariant |listbox| == i
      invariant forall k :: 0 <= k < i ==> listbox[k] == FilterLabel(filters[k])
    {
      listbox := listbox + [FilterLabel(filters[i])];
    }
  }
}
