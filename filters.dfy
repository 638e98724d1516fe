/**
 * The client-side filter engine of the pivot-table app: the active filters per
 * column, the predicate `applyAllFilters` applies to every row, and the edits the
 * filter dropdown makes to a column's filter.
 */
module Filters {
  import opened Wrappers
  import opened JsText
  import opened JsValues
  import opened Seqs

  /** A column filter. A categorical filter is `{excludedValues}`; a range filter is
      `{min, max}` with `undefined` for a missing bound, plus the `mode` radio
      value in the variant that records it (`None` where it is not recorded). */
  datatype Filter =
    | Categorical(excluded: seq<string>)
    | Range(lo: Option<real>, hi: Option<real>, mode: Option<string>)

  /** `activeFilters`: column name to its filter. */
  type ActiveFilters = map<string, Filter>

  /** The excluded list a column's categorical filter holds; empty when the column
      has no categorical filter. */
  function Excluded(filters: ActiveFilters, col: string): seq<string> {
    if col in filters && filters[col].Categorical? then filters[col].excluded else []
  }

  /** Every excluded list is duplicate-free. */
  predicate WellFormed(filters: ActiveFilters) {
    forall c :: c in filters && filters[c].Categorical? ==> NoDup(filters[c].excluded)
  }

  /** One column's test inside `applyAllFilters`. A filter with an excluded list
      (empty or not) compares the stringified value with it. Otherwise the value is
      parsed; a value that is not a number passes, a number fails when it is below
      a defined minimum or above a defined maximum. */
  predicate PassesFilter(v: Value, f: Filter) {
    match f
    case Categorical(excluded) => ToStr(v) !in excluded
    case Range(lo, hi, _) =>
      match ParseNum(v)
      case None => true
      case Some(x) => !(lo.Some? && x < lo.value) && !(hi.Some? && x > hi.value)
  }

  /** A row passes when it passes the filter of every filtered column. */
  predicate PassesAll(row: Row, filters: ActiveFilters) {
    forall c :: c in filters ==> PassesFilter(Lookup(row, c), filters[c])
  }

  /** The indices of the rows that pass, in increasing order. */
  ghost function Kept(data: seq<Row>, filters: ActiveFilters): (r: seq<nat>)
    ensures forall k :: 0 <= k < |r| ==> r[k] < |data|
    ensures forall k, l :: 0 <= k < l < |r| ==> r[k] < r[l]
    ensures forall i :: 0 <= i < |data| ==> (i in r <==> PassesAll(data[i], filters))
  {
    if data == [] then []
    else
      var init := data[..|data| - 1];
      var p := Kept(init, filters);
      assert forall i :: 0 <= i < |init| ==> init[i] == data[i];
      if PassesAll(data[|data| - 1], filters) then p + [|data| - 1] else p
  }

  /** The rows `applyAllFilters` returns. */
  function Filtered(data: seq<Row>, filters: ActiveFilters): (r: seq<Row>)
    ensures |r| <= |data|
  {
    if data == [] then []
    else
      var init := data[..|data| - 1];
      var last := data[|data| - 1];
      if PassesAll(last, filters) then Filtered(init, filters) + [last] else Filtered(init, filters)
  }

  /** The result is exactly the passing rows of `data`, in their original order:
      its `k`-th row is the row at the `k`-th passing index. */
  lemma {:induction false} FilteredSelectsPassing(data: seq<Row>, filters: ActiveFilters)
    ensures |Filtered(data, filters)| == |Kept(data, filters)|
    ensures forall k :: 0 <= k < |Filtered(data, filters)| ==>
      Filtered(data, filters)[k] == data[Kept(data, filters)[k]]
  {
    if data != [] {
      var init := data[..|data| - 1];
      var last := data[|data| - 1];
      FilteredSelectsPassing(init, filters);
      var fi, ki := Filtered(init, filters), Kept(init, filters);
      var fd, kd := Filtered(data, filters), Kept(data, filters);
      if PassesAll(last, filters) {
        assert fd == fi + [last] && kd == ki + [|data| - 1];
        forall k | 0 <= k < |fd|
          ensures fd[k] == data[kd[k]]
        {
          if k < |fi| {
            assert fd[k] == fi[k] == init[ki[k]];
          }
        }
      } else {
        assert fd == fi && kd == ki;
        forall k | 0 <= k < |fd|
          ensures fd[k] == data[kd[k]]
        {
          assert fd[k] == init[ki[k]];
        }
      }
    }
  }

  /** The test `applyAllFilters` runs on one row: it walks the filtered columns and
      stops at the first one the row fails. */
  method RowPasses(row: Row, filters: ActiveFilters) returns (ok: bool)
    ensures ok <==> PassesAll(row, filters)
  {
    var pending := filters.Keys;
    while pending != {}
      invariant pending <= filters.Keys
      invariant forall c :: c in filters && c !in pending ==> PassesFilter(Lookup(row, c), filters[c])
      decreases pending
    {
      var col :| col in pending;
      var value := Lookup(row, col);
      match filters[col] {
        case Categorical(excluded) =>
          if ToStr(value) in excluded {
            return false;
          }
        case Range(lo, hi, _) =>
          var num := ParseNum(value);
          if num.Some? {
            if lo.Some? && num.value < lo.value {
              return false;
            }
            if hi.Some? && num.value > hi.value {
              return false;
            }
          }
      }
      pending := pending - {col};
    }
    return true;
  }

  /** `applyAllFilters(data)`: the input itself when no filter is active, otherwise
      the rows that pass every filter. */
  method ApplyAllFilters(data: seq<Row>, filters: ActiveFilters) returns (r: seq<Row>)
    ensures r == Filtered(data, filters)
  {
    if |filters| == 0 {
      NoFiltersKeepAll(data, filters);
      return data;
    }
    r := [];
    for i := 0 to |data|
      invariant r == Filtered(data[..i], filters)
    {
      assert data[..i + 1][..i] == data[..i];
      var ok := RowPasses(data[i], filters);
      if ok {
        r := r + [data[i]];
      }
    }
    assert data[..|data|] == data;
  }

  /** With no active filter every row is kept. */
  lemma {:induction false} NoFiltersKeepAll(data: seq<Row>, filters: ActiveFilters)
    requires |filters| == 0
    ensures Filtered(data, filters) == data
  {
    if data != [] {
      NoFiltersKeepAll(data[..|data| - 1], filters);
      assert data == data[..|data| - 1] + [data[|data| - 1]];
    }
  }

  /** A row is in the result exactly when it is in the input and passes every
      filter; one failing column is enough to drop it. */
  lemma {:induction false} FilteredMembership(data: seq<Row>, filters: ActiveFilters, row: Row)
    ensures row in Filtered(data, filters) <==> row in data && PassesAll(row, filters)
  {
    if data != [] {
      var init := data[..|data| - 1];
      FilteredMembership(init, filters, row);
      assert data == init + [data[|data| - 1]];
    }
  }

  /** A kept row keeps its multiplicity; a rejected row disappears. */
  lemma {:induction false} FilteredMultiplicity(data: seq<Row>, filters: ActiveFilters, row: Row)
    ensures multiset(Filtered(data, filters))[row]
         == if PassesAll(row, filters) then multiset(data)[row] else 0
  {
    if data != [] {
      var init := data[..|data| - 1];
      FilteredMultiplicity(init, filters, row);
      assert data == init + [data[|data| - 1]];
    }
  }

  /** Filtering twice with the same filters changes nothing more. */
  lemma {:induction false} FilteredIdempotent(data: seq<Row>, filters: ActiveFilters)
    ensures Filtered(Filtered(data, filters), filters) == Filtered(data, filters)
  {
    if data != [] {
      var init := data[..|data| - 1];
      var last := data[|data| - 1];
      FilteredIdempotent(init, filters);
      var f := Filtered(init, filters);
      if PassesAll(last, filters) {
        assert (f + [last])[..|f|] == f;
      }
    }
  }

  /** Filters on different columns combine as successive filtering: the rows that
      pass `f + g` are the rows of the `f` result that pass `g`. */
  lemma {:induction false} FilteredCompose(data: seq<Row>, f: ActiveFilters, g: ActiveFilters)
    requires f.Keys !! g.Keys
    ensures Filtered(data, f + g) == Filtered(Filtered(data, f), g)
  {
    if data != [] {
      var init := data[..|data| - 1];
      var last := data[|data| - 1];
      FilteredCompose(init, f, g);
      assert PassesAll(last, f + g) <==> PassesAll(last, f) && PassesAll(last, g) by {
        if PassesAll(last, f) && PassesAll(last, g) {
          forall c | c in f + g
            ensures PassesFilter(Lookup(last, c), (f + g)[c])
          {
            if c in g {
              assert (f + g)[c] == g[c];
            } else {
              assert (f + g)[c] == f[c];
            }
          }
        }
        if PassesAll(last, f + g) {
          forall c | c in f
            ensures PassesFilter(Lookup(last, c), f[c])
          {
            assert (f + g)[c] == f[c];
          }
          forall c | c in g
            ensures PassesFilter(Lookup(last, c), g[c])
          {
            assert (f + g)[c] == g[c];
          }
        }
      }
      var h := Filtered(init, f);
      if PassesAll(last, f) {
        assert (h + [last])[..|h|] == h;
      }
    }
  }

  /** Dropping one column's filter: the rows shown with it are the rows shown
      without it that also pass that column's filter, so clearing a filter only
      brings rows back. */
  lemma ClearFilterRestores(data: seq<Row>, filters: ActiveFilters, col: string)
    requires col in filters
    ensures Filtered(data, filters) == Filtered(Filtered(data, filters - {col}), map[col := filters[col]])
  {
    var rest := filters - {col};
    var one := map[col := filters[col]];
    assert rest + one == filters;
    FilteredCompose(data, rest, one);
  }

  /** Under a single categorical filter a row is rejected exactly when the text of
      its cell is an excluded value. */
  lemma CategoricalSemantics(row: Row, col: string, excluded: seq<string>)
    ensures PassesAll(row, map[col := Categorical(excluded)]) <==> ToStr(Lookup(row, col)) !in excluded
  {
    var f := map[col := Categorical(excluded)];
    if ToStr(Lookup(row, col)) in excluded {
      assert !PassesFilter(Lookup(row, col), f[col]);
    }
  }

  /** An empty excluded list rejects nothing. */
  lemma EmptyExclusionKeepsAll(data: seq<Row>, filters: ActiveFilters, col: string)
    requires col in filters && filters[col] == Categorical([])
    ensures Filtered(data, filters) == Filtered(data, filters - {col})
  {
    var rest := filters - {col};
    var one := map[col := Categorical([])];
    assert rest + one == filters;
    FilteredCompose(data, rest, one);
    var shown := Filtered(data, rest);
    forall i | 0 <= i < |shown|
      ensures PassesAll(shown[i], one)
    {
      CategoricalSemantics(shown[i], col, []);
    }
    AllPassKeepAll(shown, one);
  }

  /** Filtering rows that all pass returns them unchanged. */
  lemma {:induction false} AllPassKeepAll(data: seq<Row>, filters: ActiveFilters)
    requires forall i :: 0 <= i < |data| ==> PassesAll(data[i], filters)
    ensures Filtered(data, filters) == data
  {
    if data != [] {
      var init := data[..|data| - 1];
      var last := data[|data| - 1];
      forall i | 0 <= i < |init|
        ensures PassesAll(init[i], filters)
      {
        assert init[i] == data[i];
      }
      AllPassKeepAll(init, filters);
      assert data == init + [last];
    }
  }

  /** Under a range filter a value that does not parse as a number always passes,
      and a number is rejected exactly when it lies below a defined minimum or above
      a defined maximum. */
  lemma RangeSemantics(v: Value, lo: Option<real>, hi: Option<real>, mode: Option<string>)
    ensures ParseNum(v).None? ==> PassesFilter(v, Range(lo, hi, mode))
    ensures ParseNum(v).Some? ==>
      var x := ParseNum(v).value;
      (!PassesFilter(v, Range(lo, hi, mode)) <==> (lo.Some? && x < lo.value) || (hi.Some? && x > hi.value))
  {
  }

  /** The filter the range inputs produce, if any: each bound is `parseFloat` of
      its input, `undefined` when that is `NaN`, and nothing is stored unless one
      bound parses. */
  function RangeFilter(minText: string, maxText: string, mode: Option<string>): (r: Option<Filter>)
    ensures r.Some? <==> ParseFloatText(minText).Some? || ParseFloatText(maxText).Some?
    ensures r.Some? ==> r.value.Range? && r.value.lo == ParseFloatText(minText)
                        && r.value.hi == ParseFloatText(maxText) && r.value.mode == mode
  {
    var lo := ParseFloatText(minText);
    var hi := ParseFloatText(maxText);
    if lo.Some? || hi.Some? then Some(Range(lo, hi, mode)) else None
  }

  /** The `mode` recorded with a range filter: the checked radio's value, or
      `'between'` when no radio is checked or its value is empty. */
  function RangeMode(checked: Option<string>): (r: string)
    ensures r != []
    ensures checked.Some? && checked.value != [] ==> r == checked.value
    ensures !(checked.Some? && checked.value != []) ==> r == "between"
  {
    if checked.Some? && checked.value != [] then checked.value else "between"
  }

  /** A checked box: the first occurrence of the value is spliced out of the list. */
  function CheckValue(excluded: seq<string>, value: string): seq<string> {
    var i := IndexOf(excluded, value);
    if i > -1 then RemoveAt(excluded, i) else excluded
  }

  /** Checking removes one occurrence of the value and nothing else; from a
      duplicate-free list it removes the value entirely. */
  lemma CheckValueSpec(excluded: seq<string>, value: string)
    ensures var r := CheckValue(excluded, value);
      && multiset(r) == multiset(excluded) - multiset{value}
      && (NoDup(excluded) ==> NoDup(r) && value !in r)
  {
    var i := IndexOf(excluded, value);
    if i > -1 && NoDup(excluded) {
      RemoveAtNoDup(excluded, i);
    }
  }

  /** An unchecked box: the value is appended unless the list already holds it. */
  function UncheckValue(excluded: seq<string>, value: string): seq<string> {
    if value !in excluded then excluded + [value] else excluded
  }

  /** Unchecking adds the value once, unless the list already holds it, and keeps a
      duplicate-free list duplicate-free. */
  lemma UncheckValueSpec(excluded: seq<string>, value: string)
    ensures var r := UncheckValue(excluded, value);
      && multiset(r) == (if value in excluded then multiset(excluded) else multiset(excluded) + multiset{value})
      && value in r
      && (NoDup(excluded) ==> NoDup(r))
  {
  }

  /** The excluded list after one checkbox change. */
  function Toggle(excluded: seq<string>, value: string, checked: bool): seq<string> {
    if checked then CheckValue(excluded, value) else UncheckValue(excluded, value)
  }

  /** Checking makes the value not excluded, unchecking makes it excluded, and a
      duplicate-free list stays duplicate-free. */
  lemma ToggleSpec(excluded: seq<string>, value: string, checked: bool)
    requires NoDup(excluded)
    ensures var r := Toggle(excluded, value, checked);
      && NoDup(r)
      && (value in r <==> !checked)
  {
    if checked {
      CheckValueSpec(excluded, value);
    } else {
      UncheckValueSpec(excluded, value);
    }
  }

  /** A checkbox change leaves every other value's exclusion as it was. */
  lemma ToggleOthers(excluded: seq<string>, value: string, checked: bool, other: string)
    requires other != value
    ensures other in Toggle(excluded, value, checked) <==> other in excluded
  {
    var r := Toggle(excluded, value, checked);
    CheckValueSpec(excluded, value);
    UncheckValueSpec(excluded, value);
    assert other in r <==> multiset(r)[other] > 0;
    assert other in excluded <==> multiset(excluded)[other] > 0;
  }

  /** `updateCategoricalFilter(col, checkbox)`. A column with no filter first gets
      an empty excluded list. A column that holds a range filter has no excluded
      list, so the list operation throws a `TypeError` and nothing changes: `None`. */
  function UpdateCategorical(filters: ActiveFilters, col: string, value: string, checked: bool)
    : (r: Option<ActiveFilters>)
    ensures r.None? <==> col in filters && filters[col].Range?
  {
    if col in filters && filters[col].Range? then None
    else Some(filters[col := Categorical(Toggle(Excluded(filters, col), value, checked))])
  }

  /** A checkbox change that does not throw gives its column the toggled excluded
      list and touches no other column. */
  lemma UpdateCategoricalFrame(filters: ActiveFilters, col: string, value: string, checked: bool)
    requires col !in filters || filters[col].Categorical?
    ensures var r := UpdateCategorical(filters, col, value, checked);
      && r.Some?
      && r.value.Keys == filters.Keys + {col}
      && (forall c :: c in filters && c != col ==> r.value[c] == filters[c])
      && r.value[col] == Categorical(Toggle(Excluded(filters, col), value, checked))
  {
  }

  /** The effect of one checkbox change on a duplicate-free list: checking means the
      value is no longer excluded, unchecking means it is; every other value and
      every other column stay as they were, and the lists stay duplicate-free. */
  lemma UpdateCategoricalEffect(filters: ActiveFilters, col: string, value: string, checked: bool)
    requires WellFormed(filters)
    requires col !in filters || filters[col].Categorical?
    ensures UpdateCategorical(filters, col, value, checked).Some?
    ensures var g := UpdateCategorical(filters, col, value, checked).value;
      && WellFormed(g)
      && (value in Excluded(g, col) <==> !checked)
      && (forall other :: other != value ==> (other in Excluded(g, col) <==> other in Excluded(filters, col)))
  {
    var g := UpdateCategorical(filters, col, value, checked).value;
    forall other | other != value
      ensures other in Excluded(g, col) <==> other in Excluded(filters, col)
    {
      ToggleOthers(Excluded(filters, col), value, checked, other);
    }
  }

  /** `selectAllValues` / `deselectAllValues`: the change applied to every checkbox
      in turn, stopping at the first one that throws. */
  function SetAll(filters: ActiveFilters, col: string, values: seq<string>, checked: bool)
    : (r: ActiveFilters)
    ensures values == [] || (col in filters && filters[col].Range?) ==> r == filters
    decreases |values|
  {
    if values == [] then filters
    else
      match UpdateCategorical(filters, col, values[0], checked)
      case None => filters
      case Some(g) => SetAll(g, col, values[1..], checked)
  }

  /** Setting every checkbox of a column touches no other column, and leaves that
      column with a categorical filter unless it holds a range filter. */
  lemma {:induction false} SetAllFrame(filters: ActiveFilters, col: string, values: seq<string>, checked: bool)
    ensures var r := SetAll(filters, col, values, checked);
      && r.Keys <= filters.Keys + {col}
      && (forall c :: c in filters && c != col ==> c in r && r[c] == filters[c])
      && (values != [] && (col !in filters || filters[col].Categorical?) ==>
            r.Keys == filters.Keys + {col} && r[col].Categorical?)
    decreases |values|
  {
    if values != [] && (col !in filters || filters[col].Categorical?) {
      UpdateCategoricalFrame(filters, col, values[0], checked);
      var g := UpdateCategorical(filters, col, values[0], checked).value;
      SetAllFrame(g, col, values[1..], checked);
    }
  }

  /** A checkbox change that throws ends the loop with nothing changed. */
  lemma SetAllStop(filters: ActiveFilters, col: string, values: seq<string>, i: nat, checked: bool)
    requires i < |values| && col in filters && filters[col].Range?
    ensures SetAll(filters, col, values[i..], checked) == filters
  {
  }

  /** A checkbox change that succeeds leaves the rest of the loop to run from the
      new filters. */
  lemma SetAllNext(filters: ActiveFilters, col: string, values: seq<string>, i: nat, checked: bool)
    requires i < |values| && (col !in filters || filters[col].Categorical?)
    ensures UpdateCategorical(filters, col, values[i], checked).Some?
    ensures SetAll(filters, col, values[i..], checked)
      == SetAll(UpdateCategorical(filters, col, values[i], checked).value, col, values[i + 1..], checked)
  {
    assert values[i..][1..] == values[i + 1..];
  }

  /** After selecting all, none of the listed values is excluded; after deselecting
      all, every one is; values not listed keep their state, and every list stays
      duplicate-free. */
  lemma {:induction false} SetAllEffect(filters: ActiveFilters, col: string, values: seq<string>, checked: bool)
    requires WellFormed(filters)
    requires col !in filters || filters[col].Categorical?
    ensures var g := SetAll(filters, col, values, checked);
      && WellFormed(g)
      && (forall v :: v in values ==> (v in Excluded(g, col) <==> !checked))
      && (forall v :: v !in values ==> (v in Excluded(g, col) <==> v in Excluded(filters, col)))
    decreases |values|
  {
    if values != [] {
      UpdateCategoricalEffect(filters, col, values[0], checked);
      var g := UpdateCategorical(filters, col, values[0], checked).value;
      SetAllEffect(g, col, values[1..], checked);
      var r := SetAll(filters, col, values, checked);
      assert r == SetAll(g, col, values[1..], checked);
      forall v | v in values
        ensures v in Excluded(r, col) <==> !checked
      {
        if v != values[0] {
          var j :| 0 <= j < |values| && values[j] == v;
          assert values[1..][j - 1] == v;
        }
      }
      assert forall v :: v in values[1..] ==> v in values;
    }
  }
}
