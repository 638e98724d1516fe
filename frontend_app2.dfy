/**
 * The global state of `frontend/js/app_2.js`, the earlier variant of the filter
 * script: range filters record a `mode`, and `onRefresh` always takes the
 * widget's configuration. The script calls `applyAllFilters` and
 * `renderPivotTableWithData` without defining them, so `applyFilter` and
 * `clearFilter` stop with a `ReferenceError` right after updating `activeFilters`.
 */
module FrontendApp2 {
  import opened Wrappers
  import opened JsValues
  import opened Filters
  import opened PivotWidget
  import opened Upload
  import opened JsText

  /** The application: the globals of the script. */
  class App {
    var currentData: seq<Row>
    var pivotConfig: PivotConfig
    var activeFilters: ActiveFilters
    var display: Display

    /** Every excluded list is duplicate-free. */
    ghost predicate Valid()
      reads this
    {
      WellFormed(activeFilters)
    }

    /** The initial values of the globals. */
    constructor ()
      ensures Valid()
      ensures currentData == [] && pivotConfig == map[] && activeFilters == map[] && display == Placeholder
    {
      currentData := [];
      pivotConfig := map[];
      activeFilters := map[];
      display := Placeholder;
    }

    /** `renderPivotTable(data)`: the data becomes current and is drawn with the
        current configuration; filters are kept. */
    method RenderPivotTable(data: seq<Row>)
      requires Valid()
      modifies this
      ensures Valid()
      ensures currentData == data && display == PivotView(data, pivotConfig)
      ensures pivotConfig == old(pivotConfig) && activeFilters == old(activeFilters)
    {
      currentData := data;
      display := PivotView(data, pivotConfig);
    }

    /** `handleCSVFile`'s `onload`: header keys trimmed, then rendered. */
    method LoadCsv(parsed: Option<seq<Row>>)
      requires Valid()
      modifies this
      ensures Valid()
      ensures parsed.None? ==> currentData == old(currentData) && display == old(display)
      ensures parsed.Some? ==>
        && |currentData| == |parsed.value|
        && (forall i :: 0 <= i < |currentData| ==> HeadersTrimmed(parsed.value[i], currentData[i]))
        && display == PivotView(currentData, pivotConfig)
      ensures pivotConfig == old(pivotConfig) && activeFilters == old(activeFilters)
    {
      if parsed.Some? {
        var rows := parsed.value;
        var data := new Row[|rows|](i requires 0 <= i < |rows| => rows[i]);
        CleanHeaders(data);
        RenderPivotTable(data[..]);
      }
    }

    /** `handleExcelFile`'s `onload`. */
    method LoadExcel(parsed: Option<seq<Row>>)
      requires Valid()
      modifies this
      ensures Valid()
      ensures parsed.None? ==> currentData == old(currentData) && display == old(display)
      ensures parsed.Some? ==> currentData == parsed.value && display == PivotView(parsed.value, pivotConfig)
      ensures pivotConfig == old(pivotConfig) && activeFilters == old(activeFilters)
    {
      if parsed.Some? {
        RenderPivotTable(parsed.value);
      }
    }

    /** `handleJSONFile`'s `onload`. */
    method LoadJson(parsed: Option<JsonDoc>)
      requires Valid()
      modifies this
      ensures Valid()
      ensures parsed.None? ==> currentData == old(currentData) && display == old(display)
      ensures parsed.Some? ==> currentData == WrapJson(parsed.value) && display == PivotView(currentData, pivotConfig)
      ensures pivotConfig == old(pivotConfig) && activeFilters == old(activeFilters)
    {
      if parsed.Some? {
        RenderPivotTable(WrapJson(parsed.value));
      }
    }

    /** `onRefresh(config)`: the widget's configuration always replaces `pivotConfig`. */
    method OnRefresh(config: PivotConfig)
      requires Valid()
      modifies this
      ensures Valid()
      ensures pivotConfig == config
      ensures currentData == old(currentData) && activeFilters == old(activeFilters) && display == old(display)
    {
      pivotConfig := config;
    }

    /** `updateCategoricalFilter(col, checkbox)`; `ok` is false when it throws. */
    method UpdateCategoricalFilter(col: string, value: string, checked: bool) returns (ok: bool)
      requires Valid()
      modifies this
      ensures Valid()
      ensures ok <==> UpdateCategorical(old(activeFilters), col, value, checked).Some?
      ensures activeFilters == if ok then UpdateCategorical(old(activeFilters), col, value, checked).value
                               else old(activeFilters)
      ensures currentData == old(currentData) && pivotConfig == old(pivotConfig) && display == old(display)
    {
      var updated := UpdateCategorical(activeFilters, col, value, checked);
      if updated.Some? {
        UpdateCategoricalEffect(activeFilters, col, value, checked);
        activeFilters := updated.value;
      }
      ok := updated.Some?;
    }

    /** The checkbox loop of `selectAllValues` / `deselectAllValues`. */
    method SetCheckboxes(col: string, values: seq<string>, checked: bool)
      requires Valid()
      modifies this
      ensures Valid()
      ensures activeFilters == SetAll(old(activeFilters), col, values, checked)
      ensures currentData == old(currentData) && pivotConfig == old(pivotConfig) && display == old(display)
    {
      var i := 0;
      while i < |values|
        invariant 0 <= i <= |values|
        invariant Valid()
        invariant SetAll(activeFilters, col, values[i..], checked) == SetAll(old(activeFilters), col, values, checked)
        invariant currentData == old(currentData) && pivotConfig == old(pivotConfig) && display == old(display)
      {
        ghost var before := activeFilters;
        var ok := UpdateCategoricalFilter(col, values[i], checked);
        if !ok {
          SetAllStop(before, col, values, i, checked);
          return;
        }
        SetAllNext(before, col, values, i, checked);
        i := i + 1;
      }
    }

    /** `selectAllValues(col)`. */
    method SelectAllValues(col: string, values: seq<string>)
      requires Valid()
      modifies this
      ensures Valid()
      ensures activeFilters == SetAll(old(activeFilters), col, values, true)
      ensures currentData == old(currentData) && pivotConfig == old(pivotConfig) && display == old(display)
    {
      SetCheckboxes(col, values, true);
    }

    /** `deselectAllValues(col)`. */
    method DeselectAllValues(col: string, values: seq<string>)
      requires Valid()
      modifies this
      ensures Valid()
      ensures activeFilters == SetAll(old(activeFilters), col, values, false)
      ensures currentData == old(currentData) && pivotConfig == old(pivotConfig) && display == old(display)
    {
      SetCheckboxes(col, values, false);
    }

    /** `applyFilter(col, isNumeric)` with the bound texts and the checked range-mode
        radio: a numeric column gets `{min, max, mode}` when one bound parses. The
        re-render that follows calls undefined functions, so the view stays as it
        was. */
    method ApplyFilter(col: string, isNumeric: bool, minText: string, maxText: string, checkedMode: Option<string>)
      requires Valid()
      modifies this
      ensures Valid()
      ensures var f := RangeFilter(minText, maxText, Some(RangeMode(checkedMode)));
        activeFilters == if isNumeric && f.Some? then old(activeFilters)[col := f.value] else old(activeFilters)
      ensures currentData == old(currentData) && pivotConfig == old(pivotConfig) && display == old(display)
    {
      if isNumeric {
        var mode := RangeMode(checkedMode);
        var f := RangeFilter(minText, maxText, Some(mode));
        if f.Some? {
          activeFilters := activeFilters[col := f.value];
        }
      }
    }

    /** `clearFilter(col)`: exactly that column's filter is deleted; the re-render
        that follows calls undefined functions. */
    method ClearFilter(col: string)
      requires Valid()
      modifies this
      ensures Valid()
      ensures activeFilters == old(activeFilters) - {col}
      ensures forall c :: c in old(activeFilters) && c != col ==> c in activeFilters && activeFilters[c] == old(activeFilters)[c]
      ensures currentData == old(currentData) && pivotConfig == old(pivotConfig) && display == old(display)
    {
      activeFilters := activeFilters - {col};
    }
  }

  /** The filter `applyFilter` stores for a minimum of `10`, no maximum and no
      checked mode. */
  lemma MinimumTen()
    ensures RangeFilter("10", "", Some(RangeMode(None))) == Some(Range(Some(10.0), None, Some("between")))
  {
    ParseTen();
    ParseBlank();
  }

  /** `parseFloat("10")` is 10. */
  lemma ParseTen()
    ensures ParseFloatText("10") == Some(10.0)
  {
    assert "10"[..1] == "1";
    assert DigitsValue("10") == 10;
    ParseDigits("10");
  }

  /** `parseFloat("")` is `NaN`. */
  lemma ParseBlank()
    ensures ParseFloatText("") == None
  {
    assert TrimStart("") == "";
    assert DigitPrefix("") == "";
  }

  /** That filter rejects a row whose `Sales` is 5. */
  lemma MinimumTenRejectsFive(row: Row, filters: ActiveFilters)
    requires row == map["Sales" := Num(5.0)]
    requires filters == map["Sales" := Range(Some(10.0), None, Some("between"))]
    ensures !PassesAll(row, filters)
    ensures Filtered([row], filters) == []
  {
    var f := filters["Sales"];
    assert Lookup(row, "Sales") == Num(5.0);
    assert ParseNum(Num(5.0)) == Some(5.0);
    assert !PassesFilter(Num(5.0), f);
    assert [row][..0] == [];
  }

  /** A concrete run of the script as written: one row with `Sales` 5 is shown, and
      a range filter with minimum 10 is applied. The filter is stored and rejects
      the row, yet the row is still what the table shows. */
  method FilterNotShown() returns (shown: seq<Row>, passing: seq<Row>)
    ensures |shown| == 1 && passing == []
  {
    var app := new App();
    var row: Row := map["Sales" := Num(5.0)];
    app.RenderPivotTable([row]);
    MinimumTen();
    app.ApplyFilter("Sales", true, "10", "", None);
    MinimumTenRejectsFive(row, app.activeFilters);
    shown := app.display.rows;
    passing := Filtered([row], app.activeFilters);
  }
}
