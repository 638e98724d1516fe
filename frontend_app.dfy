/**
 * The global state of `frontend/js/app.js` and the handlers that change it: data
 * loading, the filter dropdown, the widget's `onRefresh` callback, reset, and the
 * in-memory store of saved configurations.
 */
module FrontendApp {
  import opened Wrappers
  import opened JsText
  import opened JsValues
  import opened Seqs
  import opened Filters
  import opened ColumnAnalysis
  import opened PivotWidget
  import opened Upload

  /** A saved configuration: deep copies of `pivotConfig` and `activeFilters`, the
      save time, and the shape of the data it was saved over. */
  datatype SavedConfig = SavedConfig(
    pivotConfig: PivotConfig,
    activeFilters: ActiveFilters,
    timestamp: string,
    records: nat,
    columns: set<string>)

  /** `` `Config-${k}` ``. */
  function ConfigName(k: nat): (r: string)
    ensures |r| > 7 && r[..7] == "Config-" && r[7..] == NatToString(k)
  {
    "Config-" + NatToString(k)
  }

  /** Different counters give different names, so saving never reuses a name. */
  lemma ConfigNameInjective(a: nat, b: nat)
    ensures ConfigName(a) == ConfigName(b) <==> a == b
  {
    if ConfigName(a) == ConfigName(b) {
      assert NatToString(a) == ConfigName(a)[7..] == ConfigName(b)[7..] == NatToString(b);
      NatToStringInjective(a, b);
    }
  }

  /** The names a store whose counter stands at `counter` holds: those of the
      counters already used. */
  ghost function SavedNames(counter: nat): set<string> {
    set k | 1 <= k < counter :: ConfigName(k)
  }

  /** The next name is not yet taken, and saving under it extends the set of names
      by exactly that name. */
  lemma NextName(counter: nat)
    requires counter >= 1
    ensures ConfigName(counter) !in SavedNames(counter)
    ensures SavedNames(counter + 1) == SavedNames(counter) + {ConfigName(counter)}
  {
  }

  /** A touch ends in a tap, which opens the filter like a click, when it lasted
      under 500 ms and moved less than 10 px (compared squared, in whole pixels). */
  predicate IsTap(durationMs: int, dx: int, dy: int) {
    durationMs < 500 && dx * dx + dy * dy < 100
  }

  /** The squared comparison is the same test as `Math.sqrt(dx² + dy²) < 10`. */
  lemma TapDistance(durationMs: int, dx: int, dy: int, distance: real)
    requires distance >= 0.0 && distance * distance == (dx * dx + dy * dy) as real
    ensures IsTap(durationMs, dx, dy) <==> durationMs < 500 && distance < 10.0
  {
    if distance >= 10.0 {
      assert distance * distance >= 10.0 * distance >= 100.0;
    }
  }

  /** The application: the globals of the script. */
  class App {
    var currentData: seq<Row>
    var pivotConfig: PivotConfig
    var activeFilters: ActiveFilters
    var savedConfigurations: map<string, SavedConfig>
    var configCounter: nat
    var isLoadingConfig: bool
    var display: Display

    /** The store holds exactly the names `Config-1` .. `Config-(counter - 1)`, and
        every excluded list, live or saved, is duplicate-free. */
    ghost predicate Valid()
      reads this
    {
      && configCounter >= 1
      && savedConfigurations.Keys == SavedNames(configCounter)
      && WellFormed(activeFilters)
      && forall name :: name in savedConfigurations ==> WellFormed(savedConfigurations[name].activeFilters)
    }

    /** The initial values of the globals. */
    constructor ()
      ensures Valid()
      ensures currentData == [] && pivotConfig == map[] && activeFilters == map[]
      ensures savedConfigurations == map[] && configCounter == 1 && !isLoadingConfig
      ensures display == Placeholder
    {
      currentData := [];
      pivotConfig := map[];
      activeFilters := map[];
      savedConfigurations := map[];
      configCounter := 1;
      isLoadingConfig := false;
      display := Placeholder;
      assert SavedNames(1) == {};
    }

    /** `renderPivotTable(data, preserveConfig)`: the data becomes current and is
        drawn unfiltered; the active filters survive unless `preserveConfig` is
        false. */
    method RenderPivotTable(data: seq<Row>, preserveConfig: bool)
      requires Valid()
      modifies this
      ensures Valid()
      ensures currentData == data
      ensures activeFilters == if preserveConfig then old(activeFilters) else map[]
      ensures display == PivotView(data, pivotConfig)
      ensures pivotConfig == old(pivotConfig) && savedConfigurations == old(savedConfigurations)
      ensures configCounter == old(configCounter) && isLoadingConfig == old(isLoadingConfig)
    {
      currentData := data;
      if !preserveConfig {
        activeFilters := map[];
      }
      display := PivotView(data, pivotConfig);
    }

    /** The loaders' success path: `renderPivotTable(rows)` with the default
        `preserveConfig = true`. */
    method LoadRows(rows: seq<Row>)
      requires Valid()
      modifies this
      ensures Valid()
      ensures currentData == rows && display == PivotView(rows, pivotConfig)
      ensures activeFilters == old(activeFilters) && pivotConfig == old(pivotConfig)
      ensures savedConfigurations == old(savedConfigurations) && configCounter == old(configCounter)
      ensures isLoadingConfig == old(isLoadingConfig)
    {
      RenderPivotTable(rows, true);
    }

    /** `handleCSVFile`'s `onload`: the parsed rows (`None` when parsing threw) get
        their header keys trimmed and are loaded. */
    method LoadCsv(parsed: Option<seq<Row>>)
      requires Valid()
      modifies this
      ensures Valid()
      ensures parsed.None? ==> currentData == old(currentData) && display == old(display)
      ensures parsed.Some? ==>
        && |currentData| == |parsed.value|
        && (forall i :: 0 <= i < |currentData| ==> HeadersTrimmed(parsed.value[i], currentData[i]))
        && display == PivotView(currentData, pivotConfig)
      ensures activeFilters == old(activeFilters) && pivotConfig == old(pivotConfig)
      ensures savedConfigurations == old(savedConfigurations) && configCounter == old(configCounter)
      ensures isLoadingConfig == old(isLoadingConfig)
    {
      if parsed.Some? {
        var rows := parsed.value;
        var data := new Row[|rows|](i requires 0 <= i < |rows| => rows[i]);
        CleanHeaders(data);
        LoadRows(data[..]);
      }
    }

    /** `handleExcelFile`'s `onload`: the first sheet's rows are loaded as they are. */
    method LoadExcel(parsed: Option<seq<Row>>)
      requires Valid()
      modifies this
      ensures Valid()
      ensures parsed.None? ==> currentData == old(currentData) && display == old(display)
      ensures parsed.Some? ==> currentData == parsed.value && display == PivotView(parsed.value, pivotConfig)
      ensures activeFilters == old(activeFilters) && pivotConfig == old(pivotConfig)
      ensures savedConfigurations == old(savedConfigurations) && configCounter == old(configCounter)
      ensures isLoadingConfig == old(isLoadingConfig)
    {
      if parsed.Some? {
        LoadRows(parsed.value);
      }
    }

    /** `handleJSONFile`'s `onload`: an array is loaded as it is, any other value as
        a one-row list. */
    method LoadJson(parsed: Option<JsonDoc>)
      requires Valid()
      modifies this
      ensures Valid()
      ensures parsed.None? ==> currentData == old(currentData) && display == old(display)
      ensures parsed.Some? ==> currentData == WrapJson(parsed.value) && display == PivotView(currentData, pivotConfig)
      ensures activeFilters == old(activeFilters) && pivotConfig == old(pivotConfig)
      ensures savedConfigurations == old(savedConfigurations) && configCounter == old(configCounter)
      ensures isLoadingConfig == old(isLoadingConfig)
    {
      if parsed.Some? {
        LoadRows(WrapJson(parsed.value));
      }
    }

    /** `onRefresh(config)`: the widget reports its configuration, which replaces
        `pivotConfig` unless a saved configuration is being loaded. */
    method OnRefresh(config: PivotConfig)
      requires Valid()
      modifies this
      ensures Valid()
      ensures pivotConfig == if old(isLoadingConfig) then old(pivotConfig) else config
      ensures currentData == old(currentData) && activeFilters == old(activeFilters)
      ensures savedConfigurations == old(savedConfigurations) && configCounter == old(configCounter)
      ensures isLoadingConfig == old(isLoadingConfig) && display == old(display)
    {
      if !isLoadingConfig {
        pivotConfig := config;
      }
    }

    /** The column a click or tap on a field label opens the filter for: nothing
        while the label is being dragged, for an empty name, without data, or for
        a name that is not a key of the first row; otherwise its analysis. */
    function ActivateFilter(columnName: string, dragging: bool): (r: Option<Analysis>)
      reads this
      ensures r.Some? <==> !dragging && columnName != [] && currentData != [] && columnName in currentData[0]
      ensures r.Some? ==> r.value == AnalyzeColumn(columnName, currentData)
    {
      if dragging || columnName == [] || currentData == [] || columnName !in currentData[0] then None
      else Some(AnalyzeColumn(columnName, currentData))
    }

    /** `updateCategoricalFilter(col, checkbox)`; `ok` is false when it throws
        because the column holds a range filter, and then nothing changes. */
    method UpdateCategoricalFilter(col: string, value: string, checked: bool) returns (ok: bool)
      requires Valid()
      modifies this
      ensures Valid()
      ensures ok <==> UpdateCategorical(old(activeFilters), col, value, checked).Some?
      ensures activeFilters == if ok then UpdateCategorical(old(activeFilters), col, value, checked).value
                               else old(activeFilters)
      ensures currentData == old(currentData) && pivotConfig == old(pivotConfig)
      ensures savedConfigurations == old(savedConfigurations) && configCounter == old(configCounter)
      ensures isLoadingConfig == old(isLoadingConfig) && display == old(display)
    {
      var updated := UpdateCategorical(activeFilters, col, value, checked);
      if updated.Some? {
        UpdateCategoricalEffect(activeFilters, col, value, checked);
        activeFilters := updated.value;
      }
      ok := updated.Some?;
    }

    /** The `forEach` over the dropdown's checkboxes shared by `selectAllValues`
        and `deselectAllValues`: each box is set and its change applied, until one
        throws. */
    method SetCheckboxes(col: string, values: seq<string>, checked: bool)
      requires Valid()
      modifies this
      ensures Valid()
      ensures activeFilters == SetAll(old(activeFilters), col, values, checked)
      ensures currentData == old(currentData) && pivotConfig == old(pivotConfig)
      ensures savedConfigurations == old(savedConfigurations) && configCounter == old(configCounter)
      ensures isLoadingConfig == old(isLoadingConfig) && display == old(display)
    {
      var i := 0;
      while i < |values|
        invariant 0 <= i <= |values|
        invariant Valid()
        invariant SetAll(activeFilters, col, values[i..], checked) == SetAll(old(activeFilters), col, values, checked)
        invariant currentData == old(currentData) && pivotConfig == old(pivotConfig)
        invariant savedConfigurations == old(savedConfigurations) && configCounter == old(configCounter)
        invariant isLoadingConfig == old(isLoadingConfig) && display == old(display)
      {
        ghost var before := activeFilters;
        var ok := UpdateCategoricalFilter(col, values[i], checked);
        if !ok {
          SetAllStop(before, col, values, i, checked);
          return;
        }
        SetAllNext(before, col, values, i, checked);
        i := i + 1;
      }
    }

    /** `selectAllValues(col)` over the dropdown's checkbox values. */
    method SelectAllValues(col: string, values: seq<string>)
      requires Valid()
      modifies this
      ensures Valid()
      ensures activeFilters == SetAll(old(activeFilters), col, values, true)
      ensures currentData == old(currentData) && pivotConfig == old(pivotConfig)
      ensures savedConfigurations == old(savedConfigurations) && configCounter == old(configCounter)
      ensures isLoadingConfig == old(isLoadingConfig) && display == old(display)
    {
      SetCheckboxes(col, values, true);
    }

    /** `deselectAllValues(col)` over the dropdown's checkbox values. */
    method DeselectAllValues(col: string, values: seq<string>)
      requires Valid()
      modifies this
      ensures Valid()
      ensures activeFilters == SetAll(old(activeFilters), col, values, false)
      ensures currentData == old(currentData) && pivotConfig == old(pivotConfig)
      ensures savedConfigurations == old(savedConfigurations) && configCounter == old(configCounter)
      ensures isLoadingConfig == old(isLoadingConfig) && display == old(display)
    {
      SetCheckboxes(col, values, false);
    }

    /** `applyFilter(col, isNumeric)` with the texts of the min and max inputs: a
        numeric column gets a range filter when one bound parses; then the current
        data is drawn filtered. */
    method ApplyFilter(col: string, isNumeric: bool, minText: string, maxText: string)
      requires Valid()
      modifies this
      ensures Valid()
      ensures var f := RangeFilter(minText, maxText, None);
        activeFilters == if isNumeric && f.Some? then old(activeFilters)[col := f.value] else old(activeFilters)
      ensures display == PivotView(Filtered(currentData, activeFilters), pivotConfig)
      ensures currentData == old(currentData) && pivotConfig == old(pivotConfig)
      ensures savedConfigurations == old(savedConfigurations) && configCounter == old(configCounter)
      ensures isLoadingConfig == old(isLoadingConfig)
    {
      if isNumeric {
        var f := RangeFilter(minText, maxText, None);
        if f.Some? {
          activeFilters := activeFilters[col := f.value];
        }
      }
      var rows := ApplyAllFilters(currentData, activeFilters);
      display := PivotView(rows, pivotConfig);
    }

    /** `clearFilter(col)`: the column's filter is deleted and the current data is
        drawn under the remaining filters. */
    method ClearFilter(col: string)
      requires Valid()
      modifies this
      ensures Valid()
      ensures activeFilters == old(activeFilters) - {col}
      ensures display == PivotView(Filtered(currentData, activeFilters), pivotConfig)
      ensures currentData == old(currentData) && pivotConfig == old(pivotConfig)
      ensures savedConfigurations == old(savedConfigurations) && configCounter == old(configCounter)
      ensures isLoadingConfig == old(isLoadingConfig)
    {
      activeFilters := activeFilters - {col};
      var rows := ApplyAllFilters(currentData, activeFilters);
      display := PivotView(rows, pivotConfig);
    }

    /** `resetPivot()`: configuration and filters are emptied and the placeholder is
        shown; the loaded data stays current. */
    method ResetPivot()
      requires Valid()
      modifies this
      ensures Valid()
      ensures pivotConfig == map[] && activeFilters == map[] && display == Placeholder
      ensures currentData == old(currentData)
      ensures savedConfigurations == old(savedConfigurations) && configCounter == old(configCounter)
      ensures isLoadingConfig == old(isLoadingConfig)
    {
      pivotConfig := map[];
      activeFilters := map[];
      display := Placeholder;
    }

    /** The snapshot `saveConfiguration` stores at time `now`. */
    function Snapshot(now: string): (r: SavedConfig)
      reads this
      ensures r.pivotConfig == pivotConfig && r.activeFilters == activeFilters
      ensures r.records == |currentData| && r.columns == FirstRowColumns(currentData)
    {
      SavedConfig(pivotConfig, activeFilters, now, |currentData|, FirstRowColumns(currentData))
    }

    /** `saveConfiguration()` at time `now`: nothing while `pivotConfig` has no keys;
        otherwise a snapshot is stored under the next `Config-<n>` name, which was
        not in use, and the counter moves on by one. */
    method SaveConfiguration(now: string)
      requires Valid()
      modifies this
      ensures Valid()
      ensures |old(pivotConfig)| == 0 ==>
        savedConfigurations == old(savedConfigurations) && configCounter == old(configCounter)
      ensures |old(pivotConfig)| > 0 ==>
        && ConfigName(old(configCounter)) !in old(savedConfigurations)
        && savedConfigurations == old(savedConfigurations)[ConfigName(old(configCounter)) := old(Snapshot(now))]
        && configCounter == old(configCounter) + 1
      ensures currentData == old(currentData) && pivotConfig == old(pivotConfig)
      ensures activeFilters == old(activeFilters) && isLoadingConfig == old(isLoadingConfig)
      ensures display == old(display)
    {
      if |pivotConfig| == 0 {
        return;
      }
      NextName(configCounter);
      var name := ConfigName(configCounter);
      savedConfigurations := savedConfigurations[name := Snapshot(now)];
      configCounter := configCounter + 1;
    }

    /** `selectConfiguration(name)`: an unknown name changes nothing. Otherwise the
        snapshot's configuration and filters become current, and `onRefresh` is
        suppressed while the widget is rebuilt over the filtered data; without data
        there is nothing to rebuild and the suppression ends at once. */
    method SelectConfiguration(name: string)
      requires Valid()
      modifies this
      ensures Valid()
      ensures name !in old(savedConfigurations) ==>
        pivotConfig == old(pivotConfig) && activeFilters == old(activeFilters)
        && isLoadingConfig == old(isLoadingConfig) && display == old(display)
      ensures name in old(savedConfigurations) ==>
        && pivotConfig == old(savedConfigurations)[name].pivotConfig
        && activeFilters == old(savedConfigurations)[name].activeFilters
        && (isLoadingConfig <==> currentData != [])
        && (currentData != [] ==> display == PivotView(Filtered(currentData, activeFilters), pivotConfig))
        && (currentData == [] ==> display == old(display))
      ensures currentData == old(currentData)
      ensures savedConfigurations == old(savedConfigurations) && configCounter == old(configCounter)
    {
      if name !in savedConfigurations {
        return;
      }
      var config := savedConfigurations[name];
      isLoadingConfig := true;
      pivotConfig := config.pivotConfig;
      activeFilters := config.activeFilters;
      if |currentData| > 0 {
        var rows := ApplyAllFilters(currentData, activeFilters);
        display := PivotView(rows, pivotConfig);
      } else {
        isLoadingConfig := false;
      }
    }

    /** The timer that ends a configuration load. */
    method ConfigLoadSettled()
      requires Valid()
      modifies this
      ensures Valid()
      ensures !isLoadingConfig
      ensures currentData == old(currentData) && pivotConfig == old(pivotConfig)
      ensures activeFilters == old(activeFilters) && display == old(display)
      ensures savedConfigurations == old(savedConfigurations) && configCounter == old(configCounter)
    {
      isLoadingConfig := false;
    }

    /** `clearAllConfigurations()`: the store is emptied and numbering restarts at 1. */
    method ClearAllConfigurations()
      requires Valid()
      modifies this
      ensures Valid()
      ensures savedConfigurations == map[] && configCounter == 1
      ensures currentData == old(currentData) && pivotConfig == old(pivotConfig)
      ensures activeFilters == old(activeFilters) && isLoadingConfig == old(isLoadingConfig)
      ensures display == old(display)
    {
      savedConfigurations := map[];
      configCounter := 1;
      assert SavedNames(1) == {};
    }

    /** Saving and then selecting the saved name brings back the configuration and
        filters of the moment of saving, and a refresh the widget reports while the
        load is in progress does not overwrite them. */
    method SaveThenSelect(now: string, reported: PivotConfig)
      requires Valid() && |pivotConfig| > 0 && currentData != []
      modifies this
      ensures Valid()
      ensures pivotConfig == old(pivotConfig) && activeFilters == old(activeFilters)
      ensures display == PivotView(Filtered(currentData, activeFilters), pivotConfig)
    {
      var name := ConfigName(configCounter);
      SaveConfiguration(now);
      ResetPivot();
      SelectConfiguration(name);
      OnRefresh(reported);
    }
  }
}
