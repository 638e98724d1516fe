/**
 * The global state of `js/app.js`, the first version of the script: no filters,
 * and configurations are saved to and loaded from a downloaded JSON file instead
 * of an in-memory store.
 */
module BasicApp {
  import opened Wrappers
  import opened JsValues
  import opened PivotWidget
  import opened Upload

  /** The file `saveConfiguration` offers for download: `pivotConfig`, the save time,
      and `dataInfo` (record count and the first row's columns). */
  datatype ConfigFile = ConfigFile(
    pivotConfig: PivotConfig,
    timestamp: string,
    records: nat,
    columns: set<string>)

  /** What `JSON.parse` makes of a chosen configuration file: unreadable text (or a
      value whose `pivotConfig` cannot be read, such as `null`), or an object whose
      `pivotConfig` property is missing or falsy (`None`) or present. */
  datatype ConfigJson = Malformed | ConfigObject(pivotConfig: Option<PivotConfig>)

  /** The parsed form of a saved file, as a later `loadConfiguration` reads it. */
  function Encode(f: ConfigFile): (r: ConfigJson)
    ensures r.ConfigObject? && r.pivotConfig == Some(f.pivotConfig)
  {
    ConfigObject(Some(f.pivotConfig))
  }

  /** `config.pivotConfig || {}`, or `None` when reading the file throws and the
      configuration is left alone. */
  function LoadedConfig(doc: ConfigJson): (r: Option<PivotConfig>)
    ensures r.None? <==> doc.Malformed?
    ensures doc.ConfigObject? && doc.pivotConfig.None? ==> r == Some(map[])
  {
    match doc
    case Malformed => None
    case ConfigObject(config) => Some(config.GetOr(map[]))
  }

  /** The application: the globals of the script. */
  class App {
    var currentData: seq<Row>
    var pivotConfig: PivotConfig
    var display: Display

    /** The initial values of the globals. */
    constructor ()
      ensures currentData == [] && pivotConfig == map[] && display == Placeholder
    {
      currentData := [];
      pivotConfig := map[];
      display := Placeholder;
    }

    /** `renderPivotTable(data)`: the data becomes current and is drawn with the
        current configuration. */
    method RenderPivotTable(data: seq<Row>)
      modifies this
      ensures currentData == data && display == PivotView(data, pivotConfig)
      ensures pivotConfig == old(pivotConfig)
    {
      currentData := data;
      display := PivotView(data, pivotConfig);
    }

    /** `handleCSVFile`'s `onload`: header keys trimmed, then rendered. */
    method LoadCsv(parsed: Option<seq<Row>>)
      modifies this
      ensures parsed.None? ==> currentData == old(currentData) && display == old(display)
      ensures parsed.Some? ==>
        && |currentData| == |parsed.value|
        && (forall i :: 0 <= i < |currentData| ==> HeadersTrimmed(parsed.value[i], currentData[i]))
        && display == PivotView(currentData, pivotConfig)
      ensures pivotConfig == old(pivotConfig)
    {
      if parsed.Some? {
        var rows := parsed.value;
        var data := new Row[|rows|](i requires 0 <= i < |rows| => rows[i]);
        CleanHeaders(data);
        RenderPivotTable(data[..]);
      }
    }

    /** `handleExcelFile`'s `onload`. */
    method LoadExcel(parsed: Option<seq<Row>>)
      modifies this
      ensures parsed.None? ==> currentData == old(currentData) && display == old(display)
      ensures parsed.Some? ==> currentData == parsed.value && display == PivotView(parsed.value, pivotConfig)
      ensures pivotConfig == old(pivotConfig)
    {
      if parsed.Some? {
        RenderPivotTable(parsed.value);
      }
    }

    /** `handleJSONFile`'s `onload`. */
    method LoadJson(parsed: Option<JsonDoc>)
      modifies this
      ensures parsed.None? ==> currentData == old(currentData) && display == old(display)
      ensures parsed.Some? ==> currentData == WrapJson(parsed.value) && display == PivotView(currentData, pivotConfig)
      ensures pivotConfig == old(pivotConfig)
    {
      if parsed.Some? {
        RenderPivotTable(WrapJson(parsed.value));
      }
    }

    /** `onRefresh(config)`: the widget's configuration replaces `pivotConfig`. */
    method OnRefresh(config: PivotConfig)
      modifies this
      ensures pivotConfig == config
      ensures currentData == old(currentData) && display == old(display)
    {
      pivotConfig := config;
    }

    /** `resetPivot()`: the configuration is emptied and the placeholder shown; the
        loaded data stays current. */
    method ResetPivot()
      modifies this
      ensures pivotConfig == map[] && display == Placeholder
      ensures currentData == old(currentData)
    {
      pivotConfig := map[];
      display := Placeholder;
    }

    /** `saveConfiguration()` at time `now`: no file while `pivotConfig` has no keys,
        otherwise the file of the current configuration and data shape. Nothing in
        the application changes. */
    method SaveConfiguration(now: string) returns (file: Option<ConfigFile>)
      ensures file.None? <==> |pivotConfig| == 0
      ensures file.Some? ==>
        && file.value.pivotConfig == pivotConfig
        && file.value.timestamp == now
        && file.value.records == |currentData|
        && (currentData != [] ==> file.value.columns == currentData[0].Keys)
        && (currentData == [] ==> file.value.columns == {})
    {
      if |pivotConfig| == 0 {
        return None;
      }
      file := Some(ConfigFile(pivotConfig, now, |currentData|, FirstRowColumns(currentData)));
    }

    /** `loadConfiguration()` with the chosen file, `None` when none was chosen: a
        readable file's configuration becomes current and, when data is loaded, the
        table is drawn again with it. */
    method LoadConfiguration(chosen: Option<ConfigJson>)
      modifies this
      ensures chosen.None? || chosen.value.Malformed? ==>
        pivotConfig == old(pivotConfig) && display == old(display)
      ensures chosen.Some? && chosen.value.ConfigObject? ==>
        && pivotConfig == LoadedConfig(chosen.value).value
        && (currentData != [] ==> display == PivotView(currentData, pivotConfig))
        && (currentData == [] ==> display == old(display))
      ensures currentData == old(currentData)
    {
      if chosen.None? {
        return;
      }
      var loaded := LoadedConfig(chosen.value);
      if loaded.None? {
        return;
      }
      pivotConfig := loaded.value;
      if |currentData| > 0 {
        RenderPivotTable(currentData);
      }
    }

    /** Saving, resetting and loading the saved file brings the configuration back
        and draws the loaded data with it. */
    method SaveResetLoad(now: string)
      requires |pivotConfig| > 0 && currentData != []
      modifies this
      ensures pivotConfig == old(pivotConfig) && currentData == old(currentData)
      ensures display == PivotView(currentData, pivotConfig)
    {
      var file := SaveConfiguration(now);
      ResetPivot();
      LoadConfiguration(Some(Encode(file.value)));
    }
  }
}
