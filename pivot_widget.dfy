/**
 * What the scripts see of the pivot-table widget: the configuration object it
 * reports through `onRefresh`, and what the output area shows.
 */
module PivotWidget {
  import opened JsValues

  /** One entry of a widget configuration: the column lists (`rows`, `cols`,
      `vals`), the names (`aggregatorName`, `rendererName`), or any other widget
      option, which the scripts only copy. */
  datatype Setting = Names(names: seq<string>) | Label(text: string) | WidgetOption

  /** `pivotConfig`: `{}` before the widget first reports, otherwise the widget's
      configuration object. */
  type PivotConfig = map<string, Setting>

  /** The output area: the "Ready to analyze your data" placeholder, or a pivot
      table drawn over `rows` with the options merged from `config`. */
  datatype Display = Placeholder | PivotView(rows: seq<Row>, config: PivotConfig)

  /** `data.length > 0 ? Object.keys(data[0]) : []`, as a set of column names. */
  function FirstRowColumns(data: seq<Row>): (r: set<string>)
    ensures data != [] ==> r == data[0].Keys
    ensures data == [] ==> r == {}
  {
    if data == [] then {} else data[0].Keys
  }
}
