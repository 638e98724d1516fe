# Pivot-table explorer: filter engine and configuration store

This project models the client-side logic of a browser pivot-table explorer and
proves properties of that model. A user loads rows from a CSV, Excel or JSON
file, lays them out in a third-party pivot-table widget, narrows them with
per-column filters, and saves or restores widget configurations.

The model covers three near-duplicate scripts and one utility file.

- `frontend/js/app.js`, the most developed script, in module `FrontendApp`. Its
  class `App` holds the script's globals: `currentData`, `pivotConfig`,
  `activeFilters`, `savedConfigurations`, `configCounter`, `isLoadingConfig`,
  and what the output area shows.
- `frontend/js/app_2.js`, an older variant, in module `FrontendApp2`. Its range
  filters also record a `mode`.
- `js/app.js`, the first version, in module `BasicApp`. It has no filters and
  saves configurations to a downloaded file.
- `Utils` in `frontend/js/config.js`, in module `Utils`: `getFileExtension`,
  `validateFile`, `formatNumber`.

The pieces the scripts share are separate modules.

- `Filters` is the filter engine: `applyAllFilters`, the range-filter
  construction of `applyFilter`, the checkbox updates of
  `updateCategoricalFilter`, and select-all / deselect-all.
- `ColumnAnalysis` is `analyzeColumn`, which decides between a numeric (range)
  filter and a categorical (checkbox) filter.
- `Upload` covers choosing a loader by file name, trimming CSV header keys in
  place, and wrapping a parsed JSON value into rows.
- `JsValues` and `JsText` model the JavaScript conversions the code relies on:
  `String(v)`, `parseFloat`, `isNaN`, `trim`, `toLowerCase`, `lastIndexOf`, and
  the decimal text of a number.
- `Seqs` models `indexOf`, `splice(i, 1)` and `[...new Set(values)]`.
- `PivotWidget` models the widget's configuration object and the output area.
- `Wrappers` holds the `Option` type. `Option` also stands for `NaN`, for a
  thrown error and for a missing value.

State that the scripts update in place is modelled as fields of a class,
changed by methods with `modifies` clauses. The in-place header cleaning works
on an `array` of rows. Pure logic is modelled as functions with lemmas about
them. The row filter and the per-row test are loops in the source, so they are
methods (`Filters.ApplyAllFilters`, `Filters.RowPasses`) proved against the
function `Filters.Filtered`. The checkbox loop of select-all and the header
trimming loop are methods as well.

Where the repository's documentation and its code disagree, the model follows
the code.

- **Loading data keeps the filters.** Every loader calls
  `renderPivotTable(data)` with the default `preserveConfig = true`, so loading
  new data does not clear `activeFilters`. The new data is drawn unfiltered
  (`renderPivotTableWithData(data)`), not re-filtered.
- **The save guard.** `saveConfiguration` refuses only when `pivotConfig` has
  no keys. It does not check whether any field is selected.
- **Clearing one filter.** `clearFilter` (`delete activeFilters[col]`) does not
  fail when the column has no filter.

## Model

| member | source | states |
|---|---|---|
| Seqs.IndexOf | frontend/js/app.js:444 | `indexOf` is -1 exactly when the value is absent; otherwise it is the first index holding the value |
| Seqs.RemoveAt | frontend/js/app.js:446 | `splice(i, 1)` removes exactly one occurrence of the element at `i`, as a multiset, and shortens the list by one |
| Seqs.RemoveAtNoDup | frontend/js/app.js:444-447 | removing an element from a duplicate-free list removes that value entirely and keeps the list duplicate-free |
| Seqs.Dedup | frontend/js/app.js:298 | `[...new Set(values)]` is duplicate-free, holds every input value and nothing else, and is no longer than the input |
| Seqs.DedupOfNoDup | frontend/js/app.js:298 | deduplicating a duplicate-free list returns it unchanged |
| JsText.TrimStart | frontend/js/app.js:235 | the result is a suffix of the input; everything dropped is whitespace; it does not start with whitespace |
| JsText.TrimEnd | frontend/js/app.js:235 | the result is a prefix of the input; everything dropped is whitespace; it does not end with whitespace |
| JsText.TrimIdempotent | frontend/js/app.js:235-239 | trimming a trimmed key changes nothing, so a renamed key is never renamed again |
| JsText.ToLower | frontend/js/app.js:204 | `toLowerCase` keeps the length |
| JsText.LowerAt | frontend/js/app.js:204 | `toLowerCase` lowers each character in place |
| JsText.LastIndexOf | frontend/js/config.js:74 | `lastIndexOf(".")` is -1 or an index that holds a dot |
| JsText.LastIndexOfSpec | frontend/js/config.js:74 | `lastIndexOf` is -1 exactly when there is no dot, and no later index holds a dot |
| JsText.NatToString | frontend/js/config.js:64 | the decimal text of a natural number is a non-empty run of digits with no leading zero (except for 0 itself) that reads back as the number |
| JsText.NatToStringInjective | frontend/js/app.js:769 | different numbers have different decimal texts |
| JsValues.DigitPrefix | frontend/js/app.js:473-474 | `parseFloat` reads the longest leading run of digits, all of it and no more |
| JsValues.ParseDigits | frontend/js/app.js:473-474 | `parseFloat` of a run of digits is its value |
| JsValues.ParseMinusDigits | frontend/js/app.js:473-474 | `parseFloat` of a minus sign and digits is the negated value |
| JsValues.ParseNatText | frontend/js/app.js:517 | `parseFloat(String(n))` is `n` for a natural number |
| JsValues.WholeToString | frontend/js/app.js:512 | `String(m)` of a whole number has no fraction part |
| JsValues.IntegerToString | frontend/js/app.js:512 | `String(k)` of an integer is a minus sign for a negative one, then the digits of its magnitude |
| JsValues.ParseIntegerRoundTrip | frontend/js/app.js:512-518 | for every integer cell, the text a categorical filter compares and the number a range filter compares agree: `parseFloat(String(k)) == k` |
| JsValues.ToStr | frontend/js/app.js:513 | `String(v)`: text as it is, a number as its decimal text, `true`/`false`, `null`, `undefined`; its properties are stated by `IntegerToString` and `WholeToString` |
| JsValues.ParseFloatText | frontend/js/app.js:473-474 | `parseFloat` on text: leading whitespace skipped, an optional sign, then the digits and fraction that follow; `None` (`NaN`) without a digit; stated by `ParseDigits` and `ParseMinusDigits` |
| JsValues.ParseNum | frontend/js/app.js:517 | `parseFloat(value)` on a cell: a number is itself, text is parsed, booleans, `null` and `undefined` are `NaN` |
| JsValues.IsNumberLike | frontend/js/app.js:302 | `!isNaN(val)`: blank text, decimal literals, numbers, booleans and `null` convert to a number; `undefined` and other text do not |
| Filters.Kept | frontend/js/app.js:508-529 | the indices of the passing rows: in range, strictly increasing, and an index is present exactly when its row passes every filter |
| Filters.FilteredSelectsPassing | frontend/js/app.js:503-530 | `applyAllFilters` returns an order-preserving subsequence: its `k`-th row is the row at the `k`-th passing index |
| Filters.RowPasses | frontend/js/app.js:508-528 | the per-row test walks the filtered columns, stops at the first failure, and returns true exactly when the row passes every filter |
| Filters.ApplyAllFilters | frontend/js/app.js:503-530 | the method returns the input itself with no filter, otherwise the passing rows in order; it equals the specification function `Filtered` |
| Filters.PassesFilter | frontend/js/app.js:510-526 | one column's test: a categorical filter rejects an excluded `String(value)`; a range filter rejects only a parsed value outside a defined bound; stated both ways by `CategoricalSemantics` and `RangeSemantics` |
| Filters.Filtered | frontend/js/app.js:503-530 | the specification of `applyAllFilters`: the rows that pass every filter, in order; never longer than the input; characterised independently by `Kept` and `FilteredSelectsPassing` |
| Filters.NoFiltersKeepAll | frontend/js/app.js:504-506 | with no active filter the data comes back unchanged |
| Filters.FilteredMembership | frontend/js/app.js:508-529 | a row is in the result exactly when it is in the input and passes every active filter; one failing column rejects it |
| Filters.FilteredMultiplicity | frontend/js/app.js:508-529 | a kept row keeps its multiplicity and a rejected row disappears, so the result is a sub-multiset of the input |
| Filters.FilteredIdempotent | frontend/js/app.js:503-530 | filtering a filtered result again changes nothing |
| Filters.FilteredCompose | frontend/js/app.js:509 | filters on different columns combine as successive filtering, because the AND over columns is order-independent |
| Filters.ClearFilterRestores | frontend/js/app.js:493-495 | the rows shown with a column's filter are the rows shown without it that also pass it, so clearing a filter only brings rows back |
| Filters.CategoricalSemantics | frontend/js/app.js:512-515 | under a categorical filter a row is rejected exactly when `String(row[col])` is an excluded value |
| Filters.EmptyExclusionKeepsAll | frontend/js/app.js:512-515 | an empty excluded list rejects nothing: the result equals the result without that filter |
| Filters.AllPassKeepAll | frontend/js/app.js:508-529 | rows that all pass come back unchanged |
| Filters.RangeSemantics | frontend/js/app.js:517-525 | a value that does not parse is never rejected; a parsed value is rejected exactly when it is below a defined `min` or above a defined `max` |
| Filters.RangeFilter | frontend/js/app.js:473-481 | a range filter is produced exactly when one bound parses; each bound is the parsed input or undefined for `NaN` |
| Filters.RangeMode | frontend/js/app_2.js:551 | the stored mode is never empty: the checked radio's value, or `'between'` when no radio is checked or its value is empty |
| Filters.CheckValue | frontend/js/app.js:443-447 | a checked box removes the first occurrence of its value from the excluded list, if any; stated by `CheckValueSpec` |
| Filters.UncheckValue | frontend/js/app.js:448-451 | an unchecked box appends its value unless the list already holds it; stated by `UncheckValueSpec` |
| Filters.Toggle | frontend/js/app.js:443-452 | the excluded list after one checkbox change; stated by `ToggleSpec` and `ToggleOthers` |
| Filters.CheckValueSpec | frontend/js/app.js:443-447 | checking a box removes one occurrence of the value and nothing else; from a duplicate-free list it removes the value entirely |
| Filters.UncheckValueSpec | frontend/js/app.js:448-451 | unchecking adds the value once, unless the list already holds it, and keeps a duplicate-free list duplicate-free |
| Filters.ToggleSpec | frontend/js/app.js:443-452 | after a checkbox change the value is excluded exactly when the box is unchecked, and the list stays duplicate-free |
| Filters.ToggleOthers | frontend/js/app.js:443-452 | a checkbox change leaves every other value's exclusion as it was |
| Filters.UpdateCategorical | frontend/js/app.js:435-453 | `updateCategoricalFilter` throws (`None`) exactly when the column holds a range filter, which has no excluded list |
| Filters.UpdateCategoricalFrame | frontend/js/app.js:436-441 | otherwise the column gets the toggled list (an empty list when it had no filter), and every other column keeps its filter |
| Filters.UpdateCategoricalEffect | frontend/js/app.js:435-453 | on duplicate-free filters: checked means not excluded, unchecked means excluded, other values and columns keep their state, and all lists stay duplicate-free |
| Filters.SetAll | frontend/js/app.js:455-469 | select-all or deselect-all over a column holding a range filter, or over no boxes, changes nothing |
| Filters.SetAllFrame | frontend/js/app.js:455-469 | select-all and deselect-all touch no other column, and leave the column categorical unless it holds a range filter |
| Filters.SetAllEffect | frontend/js/app.js:455-469 | after select-all no listed value is excluded; after deselect-all every listed value is; unlisted values keep their state; lists stay duplicate-free |
| ColumnAnalysis.ColumnValues | frontend/js/app.js:297 | the column's values are all present: not `null`, `undefined` or `''` |
| ColumnAnalysis.NumericValues | frontend/js/app.js:302 | every numeric value passes `!isNaN` and is one of the column's values |
| ColumnAnalysis.IsNumericValue | frontend/js/app.js:302 | `!isNaN(val) && val !== ''`: the values counted as numbers |
| ColumnAnalysis.ParseAll | frontend/js/app.js:313 | the parsed numbers line up with the numeric values, or some value does not parse (`NaN`) |
| ColumnAnalysis.MostlyNumeric | frontend/js/app.js:303 | `numericValues.length > values.length * 0.8`, compared exactly as `5n > 4t`; stated on cells by `NumericThreshold` |
| ColumnAnalysis.MinOf | frontend/js/app.js:314 | `Math.min` is one of the numbers and bounds all of them from below |
| ColumnAnalysis.MaxOf | frontend/js/app.js:315 | `Math.max` is one of the numbers and bounds all of them from above |
| ColumnAnalysis.AnalyzeColumn | frontend/js/app.js:294-323 | the analysis is named after the column; `totalValues` is the number of present cells; the column is numeric exactly when its present numeric cells are strictly more than 4/5 of its present cells, and has bounds exactly when numeric |
| ColumnAnalysis.ColumnValuesComplete | frontend/js/app_2.js:357 | a value is among the column's values exactly when it is present and some row holds it |
| ColumnAnalysis.ColumnValuesCount | frontend/js/app.js:297 | `values.length` is the number of rows whose cell is present, and each present value occurs in `values` once per row that holds it |
| ColumnAnalysis.NumericValuesCount | frontend/js/app.js:302 | `numericValues` keeps each value that is not `NaN` and not `''` as often as it occurs in `values`, and drops every other value |
| ColumnAnalysis.NumericValuesSnoc | frontend/js/app.js:302 | filtering one more value for numbers appends it exactly when it is numeric |
| ColumnAnalysis.NumericValuesCells | frontend/js/app.js:297-302 | `numericValues.length` is the number of rows whose cell is present and numeric |
| ColumnAnalysis.CellsStep | frontend/js/app.js:297 | one more row adds one to a cell count exactly when its cell matches |
| ColumnAnalysis.AnalysisCounts | frontend/js/app_2.js:357-358 | `totalValues` is the number of rows whose cell in the column is present; `uniqueValues` holds, once each, exactly the present values some row holds |
| ColumnAnalysis.NumericThreshold | frontend/js/app_2.js:361-362 | a column is numeric exactly when its present numeric cells are strictly more than 4/5 of its present cells; exactly 4/5 is categorical; a column with no present cell is never numeric |
| ColumnAnalysis.NumericBounds | frontend/js/app_2.js:371-375 | a numeric column has numeric values; when they all parse, `min` and `max` are values of the column bounding every one; when one does not, both are `NaN` |
| ColumnAnalysis.ParsedBounds | frontend/js/app.js:312-315 | the smallest and largest parsed numbers are parsed values that bound all of them, or some value does not parse |
| PivotWidget.FirstRowColumns | frontend/js/app.js:777 | the saved column list is the first row's keys, or empty without data |
| Upload.Decide | js/app.js:133-152 | no file does nothing; `.csv` goes to the CSV loader; `.xlsx` or `.xls` to Excel; `.json` to JSON; anything else is rejected, all on the lower-cased name |
| Upload.DecideSupported | frontend/js/app.js:199-218 | a name is given to a loader exactly when it ends in one of the four suffixes, and every `.json` name goes to the JSON loader |
| Upload.HeadersTrimmedKeepsValues | js/app.js:167-175 | a column whose trimmed name no other column shares keeps its value under the trimmed name |
| Upload.HeadersTrimmed | js/app.js:167-175 | the relation between a row and its cleaned copy: every key is its own trim, every original key's trim is a key, and each value comes from an original key with that trim |
| Upload.RenameKeyProgress | frontend/js/app.js:234-240 | visiting one key keeps the loop invariant of the header cleaning, for any normalisation that is its own normal form |
| Upload.TrimRowKeys | frontend/js/app.js:234-240 | after cleaning a row every key is its own trim, every original key's trim is a key, and each value comes from an original key with that trim |
| Upload.CleanHeaders | frontend/js/app_2.js:168-176 | every row of the parsed array has its header keys cleaned in place |
| Upload.WrapJson | js/app.js:217 | a parsed array is used as it is; any other value becomes a one-element list |
| Utils.FileExtensionEmpty | frontend/js/config.js:74 | with no dot, or with the only dot at index 0, `getFileExtension` returns `""` because the unsigned shift wraps the start index past the end |
| Utils.GetFileExtension | frontend/js/config.js:73-75 | `getFileExtension`: the lower-cased text sliced from the wrapped start index; stated by `FileExtensionEmpty` and `FileExtensionAfterLastDot` |
| Utils.FileExtensionAfterLastDot | frontend/js/config.js:74 | otherwise it returns the text after the last dot, lower-cased character by character, holding no dot; `""` for a name ending in a dot |
| Utils.AfterLastDot | frontend/js/config.js:74 | the text after the last dot holds no dot |
| Utils.LowerKeepsDots | frontend/js/config.js:74 | lower-casing neither adds nor removes a dot |
| Utils.ValidateFileSpec | frontend/js/config.js:78-91 | a file is valid exactly when its extension is supported and it is at most 50 MiB; an unsupported type is reported whatever the size; an oversize file gets "File too large (max 50MB)" |
| Utils.ValidateFile | frontend/js/config.js:78-91 | `validateFile`: the type is checked before the size, with the two error messages; stated by `ValidateFileSpec` |
| Utils.InsertCommas | frontend/js/config.js:64 | the commas the thousands-separator regular expression inserts into a run of digits; stated by `InsertCommasLength`, `InsertCommasGrouped` and `InsertCommasStrip` |
| Utils.FormatNumber | frontend/js/config.js:63-65 | `formatNumber` for a natural number; stated by `FormatNumberSpec` |
| Utils.InsertCommasLength | frontend/js/config.js:64 | a number of `k` digits gets one comma per full group of three after its first digit |
| Utils.InsertCommasGrouped | frontend/js/config.js:64 | the separated text has one to three leading digits and then groups of a comma and exactly three digits |
| Utils.InsertCommasStrip | frontend/js/config.js:64 | removing the commas gives back the digits |
| Utils.StripCommasAppend | frontend/js/config.js:64 | removing commas distributes over concatenation |
| Utils.FormatNumberSpec | frontend/js/config.js:63-65 | `formatNumber(n)` for a natural number is grouped in thousands, and without its commas it is `n.toString()` |
| FrontendApp.ConfigName | frontend/js/app.js:769 | a saved name is `Config-` followed by the counter's decimal text |
| FrontendApp.ConfigNameInjective | frontend/js/app.js:769 | different counters give different names |
| FrontendApp.NextName | frontend/js/app.js:769-781 | the next name is not yet in use, and saving under it adds exactly that name |
| FrontendApp.IsTap | frontend/js/app.js:676-690 | a touch opens the filter when it lasted under 500 ms and moved less than 10 px; stated against the square-root test by `TapDistance` |
| FrontendApp.TapDistance | frontend/js/app.js:678-690 | the squared integer test is the same as `duration < 500 && sqrt(dx² + dy²) < 10` |
| FrontendApp.App.constructor | frontend/js/app.js:1-12 | the globals start empty, with the counter at 1 and no load in progress |
| FrontendApp.App.RenderPivotTable | frontend/js/app.js:604-614 | the data becomes current and is drawn unfiltered with the current configuration; filters survive unless `preserveConfig` is false |
| FrontendApp.App.LoadRows | frontend/js/app.js:244 | the loaders' success path keeps the active filters and the configuration |
| FrontendApp.App.LoadCsv | frontend/js/app.js:221-253 | parsed CSV rows are loaded with their header keys cleaned; a parse error changes nothing |
| FrontendApp.App.LoadExcel | frontend/js/app.js:255-273 | the first sheet's rows are loaded as they are; a parse error changes nothing |
| FrontendApp.App.LoadJson | frontend/js/app.js:276-291 | a parsed JSON value is loaded wrapped into rows; a parse error changes nothing |
| FrontendApp.App.OnRefresh | frontend/js/app.js:563-570 | the widget's configuration replaces `pivotConfig` unless a saved configuration is being loaded |
| FrontendApp.App.ActivateFilter | frontend/js/app.js:634-658 | a filter opens exactly when the label is not being dragged, the name is non-empty, data is loaded and the first row has that column; it shows that column's analysis |
| FrontendApp.App.UpdateCategoricalFilter | frontend/js/app.js:435-453 | the method's new filters are `UpdateCategorical` of the old ones, or unchanged when it throws |
| FrontendApp.App.SetCheckboxes | frontend/js/app.js:455-469 | the checkbox loop leaves the filters at `SetAll` of the old ones, stopping at the first throw |
| FrontendApp.App.SelectAllValues | frontend/js/app.js:455-461 | select-all sets the filters to `SetAll(old, col, values, true)` |
| FrontendApp.App.DeselectAllValues | frontend/js/app.js:463-469 | deselect-all sets the filters to `SetAll(old, col, values, false)` |
| FrontendApp.App.ApplyFilter | frontend/js/app.js:471-491 | a numeric column gets the range filter when one bound parses; the view is then the current data filtered by the new filters |
| FrontendApp.App.ClearFilter | frontend/js/app.js:493-501 | exactly that column's filter is deleted, with no error when it had none, and the view is redrawn under the remaining filters |
| FrontendApp.App.ResetPivot | frontend/js/app.js:746-760 | configuration and filters are emptied and the placeholder is shown; the data stays loaded |
| FrontendApp.App.Snapshot | frontend/js/app.js:769-778 | the stored snapshot copies the configuration and filters and records the data's size and first-row columns |
| FrontendApp.App.SaveConfiguration | frontend/js/app.js:763-790 | no-op while `pivotConfig` has no keys; otherwise the snapshot is stored under the unused name `Config-<counter>` and the counter grows by exactly one |
| FrontendApp.App.SelectConfiguration | frontend/js/app.js:867-910 | an unknown name changes nothing; otherwise the saved configuration and filters become current; the load flag stays raised while the filtered data is redrawn, or drops at once without data |
| FrontendApp.App.ConfigLoadSettled | frontend/js/app.js:896-898 | the timer ends the load, changing nothing else |
| FrontendApp.App.ClearAllConfigurations | frontend/js/app.js:912-919 | the store is emptied and numbering restarts at 1 |
| FrontendApp.App.SaveThenSelect | frontend/js/app.js:567-569 | save, reset, then select the saved name restores the configuration and filters, and a refresh during the load does not overwrite them |
| FrontendApp2.App.constructor | frontend/js/app_2.js:4-6 | the globals start empty |
| FrontendApp2.App.RenderPivotTable | frontend/js/app_2.js:231-293 | the data becomes current and is drawn with the current configuration; filters are kept |
| FrontendApp2.App.LoadCsv | frontend/js/app_2.js:156-188 | parsed CSV rows are loaded with their header keys cleaned |
| FrontendApp2.App.LoadExcel | frontend/js/app_2.js:190-211 | the first sheet's rows are loaded as they are |
| FrontendApp2.App.LoadJson | frontend/js/app_2.js:213-229 | a parsed JSON value is loaded wrapped into rows |
| FrontendApp2.App.OnRefresh | frontend/js/app_2.js:266-268 | the widget's configuration always replaces `pivotConfig`; there is no suppression flag |
| FrontendApp2.App.UpdateCategoricalFilter | frontend/js/app_2.js:505-525 | the new filters are `UpdateCategorical` of the old ones, or unchanged when it throws |
| FrontendApp2.App.SetCheckboxes | frontend/js/app_2.js:528-543 | the checkbox loop leaves the filters at `SetAll` of the old ones |
| FrontendApp2.App.SelectAllValues | frontend/js/app_2.js:528-534 | select-all sets the filters to `SetAll(old, col, values, true)` |
| FrontendApp2.App.DeselectAllValues | frontend/js/app_2.js:537-543 | deselect-all sets the filters to `SetAll(old, col, values, false)` |
| FrontendApp2.App.ApplyFilter | frontend/js/app_2.js:546-570 | a numeric column gets `{min, max, mode}` with the mode defaulting to `'between'` when one bound parses; the view is not redrawn |
| FrontendApp2.App.ClearFilter | frontend/js/app_2.js:573-581 | exactly that column's key is removed and every other column keeps its filter; the view is not redrawn |
| FrontendApp2.MinimumTen | frontend/js/app_2.js:548-558 | a minimum of `10`, no maximum and no checked mode store the range `{min: 10, max: undefined, mode: 'between'}` |
| FrontendApp2.MinimumTenRejectsFive | frontend/js/app.js:517-525 | that range filter rejects a row whose `Sales` is 5 |
| FrontendApp2.FilterNotShown | frontend/js/app_2.js:563-564 | after applying that filter the table still shows the rejected row |
| BasicApp.Encode | js/app.js:325-333 | the downloaded file's parsed form carries the saved `pivotConfig` |
| BasicApp.LoadedConfig | js/app.js:358-359 | an unreadable file leaves the configuration alone; a file without `pivotConfig` gives `{}` |
| BasicApp.App.constructor | js/app.js:4-5 | the globals start empty |
| BasicApp.App.RenderPivotTable | js/app.js:230-282 | the data becomes current and is drawn with the current configuration |
| BasicApp.App.LoadCsv | js/app.js:155-187 | parsed CSV rows are loaded with their header keys cleaned |
| BasicApp.App.LoadExcel | js/app.js:189-210 | the first sheet's rows are loaded as they are |
| BasicApp.App.LoadJson | js/app.js:212-228 | a parsed JSON value is loaded wrapped into rows |
| BasicApp.App.OnRefresh | js/app.js:265-268 | the widget's configuration always replaces `pivotConfig` |
| BasicApp.App.ResetPivot | js/app.js:303-316 | the configuration is emptied and the placeholder is shown; the data stays loaded |
| BasicApp.App.SaveConfiguration | js/app.js:319-344 | no file while `pivotConfig` has no keys; otherwise the file holds the configuration, the time, the record count and the first row's columns |
| BasicApp.App.LoadConfiguration | js/app.js:347-377 | a readable file's configuration, or `{}`, becomes current and is redrawn only when data is loaded; no file or an unreadable one changes nothing |
| BasicApp.App.SaveResetLoad | js/app.js:303-377 | save, reset, then load the saved file restores the configuration and draws the data with it |

## Findings

| source | as written | input that shows it | evidently intended | confidence | as-written member | corrected member |
|---|---|---|---|---|---|---|
| frontend/js/app_2.js:563-564 | `applyFilter` and `clearFilter` call `applyAllFilters` and `renderPivotTableWithData`, which the script never defines. They throw a `ReferenceError` after `activeFilters` is updated, so the table is never redrawn with the filter. | One row with `Sales` 5 is shown, then a range filter with minimum `10` is applied: the stored filter rejects the row, yet the table still shows it. | Redraw the current data filtered by the updated filters, as `frontend/js/app.js:484-485` does. | high; not executed | FrontendApp2.FilterNotShown | FrontendApp.App.ApplyFilter |

## Left out

- Rendering is not modelled: the DOM, the dropdown and selector markup, toasts, logging, sticky headers and the info panel. The output area is the value `Display`: a placeholder, or a pivot view over given rows and a configuration.
- The pivot widget (`pivotUI`, renderers, aggregators) and the `$.extend` merge of its options are not modelled. `PivotConfig` is a map of opaque settings that the scripts only copy.
- `JSON.parse(JSON.stringify(...))` is modelled as an exact copy. Function-valued widget options, which that round trip drops, are kept.
- File reading and parsing (`FileReader`, `$.csv.toObjects`, `XLSX`, `JSON.parse`) enter as their outputs. A loader receives `Option` of parsed rows or a parsed JSON document; `None` is a parse error. A parsed JSON value that is neither an array nor an object is not represented.
- The network paths are left out: `loadFromServer`, `executeBackendQuery`, `checkServerConnection`. So are the sample data (`generateSampleData` uses `Math.random`) and the backend and proxy servers.
- Timers and their delays are left out: `setTimeout`, `justRefreshed`, `refreshTimeout`, `Utils.debounce`, the resize handler and the keyboard shortcuts. The delayed end of a configuration load is the explicit step `FrontendApp.App.ConfigLoadSettled`.
- Floating point is approximated.
  - Numbers are `real`. The average in `analyzeColumn` is not computed.
  - `String(x)` writes at most 20 fraction digits and never uses exponent notation.
  - `parseFloat` reads decimal digits only: no exponents and no `Infinity`.
- Text handling is simplified.
  - `toLowerCase` lowers only ASCII letters.
  - The glyph stripping of the field label in `activateFilter` is not modelled: the column name is given.
  - Object key order is not modelled: header keys are visited in an unspecified order, and only order-independent facts are proved.
- Utils.FormatNumber: covers non-negative integers below 10^21 only. On decimals and negatives the regular expression also groups fraction digits. From 10^21 on, `toString()` switches to exponent notation, and above 2^53 the digits are those of the nearest double, not of the exact integer.
- JsText.NatToString: exact decimal text of any natural number. `Number.prototype.toString` agrees only below 10^21 and, above 2^53, only for integers a double represents exactly.
- Utils.GetFileExtension: exact only for names shorter than 2^32 characters. The unsigned shift is modelled on unbounded integers.
- FrontendApp.App.SelectConfiguration: the log line before the redraw reads `pivotConfig.rows.join`. The model assumes a saved configuration has `rows`, `cols` and `vals` lists, as the widget always reports them.
- FrontendApp.App.RenderPivotTable: draws at once, and so does `FrontendApp.App.SelectConfiguration`. In the source the redraw waits for a timer.
- BasicApp.App.SaveConfiguration: the Blob download is left out. The method returns the file's content.
- BasicApp.App.LoadConfiguration: the file picker is left out. The method receives the chosen file's parsed content, or `None` when no file was chosen.
- JsValues.IsNumberLike: `isNaN` converts with `Number()`, which also accepts exponent notation (`"1e3"`), `"Infinity"`, and hexadecimal, octal and binary literals (`"0x1F"`, `"0o7"`, `"0b1"`). The model treats such text as not numeric, so a column made mostly of such text is categorical in the model but numeric in the source.
- JsValues.Value: a cell holds text, a number, a boolean, `null` or `undefined`. A JSON upload can also put arrays or objects in cells. The source still applies `String(v)` (`"1,2"`, `"[object Object]"`) and `isNaN` to those; the model cannot represent them.
- BasicApp.LoadedConfig: `config.pivotConfig || {}` hands any truthy value to the widget, including a number or a string. `ConfigJson` represents only an object, a missing or falsy property, or unreadable text, so that case is not modelled.
