/**
 * `analyzeColumn`: the summary of one column that decides whether the filter
 * dropdown offers a range filter (numeric column) or a list of checkboxes.
 */
module ColumnAnalysis {
  import opened Wrappers
  import opened JsValues
  import opened Seqs

  /** `val != null && val !== ''`: the cells that count as values. */
  predicate Present(v: Value) {
    v != Null && v != Undefined && v != Str("")
  }

  /** `data.map(row => row[col]).filter(...)`: the column's present values in row order. */
  function ColumnValues(data: seq<Row>, col: string): (r: seq<Value>)
    ensures |r| <= |data|
    ensures forall i :: 0 <= i < |r| ==> Present(r[i])
  {
    if data == [] then []
    else
      var v := Lookup(data[|data| - 1], col);
      ColumnValues(data[..|data| - 1], col) + (if Present(v) then [v] else [])
  }

  /** `!isNaN(val) && val !== ''`: the values `analyzeColumn` counts as numbers. */
  predicate IsNumericValue(v: Value) {
    IsNumberLike(v) && v != Str("")
  }

  /** `values.filter(val => !isNaN(val) && val !== '')`. */
  function NumericValues(values: seq<Value>): (r: seq<Value>)
    ensures |r| <= |values|
    ensures forall i :: 0 <= i < |r| ==> IsNumberLike(r[i]) && r[i] in values
  {
    if values == [] then []
    else
      var init := NumericValues(values[..|values| - 1]);
      var v := values[|values| - 1];
      assert forall x :: x in values[..|values| - 1] ==> x in values;
      init + (if IsNumericValue(v) then [v] else [])
  }

  /** The indices of the rows whose cell in `col` satisfies `p`: an independent
      account of which cells `analyzeColumn` counts. */
  ghost function Cells(data: seq<Row>, col: string, p: Value -> bool): set<nat> {
    set i: nat | i < |data| && p(Lookup(data[i], col))
  }

  /** A cell that is present and counts as a number. */
  predicate NumericCell(v: Value) {
    Present(v) && IsNumericValue(v)
  }

  /** Adding a row adds its index to the matching cells exactly when its cell matches. */
  lemma CellsStep(data: seq<Row>, col: string, p: Value -> bool)
    requires |data| > 0
    ensures var n := |data| - 1;
      |Cells(data, col, p)| == |Cells(data[..n], col, p)| + (if p(Lookup(data[n], col)) then 1 else 0)
  {
    var n := |data| - 1;
    var init := data[..n];
    var s := Cells(init, col, p);
    assert n !in s;
    forall i: nat | i < n
      ensures data[i] == init[i]
    {
    }
    if p(Lookup(data[n], col)) {
      assert Cells(data, col, p) == s + {n};
    } else {
      assert Cells(data, col, p) == s;
    }
  }

  /** `values.length` is the number of present cells of the column, and each value
      occurs among `values` once per row that holds it. */
  lemma {:induction false} ColumnValuesCount(data: seq<Row>, col: string)
    ensures |ColumnValues(data, col)| == |Cells(data, col, Present)|
    ensures forall v :: multiset(ColumnValues(data, col))[v] ==
                        (if Present(v) then |Cells(data, col, x => x == v)| else 0)
  {
    if data != [] {
      var n := |data| - 1;
      var init := data[..n];
      var last := Lookup(data[n], col);
      ColumnValuesCount(init, col);
      CellsStep(data, col, Present);
      forall v
        ensures multiset(ColumnValues(data, col))[v] ==
          (if Present(v) then |Cells(data, col, x => x == v)| else 0)
      {
        CellsStep(data, col, x => x == v);
      }
    }
  }

  /** `numericValues` keeps every numeric value as often as it occurs and drops
      every other value. */
  lemma {:induction false} NumericValuesCount(values: seq<Value>)
    ensures forall v :: multiset(NumericValues(values))[v] ==
                        (if IsNumericValue(v) then multiset(values)[v] else 0)
  {
    if values != [] {
      var init := values[..|values| - 1];
      NumericValuesCount(init);
      assert values == init + [values[|values| - 1]];
    }
  }

  /** Filtering one more value for numbers adds it exactly when it is numeric. */
  lemma NumericValuesSnoc(values: seq<Value>, v: Value)
    ensures NumericValues(values + [v]) == NumericValues(values) + (if IsNumericValue(v) then [v] else [])
  {
    assert (values + [v])[..|values|] == values;
  }

  /** `numericValues.length` is the number of cells of the column that are present
      and count as numbers. */
  lemma {:induction false} NumericValuesCells(data: seq<Row>, col: string)
    ensures |NumericValues(ColumnValues(data, col))| == |Cells(data, col, NumericCell)|
  {
    if data != [] {
      var n := |data| - 1;
      var init := data[..n];
      var last := Lookup(data[n], col);
      var front := ColumnValues(init, col);
      NumericValuesCells(init, col);
      CellsStep(data, col, NumericCell);
      if Present(last) {
        assert ColumnValues(data, col) == front + [last];
        NumericValuesSnoc(front, last);
      } else {
        assert ColumnValues(data, col) == front;
      }
    }
  }

  /** `numericValues.length > values.length * 0.8`. The product of a count and the
      double nearest 0.8 rounds to `4n/5` whenever that is a whole number, so the
      comparison is the exact rational one. */
  predicate MostlyNumeric(numeric: nat, total: nat) {
    5 * numeric > 4 * total
  }

  /** `numericValues.map(val => parseFloat(val))`, or `None` when one of them is
      `NaN` (a blank text, a boolean): then `Math.min` and `Math.max` are `NaN` too. */
  function ParseAll(values: seq<Value>): (r: Option<seq<real>>)
    ensures r.Some? ==> |r.value| == |values|
    ensures r.Some? ==> forall i :: 0 <= i < |values| ==> ParseNum(values[i]) == Some(r.value[i])
    ensures r.None? ==> exists i :: 0 <= i < |values| && ParseNum(values[i]).None?
  {
    if values == [] then Some([])
    else
      match (ParseAll(values[..|values| - 1]), ParseNum(values[|values| - 1]))
      case (Some(xs), Some(x)) => Some(xs + [x])
      case (None, _) => None
      case (_, None) => None
  }

  /** `Math.min(...xs)` for a non-empty list. */
  function MinOf(xs: seq<real>): (r: real)
    requires |xs| > 0
    ensures r in xs && forall i :: 0 <= i < |xs| ==> r <= xs[i]
  {
    if |xs| == 1 then xs[0]
    else
      var m := MinOf(xs[..|xs| - 1]);
      assert xs == xs[..|xs| - 1] + [xs[|xs| - 1]];
      if xs[|xs| - 1] < m then xs[|xs| - 1] else m
  }

  /** `Math.max(...xs)` for a non-empty list. */
  function MaxOf(xs: seq<real>): (r: real)
    requires |xs| > 0
    ensures r in xs && forall i :: 0 <= i < |xs| ==> xs[i] <= r
  {
    if |xs| == 1 then xs[0]
    else
      var m := MaxOf(xs[..|xs| - 1]);
      assert xs == xs[..|xs| - 1] + [xs[|xs| - 1]];
      if xs[|xs| - 1] > m then xs[|xs| - 1] else m
  }

  /** `analysis.min` and `analysis.max` of a numeric column. */
  datatype Bounds = MinMax(min: real, max: real) | NotANumber

  /** The object `analyzeColumn` returns; `bounds` is `None` for a categorical column,
      whose analysis carries no `min` or `max`. */
  datatype Analysis = Analysis(
    name: string,
    isNumeric: bool,
    uniqueValues: seq<Value>,
    totalValues: nat,
    bounds: Option<Bounds>)

  /** `analyzeColumn(col, data)`: the column is numeric exactly when more than
      four fifths of its present cells are numeric, and only then has bounds. */
  function AnalyzeColumn(col: string, data: seq<Row>): (r: Analysis)
    ensures r.name == col
    ensures r.totalValues == |Cells(data, col, Present)|
    ensures r.isNumeric <==> 5 * |Cells(data, col, NumericCell)| > 4 * r.totalValues
    ensures r.isNumeric <==> r.bounds.Some?
  {
    ColumnValuesCount(data, col);
    NumericValuesCells(data, col);
    var values := ColumnValues(data, col);
    var numeric := NumericValues(values);
    var isNumeric := MostlyNumeric(|numeric|, |values|);
    var bounds :=
      if !isNumeric then None
      else
        match ParseAll(numeric)
        case Some(nums) => Some(MinMax(MinOf(nums), MaxOf(nums)))
        case None => Some(NotANumber);
    Analysis(col, isNumeric, Dedup(values), |values|, bounds)
  }

  /** A present value of a row shows up among the column's values, and a value is
      only there if some row holds it. */
  lemma {:induction false} ColumnValuesComplete(data: seq<Row>, col: string, v: Value)
    ensures v in ColumnValues(data, col) <==> Present(v) && exists i :: 0 <= i < |data| && Lookup(data[i], col) == v
  {
    if data != [] {
      var init := data[..|data| - 1];
      ColumnValuesComplete(init, col, v);
      if exists i :: 0 <= i < |data| && Lookup(data[i], col) == v {
        var i :| 0 <= i < |data| && Lookup(data[i], col) == v;
        if i < |init| {
          assert Lookup(init[i], col) == v;
        }
      }
      if exists i :: 0 <= i < |init| && Lookup(init[i], col) == v {
        var i :| 0 <= i < |init| && Lookup(init[i], col) == v;
        assert data[i] == init[i];
      }
    }
  }

  /** `totalValues` is the number of present cells of the column, and
      `uniqueValues` holds exactly the values some row holds, once each. */
  lemma AnalysisCounts(col: string, data: seq<Row>)
    ensures var a := AnalyzeColumn(col, data);
      && a.totalValues == |Cells(data, col, Present)|
      && NoDup(a.uniqueValues)
      && |a.uniqueValues| <= a.totalValues
      && (forall v :: v in a.uniqueValues <==>
            Present(v) && exists i :: 0 <= i < |data| && Lookup(data[i], col) == v)
  {
    var values := ColumnValues(data, col);
    var u := AnalyzeColumn(col, data).uniqueValues;
    ColumnValuesCount(data, col);
    forall v
      ensures v in u <==> Present(v) && exists i :: 0 <= i < |data| && Lookup(data[i], col) == v
    {
      ColumnValuesComplete(data, col, v);
      if v in values {
        var i :| 0 <= i < |values| && values[i] == v;
        assert values[i] in u;
      }
      if v in u {
        var i :| 0 <= i < |u| && u[i] == v;
        assert u[i] in values;
      }
    }
  }

  /** The 80% rule counts cells: a column is numeric exactly when its present
      numeric cells are more than four fifths of its present cells. The rule is
      strict, so exactly four fifths is categorical, and a column with no present
      cell is never numeric. */
  lemma NumericThreshold(col: string, data: seq<Row>)
    ensures var a := AnalyzeColumn(col, data);
      var numeric := |Cells(data, col, NumericCell)|;
      var total := |Cells(data, col, Present)|;
      && (a.isNumeric <==> 5 * numeric > 4 * total)
      && (5 * numeric == 4 * total ==> !a.isNumeric)
      && (total == 0 ==> !a.isNumeric)
  {
  }

  /** A numeric column has at least one numeric value, and when they all parse its
      `min` and `max` are values of the column that bound every numeric value. */
  lemma NumericBounds(col: string, data: seq<Row>)
    ensures var a := AnalyzeColumn(col, data);
      var numeric := NumericValues(ColumnValues(data, col));
      a.isNumeric ==>
        && |numeric| > 0
        && (a.bounds.value.MinMax? ==>
              && (exists i :: 0 <= i < |numeric| && ParseNum(numeric[i]) == Some(a.bounds.value.min))
              && (exists i :: 0 <= i < |numeric| && ParseNum(numeric[i]) == Some(a.bounds.value.max))
              && forall i :: 0 <= i < |numeric| ==>
                   a.bounds.value.min <= ParseNum(numeric[i]).value <= a.bounds.value.max)
        && (a.bounds.value.NotANumber? <==> exists i :: 0 <= i < |numeric| && ParseNum(numeric[i]).None?)
  {
    var values := ColumnValues(data, col);
    var numeric := NumericValues(values);
    var a := AnalyzeColumn(col, data);
    assert a.isNumeric == MostlyNumeric(|numeric|, |values|);
    if a.isNumeric {
      assert a.bounds == match ParseAll(numeric)
        case Some(nums) => Some(MinMax(MinOf(nums), MaxOf(nums)))
        case None => Some(NotANumber);
      ParsedBounds(numeric);
    }
  }

  /** When every numeric value parses, the smallest and the largest of the parsed
      numbers are parsed values that bound all of them; otherwise some value does
      not parse. */
  lemma ParsedBounds(numeric: seq<Value>)
    requires |numeric| > 0
    ensures ParseAll(numeric).Some? ==>
      var nums := ParseAll(numeric).value;
      && (exists i :: 0 <= i < |numeric| && ParseNum(numeric[i]) == Some(MinOf(nums)))
      && (exists i :: 0 <= i < |numeric| && ParseNum(numeric[i]) == Some(MaxOf(nums)))
      && forall i :: 0 <= i < |numeric| ==> MinOf(nums) <= ParseNum(numeric[i]).value <= MaxOf(nums)
    ensures ParseAll(numeric).None? <==> exists i :: 0 <= i < |numeric| && ParseNum(numeric[i]).None?
  {
    match ParseAll(numeric)
    case Some(nums) =>
      var lo := MinOf(nums);
      var hi := MaxOf(nums);
      var j :| 0 <= j < |nums| && nums[j] == lo;
      assert ParseNum(numeric[j]) == Some(lo);
      var k :| 0 <= k < |nums| && nums[k] == hi;
      assert ParseNum(numeric[k]) == Some(hi);
    case None =>
  }
}
