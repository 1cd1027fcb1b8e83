/**
 * The versioned column-value store and what one call of the direct bulk loader
 * does to it, as functions: cell type checks, the rows a call builds, stale
 * detection, close-out and insertion. Both historical variants of the loader
 * are defined here (`GerryLoad`, `CherryLoad`) so that their differences can be
 * stated side by side, together with `IntendedLoad`, the behaviour both were
 * evidently written to have, and the invariants it keeps.
 */
module ColumnValues {
  import opened Wrappers
  import opened Schema

  /** A UTC timestamp. */
  type Time = int

  /** A data frame cell as Python sees it. */
  datatype Scalar = PyBool(b: bool) | PyInt(i: int) | PyFloat(x: real) | PyStr(s: string) | PyOther

  /** `isinstance(v, int)`: a Python `bool` is an `int` too. */
  predicate IsInt(v: Scalar) { v.PyInt? || v.PyBool? }

  /** `float(v)` for an `int` (or `bool`) value. */
  function ToFloat(v: Scalar): (r: Scalar)
    requires IsInt(v)
    ensures r.PyFloat?
    ensures v.PyInt? ==> r.x == v.i as real
    ensures v.PyBool? ==> r.x == if v.b then 1.0 else 0.0
  {
    if v.PyInt? then PyFloat(v.i as real) else PyFloat(if v.b then 1.0 else 0.0)
  }

  /** The values a column of type `t` can hold. */
  predicate ValueFits(t: ColumnType, v: Scalar) {
    match t
    case FloatType => v.PyFloat?
    case IntType => IsInt(v)
    case StrType => v.PyStr?
    case BoolType => v.PyBool?
    case JsonType => true
  }

  // The suffix is a plain string literal, not an f-string, so the braces stay in the message.
  const Suffix: string := "column value for geography {geo.full_path}"
  const FloatMessage: string := "Expected integer or floating-point " + Suffix
  const IntMessage: string := "Expected integer " + Suffix
  const StrMessage: string := "Expected string " + Suffix
  const BoolMessage: string := "Expected boolean " + Suffix

  function MessageFor(t: ColumnType): string {
    match t
    case FloatType => FloatMessage
    case IntType => IntMessage
    case StrType => StrMessage
    case BoolType => BoolMessage
    case JsonType => ""
  }

  /** The value a cell is stored with, and the error it is flagged with, if any. */
  datatype CellCheck = CellCheck(value: Scalar, error: Option<string>)

  /**
   * The per-cell type check of `load_column_values`, as written: an int in a
   * FLOAT column is promoted, every other mismatch is flagged, and a BOOL
   * column flags exactly the values that ARE booleans.
   */
  function CheckCell(t: ColumnType, v: Scalar): (r: CellCheck)
    ensures t == FloatType && IsInt(v) ==> r == CellCheck(ToFloat(v), None)
    ensures !(t == FloatType && IsInt(v)) ==> r.value == v
    ensures t != BoolType ==> (r.error.None? <==> ValueFits(t, r.value))
    ensures t == BoolType ==> (r.error.None? <==> !ValueFits(t, r.value))
    ensures r.error.Some? ==> r.error.value == MessageFor(t)
  {
    if t == FloatType && IsInt(v) then CellCheck(ToFloat(v), None)
    else if t == FloatType && !v.PyFloat? then CellCheck(v, Some(FloatMessage))
    else if t == IntType && !IsInt(v) then CellCheck(v, Some(IntMessage))
    else if t == StrType && !v.PyStr? then CellCheck(v, Some(StrMessage))
    else if t == BoolType && v.PyBool? then CellCheck(v, Some(BoolMessage))
    else CellCheck(v, None)
  }

  /** The type check with the boolean test the right way round. */
  function IntendedCheckCell(t: ColumnType, v: Scalar): (r: CellCheck)
    ensures t == FloatType && IsInt(v) ==> r == CellCheck(ToFloat(v), None)
    ensures !(t == FloatType && IsInt(v)) ==> r.value == v
    ensures r.error.None? <==> ValueFits(t, r.value)
  {
    if t == BoolType then CellCheck(v, if v.PyBool? then None else Some(BoolMessage)) else CheckCell(t, v)
  }

  /** The two checks store the same value and differ only on BOOL columns, where they disagree on every cell. */
  lemma CheckCellsDifferOnlyOnBool(t: ColumnType, v: Scalar)
    ensures CheckCell(t, v).value == IntendedCheckCell(t, v).value
    ensures t != BoolType ==> CheckCell(t, v) == IntendedCheckCell(t, v)
    ensures t == BoolType ==> CheckCell(t, v).error.Some? != IntendedCheckCell(t, v).error.Some?
  {
  }

  /** A boolean in a BOOL column is flagged; a string in a BOOL column is not. */
  lemma BoolCheckIsInverted()
    ensures CheckCell(BoolType, PyBool(true)) == CellCheck(PyBool(true), Some(BoolMessage))
    ensures CheckCell(BoolType, PyStr("yes")).error.None?
    ensures IntendedCheckCell(BoolType, PyBool(true)).error.None?
  {
  }

  /** A versioned value of one column for one geography; `validTo == None` marks the current one. */
  datatype ColumnValue = ColumnValue(
    colId: nat,
    geoId: nat,
    metaId: nat,
    validFrom: Time,
    validTo: Option<Time>,
    value: Scalar)
  {
    predicate IsCurrent() { validTo.None? }
    function Pair(): (nat, nat) { (colId, geoId) }
  }

  datatype DataColumn = DataColumn(colId: nat, ctype: ColumnType)

  datatype Geography = Geography(geoId: nat, fullPath: string)

  /** A data frame: its index (geography keys) and its columns, each one cell per index entry. */
  datatype DataFrame = DataFrame(index: seq<string>, columns: map<string, seq<Scalar>>) {
    predicate Valid() {
      forall name :: name in columns ==> |columns[name]| == |index|
    }
  }

  /**
   * Why a load raised. `ErrorsUnbound` is reading `validation_errors` before
   * any column assigned it; `KeywordRejected` is the `TypeError` of building a
   * `ValueError` with a keyword argument, which built-in exceptions refuse, so
   * the raise meant to report `Validation(errors)` reports that instead.
   */
  datatype LoadError =
    | MissingColumn(name: string)
    | MissingGeography(key: string)
    | ErrorsUnbound
    | KeywordRejected
    | Validation(errors: seq<string>)

  /** The row inserted for one cell. */
  function NewRow(col: DataColumn, geo: Geography, metaId: nat, now: Time, value: Scalar): ColumnValue {
    ColumnValue(col.colId, geo.geoId, metaId, now, None, value)
  }

  /** The first index entry that `geos` lacks: the `geos[geo_id]` lookup that raises. */
  function FirstMissing(index: seq<string>, geos: map<string, Geography>): (r: Option<string>)
    ensures r.None? <==> forall i :: 0 <= i < |index| ==> index[i] in geos
    ensures r.Some? ==> exists i :: (0 <= i < |index| && index[i] == r.value && index[i] !in geos
                                     && forall j :: 0 <= j < i ==> index[j] in geos)
  {
    if |index| == 0 then None
    else if index[0] !in geos then Some(index[0])
    else
      var r := FirstMissing(index[1..], geos);
      assert forall i :: 1 <= i < |index| ==> index[i] == index[1..][i - 1];
      r
  }

  /** The rows one column contributes, one per index entry, in index order. */
  function ColumnRows(col: DataColumn, geos: map<string, Geography>, index: seq<string>, values: seq<Scalar>,
                      metaId: nat, now: Time): (r: seq<ColumnValue>)
    requires |values| == |index|
    requires forall i :: 0 <= i < |index| ==> index[i] in geos
    ensures |r| == |index|
    decreases |index|
  {
    if |index| == 0 then []
    else
      var n := |index| - 1;
      ColumnRows(col, geos, index[..n], values[..n], metaId, now)
        + [NewRow(col, geos[index[n]], metaId, now, CheckCell(col.ctype, values[n]).value)]
  }

  /** Row `i` of a column is the row of the `i`-th cell. */
  lemma {:induction false} ColumnRowAt(col: DataColumn, geos: map<string, Geography>, index: seq<string>,
                                       values: seq<Scalar>, metaId: nat, now: Time, i: nat)
    requires |values| == |index| && i < |index|
    requires forall k :: 0 <= k < |index| ==> index[k] in geos
    ensures ColumnRows(col, geos, index, values, metaId, now)[i]
      == NewRow(col, geos[index[i]], metaId, now, CheckCell(col.ctype, values[i]).value)
    decreases |index|
  {
    var n := |index| - 1;
    if i < n {
      ColumnRowAt(col, geos, index[..n], values[..n], metaId, now, i);
    }
  }

  /** The messages one column's cells are flagged with, in index order. */
  function ColumnErrors(t: ColumnType, values: seq<Scalar>): (r: seq<string>)
    ensures r == [] <==> forall i :: 0 <= i < |values| ==> CheckCell(t, values[i]).error.None?
    decreases |values|
  {
    if |values| == 0 then []
    else
      var n := |values| - 1;
      var e := CheckCell(t, values[n]).error;
      var prev := ColumnErrors(t, values[..n]);
      assert forall i :: 0 <= i < n ==> values[..n][i] == values[i];
      prev + (if e.Some? then [e.value] else [])
  }

  /** The same with the boolean test the right way round. */
  function IntendedColumnErrors(t: ColumnType, values: seq<Scalar>): (r: seq<string>)
    ensures r == [] <==> forall i :: 0 <= i < |values| ==> IntendedCheckCell(t, values[i]).error.None?
    decreases |values|
  {
    if |values| == 0 then []
    else
      var n := |values| - 1;
      var e := IntendedCheckCell(t, values[n]).error;
      var prev := IntendedColumnErrors(t, values[..n]);
      assert forall i :: 0 <= i < n ==> values[..n][i] == values[i];
      prev + (if e.Some? then [e.value] else [])
  }

  /**
   * What the validation loop leaves behind: the rows it built, and the error
   * list of the last column it processed (`None` while no column has been).
   */
  datatype Batch = Batch(rows: seq<ColumnValue>, lastErrors: Option<seq<string>>)

  /**
   * The column loop of `load_column_values`, up to the raise of a missing
   * column or geography. With `resetRows` the row list restarts for every
   * column, as in the legacy variant.
   */
  function Collect(cols: seq<(string, DataColumn)>, geos: map<string, Geography>, df: DataFrame,
                   metaId: nat, now: Time, resetRows: bool): (r: Result<Batch, LoadError>)
    requires df.Valid()
    decreases |cols|
  {
    if |cols| == 0 then Success(Batch([], None))
    else
      var prev :- Collect(cols[..|cols| - 1], geos, df, metaId, now, resetRows);
      CollectNext(prev, cols[|cols| - 1], geos, df, metaId, now, resetRows)
  }

  /** One pass of the column loop, after the columns before it left `prev`. */
  function CollectNext(prev: Batch, column: (string, DataColumn), geos: map<string, Geography>, df: DataFrame,
                       metaId: nat, now: Time, resetRows: bool): Result<Batch, LoadError>
    requires df.Valid()
  {
    var (name, col) := column;
    if name !in df.columns then Failure(MissingColumn(name))
    else if FirstMissing(df.index, geos).Some? then Failure(MissingGeography(FirstMissing(df.index, geos).value))
    else
      var added := ColumnRows(col, geos, df.index, df.columns[name], metaId, now);
      Success(Batch((if resetRows then [] else prev.rows) + added,
                    Some(ColumnErrors(col.ctype, df.columns[name]))))
  }

  lemma CollectStep(cols: seq<(string, DataColumn)>, k: nat, geos: map<string, Geography>, df: DataFrame,
                    metaId: nat, now: Time, resetRows: bool)
    requires df.Valid() && k < |cols| && Collect(cols[..k], geos, df, metaId, now, resetRows).Success?
    ensures Collect(cols[..k + 1], geos, df, metaId, now, resetRows)
      == CollectNext(Collect(cols[..k], geos, df, metaId, now, resetRows).value, cols[k], geos, df, metaId, now, resetRows)
  {
    assert cols[..k + 1][..k] == cols[..k];
  }

  /**
   * The inner loop of `load_column_values` over one column's cells: each
   * cell's geography is looked up (a missing one raises), checked, and turned
   * into a row.
   */
  method CollectColumn(col: DataColumn, geos: map<string, Geography>, index: seq<string>, values: seq<Scalar>,
                       metaId: nat, now: Time)
    returns (r: Result<(seq<ColumnValue>, seq<string>), LoadError>)
    requires |values| == |index|
    ensures FirstMissing(index, geos).Some? ==> r == Failure(MissingGeography(FirstMissing(index, geos).value))
    ensures FirstMissing(index, geos).None? ==>
      r == Success((ColumnRows(col, geos, index, values, metaId, now), ColumnErrors(col.ctype, values)))
  {
    var rows: seq<ColumnValue> := [];
    var errors: seq<string> := [];
    var i := 0;
    while i < |index|
      invariant i <= |index|
      invariant forall j :: 0 <= j < i ==> index[j] in geos
      invariant rows == ColumnRows(col, geos, index[..i], values[..i], metaId, now)
      invariant errors == ColumnErrors(col.ctype, values[..i])
    {
      var key := index[i];
      if key !in geos {
        FirstMissingAt(index, geos, i);
        return Failure(MissingGeography(key));
      }
      CollectColumnStep(col, geos, index, values, metaId, now, i);
      var check := CheckCell(col.ctype, values[i]);
      if check.error.Some? {
        errors := errors + [check.error.value];
      }
      rows := rows + [NewRow(col, geos[key], metaId, now, check.value)];
      i := i + 1;
    }
    assert index[..i] == index && values[..i] == values;
    return Success((rows, errors));
  }

  /** The first geography the lookups miss is the first one absent from `geos`. */
  lemma FirstMissingAt(index: seq<string>, geos: map<string, Geography>, i: nat)
    requires i < |index| && index[i] !in geos && forall j :: 0 <= j < i ==> index[j] in geos
    ensures FirstMissing(index, geos) == Some(index[i])
  {
  }

  /** One more cell of the inner loop: its row and its message (if any) are appended. */
  lemma CollectColumnStep(col: DataColumn, geos: map<string, Geography>, index: seq<string>, values: seq<Scalar>,
                          metaId: nat, now: Time, i: nat)
    requires |values| == |index| && i < |index| && forall j :: 0 <= j <= i ==> index[j] in geos
    ensures ColumnRows(col, geos, index[..i + 1], values[..i + 1], metaId, now)
      == ColumnRows(col, geos, index[..i], values[..i], metaId, now)
         + [NewRow(col, geos[index[i]], metaId, now, CheckCell(col.ctype, values[i]).value)]
    ensures var e := CheckCell(col.ctype, values[i]).error;
      ColumnErrors(col.ctype, values[..i + 1])
      == ColumnErrors(col.ctype, values[..i]) + (if e.Some? then [e.value] else [])
  {
    assert index[..i + 1][..i] == index[..i];
    assert values[..i + 1][..i] == values[..i];
  }

  /**
   * The column loop of `load_column_values`; `resetRows` restarts the row
   * list for every column, as the legacy variant does.
   */
  method CollectBatch(cols: seq<(string, DataColumn)>, geos: map<string, Geography>, df: DataFrame,
                      metaId: nat, now: Time, resetRows: bool)
    returns (r: Result<Batch, LoadError>)
    requires df.Valid()
    ensures r == Collect(cols, geos, df, metaId, now, resetRows)
  {
    var rows: seq<ColumnValue> := [];
    var validationErrors: Option<seq<string>> := None;
    var k := 0;
    while k < |cols|
      invariant k <= |cols|
      invariant Collect(cols[..k], geos, df, metaId, now, resetRows) == Success(Batch(rows, validationErrors))
    {
      var name := cols[k].0;
      var col := cols[k].1;
      CollectStep(cols, k, geos, df, metaId, now, resetRows);
      if resetRows {
        rows := [];
      }
      if name !in df.columns {
        CollectFailurePersists(cols, k + 1, geos, df, metaId, now, resetRows);
        return Failure(MissingColumn(name));
      }
      var column := CollectColumn(col, geos, df.index, df.columns[name], metaId, now);
      if column.Failure? {
        CollectFailurePersists(cols, k + 1, geos, df, metaId, now, resetRows);
        return Failure(column.error);
      }
      assert Collect(cols[..k + 1], geos, df, metaId, now, resetRows)
        == Success(Batch(rows + column.value.0, Some(column.value.1)));
      rows := rows + column.value.0;
      validationErrors := Some(column.value.1);
      k := k + 1;
    }
    assert cols[..k] == cols;
    return Success(Batch(rows, validationErrors));
  }

  /** Once the loop has raised, it has raised for good: a longer column list fails the same way. */
  lemma {:induction false} CollectFailurePersists(cols: seq<(string, DataColumn)>, k: nat,
      geos: map<string, Geography>, df: DataFrame, metaId: nat, now: Time, resetRows: bool)
    requires df.Valid() && k <= |cols|
    requires Collect(cols[..k], geos, df, metaId, now, resetRows).Failure?
    ensures Collect(cols, geos, df, metaId, now, resetRows) == Collect(cols[..k], geos, df, metaId, now, resetRows)
    decreases |cols| - k
  {
    if k < |cols| {
      assert cols[..|cols| - 1][..k] == cols[..k];
      CollectFailurePersists(cols[..|cols| - 1], k, geos, df, metaId, now, resetRows);
    } else {
      assert cols[..k] == cols;
    }
  }

  /** Every row of a batch carries the call's `now`, its `meta_id`, and is current. */
  lemma {:induction false} CollectRowsStamped(cols: seq<(string, DataColumn)>, geos: map<string, Geography>,
      df: DataFrame, metaId: nat, now: Time, resetRows: bool)
    requires df.Valid()
    requires Collect(cols, geos, df, metaId, now, resetRows).Success?
    ensures forall r :: r in Collect(cols, geos, df, metaId, now, resetRows).value.rows ==>
      r.validFrom == now && r.IsCurrent() && r.metaId == metaId
    decreases |cols|
  {
    if |cols| > 0 {
      var n := |cols| - 1;
      CollectRowsStamped(cols[..n], geos, df, metaId, now, resetRows);
      var name := cols[n].0; var col := cols[n].1;
      var rows := ColumnRows(col, geos, df.index, df.columns[name], metaId, now);
      forall i | 0 <= i < |rows|
        ensures rows[i].validFrom == now && rows[i].IsCurrent() && rows[i].metaId == metaId
      {
        ColumnRowAt(col, geos, df.index, df.columns[name], metaId, now, i);
      }
    }
  }

  /** Every row of a batch belongs to one of the batch's columns and one of the index's geographies. */
  lemma {:induction false} CollectRowsOrigin(cols: seq<(string, DataColumn)>, geos: map<string, Geography>,
      df: DataFrame, metaId: nat, now: Time, resetRows: bool)
    requires df.Valid()
    requires Collect(cols, geos, df, metaId, now, resetRows).Success?
    ensures forall r :: r in Collect(cols, geos, df, metaId, now, resetRows).value.rows ==>
      (exists j :: 0 <= j < |cols| && r.colId == cols[j].1.colId)
      && (exists i :: 0 <= i < |df.index| && df.index[i] in geos && r.geoId == geos[df.index[i]].geoId)
    decreases |cols|
  {
    if |cols| > 0 {
      var n := |cols| - 1;
      CollectRowsOrigin(cols[..n], geos, df, metaId, now, resetRows);
      var name := cols[n].0; var col := cols[n].1;
      var rows := ColumnRows(col, geos, df.index, df.columns[name], metaId, now);
      forall k | 0 <= k < |rows|
        ensures rows[k].colId == cols[n].1.colId
        ensures 0 <= k < |df.index| && df.index[k] in geos && rows[k].geoId == geos[df.index[k]].geoId
      {
        ColumnRowAt(col, geos, df.index, df.columns[name], metaId, now, k);
      }
      forall r | r in Collect(cols[..n], geos, df, metaId, now, resetRows).value.rows
        ensures exists j :: 0 <= j < |cols| && r.colId == cols[j].1.colId
      {
        var j :| 0 <= j < n && r.colId == cols[..n][j].1.colId;
        assert cols[..n][j] == cols[j];
      }
    }
  }

  /**
   * Without the reset, a batch holds exactly one row per (column, index entry):
   * column `j`'s row for entry `i` sits at `j * |index| + i`.
   */
  lemma {:induction false} CollectRowLayout(cols: seq<(string, DataColumn)>, geos: map<string, Geography>,
      df: DataFrame, metaId: nat, now: Time, j: nat, i: nat)
    requires df.Valid()
    requires Collect(cols, geos, df, metaId, now, false).Success?
    requires j < |cols| && i < |df.index|
    ensures |Collect(cols, geos, df, metaId, now, false).value.rows| == |cols| * |df.index|
    ensures cols[j].0 in df.columns && df.index[i] in geos
    ensures j * |df.index| + i < |Collect(cols, geos, df, metaId, now, false).value.rows|
    ensures Collect(cols, geos, df, metaId, now, false).value.rows[j * |df.index| + i]
      == NewRow(cols[j].1, geos[df.index[i]], metaId, now, CheckCell(cols[j].1.ctype, df.columns[cols[j].0][i]).value)
    decreases |cols|
  {
    var n := |cols| - 1;
    var m := |df.index|;
    CollectLast(cols, geos, df, metaId, now);
    var prev := Collect(cols[..n], geos, df, metaId, now, false).value.rows;
    var name := cols[n].0; var col := cols[n].1;
    var added := ColumnRows(col, geos, df.index, df.columns[name], metaId, now);
    if j < n {
      assert cols[..n][j] == cols[j];
      CollectRowLayout(cols[..n], geos, df, metaId, now, j, i);
      MulStep(j, n, m, i);
    } else {
      if n > 0 {
        CollectRowCount(cols[..n], geos, df, metaId, now);
      }
      assert |prev| == n * m;
      ColumnRowAt(col, geos, df.index, df.columns[name], metaId, now, i);
      assert (prev + added)[n * m + i] == added[i];
    }
    CollectRowCount(cols, geos, df, metaId, now);
    MulStep(j, n + 1, m, i);
  }

  /** Without the reset the last column's rows follow those of the columns before it. */
  lemma CollectLast(cols: seq<(string, DataColumn)>, geos: map<string, Geography>, df: DataFrame, metaId: nat, now: Time)
    requires df.Valid() && |cols| > 0 && Collect(cols, geos, df, metaId, now, false).Success?
    ensures var n := |cols| - 1;
      Collect(cols[..n], geos, df, metaId, now, false).Success?
      && cols[n].0 in df.columns && FirstMissing(df.index, geos).None?
    ensures var n := |cols| - 1;
      Collect(cols, geos, df, metaId, now, false).value.rows
      == Collect(cols[..n], geos, df, metaId, now, false).value.rows
         + ColumnRows(cols[n].1, geos, df.index, df.columns[cols[n].0], metaId, now)
  {
  }

  lemma MulStep(j: nat, n: nat, m: nat, i: nat)
    requires j < n && i < m
    ensures j * m + i < n * m
  {
    assert (j + 1) * m <= n * m;
  }

  /** Without the reset a batch has `|cols| * |index|` rows. */
  lemma {:induction false} CollectRowCount(cols: seq<(string, DataColumn)>, geos: map<string, Geography>,
      df: DataFrame, metaId: nat, now: Time)
    requires df.Valid()
    requires Collect(cols, geos, df, metaId, now, false).Success?
    ensures |Collect(cols, geos, df, metaId, now, false).value.rows| == |cols| * |df.index|
    decreases |cols|
  {
    if |cols| > 0 {
      var n := |cols| - 1;
      CollectRowCount(cols[..n], geos, df, metaId, now);
      assert (n + 1) * |df.index| == n * |df.index| + |df.index|;
    }
  }

  /** With the reset a batch holds only the last column's rows. */
  lemma ResetBatchIsLastColumn(cols: seq<(string, DataColumn)>, geos: map<string, Geography>,
      df: DataFrame, metaId: nat, now: Time)
    requires df.Valid() && |cols| > 0
    requires Collect(cols, geos, df, metaId, now, true).Success?
    ensures cols[|cols| - 1].0 in df.columns
    ensures forall i :: 0 <= i < |df.index| ==> df.index[i] in geos
    ensures Collect(cols, geos, df, metaId, now, true).value.rows
      == ColumnRows(cols[|cols| - 1].1, geos, df.index, df.columns[cols[|cols| - 1].0], metaId, now)
  {
  }

  /** `[col.col_id for col in cols.values()]` */
  function ColIds(cols: seq<(string, DataColumn)>): (r: seq<nat>)
    ensures |r| == |cols| && forall j :: 0 <= j < |cols| ==> r[j] == cols[j].1.colId
  {
    seq(|cols|, j requires 0 <= j < |cols| => cols[j].1.colId)
  }

  /** `[geo.geo_id for geo in geos.values()]`, as the set an `IN` filter tests. */
  function GeoIds(geos: map<string, Geography>): set<nat> {
    set key | key in geos :: geos[key].geoId
  }

  /** The per-column stale query of the current variant: (col, geo) pairs of current values, in store order. */
  function StalePairsFor(store: seq<ColumnValue>, colId: nat, geoIds: set<nat>): (r: seq<(nat, nat)>)
    ensures forall p :: p in r <==> exists i :: (0 <= i < |store| && store[i].IsCurrent()
                                                 && store[i].colId == colId && store[i].geoId in geoIds && store[i].Pair() == p)
    decreases |store|
  {
    if |store| == 0 then []
    else
      var n := |store| - 1;
      var v := store[n];
      var prev := StalePairsFor(store[..n], colId, geoIds);
      assert forall i :: 0 <= i < n ==> store[..n][i] == store[i];
      prev + (if v.IsCurrent() && v.colId == colId && v.geoId in geoIds then [v.Pair()] else [])
  }

  /** `stale_values` after the column loop: the per-column results, concatenated. */
  function GerryStale(store: seq<ColumnValue>, colIds: seq<nat>, geoIds: set<nat>): seq<(nat, nat)>
    decreases |colIds|
  {
    if |colIds| == 0 then []
    else
      var n := |colIds| - 1;
      GerryStale(store, colIds[..n], geoIds) + StalePairsFor(store, colIds[n], geoIds)
  }

  /** Per-column detection finds exactly the pairs of the current values of those columns and geographies. */
  lemma {:induction false} GerryStaleSpec(store: seq<ColumnValue>, colIds: seq<nat>, geoIds: set<nat>, p: (nat, nat))
    ensures p in GerryStale(store, colIds, geoIds) <==>
      exists i :: (0 <= i < |store| && store[i].IsCurrent()
                   && store[i].colId in colIds && store[i].geoId in geoIds && store[i].Pair() == p)
    decreases |colIds|
  {
    if |colIds| > 0 {
      var n := |colIds| - 1;
      GerryStaleSpec(store, colIds[..n], geoIds, p);
      assert colIds == colIds[..n] + [colIds[n]];
      if p in GerryStale(store, colIds, geoIds) {
        if p !in GerryStale(store, colIds[..n], geoIds) {
          assert p in StalePairsFor(store, colIds[n], geoIds);
        }
      }
    }
  }

  lemma {:induction false} NothingStaleInEmptyStore(colIds: seq<nat>, geoIds: set<nat>)
    ensures GerryStale([], colIds, geoIds) == []
    decreases |colIds|
  {
    if |colIds| > 0 {
      NothingStaleInEmptyStore(colIds[..|colIds| - 1], geoIds);
    }
  }

  /** The legacy variant's stale query: positions (`val_id`s) of current values, cross-filtered. */
  function CherryStale(store: seq<ColumnValue>, colIds: set<nat>, geoIds: set<nat>): (r: set<nat>)
    ensures forall i :: i in r <==> (0 <= i < |store| && store[i].IsCurrent()
                                     && store[i].colId in colIds && store[i].geoId in geoIds)
  {
    set i | 0 <= i < |store| && store[i].IsCurrent() && store[i].colId in colIds && store[i].geoId in geoIds
  }

  /** Both variants detect the same (column, geography) pairs; they differ in what they then close. */
  lemma StaleDetectionAgrees(store: seq<ColumnValue>, cols: seq<(string, DataColumn)>, geos: map<string, Geography>)
    ensures (set p | p in GerryStale(store, ColIds(cols), GeoIds(geos)))
      == (set i | i in CherryStale(store, (set c | c in ColIds(cols)), GeoIds(geos)) :: store[i].Pair())
  {
    var colIds := ColIds(cols);
    var lhs := set p | p in GerryStale(store, colIds, GeoIds(geos));
    var rhs := set i | i in CherryStale(store, (set c | c in colIds), GeoIds(geos)) :: store[i].Pair();
    forall p ensures p in lhs <==> p in rhs {
      GerryStaleSpec(store, colIds, GeoIds(geos), p);
    }
  }

  /** The current variant's close-out: every row of a stale pair, current or not, gets `valid_to = now`. */
  function CloseByPairs(store: seq<ColumnValue>, pairs: set<(nat, nat)>, now: Time): (r: seq<ColumnValue>)
    ensures |r| == |store|
    ensures forall i :: 0 <= i < |store| ==>
      r[i] == if store[i].Pair() in pairs then store[i].(validTo := Some(now)) else store[i]
  {
    seq(|store|, i requires 0 <= i < |store| =>
      if store[i].Pair() in pairs then store[i].(validTo := Some(now)) else store[i])
  }

  /** The legacy variant's close-out: exactly the detected `val_id`s get `valid_to = now`. */
  function CloseByIds(store: seq<ColumnValue>, ids: set<nat>, now: Time): (r: seq<ColumnValue>)
    ensures |r| == |store|
    ensures forall i :: 0 <= i < |store| ==> r[i] == if i in ids then store[i].(validTo := Some(now)) else store[i]
  {
    seq(|store|, i requires 0 <= i < |store| =>
      if i in ids then store[i].(validTo := Some(now)) else store[i])
  }

  /** `load_column_values` of the current variant: the store after the call, or the error it raised. */
  function GerryLoad(store: seq<ColumnValue>, cols: seq<(string, DataColumn)>, geos: map<string, Geography>,
                     df: DataFrame, metaId: nat, now: Time): (r: Result<seq<ColumnValue>, LoadError>)
    requires df.Valid()
    ensures r.Success? ==> |r.value| == |store| + |cols| * |df.index|
  {
    var batch :- Collect(cols, geos, df, metaId, now, false);
    CollectRowCount(cols, geos, df, metaId, now);
    if batch.lastErrors.None? then Failure(ErrorsUnbound)
    else if batch.lastErrors.value != [] then Failure(KeywordRejected)
    else
      var stale := GerryStale(store, ColIds(cols), GeoIds(geos));
      var closed := if |stale| > 0 then CloseByPairs(store, (set p | p in stale), now) else store;
      Success(closed + batch.rows)
  }

  /** `load_column_values` of the legacy variant. */
  function CherryLoad(store: seq<ColumnValue>, cols: seq<(string, DataColumn)>, geos: map<string, Geography>,
                      df: DataFrame, metaId: nat, now: Time): (r: Result<seq<ColumnValue>, LoadError>)
    requires df.Valid()
    ensures r.Success? ==> |cols| > 0 && |r.value| == |store| + |df.index|
  {
    var batch :- Collect(cols, geos, df, metaId, now, true);
    if batch.lastErrors.None? then Failure(ErrorsUnbound)
    else if batch.lastErrors.value != [] then Failure(KeywordRejected)
    else
      assert |cols| > 0;
      ResetBatchIsLastColumn(cols, geos, df, metaId, now);
      var stale := CherryStale(store, (set c | c in ColIds(cols)), GeoIds(geos));
      var closed := if stale != {} then CloseByIds(store, stale, now) else store;
      Success(closed + batch.rows)
  }

  /** The legacy row reset changes which rows a batch holds, never whether the loop raises or what it reports. */
  lemma {:induction false} CollectResetAgnostic(cols: seq<(string, DataColumn)>, geos: map<string, Geography>,
      df: DataFrame, metaId: nat, now: Time)
    requires df.Valid()
    ensures Collect(cols, geos, df, metaId, now, true).Success? <==> Collect(cols, geos, df, metaId, now, false).Success?
    ensures Collect(cols, geos, df, metaId, now, true).Failure? ==>
      Collect(cols, geos, df, metaId, now, true) == Collect(cols, geos, df, metaId, now, false)
    ensures Collect(cols, geos, df, metaId, now, true).Success? ==>
      Collect(cols, geos, df, metaId, now, true).value.lastErrors == Collect(cols, geos, df, metaId, now, false).value.lastErrors
    decreases |cols|
  {
    if |cols| > 0 {
      CollectResetAgnostic(cols[..|cols| - 1], geos, df, metaId, now);
    }
  }

  /** Rows with pairwise different (column, geography) pairs. */
  ghost predicate DistinctPairs(rows: seq<ColumnValue>) {
    forall a, b :: 0 <= a < b < |rows| ==> rows[a].Pair() != rows[b].Pair()
  }

  /** At most one current value per (column, geography) pair: the store's central invariant. */
  ghost predicate AtMostOneCurrent(store: seq<ColumnValue>) {
    forall a, b :: 0 <= a < b < |store| && store[a].IsCurrent() && store[b].IsCurrent() ==>
      store[a].Pair() != store[b].Pair()
  }

  /** The columns of a call have different ids. */
  ghost predicate DistinctColumns(cols: seq<(string, DataColumn)>) {
    forall a, b :: 0 <= a < b < |cols| ==> cols[a].1.colId != cols[b].1.colId
  }

  /** Different index entries name different geographies. */
  ghost predicate DistinctGeographies(index: seq<string>, geos: map<string, Geography>) {
    forall a, b :: 0 <= a < b < |index| && index[a] in geos && index[b] in geos ==>
      geos[index[a]].geoId != geos[index[b]].geoId
  }

  /** One column's rows have different geographies, so different pairs. */
  lemma ColumnRowsDistinct(col: DataColumn, geos: map<string, Geography>, index: seq<string>,
                           values: seq<Scalar>, metaId: nat, now: Time)
    requires |values| == |index|
    requires forall i :: 0 <= i < |index| ==> index[i] in geos
    requires DistinctGeographies(index, geos)
    ensures DistinctPairs(ColumnRows(col, geos, index, values, metaId, now))
  {
    var rows := ColumnRows(col, geos, index, values, metaId, now);
    forall a, b | 0 <= a < b < |rows| ensures rows[a].Pair() != rows[b].Pair() {
      ColumnRowAt(col, geos, index, values, metaId, now, a);
      ColumnRowAt(col, geos, index, values, metaId, now, b);
    }
  }

  /** Without the reset, a batch over distinct columns and geographies writes every pair once. */
  lemma {:induction false} CollectRowsDistinct(cols: seq<(string, DataColumn)>, geos: map<string, Geography>,
      df: DataFrame, metaId: nat, now: Time)
    requires df.Valid()
    requires Collect(cols, geos, df, metaId, now, false).Success?
    requires DistinctColumns(cols) && DistinctGeographies(df.index, geos)
    ensures DistinctPairs(Collect(cols, geos, df, metaId, now, false).value.rows)
    decreases |cols|
  {
    if |cols| > 0 {
      var n := |cols| - 1;
      var name := cols[n].0; var col := cols[n].1;
      var prev := Collect(cols[..n], geos, df, metaId, now, false).value.rows;
      var added := ColumnRows(col, geos, df.index, df.columns[name], metaId, now);
      assert DistinctColumns(cols[..n]) by {
        forall a, b | 0 <= a < b < n ensures cols[..n][a].1.colId != cols[..n][b].1.colId {
          assert cols[..n][a] == cols[a] && cols[..n][b] == cols[b];
        }
      }
      CollectRowsDistinct(cols[..n], geos, df, metaId, now);
      CollectRowsOrigin(cols[..n], geos, df, metaId, now, false);
      ColumnRowsDistinct(col, geos, df.index, df.columns[name], metaId, now);
      var rows := prev + added;
      forall a, b | 0 <= a < b < |rows| ensures rows[a].Pair() != rows[b].Pair() {
        if b >= |prev| && a < |prev| {
          assert rows[a] in prev;
          var j :| 0 <= j < n && rows[a].colId == cols[..n][j].1.colId;
          assert cols[..n][j] == cols[j];
          ColumnRowAt(col, geos, df.index, df.columns[name], metaId, now, b - |prev|);
        }
      }
    }
  }

  /** The (column, geography) pairs a batch writes. */
  function PairsOf(rows: seq<ColumnValue>): set<(nat, nat)> {
    set r | r in rows :: r.Pair()
  }

  lemma PairOfRow(rows: seq<ColumnValue>, r: ColumnValue)
    requires r in rows
    ensures r.Pair() in PairsOf(rows)
  {
  }

  /** Closes the current value of each pair in `pairs`; no other row changes. */
  function CloseCurrent(store: seq<ColumnValue>, pairs: set<(nat, nat)>, now: Time): (r: seq<ColumnValue>)
    ensures |r| == |store|
    ensures forall i :: 0 <= i < |store| ==>
      r[i] == if store[i].IsCurrent() && store[i].Pair() in pairs then store[i].(validTo := Some(now)) else store[i]
  {
    seq(|store|, i requires 0 <= i < |store| =>
      if store[i].IsCurrent() && store[i].Pair() in pairs then store[i].(validTo := Some(now)) else store[i])
  }

  /** The messages of every column's cells, with the boolean check the right way round. */
  function IntendedErrors(cols: seq<(string, DataColumn)>, df: DataFrame): (r: seq<string>)
    requires df.Valid()
    ensures r == [] <==> forall j, i :: 0 <= j < |cols| && cols[j].0 in df.columns && 0 <= i < |df.index| ==>
      IntendedCheckCell(cols[j].1.ctype, df.columns[cols[j].0][i]).error.None?
    decreases |cols|
  {
    if |cols| == 0 then []
    else
      var n := |cols| - 1;
      var prev := IntendedErrors(cols[..n], df);
      assert forall j :: 0 <= j < n ==> cols[..n][j] == cols[j];
      prev + (if cols[n].0 in df.columns then IntendedColumnErrors(cols[n].1.ctype, df.columns[cols[n].0]) else [])
  }

  /**
   * What a load was written to do: check every column before writing, store
   * each cell as a new current value, and close exactly the current values
   * those cells supersede.
   */
  function IntendedLoad(store: seq<ColumnValue>, cols: seq<(string, DataColumn)>, geos: map<string, Geography>,
                        df: DataFrame, metaId: nat, now: Time): (r: Result<seq<ColumnValue>, LoadError>)
    requires df.Valid()
    ensures r.Success? ==> |r.value| == |store| + |cols| * |df.index|
  {
    var batch :- Collect(cols, geos, df, metaId, now, false);
    CollectRowCount(cols, geos, df, metaId, now);
    var errors := IntendedErrors(cols, df);
    if errors != [] then Failure(Validation(errors))
    else Success(CloseCurrent(store, PairsOf(batch.rows), now) + batch.rows)
  }

  /** An intended load raises exactly when some cell of some column fails its type. */
  lemma IntendedLoadRejectsAnyInvalidCell(store: seq<ColumnValue>, cols: seq<(string, DataColumn)>,
      geos: map<string, Geography>, df: DataFrame, metaId: nat, now: Time)
    requires df.Valid()
    requires Collect(cols, geos, df, metaId, now, false).Success?
    ensures IntendedLoad(store, cols, geos, df, metaId, now).Success? <==>
      forall j, i :: 0 <= j < |cols| && cols[j].0 in df.columns && 0 <= i < |df.index| ==>
        ValueFits(cols[j].1.ctype, IntendedCheckCell(cols[j].1.ctype, df.columns[cols[j].0][i]).value)
  {
  }

  /**
   * An intended load only appends and closes: a closed row never changes, a
   * current row at most gets `valid_to = now`, and every appended row is
   * current from `now` under the call's meta.
   */
  lemma IntendedLoadKeepsHistory(store: seq<ColumnValue>, cols: seq<(string, DataColumn)>,
      geos: map<string, Geography>, df: DataFrame, metaId: nat, now: Time)
    requires df.Valid()
    requires IntendedLoad(store, cols, geos, df, metaId, now).Success?
    ensures var after := IntendedLoad(store, cols, geos, df, metaId, now).value;
      |store| <= |after|
      && (forall i :: 0 <= i < |store| && !store[i].IsCurrent() ==> after[i] == store[i])
      && (forall i :: 0 <= i < |store| ==> after[i] == store[i] || after[i] == store[i].(validTo := Some(now)))
      && (forall k :: |store| <= k < |after| ==> after[k].validFrom == now && after[k].IsCurrent() && after[k].metaId == metaId)
  {
    CollectRowsStamped(cols, geos, df, metaId, now, false);
    var after := IntendedLoad(store, cols, geos, df, metaId, now).value;
    var rows := Collect(cols, geos, df, metaId, now, false).value.rows;
    forall k | |store| <= k < |after| ensures after[k].validFrom == now && after[k].IsCurrent() && after[k].metaId == metaId {
      assert after[k] == rows[k - |store|];
    }
  }

  /**
   * Over distinct columns and geographies an intended load keeps at most one
   * current value per pair, and each cell it writes is the one current value
   * of its pair.
   */
  lemma IntendedLoadCurrent(store: seq<ColumnValue>, cols: seq<(string, DataColumn)>,
      geos: map<string, Geography>, df: DataFrame, metaId: nat, now: Time)
    requires df.Valid()
    requires IntendedLoad(store, cols, geos, df, metaId, now).Success?
    requires AtMostOneCurrent(store)
    requires DistinctColumns(cols) && DistinctGeographies(df.index, geos)
    ensures AtMostOneCurrent(IntendedLoad(store, cols, geos, df, metaId, now).value)
    ensures var after := IntendedLoad(store, cols, geos, df, metaId, now).value;
      forall k :: |store| <= k < |after| ==>
        (after[k].IsCurrent()
         && forall i :: 0 <= i < |after| && i != k && after[i].IsCurrent() ==> after[i].Pair() != after[k].Pair())
  {
    var rows := Collect(cols, geos, df, metaId, now, false).value.rows;
    var closed := CloseCurrent(store, PairsOf(rows), now);
    var after := closed + rows;
    CollectRowsStamped(cols, geos, df, metaId, now, false);
    CollectRowsDistinct(cols, geos, df, metaId, now);
    forall a, b | 0 <= a < b < |after| && after[a].IsCurrent() && after[b].IsCurrent()
      ensures after[a].Pair() != after[b].Pair()
    {
      if b < |store| {
        assert closed[a] == store[a] && closed[b] == store[b];
      } else if a < |store| {
        assert closed[a] == store[a];
        assert store[a].Pair() !in PairsOf(rows);
        assert after[b] == rows[b - |store|];
      } else {
        assert after[a] == rows[a - |store|] && after[b] == rows[b - |store|];
      }
    }
    forall k | |store| <= k < |after| ensures after[k].IsCurrent() {
      assert after[k] in rows;
    }
  }

  /** With no columns to load, an intended load leaves the store as it is. */
  lemma IntendedLoadOfNothing(store: seq<ColumnValue>, geos: map<string, Geography>, df: DataFrame, metaId: nat, now: Time)
    requires df.Valid()
    ensures IntendedLoad(store, [], geos, df, metaId, now) == Success(store)
  {
    assert Collect([], geos, df, metaId, now, false) == Success(Batch([], None));
    assert PairsOf([]) == {};
    assert IntendedErrors([], df) == [];
    assert forall i :: 0 <= i < |store| ==> CloseCurrent(store, {}, now)[i] == store[i];
    assert CloseCurrent(store, {}, now) + [] == store;
  }

  /** As written, a load with no columns reads `validation_errors` before assigning it. */
  lemma LoadOfNothingRaises(store: seq<ColumnValue>, geos: map<string, Geography>, df: DataFrame, metaId: nat, now: Time)
    requires df.Valid()
    ensures GerryLoad(store, [], geos, df, metaId, now) == Failure(ErrorsUnbound)
    ensures CherryLoad(store, [], geos, df, metaId, now) == Failure(ErrorsUnbound)
  {
  }

  /** Some current value of the store belongs to pair `p`. */
  ghost predicate HasCurrent(store: seq<ColumnValue>, p: (nat, nat)) {
    exists k :: 0 <= k < |store| && store[k].IsCurrent() && store[k].Pair() == p
  }

  /** Some entry of the frame's index names a geography with id `geoId`. */
  ghost predicate InIndex(df: DataFrame, geos: map<string, Geography>, geoId: nat) {
    exists t :: 0 <= t < |df.index| && df.index[t] in geos && geos[df.index[t]].geoId == geoId
  }

  /**
   * The current variant's close-out, row by row: a stored row gets
   * `valid_to = now` exactly when its column is one of the call's, its
   * geography is one of `geos`, and some current value holds its pair, be the
   * row itself current or not; every other stored row is kept as it was.
   */
  lemma GerryLoadCloses(store: seq<ColumnValue>, cols: seq<(string, DataColumn)>,
      geos: map<string, Geography>, df: DataFrame, metaId: nat, now: Time)
    requires df.Valid()
    requires GerryLoad(store, cols, geos, df, metaId, now).Success?
    ensures var after := GerryLoad(store, cols, geos, df, metaId, now).value;
      forall i :: 0 <= i < |store| ==>
        after[i] == (if store[i].colId in ColIds(cols) && store[i].geoId in GeoIds(geos) && HasCurrent(store, store[i].Pair())
                     then store[i].(validTo := Some(now)) else store[i])
  {
    var colIds := ColIds(cols);
    var geoIds := GeoIds(geos);
    forall i | 0 <= i < |store|
      ensures store[i].Pair() in GerryStale(store, colIds, geoIds) <==>
        store[i].colId in colIds && store[i].geoId in geoIds && HasCurrent(store, store[i].Pair())
    {
      GerryStaleSpec(store, colIds, geoIds, store[i].Pair());
    }
  }

  /**
   * The legacy variant's close-out, row by row: a stored row gets
   * `valid_to = now` exactly when it is current, its column is one of the
   * call's and its geography one of `geos`; every other stored row is kept.
   */
  lemma CherryLoadCloses(store: seq<ColumnValue>, cols: seq<(string, DataColumn)>,
      geos: map<string, Geography>, df: DataFrame, metaId: nat, now: Time)
    requires df.Valid()
    requires CherryLoad(store, cols, geos, df, metaId, now).Success?
    ensures var after := CherryLoad(store, cols, geos, df, metaId, now).value;
      forall i :: 0 <= i < |store| ==>
        after[i] == (if store[i].IsCurrent() && store[i].colId in ColIds(cols) && store[i].geoId in GeoIds(geos)
                     then store[i].(validTo := Some(now)) else store[i])
  {
    var colIds := ColIds(cols);
    assert forall c :: c in (set c | c in colIds) <==> c in colIds;
  }

  /** The (column, geography) pairs a batch writes are those of the call's columns and the index's geographies. */
  lemma CollectPairs(cols: seq<(string, DataColumn)>, geos: map<string, Geography>,
      df: DataFrame, metaId: nat, now: Time, p: (nat, nat))
    requires df.Valid()
    requires Collect(cols, geos, df, metaId, now, false).Success?
    ensures p in PairsOf(Collect(cols, geos, df, metaId, now, false).value.rows) <==>
      p.0 in ColIds(cols) && InIndex(df, geos, p.1)
  {
    var rows := Collect(cols, geos, df, metaId, now, false).value.rows;
    if p in PairsOf(rows) {
      var r :| r in rows && r.Pair() == p;
      CollectPairOrigin(cols, geos, df, metaId, now, r);
    }
    if p.0 in ColIds(cols) && InIndex(df, geos, p.1) {
      var j :| 0 <= j < |cols| && ColIds(cols)[j] == p.0;
      var t :| 0 <= t < |df.index| && df.index[t] in geos && geos[df.index[t]].geoId == p.1;
      CollectPairCover(cols, geos, df, metaId, now, j, t);
    }
  }

  lemma CollectPairOrigin(cols: seq<(string, DataColumn)>, geos: map<string, Geography>,
      df: DataFrame, metaId: nat, now: Time, r: ColumnValue)
    requires df.Valid()
    requires Collect(cols, geos, df, metaId, now, false).Success?
    requires r in Collect(cols, geos, df, metaId, now, false).value.rows
    ensures r.colId in ColIds(cols) && InIndex(df, geos, r.geoId)
  {
    CollectRowsOrigin(cols, geos, df, metaId, now, false);
    var j :| 0 <= j < |cols| && r.colId == cols[j].1.colId;
    assert ColIds(cols)[j] == r.colId;
  }

  lemma CollectPairCover(cols: seq<(string, DataColumn)>, geos: map<string, Geography>,
      df: DataFrame, metaId: nat, now: Time, j: nat, t: nat)
    requires df.Valid()
    requires Collect(cols, geos, df, metaId, now, false).Success?
    requires j < |cols| && t < |df.index| && df.index[t] in geos
    ensures (cols[j].1.colId, geos[df.index[t]].geoId) in PairsOf(Collect(cols, geos, df, metaId, now, false).value.rows)
  {
    var rows := Collect(cols, geos, df, metaId, now, false).value.rows;
    CollectRowLayout(cols, geos, df, metaId, now, j, t);
    var k := j * |df.index| + t;
    var r := rows[k];
    assert r.Pair() == (cols[j].1.colId, geos[df.index[t]].geoId);
    assert r in rows;
    PairOfRow(rows, r);
  }

  /**
   * The intended close-out, row by row: a stored row gets `valid_to = now`
   * exactly when it is current, its column is one of the call's and its
   * geography one the frame writes; every other stored row is kept.
   */
  lemma IntendedLoadCloses(store: seq<ColumnValue>, cols: seq<(string, DataColumn)>,
      geos: map<string, Geography>, df: DataFrame, metaId: nat, now: Time)
    requires df.Valid()
    requires IntendedLoad(store, cols, geos, df, metaId, now).Success?
    ensures var after := IntendedLoad(store, cols, geos, df, metaId, now).value;
      forall i :: 0 <= i < |store| ==>
        after[i] == (if store[i].IsCurrent() && store[i].colId in ColIds(cols) && InIndex(df, geos, store[i].geoId)
                     then store[i].(validTo := Some(now)) else store[i])
  {
    forall i | 0 <= i < |store| {
      CollectPairs(cols, geos, df, metaId, now, store[i].Pair());
    }
  }

  /**
   * All three loads leave alone every stored row outside the call's columns
   * and `geos`; the intended one also every row outside the frame's index.
   */
  lemma LoadsLeaveOtherPairs(store: seq<ColumnValue>, cols: seq<(string, DataColumn)>,
      geos: map<string, Geography>, df: DataFrame, metaId: nat, now: Time, i: nat)
    requires df.Valid() && i < |store|
    requires store[i].colId !in ColIds(cols) || store[i].geoId !in GeoIds(geos)
    ensures GerryLoad(store, cols, geos, df, metaId, now).Success? ==>
      GerryLoad(store, cols, geos, df, metaId, now).value[i] == store[i]
    ensures CherryLoad(store, cols, geos, df, metaId, now).Success? ==>
      CherryLoad(store, cols, geos, df, metaId, now).value[i] == store[i]
    ensures IntendedLoad(store, cols, geos, df, metaId, now).Success? ==>
      IntendedLoad(store, cols, geos, df, metaId, now).value[i] == store[i]
  {
    if GerryLoad(store, cols, geos, df, metaId, now).Success? {
      GerryLoadCloses(store, cols, geos, df, metaId, now);
    }
    if CherryLoad(store, cols, geos, df, metaId, now).Success? {
      CherryLoadCloses(store, cols, geos, df, metaId, now);
    }
    if IntendedLoad(store, cols, geos, df, metaId, now).Success? {
      IntendedLoadCloses(store, cols, geos, df, metaId, now);
    }
  }

  /**
   * The current variant's close-out matches pairs without `valid_to IS NULL`:
   * a row closed long ago gets its `valid_to` rewritten whenever its pair is
   * reloaded.
   */
  lemma GerryLoadRewritesClosedRows(store: seq<ColumnValue>, cols: seq<(string, DataColumn)>,
      geos: map<string, Geography>, df: DataFrame, metaId: nat, now: Time, i: nat, k: nat)
    requires df.Valid()
    requires GerryLoad(store, cols, geos, df, metaId, now).Success?
    requires i < |store| && k < |store|
    requires !store[i].IsCurrent() && store[k].IsCurrent() && store[i].Pair() == store[k].Pair()
    requires store[k].colId in ColIds(cols) && store[k].geoId in GeoIds(geos)
    ensures GerryLoad(store, cols, geos, df, metaId, now).value[i] == store[i].(validTo := Some(now))
  {
    GerryStaleSpec(store, ColIds(cols), GeoIds(geos), store[k].Pair());
  }

  /** After the current variant's close-out, no value of a loaded column and geography is current. */
  lemma ClosedLeavesNoCurrent(store: seq<ColumnValue>, colIds: seq<nat>, geoIds: set<nat>, now: Time, a: nat, p: (nat, nat))
    requires a < |store| && p.0 in colIds && p.1 in geoIds
    ensures var stale := GerryStale(store, colIds, geoIds);
      var closed := if |stale| > 0 then CloseByPairs(store, (set q | q in stale), now) else store;
      closed[a].IsCurrent() ==> closed[a].Pair() != p
  {
    GerryStaleSpec(store, colIds, geoIds, p);
  }

  /**
   * What the current variant's stale detection is for: over distinct columns
   * and geographies its load keeps at most one current value per pair.
   */
  lemma GerryLoadKeepsOneCurrent(store: seq<ColumnValue>, cols: seq<(string, DataColumn)>,
      geos: map<string, Geography>, df: DataFrame, metaId: nat, now: Time)
    requires df.Valid()
    requires GerryLoad(store, cols, geos, df, metaId, now).Success?
    requires AtMostOneCurrent(store)
    requires DistinctColumns(cols) && DistinctGeographies(df.index, geos)
    ensures AtMostOneCurrent(GerryLoad(store, cols, geos, df, metaId, now).value)
  {
    var rows := Collect(cols, geos, df, metaId, now, false).value.rows;
    var colIds := ColIds(cols);
    var geoIds := GeoIds(geos);
    var stale := GerryStale(store, colIds, geoIds);
    var closed := if |stale| > 0 then CloseByPairs(store, (set p | p in stale), now) else store;
    assert closed + rows == GerryLoad(store, cols, geos, df, metaId, now).value;
    CollectRowsDistinct(cols, geos, df, metaId, now);
    CollectRowsOrigin(cols, geos, df, metaId, now, false);
    if |stale| > 0 {
      CloseByPairsKeepsOneCurrent(store, (set p | p in stale), now);
    }
    forall a, r | 0 <= a < |closed| && r in rows && closed[a].IsCurrent()
      ensures closed[a].Pair() != r.Pair()
    {
      var j :| 0 <= j < |cols| && r.colId == cols[j].1.colId;
      var i :| 0 <= i < |df.index| && df.index[i] in geos && r.geoId == geos[df.index[i]].geoId;
      assert r.colId in colIds;
      assert r.geoId in geoIds;
      ClosedLeavesNoCurrent(store, colIds, geoIds, now, a, r.Pair());
    }
    AppendKeepsOneCurrent(closed, rows);
  }

  /** Closing values out never makes two current values share a pair. */
  lemma CloseByPairsKeepsOneCurrent(store: seq<ColumnValue>, pairs: set<(nat, nat)>, now: Time)
    requires AtMostOneCurrent(store)
    ensures AtMostOneCurrent(CloseByPairs(store, pairs, now))
  {
    var closed := CloseByPairs(store, pairs, now);
    forall a, b | 0 <= a < b < |closed| && closed[a].IsCurrent() && closed[b].IsCurrent()
      ensures closed[a].Pair() != closed[b].Pair()
    {
      assert closed[a] == store[a] && closed[b] == store[b];
    }
  }

  /** New rows of distinct pairs, none matching a current value, keep at most one current value per pair. */
  lemma AppendKeepsOneCurrent(closed: seq<ColumnValue>, rows: seq<ColumnValue>)
    requires AtMostOneCurrent(closed) && DistinctPairs(rows)
    requires forall a, r :: 0 <= a < |closed| && r in rows && closed[a].IsCurrent() ==> closed[a].Pair() != r.Pair()
    ensures AtMostOneCurrent(closed + rows)
  {
    var after := closed + rows;
    forall a, b | 0 <= a < b < |after| && after[a].IsCurrent() && after[b].IsCurrent()
      ensures after[a].Pair() != after[b].Pair()
    {
      if b >= |closed| {
        assert after[b] == rows[b - |closed|] && after[b] in rows;
        if a >= |closed| {
          assert after[a] == rows[a - |closed|];
        }
      }
    }
  }

  /**
   * The legacy variant restarts its row list for every column, yet closes the
   * current values of all of them: a geography's current value in any column
   * but the last is closed and not replaced, while the intended load replaces it.
   */
  lemma CherryLoadDropsCurrentValues(store: seq<ColumnValue>, cols: seq<(string, DataColumn)>,
      geos: map<string, Geography>, df: DataFrame, metaId: nat, now: Time, k: nat, t: nat)
    requires df.Valid()
    requires CherryLoad(store, cols, geos, df, metaId, now).Success?
    requires |cols| >= 2 && cols[0].1.colId != cols[|cols| - 1].1.colId
    requires t < |df.index| && df.index[t] in geos
    requires k < |store| && store[k].IsCurrent()
    requires store[k].Pair() == (cols[0].1.colId, geos[df.index[t]].geoId)
    ensures var after := CherryLoad(store, cols, geos, df, metaId, now).value;
      forall i :: 0 <= i < |after| && after[i].IsCurrent() ==> after[i].Pair() != store[k].Pair()
    ensures IntendedLoad(store, cols, geos, df, metaId, now).Success? ==>
      var after := IntendedLoad(store, cols, geos, df, metaId, now).value;
      exists i :: 0 <= i < |after| && after[i].IsCurrent() && after[i].Pair() == store[k].Pair()
  {
    CherryLoadClosesPair(store, cols, geos, df, metaId, now, k, t);
    IntendedLoadKeepsPair(store, cols, geos, df, metaId, now, k, t);
  }

  lemma CherryLoadClosesPair(store: seq<ColumnValue>, cols: seq<(string, DataColumn)>,
      geos: map<string, Geography>, df: DataFrame, metaId: nat, now: Time, k: nat, t: nat)
    requires df.Valid()
    requires CherryLoad(store, cols, geos, df, metaId, now).Success?
    requires |cols| >= 2 && cols[0].1.colId != cols[|cols| - 1].1.colId
    requires t < |df.index| && df.index[t] in geos
    requires k < |store| && store[k].IsCurrent()
    requires store[k].Pair() == (cols[0].1.colId, geos[df.index[t]].geoId)
    ensures var after := CherryLoad(store, cols, geos, df, metaId, now).value;
      forall i :: 0 <= i < |after| && after[i].IsCurrent() ==> after[i].Pair() != store[k].Pair()
  {
    var n := |cols| - 1;
    var colIds := set c | c in ColIds(cols);
    var stale := CherryStale(store, colIds, GeoIds(geos));
    assert ColIds(cols)[0] in colIds;
    assert k in stale;
    var rows := Collect(cols, geos, df, metaId, now, true).value.rows;
    ResetBatchIsLastColumn(cols, geos, df, metaId, now);
    var after := CloseByIds(store, stale, now) + rows;
    forall i | 0 <= i < |after| && after[i].IsCurrent() ensures after[i].Pair() != store[k].Pair() {
      if i >= |store| {
        ColumnRowAt(cols[n].1, geos, df.index, df.columns[cols[n].0], metaId, now, i - |store|);
      }
    }
  }

  lemma IntendedLoadKeepsPair(store: seq<ColumnValue>, cols: seq<(string, DataColumn)>,
      geos: map<string, Geography>, df: DataFrame, metaId: nat, now: Time, k: nat, t: nat)
    requires df.Valid()
    requires |cols| >= 1
    requires t < |df.index| && df.index[t] in geos
    requires k < |store|
    requires store[k].Pair() == (cols[0].1.colId, geos[df.index[t]].geoId)
    ensures IntendedLoad(store, cols, geos, df, metaId, now).Success? ==>
      var after := IntendedLoad(store, cols, geos, df, metaId, now).value;
      exists i :: 0 <= i < |after| && after[i].IsCurrent() && after[i].Pair() == store[k].Pair()
  {
    if IntendedLoad(store, cols, geos, df, metaId, now).Success? {
      var full := Collect(cols, geos, df, metaId, now, false).value.rows;
      CollectRowLayout(cols, geos, df, metaId, now, 0, t);
      var intended := IntendedLoad(store, cols, geos, df, metaId, now).value;
      assert intended[|store| + t] == full[t];
    }
  }

  // A two-column load into an empty store whose first column holds a string in an INTEGER column.
  const ExampleCols: seq<(string, DataColumn)> := [("a", DataColumn(0, IntType)), ("b", DataColumn(1, IntType))]
  const ExampleGeos: map<string, Geography> := map["x" := Geography(7, "x")]
  const ExampleFrame: DataFrame := DataFrame(["x"], map["a" := [PyStr("oops")], "b" := [PyInt(1)]])
  const ExampleRowA: ColumnValue := ColumnValue(0, 7, 3, 100, None, PyStr("oops"))
  const ExampleRowB: ColumnValue := ColumnValue(1, 7, 3, 100, None, PyInt(1))

  lemma ExampleBatch()
    ensures ExampleFrame.Valid()
    ensures Collect(ExampleCols, ExampleGeos, ExampleFrame, 3, 100, false)
      == Success(Batch([ExampleRowA, ExampleRowB], Some([])))
  {
    var cols, geos, df := ExampleCols, ExampleGeos, ExampleFrame;
    assert cols[..1][..0] == [];
    assert df.index[..0] == [];
    assert FirstMissing(df.index, geos) == None;
    assert ColumnRows(cols[0].1, geos, df.index, df.columns["a"], 3, 100) == [ExampleRowA] by {
      assert df.columns["a"][..0] == [];
    }
    assert ColumnErrors(IntType, df.columns["a"]) == [IntMessage] by {
      assert df.columns["a"][..0] == [];
    }
    assert ColumnRows(cols[1].1, geos, df.index, df.columns["b"], 3, 100) == [ExampleRowB] by {
      assert df.columns["b"][..0] == [];
    }
    assert ColumnErrors(IntType, df.columns["b"]) == [] by {
      assert df.columns["b"][..0] == [];
    }
    assert Collect(cols[..1], geos, df, 3, 100, false) == Success(Batch([ExampleRowA], Some([IntMessage])));
    assert cols[..|cols| - 1] == cols[..1];
    assert "b" in df.columns;
    assert [ExampleRowA] + [ExampleRowB] == [ExampleRowA, ExampleRowB];
    assert Collect(cols, geos, df, 3, 100, false)
      == Success(Batch([ExampleRowA] + ColumnRows(cols[1].1, geos, df.index, df.columns["b"], 3, 100),
                       Some(ColumnErrors(IntType, df.columns["b"]))));
  }

  /**
   * The current variant resets its error list for every column, so only the
   * last column's errors decide: a wrong value in an earlier column is written.
   */
  lemma GerryLoadIgnoresEarlierColumnErrors()
    ensures ExampleFrame.Valid()
    ensures GerryLoad([], ExampleCols, ExampleGeos, ExampleFrame, 3, 100) == Success([ExampleRowA, ExampleRowB])
  {
    ExampleBatch();
    NothingStaleInEmptyStore(ColIds(ExampleCols), GeoIds(ExampleGeos));
    var empty: seq<ColumnValue> := [];
    assert empty + [ExampleRowA, ExampleRowB] == [ExampleRowA, ExampleRowB];
  }

  /** The intended load refuses the same call, naming the bad cell. */
  lemma IntendedLoadReportsEarlierColumnErrors()
    ensures ExampleFrame.Valid()
    ensures IntendedLoad([], ExampleCols, ExampleGeos, ExampleFrame, 3, 100) == Failure(Validation([IntMessage]))
  {
    ExampleBatch();
    var cols, df := ExampleCols, ExampleFrame;
    assert IntendedErrors(cols[..1], df) == [IntMessage] by {
      assert cols[..1][..0] == [];
      assert df.columns["a"][..0] == [];
    }
    assert IntendedErrors(cols, df) == [IntMessage] by {
      assert cols[..|cols| - 1] == cols[..1];
      assert df.columns["b"][..0] == [];
    }
  }

  /**
   * Whenever the validation raise is reached, both variants report the
   * `TypeError` of its keyword argument instead of the messages; the intended
   * load reports the messages.
   */
  lemma ValidationMessagesAreLost(store: seq<ColumnValue>, cols: seq<(string, DataColumn)>,
      geos: map<string, Geography>, df: DataFrame, metaId: nat, now: Time)
    requires df.Valid()
    requires Collect(cols, geos, df, metaId, now, false).Success?
    requires |cols| > 0 && cols[|cols| - 1].1.ctype != BoolType
    requires Collect(cols, geos, df, metaId, now, false).value.lastErrors != Some([])
    ensures GerryLoad(store, cols, geos, df, metaId, now) == Failure(KeywordRejected)
    ensures CherryLoad(store, cols, geos, df, metaId, now) == Failure(KeywordRejected)
    ensures IntendedLoad(store, cols, geos, df, metaId, now).Failure?
    ensures IntendedLoad(store, cols, geos, df, metaId, now).error.Validation?
  {
    CollectResetAgnostic(cols, geos, df, metaId, now);
    var n := |cols| - 1;
    var values := df.columns[cols[n].0];
    assert ColumnErrors(cols[n].1.ctype, values) != [];
    var i :| 0 <= i < |values| && CheckCell(cols[n].1.ctype, values[i]).error.Some?;
    CheckCellsDifferOnlyOnBool(cols[n].1.ctype, values[i]);
    assert IntendedErrors(cols, df) != [];
  }
}
