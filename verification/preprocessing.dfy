/**
 * The missing-value helpers: imputing a column while recording which rows
 * held a real value, and finding the listings whose review scores are
 * partly, but not wholly, missing.
 */
module Preprocessing {
  import opened Wrappers
  import opened Frame

  /** `fillna(default)`: every missing cell takes the default. */
  function Fill(c: Column, default: Value): (r: Column)
    ensures |r| == |c|
    ensures forall i :: 0 <= i < |c| ==> r[i].Some?
    ensures forall i :: 0 <= i < |c| ==> c[i].Some? ==> r[i] == c[i]
    ensures forall i :: 0 <= i < |c| ==> c[i].None? ==> r[i] == Some(default)
  {
    seq(|c|, i requires 0 <= i < |c| => Some(c[i].GetOr(default)))
  }

  /** `(c != default).astype(int)`; a missing cell differs from every value. */
  function DiffersAsInt(c: Column, default: Value): (r: Column)
    ensures |r| == |c|
  {
    seq(|c|, i requires 0 <= i < |c| => Some(Num(if c[i].Some? && PyEq(c[i].value, default) then 0.0 else 1.0)))
  }

  /** The label of the indicator column. */
  function PresentName(column: string): string {
    column + "_present"
  }

  /**
   * `impute_and_create_binary_feature(df, column_name, default_value)`: in
   * the caller's table the column is filled in place and `{column}_present`
   * is added; the returned table is that one without the original column.
   */
  function ImputeAndCreateBinaryFeature(df: Table, column: string, default: Value): (r: Call<Table>)
    requires Valid(df)
    ensures column !in df.data <==> r.outcome.Err?
    ensures column !in df.data ==> r == Call(df, Err(KeyError([column])))
    ensures r.outcome.Ok? ==>
      var out := r.outcome.value;
      && Valid(r.after) && Valid(out)
      && r.after.rows == df.rows && out.rows == df.rows
      && column in r.after.data && r.after.data[column] == Fill(df.data[column], default)
      && column !in out.data
      && PresentName(column) in r.after.data && PresentName(column) in out.data
      && out.data[PresentName(column)] == r.after.data[PresentName(column)]
      && SameExcept(df, r.after, [column, PresentName(column)])
      && SameExcept(df, out, [column, PresentName(column)])
      && out.names == Remove(r.after.names, column)
  {
    if column !in df.data then Call(df, Err(KeyError([column])))
    else
      var filled := Fill(df.data[column], default);
      var t1 := Assign(df, column, filled);
      assert |PresentName(column)| > |column|;
      var t2 := Assign(t1, PresentName(column), DiffersAsInt(filled, default));
      var out := Drop(t2, column);
      SameExceptChain(df, t1, t2, [column], [PresentName(column)]);
      SameExceptChain(df, t2, out, [column, PresentName(column)], [column]);
      Call(t2, Ok(out))
  }

  /** The indicator is 1 exactly where the original cell held a value other than the default, and 0 elsewhere. */
  lemma PresenceIndicator(df: Table, column: string, default: Value, i: nat)
    requires Valid(df) && column in df.data && i < df.rows
    ensures var r := ImputeAndCreateBinaryFeature(df, column, default);
      var original := df.data[column][i];
      && r.outcome.Ok?
      && r.outcome.value.data[PresentName(column)][i]
         == Some(Num(if original.Some? && !PyEq(original.value, default) then 1.0 else 0.0))
  {
  }

  /** The cells of row `i` in the listed columns, in list order (a label listed twice appears twice). */
  function RowOf(t: Table, cols: seq<string>, i: nat): (r: seq<Cell>)
    requires Valid(t) && i < t.rows
    requires forall k :: 0 <= k < |cols| ==> cols[k] in t.data
    ensures |r| == |cols|
    ensures forall k :: 0 <= k < |cols| ==> r[k] == t.data[cols[k]][i]
  {
    seq(|cols|, k requires 0 <= k < |cols| => t.data[cols[k]][i])
  }

  /** `isnull().any(axis=1)` on one row. */
  predicate AnyMissing(row: seq<Cell>) {
    exists k :: 0 <= k < |row| && row[k].None?
  }

  /** `isnull().all(axis=1)` on one row; an empty row is vacuously all missing. */
  predicate AllMissing(row: seq<Cell>) {
    forall k :: 0 <= k < |row| ==> row[k].None?
  }

  /** Some but not all of the row is missing. */
  predicate PartialMissing(row: seq<Cell>) {
    AnyMissing(row) && !AllMissing(row)
  }

  /** `isnull().sum(axis=1)` on one row. */
  function NullCount(row: seq<Cell>): (n: nat)
    ensures n <= |row|
  {
    if row == [] then 0 else (if row[0].None? then 1 else 0) + NullCount(row[1..])
  }

  /** A row has a missing cell exactly when its null count is positive, and is all missing exactly when the count is its length. */
  lemma {:induction false} NullCountMeaning(row: seq<Cell>)
    ensures NullCount(row) > 0 <==> AnyMissing(row)
    ensures NullCount(row) == |row| <==> AllMissing(row)
    decreases |row|
  {
    if row != [] {
      NullCountMeaning(row[1..]);
      assert forall k :: 1 <= k < |row| ==> row[k] == row[1..][k - 1];
      if AnyMissing(row[1..]) {
        var k :| 0 <= k < |row[1..]| && row[1..][k].None?;
        assert row[k + 1].None?;
      }
      if !AllMissing(row[1..]) {
        var k :| 0 <= k < |row[1..]| && !row[1..][k].None?;
        assert !row[k + 1].None?;
      }
    }
  }

  /** The positions below `n` of the rows that are partly missing in `cols`, in increasing order. */
  function PartialRows(t: Table, cols: seq<string>, n: nat): (r: seq<nat>)
    requires Valid(t) && n <= t.rows
    requires forall k :: 0 <= k < |cols| ==> cols[k] in t.data
    ensures forall k :: 0 <= k < |r| ==> r[k] < n
    ensures forall j, k :: 0 <= j < k < |r| ==> r[j] < r[k]
    ensures forall i: nat :: i in r <==> i < n && PartialMissing(RowOf(t, cols, i))
  {
    if n == 0 then []
    else PartialRows(t, cols, n - 1) + (if PartialMissing(RowOf(t, cols, n - 1)) then [n - 1] else [])
  }

  /** How many rows below `n` have a missing cell in `cols`. */
  function CountAny(t: Table, cols: seq<string>, n: nat): nat
    requires Valid(t) && n <= t.rows
    requires forall k :: 0 <= k < |cols| ==> cols[k] in t.data
  {
    if n == 0 then 0 else CountAny(t, cols, n - 1) + (if AnyMissing(RowOf(t, cols, n - 1)) then 1 else 0)
  }

  /** How many rows below `n` are missing in every one of `cols`. */
  function CountAll(t: Table, cols: seq<string>, n: nat): nat
    requires Valid(t) && n <= t.rows
    requires forall k :: 0 <= k < |cols| ==> cols[k] in t.data
  {
    if n == 0 then 0 else CountAll(t, cols, n - 1) + (if AllMissing(RowOf(t, cols, n - 1)) then 1 else 0)
  }

  /**
   * The printed counts agree: with at least one review column, an all-missing
   * row is also an any-missing row, so the partial count is their difference,
   * and it is the number of selected rows. With no column every row is
   * vacuously all missing and none has a missing cell.
   */
  lemma {:induction false} PartialCountIdentity(t: Table, cols: seq<string>, n: nat)
    requires Valid(t) && n <= t.rows
    requires forall k :: 0 <= k < |cols| ==> cols[k] in t.data
    ensures CountAll(t, cols, n) <= CountAny(t, cols, n) || cols == []
    ensures cols != [] ==> |PartialRows(t, cols, n)| == CountAny(t, cols, n) - CountAll(t, cols, n)
    ensures cols == [] ==> CountAll(t, cols, n) == n && CountAny(t, cols, n) == 0 && PartialRows(t, cols, n) == []
    decreases n
  {
    if n > 0 {
      PartialCountIdentity(t, cols, n - 1);
      var row := RowOf(t, cols, n - 1);
      if cols != [] && AllMissing(row) {
        assert row[0].None?;
      }
    }
  }

  /** What `partial_review_missing` returns: the selected rows of the chosen columns, and their ids. */
  datatype PartialReport = PartialReport(frame: seq<Named>, ids: seq<Cell>)

  /** How often `x` occurs in `s`. */
  function Occurrences(s: seq<string>, x: string): (n: nat)
    ensures n == 0 <==> x !in s
  {
    if s == [] then 0 else (if s[0] == x then 1 else 0) + Occurrences(s[1..], x)
  }

  /** `[id_col]`, then `extra_cols` when given and non-empty, then `review_cols`. */
  function ReturnColumns(reviewCols: seq<string>, idCol: string, extraCols: Option<seq<string>>): seq<string> {
    [idCol] + extraCols.GetOr([]) + reviewCols
  }

  /**
   * `partial_review_missing(df, review_cols, id_col=, extra_cols=)`. The
   * caller's table is never changed. Absent review columns raise KeyError
   * naming them; then absent returned columns do. When the id label is
   * returned more than once, selecting it yields a table, which has no
   * `tolist`.
   */
  function PartialReviewMissing(df: Table, reviewCols: seq<string>, idCol: string, extraCols: Option<seq<string>>): (r: Call<PartialReport>)
    requires Valid(df)
    ensures r.after == df
    ensures Absent(df, reviewCols) != [] ==> r.outcome == Err(KeyError(Absent(df, reviewCols)))
    ensures Absent(df, reviewCols) == [] && Absent(df, ReturnColumns(reviewCols, idCol, extraCols)) != [] ==>
      r.outcome == Err(KeyError(Absent(df, ReturnColumns(reviewCols, idCol, extraCols))))
    ensures r.outcome.Ok? <==>
      Absent(df, ReturnColumns(reviewCols, idCol, extraCols)) == [] && Occurrences(ReturnColumns(reviewCols, idCol, extraCols), idCol) == 1
    ensures r.outcome.Ok? ==>
      var cols := ReturnColumns(reviewCols, idCol, extraCols);
      var selected := PartialRows(df, reviewCols, df.rows);
      && |r.outcome.value.frame| == |cols|
      && (forall k :: 0 <= k < |cols| ==> r.outcome.value.frame[k] == Named(cols[k], Pick(df.data[cols[k]], selected)))
      && r.outcome.value.ids == Pick(df.data[idCol], selected)
  {
    var cols := ReturnColumns(reviewCols, idCol, extraCols);
    if Absent(df, reviewCols) != [] then
      assert Absent(df, reviewCols)[0] in Absent(df, cols);
      Call(df, Err(KeyError(Absent(df, reviewCols))))
    else if Absent(df, cols) != [] then Call(df, Err(KeyError(Absent(df, cols))))
    else
      var selected := PartialRows(df, reviewCols, df.rows);
      var frame := Project(df, cols, selected);
      if Occurrences(cols, idCol) > 1 then Call(df, Err(AttributeError("tolist")))
      else Call(df, Ok(PartialReport(frame, Pick(df.data[idCol], selected))))
  }

  /** The label `partially_missing` stores the per-row null count under. */
  const NUM_MISSING: string := "num_missing_reviews"

  /** `df[cols].isnull().sum(axis=1)`: the number of missing cells of each row among `cols`. */
  function NullCountColumn(t: Table, cols: seq<string>): (r: Column)
    requires Valid(t)
    requires forall k :: 0 <= k < |cols| ==> cols[k] in t.data
    ensures |r| == t.rows
  {
    seq(t.rows, i requires 0 <= i < t.rows => Some(Num(NullCount(RowOf(t, cols, i)) as real)))
  }

  /** `c > 0` on a count cell. */
  predicate PositiveCount(c: Cell) {
    c.Some? && c.value.Num? && c.value.x > 0.0
  }

  /**
   * The rows below `n` that `partially_missing` keeps, read from the table
   * holding the count: a positive count, and not every listed cell missing.
   */
  function KeptRows(t: Table, cols: seq<string>, n: nat): (r: seq<nat>)
    requires Valid(t) && n <= t.rows && NUM_MISSING in t.data
    requires forall k :: 0 <= k < |cols| ==> cols[k] in t.data
    ensures forall k :: 0 <= k < |r| ==> r[k] < n
  {
    if n == 0 then []
    else
      var i := n - 1;
      KeptRows(t, cols, i) + (if PositiveCount(t.data[NUM_MISSING][i]) && !AllMissing(RowOf(t, cols, i)) then [i] else [])
  }

  /** The labels `partially_missing` returns: the review columns, then the id, the URL and the review count. */
  function DisplayColumns(reviewCols: seq<string>): seq<string> {
    reviewCols + ["id", "listing_url", "number_of_reviews"]
  }

  /** What `partially_missing` returns: the kept rows of the displayed columns, and their ids wrapped in a one-element list. */
  datatype WrappedReport = WrappedReport(frame: seq<Named>, idLists: seq<seq<Cell>>)

  /**
   * `partially_missing(df, review_columns)`. Absent review columns raise
   * KeyError before anything changes; otherwise the caller's table gains
   * `num_missing_reviews`, and then a missing `id` and then missing
   * displayed columns raise KeyError.
   */
  function PartiallyMissing(df: Table, reviewCols: seq<string>): (r: Call<WrappedReport>)
    requires Valid(df)
    ensures Absent(df, reviewCols) != [] ==> r == Call(df, Err(KeyError(Absent(df, reviewCols))))
    ensures Absent(df, reviewCols) == [] ==>
      var counted := Assign(df, NUM_MISSING, NullCountColumn(df, reviewCols));
      var kept := KeptRows(counted, reviewCols, df.rows);
      && r.after == counted
      && ("id" !in counted.data ==> r.outcome == Err(KeyError(["id"])))
      && ("id" in counted.data && Absent(counted, DisplayColumns(reviewCols)) != [] ==>
            r.outcome == Err(KeyError(Absent(counted, DisplayColumns(reviewCols)))))
      && (r.outcome.Ok? <==> Absent(counted, DisplayColumns(reviewCols)) == [])
      && (r.outcome.Ok? ==>
            && |r.outcome.value.frame| == |DisplayColumns(reviewCols)|
            && (forall k :: 0 <= k < |DisplayColumns(reviewCols)| ==>
                  r.outcome.value.frame[k] == Named(DisplayColumns(reviewCols)[k], Pick(counted.data[DisplayColumns(reviewCols)[k]], kept)))
            && r.outcome.value.idLists == [Pick(counted.data["id"], kept)])
  {
    if Absent(df, reviewCols) != [] then Call(df, Err(KeyError(Absent(df, reviewCols))))
    else
      var counted := Assign(df, NUM_MISSING, NullCountColumn(df, reviewCols));
      var kept := KeptRows(counted, reviewCols, df.rows);
      var display := DisplayColumns(reviewCols);
      if "id" !in counted.data then Call(counted, Err(KeyError(["id"])))
      else if Absent(counted, display) != [] then Call(counted, Err(KeyError(Absent(counted, display))))
      else Call(counted, Ok(WrappedReport(Project(counted, display, kept), [Pick(counted.data["id"], kept)])))
  }

  /** One row of the counted table: `partially_missing` keeps it exactly when it is partially missing. */
  lemma KeptRowIsPartialRow(df: Table, reviewCols: seq<string>, i: nat)
    requires Valid(df) && i < df.rows
    requires forall k :: 0 <= k < |reviewCols| ==> reviewCols[k] in df.data
    requires NUM_MISSING !in reviewCols
    ensures var counted := Assign(df, NUM_MISSING, NullCountColumn(df, reviewCols));
      (PositiveCount(counted.data[NUM_MISSING][i]) && !AllMissing(RowOf(counted, reviewCols, i)))
        == PartialMissing(RowOf(df, reviewCols, i))
  {
    var counted := Assign(df, NUM_MISSING, NullCountColumn(df, reviewCols));
    var row := RowOf(df, reviewCols, i);
    assert RowOf(counted, reviewCols, i) == row;
    assert counted.data[NUM_MISSING][i] == Some(Num(NullCount(row) as real));
    NullCountMeaning(row);
  }

  /** When the count label is not itself a review column, the two functions select the same rows. */
  lemma {:induction false} KeptRowsArePartialRows(df: Table, reviewCols: seq<string>, n: nat)
    requires Valid(df) && n <= df.rows
    requires forall k :: 0 <= k < |reviewCols| ==> reviewCols[k] in df.data
    requires NUM_MISSING !in reviewCols
    ensures KeptRows(Assign(df, NUM_MISSING, NullCountColumn(df, reviewCols)), reviewCols, n) == PartialRows(df, reviewCols, n)
    decreases n
  {
    if n > 0 {
      var counted := Assign(df, NUM_MISSING, NullCountColumn(df, reviewCols));
      var i := n - 1;
      KeptRowsArePartialRows(df, reviewCols, i);
      KeptRowIsPartialRow(df, reviewCols, i);
      assert KeptRows(counted, reviewCols, n)
        == KeptRows(counted, reviewCols, i) + (if PartialMissing(RowOf(df, reviewCols, i)) then [i] else []);
    }
  }

  /**
   * `partially_missing` and `partial_review_missing` (with the default id
   * label) report the same listings, in the same order, as long as the
   * count label is not a review column.
   */
  lemma PartiallyMissingAgrees(df: Table, reviewCols: seq<string>)
    requires Valid(df)
    requires NUM_MISSING !in reviewCols
    ensures var r := PartiallyMissing(df, reviewCols);
      r.outcome.Ok? ==> r.outcome.value.idLists == [Pick(df.data["id"], PartialRows(df, reviewCols, df.rows))]
    ensures var r := PartiallyMissing(df, reviewCols);
      var s := PartialReviewMissing(df, reviewCols, "id", None);
      r.outcome.Ok? && s.outcome.Ok? ==> r.outcome.value.idLists == [s.outcome.value.ids]
  {
    if Absent(df, reviewCols) == [] {
      KeptRowsArePartialRows(df, reviewCols, df.rows);
    }
  }
}
