/**
 * The table-level recodings of the feature-engineering script: review
 * columns onto the ordered review scale, day counts onto the review-age and
 * recency bands, flag columns onto booleans, and a date column onto a
 * days-since column. Each function returns a `Call`: the caller's table
 * after the call (pandas mutates it when `inplace` is set, and always in
 * `convert_columns_to_boolean`) and what was returned or raised.
 */
module FeatureEngineering {
  import opened Wrappers
  import opened Frame
  import opened Classifiers

  // ---------------------------------------------------------------------
  // Boolean coercion
  // ---------------------------------------------------------------------

  /** `col.dropna().unique()`, as a set. */
  function DistinctValues(c: Column): set<Value> {
    set i | 0 <= i < |c| && c[i].Some? :: c[i].value
  }

  /** Membership in the Python set `{0, 1}`; `True` and `1.0` are members too. */
  predicate IsZeroOrOne(v: Value) {
    PyEq(v, Num(0.0)) || PyEq(v, Num(1.0))
  }

  /** Membership in the Python set `{'t', 'f'}`. */
  predicate IsTOrF(v: Value) {
    v == Text("t") || v == Text("f")
  }

  /** `astype(bool)` on one cell; what a missing cell becomes depends on the column's dtype, so it is `missingAs`. */
  function CastToBool(c: Cell, missingAs: bool): Cell {
    match c
    case None => Some(Flag(missingAs))
    case Some(v) => Some(Flag(!PyEq(v, Num(0.0))))
  }

  /** `map({'t': True, 'f': False})` on one cell; anything else becomes missing. */
  function MapTF(c: Cell): Cell {
    match c
    case Some(Text(s)) => if s == "t" then Some(Flag(true)) else if s == "f" then Some(Flag(false)) else None
    case _ => None
  }

  /** The conversion of one column by `convert_columns_to_boolean`. */
  function BooleanColumn(name: string, c: Column, missingAs: bool): (r: Result<Column, Error>)
    ensures r.Ok? ==> |r.value| == |c|
  {
    var u := DistinctValues(c);
    if forall v :: v in u ==> IsZeroOrOne(v) then
      Ok(seq(|c|, i requires 0 <= i < |c| => CastToBool(c[i], missingAs)))
    else if forall v :: v in u ==> IsTOrF(v) then
      Ok(seq(|c|, i requires 0 <= i < |c| => MapTF(c[i])))
    else
      Err(ValueError("Column '" + name + "' contains unsupported values for boolean conversion."))
  }

  /** Every present cell of `c` is in `{0, 1}`. */
  ghost predicate AllZeroOne(c: Column) {
    forall i :: 0 <= i < |c| && c[i].Some? ==> IsZeroOrOne(c[i].value)
  }

  /** Every present cell of `c` is `'t'` or `'f'`. */
  ghost predicate AllTF(c: Column) {
    forall i :: 0 <= i < |c| && c[i].Some? ==> IsTOrF(c[i].value)
  }

  /**
   * The three branches of the coercion, stated over the cells: a 0/1 column is
   * cast cell by cell, a t/f column is mapped with 't' to True and 'f' to False,
   * and any other column raises ValueError. Row order and count are kept.
   */
  lemma BooleanColumnBranches(name: string, c: Column, missingAs: bool)
    ensures AllZeroOne(c) ==> BooleanColumn(name, c, missingAs).Ok?
    ensures AllZeroOne(c) ==> forall i :: 0 <= i < |c| ==>
      BooleanColumn(name, c, missingAs).value[i] ==
        Some(Flag(if c[i].Some? then !PyEq(c[i].value, Num(0.0)) else missingAs))
    ensures !AllZeroOne(c) && AllTF(c) ==> BooleanColumn(name, c, missingAs).Ok?
    ensures !AllZeroOne(c) && AllTF(c) ==> forall i :: 0 <= i < |c| ==>
      BooleanColumn(name, c, missingAs).value[i] ==
        (if c[i] == Some(Text("t")) then Some(Flag(true))
         else if c[i] == Some(Text("f")) then Some(Flag(false))
         else None)
    ensures BooleanColumn(name, c, missingAs).Err? <==> !AllZeroOne(c) && !AllTF(c)
    ensures BooleanColumn(name, c, missingAs).Err? ==>
      BooleanColumn(name, c, missingAs).error == ValueError("Column '" + name + "' contains unsupported values for boolean conversion.")
  {
    var u := DistinctValues(c);
    assert (forall v :: v in u ==> IsZeroOrOne(v)) <==> AllZeroOne(c) by {
      if AllZeroOne(c) {
        forall v | v in u ensures IsZeroOrOne(v) { var i :| 0 <= i < |c| && c[i].Some? && c[i].value == v; }
      }
      if forall v :: v in u ==> IsZeroOrOne(v) {
        forall i | 0 <= i < |c| && c[i].Some? ensures IsZeroOrOne(c[i].value) { assert c[i].value in u; }
      }
    }
    assert (forall v :: v in u ==> IsTOrF(v)) <==> AllTF(c) by {
      if AllTF(c) {
        forall v | v in u ensures IsTOrF(v) { var i :| 0 <= i < |c| && c[i].Some? && c[i].value == v; }
      }
      if forall v :: v in u ==> IsTOrF(v) {
        forall i | 0 <= i < |c| && c[i].Some? ensures IsTOrF(c[i].value) { assert c[i].value in u; }
      }
    }
  }

  /** An all-missing column has no distinct values, so it takes the 0/1 branch and every cell becomes `missingAs`. */
  lemma AllMissingColumnIsCast(name: string, c: Column, missingAs: bool)
    requires forall i :: 0 <= i < |c| ==> c[i].None?
    ensures BooleanColumn(name, c, missingAs) == Ok(seq(|c|, i => Some(Flag(missingAs))))
  {
    assert DistinctValues(c) == {};
    assert BooleanColumn(name, c, missingAs).value == seq(|c|, i => Some(Flag(missingAs)));
  }

  // ---------------------------------------------------------------------
  // Column-by-column recoding loops
  // ---------------------------------------------------------------------

  /**
   * The recoding a loop applies to each listed column. What `astype(bool)`
   * makes of a missing cell depends on that column's dtype, so `missingAs`
   * gives it per column label.
   */
  datatype Recoder = ReviewScores | ToBoolean(missingAs: string -> bool)

  /** One column under a recoder: review scores fail on string cells, booleans on unsupported values. */
  function Recode(r: Recoder, name: string, c: Column): (res: Result<Column, Error>)
    ensures res.Ok? ==> |res.value| == |c|
  {
    match r
    case ReviewScores => if NumericColumn(c) then Ok(MapScores(c, ReviewLabel)) else Err(TypeError(name))
    case ToBoolean(m) => BooleanColumn(name, c, m(name))
  }

  /** Where a loop over columns stopped: the table as it was then, and the error raised, if any. */
  datatype Progress = Progress(table: Table, error: Option<Error>)

  /** `for col in cols`: raise KeyError at the first absent column, otherwise recode it in place and go on. */
  function RecodeEach(t: Table, r: Recoder, cols: seq<string>): (p: Progress)
    requires Valid(t)
    ensures Valid(p.table) && p.table.rows == t.rows && p.table.names == t.names
    ensures SameExcept(t, p.table, cols)
    decreases |cols|
  {
    if cols == [] then Progress(t, None)
    else if cols[0] !in t.data then Progress(t, Some(KeyError([cols[0]])))
    else
      match Recode(r, cols[0], t.data[cols[0]])
      case Err(e) => Progress(t, Some(e))
      case Ok(c) => RecodeEach(Assign(t, cols[0], c), r, cols[1..])
  }

  /** When the loop runs to the end over distinct labels, every listed column was present and holds its recoding. */
  lemma {:induction false} RecodeEachDone(t: Table, r: Recoder, cols: seq<string>)
    requires Valid(t) && Distinct(cols)
    requires RecodeEach(t, r, cols).error.None?
    ensures forall k :: 0 <= k < |cols| ==>
      cols[k] in t.data && Recode(r, cols[k], t.data[cols[k]]) == Ok(RecodeEach(t, r, cols).table.data[cols[k]])
    decreases |cols|
  {
    if cols != [] {
      var c := Recode(r, cols[0], t.data[cols[0]]).value;
      var t1 := Assign(t, cols[0], c);
      var rest := cols[1..];
      assert Distinct(rest);
      RecodeEachDone(t1, r, rest);
      assert cols[0] !in rest;
      forall k | 1 <= k < |cols| ensures cols[k] != cols[0] && rest[k - 1] == cols[k] { }
    }
  }

  /**
   * With the first `k` labels distinct, present and recodable, the loop
   * completes them; if the next label is absent it stops there with KeyError,
   * the table holding exactly the first `k` recodings.
   */
  lemma {:induction false} RecodeEachStops(t: Table, r: Recoder, cols: seq<string>, k: nat)
    requires Valid(t) && k <= |cols| && Distinct(cols[..k])
    requires forall j :: 0 <= j < k ==> cols[j] in t.data && Recode(r, cols[j], t.data[cols[j]]).Ok?
    ensures RecodeEach(t, r, cols[..k]).error.None?
    ensures k < |cols| && cols[k] !in t.data ==>
      RecodeEach(t, r, cols) == Progress(RecodeEach(t, r, cols[..k]).table, Some(KeyError([cols[k]])))
    decreases k
  {
    if k == 0 {
      assert cols[..0] == [];
    } else {
      var c := Recode(r, cols[0], t.data[cols[0]]).value;
      var t1 := Assign(t, cols[0], c);
      var rest := cols[1..];
      assert cols[..k][0] == cols[0] && cols[..k][1..] == rest[..k - 1];
      DistinctTail(cols[..k]);
      forall j | 0 <= j < k - 1 ensures rest[j] in t1.data && Recode(r, rest[j], t1.data[rest[j]]).Ok? {
        assert rest[j] == cols[j + 1];
        assert cols[..k][j + 1] != cols[..k][0];
      }
      RecodeEachStops(t1, r, rest, k - 1);
      if k < |cols| && cols[k] !in t.data {
        assert rest[k - 1] == cols[k] && cols[k] != cols[0];
      }
    }
  }

  /** The index of the first label of `cols` that `t` lacks; `|cols|` when all are present. */
  function FirstAbsent(t: Table, cols: seq<string>): (k: nat)
    ensures k <= |cols|
    ensures forall j :: 0 <= j < k ==> cols[j] in t.data
    ensures k < |cols| ==> cols[k] !in t.data
  {
    if cols == [] then 0
    else if cols[0] !in t.data then 0
    else
      var k := FirstAbsent(t, cols[1..]);
      assert forall j :: 1 <= j < |cols| ==> cols[1..][j - 1] == cols[j];
      1 + k
  }

  /** Turns where a loop stopped into what the call returned or raised. */
  function Outcome(p: Progress): Result<Table, Error> {
    match p.error
    case None => Ok(p.table)
    case Some(e) => Err(e)
  }

  // ---------------------------------------------------------------------
  // categorize_reviews
  // ---------------------------------------------------------------------

  /**
   * `categorize_reviews(df, review_columns, inplace=...)`. Without `inplace`
   * the caller's table is never touched, even on error; with it the caller
   * sees every recoding done before the error.
   */
  function CategorizeReviews(df: Table, reviewColumns: seq<string>, inplace: bool): (r: Call<Table>)
    requires Valid(df)
    ensures !inplace ==> r.after == df
    ensures inplace ==> Valid(r.after) && r.after.names == df.names && SameExcept(df, r.after, reviewColumns)
    ensures r.outcome.Ok? ==> inplace ==> r.after == r.outcome.value
    ensures r.outcome.Ok? ==> Valid(r.outcome.value) && r.outcome.value.rows == df.rows && r.outcome.value.names == df.names
    ensures r.outcome.Ok? ==> SameExcept(df, r.outcome.value, reviewColumns)
  {
    var p := RecodeEach(df, ReviewScores, reviewColumns);
    Call(if inplace then p.table else df, Outcome(p))
  }

  /** On success every listed column was present and numeric and now holds the review label of each original cell. */
  lemma CategorizeReviewsLabels(df: Table, reviewColumns: seq<string>, inplace: bool)
    requires Valid(df) && Distinct(reviewColumns)
    requires CategorizeReviews(df, reviewColumns, inplace).outcome.Ok?
    ensures forall k :: 0 <= k < |reviewColumns| ==>
      var name := reviewColumns[k];
      && name in df.data && NumericColumn(df.data[name])
      && var out := CategorizeReviews(df, reviewColumns, inplace).outcome.value.data[name];
      && |out| == df.rows
      && forall i :: 0 <= i < df.rows ==> out[i] == Some(Text(ReviewLabel(Score(df.data[name][i]))))
  {
    RecodeEachDone(df, ReviewScores, reviewColumns);
  }

  /**
   * A listed column that is absent raises KeyError naming it, once the
   * columns before it (distinct and numeric) have been recoded: the caller's
   * table is untouched without `inplace`, and holds those recodings with it.
   */
  lemma CategorizeReviewsMissingColumn(df: Table, reviewColumns: seq<string>, inplace: bool, k: nat)
    requires Valid(df) && k < |reviewColumns| && Distinct(reviewColumns[..k])
    requires forall j :: 0 <= j < k ==> reviewColumns[j] in df.data && NumericColumn(df.data[reviewColumns[j]])
    requires reviewColumns[k] !in df.data
    ensures CategorizeReviews(df, reviewColumns, inplace).outcome == Err(KeyError([reviewColumns[k]]))
    ensures CategorizeReviews(df, reviewColumns, inplace).after ==
      if inplace then CategorizeReviews(df, reviewColumns[..k], true).after else df
  {
    RecodeEachStops(df, ReviewScores, reviewColumns, k);
  }

  /** For distinct numeric-or-absent columns, the call fails exactly when some listed column is absent, and then with KeyError. */
  lemma CategorizeReviewsFailsIffAbsent(df: Table, reviewColumns: seq<string>, inplace: bool)
    requires Valid(df) && Distinct(reviewColumns)
    requires forall j :: 0 <= j < |reviewColumns| && reviewColumns[j] in df.data ==> NumericColumn(df.data[reviewColumns[j]])
    ensures CategorizeReviews(df, reviewColumns, inplace).outcome.Err? <==> exists j :: 0 <= j < |reviewColumns| && reviewColumns[j] !in df.data
    ensures CategorizeReviews(df, reviewColumns, inplace).outcome.Err? ==> CategorizeReviews(df, reviewColumns, inplace).outcome.error.KeyError?
  {
    var k := FirstAbsent(df, reviewColumns);
    assert Distinct(reviewColumns[..k]);
    RecodeEachStops(df, ReviewScores, reviewColumns, k);
    if k == |reviewColumns| {
      assert reviewColumns[..k] == reviewColumns;
    }
  }

  // ---------------------------------------------------------------------
  // convert_columns_to_boolean
  // ---------------------------------------------------------------------

  /**
   * `convert_columns_to_boolean(df, columns)`: always in place, so on error
   * the caller's table keeps the conversions done before it.
   */
  function ConvertColumnsToBoolean(df: Table, columns: seq<string>, missingAs: string -> bool): (r: Call<Table>)
    requires Valid(df)
    ensures Valid(r.after) && r.after.rows == df.rows && r.after.names == df.names
    ensures SameExcept(df, r.after, columns)
    ensures r.outcome.Ok? ==> r.outcome.value == r.after
  {
    var p := RecodeEach(df, ToBoolean(missingAs), columns);
    Call(p.table, Outcome(p))
  }

  /** On success each listed column was present and is its boolean conversion. */
  lemma ConvertColumnsToBooleanConverts(df: Table, columns: seq<string>, missingAs: string -> bool)
    requires Valid(df) && Distinct(columns)
    requires ConvertColumnsToBoolean(df, columns, missingAs).outcome.Ok?
    ensures forall k :: 0 <= k < |columns| ==>
      columns[k] in df.data &&
      BooleanColumn(columns[k], df.data[columns[k]], missingAs(columns[k])) == Ok(ConvertColumnsToBoolean(df, columns, missingAs).after.data[columns[k]])
  {
    RecodeEachDone(df, ToBoolean(missingAs), columns);
  }

  /** A column with an unsupported value raises ValueError once the columns before it are converted; the caller keeps those. */
  lemma ConvertColumnsToBooleanUnsupported(df: Table, columns: seq<string>, missingAs: string -> bool, k: nat)
    requires Valid(df) && k < |columns| && Distinct(columns[..k])
    requires forall j :: 0 <= j < k ==> columns[j] in df.data && BooleanColumn(columns[j], df.data[columns[j]], missingAs(columns[j])).Ok?
    requires columns[k] in df.data && columns[k] !in columns[..k]
    requires !AllZeroOne(df.data[columns[k]]) && !AllTF(df.data[columns[k]])
    ensures ConvertColumnsToBoolean(df, columns, missingAs).outcome ==
      Err(ValueError("Column '" + columns[k] + "' contains unsupported values for boolean conversion."))
    ensures ConvertColumnsToBoolean(df, columns, missingAs).after == ConvertColumnsToBoolean(df, columns[..k], missingAs).after
  {
    RecodeEachStops(df, ToBoolean(missingAs), columns, k);
    RecodeEachSkips(df, ToBoolean(missingAs), columns, k);
    BooleanColumnBranches(columns[k], df.data[columns[k]], missingAs(columns[k]));
  }

  /** The loop over `cols` first runs over `cols[..k]`, then continues from where that left the table. */
  lemma {:induction false} RecodeEachSplit(t: Table, r: Recoder, cols: seq<string>, k: nat)
    requires Valid(t) && k <= |cols|
    requires RecodeEach(t, r, cols[..k]).error.None?
    ensures RecodeEach(t, r, cols) == RecodeEach(RecodeEach(t, r, cols[..k]).table, r, cols[k..])
    decreases k
  {
    if k == 0 {
      assert cols[..0] == [] && cols[0..] == cols;
    } else {
      assert cols[..k][0] == cols[0] && cols[..k][1..] == cols[1..][..k - 1];
      assert cols[1..][k - 1..] == cols[k..];
      var c := Recode(r, cols[0], t.data[cols[0]]).value;
      RecodeEachSplit(Assign(t, cols[0], c), r, cols[1..], k - 1);
    }
  }

  /** After the first `k` columns, the table still holds the original of a column not among them. */
  lemma RecodeEachSkips(t: Table, r: Recoder, cols: seq<string>, k: nat)
    requires Valid(t) && k < |cols| && cols[k] in t.data && cols[k] !in cols[..k]
    requires RecodeEach(t, r, cols[..k]).error.None?
    ensures RecodeEach(t, r, cols) ==
      match Recode(r, cols[k], t.data[cols[k]])
      case Err(e) => Progress(RecodeEach(t, r, cols[..k]).table, Some(e))
      case Ok(c) => RecodeEach(Assign(RecodeEach(t, r, cols[..k]).table, cols[k], c), r, cols[k + 1..])
  {
    RecodeEachSplit(t, r, cols, k);
    var mid := RecodeEach(t, r, cols[..k]).table;
    assert mid.data[cols[k]] == t.data[cols[k]];
    assert cols[k..][0] == cols[k] && cols[k..][1..] == cols[k + 1..];
  }

  // ---------------------------------------------------------------------
  // Day-count categories
  // ---------------------------------------------------------------------

  /**
   * The shared body of `create_first_review_age_categories` and
   * `create_last_review_recency_categories`: `df[column].apply(classify)` made
   * an ordered categorical. Raises KeyError for an absent column and
   * TypeError when a string is compared with a day count.
   */
  function CategorizeDays(df: Table, column: string, inplace: bool, classify: Option<real> -> string): (r: Call<Table>)
    requires Valid(df)
    ensures column !in df.data ==> r.outcome == Err(KeyError([column]))
    ensures column in df.data && !NumericColumn(df.data[column]) ==> r.outcome == Err(TypeError(column))
    ensures r.outcome.Ok? <==> column in df.data && NumericColumn(df.data[column])
    ensures r.after == if inplace && r.outcome.Ok? then r.outcome.value else df
    ensures r.outcome.Ok? ==>
      && Valid(r.outcome.value) && r.outcome.value.rows == df.rows && r.outcome.value.names == df.names
      && SameExcept(df, r.outcome.value, [column])
      && r.outcome.value.data[column] == MapScores(df.data[column], classify)
  {
    if column !in df.data then Call(df, Err(KeyError([column])))
    else if !NumericColumn(df.data[column]) then Call(df, Err(TypeError(column)))
    else
      var recoded := Assign(df, column, MapScores(df.data[column], classify));
      Call(if inplace then recoded else df, Ok(recoded))
  }

  /** `create_first_review_age_categories`: every cell becomes the review-age label of its day count, never missing. */
  function CreateFirstReviewAgeCategories(df: Table, column: string, inplace: bool): (r: Call<Table>)
    requires Valid(df)
    ensures r.outcome.Ok? <==> column in df.data && NumericColumn(df.data[column])
    ensures column !in df.data ==> r.outcome == Err(KeyError([column]))
    ensures r.after == if inplace && r.outcome.Ok? then r.outcome.value else df
    ensures r.outcome.Ok? ==>
      && SameExcept(df, r.outcome.value, [column]) && r.outcome.value.names == df.names
      && column in r.outcome.value.data && |r.outcome.value.data[column]| == df.rows
      && forall i :: 0 <= i < df.rows ==>
           var out := r.outcome.value.data[column][i];
           out.Some? && out.value.Text? && out.value.s in AGE_ORDER
           && out.value.s == ReviewAge(Score(df.data[column][i]))
  {
    CategorizeDays(df, column, inplace, ReviewAge)
  }

  /** `create_last_review_recency_categories`: every cell becomes the recency label of its day count, never missing. */
  function CreateLastReviewRecencyCategories(df: Table, column: string, inplace: bool): (r: Call<Table>)
    requires Valid(df)
    ensures r.outcome.Ok? <==> column in df.data && NumericColumn(df.data[column])
    ensures column !in df.data ==> r.outcome == Err(KeyError([column]))
    ensures r.after == if inplace && r.outcome.Ok? then r.outcome.value else df
    ensures r.outcome.Ok? ==>
      && SameExcept(df, r.outcome.value, [column]) && r.outcome.value.names == df.names
      && column in r.outcome.value.data && |r.outcome.value.data[column]| == df.rows
      && forall i :: 0 <= i < df.rows ==>
           var out := r.outcome.value.data[column][i];
           out.Some? && out.value.Text? && out.value.s in RECENCY_ORDER
           && out.value.s == LastReviewRecency(Score(df.data[column][i]))
  {
    CategorizeDays(df, column, inplace, LastReviewRecency)
  }

  // ---------------------------------------------------------------------
  // convert_and_calculate_days
  // ---------------------------------------------------------------------

  /** `pd.to_datetime(col, errors='coerce')` with the parser as a parameter: a parsed date is its day number, an unparsable one is missing. */
  function ParseDates(c: Column, parse: Value -> Option<int>): (r: Column)
    ensures |r| == |c|
    ensures forall i :: 0 <= i < |c| ==> (r[i].Some? <==> c[i].Some? && parse(c[i].value).Some?)
    ensures forall i :: 0 <= i < |c| && r[i].Some? ==> r[i].value == Num(parse(c[i].value).value as real)
  {
    seq(|c|, i requires 0 <= i < |c| =>
      if c[i].Some? && parse(c[i].value).Some? then Some(Num(parse(c[i].value).value as real)) else None)
  }

  /** `(reference - date).dt.days` for one row of parsed dates; missing when either side is. */
  function DayDifference(reference: Cell, date: Cell): Cell {
    match (reference, date)
    case (Some(Num(a)), Some(Num(b))) => Some(Num(a - b))
    case _ => None
  }

  /** The label of the derived column. */
  function DaysSinceName(dateColumn: string): string {
    "days_since_" + dateColumn
  }

  /** The days-since column for two parsed date columns of `t`. */
  function DaysColumn(t: Table, dateColumn: string, referenceColumn: string): (r: Column)
    requires Valid(t) && dateColumn in t.data && referenceColumn in t.data
    ensures |r| == t.rows
    ensures forall i :: 0 <= i < t.rows ==> r[i] == DayDifference(t.data[referenceColumn][i], t.data[dateColumn][i])
  {
    seq(t.rows, i requires 0 <= i < t.rows => DayDifference(t.data[referenceColumn][i], t.data[dateColumn][i]))
  }

  /** The caller's table once both date columns have been parsed in place. */
  function ParseBoth(df: Table, dateColumn: string, referenceColumn: string, parse: Value -> Option<int>): (t: Table)
    requires Valid(df) && dateColumn in df.data && referenceColumn in df.data
    ensures Valid(t) && t.rows == df.rows && t.names == df.names
    ensures SameExcept(df, t, [dateColumn, referenceColumn])
    ensures t.data[dateColumn] == ParseDates(df.data[dateColumn], parse)
    ensures t.data[referenceColumn] == ParseDates(df.data[referenceColumn], parse)
  {
    var df1 := Assign(df, dateColumn, ParseDates(df.data[dateColumn], parse));
    // `to_datetime` leaves a column that already holds dates as it is
    if referenceColumn == dateColumn then df1
    else Assign(df1, referenceColumn, ParseDates(df1.data[referenceColumn], parse))
  }

  /** The returned table: the date column dropped and `days_since_<date_column>` set. */
  function WithDaysSince(t: Table, dateColumn: string, referenceColumn: string): (r: Table)
    requires Valid(t) && dateColumn in t.data && referenceColumn in t.data
    ensures Valid(r) && r.rows == t.rows
    ensures dateColumn !in r.data
    ensures DaysSinceName(dateColumn) in r.data && r.data[DaysSinceName(dateColumn)] == DaysColumn(t, dateColumn, referenceColumn)
    ensures SameExcept(t, r, [dateColumn, DaysSinceName(dateColumn)])
  {
    assert dateColumn != DaysSinceName(dateColumn) by {
      assert |DaysSinceName(dateColumn)| > |dateColumn|;
    }
    Assign(Drop(t, dateColumn), DaysSinceName(dateColumn), DaysColumn(t, dateColumn, referenceColumn))
  }

  /**
   * `convert_and_calculate_days(df, date_column, reference_column)`. Both
   * date columns are parsed in the caller's table; the returned table drops
   * the date column and carries `days_since_<date_column>` instead.
   */
  function ConvertAndCalculateDays(df: Table, dateColumn: string, referenceColumn: string, parse: Value -> Option<int>): (r: Call<Table>)
    requires Valid(df)
    ensures Valid(r.after) && r.after.rows == df.rows && r.after.names == df.names
    ensures SameExcept(df, r.after, [dateColumn, referenceColumn])
    ensures r.outcome.Err? <==> dateColumn !in df.data || referenceColumn !in df.data
    ensures dateColumn !in df.data ==> r.outcome == Err(KeyError([dateColumn]))
    ensures dateColumn in df.data && referenceColumn !in df.data ==> r.outcome == Err(KeyError([referenceColumn]))
    ensures dateColumn in df.data ==>
      dateColumn in r.after.data && r.after.data[dateColumn] == ParseDates(df.data[dateColumn], parse)
    ensures dateColumn in df.data && referenceColumn in df.data ==>
      referenceColumn in r.after.data && r.after.data[referenceColumn] == ParseDates(df.data[referenceColumn], parse)
  {
    if dateColumn !in df.data then Call(df, Err(KeyError([dateColumn])))
    else if referenceColumn !in df.data then
      Call(Assign(df, dateColumn, ParseDates(df.data[dateColumn], parse)), Err(KeyError([referenceColumn])))
    else
      var parsed := ParseBoth(df, dateColumn, referenceColumn, parse);
      Call(parsed, Ok(WithDaysSince(parsed, dateColumn, referenceColumn)))
  }

  /**
   * The derived column holds, row by row, the reference day minus the date
   * day when both parse, and is missing otherwise (so 0 or missing when the
   * two columns are the same); the date column is gone, every other column
   * is kept, and the row count is unchanged.
   */
  lemma DaysSinceColumn(df: Table, dateColumn: string, referenceColumn: string, parse: Value -> Option<int>)
    requires Valid(df) && dateColumn in df.data && referenceColumn in df.data
    ensures
      var r := ConvertAndCalculateDays(df, dateColumn, referenceColumn, parse).outcome.value;
      && Valid(r) && r.rows == df.rows
      && dateColumn !in r.data
      && DaysSinceName(dateColumn) in r.data
      && SameExcept(df, r, [dateColumn, referenceColumn, DaysSinceName(dateColumn)])
      && forall i :: 0 <= i < df.rows ==>
           r.data[DaysSinceName(dateColumn)][i] == ExpectedDays(df.data[referenceColumn][i], df.data[dateColumn][i], parse)
  {
    var parsed := ParseBoth(df, dateColumn, referenceColumn, parse);
    var days := DaysColumn(parsed, dateColumn, referenceColumn);
    assert forall i :: 0 <= i < df.rows ==> days[i] == ExpectedDays(df.data[referenceColumn][i], df.data[dateColumn][i], parse);
  }

  /** The reference day number minus the date's day number when both parse, missing otherwise. */
  function ExpectedDays(reference: Cell, date: Cell, parse: Value -> Option<int>): Cell {
    if date.Some? && reference.Some? && parse(date.value).Some? && parse(reference.value).Some?
    then Some(Num((parse(reference.value).value - parse(date.value).value) as real))
    else None
  }

  // ---------------------------------------------------------------------
  // convert_to_ordered_category
  // ---------------------------------------------------------------------

  /** The first position at or after `j` of a category equal to `v` under Python `==`. */
  function CategoryFrom(order: seq<Value>, v: Value, j: nat): (r: Option<nat>)
    requires j <= |order|
    ensures r.Some? ==> j <= r.value < |order| && PyEq(order[r.value], v)
    ensures r.Some? ==> forall m :: j <= m < r.value ==> !PyEq(order[m], v)
    ensures r.None? ==> forall m :: j <= m < |order| ==> !PyEq(order[m], v)
    decreases |order| - j
  {
    if j == |order| then None
    else if PyEq(order[j], v) then Some(j)
    else CategoryFrom(order, v, j + 1)
  }

  /** pandas refuses categories that repeat under `==`. */
  predicate CategoriesUnique(order: seq<Value>) {
    forall i, j :: 0 <= i < j < |order| ==> !PyEq(order[i], order[j])
  }

  /** One cell of `pd.Categorical(col, categories=order)`: a value equal to a category becomes that category, anything else missing. */
  function ToCategory(order: seq<Value>, c: Cell): Cell {
    match c
    case None => None
    case Some(v) =>
      match CategoryFrom(order, v, 0)
      case None => None
      case Some(k) => Some(order[k])
  }

  /**
   * `convert_to_ordered_category(df, column_name, category_order)`: in
   * place. Values outside the categories become missing; an absent column
   * raises KeyError and repeated categories raise ValueError.
   */
  function ConvertToOrderedCategory(df: Table, column: string, order: seq<Value>): (r: Call<Table>)
    requires Valid(df)
    ensures column !in df.data ==> r == Call(df, Err(KeyError([column])))
    ensures column in df.data && !CategoriesUnique(order) ==> r == Call(df, Err(ValueError("Categorical categories must be unique")))
    ensures r.outcome.Ok? <==> column in df.data && CategoriesUnique(order)
    ensures r.outcome.Ok? ==>
      && r.after == r.outcome.value
      && Valid(r.after) && r.after.rows == df.rows && r.after.names == df.names
      && SameExcept(df, r.after, [column])
      && column in r.after.data
      && forall i :: 0 <= i < df.rows ==>
           var before := df.data[column][i];
           var after := r.after.data[column][i];
           && (after.Some? <==> before.Some? && exists k :: 0 <= k < |order| && PyEq(order[k], before.value))
           && (after.Some? ==> after.value in order && PyEq(after.value, before.value))
  {
    if column !in df.data then Call(df, Err(KeyError([column])))
    else if !CategoriesUnique(order) then Call(df, Err(ValueError("Categorical categories must be unique")))
    else
      var c := df.data[column];
      var t := Assign(df, column, seq(|c|, i requires 0 <= i < |c| => ToCategory(order, c[i])));
      Call(t, Ok(t))
  }

  /** With unique categories, a category is its own first match. */
  lemma CategoryOfCategory(order: seq<Value>, k: nat)
    requires CategoriesUnique(order) && k < |order|
    ensures CategoryFrom(order, order[k], 0) == Some(k)
  {
  }

  /** Converting a converted column again changes nothing. */
  lemma ConvertToOrderedCategoryIdempotent(df: Table, column: string, order: seq<Value>)
    requires Valid(df)
    requires ConvertToOrderedCategory(df, column, order).outcome.Ok?
    ensures var once := ConvertToOrderedCategory(df, column, order).after;
      ConvertToOrderedCategory(once, column, order) == Call(once, Ok(once))
  {
    var once := ConvertToOrderedCategory(df, column, order).after;
    var c := once.data[column];
    var again := seq(|c|, i requires 0 <= i < |c| => ToCategory(order, c[i]));
    forall i | 0 <= i < |c| ensures again[i] == c[i] {
      if c[i].Some? {
        var k :| 0 <= k < |order| && order[k] == c[i].value;
        CategoryOfCategory(order, k);
      }
    }
    assert again == c;
    assert once.data[column := again] == once.data;
  }
}
