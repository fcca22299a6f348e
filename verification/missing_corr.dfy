/**
 * The inputs of the missing-value correlation: a 0/1 mask of the missing
 * cells of the requested columns, with a 0/1 flag marking the rows whose
 * indicator column is 0. The Pearson correlation of that matrix is not
 * modelled; the model returns the matrix it is taken of.
 */
module MissingCorr {
  import opened Wrappers
  import opened Frame

  /** `[c for c in requested if c in df.columns]`. */
  function ValidColumns(t: Table, requested: seq<string>): (r: seq<string>)
    ensures |r| <= |requested|
    ensures forall c :: c in r <==> c in requested && c in t.data
    ensures forall k :: 0 <= k < |r| ==> r[k] in t.data
    ensures r == [] <==> forall k :: 0 <= k < |requested| ==> requested[k] !in t.data
  {
    if requested == [] then []
    else if requested[0] in t.data then [requested[0]] + ValidColumns(t, requested[1..])
    else ValidColumns(t, requested[1..])
  }

  /** The filter keeps request order: filtering a concatenation concatenates the filtered parts. */
  lemma {:induction false} ValidColumnsAppend(t: Table, a: seq<string>, b: seq<string>)
    ensures ValidColumns(t, a + b) == ValidColumns(t, a) + ValidColumns(t, b)
    decreases |a|
  {
    if a == [] {
      assert a + b == b;
    } else {
      assert (a + b)[1..] == a[1..] + b;
      ValidColumnsAppend(t, a[1..], b);
    }
  }

  /** The label of the zero flag. */
  function FlagName(indicator: string): string {
    indicator + "_0_vs_other"
  }

  /** `(c == 0).astype(int)`: a missing cell or a string is never equal to 0, while False is. */
  function ZeroFlag(c: Column): (r: Column)
    ensures |r| == |c|
    ensures forall i :: 0 <= i < |c| ==>
      (r[i] == Some(Num(1.0)) <==> c[i].Some? && PyEq(c[i].value, Num(0.0)))
    ensures forall i :: 0 <= i < |c| ==> r[i] == Some(Num(1.0)) || r[i] == Some(Num(0.0))
  {
    seq(|c|, i requires 0 <= i < |c| => Some(Num(if c[i].Some? && PyEq(c[i].value, Num(0.0)) then 1.0 else 0.0)))
  }

  /** `isnull().astype(int)` on one column. */
  function NullMask(c: Column): (r: Column)
    ensures |r| == |c|
    ensures forall i :: 0 <= i < |c| ==> (r[i] == Some(Num(1.0)) <==> c[i].None?)
    ensures forall i :: 0 <= i < |c| ==> r[i] == Some(Num(1.0)) || r[i] == Some(Num(0.0))
  {
    seq(|c|, i requires 0 <= i < |c| => Some(Num(if c[i].None? then 1.0 else 0.0)))
  }

  /** `df[cols].isnull().astype(int)`: one mask column per listed label, in list order. */
  function Mask(t: Table, cols: seq<string>): (r: seq<Named>)
    requires forall k :: 0 <= k < |cols| ==> cols[k] in t.data
    ensures |r| == |cols|
    ensures forall k :: 0 <= k < |cols| ==> r[k] == Named(cols[k], NullMask(t.data[cols[k]]))
  {
    seq(|cols|, k requires 0 <= k < |cols| => Named(cols[k], NullMask(t.data[cols[k]])))
  }

  /** `matrix[n] = c` on a result frame: every column labelled `n` is replaced, or a new one is appended. */
  function Put(m: seq<Named>, n: string, c: Column): (r: seq<Named>)
    ensures |r| == |m| + (if exists k :: 0 <= k < |m| && m[k].name == n then 0 else 1)
    ensures forall k :: 0 <= k < |m| ==> r[k] == if m[k].name == n then Named(n, c) else m[k]
    ensures (forall k :: 0 <= k < |m| ==> m[k].name != n) ==> r[|m|] == Named(n, c)
  {
    if exists k :: 0 <= k < |m| && m[k].name == n then
      seq(|m|, k requires 0 <= k < |m| => if m[k].name == n then Named(n, c) else m[k])
    else m + [Named(n, c)]
  }

  /**
   * The matrix `compute_missing_corr` takes the correlation of: the mask of
   * the valid columns, read from the copy that already holds the flag, with
   * the flag put under its label.
   */
  function MissingMatrix(df: Table, valid: seq<string>, indicator: string): (m: seq<Named>)
    requires Valid(df) && indicator in df.data
    requires forall k :: 0 <= k < |valid| ==> valid[k] in df.data
    ensures |m| == |valid| + (if FlagName(indicator) in valid then 0 else 1)
    ensures forall k :: 0 <= k < |valid| ==> m[k].name == valid[k]
    ensures forall k :: 0 <= k < |valid| && valid[k] != FlagName(indicator) ==> m[k].column == NullMask(df.data[valid[k]])
    ensures forall k :: 0 <= k < |m| && m[k].name == FlagName(indicator) ==> m[k].column == ZeroFlag(df.data[indicator])
    ensures FlagName(indicator) !in valid ==> m[|valid|] == Named(FlagName(indicator), ZeroFlag(df.data[indicator]))
  {
    var flag := FlagName(indicator);
    var copy := Assign(df, flag, ZeroFlag(df.data[indicator]));
    var mask := Mask(copy, valid);
    assert forall k :: 0 <= k < |valid| && valid[k] != flag ==> copy.data[valid[k]] == df.data[valid[k]];
    assert (exists k :: 0 <= k < |mask| && mask[k].name == flag) <==> flag in valid;
    Put(mask, flag, copy.data[flag])
  }

  /**
   * `compute_missing_corr(df, missing_columns, indicator_col)`, up to the
   * final `corr()`. Works on a copy, so the caller's table never changes.
   * ValueError when no requested column is present; then KeyError when the
   * indicator column is absent.
   */
  function ComputeMissingCorr(df: Table, requested: seq<string>, indicator: string): (r: Call<seq<Named>>)
    requires Valid(df)
    ensures r.after == df
    ensures ValidColumns(df, requested) == [] ==>
      r.outcome == Err(ValueError("None of the specified columns are present in the DataFrame."))
    ensures ValidColumns(df, requested) != [] && indicator !in df.data ==> r.outcome == Err(KeyError([indicator]))
    ensures r.outcome.Ok? <==> ValidColumns(df, requested) != [] && indicator in df.data
    ensures r.outcome.Ok? ==> r.outcome.value == MissingMatrix(df, ValidColumns(df, requested), indicator)
  {
    var valid := ValidColumns(df, requested);
    if valid == [] then Call(df, Err(ValueError("None of the specified columns are present in the DataFrame.")))
    else if indicator !in df.data then Call(df, Err(KeyError([indicator])))
    else Call(df, Ok(MissingMatrix(df, valid, indicator)))
  }

  /** A mask cell of a requested column is 1 exactly when the table's cell is missing, and 0 otherwise. */
  lemma MaskMarksMissing(df: Table, requested: seq<string>, indicator: string, k: nat, i: nat)
    requires Valid(df)
    requires k < |ValidColumns(df, requested)| && ValidColumns(df, requested)[k] != FlagName(indicator)
    requires indicator in df.data && i < df.rows
    ensures var r := ComputeMissingCorr(df, requested, indicator);
      var c := ValidColumns(df, requested)[k];
      r.outcome.Ok? && |r.outcome.value[k].column| == df.rows
      && (r.outcome.value[k].column[i] == Some(Num(1.0)) <==> df.data[c][i].None?)
      && (r.outcome.value[k].column[i] == Some(Num(0.0)) <==> df.data[c][i].Some?)
  {
  }

  /** The mask's labels are the valid columns in request order, followed by the flag unless the flag was itself requested. */
  lemma MaskColumns(df: Table, requested: seq<string>, indicator: string)
    requires Valid(df)
    requires ValidColumns(df, requested) != [] && indicator in df.data
    requires FlagName(indicator) !in ValidColumns(df, requested)
    ensures var r := ComputeMissingCorr(df, requested, indicator);
      r.outcome.Ok? &&
      seq(|r.outcome.value|, k requires 0 <= k < |r.outcome.value| => r.outcome.value[k].name)
        == ValidColumns(df, requested) + [FlagName(indicator)]
  {
  }
}
