/**
 * A small model of the pandas DataFrame the scripts work on: an ordered set
 * of named columns of equal length, each cell either a present value or
 * missing (NaN / None / NaT).
 */
module Frame {
  import opened Wrappers

  /** A present cell value: a number, a string or a boolean. */
  datatype Value = Num(x: real) | Text(s: string) | Flag(b: bool)

  /** A cell; `None` is a missing value. */
  type Cell = Option<Value>

  type Column = seq<Cell>

  /** The number a non-string value stands for; Python treats False and True as 0 and 1. */
  function AsReal(v: Value): real
    requires !v.Text?
  {
    match v
    case Num(x) => x
    case Flag(b) => if b then 1.0 else 0.0
  }

  /** Python's `==` on values: a string equals only the same string, numbers and booleans compare numerically. */
  predicate PyEq(a: Value, b: Value) {
    if a.Text? || b.Text? then a.Text? && b.Text? && a.s == b.s
    else AsReal(a) == AsReal(b)
  }

  /** The error kinds the scripts raise. */
  datatype Error =
    | KeyError(missing: seq<string>)   // the column labels that were looked up and not found
    | ValueError(message: string)
    | TypeError(column: string)        // a column holding strings was compared with a number
    | AttributeError(attribute: string) // the attribute does not exist on the object it was looked up on

  predicate Distinct<T(==)>(s: seq<T>) {
    forall i, j :: 0 <= i < j < |s| ==> s[i] != s[j]
  }

  /** Dropping the first element keeps a sequence free of repeats. */
  lemma DistinctTail<T>(s: seq<T>)
    requires Distinct(s) && s != []
    ensures Distinct(s[1..])
  {
    forall i, j | 0 <= i < j < |s| - 1 ensures s[1..][i] != s[1..][j] {
      assert s[1..][i] == s[i + 1] && s[1..][j] == s[j + 1];
    }
  }

  /** A table: column labels in display order, their contents, and the row count. */
  datatype Table = Table(names: seq<string>, data: map<string, Column>, rows: nat)

  /** A table is well formed when its labels are distinct, name exactly its columns, and every column has one cell per row. */
  ghost predicate Valid(t: Table) {
    && Distinct(t.names)
    && (forall n :: n in t.data <==> n in t.names)
    && (forall n :: n in t.data ==> |t.data[n]| == t.rows)
  }

  /** The outcome of calling a script function: the caller's table after the call, and what the call returned or raised. */
  datatype Call<T> = Call(after: Table, outcome: Result<T, Error>)

  /** `t` and `u` hold the same columns, with the same contents, at every label other than those in `except`. */
  ghost predicate SameExcept(t: Table, u: Table, except: seq<string>) {
    forall m :: m !in except ==> (m in t.data <==> m in u.data) && (m in t.data ==> t.data[m] == u.data[m])
  }

  /** Two changes in a row leave untouched every label neither of them names. */
  lemma SameExceptChain(t: Table, u: Table, v: Table, x: seq<string>, y: seq<string>)
    requires SameExcept(t, u, x) && SameExcept(u, v, y)
    ensures SameExcept(t, v, x + y)
  {
    forall m | m !in x + y ensures (m in t.data <==> m in v.data) && (m in t.data ==> t.data[m] == v.data[m]) {
      assert m !in x && m !in y;
    }
  }

  /** `df[n] = c`: replaces an existing column in place, or appends a new one at the end. */
  function Assign(t: Table, n: string, c: Column): (r: Table)
    requires Valid(t) && |c| == t.rows
    ensures Valid(r) && r.rows == t.rows
    ensures n in r.data && r.data[n] == c
    ensures SameExcept(t, r, [n])
    ensures r.names == if n in t.data then t.names else t.names + [n]
  {
    Table(if n in t.data then t.names else t.names + [n], t.data[n := c], t.rows)
  }

  /** The labels of `s` other than `n`, in their order. */
  function Remove(s: seq<string>, n: string): (r: seq<string>)
    ensures forall m :: m in r <==> m in s && m != n
    ensures Distinct(s) ==> Distinct(r)
  {
    if s == [] then []
    else if s[0] == n then Remove(s[1..], n)
    else
      var rest := Remove(s[1..], n);
      assert Distinct(s) ==> s[0] !in s[1..] && Distinct(s[1..]) by {
        if Distinct(s) {
          forall j | 0 <= j < |s[1..]| ensures s[1..][j] != s[0] { assert s[1..][j] == s[j + 1]; }
        }
      }
      [s[0]] + rest
  }

  /** `df.drop(columns=[n])` for a label that is present. */
  function Drop(t: Table, n: string): (r: Table)
    requires Valid(t) && n in t.data
    ensures Valid(r) && r.rows == t.rows
    ensures n !in r.data
    ensures SameExcept(t, r, [n])
    ensures r.names == Remove(t.names, n)
  {
    Table(Remove(t.names, n), t.data - {n}, t.rows)
  }

  /** The labels of `names` that `t` lacks, in request order. */
  function Absent(t: Table, names: seq<string>): (r: seq<string>)
    ensures forall m :: m in r <==> m in names && m !in t.data
    ensures r == [] <==> forall k :: 0 <= k < |names| ==> names[k] in t.data
  {
    if names == [] then []
    else if names[0] in t.data then Absent(t, names[1..])
    else [names[0]] + Absent(t, names[1..])
  }

  /** A column of a result frame; result frames may repeat a label. */
  datatype Named = Named(name: string, column: Column)

  /** The cells of `c` at the row positions `rows`, in that order. */
  function Pick(c: Column, rows: seq<nat>): (r: Column)
    requires forall k :: 0 <= k < |rows| ==> rows[k] < |c|
    ensures |r| == |rows|
    ensures forall k :: 0 <= k < |rows| ==> r[k] == c[rows[k]]
  {
    seq(|rows|, k requires 0 <= k < |rows| => c[rows[k]])
  }

  /** `df.loc[rows, names]`: the listed columns, in the listed order, restricted to the listed rows. */
  function Project(t: Table, names: seq<string>, rows: seq<nat>): (r: seq<Named>)
    requires Valid(t)
    requires forall k :: 0 <= k < |names| ==> names[k] in t.data
    requires forall k :: 0 <= k < |rows| ==> rows[k] < t.rows
    ensures |r| == |names|
    ensures forall k :: 0 <= k < |names| ==> r[k].name == names[k] && r[k].column == Pick(t.data[names[k]], rows)
  {
    seq(|names|, k requires 0 <= k < |names| => Named(names[k], Pick(t.data[names[k]], rows)))
  }

  /** A column pandas can compare with a number: no present cell holds a string. */
  predicate NumericColumn(c: Column) {
    forall i :: 0 <= i < |c| ==> c[i].None? || !c[i].value.Text?
  }

  /** The number held by a cell of a numeric column, or `None` when missing. */
  function Score(c: Cell): (r: Option<real>)
    requires c.None? || !c.value.Text?
    ensures r.None? <==> c.None?
  {
    match c
    case None => None
    case Some(v) => Some(AsReal(v))
  }

  /** An element-wise recoding of a numeric column into string labels. */
  function MapScores(c: Column, f: Option<real> -> string): (r: Column)
    requires NumericColumn(c)
    ensures |r| == |c|
    ensures forall i :: 0 <= i < |c| ==> r[i] == Some(Text(f(Score(c[i]))))
  {
    seq(|c|, i requires 0 <= i < |c| => Some(Text(f(Score(c[i])))))
  }
}
