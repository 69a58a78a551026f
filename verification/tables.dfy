/** The data frame the pipeline works on, the outcome of a pipeline step, and the
    library conversions the pipeline calls into. */
module Tables {

  datatype Option<T> = None | Some(value: T)

  /** One cell: pandas' missing marker (None, NaN, NaT), a string, or a number. */
  datatype Cell = Missing | Text(s: string) | Num(x: real)

  /** One row, keyed by column name. */
  type Row = map<string, Cell>

  /** A data frame: its column names and its rows, in order. */
  datatype Table = Table(columns: set<string>, rows: seq<Row>)

  /** Every row has exactly the table's columns. */
  predicate WellFormed(t: Table) {
    forall i :: 0 <= i < |t.rows| ==> t.rows[i].Keys == t.columns
  }

  /** The exceptions a pipeline step raises. */
  datatype Error =
    | NotLoaded                   // the ValueError of `_ensure_df`
    | KeyError(column: string)    // a column the step reads is absent
    | ParseError(column: string)  // a cell of this column cannot be converted

  datatype Status = Done | Failed(error: Error)

  datatype Result<T> = Ok(value: T) | Err(error: Error)

  /** What Python's `float(s)` makes of a string: a number, NaN (which pandas
      stores as missing), or a ValueError. */
  datatype FloatParse = Value(x: real) | NotANumber | Malformed

  /** What `pd.to_datetime` makes of a date or time token: a date or time
      (written as its printed form, so equal values have equal forms), NaT
      (missing), or a parse error. */
  datatype StampParse = Stamp(form: string) | NotAStamp | BadStamp

  /** The library conversions the cleaning steps call. They are not part of
      this model, so the processor is given them. */
  datatype Conversions = Conversions(
    show: real -> string,              // `str()` of a number, as in `astype(str)`
    toFloat: string -> FloatParse,     // `astype(float)` on one string
    parseDate: string -> StampParse,   // `pd.to_datetime(...)` on a date token
    parseTime: string -> StampParse,   // `pd.to_datetime(..., format="%H:%M:%S")`
    quantile: (seq<real>, real) -> real) // `Series.quantile(q)` over the non-missing numbers

  /** Replaces the cells of column `col` by `f` of themselves: pandas'
      `df[col] = df[col].map(f)` on an existing column. */
  function MapColumn(t: Table, col: string, f: Cell -> Cell): (r: Table)
    requires WellFormed(t) && col in t.columns
    ensures WellFormed(r) && r.columns == t.columns && |r.rows| == |t.rows|
    ensures forall i :: 0 <= i < |t.rows| ==> r.rows[i] == t.rows[i][col := f(t.rows[i][col])]
  {
    Table(t.columns, seq(|t.rows|, i requires 0 <= i < |t.rows| => t.rows[i][col := f(t.rows[i][col])]))
  }

  /** Sets column `dst` of every row to `f` of the row's `src` cell, adding the
      column if it is new: pandas' `df[dst] = df[src]....`. */
  function DeriveColumn(t: Table, src: string, dst: string, f: Cell -> Cell): (r: Table)
    requires WellFormed(t) && src in t.columns
    ensures WellFormed(r) && r.columns == t.columns + {dst} && |r.rows| == |t.rows|
    ensures forall i :: 0 <= i < |t.rows| ==> r.rows[i] == t.rows[i][dst := f(t.rows[i][src])]
  {
    Table(t.columns + {dst}, seq(|t.rows|, i requires 0 <= i < |t.rows| => t.rows[i][dst := f(t.rows[i][src])]))
  }

  /** Sets column `dst` of every row to `f` of the row's `a` and `b` cells:
      pandas' `df[dst] = df[b] - df[a]` and the like. */
  function CombineColumns(t: Table, a: string, b: string, dst: string, f: (Cell, Cell) -> Cell): (r: Table)
    requires WellFormed(t) && a in t.columns && b in t.columns
    ensures WellFormed(r) && r.columns == t.columns + {dst} && |r.rows| == |t.rows|
    ensures forall i :: 0 <= i < |t.rows| ==> r.rows[i] == t.rows[i][dst := f(t.rows[i][a], t.rows[i][b])]
  {
    Table(t.columns + {dst},
      seq(|t.rows|, i requires 0 <= i < |t.rows| => t.rows[i][dst := f(t.rows[i][a], t.rows[i][b])]))
  }

  /** Removes column `col`: pandas' `df.drop(col, axis=1)` on an existing column. */
  function DropColumn(t: Table, col: string): (r: Table)
    requires WellFormed(t) && col in t.columns
    ensures WellFormed(r) && r.columns == t.columns - {col} && |r.rows| == |t.rows|
    ensures forall i :: 0 <= i < |t.rows| ==> r.rows[i] == t.rows[i] - {col}
  {
    Table(t.columns - {col}, seq(|t.rows|, i requires 0 <= i < |t.rows| => t.rows[i] - {col}))
  }

  /** Renames column `src` to `dst`: pandas' `df.rename(columns={src: dst})`.
      A column already called `dst` is replaced. */
  function RenameColumn(t: Table, src: string, dst: string): (r: Table)
    requires WellFormed(t) && src in t.columns
    ensures WellFormed(r) && r.columns == t.columns - {src} + {dst} && |r.rows| == |t.rows|
    ensures forall i :: 0 <= i < |t.rows| ==> r.rows[i] == (t.rows[i] - {src})[dst := t.rows[i][src]]
  {
    Table(t.columns - {src} + {dst},
      seq(|t.rows|, i requires 0 <= i < |t.rows| => (t.rows[i] - {src})[dst := t.rows[i][src]]))
  }

  /** `astype(str)` of one cell: a missing value becomes "nan". */
  function AsStr(c: Cell, conv: Conversions): (r: string)
    ensures c.Text? ==> r == c.s
    ensures c.Missing? ==> r == "nan"
  {
    match c
    case Missing => "nan"
    case Text(s) => s
    case Num(x) => conv.show(x)
  }
}
