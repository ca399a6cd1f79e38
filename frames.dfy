/** Values shared by the whole model: failure-compatible wrappers and the
    shape of a pandas data frame as the loader sees it. */
module Frames {

  datatype Option<+T> = None | Some(value: T)

  datatype Result<+T, +E> = Ok(value: T) | Err(error: E)

  /** A cell of a data frame: a value as the database driver receives it, or
      the missing marker pandas uses for NaN and NaT. */
  datatype Value = Null | Cell(text: string)

  /** One record, keyed by column name. */
  type Row = map<string, Value>

  /** A data frame: its column labels in order and its records. */
  datatype Frame = Frame(columns: seq<string>, rows: seq<Row>)

  /** A listing of names without repetition. */
  predicate Distinct(xs: seq<string>)
  {
    forall i, j :: 0 <= i < j < |xs| ==> xs[i] != xs[j]
  }

  /** The set of a frame's column labels (`set(df.columns)`). */
  function ColumnSet(df: Frame): set<string>
  {
    set c | c in df.columns
  }

  /** The cell of `r` under column `c`; a column a record lacks reads as missing. */
  function At(r: Row, c: string): Value
  {
    if c in r then r[c] else Null
  }

  /** The record restricted to (and filled out to) exactly the columns `cols`,
      as selecting `df[cols]` does. */
  function Project(r: Row, cols: set<string>): (p: Row)
    ensures p.Keys == cols
    ensures forall c :: c in cols && c in r ==> p[c] == r[c]
    ensures forall c :: c in cols && c !in r ==> p[c] == Null
  {
    map c | c in cols :: At(r, c)
  }

  /** Every record of a frame projected onto `cols`, in order. */
  function ProjectAll(rows: seq<Row>, cols: set<string>): (p: seq<Row>)
    ensures |p| == |rows|
    ensures forall i :: 0 <= i < |p| ==> p[i] == Project(rows[i], cols)
  {
    seq(|rows|, i requires 0 <= i < |rows| => Project(rows[i], cols))
  }
}
