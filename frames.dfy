/**
 * The tables the pipeline stages read and write (`pandas.DataFrame` loaded
 * from or saved to CSV). Every table has an `id` column first; `columns`
 * names the others, and each row holds its id and one cell per named column.
 * A missing cell (NaN after a CSV load) is `Null`.
 */
module Frames {
  import opened Common
  import opened Values

  datatype Row = Row(id: string, cells: seq<Value>)

  datatype Frame = Frame(columns: seq<string>, rows: seq<Row>)

  /** A table as loaded from a CSV file: one cell per column in every row. */
  type Table = f: Frame | WellFormed(f) witness Frame([], [])

  /** A two-dimensional `numpy` array: `shape` is `(|rows|, width)`. */
  datatype Matrix = Matrix(rows: seq<seq<real>>, width: nat)

  predicate Rectangular(m: Matrix) {
    forall i :: 0 <= i < |m.rows| ==> |m.rows[i]| == m.width
  }

  type Embeddings = m: Matrix | Rectangular(m) witness Matrix([], 0)

  /** Every row has one cell per column. */
  predicate WellFormed(f: Frame) {
    forall i :: 0 <= i < |f.rows| ==> |f.rows[i].cells| == |f.columns|
  }

  /** `df.shape[1]`: the id column and the others. */
  function Width(f: Frame): nat {
    1 + |f.columns|
  }

  /** The ids of a sequence of rows, in order. */
  function RowIds(rows: seq<Row>): (ids: seq<string>)
    ensures |ids| == |rows|
    ensures forall i :: 0 <= i < |rows| ==> ids[i] == rows[i].id
  {
    if rows == [] then [] else [rows[0].id] + RowIds(rows[1..])
  }

  lemma RowIdsAppend(a: seq<Row>, b: seq<Row>)
    ensures RowIds(a + b) == RowIds(a) + RowIds(b)
  {
  }

  /** `df["id"]`, in row order. */
  function Ids(f: Frame): seq<string> {
    RowIds(f.rows)
  }

  /** No id occurs twice. */
  predicate Distinct(ids: seq<string>) {
    forall i, j :: 0 <= i < j < |ids| ==> ids[i] != ids[j]
  }

  /** `df.isnull().any().any()` */
  predicate HasMissing(f: Frame) {
    exists i, j :: 0 <= i < |f.rows| && 0 <= j < |f.rows[i].cells| && f.rows[i].cells[j] == Null
  }

  /** The position of a column among the non-id columns, if it is there. */
  function ColumnIndex(columns: seq<string>, name: string): (k: Option<nat>)
    ensures k.Some? ==> k.value < |columns| && columns[k.value] == name
    ensures k.None? <==> name !in columns
    decreases |columns|
  {
    if columns == [] then None
    else if columns[0] == name then Some(0)
    else match ColumnIndex(columns[1..], name)
      case None => None
      case Some(k) => Some(k + 1)
  }

  /** `df[name]`, the cells of one column in row order, or None when the column is absent. */
  function Column(f: Frame, name: string): (col: Option<seq<Value>>)
    requires WellFormed(f)
    ensures col.Some? <==> name in f.columns
    ensures col.Some? ==> |col.value| == |f.rows|
  {
    match ColumnIndex(f.columns, name)
    case None => None
    case Some(k) => Some(seq(|f.rows|, i requires 0 <= i < |f.rows| => f.rows[i].cells[k]))
  }

  /** A row's cells as `row[name]` lookups. */
  function Cell(f: Frame, i: nat, name: string): (v: Option<Value>)
    requires WellFormed(f) && i < |f.rows|
    ensures v.Some? <==> name in f.columns
  {
    match ColumnIndex(f.columns, name)
    case None => None
    case Some(k) => Some(f.rows[i].cells[k])
  }
}
