/**
 * The feature unifier: picks the latest `*_signals.csv` table, joins it on
 * `id` with the embedding-id table and the cluster-label table, checks that
 * the embedding matrix has one row per joined row, and appends the embedding
 * dimensions as columns `emb_0 … emb_{d-1}` by row position.
 */
module MergeAll {
  import opened Common
  import opened Text
  import opened Values
  import opened Frames

  // ---------------------------------------------------------------- choosing the feature table

  /**
   * A name that the glob `*_signals.csv` in `data/processed` matches: it ends in
   * `_signals.csv`, and, as with every glob pattern that starts with `*`, it
   * does not start with a dot.
   */
  predicate IsSignalsFile(name: string) {
    EndsWith(name, "_signals.csv") && !StartsWith(name, ".")
  }

  function SignalsFiles(names: seq<string>): (r: seq<string>)
    ensures forall n :: n in r <==> n in names && IsSignalsFile(n)
  {
    if names == [] then []
    else (if IsSignalsFile(names[0]) then [names[0]] else []) + SignalsFiles(names[1..])
  }

  /**
   * `sorted(glob(...))[-1]`: the greatest matching name in code-point order,
   * or None when no name matches.
   */
  function LatestSignals(names: seq<string>): (r: Option<string>)
    ensures r.None? <==> forall n :: n in names ==> !IsSignalsFile(n)
    ensures r.Some? ==> r.value in names && IsSignalsFile(r.value)
    ensures r.Some? ==> forall n :: n in names && IsSignalsFile(n) ==> LexLe(n, r.value)
  {
    var found := SignalsFiles(names);
    if found == [] then None else Some(LexMax(found))
  }

  // ---------------------------------------------------------------- the inner join on id

  /**
   * The joined rows for one left row: one per right row with the same id, in
   * the right table's order, the left cells followed by the right cells.
   */
  function Pair(l: Row, right: seq<Row>): seq<Row>
    decreases |right|
  {
    if right == [] then []
    else (if right[0].id == l.id then [Row(l.id, l.cells + right[0].cells)] else []) + Pair(l, right[1..])
  }

  /**
   * `left.merge(right, on="id")` (inner): the left rows in order, each paired
   * with every right row of the same id.
   */
  function JoinRows(left: seq<Row>, right: seq<Row>): seq<Row>
    decreases |left|
  {
    if left == [] then [] else Pair(left[0], right) + JoinRows(left[1..], right)
  }

  /** Each joined row has the left row's id, and there is one per right row with that id. */
  lemma {:induction false} PairIds(l: Row, right: seq<Row>)
    ensures |Pair(l, right)| == multiset(RowIds(right))[l.id]
    ensures forall k :: 0 <= k < |Pair(l, right)| ==> Pair(l, right)[k].id == l.id
    decreases |right|
  {
    if right != [] {
      PairIds(l, right[1..]);
      assert RowIds(right) == [right[0].id] + RowIds(right[1..]);
    }
  }

  /** Each joined row has the left row's cells and then one right row's. */
  lemma {:induction false} PairWidth(l: Row, right: seq<Row>, m: nat)
    requires forall j :: 0 <= j < |right| ==> |right[j].cells| == m
    ensures forall k :: 0 <= k < |Pair(l, right)| ==> |Pair(l, right)[k].cells| == |l.cells| + m
    decreases |right|
  {
    if right != [] {
      PairWidth(l, right[1..], m);
    }
  }

  lemma {:induction false} JoinRowsShape(left: seq<Row>, right: seq<Row>, n: nat, m: nat)
    requires forall i :: 0 <= i < |left| ==> |left[i].cells| == n
    requires forall j :: 0 <= j < |right| ==> |right[j].cells| == m
    ensures forall k :: 0 <= k < |JoinRows(left, right)| ==> |JoinRows(left, right)[k].cells| == n + m
    decreases |left|
  {
    if left != [] {
      PairWidth(left[0], right, m);
      JoinRowsShape(left[1..], right, n, m);
    }
  }

  /** The join of two tables; the result has the columns of both. */
  function InnerJoin(left: Table, right: Table): (t: Table)
    ensures Width(t) == Width(left) + |right.columns|
  {
    JoinRowsShape(left.rows, right.rows, |left.columns|, |right.columns|);
    Frame(left.columns + right.columns, JoinRows(left.rows, right.rows))
  }

  /** The ids of `ids` that also occur in `keys`, in order. */
  function KeepIn(ids: seq<string>, keys: seq<string>): (r: seq<string>)
    ensures forall x :: x in r <==> x in ids && x in keys
  {
    if ids == [] then [] else (if ids[0] in keys then [ids[0]] else []) + KeepIn(ids[1..], keys)
  }

  lemma {:induction false} DistinctCount(s: seq<string>, x: string)
    requires Distinct(s)
    ensures multiset(s)[x] == if x in s then 1 else 0
    decreases |s|
  {
    if s != [] {
      assert s == [s[0]] + s[1..];
      DistinctCount(s[1..], x);
    }
  }

  lemma PairIdsUnique(l: Row, right: seq<Row>)
    requires Distinct(RowIds(right))
    ensures RowIds(Pair(l, right)) == if l.id in RowIds(right) then [l.id] else []
  {
    PairIds(l, right);
    DistinctCount(RowIds(right), l.id);
    if l.id in RowIds(right) {
      assert RowIds(Pair(l, right))[0] == l.id;
    }
  }

  /**
   * When the right table's ids are unique, the join keeps the left ids that
   * occur on the right, in the left table's order.
   */
  lemma {:induction false} JoinIdsUnique(left: seq<Row>, right: seq<Row>)
    requires Distinct(RowIds(right))
    ensures RowIds(JoinRows(left, right)) == KeepIn(RowIds(left), RowIds(right))
    decreases |left|
  {
    if left != [] {
      PairIdsUnique(left[0], right);
      JoinIdsUnique(left[1..], right);
      RowIdsAppend(Pair(left[0], right), JoinRows(left[1..], right));
      assert RowIds(left)[1..] == RowIds(left[1..]);
    }
  }

  /** Keeping some ids of a duplicate-free sequence leaves it duplicate-free. */
  lemma {:induction false} KeepInDistinct(ids: seq<string>, keys: seq<string>)
    requires Distinct(ids)
    ensures Distinct(KeepIn(ids, keys))
    decreases |ids|
  {
    if ids != [] {
      KeepInDistinct(ids[1..], keys);
      assert ids[0] !in ids[1..];
    }
  }

  /** Keeping every id changes nothing. */
  lemma {:induction false} KeepInAll(ids: seq<string>, keys: seq<string>)
    requires forall x :: x in ids ==> x in keys
    ensures KeepIn(ids, keys) == ids
    decreases |ids|
  {
    if ids != [] {
      KeepInAll(ids[1..], keys);
      assert ids == [ids[0]] + ids[1..];
    }
  }

  /** Of duplicate-free ids, the join keeps as many as there are ids in common. */
  lemma {:induction false} KeepInCount(ids: seq<string>, keys: seq<string>)
    requires Distinct(ids)
    ensures |KeepIn(ids, keys)| == |set x | x in ids && x in keys|
    decreases |ids|
  {
    var common := set x | x in ids && x in keys;
    if ids == [] {
      assert common == {};
    } else {
      var rest := set x | x in ids[1..] && x in keys;
      KeepInCount(ids[1..], keys);
      assert ids[0] !in ids[1..];
      if ids[0] in keys {
        assert common == rest + {ids[0]};
      } else {
        assert common == rest;
      }
    }
  }

  // ---------------------------------------------------------------- the three-way merge

  /** `heuristics.merge(ids, on="id").merge(clusters, on="id")` */
  function Merged(heuristics: Table, ids: Table, clusters: Table): Table {
    InnerJoin(InnerJoin(heuristics, ids), clusters)
  }

  /**
   * The merged table has the columns of all three, and, when the id and
   * cluster tables have unique ids, its rows are the feature rows whose id
   * occurs in both, in the feature table's order.
   */
  lemma MergedShape(heuristics: Table, ids: Table, clusters: Table)
    requires Distinct(Ids(ids)) && Distinct(Ids(clusters))
    ensures Width(Merged(heuristics, ids, clusters)) == Width(heuristics) + |ids.columns| + |clusters.columns|
    ensures Ids(Merged(heuristics, ids, clusters)) == KeepIn(KeepIn(Ids(heuristics), Ids(ids)), Ids(clusters))
  {
    JoinIdsUnique(heuristics.rows, ids.rows);
    JoinIdsUnique(InnerJoin(heuristics, ids).rows, clusters.rows);
  }

  /**
   * With unique ids in all three tables, the merged row count is the number of
   * ids the three have in common; when every feature id occurs in the other
   * two, the merged ids are the feature ids, in order.
   */
  lemma MergedCommon(heuristics: Table, ids: Table, clusters: Table)
    requires Distinct(Ids(heuristics)) && Distinct(Ids(ids)) && Distinct(Ids(clusters))
    ensures |Merged(heuristics, ids, clusters).rows| ==
      |set x | x in Ids(heuristics) && x in Ids(ids) && x in Ids(clusters)|
    ensures (forall x :: x in Ids(heuristics) ==> x in Ids(ids) && x in Ids(clusters)) ==>
      Ids(Merged(heuristics, ids, clusters)) == Ids(heuristics)
  {
    MergedShape(heuristics, ids, clusters);
    var first := KeepIn(Ids(heuristics), Ids(ids));
    KeepInDistinct(Ids(heuristics), Ids(ids));
    KeepInCount(first, Ids(clusters));
    assert (set x | x in first && x in Ids(clusters)) ==
      (set x | x in Ids(heuristics) && x in Ids(ids) && x in Ids(clusters));
    if forall x :: x in Ids(heuristics) ==> x in Ids(ids) && x in Ids(clusters) {
      KeepInAll(Ids(heuristics), Ids(ids));
      KeepInAll(Ids(heuristics), Ids(clusters));
    }
  }

  // ---------------------------------------------------------------- attaching the embeddings

  /** `[f"emb_{i}" for i in range(d)]` */
  function EmbeddingNames(d: nat): (names: seq<string>)
    ensures |names| == d
  {
    seq(d, i requires 0 <= i < d => "emb_" + NatToString(i))
  }

  /** The embedding column names are distinct and each names its dimension. */
  lemma EmbeddingNamesDistinct(d: nat)
    ensures forall i :: 0 <= i < d ==> EmbeddingNames(d)[i][..4] == "emb_"
    ensures Distinct(EmbeddingNames(d))
  {
    var names := EmbeddingNames(d);
    forall i, j | 0 <= i < j < d ensures names[i] != names[j] {
      if names[i] == names[j] {
        assert names[i][4..] == NatToString(i);
        assert names[j][4..] == NatToString(j);
        NatToStringInjective(i, j);
      }
    }
  }

  function FloatCells(v: seq<real>): (cells: seq<Value>)
    ensures |cells| == |v|
  {
    seq(|v|, j requires 0 <= j < |v| => Float(v[j]))
  }

  /**
   * `pd.concat([df, embedding_df], axis=1)` for tables of equal length: both
   * carry a fresh 0-based row index, so row k of the result is row k of `df`
   * followed by row k of the embedding matrix.
   */
  function Attach(df: Table, emb: Embeddings): Table
    requires |emb.rows| == |df.rows|
  {
    var rows := seq(|df.rows|, k requires 0 <= k < |df.rows| =>
      Row(df.rows[k].id, df.rows[k].cells + FloatCells(emb.rows[k])));
    Frame(df.columns + EmbeddingNames(emb.width), rows)
  }

  /**
   * The attached table keeps the merged rows and ids in order, adds one column
   * per embedding dimension, and places dimension j of row k after the merged
   * cells of row k.
   */
  lemma AttachByPosition(df: Table, emb: Embeddings)
    requires |emb.rows| == |df.rows|
    ensures Width(Attach(df, emb)) == Width(df) + emb.width
    ensures Ids(Attach(df, emb)) == Ids(df)
    ensures forall k :: 0 <= k < |df.rows| ==> Attach(df, emb).rows[k].cells[..|df.columns|] == df.rows[k].cells
    ensures forall k, j :: 0 <= k < |df.rows| && 0 <= j < emb.width ==>
      Attach(df, emb).rows[k].cells[|df.columns| + j] == Float(emb.rows[k][j])
  {
  }

  // ---------------------------------------------------------------- the whole stage

  datatype MergeError = NoSignals | CountMismatch(embeddings: nat, merged: nat)

  /** The text of the exception raised. */
  function ErrorMessage(e: MergeError): string {
    match e
    case NoSignals => "No *_signals.csv file found in data/processed/"
    case CountMismatch(embeddings, merged) =>
      "Embedding count (" + NatToString(embeddings) + ") does not match merged rows (" + NatToString(merged) + ")."
  }

  /** The names of the files of `data/processed`. */
  function Names(dir: seq<(string, Table)>): (names: seq<string>)
    ensures |names| == |dir|
    ensures forall i :: 0 <= i < |dir| ==> names[i] == dir[i].0
  {
    seq(|dir|, i requires 0 <= i < |dir| => dir[i].0)
  }

  /** `pd.read_csv(name)`: the table of the first file with that name. */
  function TableOf(dir: seq<(string, Table)>, name: string): Table
    requires name in Names(dir)
    decreases |dir|
  {
    if dir[0].0 == name then dir[0].1 else TableOf(dir[1..], name)
  }

  /**
   * `main()`: the table written to `full_features.csv`, or the exception that
   * stops the stage before anything is written. `dir` lists the files of
   * `data/processed` with their contents.
   */
  function Merge(dir: seq<(string, Table)>, emb: Embeddings, ids: Table, clusters: Table): Result<Table, MergeError> {
    match LatestSignals(Names(dir))
    case None => Err(NoSignals)
    case Some(name) =>
      var df := Merged(TableOf(dir, name), ids, clusters);
      if |emb.rows| != |df.rows| then Err(CountMismatch(|emb.rows|, |df.rows|))
      else Ok(Attach(df, emb))
  }

  /** The stage fails for want of a feature table exactly when no file name matches. */
  lemma MergeNoSignals(dir: seq<(string, Table)>, emb: Embeddings, ids: Table, clusters: Table)
    ensures Merge(dir, emb, ids, clusters) == Err(NoSignals) <==> forall i :: 0 <= i < |dir| ==> !IsSignalsFile(dir[i].0)
  {
    if forall i :: 0 <= i < |dir| ==> !IsSignalsFile(dir[i].0) {
      assert forall n :: n in Names(dir) ==> !IsSignalsFile(n);
    }
  }

  /**
   * Given a feature table, the stage fails exactly when the embedding matrix
   * and the merged table differ in row count; otherwise it writes the merged
   * rows, in order, with the merged columns and one column per dimension.
   */
  lemma MergeOutcome(dir: seq<(string, Table)>, emb: Embeddings, ids: Table, clusters: Table, name: string)
    requires LatestSignals(Names(dir)) == Some(name)
    ensures var df := Merged(TableOf(dir, name), ids, clusters);
      && (Merge(dir, emb, ids, clusters).Err? <==> |emb.rows| != |df.rows|)
      && (Merge(dir, emb, ids, clusters).Err? ==> Merge(dir, emb, ids, clusters).error == CountMismatch(|emb.rows|, |df.rows|))
      && (Merge(dir, emb, ids, clusters).Ok? ==>
            var out := Merge(dir, emb, ids, clusters).value;
            && Width(out) == Width(df) + emb.width
            && |out.rows| == |df.rows|
            && Ids(out) == Ids(df))
  {
    var df := Merged(TableOf(dir, name), ids, clusters);
    if |emb.rows| == |df.rows| {
      AttachByPosition(df, emb);
    }
  }
}
