/**
 * The clustering stage: reduces the embeddings with UMAP, clusters the
 * reduced points with HDBSCAN, attaches each post's cluster label and
 * membership probability to the embedding-id table, and reports how many
 * clusters were found. UMAP and HDBSCAN themselves are inputs here: the
 * labels and probabilities they produce are parameters.
 */
module Clustering {
  import opened Common
  import opened Values
  import opened Frames

  /** The sentinel HDBSCAN gives to points in no cluster. */
  const Noise: int := -1

  /** `n_neighbors=min(15, len(embeddings)-1)` */
  function NNeighbors(n: nat): (k: int)
    ensures k <= 15 && k <= n - 1
    ensures k == 15 || k == n - 1
  {
    Min(15, n - 1)
  }

  /** Fifteen neighbours once there are at least sixteen points, otherwise one fewer than the points. */
  lemma NNeighborsCases(n: nat)
    ensures n >= 16 ==> NNeighbors(n) == 15
    ensures n < 16 ==> NNeighbors(n) == n - 1
  {
  }

  /** `len(set(labels)) - (1 if -1 in labels else 0)` */
  function ClusterCount(labels: seq<int>): nat {
    var distinct := set l | l in labels;
    if Noise in labels then
      assert Noise in distinct;
      |distinct| - 1
    else |distinct|
  }

  /** The count is the number of distinct labels other than the noise sentinel. */
  lemma ClusterCountNonNoise(labels: seq<int>)
    ensures ClusterCount(labels) == |set l | l in labels && l != Noise|
  {
    var distinct := set l | l in labels;
    var clusters := set l | l in labels && l != Noise;
    if Noise in labels {
      assert distinct == clusters + {Noise};
    } else {
      assert distinct == clusters;
    }
  }

  lemma {:induction false} DistinctBound(labels: seq<int>)
    ensures |set l | l in labels| <= |labels|
    decreases |labels|
  {
    if labels != [] {
      DistinctBound(labels[1..]);
      assert (set l | l in labels) == (set l | l in labels[1..]) + {labels[0]};
    }
  }

  /** No more clusters than points, and none when every point is noise. */
  lemma ClusterCountBounds(labels: seq<int>)
    ensures ClusterCount(labels) <= |labels|
    ensures (forall i :: 0 <= i < |labels| ==> labels[i] == Noise) ==> ClusterCount(labels) == 0
  {
    DistinctBound(labels);
    ClusterCountNonNoise(labels);
    if forall i :: 0 <= i < |labels| ==> labels[i] == Noise {
      assert (set l | l in labels && l != Noise) == {};
    }
  }

  // ---------------------------------------------------------------- assigning a column

  /**
   * `df[name] = values` for values of the table's length: an existing column
   * is overwritten where it stands, a new one goes last.
   */
  function WithColumn(f: Table, name: string, values: seq<Value>): Frame
    requires |values| == |f.rows|
  {
    match ColumnIndex(f.columns, name)
    case Some(c) =>
      Frame(f.columns, seq(|f.rows|, i requires 0 <= i < |f.rows| => Row(f.rows[i].id, f.rows[i].cells[c := values[i]])))
    case None =>
      Frame(f.columns + [name], seq(|f.rows|, i requires 0 <= i < |f.rows| => Row(f.rows[i].id, f.rows[i].cells + [values[i]])))
  }

  /**
   * Assigning a column keeps the table well formed, its ids in order and every
   * other column; afterwards the column holds exactly the assigned values.
   */
  lemma WithColumnFacts(f: Table, name: string, values: seq<Value>, other: string)
    requires |values| == |f.rows|
    ensures WellFormed(WithColumn(f, name, values))
    ensures Ids(WithColumn(f, name, values)) == Ids(f)
    ensures name in WithColumn(f, name, values).columns
    ensures |WithColumn(f, name, values).columns| >= |f.columns|
    ensures Column(WithColumn(f, name, values), name) == Some(values)
    ensures other != name ==> Column(WithColumn(f, name, values), other) == Column(f, other)
  {
    var g := WithColumn(f, name, values);
    assert WellFormed(g);
    assert Ids(g) == Ids(f);
    match ColumnIndex(f.columns, name)
    case None =>
      ColumnIndexAppend(f.columns, name, name);
      assert Column(g, name).value == values;
      if other != name {
        ColumnIndexAppend(f.columns, name, other);
        WithColumnOtherNew(f, name, values, other);
      }
    case Some(c) =>
      assert g.columns == f.columns;
      assert Column(g, name).value == values;
      if other != name {
        WithColumnOtherExisting(f, name, values, other, c);
      }
  }

  lemma WithColumnOtherNew(f: Table, name: string, values: seq<Value>, other: string)
    requires |values| == |f.rows| && other != name && name !in f.columns
    requires WellFormed(WithColumn(f, name, values))
    requires ColumnIndex(f.columns + [name], other) == ColumnIndex(f.columns, other)
    ensures Column(WithColumn(f, name, values), other) == Column(f, other)
  {
    var g := WithColumn(f, name, values);
    assert g.columns == f.columns + [name];
    match ColumnIndex(f.columns, other)
    case None =>
    case Some(o) =>
      assert Column(g, other).value == Column(f, other).value;
  }

  lemma WithColumnOtherExisting(f: Table, name: string, values: seq<Value>, other: string, c: nat)
    requires |values| == |f.rows| && other != name && ColumnIndex(f.columns, name) == Some(c)
    requires WellFormed(WithColumn(f, name, values))
    ensures Column(WithColumn(f, name, values), other) == Column(f, other)
  {
    var g := WithColumn(f, name, values);
    assert g.columns == f.columns;
    match ColumnIndex(f.columns, other)
    case None =>
    case Some(o) =>
      assert o != c;
      assert Column(g, other).value == Column(f, other).value;
  }

  lemma {:induction false} ColumnIndexAppend(columns: seq<string>, name: string, other: string)
    requires name !in columns
    ensures ColumnIndex(columns + [name], other) ==
      if other == name then Some(|columns|) else ColumnIndex(columns, other)
    decreases |columns|
  {
    if columns != [] {
      assert (columns + [name])[1..] == columns[1..] + [name];
      ColumnIndexAppend(columns[1..], name, other);
    }
  }

  /** The embedding-id table, which the stage extends in place. */
  class IdsFrame {
    var columns: seq<string>
    var rows: seq<Row>

    function Contents(): Frame
      reads this
    {
      Frame(columns, rows)
    }

    constructor(t: Table)
      ensures Contents() == t
    {
      columns := t.columns;
      rows := t.rows;
    }

    /**
     * `ids_df[name] = values`: pandas raises `ValueError` when the lengths
     * differ, and the table is then unchanged.
     */
    method AssignColumn(name: string, values: seq<Value>) returns (ok: bool)
      requires WellFormed(Contents())
      modifies this
      ensures ok <==> |values| == |old(rows)|
      ensures ok ==> WellFormed(old(Contents())) && Contents() == WithColumn(old(Contents()), name, values)
      ensures !ok ==> Contents() == old(Contents())
    {
      if |values| != |rows| {
        ok := false;
        return;
      }
      var rs := rows;
      var c := ColumnIndex(columns, name);
      if c.Some? {
        rows := seq(|rs|, i requires 0 <= i < |rs| => Row(rs[i].id, rs[i].cells[c.value := values[i]]));
      } else {
        rows := seq(|rs|, i requires 0 <= i < |rs| => Row(rs[i].id, rs[i].cells + [values[i]]));
        columns := columns + [name];
      }
      ok := true;
    }
  }

  // ---------------------------------------------------------------- the stage

  function LabelCells(labels: seq<int>): (cells: seq<Value>)
    ensures |cells| == |labels|
  {
    seq(|labels|, i requires 0 <= i < |labels| => Int(labels[i]))
  }

  function ProbCells(probs: seq<real>): (cells: seq<Value>)
    ensures |cells| == |probs|
  {
    seq(|probs|, i requires 0 <= i < |probs| => Float(probs[i]))
  }

  /**
   * How the stage ends: an input file is missing and nothing is written; a
   * label or probability array does not match the id table (`ValueError`); or
   * the table written to `cluster_labels.csv`, with the cluster count printed
   * and the neighbour size UMAP was given.
   */
  datatype Outcome =
    | MissingInputs
    | LengthMismatch
    | Clustered(table: Table, clusters: nat, neighbours: int)

  /** `main()`, with the clustering results as parameters. */
  function Stage(embeddingsExist: bool, idsExist: bool, points: nat, ids: Table, labels: seq<int>, probs: seq<real>): Outcome {
    if !embeddingsExist || !idsExist then MissingInputs
    else if |labels| != |ids.rows| then LengthMismatch
    else
      WithColumnFacts(ids, "cluster", LabelCells(labels), "cluster");
      var withLabels: Table := WithColumn(ids, "cluster", LabelCells(labels));
      if |probs| != |withLabels.rows| then LengthMismatch
      else
        WithColumnFacts(withLabels, "cluster_prob", ProbCells(probs), "cluster_prob");
        Clustered(WithColumn(withLabels, "cluster_prob", ProbCells(probs)), ClusterCount(labels), NNeighbors(points))
  }

  /** The stage as the script runs it, on the id table in place. */
  method RunStage(embeddingsExist: bool, idsExist: bool, points: nat, ids: Table, labels: seq<int>, probs: seq<real>)
    returns (out: Outcome)
    ensures out == Stage(embeddingsExist, idsExist, points, ids, labels, probs)
  {
    if !embeddingsExist || !idsExist {
      return MissingInputs;
    }
    var neighbours := Min(15, points - 1);
    var table := new IdsFrame(ids);
    var ok := table.AssignColumn("cluster", LabelCells(labels));
    if !ok {
      return LengthMismatch;
    }
    WithColumnFacts(ids, "cluster", LabelCells(labels), "cluster");
    ok := table.AssignColumn("cluster_prob", ProbCells(probs));
    if !ok {
      return LengthMismatch;
    }
    var withLabels: Table := WithColumn(ids, "cluster", LabelCells(labels));
    WithColumnFacts(withLabels, "cluster_prob", ProbCells(probs), "cluster_prob");
    var written: Table := table.Contents();
    out := Clustered(written, ClusterCount(labels), neighbours);
  }

  /** Nothing is written when either input is missing. */
  lemma MissingWritesNothing(embeddingsExist: bool, idsExist: bool, points: nat, ids: Table, labels: seq<int>, probs: seq<real>)
    ensures Stage(embeddingsExist, idsExist, points, ids, labels, probs).MissingInputs? <==> !embeddingsExist || !idsExist
  {
  }

  /**
   * The written table has the id table's rows, ids in order, and its other
   * columns, now with `cluster` and `cluster_prob` holding the labels and
   * probabilities row by row; the count reported is the non-noise cluster
   * count and the neighbour size is clamped to 15 and to one fewer than the
   * points.
   */
  lemma StageOutput(points: nat, ids: Table, labels: seq<int>, probs: seq<real>, other: string)
    requires Stage(true, true, points, ids, labels, probs).Clustered?
    ensures |labels| == |ids.rows| == |probs|
    ensures var out := Stage(true, true, points, ids, labels, probs);
      && Ids(out.table) == Ids(ids)
      && Column(out.table, "cluster") == Some(LabelCells(labels))
      && Column(out.table, "cluster_prob") == Some(ProbCells(probs))
      && (other != "cluster" && other != "cluster_prob" ==> Column(out.table, other) == Column(ids, other))
      && out.clusters == |set l | l in labels && l != Noise|
      && out.neighbours <= 15 && out.neighbours <= points - 1
  {
    WithColumnFacts(ids, "cluster", LabelCells(labels), other);
    var withLabels: Table := WithColumn(ids, "cluster", LabelCells(labels));
    WithColumnFacts(withLabels, "cluster_prob", ProbCells(probs), other);
    WithColumnFacts(withLabels, "cluster_prob", ProbCells(probs), "cluster");
    ClusterCountNonNoise(labels);
  }

  /**
   * The written table has at least the id table's columns, and at least two:
   * `cluster` and `cluster_prob`.
   */
  lemma StageColumns(points: nat, ids: Table, labels: seq<int>, probs: seq<real>)
    requires Stage(true, true, points, ids, labels, probs).Clustered?
    ensures var out := Stage(true, true, points, ids, labels, probs).table;
      |out.columns| >= |ids.columns| && |out.columns| >= 2
  {
    WithColumnFacts(ids, "cluster", LabelCells(labels), "cluster_prob");
    var withLabels: Table := WithColumn(ids, "cluster", LabelCells(labels));
    WithColumnFacts(withLabels, "cluster_prob", ProbCells(probs), "cluster");
    var cols := Stage(true, true, points, ids, labels, probs).table.columns;
    assert "cluster" in cols && "cluster_prob" in cols;
  }
}
