/**
 * The clustering, merge and validation stages composed: the cluster table
 * the clustering stage writes is the one the merge stage joins, and the
 * merged table is the one the gate checks.
 *
 * The gate requires the merged table to have `psych.shape[1] + 1 + d`
 * columns. The merged table really has the feature table's columns, the
 * embedding-id table's other columns, the cluster table's other columns (the
 * id table's again, plus `cluster` and `cluster_prob`) and the `d`
 * embedding columns, which is always at least one more: the column check
 * rejects every table the merge stage writes. The corrected count is the sum
 * of the joined tables' columns.
 */
module Pipeline {
  import opened Common
  import opened Frames
  import opened ValidatePipeline
  import opened MergeAll
  import opened Clustering

  /** The column count of a table merged from these three tables and this embedding matrix. */
  function MergedColumns(psych: Table, ids: Table, clusters: Table, emb: Embeddings): nat {
    Width(psych) + |ids.columns| + |clusters.columns| + emb.width
  }

  /** The gate with the corrected column count. */
  function ValidateCorrected(fs: FileSystem, psych: Table, ids: Table, clusters: Table, emb: Embeddings, full: Table): Verdict {
    ValidateWith(fs, psych, ids, clusters, emb, full, MergedColumns(psych, ids, clusters, emb))
  }

  /** Every table the merge stage writes has the corrected column count. */
  lemma MergeMeetsCorrectedCount(dir: seq<(string, Table)>, name: string, emb: Embeddings, ids: Table, clusters: Table)
    requires LatestSignals(Names(dir)) == Some(name)
    requires Merge(dir, emb, ids, clusters).Ok?
    ensures Width(Merge(dir, emb, ids, clusters).value) == MergedColumns(TableOf(dir, name), ids, clusters, emb)
  {
    MergeOutcome(dir, emb, ids, clusters, name);
  }

  /**
   * As written, the column check rejects the merge of any cluster table the
   * clustering stage writes: the merged table is wider than the gate's count,
   * so once the files are present and the rows and ids agree the verdict is a
   * column-count failure. The gate's feature table is taken to be the
   * `*_signals.csv` table the merge joins, and its id table the merge's.
   */
  lemma AsWrittenRejectsPipeline(fs: FileSystem, dir: seq<(string, Table)>, name: string, emb: Embeddings, ids: Table,
                                 labels: seq<int>, probs: seq<real>)
    requires LatestSignals(Names(dir)) == Some(name)
    requires Clustering.Stage(true, true, |emb.rows|, ids, labels, probs).Clustered?
    requires Merge(dir, emb, ids, Clustering.Stage(true, true, |emb.rows|, ids, labels, probs).table).Ok?
    ensures var clusters := Clustering.Stage(true, true, |emb.rows|, ids, labels, probs).table;
      var full := Merge(dir, emb, ids, clusters).value;
      var psych := TableOf(dir, name);
      && Width(full) > ExpectedColumns(psych, emb)
      && (FirstMissing(fs, Paths()).None? && RowsAgree(psych, ids, clusters, emb) && IdsAgree(psych, ids, clusters) ==>
            Validate(fs, psych, ids, clusters, emb, full) == Failed(ColumnCount(Width(full), ExpectedColumns(psych, emb))))
  {
    var clusters := Clustering.Stage(true, true, |emb.rows|, ids, labels, probs).table;
    StageColumns(|emb.rows|, ids, labels, probs);
    MergeMeetsCorrectedCount(dir, name, emb, ids, clusters);
  }

  /**
   * With the corrected count, the column check passes on every merged table,
   * and a merged table without missing cells from aligned artifacts is
   * accepted, reporting the distribution of the clustering stage's labels.
   */
  lemma CorrectedAcceptsPipeline(fs: FileSystem, dir: seq<(string, Table)>, name: string, emb: Embeddings, ids: Table,
                                 labels: seq<int>, probs: seq<real>)
    requires LatestSignals(Names(dir)) == Some(name)
    requires Clustering.Stage(true, true, |emb.rows|, ids, labels, probs).Clustered?
    requires Merge(dir, emb, ids, Clustering.Stage(true, true, |emb.rows|, ids, labels, probs).table).Ok?
    ensures var clusters := Clustering.Stage(true, true, |emb.rows|, ids, labels, probs).table;
      var full := Merge(dir, emb, ids, clusters).value;
      var psych := TableOf(dir, name);
      FirstMissing(fs, Paths()).None? && RowsAgree(psych, ids, clusters, emb) && IdsAgree(psych, ids, clusters) && !HasMissing(full) ==>
        ValidateCorrected(fs, psych, ids, clusters, emb, full) == Nominal(multiset(LabelCells(labels)))
  {
    var clusters := Clustering.Stage(true, true, |emb.rows|, ids, labels, probs).table;
    MergeMeetsCorrectedCount(dir, name, emb, ids, clusters);
    StageOutput(|emb.rows|, ids, labels, probs, "cluster");
  }
}
