/**
 * The integrity gate run after the pipeline: five artifacts must be present
 * and non-empty, then the component tables must agree in row count and in
 * their id sequences, the merged table must have one column per feature, one
 * for the cluster and one per embedding dimension, and no cell of the merged
 * table may be missing. The first failed check ends the run (`fail` prints
 * its message and exits with status 1).
 */
module ValidatePipeline {
  import opened Common
  import opened Text
  import opened Values
  import opened Frames

  /** The five artifacts, in the order they are checked. */
  const DataFiles: seq<(string, string)> := [
    ("Heuristic features", "data/processed/psych_features.csv"),
    ("Embedding IDs", "data/processed/embedding_ids.csv"),
    ("Embeddings", "data/processed/embeddings.npy"),
    ("Cluster labels", "data/processed/cluster_labels.csv"),
    ("Merged dataset", "data/processed/full_features.csv")
  ]

  /** The file system: the size in bytes of each existing file. */
  type FileSystem = map<string, nat>

  /** `check_file_exists`: the file exists and is not empty. */
  predicate FilePresent(fs: FileSystem, path: string) {
    path in fs && fs[path] > 0
  }

  datatype Failure =
    | MissingFile(path: string)
    | RowCounts
    | IdMismatch
    | ColumnCount(actual: nat, expected: nat)
    | MissingValues

  /** The text `fail` prints. */
  function Message(f: Failure): string {
    match f
    case MissingFile(path) => "File missing or empty: " + path
    case RowCounts => "Mismatch in row counts between psych, IDs, clusters, or embeddings."
    case IdMismatch => "Mismatch in post IDs across datasets."
    case ColumnCount(actual, expected) =>
      "full_features.csv has unexpected number of columns (" + NatToString(actual) + " vs expected " + NatToString(expected) + ")"
    case MissingValues => "NaN values detected in full_features.csv"
  }

  /**
   * How a run ends: every check passed and the cluster-label distribution
   * (`value_counts`, one count per distinct label) is reported; a check failed;
   * or the cluster table has no `cluster` column, which raises `KeyError`.
   */
  datatype Verdict = Nominal(distribution: multiset<Value>) | Failed(failure: Failure) | NoClusterColumn

  /** The first path in `paths` that is missing or empty. */
  function FirstMissing(fs: FileSystem, paths: seq<string>): (r: Option<string>)
    ensures r.None? <==> forall i :: 0 <= i < |paths| ==> FilePresent(fs, paths[i])
    ensures r.Some? ==> !FilePresent(fs, r.value)
    ensures r.Some? ==> exists k :: 0 <= k < |paths| && paths[k] == r.value && (forall j :: 0 <= j < k ==> FilePresent(fs, paths[j]))
    decreases |paths|
  {
    if paths == [] then None
    else if !FilePresent(fs, paths[0]) then Some(paths[0])
    else
      var r := FirstMissing(fs, paths[1..]);
      assert forall i :: 0 < i < |paths| ==> paths[i] == paths[1..][i - 1];
      r
  }

  function Paths(): seq<string> {
    seq(|DataFiles|, i requires 0 <= i < |DataFiles| => DataFiles[i].1)
  }

  /** `len(psych) == len(ids) == len(clusters) == embeddings.shape[0]` */
  predicate RowsAgree(psych: Table, ids: Table, clusters: Table, emb: Embeddings) {
    |psych.rows| == |ids.rows| == |clusters.rows| == |emb.rows|
  }

  /** `psych["id"].equals(ids["id"]) and psych["id"].equals(clusters["id"])`: same ids, same order. */
  predicate IdsAgree(psych: Table, ids: Table, clusters: Table) {
    Ids(psych) == Ids(ids) && Ids(psych) == Ids(clusters)
  }

  /** The column count the merged table must have: the feature table's, one for the cluster, the embedding width. */
  function ExpectedColumns(psych: Table, emb: Embeddings): nat {
    Width(psych) + 1 + emb.width
  }

  /** The check sequence, for a given required column count of the merged table. */
  function ValidateWith(fs: FileSystem, psych: Table, ids: Table, clusters: Table, emb: Embeddings, full: Table, expected: nat): Verdict {
    match FirstMissing(fs, Paths())
    case Some(path) => Failed(MissingFile(path))
    case None =>
      if !RowsAgree(psych, ids, clusters, emb) then Failed(RowCounts)
      else if !IdsAgree(psych, ids, clusters) then Failed(IdMismatch)
      else if Width(full) != expected then Failed(ColumnCount(Width(full), expected))
      else if HasMissing(full) then Failed(MissingValues)
      else match Column(clusters, "cluster")
        case None => NoClusterColumn
        case Some(labels) => Nominal(multiset(labels))
  }

  /** `validate_pipeline()`, with the loaded artifacts as inputs. */
  function Validate(fs: FileSystem, psych: Table, ids: Table, clusters: Table, emb: Embeddings, full: Table): Verdict {
    ValidateWith(fs, psych, ids, clusters, emb, full, ExpectedColumns(psych, emb))
  }

  /** The gate as the script runs it: the existence loop, then each check in turn. */
  method ValidatePipelineRun(fs: FileSystem, psych: Table, ids: Table, clusters: Table, emb: Embeddings, full: Table)
    returns (verdict: Verdict)
    ensures verdict == Validate(fs, psych, ids, clusters, emb, full)
  {
    var paths := Paths();
    var i := 0;
    while i < |paths|
      invariant 0 <= i <= |paths|
      invariant forall j :: 0 <= j < i ==> FilePresent(fs, paths[j])
      invariant FirstMissing(fs, paths) == FirstMissing(fs, paths[i..])
    {
      if !FilePresent(fs, paths[i]) {
        return Failed(MissingFile(paths[i]));
      }
      assert paths[i..][1..] == paths[i + 1..];
      i := i + 1;
    }
    assert paths[i..] == [];
    if !(|psych.rows| == |ids.rows| == |clusters.rows| == |emb.rows|) {
      return Failed(RowCounts);
    }
    if !(Ids(psych) == Ids(ids) && Ids(psych) == Ids(clusters)) {
      return Failed(IdMismatch);
    }
    var expectedCols := Width(psych) + 1 + emb.width;
    if Width(full) != expectedCols {
      return Failed(ColumnCount(Width(full), expectedCols));
    }
    if HasMissing(full) {
      return Failed(MissingValues);
    }
    var labels := Column(clusters, "cluster");
    if labels.None? {
      return NoClusterColumn;
    }
    verdict := Nominal(multiset(labels.value));
  }

  // ---------------------------------------------------------------- properties of the gate

  /** The run is nominal exactly when every check passes. */
  lemma NominalIff(fs: FileSystem, psych: Table, ids: Table, clusters: Table, emb: Embeddings, full: Table)
    ensures Validate(fs, psych, ids, clusters, emb, full).Nominal? <==>
      && (forall i :: 0 <= i < |Paths()| ==> FilePresent(fs, Paths()[i]))
      && RowsAgree(psych, ids, clusters, emb)
      && IdsAgree(psych, ids, clusters)
      && Width(full) == ExpectedColumns(psych, emb)
      && !HasMissing(full)
      && "cluster" in clusters.columns
  {
  }

  /**
   * A missing artifact ends the run before any table is looked at: the verdict
   * names the first missing file whatever the tables hold.
   */
  lemma MissingFileFirst(fs: FileSystem, psych: Table, ids: Table, clusters: Table, emb: Embeddings, full: Table,
                         psych': Table, ids': Table, clusters': Table, emb': Embeddings, full': Table)
    requires FirstMissing(fs, Paths()).Some?
    ensures Validate(fs, psych, ids, clusters, emb, full) == Validate(fs, psych', ids', clusters', emb', full')
    ensures Validate(fs, psych, ids, clusters, emb, full) == Failed(MissingFile(FirstMissing(fs, Paths()).value))
  {
  }

  /** A row-count mismatch is reported before the id, column and missing-value checks. */
  lemma RowCountFirst(fs: FileSystem, psych: Table, ids: Table, clusters: Table, emb: Embeddings, full: Table, full': Table)
    requires FirstMissing(fs, Paths()).None?
    requires !RowsAgree(psych, ids, clusters, emb)
    ensures Validate(fs, psych, ids, clusters, emb, full) == Failed(RowCounts)
    ensures Validate(fs, psych, ids, clusters, emb, full') == Failed(RowCounts)
  {
  }

  /**
   * The same ids in another order fail the id check: equal as multisets is not
   * enough.
   */
  lemma ReorderedIdsFail(fs: FileSystem, psych: Table, ids: Table, clusters: Table, emb: Embeddings, full: Table)
    requires FirstMissing(fs, Paths()).None?
    requires RowsAgree(psych, ids, clusters, emb)
    requires multiset(Ids(psych)) == multiset(Ids(ids)) && Ids(psych) != Ids(ids)
    ensures Validate(fs, psych, ids, clusters, emb, full) == Failed(IdMismatch)
  {
  }

  /**
   * The cluster-label distribution never decides the verdict: two cluster
   * tables with the same ids and a `cluster` column give the same outcome, up
   * to the distribution reported.
   */
  lemma DistributionIrrelevant(fs: FileSystem, psych: Table, ids: Table, clusters: Table, clusters': Table, emb: Embeddings, full: Table)
    requires Ids(clusters) == Ids(clusters')
    requires "cluster" in clusters.columns && "cluster" in clusters'.columns
    ensures Validate(fs, psych, ids, clusters, emb, full).Nominal? == Validate(fs, psych, ids, clusters', emb, full).Nominal?
    ensures Validate(fs, psych, ids, clusters, emb, full).Failed? ==>
      Validate(fs, psych, ids, clusters, emb, full) == Validate(fs, psych, ids, clusters', emb, full)
  {
  }

  /** A nominal run reports one count per row of the cluster table. */
  lemma DistributionCountsRows(fs: FileSystem, psych: Table, ids: Table, clusters: Table, emb: Embeddings, full: Table)
    requires Validate(fs, psych, ids, clusters, emb, full).Nominal?
    ensures |Validate(fs, psych, ids, clusters, emb, full).distribution| == |clusters.rows| == |psych.rows|
  {
  }
}
