/**
 * Manual cluster labelling support: the dominant defences of a cluster, the
 * representative posts shown to the labeller, and the record saved for each
 * cluster. The clustered table is a sequence of post rows; a missing
 * (`NaN`) text, number or defence cell is `None`, and a column the table lacks is
 * recorded once for the whole table.
 */
module ClusterLabels {
  import opened Common
  import opened Text
  import opened Values
  import opened Ranking

  datatype PostRow = PostRow(
    cluster: int,
    text: Option<string>,
    valence: Option<real>,
    complexity: Option<real>,
    defenses: Option<string>)

  datatype ClusterFrame = ClusterFrame(
    hasValence: bool,
    hasComplexity: bool,
    hasDefenses: bool,
    rows: seq<PostRow>)

  /** `df[df['cluster'] == cluster_id]`, in table order. */
  function Subset(rows: seq<PostRow>, clusterId: int): (r: seq<PostRow>)
    ensures |r| <= |rows|
    ensures forall i :: 0 <= i < |r| ==> r[i].cluster == clusterId && r[i] in rows
    ensures forall x :: x in rows && x.cluster == clusterId ==> x in r
  {
    if rows == [] then []
    else (if rows[0].cluster == clusterId then [rows[0]] else []) + Subset(rows[1..], clusterId)
  }

  // ---------------------------------------------------------------- representative posts

  /** `abs()` of a cell, with a missing cell counted as 0 as `sum(axis=1)` skips it. */
  function AbsOrZero(x: Option<real>): (r: real)
    ensures r >= 0.0
  {
    match x
    case None => 0.0
    case Some(v) => if v < 0.0 then -v else v
  }

  /** `subset[['valence', 'complexity']].abs().sum(axis=1)` for one row. */
  function SignalScore(row: PostRow): real {
    AbsOrZero(row.valence) + AbsOrZero(row.complexity)
  }

  function Scored(rows: seq<PostRow>): (r: seq<(real, PostRow)>)
    ensures |r| == |rows|
    ensures forall i :: 0 <= i < |rows| ==> r[i] == (SignalScore(rows[i]), rows[i])
  {
    seq(|rows|, i requires 0 <= i < |rows| => (SignalScore(rows[i]), rows[i]))
  }

  /** `text[:500]` */
  function Clip(text: string, width: nat): (r: string)
    ensures |r| == Min(width, |text|) && r == text[..|r|]
    ensures |text| <= width ==> r == text
  {
    text[..Min(width, |text|)]
  }

  function Number(x: Option<real>): Value {
    match x
    case None => Null
    case Some(v) => Float(v)
  }

  /** The sample dictionary built for one chosen row whose text is present. */
  function Sample(df: ClusterFrame, row: PostRow): Value
    requires row.text.Some?
  {
    Dict([
      ("text", Str(Clip(row.text.value, 500))),
      ("valence", Number(row.valence)),
      ("complexity", Number(row.complexity)),
      ("detected_defenses", if df.hasDefenses && row.defenses.Some? then Str(row.defenses.value) else Null)
    ])
  }

  /** The rows `nlargest(n_posts, 'signal_score')` picks, with their scores. */
  function Chosen(df: ClusterFrame, clusterId: int, nPosts: nat): seq<(real, PostRow)> {
    TopN(Scored(Subset(df.rows, clusterId)), nPosts)
  }

  /** Every chosen row has a text cell; `NaN[:500]` raises `TypeError`. */
  predicate AllTexts(chosen: seq<(real, PostRow)>) {
    forall i :: 0 <= i < |chosen| ==> chosen[i].1.text.Some?
  }

  function Samples(df: ClusterFrame, chosen: seq<(real, PostRow)>): (r: seq<Value>)
    requires AllTexts(chosen)
    ensures |r| == |chosen|
    ensures forall i :: 0 <= i < |chosen| ==> r[i] == Sample(df, chosen[i].1)
  {
    seq(|chosen|, i requires 0 <= i < |chosen| => Sample(df, chosen[i].1))
  }

  /**
   * `select_representative_posts`: an empty cluster gives no samples; without
   * a `valence` or `complexity` column the score cannot be computed
   * (`KeyError`); a chosen row with a missing text fails while its sample is
   * built (`TypeError`); otherwise one sample per chosen row.
   */
  function SelectRepresentativePosts(df: ClusterFrame, clusterId: int, nPosts: nat): Option<seq<Value>> {
    if Subset(df.rows, clusterId) == [] then Some([])
    else if !df.hasValence || !df.hasComplexity then None
    else if !AllTexts(Chosen(df, clusterId, nPosts)) then None
    else Some(Samples(df, Chosen(df, clusterId, nPosts)))
  }

  /** The sample-building loop of `select_representative_posts`. */
  method SelectRepresentativePostsRun(df: ClusterFrame, clusterId: int, nPosts: nat) returns (samples: Option<seq<Value>>)
    ensures samples == SelectRepresentativePosts(df, clusterId, nPosts)
  {
    var subset := Subset(df.rows, clusterId);
    if subset == [] {
      return Some([]);
    }
    if !df.hasValence || !df.hasComplexity {
      return None;
    }
    var top := TopN(Scored(subset), nPosts);
    var acc: seq<Value> := [];
    var i := 0;
    while i < |top|
      invariant 0 <= i <= |top|
      invariant AllTexts(top[..i])
      invariant acc == Samples(df, top[..i])
    {
      if top[i].1.text.None? {
        return None;
      }
      assert AllTexts(top[..i + 1]);
      acc := acc + [Sample(df, top[i].1)];
      i := i + 1;
    }
    assert top[..i] == top;
    samples := Some(acc);
  }

  /** A cluster with no rows has no samples, whatever columns the table has. */
  lemma EmptyClusterNoSamples(df: ClusterFrame, clusterId: int, nPosts: nat)
    requires forall i :: 0 <= i < |df.rows| ==> df.rows[i].cluster != clusterId
    ensures SelectRepresentativePosts(df, clusterId, nPosts) == Some([])
  {
    SubsetNone(df.rows, clusterId);
  }

  lemma {:induction false} SubsetNone(rows: seq<PostRow>, clusterId: int)
    requires forall i :: 0 <= i < |rows| ==> rows[i].cluster != clusterId
    ensures Subset(rows, clusterId) == []
    decreases |rows|
  {
    if rows != [] {
      SubsetNone(rows[1..], clusterId);
    }
  }

  /**
   * The samples: at most `n_posts` chosen rows; every chosen row is a row of
   * the cluster with its signal score, the chosen rows are in non-increasing
   * score order and no row of the cluster left out scores higher than a
   * chosen one. The call fails exactly when a chosen row has no text;
   * otherwise there is one sample per chosen row, whose text is the first
   * `min(500, len)` characters of the row's text and whose numbers and
   * defences are the row's.
   */
  lemma SamplesCorrect(df: ClusterFrame, clusterId: int, nPosts: nat)
    requires df.hasValence && df.hasComplexity
    ensures var chosen := Chosen(df, clusterId, nPosts);
      var subset := Subset(df.rows, clusterId);
      && |chosen| == Min(nPosts, |subset|)
      && SortedDesc(chosen)
      && (forall i :: 0 <= i < |chosen| ==>
            chosen[i].1 in df.rows && chosen[i].1.cluster == clusterId && chosen[i].0 == SignalScore(chosen[i].1))
      && (forall i, j :: 0 <= i < |chosen| && 0 <= j < |Rest(Scored(subset), nPosts)| ==>
            Rest(Scored(subset), nPosts)[j].0 <= chosen[i].0)
      && (SelectRepresentativePosts(df, clusterId, nPosts).None? <==>
            exists i :: 0 <= i < |chosen| && chosen[i].1.text.None?)
  {
    var subset := Subset(df.rows, clusterId);
    var chosen := Chosen(df, clusterId, nPosts);
    TopNCorrect(Scored(subset), nPosts);
    TopNFrom(Scored(subset), nPosts);
    forall i | 0 <= i < |chosen|
      ensures chosen[i].1 in df.rows && chosen[i].1.cluster == clusterId && chosen[i].0 == SignalScore(chosen[i].1)
    {
      var k :| 0 <= k < |Scored(subset)| && Scored(subset)[k] == chosen[i];
      assert chosen[i].1 == subset[k];
    }
  }

  /** When every chosen row has a text, the samples are built one per chosen row, field by field. */
  lemma SamplesFields(df: ClusterFrame, clusterId: int, nPosts: nat)
    requires df.hasValence && df.hasComplexity
    requires AllTexts(Chosen(df, clusterId, nPosts))
    ensures var chosen := Chosen(df, clusterId, nPosts);
      && SelectRepresentativePosts(df, clusterId, nPosts) == Some(Samples(df, chosen))
      && (forall i :: 0 <= i < |chosen| ==>
            var row := chosen[i].1;
            var e := Samples(df, chosen)[i].entries;
            && KeysOf(e) == ["text", "valence", "complexity", "detected_defenses"]
            && |e[0].1.s| == Min(500, |row.text.value|) && e[0].1.s == row.text.value[..|e[0].1.s|]
            && e[1].1 == Number(row.valence)
            && e[2].1 == Number(row.complexity)
            && e[3].1 == (if df.hasDefenses && row.defenses.Some? then Str(row.defenses.value) else Null))
  {
    var chosen := Chosen(df, clusterId, nPosts);
    if Subset(df.rows, clusterId) == [] {
      TopNCorrect(Scored(Subset(df.rows, clusterId)), nPosts);
      assert Samples(df, chosen) == [];
    }
  }

  // ---------------------------------------------------------------- dominant defences

  /** `sum(lists, [])` */
  function Flatten(lists: seq<seq<string>>): seq<string>
    decreases |lists|
  {
    if lists == [] then [] else lists[0] + Flatten(lists[1..])
  }

  /** The distinct items in order of first occurrence, as a `Counter` keeps its keys. */
  function FirstSeen(xs: seq<string>): (r: seq<string>)
    ensures forall x :: x in r <==> x in xs
    ensures forall i, j :: 0 <= i < j < |r| ==> r[i] != r[j]
    decreases |xs|
  {
    if xs == [] then []
    else
      var prefix := FirstSeen(xs[..|xs| - 1]);
      var x := xs[|xs| - 1];
      assert xs == xs[..|xs| - 1] + [x];
      if x in prefix then prefix else prefix + [x]
  }

  /** `Counter(xs)`: each distinct item with the number of its occurrences. */
  function Counts(xs: seq<string>): (r: seq<(real, string)>)
    ensures |r| == |FirstSeen(xs)|
    ensures forall i :: 0 <= i < |r| ==> r[i] == (multiset(xs)[FirstSeen(xs)[i]] as real, FirstSeen(xs)[i])
  {
    var keys := FirstSeen(xs);
    seq(|keys|, i requires 0 <= i < |keys| => (multiset(xs)[keys[i]] as real, keys[i]))
  }

  /** `Counter(xs).most_common(n)` */
  function MostCommon(xs: seq<string>, n: nat): seq<(real, string)> {
    TopN(Counts(xs), n)
  }

  /**
   * `min(n, number of distinct items)` entries, in non-increasing count
   * order; each is an item of `xs` with its number of occurrences.
   */
  lemma MostCommonCounts(xs: seq<string>, n: nat)
    ensures |MostCommon(xs, n)| == Min(n, |FirstSeen(xs)|)
    ensures SortedDesc(MostCommon(xs, n))
    ensures forall i :: 0 <= i < |MostCommon(xs, n)| ==>
      MostCommon(xs, n)[i].1 in xs && MostCommon(xs, n)[i].0 == multiset(xs)[MostCommon(xs, n)[i].1] as real
  {
    var counts := Counts(xs);
    var top := MostCommon(xs, n);
    TopNCorrect(counts, n);
    TopNFrom(counts, n);
    forall i | 0 <= i < |top|
      ensures top[i].1 in xs && top[i].0 == multiset(xs)[top[i].1] as real
    {
      var k :| 0 <= k < |counts| && counts[k] == top[i];
    }
  }

  /** No item is listed twice. */
  lemma MostCommonDistinct(xs: seq<string>, n: nat)
    ensures forall i, j :: 0 <= i < j < |MostCommon(xs, n)| ==> MostCommon(xs, n)[i].1 != MostCommon(xs, n)[j].1
  {
    CountsDistinct(xs);
    forall i, j | 0 <= i < j < |MostCommon(xs, n)| ensures MostCommon(xs, n)[i].1 != MostCommon(xs, n)[j].1 {
      TopNDistinctKeys(Counts(xs), n, i, j);
    }
  }

  /** No item left out occurs more often than an item listed. */
  lemma MostCommonMaximal(xs: seq<string>, n: nat, x: string)
    requires x in xs
    requires forall i :: 0 <= i < |MostCommon(xs, n)| ==> MostCommon(xs, n)[i].1 != x
    ensures forall i :: 0 <= i < |MostCommon(xs, n)| ==> multiset(xs)[x] as real <= MostCommon(xs, n)[i].0
  {
    var counts := Counts(xs);
    var top := MostCommon(xs, n);
    TopNCorrect(counts, n);
    var k :| 0 <= k < |FirstSeen(xs)| && FirstSeen(xs)[k] == x;
    var entry := counts[k];
    assert entry in multiset(counts);
    forall i | 0 <= i < |top| ensures top[i] != entry {
    }
    assert entry !in top;
    var rest := Rest(counts, n);
    assert entry in multiset(rest);
    var j :| 0 <= j < |rest| && rest[j] == entry;
  }

  predicate DistinctKeys(xs: seq<(real, string)>) {
    forall i, j :: 0 <= i < j < |xs| ==> xs[i].1 != xs[j].1
  }

  lemma CountsDistinct(xs: seq<string>)
    ensures DistinctKeys(Counts(xs))
  {
  }

  /** Taking items of a sequence whose keys are distinct gives items with distinct keys. */
  lemma TopNDistinctKeys(counts: seq<(real, string)>, n: nat, i: nat, j: nat)
    requires DistinctKeys(counts)
    requires i < j < |TopN(counts, n)|
    ensures TopN(counts, n)[i].1 != TopN(counts, n)[j].1
  {
    var top := TopN(counts, n);
    TopNCorrect(counts, n);
    if top[i].1 == top[j].1 {
      TopNFrom(counts, n);
      var a :| 0 <= a < |counts| && counts[a] == top[i];
      var b :| 0 <= b < |counts| && counts[b] == top[j];
      assert a == b;
      assert top[i] == top[j];
      assert multiset(top)[top[i]] >= 2 by {
        assert top == top[..i] + [top[i]] + top[i + 1..j] + [top[j]] + top[j + 1..];
      }
      assert multiset(counts)[top[i]] >= 2;
      MultiplicityOne(counts, a);
    }
  }

  /** In a sequence with distinct keys every item occurs once. */
  lemma {:induction false} MultiplicityOne(counts: seq<(real, string)>, a: nat)
    requires DistinctKeys(counts) && a < |counts|
    ensures multiset(counts)[counts[a]] == 1
    decreases |counts|
  {
    assert counts == [counts[0]] + counts[1..];
    if a == 0 {
      assert counts[0] !in counts[1..];
    } else {
      MultiplicityOne(counts[1..], a - 1);
      assert counts[a] != counts[0];
    }
  }

  /**
   * `extract_dominant_traits`, with the means it computes as parameters and
   * `eval` of each defence cell as `parse`: one key per column the table has,
   * in the order valence, complexity, defences.
   */
  function DominantTraits(df: ClusterFrame, clusterId: int, avgValence: Value, avgComplexity: Value,
                          parse: string -> seq<string>): seq<(string, Value)> {
    var defenses := Flatten(ParsedDefenses(Subset(df.rows, clusterId), parse));
    (if df.hasValence then [("avg_valence", avgValence)] else [])
    + (if df.hasComplexity then [("avg_complexity", avgComplexity)] else [])
    + (if df.hasDefenses then [("common_defenses", CountList(MostCommon(defenses, 5)))] else [])
  }

  /** The defence lists of the rows whose cell is present (`dropna().apply(eval)`). */
  function ParsedDefenses(rows: seq<PostRow>, parse: string -> seq<string>): seq<seq<string>>
    decreases |rows|
  {
    if rows == [] then []
    else (match rows[0].defenses case None => [] case Some(d) => [parse(d)]) + ParsedDefenses(rows[1..], parse)
  }

  /** `most_common`'s (item, count) pairs as values. */
  function CountList(pairs: seq<(real, string)>): Value {
    List(seq(|pairs|, i requires 0 <= i < |pairs| => List([Str(pairs[i].1), Real(pairs[i].0)])))
  }

  function Real(x: real): Value {
    if x == x.Floor as real then Int(x.Floor) else Float(x)
  }

  /** A trait key is present exactly when its source column exists, and `common_defenses` has at most five entries. */
  lemma DominantTraitsKeys(df: ClusterFrame, clusterId: int, avgValence: Value, avgComplexity: Value, parse: string -> seq<string>)
    ensures var keys := KeysOf(DominantTraits(df, clusterId, avgValence, avgComplexity, parse));
      && ("avg_valence" in keys <==> df.hasValence)
      && ("avg_complexity" in keys <==> df.hasComplexity)
      && ("common_defenses" in keys <==> df.hasDefenses)
      && |keys| <= 3
    ensures df.hasDefenses ==>
      var d := Get(DominantTraits(df, clusterId, avgValence, avgComplexity, parse), "common_defenses");
      d.Some? && d.value.List? && |d.value.items| <= 5
  {
    var defenses := Flatten(ParsedDefenses(Subset(df.rows, clusterId), parse));
    MostCommonCounts(defenses, 5);
    OptionalEntries(df.hasValence, avgValence, df.hasComplexity, avgComplexity,
                    df.hasDefenses, CountList(MostCommon(defenses, 5)));
  }

  /** Three entries, each present or not, under three different keys. */
  lemma OptionalEntries(hasValence: bool, v1: Value, hasComplexity: bool, v2: Value, hasDefenses: bool, v3: Value)
    ensures var e := (if hasValence then [("avg_valence", v1)] else [])
        + (if hasComplexity then [("avg_complexity", v2)] else [])
        + (if hasDefenses then [("common_defenses", v3)] else []);
      && ("avg_valence" in KeysOf(e) <==> hasValence)
      && ("avg_complexity" in KeysOf(e) <==> hasComplexity)
      && ("common_defenses" in KeysOf(e) <==> hasDefenses)
      && |KeysOf(e)| <= 3
      && (hasDefenses ==> Get(e, "common_defenses") == Some(v3))
  {
    var e := (if hasValence then [("avg_valence", v1)] else [])
        + (if hasComplexity then [("avg_complexity", v2)] else [])
        + (if hasDefenses then [("common_defenses", v3)] else []);
    if hasDefenses {
      GetLast(e, "common_defenses", v3);
    }
  }

  /** A key that only the last entry has is found with the last entry's value. */
  lemma {:induction false} GetLast(entries: seq<(string, Value)>, key: string, v: Value)
    requires entries != [] && entries[|entries| - 1] == (key, v)
    requires forall i :: 0 <= i < |entries| - 1 ==> entries[i].0 != key
    ensures Get(entries, key) == Some(v)
    decreases |entries|
  {
    if |entries| > 1 {
      GetLast(entries[1..], key, v);
    }
  }

  // ---------------------------------------------------------------- the saved record

  /** `save_cluster_label_yaml`: the file name and the record written. */
  function LabelRecord(clusterId: int, name: string, dominantTraits: seq<(string, Value)>, samples: seq<Value>): (string, Value) {
    ("cluster_" + IntToString(clusterId) + "_label.yaml",
     Dict([
       ("cluster_id", Int(clusterId)),
       ("label", Str(name)),
       ("dominant_traits", Dict(dominantTraits)),
       ("sample_posts", List(samples))
     ]))
  }

  /**
   * The record has exactly the keys `cluster_id`, `label`, `dominant_traits`,
   * `sample_posts`, in that order, and distinct clusters are saved to
   * distinct files.
   */
  lemma LabelRecordShape(clusterId: int, name: string, traits: seq<(string, Value)>, samples: seq<Value>, other: int)
    ensures KeysOf(LabelRecord(clusterId, name, traits, samples).1.entries) == ["cluster_id", "label", "dominant_traits", "sample_posts"]
    ensures Get(LabelRecord(clusterId, name, traits, samples).1.entries, "cluster_id") == Some(Int(clusterId))
    ensures other != clusterId ==> LabelRecord(clusterId, name, traits, samples).0 != LabelRecord(other, name, traits, samples).0
  {
    var a := LabelRecord(clusterId, name, traits, samples).0;
    var b := LabelRecord(other, name, traits, samples).0;
    if other != clusterId && a == b {
      var p := "cluster_";
      var q := "_label.yaml";
      assert a[|p|..|a| - |q|] == IntToString(clusterId);
      assert b[|p|..|b| - |q|] == IntToString(other);
      IntToStringInjective(clusterId, other);
    }
  }
}
