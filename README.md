# Standalone Complex Profiler — a Dafny model of its bookkeeping

The Standalone Complex Profiler is a batch pipeline over Reddit posts. It runs these stages:

1. It cleans a JSON-lines dump into a CSV of posts.
2. It measures linguistic signals per post: word counters, negations, questions, temporal references and a routed sentiment score.
3. It measures projection markers: the pronoun ratio, rigidity terms and tense shifts.
4. It embeds and clusters the posts.
5. It merges features, ids, clusters and embeddings into one table.
6. An integrity gate checks the aligned artifacts.
7. It asks a language model for a draft label per cluster and parses the reply into a label, traits and a narrative.
8. A human reviews the drafts on the console: accept, edit, skip or quit. Three stores are kept: drafts, finals and backups.
9. It renders each accepted record as a Markdown profile.

This project models the deterministic logic around the external libraries, module by module:

| module (file) | models |
|---|---|
| `Common`, `Values`, `Frames`, `Text`, `Ranking` | Shared pieces. `Option`/`Result`; the Python value tree parsed from YAML, JSON and CSV (dicts as ordered entry lists, truthiness, `dict.get`, `str()` in f-strings); tables as column names plus rows; Python `str` operations (`strip`, `split`, `splitlines`, `lower`, `count`, `find`, `\b` word alternations, `str(int)`); the stable descending ranking behind `nlargest` and `most_common`. |
| `PrepareText` (prepare_text.dfy) | `clean_text` and the record-building loop of `prepare_text_dataset.py`. |
| `PsychSignals` (psych_signals.dfy) | The four counters, the RoBERTa label routing, the text pick and the eleven-column builder loop. |
| `ProjectionSignals` (projection_signals.dfy) | The pronoun ratio, rigidity score, tense shifts and the four-key feature dictionary. |
| `Clustering` (clustering.dfy) | The `n_neighbors` clamp, the column attachment on a mutable id table (class `IdsFrame`) and the non-noise cluster count. |
| `MergeAll` (merge_all.dfy) | The latest-file choice, the inner joins on `id`, the embedding count check and the `emb_i` attachment. |
| `ValidatePipeline` (validate_pipeline.dfy) | The fail-fast gate, as a function and as the script's loop. |
| `Pipeline` (pipeline.dfy) | The three stages above composed. |
| `AutoLabel` (auto_label.dfy) | `clean_for_yaml`; the two-pass `parse_llm_output` as loops over lines; `extract_top_posts`; the draft record and file name; the cluster-id filter and loop of `main`. |
| `ClusterLabels` (cluster_labels.dfy) | `select_representative_posts`, `common_defenses`, the label record. |
| `ReviewLabels` (review_labels.dfy) | `review_label` and `main`. The class `ReviewSession` holds the three stores as maps from file name to record, the summary list and the console as a sequence of answers. Its methods are proved equal to pure specification functions, and the laws are lemmas about those functions. |
| `AssembleProfiles` (assemble_profiles.dfy) | `load_yaml`'s fallback, `assemble_markdown` with the timestamp as a parameter, and the skip-and-continue loop of `process_clusters`. |

Throughout the model:

- Library calls become parameters: the model's sentence scores, TextBlob, the tokenizer, `json.loads`, the clustering labels and probabilities, and the language-model reply.
- An uncaught exception becomes `None`, an `Err`, or a "crashed" flag that stops the run.

## Model

| member | source | states |
|---|---|---|
| PrepareText.RemoveUrlsLeavesNone | feature_engineering/prepare_text_dataset.py:9 | after the substitution no `http\S+` match is left anywhere in the string |
| PrepareText.RemoveUrlsIdentity | feature_engineering/prepare_text_dataset.py:9 | a string without a match is returned unchanged |
| PrepareText.RemoveUrlsKeepsPrefix | feature_engineering/prepare_text_dataset.py:9 | a removal leaves whitespace or nothing behind it, so when the result starts with k non-whitespace characters, they are the first k characters of the input |
| PrepareText.DropNonSpaceSplits | feature_engineering/prepare_text_dataset.py:9 | the greedy `\S+` stops at the first whitespace character and leaves that character and everything after it in place |
| PrepareText.RemoveUrlsSplitsAtSpace | feature_engineering/prepare_text_dataset.py:9 | no match crosses a whitespace character: the substitution on `x + [c] + y`, with `c` whitespace, is the substitution on `x`, then `c`, then the substitution on `y` |
| PrepareText.FirstUrl | feature_engineering/prepare_text_dataset.py:9 | the first position where `http\S+` matches, or the length when none does: no earlier position matches |
| PrepareText.RemoveUrlsToken | feature_engineering/prepare_text_dataset.py:9 | in a text without whitespace, everything before the first match is kept unchanged and the match runs to the end of the text; with `RemoveUrlsSplitsAtSpace` this fixes the result on every text |
| PrepareText.CleanTextForm | feature_engineering/prepare_text_dataset.py:7-12 | the cleaned text has no `\n` and no `\r`, every whitespace character is a single space between non-whitespace characters, and nothing is left to strip |
| PrepareText.CleanTextKeeps | feature_engineering/prepare_text_dataset.py:7-12 | the cleaned text holds exactly the non-whitespace characters the URL removal left, in order |
| PrepareText.SplitCollapse | feature_engineering/prepare_text_dataset.py:11 | collapsing each whitespace run to one space leaves the words of `split()` unchanged |
| PrepareText.CleanTextWords | feature_engineering/prepare_text_dataset.py:7-12 | the cleaned text has the same words, in order, as the text after the URL removal, the line-feed replacement and the carriage-return deletion; its single spaces fall exactly between those words |
| PrepareText.CarriageReturnJoinsUrl | feature_engineering/prepare_text_dataset.py:9-10 | because URLs are removed before `\r` is dropped, `http` + `\r` + text yields a cleaned text that still contains an `http\S+` match |
| PrepareText.RecordShape | feature_engineering/prepare_text_dataset.py:29-37 | a kept post's record has exactly the keys id, subreddit, text, score, num_comments in that order; `text` is the cleaned `title selftext`; the others are copied from the post |
| PrepareText.RecordKept | feature_engineering/prepare_text_dataset.py:27-39 | a line yields a record exactly when it parses to a dictionary holding all six keys the loop reads |
| PrepareText.RecordsCount | feature_engineering/prepare_text_dataset.py:24-39 | there are at most as many records as lines, and exactly as many when no line fails |
| PrepareText.RecordsFromLines | feature_engineering/prepare_text_dataset.py:24-39 | every record is the record of some line |
| PrepareText.BuildRecords | feature_engineering/prepare_text_dataset.py:24-39 | the loop's list equals the specification `Records` of the lines |
| PsychSignals.CountIStandalone | feature_engineering/psych_signals.py:15-16 | `count_i` equals the number of positions holding an `I` or `i` with no word character on either side |
| PsychSignals.CountQuestionsChars | feature_engineering/psych_signals.py:21-22 | `count_questions` equals the number of `?` characters |
| PsychSignals.CountersWholeWords | feature_engineering/psych_signals.py:18-25 | the `I`, negation and temporal counts are each positive exactly when one of their words occurs as a whole word, and none exceeds the text length |
| PsychSignals.CountTemporalWhole | feature_engineering/psych_signals.py:24-25 | `count_temporal` is exactly the number of positions where one of the eight temporal words occurs as a whole word |
| PsychSignals.CountNegationsWhole | feature_engineering/psych_signals.py:18-19 | `count_negations` is exactly the number of positions where `not`, `no`, `never` or `n't` occurs as a whole word |
| PsychSignals.NegationMissesContraction | feature_engineering/psych_signals.py:18-19 | as written, a contraction inside a word is never matched: `don't` counts 0 negations (see Findings) |
| PsychSignals.CorrectedCountsContraction | feature_engineering/psych_signals.py:18-19 | with the corrected pattern the count is positive exactly when a whole negation word or a word-final `n't` occurs |
| PsychSignals.RobertaInput | feature_engineering/psych_signals.py:32 | the model sees a prefix of the text of at most 512 characters, the whole text when it is no longer |
| PsychSignals.RobertaRouting | feature_engineering/psych_signals.py:31-38 | the scores have exactly the keys neg, neu, pos; `LABEL_k` puts the score in column k and 0 in the others; any other label gives 0 everywhere |
| PsychSignals.PickTextCases | feature_engineering/psych_signals.py:64 | a non-empty string `selftext` wins, then a non-empty string `title`, else `""`; a truthy non-string cell (NaN, a number) raises |
| PsychSignals.FeaturesShape | feature_engineering/psych_signals.py:49-81 | the table exists exactly when every row's text can be split; it has one row per input row with the ids in input order, and each row holds the ten feature values of its text (word count = number of `split()` pieces) |
| PsychSignals.TabulateRows | feature_engineering/psych_signals.py:63-79 | the row loop appending to the parallel column lists builds the specification table, or stops with none at the first row whose text raises |
| PsychSignals.BuildFeatures | feature_engineering/psych_signals.py:49-81 | the method's table is `Features` of the input with the supplied sentiment models |
| PsychSignals.AsWrittenIgnoresTextColumn | feature_engineering/psych_signals.py:64 | on a table with neither `selftext` nor `title` (the cleaned CSV), every row is read as `""`, so all five counters are 0 (see Findings) |
| PsychSignals.CorrectedReadsTextColumn | feature_engineering/psych_signals.py:64 | the corrected pick measures a row's non-empty `text` cell, and falls back to the original pick when that cell is falsy |
| ProjectionSignals.TokenCountZero | feature_engineering/projection_signals.py:16-17 | a pronoun count is 0 exactly when no token is one of the pronouns |
| ProjectionSignals.TokenCountAppend | feature_engineering/projection_signals.py:16-17 | the count is additive over concatenation |
| ProjectionSignals.RatioBounds | feature_engineering/projection_signals.py:14-18 | the denominator is at least 1; the ratio lies between 0 and the number of you/they/them tokens, and is 0 exactly when there is none |
| ProjectionSignals.RatioDirections | feature_engineering/projection_signals.py:14-18 | one more `you` token strictly raises the ratio, one more `i` token never raises it |
| ProjectionSignals.CountTermsZero | feature_engineering/projection_signals.py:22-24 | the sum of `str.count` over the terms is 0 exactly when no term occurs |
| ProjectionSignals.CountTermsBound | feature_engineering/projection_signals.py:22-24 | with terms of length at least n, the sum is at most `len(terms) * len(s) / n` |
| ProjectionSignals.NarrativeRigidityCorrect | feature_engineering/projection_signals.py:22-24 | the rigidity score is 0 exactly when none of the five terms occurs in the lower-cased text, and is at most the text length |
| ProjectionSignals.TenseShiftsCorrect | feature_engineering/projection_signals.py:37-41 | the score is 0 exactly when the past and present counts agree; otherwise it is at least the gap in either direction, and never more than the text length |
| ProjectionSignals.PastCountWhole | feature_engineering/projection_signals.py:38 | the past count is exactly the number of positions of the lower-cased text where one of the six past-tense words occurs as a whole word |
| ProjectionSignals.PresentCountWhole | feature_engineering/projection_signals.py:39 | the present count is exactly the number of positions of the lower-cased text where one of the six present-tense words occurs as a whole word |
| ProjectionSignals.PastCountPositive | feature_engineering/projection_signals.py:38 | the past count is positive exactly when one of the six past-tense words occurs whole in the lower-cased text |
| ProjectionSignals.PresentCountPositive | feature_engineering/projection_signals.py:39 | the present count is positive exactly when one of the six present-tense words occurs whole in the lower-cased text |
| ProjectionSignals.ProjectionDict | feature_engineering/projection_signals.py:45-50 | the dictionary has exactly the four distinct keys, in order, each mapped to its value |
| ProjectionSignals.ExtractProjectionFeatures | feature_engineering/projection_signals.py:44-50 | the dictionary has exactly the four named keys, holding the ratio, the rigidity score, the supplied variance and the tense score |
| Clustering.NNeighborsCases | feature_engineering/clustering.py:28 | `n_neighbors` is 15 for at least 16 points and `n-1` otherwise, so it is at most 15 and at most `n-1` |
| Clustering.ClusterCountNonNoise | feature_engineering/clustering.py:44 | the reported count is the number of distinct labels other than −1 |
| Clustering.ClusterCountBounds | feature_engineering/clustering.py:44 | no more clusters than points; none when every point is noise |
| Clustering.WithColumnFacts | feature_engineering/clustering.py:40-41 | assigning a column keeps the ids, the row count and every other column; afterwards the column holds exactly the assigned values |
| Clustering.IdsFrame.AssignColumn | feature_engineering/clustering.py:40-41 | on the mutable table: a value list of the table's length replaces or appends the column; a wrong length is an error and leaves the table unchanged |
| Clustering.RunStage | feature_engineering/clustering.py:8-48 | the stage run in place on the id table gives the specification `Stage` |
| Clustering.MissingWritesNothing | feature_engineering/clustering.py:16-18 | a missing embeddings or id file means no output |
| Clustering.StageOutput | feature_engineering/clustering.py:40-48 | the written table has the id table's rows and ids in order, with `cluster` and `cluster_prob` holding the labels and probabilities row by row; the count reported is the non-noise count |
| Clustering.StageColumns | feature_engineering/clustering.py:40-41 | the written table has at least the id table's columns and at least two (`cluster`, `cluster_prob`) |
| MergeAll.LatestSignals | feature_engineering/merge_all.py:10-13 | `None` exactly when no name matches `*_signals.csv`; otherwise a matching name no smaller than any other matching name |
| MergeAll.JoinRowsShape | feature_engineering/merge_all.py:27 | with rows of n and m cells on the two sides, every joined row has n + m cells |
| MergeAll.JoinIdsUnique | feature_engineering/merge_all.py:27 | with unique right ids, the join keeps the left ids that occur on the right, in left order |
| MergeAll.KeepInCount | feature_engineering/merge_all.py:27 | of duplicate-free ids, the join keeps as many as the two sides have in common |
| MergeAll.MergedShape | feature_engineering/merge_all.py:27 | the merged table has the columns of all three tables; with unique ids in the id and cluster tables its rows are the feature rows whose id occurs in both, in order |
| MergeAll.MergedCommon | feature_engineering/merge_all.py:27 | with unique ids everywhere, the row count is the number of ids the three share; when every feature id occurs in the other two, the merged ids are the feature ids in order |
| MergeAll.EmbeddingNamesDistinct | feature_engineering/merge_all.py:34 | the names are `emb_0 … emb_{d-1}`: d distinct names, each naming its dimension |
| MergeAll.AttachByPosition | feature_engineering/merge_all.py:34-35 | the attached table keeps the merged rows and ids in order, adds d columns, and puts dimension j of embedding row k after the merged cells of row k |
| MergeAll.MergeNoSignals | feature_engineering/merge_all.py:10-12 | the stage fails with the not-found error exactly when no file name matches |
| MergeAll.MergeOutcome | feature_engineering/merge_all.py:26-38 | with a feature table, the stage fails with the count-mismatch error exactly when the embedding rows differ from the merged rows; otherwise the written table has the merged row count and ids in order, and the merged columns plus one per dimension |
| ValidatePipeline.ValidatePipelineRun | utils/validate_pipeline.py:16-61 | the script's loop over the five files and its check sequence give the same verdict as the specification `Validate` |
| ValidatePipeline.NominalIff | utils/validate_pipeline.py:27-63 | nominal exactly when every file is present and non-empty, the row counts agree, the ids agree in order, the column count is `psych + 1 + d`, and no cell is missing |
| ValidatePipeline.MissingFileFirst | utils/validate_pipeline.py:10-28 | a missing or empty artifact ends the run naming the first such file, whatever the tables hold |
| ValidatePipeline.RowCountFirst | utils/validate_pipeline.py:38-39 | a row-count mismatch is reported before the id, column and missing-value checks |
| ValidatePipeline.ReorderedIdsFail | utils/validate_pipeline.py:43-44 | the same ids in a different order fail the id check |
| ValidatePipeline.DistributionIrrelevant | utils/validate_pipeline.py:59-61 | the cluster distribution never changes the verdict |
| ValidatePipeline.DistributionCountsRows | utils/validate_pipeline.py:59-63 | a nominal run reports one count per row of the cluster table |
| Pipeline.MergeMeetsCorrectedCount | feature_engineering/merge_all.py:27-35 | every table the merge writes has the feature, id-table, cluster-table and embedding columns |
| Pipeline.AsWrittenRejectsPipeline | utils/validate_pipeline.py:48-50 | as written, the gate fails with a column-count error on every merge of a table the clustering stage writes, taking the gate's `psych_features.csv` to be the latest `*_signals.csv` the merge joins and its `embedding_ids.csv` to be the id table the merge joins (see Findings) |
| Pipeline.ValidateCorrected | utils/validate_pipeline.py:48-50 | the gate with the column count the merge really produces |
| Pipeline.CorrectedAcceptsPipeline | utils/validate_pipeline.py:27-63 | with the corrected count, aligned artifacts without missing cells pass, reporting the clustering stage's label distribution |
| AutoLabel.CleanPreservesShape | interpretation/auto_label.py:26-35 | the cleaned tree has the same dict keys in order, the same list lengths and the same non-numeric leaves, with a float of the same number where a float or Decimal stood |
| AutoLabel.CleanRemovesDecimals | interpretation/auto_label.py:32-33 | no Decimal is left |
| AutoLabel.CleanIdentity | interpretation/auto_label.py:26-35 | a tree without Decimal leaves comes back unchanged |
| AutoLabel.CleanIdempotent | interpretation/auto_label.py:26-35 | cleaning twice is cleaning once |
| AutoLabel.AfterColonFirst | interpretation/auto_label.py:131-142 | `split(':', 1)[-1]` is the whole line without a colon, else exactly the text after the first colon |
| AutoLabel.FirstPassRun | interpretation/auto_label.py:126-135 | the first loop's label equals the specification `FirstPass` |
| AutoLabel.StepRun | interpretation/auto_label.py:138-164 | one iteration of the second loop equals the specification `Step` on the same state |
| AutoLabel.ScanRun | interpretation/auto_label.py:137-164 | the second loop's variables equal the specification `Scan` of the classified lines, started from the first pass's label |
| AutoLabel.ParseLlmOutput | interpretation/auto_label.py:112-169 | the parser's output equals the specification `Parse` of the reply |
| AutoLabel.ParseShape | interpretation/auto_label.py:116-167 | `raw_response` is the input; every trait is non-empty and stripped; the structure is stripped |
| AutoLabel.FirstPassLast | interpretation/auto_label.py:126-135 | the first pass finds nothing exactly when no line offers a non-empty label after `label:`, and otherwise takes the last such line's |
| AutoLabel.LastLabelLineWins | interpretation/auto_label.py:141-144 | the last line starting with `label:` sets the label, even to an empty one |
| AutoLabel.NoLabelLineKeepsFirst | interpretation/auto_label.py:137-164 | with no line starting with `label:`, the second pass keeps the first pass's label |
| AutoLabel.ParseLabelFromHeader | interpretation/auto_label.py:141-142 | with a `label:` header, the final label is what the last header offers |
| AutoLabel.ParseLabelWithoutHeader | interpretation/auto_label.py:130-133 | without a header, the label is the last non-empty remainder on a line containing `label:` |
| AutoLabel.ParseLabelNone | interpretation/auto_label.py:118-130 | when no line contains `label:` case-insensitively, the label is None |
| AutoLabel.LabelHeaderMentionsLabel | interpretation/auto_label.py:130-141 | a line starting with `label:` also contains `label:` |
| AutoLabel.ModeFollowsLastHeader | interpretation/auto_label.py:141-154 | traits are being collected exactly when the last header read was `dominant traits:`, and narrative exactly when it was `inferred psychological structure:` |
| AutoLabel.TraitsGrow | interpretation/auto_label.py:157-160 | traits read earlier stay at the front of the list |
| AutoLabel.TraitsFromTraitLines | interpretation/auto_label.py:157-160 | every trait is the dash-stripped, stripped, non-empty text of a `-` line read in a traits section |
| AutoLabel.TraitLinesGiveTraits | interpretation/auto_label.py:157-160 | every such `-` line's trait is collected |
| AutoLabel.ParseTraits | interpretation/auto_label.py:147-160 | the parsed traits come exactly from the `-` lines of the traits sections |
| AutoLabel.NoStructureHeaderNoNarrative | interpretation/auto_label.py:152-164 | without a structure header, no line is collected as narrative |
| AutoLabel.ParseNoStructure | interpretation/auto_label.py:163-167 | without a structure header, the parsed structure is empty |
| AutoLabel.ScanNarrative | interpretation/auto_label.py:140-164 | the second pass collects exactly the lines that are no header and whose last preceding header is `inferred psychological structure:`, in order, each after one space |
| AutoLabel.ParseStructure | interpretation/auto_label.py:152-167 | the parsed structure is those narrative lines, each after one space, stripped |
| AutoLabel.ExtractTopPostsCorrect | interpretation/auto_label.py:43-54 | at most n posts, one per chosen row of the cluster; the rows are in non-increasing abs(polarity) order, and no row left out scores higher; each text is the first min(500, len) characters of `selftext`; the valence is the row's polarity, the complexity its subjectivity when that column exists and None otherwise; `detected_defenses` is None |
| AutoLabel.ClusterIds | interpretation/auto_label.py:191-193 | the ids are strictly ascending, and are exactly the non-negative cluster values present in the table |
| AutoLabel.DraftNameInjective | interpretation/auto_label.py:180 | distinct cluster ids give distinct draft file names, whether the ids print as integers or, when the `cluster` column has a missing cell, as floats with a trailing `.0` |
| AutoLabel.DraftRecordShape | interpretation/auto_label.py:173-184 | the draft record holds exactly cluster_id, label, traits, structure, in that order, with the integer cluster id, the parsed label (None when absent), the parsed traits as a list of strings and the parsed structure |
| AutoLabel.LabelClusters | interpretation/auto_label.py:195-211 | the loop over cluster ids gives the specification `LabelAll` |
| AutoLabel.LabelFromDrafts | interpretation/auto_label.py:195-211 | earlier drafts are kept, new ones appear only under the draft names of the ids processed, and each holds its own cluster id; a run that does not stop writes one draft per id; a run that stops, stops at one of the ids |
| AutoLabel.LabelFromWrites | interpretation/auto_label.py:195-211 | the loop over the ids is `WriteLeading` over the drafts of the ids, each under its own file name |
| AutoLabel.WriteLeadingStopsFirst | interpretation/auto_label.py:195-211 | the loop stops exactly at the first id without a draft; every id before it has its draft under its own file name; every other earlier key keeps its draft; there is no other key |
| AutoLabel.DraftIsRecord | interpretation/auto_label.py:196-211 | a cluster that gets a draft got a reply, and its draft is `DraftRecord` of its id and the parsed reply |
| AutoLabel.LabelAllStopsFirst | interpretation/auto_label.py:189-211 | `main` visits the cluster ids in ascending order, stops exactly at the first one without a draft, writes each earlier one's draft under its own file name, and writes nothing else |
| AutoLabel.LabelAllDrafts | interpretation/auto_label.py:189-211 | `main` drafts only non-negative cluster ids of the table, each under its own name, and all of them unless a cluster aborts the run |
| ClusterLabels.SelectRepresentativePostsRun | interpretation/cluster_labels.py:45-62 | the sample-building loop gives the specification `SelectRepresentativePosts` |
| ClusterLabels.EmptyClusterNoSamples | interpretation/cluster_labels.py:48-49 | a cluster without rows gives `[]`, whatever the columns |
| ClusterLabels.SamplesCorrect | interpretation/cluster_labels.py:51-61 | min(n_posts, cluster size) chosen rows of the cluster with their scores, in non-increasing abs(valence)+abs(complexity) order, and no row left out scores higher; the call fails exactly when a chosen row has a missing text |
| ClusterLabels.SamplesFields | interpretation/cluster_labels.py:45-62 | when every chosen row has a text, one sample per chosen row: the four keys in order, the first min(500, len) characters of the text, the row's valence and complexity, and its defences when the column exists and the cell is present (None otherwise) |
| ClusterLabels.MostCommonCounts | interpretation/cluster_labels.py:41 | min(n, number of distinct items) entries in non-increasing count order, each an item with its true number of occurrences |
| ClusterLabels.MostCommonDistinct | interpretation/cluster_labels.py:41 | no item is listed twice |
| ClusterLabels.MostCommonMaximal | interpretation/cluster_labels.py:41 | no item left out occurs more often than an item listed |
| ClusterLabels.DominantTraitsKeys | interpretation/cluster_labels.py:35-41 | each trait key is present exactly when its source column exists; `common_defenses` has at most 5 entries |
| ClusterLabels.LabelRecordShape | interpretation/cluster_labels.py:64-73 | the record has exactly cluster_id, label, dominant_traits, sample_posts, in order; distinct clusters get distinct file names |
| ReviewLabels.InvalidDraft | interpretation/review_labels.py:21-35 | an empty or null draft changes no store and records `Skipped - Invalid` |
| ReviewLabels.AcceptNew | interpretation/review_labels.py:51-63 | accepting with no final of that name: the backup and the final get the draft; the draft is removed; `Accepted` is recorded |
| ReviewLabels.AcceptExistingDeclined | interpretation/review_labels.py:53-59 | accepting over an existing final without a `y` answer changes no store and records `Skipped - Exists` |
| ReviewLabels.AcceptExistingConfirmed | interpretation/review_labels.py:53-63 | with `y`: the final is overwritten with the draft, the backup gets the draft, the draft is removed and `Accepted` is recorded |
| ReviewLabels.BlankAnswer | interpretation/review_labels.py:44-99 | in batch mode a blank answer acts like `a`; without batch mode it is an invalid answer |
| ReviewLabels.EditEntriesFields | interpretation/review_labels.py:66-83 | each of label, traits and structure takes its new value when the stripped answer is non-blank, else keeps the old one; new traits are the stripped non-blank comma pieces; other keys are unchanged |
| ReviewLabels.EditStaysDraft | interpretation/review_labels.py:65-87 | editing rewrites the draft in place, never reaches the finals or backups, and records `Edited` |
| ReviewLabels.SkipAndInvalidInput | interpretation/review_labels.py:89-99 | skip and unrecognised answers change no store and record `Skipped` or `Skipped - Invalid Input` |
| ReviewLabels.QuitRecordsNothing | interpretation/review_labels.py:93-95 | quit records nothing, changes no store and stops the run |
| ReviewLabels.ReviewLawful | interpretation/review_labels.py:30-99 | every review records exactly one summary entry for its file unless it ends the run; only that file's records change; no backup is removed; a draft that leaves has a backup |
| ReviewLabels.LawfulKeepsDrafts | interpretation/review_labels.py:60-61 | under a lawful review every draft stays a draft or has a backup |
| ReviewLabels.ReviewAllSummary | interpretation/review_labels.py:112-113 | the loop completes some number of reviews, all of them exactly when not stopped; the summary gains that many entries, naming the files in order |
| ReviewLabels.ReviewAllUntouched | interpretation/review_labels.py:112-113 | files whose review did not complete keep every record; backups are never removed; a vanished draft has a backup |
| ReviewLabels.QuitAfter | interpretation/review_labels.py:93-122 | quitting after k completed reviews: the summary holds those k entries, no summary file is written, and every draft from the quitting one on is untouched |
| ReviewLabels.DraftFiles | interpretation/review_labels.py:102 | a name is reviewed exactly when it is in the listing, ends in `.yaml` and its lower-cased form contains `draft`; never more names than the listing |
| ReviewLabels.RunReview | interpretation/review_labels.py:101-122 | with no drafts the stores are unchanged and no file is written; a summary file is written only with one new entry per draft, and holds one `status: file` line per entry; no draft disappears without a backup |
| ReviewLabels.ReviewSession.Input | interpretation/review_labels.py:45-55 | reads the next answer, or None at the end of input, and advances the console |
| ReviewLabels.ReviewSession.AcceptDraft | interpretation/review_labels.py:51-63 | the stores and summary after the accept branch are the specification `Accept` of the old state |
| ReviewLabels.ReviewSession.EditDraft | interpretation/review_labels.py:65-87 | the stores and summary after the edit branch are the specification `Edit` of the old state |
| ReviewLabels.ReviewSession.ReviewLabel | interpretation/review_labels.py:30-99 | the new state and outcome are the specification `Review` of the old state |
| ReviewLabels.ReviewSession.Run | interpretation/review_labels.py:101-122 | the session's run gives the specification `RunReview` of the initial stores and answers |
| AssembleProfiles.LoadYaml | interpretation/assemble_profiles.py:16-26 | an empty or failed load gives `{}`; the result is never None, and a non-empty result is the parsed document |
| AssembleProfiles.TraitsTextCases | interpretation/assemble_profiles.py:38-42 | falsy traits render as `None listed`; a non-empty list renders exactly when every item is a string; a truthy number or boolean raises |
| AssembleProfiles.TraitsOfNames | interpretation/assemble_profiles.py:42 | a list of trait names renders as their `', '`-join, or `None listed` when empty |
| AssembleProfiles.StringTraitsSplitChars | interpretation/assemble_profiles.py:42 | a non-empty string value is joined character by character: its characters in order, separated by `, ` |
| AssembleProfiles.RenderLabelFirstLine | interpretation/assemble_profiles.py:44 | a label without a newline is exactly what follows `# Cluster Profile: ` on the first line |
| AssembleProfiles.RenderStructureVerbatim | interpretation/assemble_profiles.py:56-67 | the structure text appears verbatim right after its heading, followed by the fixed footer |
| AssembleProfiles.ProfileFieldsDefaults | interpretation/assemble_profiles.py:36-39 | missing keys give `Unknown ID`, `No Label`, `None listed` traits and `No structure description provided.`; a key present with None renders `None`; string label and structure are rendered verbatim; present traits render as `TraitsText` of their value |
| AssembleProfiles.AssembleMarkdownDefaults | interpretation/assemble_profiles.py:35-68 | an empty record renders with every default and `None listed` traits |
| AssembleProfiles.AssembleMarkdownVerbatim | interpretation/assemble_profiles.py:44-57 | in the document, a string label without a newline is the first line after the header, and a string structure sits verbatim between its heading and the footer |
| AssembleProfiles.ProfileNameInjective | interpretation/assemble_profiles.py:88 | distinct integer cluster ids give distinct profile names |
| AssembleProfiles.ProfileStepSkips | interpretation/assemble_profiles.py:78-85 | a file that failed to load, is empty, or has a missing or falsy cluster id (0 included) is skipped and never raises |
| AssembleProfiles.ProfileStepWrites | interpretation/assemble_profiles.py:82-89 | a written profile is named `cluster_{id}.md` and holds the rendered document |
| AssembleProfiles.RunSteps | interpretation/assemble_profiles.py:77-90 | the loop's profiles and crash flag equal the specification `ProcessUpTo` over all the files |
| AssembleProfiles.ProcessClusters | interpretation/assemble_profiles.py:70-90 | the procedure (early return on an empty directory, then the loop) equals the specification `ProcessClustersSpec` |
| AssembleProfiles.CrashSticks | interpretation/assemble_profiles.py:77-90 | once a file has raised, later files change nothing |
| AssembleProfiles.ProcessUpToCrash | interpretation/assemble_profiles.py:77-90 | the run raises exactly when one of the files does |
| AssembleProfiles.ProcessUpToNames | interpretation/assemble_profiles.py:77-90 | when no file raises, the profile names are exactly the names the files write to |
| AssembleProfiles.ProcessUpToLastWrite | interpretation/assemble_profiles.py:88-89 | when no file raises, each profile holds the document of the last file written under its name, so a later record with the same id overwrites an earlier one |
| AssembleProfiles.ProcessUpToStops | interpretation/assemble_profiles.py:77-90 | a run that raises ends with exactly what the files before the first raising one wrote, and none of those raised |
| Ranking.SortDescCorrect | interpretation/cluster_labels.py:52 | the ranking is a permutation of the items, ordered by non-increasing score |
| Ranking.TopNCorrect | interpretation/cluster_labels.py:52 | the first `min(n, len)` items of the ranking; the taken and left-out items together are all the items, and no left-out item scores higher than a taken one |
| Text.CountSubZero | feature_engineering/projection_signals.py:24 | `s.count(sub)` is 0 exactly when `sub` does not occur in `s` |
| Text.CountSubBound | feature_engineering/projection_signals.py:24 | the non-overlapping occurrences fit in the string |
| Text.CountWordsPositive | feature_engineering/psych_signals.py:18-25 | a `\b(w1\|…)\b` scan finds a match exactly when some alternative occurs as a whole word |
| Text.CountWordsWhole | feature_engineering/psych_signals.py:18-25 | when no alternative can start inside another's match (for instance when all are made of word characters), the `findall` count is the number of positions where some alternative occurs as a whole word |
| Text.SplitWhitespaceCount | feature_engineering/psych_signals.py:66 | `len(text.split())` is the number of word starts |
| Text.JoinSplitOn | interpretation/review_labels.py:76 | joining the pieces of `split(',')` with commas gives back the string |
| Text.IntToStringInjective | interpretation/auto_label.py:180 | distinct integers render as distinct decimal strings |

## Left out

- LLM prompting and the call itself: `build_prompt` and `query_llm` (interpretation/auto_label.py:65-110) are external and network-bound. The reply text is a parameter of `Draft`, and a failed call is `None`, which stops the batch.
- Clustering, embedding and inference internals: UMAP, HDBSCAN, Sentence-BERT, TextBlob, the RoBERTa pipeline, the NLTK tokenizer and `sentiment_valence_variance`. They are function parameters; their outputs are taken as given.
- `summarize_traits`, the `avg_*` means of `extract_dominant_traits` and other float aggregates: they are supplied as values. Floats are modelled as exact reals, with no rounding.
- `eval` of defence strings (interpretation/cluster_labels.py:40): the parser is a parameter.
- `manual_labeling_prompt` and the `main` of cluster_labels.py: console interaction and printing only. The record they save is modelled by `LabelRecord`.
- All file and console I/O: CSV, YAML, JSON and NumPy parsing, `glob`, `os.listdir`, `mkdir`, colours, `print`, `sys.exit`.
  - Parsed documents and directory listings are inputs, and the stores are maps. Listings are taken in the order given.
  - A YAML dictionary is an ordered list of entries with unique keys.
- `datetime.utcnow`: the timestamp is a parameter of `AssembleMarkdown` and of each file of `ProcessClustersSpec`.
- Write failures: `save_markdown` and auto_label's `save_yaml` catch and print their exceptions. The model treats every write as successful.
- `merged_df` in psych_signals.py (lines 84-85) is computed and never used. `stop_words` in projection_signals.py (line 10) is never used.
- Python `str.lower` and the regex `\w` are modelled on ASCII letters only.
- PsychSignals.FeaturesShape: the RoBERTa score and the TextBlob pair are parameters, so nothing is stated about their values beyond the routing.
- ReviewLabels.RunReview: the summary file is optional in the code (interpretation/review_labels.py:119-122); on quit, the `SystemExit` raised at interpretation/review_labels.py:95 leaves `main` before that write, so no summary file is written. The model follows the code.
- AutoLabel.LabelAllDrafts: a failed model call re-raises out of `main`, so the rest of the batch is not drafted. The model follows the code, not a per-cluster isolation.
- Missing cells that pandas keeps as `NaN`: a present `valence`, `complexity` or `detected_defenses` column with an empty cell puts `nan` into the sample (interpretation/cluster_labels.py:58-60), and a missing polarity or subjectivity does the same in auto_label's posts; the model writes None there, because reals have no `NaN`.
- AutoLabel.DraftName: an id of 10^16 or more in a float column prints in exponent form; the model always prints `<id>.0`.
- `load_data` in auto_label.py (lines 37-41) raises when the table has no `cluster` column; the model's table always has one, and a missing cell is `None`.
- `load_cluster_data` in cluster_labels.py (lines 24-28) raises likewise; the model's frame always has a `cluster` column.
- MergeAll.JoinRows: pandas renames columns that both sides of a merge share (other than the key) with `_x` and `_y`; the model keeps the column lists side by side.
- Clustering.Stage: with two points or fewer the model returns the clustered table, while UMAP itself rejects `n_neighbors < 2` and the script would raise; that error is not modelled.
- The dashed `- Dominant Traits:` header that the prompt itself asks for is not recognised by the second pass, which tests only `startswith('dominant traits:')`. The model keeps that behaviour (interpretation/auto_label.py:147).

## Findings

| source | as written | input that shows it | evidently intended | confidence | as-written member | corrected member |
|---|---|---|---|---|---|---|
| utils/validate_pipeline.py:48-50 | the gate expects `psych.shape[1] + 1 + d` columns | any run of the pipeline, taking the gate's `psych_features.csv` to be the `*_signals.csv` table the merge joins and its `embedding_ids.csv` to be the merge's id table (none of the scripts that write CSV or NumPy files writes `psych_features.csv` or `embedding_ids.csv`: feature_engineering's prepare_text_dataset.py, psych_signals.py, nlp_features.py, embed_signals.py, clustering.py and merge_all.py, and modeling's cluster_interpretation.py, hdbscan_clustering.py and umap_dimensionality_reduction.py): clustering.py writes `id`, `cluster` and `cluster_prob`, so the merge of psych, the id table and that cluster table has at least `psych + 2 + d` columns, and the gate always fails | the count of the columns the merge produces | high (proved), not executed | Pipeline.AsWrittenRejectsPipeline | Pipeline.ValidateCorrected, Pipeline.CorrectedAcceptsPipeline |
| feature_engineering/psych_signals.py:18-19 | `\b(not\|no\|never\|n't)\b` | `"don't"`: there is no word boundary between `o` and `n`, so the count is 0 | count contractions ending in `n't` | high, not executed | PsychSignals.NegationMissesContraction | PsychSignals.CountNegationsCorrected, PsychSignals.CorrectedCountsContraction |
| feature_engineering/psych_signals.py:64 | reads `selftext`, then `title` | the prepare_text_dataset.py output, whose only text column is `text`: every row measures `""` and all counters are 0 | read the cleaned `text` column | medium, not executed | PsychSignals.AsWrittenIgnoresTextColumn | PsychSignals.PickTextCorrected, PsychSignals.CorrectedReadsTextColumn |
