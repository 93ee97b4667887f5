/**
 * The per-post psychological signals: whole-word counts of first-person
 * `I`, negations and temporal words, the number of question marks, the word
 * count, TextBlob's polarity and subjectivity, and the RoBERTa sentiment
 * label routed to one of three columns. The counters are regular-expression
 * scans (`re.findall`) and `str.count`; TextBlob and the RoBERTa model are
 * supplied functions. The driver builds eleven parallel columns, one entry
 * per input row.
 */
module PsychSignals {
  import opened Common
  import opened Text
  import opened Values
  import opened Frames

  // ---------------------------------------------------------------- counters

  const IWords: seq<string> := ["I", "i"]
  const NegationWords: seq<string> := ["not", "no", "never", "n't"]
  const TemporalWords: seq<string> := ["yesterday", "today", "tomorrow", "week", "month", "year", "day", "decade"]

  lemma WordListsNonEmpty()
    ensures NonEmptyAll(IWords) && NonEmptyAll(NegationWords) && NonEmptyAll(TemporalWords)
  {
  }

  /** `len(re.findall(r"\b[Ii]\b", text))` */
  function CountI(text: string): nat {
    WordListsNonEmpty();
    CountWords(text, IWords, 0)
  }

  /** `len(re.findall(r"\b(not|no|never|n't)\b", text))` */
  function CountNegations(text: string): nat {
    WordListsNonEmpty();
    CountWords(text, NegationWords, 0)
  }

  /** `text.count("?")` */
  function CountQuestions(text: string): nat {
    CountSub(text, "?")
  }

  /** `len(re.findall(r"\b(yesterday|today|tomorrow|week|month|year|day|decade)\b", text))` */
  function CountTemporal(text: string): nat {
    WordListsNonEmpty();
    CountWords(text, TemporalWords, 0)
  }

  /** The question-mark count is the number of `?` characters. */
  lemma CountQuestionsChars(text: string)
    ensures CountQuestions(text) == multiset(text)['?']
  {
    CountSubChar(text, '?');
  }

  /** `I` or `i` standing alone at `p`: no word character on either side. */
  predicate StandaloneIAt(s: string, p: nat) {
    p < |s| && (s[p] == 'I' || s[p] == 'i') && !WordCharAt(s, p - 1) && !WordCharAt(s, p + 1)
  }

  /** The number of positions from `i` on that hold a standalone `I` or `i`. */
  function StandaloneIs(s: string, i: nat): nat
    decreases |s| - i
  {
    if i >= |s| then 0 else (if StandaloneIAt(s, i) then 1 else 0) + StandaloneIs(s, i + 1)
  }

  lemma MatchIAt(s: string, i: nat)
    requires i <= |s|
    ensures MatchAt(s, IWords, i) == if StandaloneIAt(s, i) then Some(1) else None
  {
    if i < |s| {
      assert s[i..i + 1] == [s[i]];
    }
    assert IWords[1..] == ["i"];
    assert IWords[1..][1..] == [];
  }

  lemma {:induction false} CountIFrom(s: string, i: nat)
    requires i <= |s|
    ensures CountWords(s, IWords, i) == StandaloneIs(s, i)
    decreases |s| - i
  {
    WordListsNonEmpty();
    if i < |s| {
      MatchIAt(s, i);
      CountIFrom(s, i + 1);
    }
  }

  /** `count_i` counts exactly the standalone `I`s and `i`s. */
  lemma CountIStandalone(text: string)
    ensures CountI(text) == StandaloneIs(text, 0)
  {
    CountIFrom(text, 0);
  }

  /** A count is positive exactly when one of its words occurs as a whole word, and never exceeds the length. */
  lemma CountersWholeWords(text: string)
    ensures CountI(text) > 0 <==> exists p, k :: 0 <= p < |text| && 0 <= k < |IWords| && WholeAt(text, IWords[k], p)
    ensures CountNegations(text) > 0 <==> exists p, k :: 0 <= p < |text| && 0 <= k < |NegationWords| && WholeAt(text, NegationWords[k], p)
    ensures CountTemporal(text) > 0 <==> exists p, k :: 0 <= p < |text| && 0 <= k < |TemporalWords| && WholeAt(text, TemporalWords[k], p)
    ensures CountI(text) <= |text| && CountNegations(text) <= |text| && CountTemporal(text) <= |text|
  {
    WordListsNonEmpty();
    CountWordsPositive(text, IWords, 0);
    CountWordsPositive(text, NegationWords, 0);
    CountWordsPositive(text, TemporalWords, 0);
    CountWordsBound(text, IWords, 0);
    CountWordsBound(text, NegationWords, 0);
    CountWordsBound(text, TemporalWords, 0);
  }

  /** The temporal words are runs of word characters. */
  lemma TemporalWordChars()
    ensures WordAlts(TemporalWords)
  {
    forall k, j | 0 <= k < |TemporalWords| && 0 <= j < |TemporalWords[k]| ensures IsWordChar(TemporalWords[k][j]) {
      assert 'a' <= TemporalWords[k][j] <= 'z';
    }
  }

  /**
   * `count_temporal` counts exactly the positions where one of the temporal
   * words occurs as a whole word.
   */
  lemma CountTemporalWhole(text: string)
    ensures CountTemporal(text) == WholeCount(text, TemporalWords, 0)
  {
    WordListsNonEmpty();
    TemporalWordChars();
    WordAltsNoInnerStart(TemporalWords);
    CountWordsWhole(text, TemporalWords, 0);
  }

  /**
   * No negation word starts inside another: the letters of `not`, `no` and
   * `never` follow letters, and the `'` and `t` of `n't` start none of them.
   */
  lemma NegationNoInnerStart()
    ensures NoInnerStart(NegationWords)
  {
    assert StartsNone(NegationWords, '\'') && StartsNone(NegationWords, 't');
    forall k, j | 0 <= k < |NegationWords| && 0 < j < |NegationWords[k]|
      ensures (IsWordChar(NegationWords[k][j - 1]) && IsWordChar(NegationWords[k][j])) || StartsNone(NegationWords, NegationWords[k][j])
    {
      if k == 3 {
        assert NegationWords[k] == "n't";
      }
    }
  }

  /**
   * `count_negations` counts exactly the positions where one of `not`, `no`,
   * `never` or `n't` occurs as a whole word.
   */
  lemma CountNegationsWhole(text: string)
    ensures CountNegations(text) == WholeCount(text, NegationWords, 0)
  {
    WordListsNonEmpty();
    NegationNoInnerStart();
    CountWordsWhole(text, NegationWords, 0);
  }

  // ---------------------------------------------------------------- the contraction

  /**
   * As written, `\b` before `n't` needs a non-word character in front of the
   * `n`, so the contraction inside a word such as `don't` is never counted.
   */
  lemma NegationMissesContraction()
    ensures CountNegations("don't") == 0
  {
    var s := "don't";
    WordListsNonEmpty();
    forall p, k | 0 <= p < |s| && 0 <= k < |NegationWords| ensures !WholeAt(s, NegationWords[k], p) {
      var w := NegationWords[k];
      assert w != [] && w[0] == 'n';
      assert WordCharAt(s, 1) && WordCharAt(s, 2);
      assert p != 2 ==> s[p] != 'n';
      assert p + |w| <= |s| ==> s[p..p + |w|][0] == s[p];
    }
    CountWordsPositive(s, NegationWords, 0);
  }

  const WholeNegationWords: seq<string> := ["not", "no", "never"]

  /** `n't\b` at `p`: the contraction, ending a word, with no boundary asked for in front. */
  predicate ContractionAt(s: string, p: nat) {
    p + 3 <= |s| && s[p..p + 3] == "n't" && Boundary(s, p + 3)
  }

  /** The corrected pattern `\b(not|no|never)\b|n't\b`, its branches tried in order at `i`. */
  function NegationMatchAt(s: string, i: nat): (m: Option<nat>)
    requires i <= |s|
    ensures m.Some? ==> 0 < m.value && i + m.value <= |s|
  {
    assert NonEmptyAll(WholeNegationWords);
    match MatchAt(s, WholeNegationWords, i)
    case Some(len) =>
      MatchAtWhole(s, WholeNegationWords, i);
      var k :| 0 <= k < |WholeNegationWords| && len == |WholeNegationWords[k]| && WholeAt(s, WholeNegationWords[k], i);
      Some(len)
    case None => if ContractionAt(s, i) then Some(3) else None
  }

  function CountNegationsFrom(s: string, i: nat): nat
    requires i <= |s|
    decreases |s| - i
  {
    if i == |s| then 0
    else
      match NegationMatchAt(s, i)
      case Some(len) => 1 + CountNegationsFrom(s, i + len)
      case None => CountNegationsFrom(s, i + 1)
  }

  /** The negation count with the corrected pattern. */
  function CountNegationsCorrected(text: string): nat {
    CountNegationsFrom(text, 0)
  }

  /** A whole-word `not`, `no` or `never`, or a contraction, at `p`. */
  predicate NegationAt(s: string, p: nat) {
    ContractionAt(s, p) || exists k :: 0 <= k < |WholeNegationWords| && WholeAt(s, WholeNegationWords[k], p)
  }

  lemma NegationMatchAtIff(s: string, i: nat)
    requires i <= |s|
    ensures NegationMatchAt(s, i).Some? <==> NegationAt(s, i)
  {
    var m := MatchAt(s, WholeNegationWords, i);
    if m.None? {
      forall k | 0 <= k < |WholeNegationWords| && WholeAt(s, WholeNegationWords[k], i) ensures false {
        MatchAtFinds(s, WholeNegationWords, i, k);
      }
    }
  }

  lemma {:induction false} CountNegationsFromPositive(s: string, i: nat)
    requires i <= |s|
    ensures CountNegationsFrom(s, i) > 0 <==> exists p :: i <= p < |s| && NegationAt(s, p)
    decreases |s| - i
  {
    if i < |s| {
      NegationMatchAtIff(s, i);
      var m := NegationMatchAt(s, i);
      if m.None? {
        CountNegationsFromPositive(s, i + 1);
      }
    }
  }

  /**
   * With the corrected pattern the count is positive exactly when a negation
   * word or a contraction occurs, so every word ending in `n't` is counted.
   */
  lemma CorrectedCountsContraction(text: string, w: string)
    ensures CountNegationsCorrected(text) > 0 <==> exists p :: 0 <= p < |text| && NegationAt(text, p)
    ensures CountNegationsCorrected(w + "n't") > 0
    ensures CountNegationsCorrected("don't") > 0
  {
    CountNegationsFromPositive(text, 0);
    CorrectedCountsSuffix(w);
    assert "don't" == "do" + "n't";
    CorrectedCountsSuffix("do");
  }

  lemma CorrectedCountsSuffix(w: string)
    ensures CountNegationsCorrected(w + "n't") > 0
  {
    var s := w + "n't";
    assert s[|w|..|w| + 3] == "n't";
    assert NegationAt(s, |w|);
    CountNegationsFromPositive(s, 0);
  }

  // ---------------------------------------------------------------- sentiment

  /** The first result of the sentiment pipeline: a label name and its score. */
  datatype Prediction = Prediction(name: string, score: real)

  const RobertaColumns: seq<string> := ["roberta_sent_neg", "roberta_sent_neu", "roberta_sent_pos"]
  const RobertaLabels: seq<string> := ["LABEL_0", "LABEL_1", "LABEL_2"]

  /** Column `k` holds the score when the label is the `k`-th one, and the integer 0 otherwise. */
  function Routed(p: Prediction, k: nat): Value
    requires k < 3
  {
    if p.name == RobertaLabels[k] then Float(p.score) else Int(0)
  }

  /** `get_roberta_scores` once the model has answered. */
  function RobertaScores(p: Prediction): (r: seq<(string, Value)>)
    ensures KeysOf(r) == RobertaColumns
  {
    [(RobertaColumns[0], Routed(p, 0)), (RobertaColumns[1], Routed(p, 1)), (RobertaColumns[2], Routed(p, 2))]
  }

  /**
   * The three columns are always present; the label picks the one column
   * that holds the score, so at most one is not 0, and every column is 0 for
   * a label other than the three.
   */
  lemma RobertaRouting(p: Prediction)
    ensures forall k :: 0 <= k < 3 ==> Get(RobertaScores(p), RobertaColumns[k]).Some?
    ensures forall k :: 0 <= k < 3 && p.name == RobertaLabels[k] ==> Get(RobertaScores(p), RobertaColumns[k]) == Some(Float(p.score))
    ensures forall j, k :: 0 <= j < k < 3 ==>
      Get(RobertaScores(p), RobertaColumns[j]) == Some(Int(0)) || Get(RobertaScores(p), RobertaColumns[k]) == Some(Int(0))
    ensures p.name !in RobertaLabels ==> forall k :: 0 <= k < 3 ==> Get(RobertaScores(p), RobertaColumns[k]) == Some(Int(0))
  {
    var r := RobertaScores(p);
    assert Get(r, RobertaColumns[0]) == Some(Routed(p, 0));
    assert Get(r, RobertaColumns[1]) == Some(Routed(p, 1));
    GetSkip(r, RobertaColumns[2], 2);
    assert Get(r, RobertaColumns[2]) == Some(Routed(p, 2));
  }

  /** `text[:512]`: the model sees at most the first 512 characters. */
  function RobertaInput(text: string): (r: string)
    ensures |r| <= 512 && |r| <= |text| && text == r + text[|r|..]
    ensures |text| <= 512 ==> r == text
  {
    text[..Min(512, |text|)]
  }

  // ---------------------------------------------------------------- rows

  /** `row.get(key)` is truthy: a missing column gives `None`, an empty CSV cell gives NaN, which is truthy. */
  predicate CellTruthy(c: Option<Value>) {
    c.Some? && (c.value.Null? || Truthy(c.value))
  }

  /** A cell holding a non-empty string. */
  predicate NonEmptyText(c: Option<Value>) {
    c.Some? && c.value.Str? && c.value.s != []
  }

  /**
   * `row.get("selftext") or row.get("title") or ""`, then `text.split()`:
   * `None` when the chosen cell is not a string (NaN or a number), which
   * raises `AttributeError` and ends the run.
   */
  function PickText(f: Table, i: nat): Option<string>
    requires i < |f.rows|
  {
    var selftext := Cell(f, i, "selftext");
    var title := Cell(f, i, "title");
    var chosen := if CellTruthy(selftext) then selftext.value else if CellTruthy(title) then title.value else Str("");
    if chosen.Str? then Some(chosen.s) else None
  }

  /**
   * The body wins when it is a non-empty string, the title otherwise, and the
   * empty string when neither cell is truthy; a truthy cell that is not a
   * string ends the run.
   */
  lemma PickTextCases(f: Table, i: nat)
    requires i < |f.rows|
    ensures NonEmptyText(Cell(f, i, "selftext")) ==> PickText(f, i) == Some(Cell(f, i, "selftext").value.s)
    ensures !CellTruthy(Cell(f, i, "selftext")) && NonEmptyText(Cell(f, i, "title")) ==> PickText(f, i) == Some(Cell(f, i, "title").value.s)
    ensures !CellTruthy(Cell(f, i, "selftext")) && !CellTruthy(Cell(f, i, "title")) ==> PickText(f, i) == Some("")
    ensures PickText(f, i).None? <==>
      (CellTruthy(Cell(f, i, "selftext")) && !Cell(f, i, "selftext").value.Str?) ||
      (!CellTruthy(Cell(f, i, "selftext")) && CellTruthy(Cell(f, i, "title")) && !Cell(f, i, "title").value.Str?)
  {
  }

  /** The ten feature cells after `id`, in column order. */
  const FeatureColumns: seq<string> := ["word_count", "i_count", "negation_count", "question_mark_count", "temporal_refs",
    "sentiment_polarity", "sentiment_subjectivity", "roberta_sent_neg", "roberta_sent_neu", "roberta_sent_pos"]

  /** The feature cells of one text; `blob` is TextBlob's (polarity, subjectivity), `model` the sentiment pipeline. */
  function FeatureValues(text: string, blob: string -> (real, real), model: string -> Prediction): (cells: seq<Value>)
    ensures |cells| == |FeatureColumns|
  {
    var sentiment := blob(text);
    var scores := RobertaScores(model(RobertaInput(text)));
    RobertaRouting(model(RobertaInput(text)));
    [Int(|SplitWhitespace(text)|), Int(CountI(text)), Int(CountNegations(text)), Int(CountQuestions(text)),
     Int(CountTemporal(text)), Float(sentiment.0), Float(sentiment.1),
     Field(scores, RobertaColumns[0]), Field(scores, RobertaColumns[1]), Field(scores, RobertaColumns[2])]
  }

  /** Every row's text can be split. */
  predicate AllTexts(f: Table) {
    forall i :: 0 <= i < |f.rows| ==> PickText(f, i).Some?
  }

  /** A measurement gives one cell per feature column. */
  ghost predicate Measures(measure: string -> seq<Value>) {
    forall t :: |measure(t)| == |FeatureColumns|
  }

  /** The features of every text, as one function. */
  function Signals(blob: string -> (real, real), model: string -> Prediction): (measure: string -> seq<Value>)
    ensures Measures(measure)
  {
    t => FeatureValues(t, blob, model)
  }

  /** One row per input row, with its id and the cells `measure` gives its text, or `None` when some row's text raises. */
  function Tabulate(f: Table, measure: string -> seq<Value>): Option<Table>
    requires Measures(measure)
  {
    if AllTexts(f) then
      var rows := seq(|f.rows|, i requires 0 <= i < |f.rows| => Row(f.rows[i].id, measure(PickText(f, i).value)));
      Some(Frame(FeatureColumns, rows))
    else None
  }

  /** `out_df` */
  function Features(f: Table, blob: string -> (real, real), model: string -> Prediction): Option<Table> {
    Tabulate(f, Signals(blob, model))
  }

  /**
   * Every column has one entry per input row, the ids keep the input order,
   * and each row's cells are the features of its text.
   */
  lemma FeaturesShape(f: Table, blob: string -> (real, real), model: string -> Prediction)
    ensures Features(f, blob, model).Some? <==> AllTexts(f)
    ensures Features(f, blob, model).Some? ==> var out := Features(f, blob, model).value;
      && out.columns == FeatureColumns && Width(out) == 11
      && |out.rows| == |f.rows|
      && RowIds(out.rows) == RowIds(f.rows)
      && forall i :: 0 <= i < |f.rows| ==> out.rows[i].cells == FeatureValues(PickText(f, i).value, blob, model)
  {
    if AllTexts(f) {
      var out := Features(f, blob, model).value;
      assert RowIds(out.rows) == RowIds(f.rows);
    }
  }

  /** The table `pd.DataFrame(features)` builds from the id column and the ten feature columns. */
  function Assemble(ids: seq<string>, columns: seq<seq<Value>>): Frame
    requires |columns| == |FeatureColumns|
    requires forall k :: 0 <= k < |columns| ==> |columns[k]| == |ids|
  {
    Frame(FeatureColumns, seq(|ids|, i requires 0 <= i < |ids| => Row(ids[i], seq(|FeatureColumns|, k requires 0 <= k < |FeatureColumns| => columns[k][i]))))
  }

  /** The rows whose text was split so far. */
  predicate TextsUpTo(f: Table, n: nat) {
    forall j :: 0 <= j < n && j < |f.rows| ==> PickText(f, j).Some?
  }

  /** The feature cells of the first `n` rows, in order. */
  function RowsCells(f: Table, measure: string -> seq<Value>, n: nat): (e: seq<seq<Value>>)
    requires n <= |f.rows| && TextsUpTo(f, n)
    ensures |e| == n
    decreases n
  {
    if n == 0 then [] else RowsCells(f, measure, n - 1) + [measure(PickText(f, n - 1).value)]
  }

  lemma {:induction false} RowsCellsAt(f: Table, measure: string -> seq<Value>, n: nat, j: nat)
    requires n <= |f.rows| && TextsUpTo(f, n) && j < n
    ensures RowsCells(f, measure, n)[j] == measure(PickText(f, j).value)
    decreases n
  {
    if j < n - 1 {
      RowsCellsAt(f, measure, n - 1, j);
    }
  }

  /** The column-wise append of one row of cells. */
  function AppendRow(columns: seq<seq<Value>>, row: seq<Value>): (next: seq<seq<Value>>)
    requires |columns| == |row|
    ensures |next| == |columns|
  {
    seq(|columns|, k requires 0 <= k < |columns| => columns[k] + [row[k]])
  }

  /** Column `k` lists the `k`-th cell of every row in `cells`, in order. */
  predicate Transposed(columns: seq<seq<Value>>, cells: seq<seq<Value>>) {
    && |columns| == |FeatureColumns|
    && (forall k :: 0 <= k < |columns| ==> |columns[k]| == |cells|)
    && (forall i :: 0 <= i < |cells| ==> |cells[i]| == |FeatureColumns|)
    && (forall k, i :: 0 <= k < |columns| && 0 <= i < |cells| ==> columns[k][i] == cells[i][k])
  }

  /** Appending one row's cells to each column keeps the columns the transpose of the rows seen. */
  lemma TransposedAppend(columns: seq<seq<Value>>, cells: seq<seq<Value>>, row: seq<Value>)
    requires Transposed(columns, cells) && |row| == |FeatureColumns|
    ensures Transposed(AppendRow(columns, row), cells + [row])
  {
    var next := AppendRow(columns, row);
    forall k, j | 0 <= k < |next| && 0 <= j < |cells| + 1 ensures next[k][j] == (cells + [row])[j][k] {
      if j < |cells| {
        assert (cells + [row])[j] == cells[j];
      }
    }
  }

  /** One more row's feature cells appended to the columns. */
  lemma FeaturesSnoc(f: Table, measure: string -> seq<Value>, columns: seq<seq<Value>>, i: nat)
    requires Measures(measure)
    requires i < |f.rows| && TextsUpTo(f, i) && PickText(f, i).Some?
    requires Transposed(columns, RowsCells(f, measure, i))
    ensures TextsUpTo(f, i + 1)
    ensures Transposed(AppendRow(columns, measure(PickText(f, i).value)), RowsCells(f, measure, i + 1))
  {
    TransposedAppend(columns, RowsCells(f, measure, i), measure(PickText(f, i).value));
  }

  /** The columns built for all rows assemble into the feature table. */
  lemma AssembleFeatures(f: Table, measure: string -> seq<Value>, ids: seq<string>, columns: seq<seq<Value>>)
    requires Measures(measure) && AllTexts(f)
    requires |ids| == |f.rows| && IdsOf(ids, f.rows)
    requires Transposed(columns, RowsCells(f, measure, |f.rows|))
    ensures Assemble(ids, columns) == Tabulate(f, measure).value
  {
    var table := Assemble(ids, columns);
    var expected := Tabulate(f, measure).value;
    var cells := RowsCells(f, measure, |f.rows|);
    assert |table.rows| == |expected.rows|;
    forall i | 0 <= i < |table.rows| ensures table.rows[i] == expected.rows[i] {
      RowsCellsAt(f, measure, |f.rows|, i);
      assert table.rows[i].cells == cells[i] by {
        assert |table.rows[i].cells| == |cells[i]|;
        forall k | 0 <= k < |cells[i]| ensures table.rows[i].cells[k] == cells[i][k] {
          assert table.rows[i].cells[k] == columns[k][i];
        }
      }
    }
    assert table.rows == expected.rows;
  }

  /** The ids of the first `i` rows, in order. */
  predicate IdsOf(ids: seq<string>, rows: seq<Row>) {
    |ids| <= |rows| && forall j :: 0 <= j < |ids| ==> ids[j] == rows[j].id
  }

  lemma IdsSnoc(ids: seq<string>, rows: seq<Row>, i: nat)
    requires |ids| == i < |rows| && IdsOf(ids, rows)
    ensures IdsOf(ids + [rows[i].id], rows)
  {
  }

  /**
   * The loop over the rows, appending to the eleven parallel lists of
   * `features`, with the per-text extraction passed in as `measure`.
   */
  method TabulateRows(f: Table, measure: string -> seq<Value>) returns (out: Option<Table>)
    requires Measures(measure)
    ensures out == Tabulate(f, measure)
  {
    var ids: seq<string> := [];
    var columns: seq<seq<Value>> := seq(|FeatureColumns|, k => []);
    for i := 0 to |f.rows|
      invariant TextsUpTo(f, i)
      invariant |ids| == i && IdsOf(ids, f.rows)
      invariant Transposed(columns, RowsCells(f, measure, i))
    {
      var text := PickText(f, i);
      if text.None? {
        return None;
      }
      FeaturesSnoc(f, measure, columns, i);
      var cells := measure(text.value);
      IdsSnoc(ids, f.rows, i);
      ids := ids + [f.rows[i].id];
      columns := AppendRow(columns, cells);
    }
    AssembleFeatures(f, measure, ids, columns);
    out := Some(Assemble(ids, columns));
  }

  /** The feature table of `extract_features`, row by row. */
  method BuildFeatures(f: Table, blob: string -> (real, real), model: string -> Prediction) returns (out: Option<Table>)
    ensures out == Features(f, blob, model)
  {
    out := TabulateRows(f, Signals(blob, model));
  }

  // ---------------------------------------------------------------- the text column

  /**
   * The cleaned posts carry their text in a `text` column, with no `selftext`
   * or `title`: as written every such row is read as the empty text, so every
   * count is 0.
   */
  lemma AsWrittenIgnoresTextColumn(f: Table, i: nat, blob: string -> (real, real), model: string -> Prediction)
    requires i < |f.rows|
    requires "selftext" !in f.columns && "title" !in f.columns
    ensures PickText(f, i) == Some("")
    ensures FeatureValues("", blob, model)[..5] == [Int(0), Int(0), Int(0), Int(0), Int(0)]
  {
  }

  /** Reading the `text` column first, then the two columns as written. */
  function PickTextCorrected(f: Table, i: nat): Option<string>
    requires i < |f.rows|
  {
    var text := Cell(f, i, "text");
    if CellTruthy(text) then (if text.value.Str? then Some(text.value.s) else None) else PickText(f, i)
  }

  /** With the `text` column read, a row's non-empty cleaned text is the text measured. */
  lemma CorrectedReadsTextColumn(f: Table, i: nat)
    requires i < |f.rows|
    ensures NonEmptyText(Cell(f, i, "text")) ==> PickTextCorrected(f, i) == Some(Cell(f, i, "text").value.s)
    ensures !CellTruthy(Cell(f, i, "text")) ==> PickTextCorrected(f, i) == PickText(f, i)
  {
  }
}
