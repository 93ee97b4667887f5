/**
 * The projection markers of `feature_engineering/projection_signals.py`:
 * the ratio of other-directed to self-directed pronouns, the count of
 * absolutist terms, the gap between past- and present-tense verbs, and the
 * dictionary that gathers them. The tokenizer (`nltk.word_tokenize`) and the
 * sentiment variance (TextBlob) are parameters.
 */
module ProjectionSignals {
  import opened Text
  import opened Common
  import opened Values

  // ---------------------------------------------------------------- pronoun distance ratio

  const OtherPronouns: seq<string> := ["you", "they", "them"]
  const SelfPronouns: seq<string> := ["i", "me", "my"]

  /** `sum(1 for w in tokens if w in words)` */
  function TokenCount(tokens: seq<string>, words: seq<string>): (n: nat)
    ensures n <= |tokens|
    decreases |tokens|
  {
    if tokens == [] then 0
    else (if tokens[0] in words then 1 else 0) + TokenCount(tokens[1..], words)
  }

  /** The count is zero exactly when no token is one of the words. */
  lemma {:induction false} TokenCountZero(tokens: seq<string>, words: seq<string>)
    ensures TokenCount(tokens, words) == 0 <==> forall i :: 0 <= i < |tokens| ==> tokens[i] !in words
    decreases |tokens|
  {
    if tokens != [] {
      TokenCountZero(tokens[1..], words);
      forall i | 1 <= i < |tokens| ensures tokens[i] == tokens[1..][i - 1] {
      }
    }
  }

  /** Counting splits over concatenation, so a token's position does not matter. */
  lemma {:induction false} TokenCountAppend(a: seq<string>, b: seq<string>, words: seq<string>)
    ensures TokenCount(a + b, words) == TokenCount(a, words) + TokenCount(b, words)
    decreases |a|
  {
    if a != [] {
      TokenCountAppend(a[1..], b, words);
      assert (a + b)[0] == a[0] && (a + b)[1..] == a[1..] + b;
    } else {
      assert a + b == b;
    }
  }

  /** The other-directed pronouns over the self-directed ones plus one. */
  function RatioOf(tokens: seq<string>): real {
    TokenCount(tokens, OtherPronouns) as real / (TokenCount(tokens, SelfPronouns) + 1) as real
  }

  /** `pronoun_distance_ratio`: the ratio among the tokens of the lower-cased text. */
  function PronounDistanceRatio(text: string, tokenize: string -> seq<string>): real {
    RatioOf(tokenize(Lower(text)))
  }

  lemma DivideByAtLeastOne(y: real, m: real)
    requires y >= 0.0 && m >= 1.0
    ensures 0.0 <= y / m <= y
    ensures y / m == 0.0 <==> y == 0.0
  {
  }

  lemma DivideLarger(y: real, m: real)
    requires y >= 0.0 && m >= 1.0
    ensures (y + 1.0) / m > y / m
    ensures y / (m + 1.0) <= y / m
  {
  }

  /**
   * The denominator is at least one, so the ratio is defined for every token
   * sequence; it is never negative, never more than the number of
   * other-directed pronouns, and zero exactly when there is none of `you`,
   * `they`, `them`.
   */
  lemma RatioBounds(tokens: seq<string>)
    ensures 0.0 <= RatioOf(tokens) <= TokenCount(tokens, OtherPronouns) as real
    ensures RatioOf(tokens) == 0.0 <==> forall i :: 0 <= i < |tokens| ==> tokens[i] !in OtherPronouns
  {
    TokenCountZero(tokens, OtherPronouns);
    DivideByAtLeastOne(TokenCount(tokens, OtherPronouns) as real, (TokenCount(tokens, SelfPronouns) + 1) as real);
  }

  /** One more `you` raises the ratio; one more `i` never raises it. */
  lemma RatioDirections(tokens: seq<string>)
    ensures RatioOf(tokens + ["you"]) > RatioOf(tokens)
    ensures RatioOf(tokens + ["i"]) <= RatioOf(tokens)
  {
    RatioMoreYou(tokens);
    RatioMoreI(tokens);
  }

  lemma RatioMoreYou(tokens: seq<string>)
    ensures RatioOf(tokens + ["you"]) > RatioOf(tokens)
  {
    TokenCountAppend(tokens, ["you"], OtherPronouns);
    TokenCountAppend(tokens, ["you"], SelfPronouns);
    assert TokenCount(["you"], OtherPronouns) == 1 && TokenCount(["you"], SelfPronouns) == 0;
    DivideLarger(TokenCount(tokens, OtherPronouns) as real, (TokenCount(tokens, SelfPronouns) + 1) as real);
  }

  lemma RatioMoreI(tokens: seq<string>)
    ensures RatioOf(tokens + ["i"]) <= RatioOf(tokens)
  {
    TokenCountAppend(tokens, ["i"], OtherPronouns);
    TokenCountAppend(tokens, ["i"], SelfPronouns);
    assert TokenCount(["i"], OtherPronouns) == 0 && TokenCount(["i"], SelfPronouns) == 1;
    DivideLarger(TokenCount(tokens, OtherPronouns) as real, (TokenCount(tokens, SelfPronouns) + 1) as real);
  }

  // ---------------------------------------------------------------- narrative rigidity

  const RigidityTerms: seq<string> := ["always", "never", "clearly", "should", "obviously"]

  predicate LongTerms(terms: seq<string>, n: nat) {
    forall k :: 0 <= k < |terms| ==> |terms[k]| >= n
  }

  /** `sum(s.count(term) for term in terms)` */
  function CountTerms(s: string, terms: seq<string>): nat
    requires NonEmptyAll(terms)
    decreases |terms|
  {
    if terms == [] then 0 else CountSub(s, terms[0]) + CountTerms(s, terms[1..])
  }

  lemma RigidityTermsLong()
    ensures NonEmptyAll(RigidityTerms) && LongTerms(RigidityTerms, 5)
  {
  }

  /** `narrative_rigidity_score`: substring occurrences of the five terms in the lower-cased text. */
  function NarrativeRigidity(text: string): nat {
    RigidityTermsLong();
    CountTerms(Lower(text), RigidityTerms)
  }

  /** The sum is zero exactly when none of the terms occurs. */
  lemma {:induction false} CountTermsZero(s: string, terms: seq<string>)
    requires NonEmptyAll(terms)
    ensures CountTerms(s, terms) == 0 <==> forall k :: 0 <= k < |terms| ==> !Contains(s, terms[k])
    decreases |terms|
  {
    if terms != [] {
      CountSubZero(s, terms[0]);
      CountTermsZero(s, terms[1..]);
      forall k | 1 <= k < |terms| ensures terms[k] == terms[1..][k - 1] {
      }
    }
  }

  /** Occurrences of one term are disjoint: with terms of length at least `n`, each counts at most `|s| / n`. */
  lemma {:induction false} CountTermsBound(s: string, terms: seq<string>, n: nat)
    requires NonEmptyAll(terms) && n > 0 && LongTerms(terms, n)
    ensures CountTerms(s, terms) * n <= |terms| * |s|
    decreases |terms|
  {
    if terms != [] {
      var c := CountSub(s, terms[0]);
      var rest := CountTerms(s, terms[1..]);
      CountSubBound(s, terms[0]);
      MulMono(c, n, |terms[0]|);
      assert LongTerms(terms[1..], n) by {
        forall k | 0 <= k < |terms[1..]| ensures |terms[1..][k]| >= n {
          assert terms[1..][k] == terms[k + 1];
        }
      }
      CountTermsBound(s, terms[1..], n);
      Distribute(c, rest, n);
      Distribute(1, |terms| - 1, |s|);
    }
  }

  lemma Distribute(a: nat, b: nat, n: nat)
    ensures (a + b) * n == a * n + b * n
  {
  }

  lemma MulMono(a: nat, b: nat, c: nat)
    requires b <= c
    ensures a * b <= a * c
  {
  }

  /**
   * The score is zero exactly when none of the five terms occurs in the
   * lower-cased text, and it is at most the length of the text, every term
   * having at least five characters.
   */
  lemma NarrativeRigidityCorrect(text: string)
    ensures NarrativeRigidity(text) == 0 <==> forall k :: 0 <= k < |RigidityTerms| ==> !Contains(Lower(text), RigidityTerms[k])
    ensures NarrativeRigidity(text) <= |text|
  {
    var s := Lower(text);
    RigidityTermsLong();
    CountTermsZero(s, RigidityTerms);
    CountTermsBound(s, RigidityTerms, 5);
  }

  // ---------------------------------------------------------------- tense shifts

  const PastTense: seq<string> := ["was", "had", "did", "felt", "said", "thought"]
  const PresentTense: seq<string> := ["is", "has", "do", "feel", "say", "think"]

  lemma TenseListsNonEmpty()
    ensures NonEmptyAll(PastTense) && NonEmptyAll(PresentTense)
  {
  }

  /** `len(re.findall(r"\b(was|had|did|felt|said|thought)\b", text.lower()))` */
  function PastCount(text: string): nat {
    TenseListsNonEmpty();
    CountWords(Lower(text), PastTense, 0)
  }

  /** `len(re.findall(r"\b(is|has|do|feel|say|think)\b", text.lower()))` */
  function PresentCount(text: string): nat {
    TenseListsNonEmpty();
    CountWords(Lower(text), PresentTense, 0)
  }

  /** `detect_tense_shifts`: `abs(past - present)`. */
  function TenseShifts(text: string): nat {
    var d := PastCount(text) - PresentCount(text);
    if d < 0 then -d else d
  }

  /**
   * The score is the distance between the two counts: it is zero exactly
   * when they are equal, it is at least the gap either way round, and it
   * never exceeds the length of the text.
   */
  lemma TenseShiftsCorrect(text: string)
    ensures TenseShifts(text) == 0 <==> PastCount(text) == PresentCount(text)
    ensures TenseShifts(text) + PresentCount(text) >= PastCount(text)
    ensures TenseShifts(text) + PastCount(text) >= PresentCount(text)
    ensures TenseShifts(text) <= |text|
  {
    TenseListsNonEmpty();
    CountWordsBound(Lower(text), PastTense, 0);
    CountWordsBound(Lower(text), PresentTense, 0);
  }

  /** Both tense lists are made of lower-case letters. */
  lemma TenseWordChars()
    ensures WordAlts(PastTense) && WordAlts(PresentTense)
  {
    forall k, j | 0 <= k < |PastTense| && 0 <= j < |PastTense[k]| ensures IsWordChar(PastTense[k][j]) {
      assert 'a' <= PastTense[k][j] <= 'z';
    }
    forall k, j | 0 <= k < |PresentTense| && 0 <= j < |PresentTense[k]| ensures IsWordChar(PresentTense[k][j]) {
      assert 'a' <= PresentTense[k][j] <= 'z';
    }
  }

  /**
   * The past count is exactly the number of positions of the lower-cased
   * text where one of the six past-tense words occurs as a whole word.
   */
  lemma PastCountWhole(text: string)
    ensures PastCount(text) == WholeCount(Lower(text), PastTense, 0)
  {
    TenseListsNonEmpty();
    TenseWordChars();
    WordAltsNoInnerStart(PastTense);
    CountWordsWhole(Lower(text), PastTense, 0);
    assert PastCount(text) == CountWords(Lower(text), PastTense, 0);
  }

  /**
   * The present count is exactly the number of positions of the lower-cased
   * text where one of the six present-tense words occurs as a whole word.
   */
  lemma PresentCountWhole(text: string)
    ensures PresentCount(text) == WholeCount(Lower(text), PresentTense, 0)
  {
    TenseListsNonEmpty();
    TenseWordChars();
    WordAltsNoInnerStart(PresentTense);
    CountWordsWhole(Lower(text), PresentTense, 0);
    assert PresentCount(text) == CountWords(Lower(text), PresentTense, 0);
  }

  /** A past-tense word counts exactly when one of the six occurs as a whole word. */
  lemma PastCountPositive(text: string)
    ensures PastCount(text) > 0 <==>
      exists p, k :: 0 <= p < |Lower(text)| && 0 <= k < |PastTense| && WholeAt(Lower(text), PastTense[k], p)
  {
    TenseListsNonEmpty();
    assert PastCount(text) == CountWords(Lower(text), PastTense, 0);
    CountWordsPositive(Lower(text), PastTense, 0);
  }

  /** A present-tense word counts exactly when one of the six occurs as a whole word. */
  lemma PresentCountPositive(text: string)
    ensures PresentCount(text) > 0 <==>
      exists p, k :: 0 <= p < |Lower(text)| && 0 <= k < |PresentTense| && WholeAt(Lower(text), PresentTense[k], p)
  {
    TenseListsNonEmpty();
    assert PresentCount(text) == CountWords(Lower(text), PresentTense, 0);
    CountWordsPositive(Lower(text), PresentTense, 0);
  }

  // ---------------------------------------------------------------- the four markers

  const RatioKey := "pronoun_distance_ratio"
  const RigidityKey := "narrative_rigidity_score"
  const VarianceKey := "projection_valence_variance"
  const TenseKey := "tense_shifting_score"
  const ProjectionKeys: seq<string> := [RatioKey, RigidityKey, VarianceKey, TenseKey]

  /** The four names differ (their lengths do). */
  lemma ProjectionKeysDistinct()
    ensures RatioKey != RigidityKey && RatioKey != VarianceKey && RatioKey != TenseKey
    ensures RigidityKey != VarianceKey && RigidityKey != TenseKey && VarianceKey != TenseKey
  {
    assert |RatioKey| == 22 && |RigidityKey| == 24 && |VarianceKey| == 27 && |TenseKey| == 20;
  }

  /** The dictionary of the four markers, under their names in this order. */
  function ProjectionDict(ratio: real, rigidity: int, variance: real, tense: int): (r: Value)
    ensures r.Dict? && KeysOf(r.entries) == ProjectionKeys
    ensures Get(r.entries, RatioKey) == Some(Float(ratio))
    ensures Get(r.entries, RigidityKey) == Some(Int(rigidity))
    ensures Get(r.entries, VarianceKey) == Some(Float(variance))
    ensures Get(r.entries, TenseKey) == Some(Int(tense))
  {
    var e := [(RatioKey, Float(ratio)), (RigidityKey, Int(rigidity)), (VarianceKey, Float(variance)), (TenseKey, Int(tense))];
    ProjectionKeysDistinct();
    GetSkip(e, RigidityKey, 1);
    GetSkip(e, VarianceKey, 2);
    GetSkip(e, TenseKey, 3);
    Dict(e)
  }

  /**
   * `extract_projection_features`: the ratio and the variance as floats, the
   * rigidity and tense scores as ints.
   */
  function ExtractProjectionFeatures(text: string, tokenize: string -> seq<string>, variance: string -> real): (r: Value)
    ensures r.Dict? && KeysOf(r.entries) == ProjectionKeys
    ensures Get(r.entries, RatioKey) == Some(Float(PronounDistanceRatio(text, tokenize)))
    ensures Get(r.entries, RigidityKey) == Some(Int(NarrativeRigidity(text)))
    ensures Get(r.entries, VarianceKey) == Some(Float(variance(text)))
    ensures Get(r.entries, TenseKey) == Some(Int(TenseShifts(text)))
  {
    ProjectionDict(PronounDistanceRatio(text, tokenize), NarrativeRigidity(text), variance(text), TenseShifts(text))
  }
}
