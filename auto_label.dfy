/**
 * Automatic drafting of cluster labels: the conversion of numbers before a
 * record is dumped as YAML, the representative posts chosen for a cluster,
 * the parser that reads a label, a list of traits and a narrative out of the
 * language model's free text, the draft record and its file name, and the
 * loop over the clusters. The language model is a supplied function from a
 * cluster id to its reply, `None` standing for a failed call.
 */
module AutoLabel {
  import opened Common
  import opened Text
  import opened Values
  import opened Ranking
  import ClusterLabels

  // ---------------------------------------------------------------- clean_for_yaml

  /**
   * `clean_for_yaml`: the same tree with every `Decimal` and float leaf turned
   * into a float; dictionaries keep their keys in order, lists their length.
   */
  function CleanForYaml(v: Value): Value
    decreases v
  {
    match v
    case Dict(entries) =>
      Dict(seq(|entries|, i requires 0 <= i < |entries| => (entries[i].0, CleanEntry(v, entries[i]))))
    case List(items) =>
      List(seq(|items|, i requires 0 <= i < |items| => CleanForYaml(items[i])))
    case Decimal(d) => Float(d)
    case Float(f) => Float(f)
    case _ => v
  }

  function CleanEntry(parent: Value, entry: (string, Value)): Value
    requires parent.Dict? && entry in parent.entries
    decreases parent, 0
  {
    CleanForYaml(entry.1)
  }

  /** No `Decimal` leaf anywhere in the tree. */
  predicate NoDecimal(v: Value)
    decreases v
  {
    match v
    case Decimal(_) => false
    case List(items) => forall i :: 0 <= i < |items| ==> NoDecimal(items[i])
    case Dict(entries) => forall e :: e in entries ==> NoDecimalEntry(v, e)
    case _ => true
  }

  predicate NoDecimalEntry(parent: Value, entry: (string, Value))
    requires parent.Dict? && entry in parent.entries
    decreases parent, 0
  {
    NoDecimal(entry.1)
  }

  /**
   * `w` has the shape of `v`: the same dictionary keys in the same order, the
   * same list lengths, the same non-numeric leaves, and a float with the same
   * number where `v` has a float or a `Decimal`.
   */
  predicate SameShape(v: Value, w: Value)
    decreases v
  {
    match v
    case List(items) =>
      w.List? && |w.items| == |items| && forall i :: 0 <= i < |items| ==> SameShape(items[i], w.items[i])
    case Dict(entries) =>
      w.Dict? && KeysOf(w.entries) == KeysOf(entries) &&
      forall i :: 0 <= i < |entries| ==> SameShapeEntry(v, entries[i], w.entries[i].1)
    case Float(f) => w.Float? && w.f == f
    case Decimal(d) => w.Float? && w.f == d
    case _ => w == v
  }

  predicate SameShapeEntry(parent: Value, entry: (string, Value), w: Value)
    requires parent.Dict? && entry in parent.entries
    decreases parent, 0
  {
    SameShape(entry.1, w)
  }

  /** The cleaned tree has the shape of the original. */
  lemma {:induction false} CleanPreservesShape(v: Value)
    ensures SameShape(v, CleanForYaml(v))
    decreases v
  {
    match v
    case List(items) =>
      forall i | 0 <= i < |items| ensures SameShape(items[i], CleanForYaml(v).items[i]) {
        CleanPreservesShape(items[i]);
      }
    case Dict(entries) =>
      var w := CleanForYaml(v);
      forall i | 0 <= i < |entries| ensures SameShapeEntry(v, entries[i], w.entries[i].1) {
        assert w.entries[i] == (entries[i].0, CleanEntry(v, entries[i]));
        CleanPreservesShape(entries[i].1);
      }
      assert KeysOf(w.entries) == KeysOf(entries);
    case _ =>
  }

  /** The cleaned tree holds no `Decimal`. */
  lemma {:induction false} CleanRemovesDecimals(v: Value)
    ensures NoDecimal(CleanForYaml(v))
    decreases v
  {
    match v
    case List(items) =>
      forall i | 0 <= i < |items| ensures NoDecimal(CleanForYaml(v).items[i]) {
        CleanRemovesDecimals(items[i]);
      }
    case Dict(entries) =>
      var w := CleanForYaml(v);
      forall e | e in w.entries ensures NoDecimalEntry(w, e) {
        var i :| 0 <= i < |w.entries| && w.entries[i] == e;
        assert e == (entries[i].0, CleanEntry(v, entries[i]));
        CleanRemovesDecimals(entries[i].1);
      }
    case _ =>
  }

  /** A tree without `Decimal` leaves comes back unchanged. */
  lemma {:induction false} CleanIdentity(v: Value)
    requires NoDecimal(v)
    ensures CleanForYaml(v) == v
    decreases v
  {
    match v
    case List(items) =>
      forall i | 0 <= i < |items| ensures CleanForYaml(items[i]) == items[i] {
        CleanIdentity(items[i]);
      }
      assert CleanForYaml(v).items == items;
    case Dict(entries) =>
      forall i | 0 <= i < |entries| ensures CleanForYaml(entries[i].1) == entries[i].1 {
        assert NoDecimalEntry(v, entries[i]);
        CleanIdentity(entries[i].1);
      }
      assert CleanForYaml(v).entries == entries;
    case _ =>
  }

  /** Cleaning twice is cleaning once. */
  lemma CleanIdempotent(v: Value)
    ensures CleanForYaml(CleanForYaml(v)) == CleanForYaml(v)
  {
    CleanRemovesDecimals(v);
    CleanIdentity(CleanForYaml(v));
  }

  // ---------------------------------------------------------------- parse_llm_output

  /** `line.split(':', 1)[-1]`: what follows the first colon, or the whole line without one. */
  function AfterColon(line: string): (r: string)
    ensures |r| <= |line|
  {
    match AfterFirst(line, ':')
    case Some(rest) => rest
    case None => line
  }

  /** Without a colon the whole line; otherwise exactly the text after the first colon. */
  lemma AfterColonFirst(line: string)
    ensures IndexOf(line, ':') == |line| ==> AfterColon(line) == line
    ensures IndexOf(line, ':') < |line| ==> AfterColon(line) == line[IndexOf(line, ':') + 1..] && ':' !in line[..IndexOf(line, ':')]
  {
    AfterFirstIndexOf(line, ':');
  }

  /** The headers of the reply, lower-cased. */
  const LabelKey: string := "label:"
  const TraitsKey: string := "dominant traits:"
  const StructureKey: string := "inferred psychological structure:"

  /** What the second pass makes of a stripped line, the headers tested in order. */
  datatype LineKind = LabelLine | TraitsHeader | StructureHeader | Other

  function KindOf(t: string): LineKind {
    if StartsWithLower(t, LabelKey) then LabelLine
    else if StartsWithLower(t, TraitsKey) then TraitsHeader
    else if StartsWithLower(t, StructureKey) then StructureHeader
    else Other
  }

  /**
   * What the parser reads off one line: the stripped text, how the second
   * pass classifies it, whether its lower-cased text contains `label:`, the
   * label it offers (the text after the first colon, stripped), whether it
   * starts with `-`, and the trait it offers (the text without its leading
   * dashes, stripped).
   */
  datatype Line = Line(
    text: string,
    kind: LineKind,
    mentionsLabel: bool,
    candidate: string,
    dashed: bool,
    item: string)

  function Classify(raw: string): (l: Line)
    ensures IsStripped(l.item)
  {
    var t := Strip(raw);
    Line(t, KindOf(t), ContainsLower(t, LabelKey), Strip(AfterColon(t)), t != [] && t[0] == '-', Strip(LStripChar(t, '-')))
  }

  /** Each line classified. */
  function ClassifyAll(lines: seq<string>): (ls: seq<Line>)
    ensures |ls| == |lines|
    ensures forall i :: 0 <= i < |lines| ==> ls[i] == Classify(lines[i])
  {
    seq(|lines|, i requires 0 <= i < |lines| => Classify(lines[i]))
  }

  /** A `label:` header also mentions `label:`. */
  lemma LabelHeaderMentionsLabel(raw: string)
    ensures Classify(raw).kind == LabelLine ==> Classify(raw).mentionsLabel
  {
    ClassifyKindMention(raw);
    LabelKindMentions(Strip(raw));
  }

  lemma ClassifyKindMention(raw: string)
    ensures Classify(raw).kind == KindOf(Strip(raw)) && Classify(raw).mentionsLabel == ContainsLower(Strip(raw), LabelKey)
  {
  }

  /** A line that starts with `label:` contains it. */
  lemma LabelKindMentions(t: string)
    ensures KindOf(t) == LabelLine ==> ContainsLower(t, LabelKey)
  {
    StartsWithLowerContains(t, LabelKey);
  }

  lemma LabelHeadersMentionLabel(lines: seq<string>)
    ensures forall j :: 0 <= j < |ClassifyAll(lines)| && ClassifyAll(lines)[j].kind == LabelLine ==> ClassifyAll(lines)[j].mentionsLabel
  {
    forall j | 0 <= j < |lines|
      ensures ClassifyAll(lines)[j].kind == LabelLine ==> ClassifyAll(lines)[j].mentionsLabel
    {
      LabelHeaderMentionsLabel(lines[j]);
    }
  }

  /** The lines of the reply, each classified. */
  function Classified(text: string): seq<Line> {
    ClassifyAll(SplitLines(Strip(text)))
  }

  /**
   * The first pass: every line that mentions `label:` and offers a non-empty
   * label replaces the label.
   */
  function FirstPass(ls: seq<Line>): Option<string>
    decreases |ls|
  {
    if ls == [] then None
    else
      var l := ls[|ls| - 1];
      if l.mentionsLabel && l.candidate != [] then Some(l.candidate) else FirstPass(ls[..|ls| - 1])
  }

  /** The parser's variables during the second pass. */
  datatype ParseState = ParseState(
    labelText: Option<string>,
    traits: seq<string>,
    structure: string,
    parsingTraits: bool,
    parsingStructure: bool)

  /** One line of the second pass; the narrative gets a space and the stripped line. */
  function Step(st: ParseState, l: Line): ParseState {
    match l.kind
    case LabelLine => st.(labelText := Some(l.candidate), parsingTraits := false, parsingStructure := false)
    case TraitsHeader => st.(parsingTraits := true, parsingStructure := false)
    case StructureHeader => st.(parsingTraits := false, parsingStructure := true)
    case Other =>
      if st.parsingTraits && l.dashed then
        (if l.item != [] then st.(traits := st.traits + [l.item]) else st)
      else if st.parsingStructure then st.(structure := st.structure + " " + l.text)
      else st
  }

  /**
   * The second pass over `ls`, starting from the first pass's label with both
   * flags down. Every trait collected is non-empty, and the two flags are
   * never up together.
   */
  function Scan(first: Option<string>, ls: seq<Line>): (st: ParseState)
    ensures forall i :: 0 <= i < |st.traits| ==> st.traits[i] != []
    ensures !(st.parsingTraits && st.parsingStructure)
    decreases |ls|
  {
    if ls == [] then ParseState(first, [], "", false, false)
    else Step(Scan(first, ls[..|ls| - 1]), ls[|ls| - 1])
  }

  /** The dictionary `parse_llm_output` returns. */
  datatype Parsed = Parsed(rawResponse: string, labelText: Option<string>, traits: seq<string>, structure: string)

  function Parse(text: string): Parsed {
    var ls := Classified(text);
    var st := Scan(FirstPass(ls), ls);
    Parsed(text, st.labelText, st.traits, Strip(st.structure))
  }

  /** The first loop of `parse_llm_output`: the label from the lines that mention `label:`. */
  method FirstPassRun(lines: seq<string>) returns (labelText: Option<string>)
    ensures labelText == FirstPass(ClassifyAll(lines))
  {
    labelText := None;
    var parsingTraits := false;
    var parsingStructure := false;
    var i := 0;
    while i < |lines|
      invariant 0 <= i <= |lines|
      invariant labelText == RawFirstPass(lines[..i])
      invariant !parsingTraits && !parsingStructure
    {
      var line := Strip(lines[i]);
      if ContainsLower(line, LabelKey) {
        var candidate := Strip(AfterColon(line));
        if candidate != [] {
          labelText := Some(candidate);
        }
        parsingTraits := false;
        parsingStructure := false;
      }
      assert lines[..i + 1][..i] == lines[..i];
      i := i + 1;
    }
    assert lines[..i] == lines;
    RawFirstPassClassified(lines);
  }

  /** The first pass read off the raw lines, each stripped, without classifying them. */
  ghost function RawFirstPass(lines: seq<string>): Option<string>
    decreases |lines|
  {
    if lines == [] then None
    else
      var t := Strip(lines[|lines| - 1]);
      if ContainsLower(t, LabelKey) && Strip(AfterColon(t)) != [] then Some(Strip(AfterColon(t)))
      else RawFirstPass(lines[..|lines| - 1])
  }

  /** Classifying each line first finds the same label. */
  lemma {:induction false} RawFirstPassClassified(lines: seq<string>)
    ensures RawFirstPass(lines) == FirstPass(ClassifyAll(lines))
    decreases |lines|
  {
    if lines != [] {
      RawFirstPassClassified(lines[..|lines| - 1]);
      FirstPassClassifiedSnoc(lines);
    }
  }

  /** The first pass over classified lines reads the last line first. */
  lemma FirstPassClassifiedSnoc(lines: seq<string>)
    requires lines != []
    ensures var t := Strip(lines[|lines| - 1]);
      FirstPass(ClassifyAll(lines)) ==
        if ContainsLower(t, LabelKey) && Strip(AfterColon(t)) != [] then Some(Strip(AfterColon(t)))
        else FirstPass(ClassifyAll(lines[..|lines| - 1]))
  {
    var n := |lines| - 1;
    assert ClassifyAll(lines)[..n] == ClassifyAll(lines[..n]);
    ClassifyOffers(lines[n]);
  }

  /** What the first pass reads off one classified line. */
  lemma ClassifyOffers(raw: string)
    ensures var t := Strip(raw);
      && (Offers(Classify(raw)) <==> ContainsLower(t, LabelKey) && Strip(AfterColon(t)) != [])
      && Classify(raw).candidate == Strip(AfterColon(t))
  {
  }

  /** The first pass over one more line. */
  lemma FirstPassSnoc(ls: seq<Line>, i: nat)
    requires i < |ls|
    ensures FirstPass(ls[..i + 1]) == if Offers(ls[i]) then Some(ls[i].candidate) else FirstPass(ls[..i])
  {
    assert ls[..i + 1][..i] == ls[..i];
  }

  /** The second pass over one more line. */
  lemma ScanSnoc(first: Option<string>, ls: seq<Line>, i: nat)
    requires i < |ls|
    ensures Scan(first, ls[..i + 1]) == Step(Scan(first, ls[..i]), ls[i])
  {
    assert ls[..i + 1][..i] == ls[..i];
  }

  /** One line of the second loop of `parse_llm_output`. */
  method StepRun(st: ParseState, raw: string) returns (next: ParseState)
    ensures next == Step(st, Classify(raw))
  {
    var line := Strip(raw);
    next := st;
    if StartsWithLower(line, LabelKey) {
      next := next.(labelText := Some(Strip(AfterColon(line))), parsingTraits := false, parsingStructure := false);
    } else if StartsWithLower(line, TraitsKey) {
      next := next.(parsingTraits := true, parsingStructure := false);
    } else if StartsWithLower(line, StructureKey) {
      next := next.(parsingStructure := true, parsingTraits := false);
    } else if st.parsingTraits && line != [] && line[0] == '-' {
      var item := Strip(LStripChar(line, '-'));
      if item != [] {
        next := next.(traits := st.traits + [item]);
      }
    } else if st.parsingStructure {
      next := next.(structure := st.structure + " " + line);
    }
  }

  /** `parse_llm_output`: the first pass, then the second pass line by line, then the final strip. */
  method ParseLlmOutput(llmText: string) returns (output: Parsed)
    ensures output == Parse(llmText)
  {
    var lines := SplitLines(Strip(llmText));
    var first := FirstPassRun(lines);
    var st := ScanRun(first, lines);
    output := Parsed(llmText, st.labelText, st.traits, Strip(st.structure));
  }

  /** The second loop of `parse_llm_output`: one step per line, from the first pass's label. */
  method ScanRun(first: Option<string>, lines: seq<string>) returns (st: ParseState)
    ensures st == Scan(first, ClassifyAll(lines))
  {
    ghost var ls := ClassifyAll(lines);
    st := ParseState(first, [], "", false, false);
    var i := 0;
    while i < |lines|
      invariant 0 <= i <= |lines|
      invariant st == Scan(first, ls[..i])
    {
      st := StepRun(st, lines[i]);
      ScanSnoc(first, ls, i);
      i := i + 1;
    }
    assert ls[..i] == ls;
  }

  /** The raw reply is kept, the traits are non-empty and stripped, and so is the narrative. */
  lemma ParseShape(text: string)
    ensures Parse(text).rawResponse == text
    ensures forall i :: 0 <= i < |Parse(text).traits| ==> Parse(text).traits[i] != [] && IsStripped(Parse(text).traits[i])
    ensures IsStripped(Parse(text).structure)
  {
    var ls := Classified(text);
    var traits := Parse(text).traits;
    TraitsFromTraitLines(FirstPass(ls), ls);
    forall i | 0 <= i < |traits| ensures IsStripped(traits[i]) {
      assert traits[i] in traits;
      var j :| 0 <= j < |ls| && TraitLine(FirstPass(ls), ls, j) && ls[j].item == traits[i];
    }
  }

  /**
   * The last `label:` header decides the label, even when it offers nothing
   * after the colon.
   */
  lemma {:induction false} LastLabelLineWins(first: Option<string>, ls: seq<Line>, i: nat)
    requires i < |ls| && ls[i].kind == LabelLine
    requires forall j :: i < j < |ls| ==> ls[j].kind != LabelLine
    ensures Scan(first, ls).labelText == Some(ls[i].candidate)
    decreases |ls|
  {
    var n := |ls| - 1;
    if i < n {
      var prefix := ls[..n];
      assert forall j :: 0 <= j < n ==> prefix[j] == ls[j];
      LastLabelLineWins(first, prefix, i);
    }
  }

  /** Without a `label:` header the second pass keeps the first pass's label. */
  lemma {:induction false} NoLabelLineKeepsFirst(first: Option<string>, ls: seq<Line>)
    requires forall j :: 0 <= j < |ls| ==> ls[j].kind != LabelLine
    ensures Scan(first, ls).labelText == first
    decreases |ls|
  {
    if ls != [] {
      var prefix := ls[..|ls| - 1];
      assert forall j :: 0 <= j < |prefix| ==> prefix[j] == ls[j];
      NoLabelLineKeepsFirst(first, prefix);
    }
  }

  /** A line that offers a non-empty label to the first pass. */
  predicate Offers(l: Line) {
    l.mentionsLabel && l.candidate != []
  }

  /**
   * The first pass finds nothing exactly when no line offers a label, and
   * otherwise the label of the last line that offers one.
   */
  lemma {:induction false} FirstPassLast(ls: seq<Line>)
    ensures FirstPass(ls).None? <==> forall j :: 0 <= j < |ls| ==> !Offers(ls[j])
    ensures forall i :: (0 <= i < |ls| && Offers(ls[i]) && (forall j :: i < j < |ls| ==> !Offers(ls[j]))) ==>
      FirstPass(ls) == Some(ls[i].candidate)
    decreases |ls|
  {
    if ls != [] {
      var n := |ls| - 1;
      var prefix := ls[..n];
      assert forall j :: 0 <= j < n ==> prefix[j] == ls[j];
      FirstPassLast(prefix);
    }
  }

  /** With a `label:` header, the label is what the last such header offers, even when that is empty. */
  lemma ParseLabelFromHeader(text: string, i: nat)
    requires i < |Classified(text)| && Classified(text)[i].kind == LabelLine
    requires forall j :: i < j < |Classified(text)| ==> Classified(text)[j].kind != LabelLine
    ensures Parse(text).labelText == Some(Classified(text)[i].candidate)
  {
    LastLabelLineWins(FirstPass(Classified(text)), Classified(text), i);
  }

  /** Without a `label:` header, the label is the first pass's: the last non-empty remainder on a line containing `label:`. */
  lemma ParseLabelWithoutHeader(text: string)
    requires forall j :: 0 <= j < |Classified(text)| ==> Classified(text)[j].kind != LabelLine
    ensures Parse(text).labelText == FirstPass(Classified(text))
  {
    NoLabelLineKeepsFirst(FirstPass(Classified(text)), Classified(text));
  }

  /** When no line contains `label:`, there is no label. */
  lemma ParseLabelNone(text: string)
    requires forall j :: 0 <= j < |Classified(text)| ==> !Classified(text)[j].mentionsLabel
    ensures Parse(text).labelText == None
  {
    var ls := Classified(text);
    LabelHeadersMentionLabel(SplitLines(Strip(text)));
    NoLabelLineKeepsFirst(FirstPass(ls), ls);
    FirstPassLast(ls);
  }

  /** The index of the last header line (label, traits or structure), if any. */
  function LastHeader(ls: seq<Line>): (k: Option<nat>)
    ensures k.Some? ==> k.value < |ls| && ls[k.value].kind != Other
    ensures k.Some? ==> forall j :: k.value < j < |ls| ==> ls[j].kind == Other
    ensures k.None? ==> forall j :: 0 <= j < |ls| ==> ls[j].kind == Other
    decreases |ls|
  {
    if ls == [] then None
    else if ls[|ls| - 1].kind != Other then Some(|ls| - 1)
    else
      var k := LastHeader(ls[..|ls| - 1]);
      assert forall j :: 0 <= j < |ls| - 1 ==> ls[..|ls| - 1][j] == ls[j];
      k
  }

  /**
   * After reading `ls`, the parser collects traits exactly when the last
   * header was `dominant traits:`, and narrative exactly when it was
   * `inferred psychological structure:`.
   */
  lemma {:induction false} ModeFollowsLastHeader(first: Option<string>, ls: seq<Line>)
    ensures Scan(first, ls).parsingTraits <==> LastHeader(ls).Some? && ls[LastHeader(ls).value].kind == TraitsHeader
    ensures Scan(first, ls).parsingStructure <==> LastHeader(ls).Some? && ls[LastHeader(ls).value].kind == StructureHeader
    decreases |ls|
  {
    if ls != [] {
      var prefix := ls[..|ls| - 1];
      ModeFollowsLastHeader(first, prefix);
      if ls[|ls| - 1].kind == Other {
        assert LastHeader(ls) == LastHeader(prefix);
        if LastHeader(prefix).Some? {
          assert prefix[LastHeader(prefix).value] == ls[LastHeader(prefix).value];
        }
      }
    }
  }

  /** Line `i` is a `-` line, offering a non-empty trait, read while traits are being collected. */
  predicate TraitLine(first: Option<string>, ls: seq<Line>, i: nat)
    requires i < |ls|
  {
    ls[i].kind == Other && ls[i].dashed && ls[i].item != [] && Scan(first, ls[..i]).parsingTraits
  }

  /** The traits read so far stay at the front of the traits read later. */
  lemma {:induction false} TraitsGrow(first: Option<string>, ls: seq<Line>, i: nat)
    requires i <= |ls|
    ensures Scan(first, ls[..i]).traits <= Scan(first, ls).traits
    decreases |ls| - i
  {
    if i < |ls| {
      TraitsGrow(first, ls, i + 1);
      assert ls[..i + 1][..i] == ls[..i];
    } else {
      assert ls[..i] == ls;
    }
  }

  /** Every trait collected is what some `-` line read in the traits section offers. */
  lemma {:induction false} TraitsFromTraitLines(first: Option<string>, ls: seq<Line>)
    ensures forall x :: x in Scan(first, ls).traits ==> exists i :: 0 <= i < |ls| && TraitLine(first, ls, i) && ls[i].item == x
    decreases |ls|
  {
    if ls != [] {
      var n := |ls| - 1;
      var prefix := ls[..n];
      TraitsFromTraitLines(first, prefix);
      forall x | x in Scan(first, ls).traits
        ensures exists i :: 0 <= i < |ls| && TraitLine(first, ls, i) && ls[i].item == x
      {
        if x in Scan(first, prefix).traits {
          var i :| 0 <= i < n && TraitLine(first, prefix, i) && prefix[i].item == x;
          assert prefix[..i] == ls[..i];
          assert TraitLine(first, ls, i);
        } else {
          assert TraitLine(first, ls, n);
        }
      }
    }
  }

  /** What every `-` line read in the traits section offers is collected. */
  lemma TraitLinesGiveTraits(first: Option<string>, ls: seq<Line>, i: nat)
    requires i < |ls| && TraitLine(first, ls, i)
    ensures ls[i].item in Scan(first, ls).traits
  {
    ScanSnoc(first, ls, i);
    TraitsGrow(first, ls, i + 1);
    assert Scan(first, ls[..i + 1]).traits == Scan(first, ls[..i]).traits + [ls[i].item];
  }

  /** The traits of `parse_llm_output` come from, and are all of, the `-` lines of the traits section. */
  lemma ParseTraits(text: string)
    ensures var ls := Classified(text);
      forall x :: x in Parse(text).traits <==> exists i :: 0 <= i < |ls| && TraitLine(FirstPass(ls), ls, i) && ls[i].item == x
  {
    var ls := Classified(text);
    TraitsFromTraitLines(FirstPass(ls), ls);
    forall i | 0 <= i < |ls| && TraitLine(FirstPass(ls), ls, i) ensures ls[i].item in Parse(text).traits {
      TraitLinesGiveTraits(FirstPass(ls), ls, i);
    }
  }

  /** Without an `inferred psychological structure:` header nothing is collected as narrative. */
  lemma {:induction false} NoStructureHeaderNoNarrative(first: Option<string>, ls: seq<Line>)
    requires forall j :: 0 <= j < |ls| ==> ls[j].kind != StructureHeader
    ensures Scan(first, ls).structure == "" && !Scan(first, ls).parsingStructure
    decreases |ls|
  {
    if ls != [] {
      var prefix := ls[..|ls| - 1];
      assert forall j :: 0 <= j < |prefix| ==> prefix[j] == ls[j];
      NoStructureHeaderNoNarrative(first, prefix);
    }
  }

  lemma ParseNoStructure(text: string)
    requires forall j :: 0 <= j < |Classified(text)| ==> Classified(text)[j].kind != StructureHeader
    ensures Parse(text).structure == ""
  {
    NoStructureHeaderNoNarrative(FirstPass(Classified(text)), Classified(text));
  }

  /**
   * Line `i` belongs to the narrative: it is no header, and the last header
   * before it is `inferred psychological structure:`.
   */
  predicate NarrativeLine(ls: seq<Line>, i: nat)
    requires i < |ls|
  {
    var h := LastHeader(ls[..i]);
    ls[i].kind == Other && h.Some? && ls[..i][h.value].kind == StructureHeader
  }

  /** The narrative lines of `ls`, in order, each after one space. */
  function Narrative(ls: seq<Line>): string
    decreases |ls|
  {
    if ls == [] then ""
    else
      var n := |ls| - 1;
      Narrative(ls[..n]) + (if NarrativeLine(ls, n) then " " + ls[n].text else "")
  }

  /** The second pass collects exactly the narrative lines, each after one space. */
  lemma {:induction false} ScanNarrative(first: Option<string>, ls: seq<Line>)
    ensures Scan(first, ls).structure == Narrative(ls)
    decreases |ls|
  {
    if ls != [] {
      var n := |ls| - 1;
      var prefix := ls[..n];
      ScanNarrative(first, prefix);
      ModeFollowsLastHeader(first, prefix);
      NarrativeStep(Scan(first, prefix), ls[n], NarrativeLine(ls, n));
    }
  }

  /** One line read: the narrative grows by it exactly when it is a narrative line. */
  lemma NarrativeStep(st: ParseState, l: Line, narrative: bool)
    requires !(st.parsingTraits && st.parsingStructure)
    requires narrative <==> l.kind == Other && st.parsingStructure
    ensures Step(st, l).structure == st.structure + (if narrative then " " + l.text else "")
  {
  }

  /**
   * The `structure` of `parse_llm_output`: the narrative lines of the reply,
   * each after one space, with the result stripped.
   */
  lemma ParseStructure(text: string)
    ensures Parse(text).structure == Strip(Narrative(Classified(text)))
  {
    ScanNarrative(FirstPass(Classified(text)), Classified(text));
  }

  // ---------------------------------------------------------------- extract_top_posts

  /**
   * A row of the clustered table as this stage reads it; `None` is a missing
   * (`NaN`) cell.
   */
  datatype Post = Post(
    cluster: Option<int>,
    selftext: Option<string>,
    polarity: Option<real>,
    subjectivity: Option<real>)

  /** The clustered table; the flags say whether the two sentiment columns exist. */
  datatype PostTable = PostTable(hasPolarity: bool, hasSubjectivity: bool, rows: seq<Post>)

  /** `df[df['cluster'] == cluster_id]`; a missing cluster cell equals nothing. */
  function InCluster(rows: seq<Post>, clusterId: int): (r: seq<Post>)
    ensures |r| <= |rows|
    ensures forall i :: 0 <= i < |r| ==> r[i].cluster == Some(clusterId) && r[i] in rows
    ensures forall x :: x in rows && x.cluster == Some(clusterId) ==> x in r
  {
    if rows == [] then []
    else (if rows[0].cluster == Some(clusterId) then [rows[0]] else []) + InCluster(rows[1..], clusterId)
  }

  /**
   * `abs(sentiment_polarity_y)`; a missing polarity stays missing and
   * `nlargest` ranks it after every number, so it scores below every absolute
   * value.
   */
  function PolarityScore(p: Post): (s: real)
    ensures p.polarity.Some? ==> s >= 0.0
    ensures p.polarity.None? ==> s < 0.0
  {
    match p.polarity
    case None => -1.0
    case Some(x) => if x < 0.0 then -x else x
  }

  function ScoredPosts(rows: seq<Post>): (r: seq<(real, Post)>)
    ensures |r| == |rows|
    ensures forall i :: 0 <= i < |rows| ==> r[i] == (PolarityScore(rows[i]), rows[i])
  {
    seq(|rows|, i requires 0 <= i < |rows| => (PolarityScore(rows[i]), rows[i]))
  }

  /** The rows `nlargest(n, 'signal_score')` picks from the cluster, with their scores. */
  function TopRows(df: PostTable, clusterId: int, n: nat): seq<(real, Post)> {
    TopN(ScoredPosts(InCluster(df.rows, clusterId)), n)
  }

  /** The post dictionary for a chosen row whose text is present. */
  function TopPost(df: PostTable, p: Post): Value
    requires p.selftext.Some?
  {
    Dict([
      ("text", Str(ClusterLabels.Clip(p.selftext.value, 500))),
      ("valence", ClusterLabels.Number(p.polarity)),
      ("complexity", if df.hasSubjectivity then ClusterLabels.Number(p.subjectivity) else Null),
      ("detected_defenses", Null)
    ])
  }

  /**
   * `extract_top_posts`: without the polarity column the score cannot be
   * computed, and a chosen row with a missing text cannot be sliced; both
   * raise, which is `None`.
   */
  function ExtractTopPosts(df: PostTable, clusterId: int, n: nat): Option<seq<Value>> {
    var top := TopRows(df, clusterId, n);
    if !df.hasPolarity || exists i :: 0 <= i < |top| && top[i].1.selftext.None? then None
    else Some(seq(|top|, i requires 0 <= i < |top| => TopPost(df, top[i].1)))
  }

  /**
   * The posts: at most `n`, one per chosen row; each chosen row is a row of
   * the cluster with its score, the rows come in non-increasing score order
   * and no row of the cluster left out scores higher; each text is the first
   * `min(500, len)` characters of the row's text, the valence is the row's
   * polarity, the complexity its subjectivity when the table has that column,
   * and no defences are attached.
   */
  lemma ExtractTopPostsCorrect(df: PostTable, clusterId: int, n: nat)
    requires ExtractTopPosts(df, clusterId, n).Some?
    ensures var posts := ExtractTopPosts(df, clusterId, n).value;
      var top := TopRows(df, clusterId, n);
      var subset := InCluster(df.rows, clusterId);
      && |posts| == |top| == Min(n, |subset|)
      && SortedDesc(top)
      && (forall i :: 0 <= i < |top| ==>
            top[i].1 in df.rows && top[i].1.cluster == Some(clusterId) && top[i].0 == PolarityScore(top[i].1))
      && (forall i, j :: 0 <= i < |top| && 0 <= j < |Rest(ScoredPosts(subset), n)| ==>
            Rest(ScoredPosts(subset), n)[j].0 <= top[i].0)
      && (forall i :: 0 <= i < |top| ==>
            var e := posts[i].entries;
            && KeysOf(e) == ["text", "valence", "complexity", "detected_defenses"]
            && |e[0].1.s| == Min(500, |top[i].1.selftext.value|) && e[0].1.s == top[i].1.selftext.value[..|e[0].1.s|]
            && e[1].1 == ClusterLabels.Number(top[i].1.polarity)
            && e[2].1 == (if df.hasSubjectivity then ClusterLabels.Number(top[i].1.subjectivity) else Null)
            && e[3].1 == Null)
  {
    var subset := InCluster(df.rows, clusterId);
    var top := TopRows(df, clusterId, n);
    TopNCorrect(ScoredPosts(subset), n);
    TopNFrom(ScoredPosts(subset), n);
    forall i | 0 <= i < |top|
      ensures top[i].1 in df.rows && top[i].1.cluster == Some(clusterId) && top[i].0 == PolarityScore(top[i].1)
    {
      var k :| 0 <= k < |ScoredPosts(subset)| && ScoredPosts(subset)[k] == top[i];
      assert top[i].1 == subset[k];
    }
    var posts := ExtractTopPosts(df, clusterId, n).value;
    forall i | 0 <= i < |top|
      ensures var e := posts[i].entries;
        && KeysOf(e) == ["text", "valence", "complexity", "detected_defenses"]
        && |e[0].1.s| == Min(500, |top[i].1.selftext.value|) && e[0].1.s == top[i].1.selftext.value[..|e[0].1.s|]
        && e[1].1 == ClusterLabels.Number(top[i].1.polarity)
        && e[2].1 == (if df.hasSubjectivity then ClusterLabels.Number(top[i].1.subjectivity) else Null)
        && e[3].1 == Null
    {
      assert posts[i] == TopPost(df, top[i].1);
      TopPostShape(df, top[i].1);
    }
  }

  /** One post's entries: the four keys, the clipped text, the valence and complexity, no defences. */
  lemma TopPostShape(df: PostTable, p: Post)
    requires p.selftext.Some?
    ensures var e := TopPost(df, p).entries;
      && KeysOf(e) == ["text", "valence", "complexity", "detected_defenses"]
      && |e[0].1.s| == Min(500, |p.selftext.value|) && e[0].1.s == p.selftext.value[..|e[0].1.s|]
      && e[1].1 == ClusterLabels.Number(p.polarity)
      && e[2].1 == (if df.hasSubjectivity then ClusterLabels.Number(p.subjectivity) else Null)
      && e[3].1 == Null
  {
    var e := TopPost(df, p).entries;
    assert e[0].1.s == ClusterLabels.Clip(p.selftext.value, 500);
  }

  // ---------------------------------------------------------------- cluster ids

  predicate Increasing(xs: seq<int>) {
    forall i, j :: 0 <= i < j < |xs| ==> xs[i] < xs[j]
  }

  /** Adds `c` to an increasing sequence, keeping it increasing and without repeats. */
  function InsertId(c: int, xs: seq<int>): (r: seq<int>)
    requires Increasing(xs)
    ensures Increasing(r)
    ensures forall x :: x in r <==> x == c || x in xs
    decreases |xs|
  {
    if xs == [] || c < xs[0] then [c] + xs
    else if c == xs[0] then xs
    else
      var rest := InsertId(c, xs[1..]);
      assert forall j :: 0 <= j < |rest| ==> xs[0] < rest[j] by {
        forall j | 0 <= j < |rest| ensures xs[0] < rest[j] {
          if rest[j] != c {
            assert rest[j] in xs[1..];
            var k :| 0 <= k < |xs[1..]| && xs[1..][k] == rest[j];
            assert xs[k + 1] == rest[j];
          }
        }
      }
      [xs[0]] + rest
  }

  /** Some row of the table is in cluster `c`. */
  predicate HasCluster(rows: seq<Post>, c: int) {
    exists p :: p in rows && p.cluster == Some(c)
  }

  /**
   * `sorted(df['cluster'].dropna().unique())` without the negative ids: each
   * non-negative cluster id of the table once, in ascending order; the noise
   * label -1 is never among them.
   */
  function ClusterIds(rows: seq<Post>): (ids: seq<int>)
    ensures Increasing(ids)
    ensures forall c :: c in ids <==> c >= 0 && HasCluster(rows, c)
    decreases |rows|
  {
    if rows == [] then []
    else
      var rest := ClusterIds(rows[1..]);
      assert forall c :: HasCluster(rows, c) <==> rows[0].cluster == Some(c) || HasCluster(rows[1..], c) by {
        forall c ensures HasCluster(rows, c) ==> rows[0].cluster == Some(c) || HasCluster(rows[1..], c) {
          if HasCluster(rows, c) {
            var p :| p in rows && p.cluster == Some(c);
            if p != rows[0] {
              assert p in rows[1..];
            }
          }
        }
      }
      match rows[0].cluster
      case Some(c) => if c >= 0 then InsertId(c, rest) else rest
      case None => rest
  }

  // ---------------------------------------------------------------- save_yaml and main

  /**
   * A missing cell in the `cluster` column makes pandas read the whole column
   * as floats, so every id taken from it prints with a trailing `.0`.
   */
  predicate FloatIds(rows: seq<Post>) {
    exists i :: 0 <= i < |rows| && rows[i].cluster.None?
  }

  /** `cluster_{id}_label_draft.yaml`, with the id printed as an integer or as an integral float. */
  function DraftName(clusterId: int, asFloat: bool): string {
    "cluster_" + IntToString(clusterId) + (if asFloat then ".0" else "") + "_label_draft.yaml"
  }

  lemma DraftNameInjective(a: int, b: int, asFloat: bool)
    requires DraftName(a, asFloat) == DraftName(b, asFloat)
    ensures a == b
  {
    var sa := IntToString(a);
    var sb := IntToString(b);
    var tail := (if asFloat then ".0" else "") + "_label_draft.yaml";
    assert DraftName(a, asFloat) == ("cluster_" + sa) + tail;
    assert DraftName(b, asFloat) == ("cluster_" + sb) + tail;
    assert "cluster_" + sa == DraftName(a, asFloat)[..|DraftName(a, asFloat)| - |tail|];
    assert "cluster_" + sb == DraftName(b, asFloat)[..|DraftName(b, asFloat)| - |tail|];
    assert sa == ("cluster_" + sa)[8..];
    assert sb == ("cluster_" + sb)[8..];
    IntToStringInjective(a, b);
  }

  /**
   * The record `save_yaml` dumps: the four kept keys in order, cleaned for
   * YAML.
   */
  function DraftRecord(clusterId: int, parsed: Parsed): Value {
    CleanForYaml(Dict([
      ("cluster_id", Int(clusterId)),
      ("label", if parsed.labelText.Some? then Str(parsed.labelText.value) else Null),
      ("traits", StrList(parsed.traits)),
      ("structure", Str(parsed.structure))
    ]))
  }

  /** A list of strings comes out of cleaning unchanged. */
  lemma CleanStrList(xs: seq<string>)
    ensures CleanForYaml(StrList(xs)) == StrList(xs)
  {
    var v := StrList(xs);
    assert CleanForYaml(v).items == v.items;
  }

  /**
   * The draft record holds exactly `cluster_id`, `label`, `traits` and
   * `structure`, in that order, with the parsed values unchanged by cleaning.
   */
  lemma DraftRecordShape(clusterId: int, parsed: Parsed)
    ensures DraftRecord(clusterId, parsed).Dict?
    ensures KeysOf(DraftRecord(clusterId, parsed).entries) == ["cluster_id", "label", "traits", "structure"]
    ensures DraftRecord(clusterId, parsed).entries[0].1 == Int(clusterId)
    ensures DraftRecord(clusterId, parsed).entries[1].1 == (if parsed.labelText.Some? then Str(parsed.labelText.value) else Null)
    ensures DraftRecord(clusterId, parsed).entries[2].1 == StrList(parsed.traits)
    ensures DraftRecord(clusterId, parsed).entries[3].1 == Str(parsed.structure)
  {
    var entries := [
      ("cluster_id", Int(clusterId)),
      ("label", if parsed.labelText.Some? then Str(parsed.labelText.value) else Null),
      ("traits", StrList(parsed.traits)),
      ("structure", Str(parsed.structure))
    ];
    CleanStrList(parsed.traits);
    forall i | 0 <= i < 4 ensures CleanForYaml(entries[i].1) == entries[i].1 { }
    assert CleanForYaml(Dict(entries)).entries == entries;
  }

  /**
   * The draft for one cluster, or `None` when the posts cannot be extracted
   * or the model call fails (both raise and end the run).
   */
  function Draft(df: PostTable, clusterId: int, respond: int -> Option<string>): Option<Value> {
    match ExtractTopPosts(df, clusterId, 3)
    case None => None
    case Some(_) =>
      match respond(clusterId)
      case None => None
      case Some(reply) => Some(DraftRecord(clusterId, Parse(reply)))
  }

  /**
   * The drafts written for `ids` on top of `drafts`, and the id of the cluster
   * at which the run stopped, if it did.
   */
  function LabelFrom(df: PostTable, ids: seq<int>, respond: int -> Option<string>, drafts: map<string, Value>): (map<string, Value>, Option<int>)
    decreases |ids|
  {
    if ids == [] then (drafts, None)
    else
      match Draft(df, ids[0], respond)
      case None => (drafts, Some(ids[0]))
      case Some(record) => LabelFrom(df, ids[1..], respond, drafts[DraftName(ids[0], FloatIds(df.rows)) := record])
  }

  /** `main`: the drafts written, in cluster order, and where the run stopped. */
  function LabelAll(df: PostTable, respond: int -> Option<string>): (map<string, Value>, Option<int>) {
    LabelFrom(df, ClusterIds(df.rows), respond, map[])
  }

  /** The loop of `main` over the cluster ids. */
  method LabelClusters(df: PostTable, respond: int -> Option<string>) returns (drafts: map<string, Value>, stoppedAt: Option<int>)
    ensures (drafts, stoppedAt) == LabelAll(df, respond)
  {
    var ids := ClusterIds(df.rows);
    drafts := map[];
    var i := 0;
    while i < |ids|
      invariant 0 <= i <= |ids|
      invariant LabelFrom(df, ids[i..], respond, drafts) == LabelAll(df, respond)
    {
      var posts := ExtractTopPosts(df, ids[i], 3);
      if posts.None? {
        return drafts, Some(ids[i]);
      }
      var reply := respond(ids[i]);
      if reply.None? {
        return drafts, Some(ids[i]);
      }
      var parsed := ParseLlmOutput(reply.value);
      drafts := drafts[DraftName(ids[i], FloatIds(df.rows)) := DraftRecord(ids[i], parsed)];
      assert ids[i..][1..] == ids[i + 1..];
      i := i + 1;
    }
    stoppedAt := None;
  }

  /** Every draft is stored under the file name of the cluster id it holds. */
  ghost predicate DraftsHoldIds(m: map<string, Value>, asFloat: bool) {
    forall c :: DraftName(c, asFloat) in m ==>
      m[DraftName(c, asFloat)].Dict? && |m[DraftName(c, asFloat)].entries| == 4 && m[DraftName(c, asFloat)].entries[0].1 == Int(c)
  }

  /**
   * What the drafts `out` written for `ids` on top of `drafts` satisfy: the
   * earlier drafts stay, new ones appear only under the file names of `ids`,
   * each holds its own cluster id, a run that does not stop writes one for
   * every id of `ids`, and one that stops does so at one of them.
   */
  ghost predicate LabelFacts(drafts: map<string, Value>, ids: seq<int>, out: (map<string, Value>, Option<int>), asFloat: bool) {
    && drafts.Keys <= out.0.Keys
    && (forall k :: k in out.0 && k !in drafts ==> exists c :: c in ids && k == DraftName(c, asFloat))
    && (DraftsHoldIds(drafts, asFloat) ==> DraftsHoldIds(out.0, asFloat))
    && (out.1.None? ==> forall c :: c in ids ==> DraftName(c, asFloat) in out.0)
    && (out.1.Some? ==> out.1.value in ids)
  }

  /**
   * The drafts for `ids` are written on top of the earlier ones and only
   * under the file names of `ids`; each holds its own cluster id; a run that
   * does not stop writes one for every id of `ids`, and one that stops does so
   * at one of them.
   */
  lemma {:induction false} LabelFromDrafts(df: PostTable, ids: seq<int>, respond: int -> Option<string>, drafts: map<string, Value>)
    ensures LabelFacts(drafts, ids, LabelFrom(df, ids, respond, drafts), FloatIds(df.rows))
    decreases |ids|
  {
    if ids == [] {
      assert LabelFrom(df, ids, respond, drafts) == (drafts, None);
    } else {
      match Draft(df, ids[0], respond)
      case None =>
        assert LabelFrom(df, ids, respond, drafts) == (drafts, Some(ids[0]));
      case Some(record) =>
        var next := drafts[DraftName(ids[0], FloatIds(df.rows)) := record];
        LabelFromDrafts(df, ids[1..], respond, next);
        DraftRecordShape(ids[0], Parse(respond(ids[0]).value));
        LabelStep(drafts, ids, record, LabelFrom(df, ids[1..], respond, next), FloatIds(df.rows));
    }
  }

  /** One draft written, then the rest: the facts compose. */
  lemma LabelStep(drafts: map<string, Value>, ids: seq<int>, record: Value, out: (map<string, Value>, Option<int>), asFloat: bool)
    requires ids != [] && record.Dict? && |record.entries| == 4 && record.entries[0].1 == Int(ids[0])
    requires LabelFacts(drafts[DraftName(ids[0], asFloat) := record], ids[1..], out, asFloat)
    ensures LabelFacts(drafts, ids, out, asFloat)
  {
    var next := drafts[DraftName(ids[0], asFloat) := record];
    if DraftsHoldIds(drafts, asFloat) {
      forall c | DraftName(c, asFloat) in next
        ensures next[DraftName(c, asFloat)].Dict? && |next[DraftName(c, asFloat)].entries| == 4 && next[DraftName(c, asFloat)].entries[0].1 == Int(c)
      {
        if DraftName(c, asFloat) == DraftName(ids[0], asFloat) {
          DraftNameInjective(c, ids[0], asFloat);
        }
      }
    }
  }

  /**
   * `main` drafts only the non-negative cluster ids of the table, writes each
   * one's record under its own file name, and drafts all of them unless a
   * cluster stops the run.
   */
  lemma LabelAllDrafts(df: PostTable, respond: int -> Option<string>)
    ensures forall k :: k in LabelAll(df, respond).0 ==> exists c :: c >= 0 && HasCluster(df.rows, c) && k == DraftName(c, FloatIds(df.rows))
    ensures DraftsHoldIds(LabelAll(df, respond).0, FloatIds(df.rows))
    ensures LabelAll(df, respond).1.None? ==> forall c :: c >= 0 && HasCluster(df.rows, c) ==> DraftName(c, FloatIds(df.rows)) in LabelAll(df, respond).0
    ensures LabelAll(df, respond).1.Some? ==> LabelAll(df, respond).1.value >= 0
  {
    LabelFromDrafts(df, ClusterIds(df.rows), respond, map[]);
  }

  /** The results of `Draft` for each of `ids`, in order. */
  function DraftsOf(df: PostTable, ids: seq<int>, respond: int -> Option<string>): (ds: seq<Option<Value>>)
    ensures |ds| == |ids|
    ensures forall j :: 0 <= j < |ids| ==> ds[j] == Draft(df, ids[j], respond)
  {
    seq(|ids|, j requires 0 <= j < |ids| => Draft(df, ids[j], respond))
  }

  /** The draft file names of `ids`, in order. */
  function NamesOf(ids: seq<int>, asFloat: bool): (names: seq<string>)
    ensures |names| == |ids|
    ensures forall j :: 0 <= j < |ids| ==> names[j] == DraftName(ids[j], asFloat)
  {
    seq(|ids|, j requires 0 <= j < |ids| => DraftName(ids[j], asFloat))
  }

  /** How many of `ds`, from the front, are present before the first that is not. */
  function Leading(ds: seq<Option<Value>>): (n: nat)
    ensures n <= |ds|
    ensures forall j :: 0 <= j < n ==> ds[j].Some?
    ensures n < |ds| ==> ds[n].None?
    decreases |ds|
  {
    if ds == [] || ds[0].None? then 0 else 1 + Leading(ds[1..])
  }

  /** Two equal file names always carry the same draft. */
  predicate NamesDetermine(names: seq<string>, ds: seq<Option<Value>>)
    requires |names| == |ds|
  {
    forall i, j :: 0 <= i < |ds| && 0 <= j < |ds| && names[i] == names[j] ==> ds[i] == ds[j]
  }

  /**
   * What writing the leading present drafts `ds` under `names` on top of
   * `drafts` gives: each of them under its own name, every other key as it
   * was, and no other key.
   */
  ghost predicate Written(names: seq<string>, ds: seq<Option<Value>>, drafts: map<string, Value>, out: map<string, Value>)
    requires |names| == |ds|
  {
    WrittenEach(names, ds, out) && WrittenKeeps(names, ds, drafts, out) && WrittenOnly(names, ds, drafts, out)
  }

  /** Each leading present draft is under its own name. */
  ghost predicate WrittenEach(names: seq<string>, ds: seq<Option<Value>>, out: map<string, Value>)
    requires |names| == |ds|
  {
    forall j :: 0 <= j < Leading(ds) ==> names[j] in out && out[names[j]] == ds[j].value
  }

  /** Every earlier key that none of them names is kept. */
  ghost predicate WrittenKeeps(names: seq<string>, ds: seq<Option<Value>>, drafts: map<string, Value>, out: map<string, Value>)
    requires |names| == |ds|
  {
    forall k :: k in drafts && (forall j :: 0 <= j < Leading(ds) ==> k != names[j]) ==> k in out && out[k] == drafts[k]
  }

  /** There is no other key. */
  ghost predicate WrittenOnly(names: seq<string>, ds: seq<Option<Value>>, drafts: map<string, Value>, out: map<string, Value>)
    requires |names| == |ds|
  {
    forall k :: k in out ==> k in drafts || exists j :: 0 <= j < Leading(ds) && k == names[j]
  }

  /** One draft written, then the rest: what each file holds composes. */
  lemma WrittenStep(names: seq<string>, ds: seq<Option<Value>>, drafts: map<string, Value>, out: map<string, Value>)
    requires |names| == |ds| && ds != [] && ds[0].Some? && NamesDetermine(names, ds)
    requires Written(names[1..], ds[1..], drafts[names[0] := ds[0].value], out)
    ensures Written(names, ds, drafts, out)
  {
    WrittenEachStep(names, ds, drafts, out);
    WrittenKeepsStep(names, ds, drafts, out);
    WrittenOnlyStep(names, ds, drafts, out);
  }

  lemma WrittenEachStep(names: seq<string>, ds: seq<Option<Value>>, drafts: map<string, Value>, out: map<string, Value>)
    requires |names| == |ds| && ds != [] && ds[0].Some? && NamesDetermine(names, ds)
    requires WrittenEach(names[1..], ds[1..], out) && WrittenKeeps(names[1..], ds[1..], drafts[names[0] := ds[0].value], out)
    ensures WrittenEach(names, ds, out)
  {
    var m := Leading(ds[1..]);
    assert Leading(ds) == m + 1;
    assert forall j :: 0 < j < m + 1 ==> names[j] == names[1..][j - 1] && ds[j] == ds[1..][j - 1];
    if exists j :: 0 <= j < m && names[0] == names[1..][j] {
      var j :| 0 <= j < m && names[0] == names[1..][j];
      assert ds[0] == ds[j + 1];
    }
  }

  lemma WrittenKeepsStep(names: seq<string>, ds: seq<Option<Value>>, drafts: map<string, Value>, out: map<string, Value>)
    requires |names| == |ds| && ds != [] && ds[0].Some?
    requires WrittenKeeps(names[1..], ds[1..], drafts[names[0] := ds[0].value], out)
    ensures WrittenKeeps(names, ds, drafts, out)
  {
    var m := Leading(ds[1..]);
    assert Leading(ds) == m + 1;
    forall k | k in drafts && (forall j :: 0 <= j < m + 1 ==> k != names[j]) ensures k in out && out[k] == drafts[k] {
      assert k != names[0];
      assert forall j :: 0 <= j < m ==> k != names[1..][j] by {
        assert forall j :: 0 <= j < m ==> names[1..][j] == names[j + 1];
      }
    }
  }

  lemma WrittenOnlyStep(names: seq<string>, ds: seq<Option<Value>>, drafts: map<string, Value>, out: map<string, Value>)
    requires |names| == |ds| && ds != [] && ds[0].Some?
    requires WrittenOnly(names[1..], ds[1..], drafts[names[0] := ds[0].value], out)
    ensures WrittenOnly(names, ds, drafts, out)
  {
    var m := Leading(ds[1..]);
    assert Leading(ds) == m + 1;
    forall k | k in out ensures k in drafts || exists j :: 0 <= j < m + 1 && k == names[j] {
      if k !in drafts && k != names[0] {
        var j :| 0 <= j < m && k == names[1..][j];
        assert k == names[j + 1];
      }
    }
  }

  /** Distinct cluster ids have distinct file names, so a file name fixes its draft. */
  lemma DraftNamesDetermine(df: PostTable, ids: seq<int>, respond: int -> Option<string>)
    ensures NamesDetermine(NamesOf(ids, FloatIds(df.rows)), DraftsOf(df, ids, respond))
  {
    var names, ds := NamesOf(ids, FloatIds(df.rows)), DraftsOf(df, ids, respond);
    forall i, j | 0 <= i < |ds| && 0 <= j < |ds| && names[i] == names[j] ensures ds[i] == ds[j] {
      DraftNameInjective(ids[i], ids[j], FloatIds(df.rows));
    }
  }

  /**
   * The loop of `main` over drafts already made: `ds[j]` is the draft of
   * `ids[j]`, to be written under `names[j]`; the loop stops at the first
   * missing one.
   */
  function WriteLeading(names: seq<string>, ds: seq<Option<Value>>, ids: seq<int>, drafts: map<string, Value>): (map<string, Value>, Option<int>)
    requires |names| == |ds| == |ids|
    decreases |ds|
  {
    if ds == [] then (drafts, None)
    else if ds[0].None? then (drafts, Some(ids[0]))
    else WriteLeading(names[1..], ds[1..], ids[1..], drafts[names[0] := ds[0].value])
  }

  /** Running the loop of `main` is writing the drafts of `ids`, made one by one. */
  lemma {:induction false} LabelFromWrites(df: PostTable, ids: seq<int>, respond: int -> Option<string>, drafts: map<string, Value>)
    ensures LabelFrom(df, ids, respond, drafts) == WriteLeading(NamesOf(ids, FloatIds(df.rows)), DraftsOf(df, ids, respond), ids, drafts)
    decreases |ids|
  {
    if ids != [] {
      var names, ds := NamesOf(ids, FloatIds(df.rows)), DraftsOf(df, ids, respond);
      assert DraftsOf(df, ids[1..], respond) == ds[1..];
      assert NamesOf(ids[1..], FloatIds(df.rows)) == names[1..];
      if ds[0].Some? {
        LabelFromWrites(df, ids[1..], respond, drafts[names[0] := ds[0].value]);
      }
    }
  }

  /**
   * The loop stops exactly at the first missing draft; every draft before it
   * is under its own name; every other key keeps its earlier draft; and there
   * is no other key.
   */
  lemma {:induction false} WriteLeadingStopsFirst(names: seq<string>, ds: seq<Option<Value>>, ids: seq<int>, drafts: map<string, Value>)
    requires |names| == |ds| == |ids| && NamesDetermine(names, ds)
    ensures var n := Leading(ds);
      WriteLeading(names, ds, ids, drafts).1 == (if n < |ids| then Some(ids[n]) else None)
    ensures Written(names, ds, drafts, WriteLeading(names, ds, ids, drafts).0)
    decreases |ds|
  {
    if ds != [] && ds[0].Some? {
      var next := drafts[names[0] := ds[0].value];
      assert NamesDetermine(names[1..], ds[1..]) by {
        assert forall j :: 0 <= j < |ds| - 1 ==> names[1..][j] == names[j + 1] && ds[1..][j] == ds[j + 1];
      }
      WriteLeadingStopsFirst(names[1..], ds[1..], ids[1..], next);
      assert Leading(ds) == 1 + Leading(ds[1..]);
      assert forall j :: 0 < j < |ids| ==> ids[j] == ids[1..][j - 1];
      WrittenStep(names, ds, drafts, WriteLeading(names[1..], ds[1..], ids[1..], next).0);
    }
  }

  /** A present draft is `DraftRecord` of the cluster id and its parsed reply. */
  lemma DraftIsRecord(df: PostTable, clusterId: int, respond: int -> Option<string>)
    ensures Draft(df, clusterId, respond).Some? ==>
      respond(clusterId).Some? && Draft(df, clusterId, respond).value == DraftRecord(clusterId, Parse(respond(clusterId).value))
  {
  }

  /**
   * `main` visits the cluster ids in ascending order and stops at the first
   * one that has no draft; every cluster before it has `DraftRecord` of its
   * id and its parsed reply under its own file name, and nothing else is
   * written.
   */
  lemma LabelAllStopsFirst(df: PostTable, respond: int -> Option<string>)
    ensures Increasing(ClusterIds(df.rows))
    ensures var ids := ClusterIds(df.rows); var n := Leading(DraftsOf(df, ids, respond));
      && LabelAll(df, respond).1 == (if n < |ids| then Some(ids[n]) else None)
      && Written(NamesOf(ids, FloatIds(df.rows)), DraftsOf(df, ids, respond), map[], LabelAll(df, respond).0)
  {
    var ids := ClusterIds(df.rows);
    LabelFromWrites(df, ids, respond, map[]);
    DraftNamesDetermine(df, ids, respond);
    WriteLeadingStopsFirst(NamesOf(ids, FloatIds(df.rows)), DraftsOf(df, ids, respond), ids, map[]);
  }
}
