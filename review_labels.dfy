/**
 * The interactive review of drafted cluster labels.
 *
 * Three stores of YAML records, each keyed by file name: the drafts, the
 * finalised labels and the backups. Each draft gets one decision: accept
 * (back it up, then move it to the finals, asking before it replaces a final
 * of the same name), edit (rewrite label, traits and structure in the draft,
 * a blank answer keeping the old value), skip, quit, or an answer that is none
 * of these. Every decision except quit appends one `(file, status)` pair to
 * the run summary, which is written out only when every draft has been seen.
 *
 * The console is the sequence of answers the operator will type; reading past
 * its end is Python's `EOFError`, which, like every other uncaught exception
 * here, ends the run (`Crash`).
 */
module ReviewLabels {
  import opened Common
  import opened Text
  import opened Values

  datatype Status = Accepted | Edited | Skipped | SkippedExists | SkippedInvalid | SkippedInvalidInput

  /** The status text printed and saved in the summary. */
  function StatusText(st: Status): string {
    match st
    case Accepted => "Accepted"
    case Edited => "Edited"
    case Skipped => "Skipped"
    case SkippedExists => "Skipped - Exists"
    case SkippedInvalid => "Skipped - Invalid"
    case SkippedInvalidInput => "Skipped - Invalid Input"
  }

  /** How one review ends: go on to the next draft, or stop the run (quit, or an exception). */
  datatype Flow = Continue | Quit | Crash

  datatype Store = Store(
    drafts: map<string, Value>,
    finals: map<string, Value>,
    backups: map<string, Value>,
    summary: seq<(string, Status)>,
    console: seq<string>)

  /** Two maps agree on key `f`: both lack it, or both hold the same record. */
  predicate SameAt(m1: map<string, Value>, m2: map<string, Value>, f: string) {
    (f in m1 <==> f in m2) && (f in m1 ==> m1[f] == m2[f])
  }

  /** No store changes at file `f`. */
  predicate Untouched(s: Store, t: Store, f: string) {
    SameAt(s.drafts, t.drafts, f) && SameAt(s.finals, t.finals, f) && SameAt(s.backups, t.backups, f)
  }

  /** `input().strip().lower()` */
  function Normalize(answer: string): string {
    Lower(Strip(answer))
  }

  /** The five ways `review_label` can read an answer. */
  datatype Choice = AcceptIt | EditIt | SkipIt | QuitIt | Unrecognised

  /** The decision an answer asks for; in batch mode a blank answer accepts. */
  function ChoiceOf(answer: string, defaultAccept: bool): Choice {
    var a := Normalize(answer);
    if a == "a" || (defaultAccept && a == "") then AcceptIt
    else if a == "e" then EditIt
    else if a == "s" then SkipIt
    else if a == "q" then QuitIt
    else Unrecognised
  }

  /** `[t.strip() for t in pieces if t.strip()]` */
  function KeepNonBlank(pieces: seq<string>): (traits: seq<string>)
    ensures |traits| <= |pieces|
    ensures forall i :: 0 <= i < |traits| ==> traits[i] != "" && IsStripped(traits[i])
    decreases |pieces|
  {
    if pieces == [] then []
    else
      var t := Strip(pieces[0]);
      var rest := KeepNonBlank(pieces[1..]);
      if t != "" then [t] + rest else rest
  }

  /** The traits typed at the edit prompt: the non-blank comma-separated pieces, stripped. */
  function EditedTraits(answer: string): (traits: seq<string>)
    ensures forall i :: 0 <= i < |traits| ==> traits[i] != "" && IsStripped(traits[i]) && ',' !in traits[i]
  {
    var pieces := SplitOn(answer, ',');
    KeepNonBlankChars(pieces, ',');
    KeepNonBlank(pieces)
  }

  lemma StripKeepsOut(s: string, c: char)
    requires c !in s
    ensures c !in Strip(s)
  {
    StripWithin(s);
  }

  lemma {:induction false} KeepNonBlankChars(pieces: seq<string>, c: char)
    requires forall i :: 0 <= i < |pieces| ==> c !in pieces[i]
    ensures forall i :: 0 <= i < |KeepNonBlank(pieces)| ==> c !in KeepNonBlank(pieces)[i]
    decreases |pieces|
  {
    if pieces != [] {
      StripKeepsOut(pieces[0], c);
      KeepNonBlankChars(pieces[1..], c);
    }
  }

  /** The record after an edit: label, traits and structure set from non-blank answers. */
  function EditEntries(entries: seq<(string, Value)>, newLabel: string, newTraits: string, newStructure: string)
    : seq<(string, Value)>
  {
    var e1 := if newLabel != "" then Set(entries, "label", Str(newLabel)) else entries;
    var e2 := if newTraits != "" then Set(e1, "traits", StrList(EditedTraits(newTraits))) else e1;
    if newStructure != "" then Set(e2, "structure", Str(newStructure)) else e2
  }

  /**
   * After an edit each of label, traits and structure holds its new value when
   * its (stripped) answer is not blank and keeps its old one otherwise; every
   * other key keeps its value.
   */
  lemma EditEntriesFields(entries: seq<(string, Value)>, newLabel: string, newTraits: string, newStructure: string)
    ensures var r := EditEntries(entries, newLabel, newTraits, newStructure);
      && Get(r, "label") == (if newLabel != "" then Some(Str(newLabel)) else Get(entries, "label"))
      && Get(r, "traits") == (if newTraits != "" then Some(StrList(EditedTraits(newTraits))) else Get(entries, "traits"))
      && Get(r, "structure") == (if newStructure != "" then Some(Str(newStructure)) else Get(entries, "structure"))
      && forall k :: k != "label" && k != "traits" && k != "structure" ==> Get(r, k) == Get(entries, k)
  {
    assert "label" != "traits" && "label" != "structure" && "traits" != "structure";
    SetIfFields(entries, newLabel != "", "label", Str(newLabel), newTraits != "", "traits", StrList(EditedTraits(newTraits)),
                newStructure != "", "structure", Str(newStructure));
  }

  /** Up to three assignments to distinct keys, each made only when its condition holds. */
  lemma SetIfFields(entries: seq<(string, Value)>, b1: bool, k1: string, v1: Value, b2: bool, k2: string, v2: Value,
                    b3: bool, k3: string, v3: Value)
    requires k1 != k2 && k1 != k3 && k2 != k3
    ensures var e1 := if b1 then Set(entries, k1, v1) else entries;
      var e2 := if b2 then Set(e1, k2, v2) else e1;
      var r := if b3 then Set(e2, k3, v3) else e2;
      && Get(r, k1) == (if b1 then Some(v1) else Get(entries, k1))
      && Get(r, k2) == (if b2 then Some(v2) else Get(entries, k2))
      && Get(r, k3) == (if b3 then Some(v3) else Get(entries, k3))
      && forall k :: k != k1 && k != k2 && k != k3 ==> Get(r, k) == Get(entries, k)
  {
  }

  /**
   * What one review may do: exactly one summary entry, for this file, unless the
   * run stops; only this file's records can change, and only when the review
   * does not stop the run; backups are never removed; a draft leaves the draft
   * store only as a backup and a final holding its content; an existing final
   * is replaced only after the confirmation 'y' (the answer at position
   * `confirm`); the console only shrinks.
   */
  ghost predicate Lawful(s: Store, file: string, confirm: nat, r: (Store, Flow)) {
    && (r.1 == Continue ==>
          |r.0.summary| == |s.summary| + 1 && r.0.summary[..|s.summary|] == s.summary && r.0.summary[|s.summary|].0 == file)
    && (r.1 != Continue ==>
          r.0.summary == s.summary && r.0.drafts == s.drafts && r.0.finals == s.finals && r.0.backups == s.backups)
    && (forall f :: f != file ==> Untouched(s, r.0, f))
    && s.backups.Keys <= r.0.backups.Keys
    && (file in s.drafts && file !in r.0.drafts ==>
          file in r.0.backups && r.0.backups[file] == s.drafts[file] && file in r.0.finals && r.0.finals[file] == s.drafts[file])
    && (file in s.finals && !SameAt(s.finals, r.0.finals, file) ==> confirm < |s.console| && Normalize(s.console[confirm]) == "y")
    && (r.0.finals != s.finals ==> r.0.summary == s.summary + [(file, Accepted)])
    && |r.0.console| <= |s.console|
  }

  /** Accepting: back the draft up, then move it into the finals. */
  function MoveToFinals(s: Store, file: string): Store
    requires file in s.drafts
  {
    var content := s.drafts[file];
    s.(backups := s.backups[file := content],
       finals := s.finals[file := content],
       drafts := s.drafts - {file},
       summary := s.summary + [(file, Accepted)])
  }

  function Accept(s: Store, file: string): (Store, Flow)
    requires file in s.drafts
  {
    if file !in s.finals then (MoveToFinals(s, file), Continue)
    else if s.console == [] then (s, Crash)
    else if Normalize(s.console[0]) != "y" then
      (s.(console := s.console[1..], summary := s.summary + [(file, SkippedExists)]), Continue)
    else (MoveToFinals(s.(console := s.console[1..]), file), Continue)
  }

  /** A review that stops the run having only read answers. */
  lemma LawfulStop(s: Store, file: string, t: Store, flow: Flow, confirm: nat)
    requires flow != Continue
    requires t.drafts == s.drafts && t.finals == s.finals && t.backups == s.backups && t.summary == s.summary
    requires |t.console| <= |s.console|
    ensures Lawful(s, file, confirm, (t, flow))
  {
  }

  /** A review that only records a status. */
  lemma LawfulRecord(s: Store, file: string, st: Status, confirm: nat)
    ensures Lawful(s, file, confirm, (s.(summary := s.summary + [(file, st)]), Continue))
  {
    assert (s.summary + [(file, st)])[..|s.summary|] == s.summary;
  }

  /** A review that rewrites only this file's draft and records one entry. */
  lemma LawfulRewrite(s: Store, file: string, v: Value, console: seq<string>, st: Status)
    requires |console| <= |s.console|
    ensures Lawful(s, file, 0, (s.(console := console, drafts := s.drafts[file := v], summary := s.summary + [(file, st)]), Continue))
  {
    var t := s.(console := console, drafts := s.drafts[file := v], summary := s.summary + [(file, st)]);
    assert t.summary[..|s.summary|] == s.summary;
  }

  /** The draft after the three edit answers (label, traits, structure), each stripped. */
  function EditedDraft(entries: seq<(string, Value)>, answers: seq<string>): Value
    requires |answers| >= 3
  {
    Dict(EditEntries(entries, Strip(answers[0]), Strip(answers[1]), Strip(answers[2])))
  }

  function Edit(s: Store, file: string, entries: seq<(string, Value)>): (Store, Flow) {
    if |s.console| < 3 then (s.(console := []), Crash)
    else (s.(console := s.console[3..], drafts := s.drafts[file := EditedDraft(entries, s.console)], summary := s.summary + [(file, Edited)]), Continue)
  }

  lemma AcceptLawful(s: Store, file: string)
    requires file in s.drafts
    ensures Lawful(s, file, 0, Accept(s, file))
  {
  }

  lemma EditLawful(s: Store, file: string, entries: seq<(string, Value)>)
    ensures Lawful(s, file, 0, Edit(s, file, entries))
  {
    if |s.console| < 3 {
      LawfulStop(s, file, s.(console := []), Crash, 0);
    } else {
      LawfulRewrite(s, file, EditedDraft(entries, s.console), s.console[3..], Edited);
    }
  }

  /** Under a lawful review every draft is still a draft or has a backup. */
  lemma LawfulKeepsDrafts(s: Store, file: string, confirm: nat, r: (Store, Flow), f: string)
    requires Lawful(s, file, confirm, r) && f in s.drafts
    ensures f in r.0.drafts || f in r.0.backups
  {
    if f != file {
      assert Untouched(s, r.0, f);
    }
  }

  /** Moving the confirmation answer one place later in the console. */
  lemma LawfulAfterAnswer(s: Store, file: string, r: (Store, Flow))
    requires s.console != []
    requires Lawful(s.(console := s.console[1..]), file, 0, r)
    ensures Lawful(s, file, 1, r)
  {
    var s1 := s.(console := s.console[1..]);
    forall f | f != file ensures Untouched(s, r.0, f) {
      assert Untouched(s1, r.0, f);
    }
  }

  /** The decision on a draft record once its answer has been read. */
  function Answered(s: Store, file: string, entries: seq<(string, Value)>, choice: Choice): (Store, Flow)
    requires file in s.drafts
  {
    match choice
    case AcceptIt => Accept(s, file)
    case EditIt => Edit(s, file, entries)
    case SkipIt => (s.(summary := s.summary + [(file, Skipped)]), Continue)
    case QuitIt => (s, Quit)
    case Unrecognised => (s.(summary := s.summary + [(file, SkippedInvalidInput)]), Continue)
  }

  /** `review_label(file_name, default_accept)`: one decision on one draft. */
  function Review(s: Store, file: string, defaultAccept: bool): (Store, Flow) {
    if file !in s.drafts then (s, Crash)
    else
      var data := s.drafts[file];
      if data.Null? then (s.(summary := s.summary + [(file, SkippedInvalid)]), Continue)
      else if !data.Dict? || s.console == [] then (s, Crash)
      else Answered(s.(console := s.console[1..]), file, data.entries, ChoiceOf(s.console[0], defaultAccept))
  }

  lemma AnsweredLawful(s: Store, file: string, entries: seq<(string, Value)>, choice: Choice)
    requires file in s.drafts
    ensures Lawful(s, file, 0, Answered(s, file, entries, choice))
  {
    match choice
    case AcceptIt => AcceptLawful(s, file);
    case EditIt => EditLawful(s, file, entries);
    case SkipIt => LawfulRecord(s, file, Skipped, 0);
    case QuitIt => LawfulStop(s, file, s, Quit, 0);
    case Unrecognised => LawfulRecord(s, file, SkippedInvalidInput, 0);
  }

  /**
   * Every review is lawful: exactly one summary entry, for this file, unless
   * the run stops; only this file's records change, and only when the run goes
   * on; no backup is removed; a draft leaves the draft store only as a backup
   * and a final holding its content; an existing final is replaced only after
   * the answer 'y' to the overwrite question.
   */
  lemma ReviewLawful(s: Store, file: string, defaultAccept: bool)
    ensures Lawful(s, file, 1, Review(s, file, defaultAccept))
  {
    if file !in s.drafts {
      LawfulStop(s, file, s, Crash, 1);
    } else if s.drafts[file].Null? {
      LawfulRecord(s, file, SkippedInvalid, 1);
    } else if !s.drafts[file].Dict? || s.console == [] {
      LawfulStop(s, file, s, Crash, 1);
    } else {
      var s1 := s.(console := s.console[1..]);
      AnsweredLawful(s1, file, s.drafts[file].entries, ChoiceOf(s.console[0], defaultAccept));
      LawfulAfterAnswer(s, file, Review(s, file, defaultAccept));
    }
  }

  /** The review loop over `files`, stopping at the first review that ends the run. */
  function ReviewAll(s: Store, files: seq<string>, defaultAccept: bool): (Store, Flow, nat)
    decreases |files|
  {
    if files == [] then (s, Continue, 0)
    else
      var step := Review(s, files[0], defaultAccept);
      if step.1 != Continue then (step.0, step.1, 0)
      else
        var rest := ReviewAll(step.0, files[1..], defaultAccept);
        (rest.0, rest.1, rest.2 + 1)
  }

  /**
   * The count the loop returns is the number of reviews that completed: all of
   * them exactly when the run was not stopped; the summary gains exactly that
   * many entries, naming the files in order.
   */
  lemma {:induction false} ReviewAllSummary(s: Store, files: seq<string>, defaultAccept: bool)
    ensures SummaryFacts(s, files, ReviewAll(s, files, defaultAccept))
    decreases |files|
  {
    if files != [] {
      var step := Review(s, files[0], defaultAccept);
      ReviewSummaryEntry(s, files[0], defaultAccept);
      var rest := ReviewAll(step.0, files[1..], defaultAccept);
      if step.1 == Continue {
        ReviewAllSummary(step.0, files[1..], defaultAccept);
      }
      SummaryStep(s, step.0, step.1, rest, files);
    }
  }

  /**
   * What a loop result `r` over `files` from `s` must satisfy: `r.2` reviews
   * completed, all of them unless stopped, each adding one summary entry for
   * its file, in order.
   */
  ghost predicate SummaryFacts(s: Store, files: seq<string>, r: (Store, Flow, nat)) {
    && r.2 <= |files|
    && (r.1 == Continue <==> r.2 == |files|)
    && |r.0.summary| == |s.summary| + r.2 && r.0.summary[..|s.summary|] == s.summary
    && forall j :: 0 <= j < r.2 ==> r.0.summary[|s.summary| + j].0 == files[j]
  }

  /** What one review does to the summary: one entry for its file, or none when it stops the run. */
  lemma ReviewSummaryEntry(s: Store, file: string, defaultAccept: bool)
    ensures var r := Review(s, file, defaultAccept);
      && (r.1 == Continue ==>
            |r.0.summary| == |s.summary| + 1 && r.0.summary[..|s.summary|] == s.summary && r.0.summary[|s.summary|].0 == file)
      && (r.1 != Continue ==> r.0.summary == s.summary)
  {
    ReviewLawful(s, file, defaultAccept);
  }

  /** One review followed by the rest of the loop: the summary facts compose. */
  lemma SummaryStep(s: Store, m: Store, flow: Flow, rest: (Store, Flow, nat), files: seq<string>)
    requires files != []
    requires flow == Continue ==>
      |m.summary| == |s.summary| + 1 && m.summary[..|s.summary|] == s.summary && m.summary[|s.summary|].0 == files[0]
    requires flow != Continue ==> m.summary == s.summary
    requires flow == Continue ==> SummaryFacts(m, files[1..], rest)
    ensures SummaryFacts(s, files, if flow != Continue then (m, flow, 0) else (rest.0, rest.1, rest.2 + 1))
  {
    if flow == Continue {
      var n := |s.summary|;
      var r := rest.0;
      var k := rest.2;
      assert r.summary[..n] == r.summary[..|m.summary|][..n];
      forall j | 0 <= j < k + 1 ensures r.summary[n + j].0 == files[j] {
        if j == 0 {
          assert r.summary[n] == r.summary[..|m.summary|][n];
        } else {
          assert files[1..][j - 1] == files[j];
        }
      }
    }
  }

  /**
   * No file outside those whose review completed has any record changed;
   * backups are never removed; a draft that is gone has a backup.
   */
  lemma {:induction false} ReviewAllUntouched(s: Store, files: seq<string>, defaultAccept: bool)
    ensures var r := ReviewAll(s, files, defaultAccept);
      && (forall f :: f !in files[..Min(r.2, |files|)] ==> Untouched(s, r.0, f))
      && s.backups.Keys <= r.0.backups.Keys
      && (forall f :: f in s.drafts && f !in r.0.drafts ==> f in r.0.backups)
    decreases |files|
  {
    if files != [] {
      var step := Review(s, files[0], defaultAccept);
      ReviewLawful(s, files[0], defaultAccept);
      if step.1 == Continue {
        ReviewAllSummary(step.0, files[1..], defaultAccept);
        ReviewAllUntouched(step.0, files[1..], defaultAccept);
        var rest := ReviewAll(step.0, files[1..], defaultAccept);
        UntouchedStep(s, step.0, rest.0, files, rest.2);
      }
    }
  }

  /** One completed review followed by `k` more: what each leaves alone composes. */
  lemma UntouchedStep(s: Store, m: Store, r: Store, files: seq<string>, k: nat)
    requires files != [] && Lawful(s, files[0], 1, (m, Continue))
    requires k <= |files| - 1
    requires forall f :: f !in files[1..][..k] ==> Untouched(m, r, f)
    requires m.backups.Keys <= r.backups.Keys
    requires forall f :: f in m.drafts && f !in r.drafts ==> f in r.backups
    ensures forall f :: f !in files[..k + 1] ==> Untouched(s, r, f)
    ensures s.backups.Keys <= r.backups.Keys
    ensures forall f :: f in s.drafts && f !in r.drafts ==> f in r.backups
  {
    assert files[..k + 1] == [files[0]] + files[1..][..k];
    forall f | f !in files[..k + 1] ensures Untouched(s, r, f) {
      assert f != files[0] && f !in files[1..][..k];
      assert Untouched(s, m, f);
    }
    forall f | f in s.drafts && f !in r.drafts ensures f in r.backups {
      LawfulKeepsDrafts(s, files[0], 1, (m, Continue), f);
    }
  }

  /** The names `main` reviews: `.yaml` files whose lower-cased name contains "draft". */
  predicate IsDraftName(f: string) {
    EndsWith(f, ".yaml") && Contains(Lower(f), "draft")
  }

  /** The draft list, in directory-listing order. */
  function DraftFiles(listing: seq<string>): (files: seq<string>)
    ensures |files| <= |listing|
    ensures forall f :: f in files <==> f in listing && IsDraftName(f)
    decreases |listing|
  {
    if listing == [] then []
    else
      var rest := DraftFiles(listing[1..]);
      assert forall f :: f in listing <==> f == listing[0] || f in listing[1..];
      if IsDraftName(listing[0]) then [listing[0]] + rest else rest
  }

  /** The text of `review_summary.txt`: one `status: file` line per entry. */
  function SummaryText(summary: seq<(string, Status)>): string
    decreases |summary|
  {
    if summary == [] then ""
    else StatusText(summary[0].1) + ": " + summary[0].0 + "\n" + SummaryText(summary[1..])
  }

  /** Answers to "Use Batch Accept Mode? [Y/n]" that choose batch mode. */
  predicate IsBatchAnswer(answer: string) {
    Normalize(answer) in {"", "y", "yes"}
  }

  /**
   * `main`: review every draft in listing order and, only if no review ended the
   * run, return the summary file's text. With no drafts nothing is read or written.
   */
  function RunReview(s: Store, listing: seq<string>): (r: (Store, Option<string>))
    ensures DraftFiles(listing) == [] ==> r == (s, None)
    ensures r.1.Some? ==> |r.0.summary| == |s.summary| + |DraftFiles(listing)|
    ensures r.1.Some? ==> r.1.value == SummaryText(r.0.summary)
    ensures forall f :: f in s.drafts && f !in r.0.drafts ==> f in r.0.backups
  {
    var files := DraftFiles(listing);
    if files == [] || s.console == [] then (s, None)
    else
      var s1 := s.(console := s.console[1..]);
      var batch := IsBatchAnswer(s.console[0]);
      ReviewAllSummary(s1, files, batch);
      ReviewAllUntouched(s1, files, batch);
      var run := ReviewAll(s1, files, batch);
      (run.0, if run.1 == Continue then Some(SummaryText(run.0.summary)) else None)
  }

  // ---------------------------------------------------------------- the transitions, one by one

  /** An empty or null draft changes no store and is recorded as 'Skipped - Invalid'. */
  lemma InvalidDraft(s: Store, file: string, defaultAccept: bool)
    requires file in s.drafts && s.drafts[file] == Null
    ensures Review(s, file, defaultAccept) == (s.(summary := s.summary + [(file, SkippedInvalid)]), Continue)
  {
  }

  /** Accepting a draft with no final of that name: backup and final get the draft, the draft goes. */
  lemma AcceptNew(s: Store, file: string, defaultAccept: bool)
    requires file in s.drafts && s.drafts[file].Dict? && file !in s.finals
    requires s.console != [] && ChoiceOf(s.console[0], defaultAccept) == AcceptIt
    ensures var r := Review(s, file, defaultAccept);
      && r.1 == Continue
      && r.0.backups == s.backups[file := s.drafts[file]]
      && r.0.finals == s.finals[file := s.drafts[file]]
      && r.0.drafts == s.drafts - {file}
      && r.0.summary == s.summary + [(file, Accepted)]
      && r.0.console == s.console[1..]
  {
  }

  /** Accepting over an existing final without a 'y': nothing changes but the summary. */
  lemma AcceptExistingDeclined(s: Store, file: string, defaultAccept: bool)
    requires file in s.drafts && s.drafts[file].Dict? && file in s.finals
    requires |s.console| >= 2 && ChoiceOf(s.console[0], defaultAccept) == AcceptIt && Normalize(s.console[1]) != "y"
    ensures var r := Review(s, file, defaultAccept);
      && r.1 == Continue
      && r.0.drafts == s.drafts && r.0.finals == s.finals && r.0.backups == s.backups
      && r.0.summary == s.summary + [(file, SkippedExists)]
  {
  }

  /** Accepting over an existing final with 'y': the final is overwritten with the draft. */
  lemma AcceptExistingConfirmed(s: Store, file: string, defaultAccept: bool)
    requires file in s.drafts && s.drafts[file].Dict? && file in s.finals
    requires |s.console| >= 2 && ChoiceOf(s.console[0], defaultAccept) == AcceptIt && Normalize(s.console[1]) == "y"
    ensures var r := Review(s, file, defaultAccept);
      && r.1 == Continue
      && r.0.finals == s.finals[file := s.drafts[file]]
      && r.0.backups == s.backups[file := s.drafts[file]]
      && r.0.drafts == s.drafts - {file}
      && r.0.summary == s.summary + [(file, Accepted)]
  {
  }

  lemma NormalizeLetter(c: char)
    requires 'a' <= c <= 'z'
    ensures Normalize([c]) == [c]
  {
    StripOfStripped([c]);
  }

  /**
   * In batch mode a blank answer behaves exactly as typing 'a'; without batch
   * mode it is an invalid answer.
   */
  lemma BlankAnswer(s: Store, file: string)
    requires file in s.drafts && s.drafts[file].Dict?
    requires s.console != [] && Normalize(s.console[0]) == ""
    ensures Review(s, file, true) == Review(s.(console := ["a"] + s.console[1..]), file, true)
    ensures Review(s, file, false) == (s.(console := s.console[1..], summary := s.summary + [(file, SkippedInvalidInput)]), Continue)
  {
    NormalizeLetter('a');
    var t := s.(console := ["a"] + s.console[1..]);
    assert t.console[1..] == s.console[1..];
    assert ChoiceOf(t.console[0], true) == AcceptIt;
  }

  /** Editing rewrites the draft in place; the record never reaches the finals or the backups. */
  lemma EditStaysDraft(s: Store, file: string, defaultAccept: bool)
    requires file in s.drafts && s.drafts[file].Dict?
    requires |s.console| >= 4 && ChoiceOf(s.console[0], defaultAccept) == EditIt
    ensures var r := Review(s, file, defaultAccept);
      && r.1 == Continue
      && r.0.drafts == s.drafts[file := EditedDraft(s.drafts[file].entries, s.console[1..])]
      && r.0.finals == s.finals && r.0.backups == s.backups
      && r.0.summary == s.summary + [(file, Edited)]
      && r.0.console == s.console[4..]
  {
    var s1 := s.(console := s.console[1..]);
    assert s1.console[3..] == s.console[4..];
    assert Review(s, file, defaultAccept) == Edit(s1, file, s.drafts[file].entries);
  }

  /** Skip and unrecognised answers change no store. */
  lemma SkipAndInvalidInput(s: Store, file: string, defaultAccept: bool)
    requires file in s.drafts && s.drafts[file].Dict? && s.console != []
    requires ChoiceOf(s.console[0], defaultAccept) in {SkipIt, Unrecognised}
    ensures var r := Review(s, file, defaultAccept);
      && r.1 == Continue
      && r.0.drafts == s.drafts && r.0.finals == s.finals && r.0.backups == s.backups
      && r.0.summary == s.summary + [(file, if ChoiceOf(s.console[0], defaultAccept) == SkipIt then Skipped else SkippedInvalidInput)]
  {
  }

  /** Quit records nothing and changes no store. */
  lemma QuitRecordsNothing(s: Store, file: string, defaultAccept: bool)
    requires file in s.drafts && s.drafts[file].Dict? && s.console != []
    requires ChoiceOf(s.console[0], defaultAccept) == QuitIt
    ensures Review(s, file, defaultAccept) == (s.(console := s.console[1..]), Quit)
  {
  }

  /**
   * Quitting after k completed reviews: the summary holds exactly those k
   * entries, no summary file is written, and every draft from the quitting one
   * on is left as it was.
   */
  lemma {:induction false} QuitAfter(s: Store, listing: seq<string>)
    requires s.console != []
    requires ReviewAll(s.(console := s.console[1..]), DraftFiles(listing), IsBatchAnswer(s.console[0])).1 == Quit
    ensures var files := DraftFiles(listing);
      var k := ReviewAll(s.(console := s.console[1..]), files, IsBatchAnswer(s.console[0])).2;
      var r := RunReview(s, listing);
      && k < |files|
      && r.1 == None
      && |r.0.summary| == |s.summary| + k
      && forall f :: f in s.drafts && f !in files[..k] ==> f in r.0.drafts && r.0.drafts[f] == s.drafts[f]
  {
    var files := DraftFiles(listing);
    var s1 := s.(console := s.console[1..]);
    var batch := IsBatchAnswer(s.console[0]);
    ReviewAllSummary(s1, files, batch);
    ReviewAllUntouched(s1, files, batch);
    var run := ReviewAll(s1, files, batch);
    assert files != [] && RunReview(s, listing) == (run.0, None);
    forall f | f in s.drafts && f !in files[..run.2] ensures f in run.0.drafts && run.0.drafts[f] == s.drafts[f] {
      assert Untouched(s1, run.0, f);
    }
  }

  // ---------------------------------------------------------------- the session object

  /** The module-level state of one review session: the three directories, the summary, the console. */
  class ReviewSession {
    var drafts: map<string, Value>
    var finals: map<string, Value>
    var backups: map<string, Value>
    var summary: seq<(string, Status)>
    var console: seq<string>
    var summaryFile: Option<string>

    function Snapshot(): Store
      reads this
    {
      Store(drafts, finals, backups, summary, console)
    }

    constructor (drafts: map<string, Value>, finals: map<string, Value>, backups: map<string, Value>, console: seq<string>)
      ensures Snapshot() == Store(drafts, finals, backups, [], console)
      ensures summaryFile == None
    {
      this.drafts := drafts;
      this.finals := finals;
      this.backups := backups;
      this.summary := [];
      this.console := console;
      this.summaryFile := None;
    }

    /** `input()`: the next answer, or None at the end of input. */
    method Input() returns (answer: Option<string>)
      modifies this`console
      ensures old(console) == [] ==> answer == None && console == []
      ensures old(console) != [] ==> answer == Some(old(console)[0]) && console == old(console)[1..]
    {
      if console == [] {
        answer := None;
      } else {
        answer := Some(console[0]);
        console := console[1..];
      }
    }

    /** The accept branch: confirm an overwrite, back up, then move the draft. */
    method AcceptDraft(fileName: string) returns (flow: Flow)
      requires fileName in drafts
      modifies this
      ensures (Snapshot(), flow) == Accept(old(Snapshot()), fileName)
      ensures summaryFile == old(summaryFile)
    {
      if fileName in finals {
        var overwrite := Input();
        if overwrite.None? {
          return Crash;
        }
        if Normalize(overwrite.value) != "y" {
          summary := summary + [(fileName, SkippedExists)];
          return Continue;
        }
      }
      backups := backups[fileName := drafts[fileName]];
      finals := finals[fileName := drafts[fileName]];
      drafts := drafts - {fileName};
      summary := summary + [(fileName, Accepted)];
      flow := Continue;
    }

    /** The edit branch: read the three answers, then rewrite the draft. */
    method EditDraft(fileName: string, entries: seq<(string, Value)>) returns (flow: Flow)
      requires fileName in drafts
      modifies this
      ensures (Snapshot(), flow) == Edit(old(Snapshot()), fileName, entries)
      ensures summaryFile == old(summaryFile)
    {
      if |console| < 3 {
        // one of the three `input()` calls meets the end of input
        console := [];
        return Crash;
      }
      // the three `input()` answers: label, traits, structure
      var record := EditedDraft(entries, console);
      console := console[3..];
      drafts := drafts[fileName := record];
      summary := summary + [(fileName, Edited)];
      flow := Continue;
    }

    method ReviewLabel(fileName: string, defaultAccept: bool) returns (flow: Flow)
      modifies this
      ensures (Snapshot(), flow) == Review(old(Snapshot()), fileName, defaultAccept)
      ensures summaryFile == old(summaryFile)
    {
      if fileName !in drafts {
        return Crash;
      }
      var data := drafts[fileName];
      if data.Null? {
        summary := summary + [(fileName, SkippedInvalid)];
        return Continue;
      }
      if !data.Dict? {
        return Crash;
      }
      var answer := Input();
      if answer.None? {
        return Crash;
      }
      match ChoiceOf(answer.value, defaultAccept)
      case AcceptIt =>
        flow := AcceptDraft(fileName);
      case EditIt =>
        flow := EditDraft(fileName, data.entries);
      case SkipIt =>
        summary := summary + [(fileName, Skipped)];
        flow := Continue;
      case QuitIt =>
        flow := Quit;
      case Unrecognised =>
        summary := summary + [(fileName, SkippedInvalidInput)];
        flow := Continue;
    }

    method Run(listing: seq<string>)
      modifies this
      ensures Snapshot() == RunReview(old(Snapshot()), listing).0
      ensures summaryFile == if RunReview(old(Snapshot()), listing).1.Some? then RunReview(old(Snapshot()), listing).1 else old(summaryFile)
    {
      var files := DraftFiles(listing);
      if files == [] {
        return;
      }
      var batchChoice := Input();
      if batchChoice.None? {
        return;
      }
      var batch := IsBatchAnswer(batchChoice.value);
      ghost var start := Snapshot();
      ghost var whole := ReviewAll(start, files, batch);
      var i := 0;
      while i < |files|
        invariant 0 <= i <= |files|
        invariant summaryFile == old(summaryFile)
        invariant var rest := ReviewAll(Snapshot(), files[i..], batch);
          rest.0 == whole.0 && rest.1 == whole.1 && rest.2 + i == whole.2
      {
        var flow := ReviewLabel(files[i], batch);
        if flow != Continue {
          return;
        }
        assert files[i..][1..] == files[i + 1..];
        i := i + 1;
      }
      summaryFile := Some(SummaryText(summary));
    }
  }
}
