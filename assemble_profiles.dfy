/**
 * `interpretation/assemble_profiles.py`: each final cluster label (a YAML
 * document) becomes a Markdown profile `cluster_<id>.md`. The parsed YAML of
 * each file, or `None` when reading or parsing it raised, and the clock
 * reading taken while it is rendered are inputs; the profiles directory is a
 * map from file name to contents.
 */
module AssembleProfiles {
  import opened Common
  import opened Text
  import opened Values

  /** `load_yaml`: the parsed document, or `{}` when it is empty or the load raised. */
  function LoadYaml(loaded: Option<Value>): (data: Value)
    ensures loaded.None? || loaded == Some(Null) ==> data == Dict([])
    ensures data.Null? == false
    ensures data != Dict([]) ==> loaded == Some(data)
  {
    match loaded
    case None => Dict([])
    case Some(v) => if v.Null? then Dict([]) else v
  }

  // ---------------------------------------------------------------- the traits line

  /** The strings of a list, or `None` when an item is not a string. */
  function StrItems(items: seq<Value>): (r: Option<seq<string>>)
    ensures r.Some? ==> |r.value| == |items| && forall i :: 0 <= i < |items| ==> items[i] == Str(r.value[i])
    ensures r.None? ==> exists i :: 0 <= i < |items| && !items[i].Str?
    decreases |items|
  {
    if items == [] then Some([])
    else if !items[0].Str? then None
    else
      match StrItems(items[1..])
      case None => None
      case Some(rest) => Some([items[0].s] + rest)
  }

  /** Iterating a string yields its characters, each as a one-character string. */
  function Chars(s: string): (r: seq<string>)
    ensures |r| == |s| && forall i :: 0 <= i < |s| ==> r[i] == [s[i]]
  {
    seq(|s|, i requires 0 <= i < |s| => [s[i]])
  }

  /**
   * `', '.join(traits) if traits else 'None listed'`: a list of strings, a
   * string (its characters) or a dictionary (its keys) are joined; `None`
   * is the `TypeError` of a list holding a non-string or of a number.
   */
  function TraitsText(traits: Value): Option<string> {
    if !Truthy(traits) then Some("None listed")
    else
      match traits
      case List(items) =>
        (match StrItems(items)
         case None => None
         case Some(names) => Some(Join(", ", names)))
      case Str(s) => Some(Join(", ", Chars(s)))
      case Dict(entries) => Some(Join(", ", KeysOf(entries)))
      case _ => None
  }

  /**
   * An empty or absent traits value renders as `None listed`; a non-empty
   * list renders exactly when every item is a string, and then as the
   * `', '`-join of the items; a non-zero number always raises.
   */
  lemma TraitsTextCases(traits: Value)
    ensures !Truthy(traits) ==> TraitsText(traits) == Some("None listed")
    ensures traits.List? && traits.items != [] ==>
      (TraitsText(traits).Some? <==> forall i :: 0 <= i < |traits.items| ==> traits.items[i].Str?)
    ensures (traits.Int? || traits.Float? || traits.Decimal? || traits.Bool?) && Truthy(traits) ==> TraitsText(traits).None?
  {
  }

  /** A list of trait names renders as their `', '`-join, or `None listed` when there is none. */
  lemma TraitsOfNames(names: seq<string>)
    ensures TraitsText(StrList(names)) == Some(if names == [] then "None listed" else Join(", ", names))
  {
    var v := StrList(names);
    if names != [] {
      var r := StrItems(v.items);
      assert r.Some?;
      assert r.value == names;
    }
  }

  /**
   * A single string is iterated character by character: a non-empty string
   * renders as its characters separated by `, ` (`"ab"` as `a, b`).
   */
  lemma StringTraitsSplitChars(s: string)
    requires s != []
    ensures TraitsText(Str(s)).Some?
    ensures var r := TraitsText(Str(s)).value;
      && |r| == 3 * |s| - 2
      && (forall k :: 0 <= k < |s| ==> r[3 * k] == s[k])
      && (forall k :: 0 <= k < |s| - 1 ==> r[3 * k + 1] == ',' && r[3 * k + 2] == ' ')
  {
    JoinCharsShape(s);
  }

  lemma {:induction false} JoinCharsShape(s: string)
    requires s != []
    ensures var r := Join(", ", Chars(s));
      && |r| == 3 * |s| - 2
      && (forall k :: 0 <= k < |s| ==> r[3 * k] == s[k])
      && (forall k :: 0 <= k < |s| - 1 ==> r[3 * k + 1] == ',' && r[3 * k + 2] == ' ')
    decreases |s|
  {
    if |s| > 1 {
      JoinCharsShape(s[1..]);
      assert Chars(s)[1..] == Chars(s[1..]);
      var rest := Join(", ", Chars(s[1..]));
      var r := Join(", ", Chars(s));
      assert r == [s[0]] + ", " + rest;
      forall k | 1 <= k < |s| ensures r[3 * k] == s[k] {
        assert r[3 * k] == rest[3 * (k - 1)];
      }
      forall k | 1 <= k < |s| - 1 ensures r[3 * k + 1] == ',' && r[3 * k + 2] == ' ' {
        assert r[3 * k + 1] == rest[3 * (k - 1) + 1];
        assert r[3 * k + 2] == rest[3 * (k - 1) + 2];
      }
    }
  }

  // ---------------------------------------------------------------- the document

  const Diamond := "\U{1F539}"
  const Header := "# Cluster Profile: "
  const StructureHeading := "## " + Diamond + " Psychological Structure\n"
  const Footer := "\n\n---\n\n## " + Diamond + " Top Example Posts\n(*Placeholder: integrate top posts if available.*)\n\n---\n\n*Profile generated automatically by Standalone Complex Profiler.*\n"

  /** The part of the document between the label and the structure heading. */
  function Middle(id: string, stamp: string, traits: string): string {
    "\n\n**Cluster ID:** " + id + "  \n**Generated:** " + stamp + "\n\n---\n\n## " + Diamond + " Dominant Traits\n" + traits + "\n\n---\n\n"
  }

  /** The f-string of `assemble_markdown`, with its five fields already rendered. */
  function RenderProfile(labelText: string, id: string, stamp: string, traits: string, structure: string): string {
    Header + labelText + Middle(id, stamp, traits) + StructureHeading + structure + Footer
  }

  /** The first newline of `h + l + rest` is the one `rest` starts with. */
  lemma FirstNewline(h: string, l: string, rest: string)
    requires '\n' !in h && '\n' !in l && rest != [] && rest[0] == '\n'
    ensures IndexOf(h + l + rest, '\n') == |h| + |l|
    ensures (h + l + rest)[..|h| + |l|] == h + l
  {
    var doc := h + l + rest;
    var k := |h| + |l|;
    assert doc[k] == '\n';
    forall j | 0 <= j < k ensures doc[j] != '\n' {
      if j < |h| {
        assert doc[j] == h[j];
      } else {
        assert doc[j] == l[j - |h|];
      }
    }
    assert doc[..k] == h + l;
  }

  /**
   * The label can be read back from the document: when it holds no newline
   * it is exactly what follows the header on the first line.
   */
  lemma RenderLabelFirstLine(labelText: string, id: string, stamp: string, traits: string, structure: string)
    requires '\n' !in labelText
    ensures IndexOf(RenderProfile(labelText, id, stamp, traits, structure), '\n') == |Header| + |labelText|
    ensures RenderProfile(labelText, id, stamp, traits, structure)[..|Header| + |labelText|] == Header + labelText
  {
    var rest := Middle(id, stamp, traits) + StructureHeading + structure + Footer;
    assert RenderProfile(labelText, id, stamp, traits, structure) == Header + labelText + rest;
    assert rest[0] == '\n';
    assert '\n' !in Header;
    FirstNewline(Header, labelText, rest);
  }

  /** The structure text appears verbatim, between its heading and the fixed footer. */
  lemma RenderStructureVerbatim(labelText: string, id: string, stamp: string, traits: string, structure: string)
    ensures EndsWith(RenderProfile(labelText, id, stamp, traits, structure), StructureHeading + structure + Footer)
  {
    var doc := RenderProfile(labelText, id, stamp, traits, structure);
    var front := Header + labelText + Middle(id, stamp, traits);
    assert doc == front + (StructureHeading + structure + Footer);
  }

  /** The four fields `assemble_markdown` reads, rendered; `traits` is `None` when the join raises. */
  datatype Fields = Fields(labelText: string, id: string, traits: Option<string>, structure: string)

  /** `cluster_data.get(key, default)` for the four keys, each rendered as the f-string does. */
  function ProfileFields(entries: seq<(string, Value)>, repr: Value -> string): Fields {
    Fields(
      Display(GetOr(entries, "label", Str("No Label")), repr),
      Display(GetOr(entries, "cluster_id", Str("Unknown ID")), repr),
      TraitsText(GetOr(entries, "traits", List([]))),
      Display(GetOr(entries, "structure", Str("No structure description provided.")), repr))
  }

  /**
   * A missing key takes its default; a present key takes none, even when it
   * holds `None`, which renders as `None`; a string is rendered as it is.
   */
  lemma ProfileFieldsDefaults(entries: seq<(string, Value)>, repr: Value -> string)
    ensures Get(entries, "label").None? ==> ProfileFields(entries, repr).labelText == "No Label"
    ensures Get(entries, "cluster_id").None? ==> ProfileFields(entries, repr).id == "Unknown ID"
    ensures Get(entries, "traits").None? ==> ProfileFields(entries, repr).traits == Some("None listed")
    ensures Get(entries, "structure").None? ==> ProfileFields(entries, repr).structure == "No structure description provided."
    ensures Get(entries, "label") == Some(Null) ==> ProfileFields(entries, repr).labelText == "None"
    ensures forall s :: Get(entries, "label") == Some(Str(s)) ==> ProfileFields(entries, repr).labelText == s
    ensures forall s :: Get(entries, "structure") == Some(Str(s)) ==> ProfileFields(entries, repr).structure == s
    ensures forall v :: Get(entries, "traits") == Some(v) ==> ProfileFields(entries, repr).traits == TraitsText(v)
  {
  }

  /**
   * `assemble_markdown`: the document, or `None` for the `TypeError` of the
   * traits join. It depends on nothing but the record and the clock reading.
   */
  function AssembleMarkdown(entries: seq<(string, Value)>, stamp: string, repr: Value -> string): Option<string> {
    var f := ProfileFields(entries, repr);
    match f.traits
    case None => None
    case Some(t) => Some(RenderProfile(f.labelText, f.id, stamp, t, f.structure))
  }

  /** An empty record renders with every default. */
  lemma AssembleMarkdownDefaults(stamp: string, repr: Value -> string)
    ensures AssembleMarkdown([], stamp, repr) ==
      Some(RenderProfile("No Label", "Unknown ID", stamp, "None listed", "No structure description provided."))
  {
    ProfileFieldsDefaults([], repr);
  }

  /**
   * In the rendered document, a string label with no newline is the first
   * line after the header, and a string structure sits verbatim between its
   * heading and the footer.
   */
  lemma AssembleMarkdownVerbatim(entries: seq<(string, Value)>, stamp: string, repr: Value -> string, labelText: string, structure: string)
    requires AssembleMarkdown(entries, stamp, repr).Some?
    requires Get(entries, "label") == Some(Str(labelText)) && '\n' !in labelText
    requires Get(entries, "structure") == Some(Str(structure))
    ensures IndexOf(AssembleMarkdown(entries, stamp, repr).value, '\n') == |Header| + |labelText|
    ensures AssembleMarkdown(entries, stamp, repr).value[..|Header| + |labelText|] == Header + labelText
    ensures EndsWith(AssembleMarkdown(entries, stamp, repr).value, StructureHeading + structure + Footer)
  {
    var f := ProfileFields(entries, repr);
    ProfileFieldsDefaults(entries, repr);
    RenderLabelFirstLine(labelText, f.id, stamp, f.traits.value, structure);
    RenderStructureVerbatim(labelText, f.id, stamp, f.traits.value, structure);
  }

  // ---------------------------------------------------------------- process_clusters

  /** One YAML file of the finals directory: what loading it gave, and the clock reading when it is rendered. */
  datatype FinalFile = FinalFile(loaded: Option<Value>, stamp: string)

  /** What processing one file does: nothing, write one profile, or raise and end the run. */
  datatype Step = Skip | Write(name: string, doc: string) | Crash

  /** `f"cluster_{cluster_id}.md"` */
  function ProfileName(id: Value, repr: Value -> string): string {
    "cluster_" + Display(id, repr) + ".md"
  }

  /** Distinct integer cluster ids get distinct file names. */
  lemma ProfileNameInjective(a: int, b: int, repr: Value -> string)
    requires ProfileName(Int(a), repr) == ProfileName(Int(b), repr)
    ensures a == b
  {
    var na := IntToString(a);
    var nb := IntToString(b);
    assert ProfileName(Int(a), repr) == "cluster_" + na + ".md";
    assert ProfileName(Int(b), repr) == "cluster_" + nb + ".md";
    assert |na| == |nb|;
    assert na == ProfileName(Int(a), repr)[8..8 + |na|];
    assert nb == ProfileName(Int(b), repr)[8..8 + |nb|];
    IntToStringInjective(a, b);
  }

  /**
   * The body of the loop of `process_clusters` for one file: an empty or
   * unloadable document, or a falsy `cluster_id`, is skipped; a document
   * that is not a dictionary has no `.get` and raises.
   */
  function ProfileStep(file: FinalFile, repr: Value -> string): Step {
    var data := LoadYaml(file.loaded);
    if !Truthy(data) then Skip
    else if !data.Dict? then Crash
    else
      var id := GetOr(data.entries, "cluster_id", Null);
      if !Truthy(id) then Skip
      else
        match AssembleMarkdown(data.entries, file.stamp, repr)
        case None => Crash
        case Some(doc) => Write(ProfileName(id, repr), doc)
  }

  /**
   * `process_clusters` skips a file that failed to load, is empty, or has a
   * missing or falsy cluster id — `0` included — and never raises for it.
   */
  lemma ProfileStepSkips(file: FinalFile, repr: Value -> string)
    ensures file.loaded.None? || file.loaded == Some(Null) ==> ProfileStep(file, repr) == Skip
    ensures forall entries :: file.loaded == Some(Dict(entries)) && entries != [] ==>
      (ProfileStep(file, repr) == Skip <==> !Truthy(GetOr(entries, "cluster_id", Null)))
    ensures forall entries :: file.loaded == Some(Dict(entries)) && Get(entries, "cluster_id") == Some(Int(0)) ==>
      ProfileStep(file, repr) == Skip
  {
  }

  /** A written profile is named after the record's cluster id and is its rendered document. */
  lemma ProfileStepWrites(file: FinalFile, repr: Value -> string)
    ensures ProfileStep(file, repr).Write? ==>
      exists entries :: file.loaded == Some(Dict(entries)) &&
        Some(ProfileStep(file, repr).doc) == AssembleMarkdown(entries, file.stamp, repr) &&
        ProfileStep(file, repr).name == ProfileName(GetOr(entries, "cluster_id", Null), repr)
  {
    if ProfileStep(file, repr).Write? {
      var entries := LoadYaml(file.loaded).entries;
      assert file.loaded == Some(Dict(entries));
    }
  }

  /** The step of `process_clusters` for each file. */
  function Steps(repr: Value -> string): (step: FinalFile -> Step) {
    file => ProfileStep(file, repr)
  }

  predicate WritesTo(step: FinalFile -> Step, file: FinalFile, name: string) {
    step(file).Write? && step(file).name == name
  }

  /** The profiles written by the first `n` files, and whether one of them raised. */
  function ProcessUpTo(files: seq<FinalFile>, step: FinalFile -> Step, n: nat): (map<string, string>, bool)
    requires n <= |files|
  {
    if n == 0 then (map[], false)
    else
      var (written, crashed) := ProcessUpTo(files, step, n - 1);
      if crashed then (written, true)
      else
        match step(files[n - 1])
        case Skip => (written, false)
        case Write(name, doc) => (written[name := doc], false)
        case Crash => (written, true)
  }

  /** `process_clusters` over the files `glob` lists, in that order. */
  function ProcessClustersSpec(files: seq<FinalFile>, repr: Value -> string): (map<string, string>, bool) {
    ProcessUpTo(files, Steps(repr), |files|)
  }

  /** The loop over the files, each handled by `step`; `crashed` when one raised and ended the run. */
  method RunSteps(files: seq<FinalFile>, step: FinalFile -> Step) returns (profiles: map<string, string>, crashed: bool)
    ensures (profiles, crashed) == ProcessUpTo(files, step, |files|)
  {
    profiles := map[];
    crashed := false;
    for i := 0 to |files|
      invariant (profiles, false) == ProcessUpTo(files, step, i)
    {
      match step(files[i])
      case Skip =>
      case Write(name, doc) =>
        profiles := profiles[name := doc];
      case Crash =>
        CrashSticks(files, step, i + 1, |files|);
        crashed := true;
        return;
    }
  }

  /** `process_clusters`: nothing is written when the directory holds no YAML file. */
  method ProcessClusters(files: seq<FinalFile>, repr: Value -> string) returns (profiles: map<string, string>, crashed: bool)
    ensures (profiles, crashed) == ProcessClustersSpec(files, repr)
  {
    if |files| == 0 {
      return map[], false;
    }
    profiles, crashed := RunSteps(files, Steps(repr));
  }

  /** Once a file has raised, later files change nothing. */
  lemma {:induction false} CrashSticks(files: seq<FinalFile>, step: FinalFile -> Step, n: nat, m: nat)
    requires n <= m <= |files|
    requires ProcessUpTo(files, step, n).1
    ensures ProcessUpTo(files, step, m) == ProcessUpTo(files, step, n)
    decreases m - n
  {
    if n < m {
      CrashSticks(files, step, n, m - 1);
    }
  }

  /** A write at `i` that no later file among the first `n` overwrites. */
  predicate LastWrite(files: seq<FinalFile>, step: FinalFile -> Step, n: nat, i: nat)
    requires n <= |files|
  {
    i < n && step(files[i]).Write? &&
    forall j :: i < j < n ==> !WritesTo(step, files[j], step(files[i]).name)
  }

  /** The run raises exactly when one of the files does. */
  lemma {:induction false} ProcessUpToCrash(files: seq<FinalFile>, step: FinalFile -> Step, n: nat)
    requires n <= |files|
    ensures ProcessUpTo(files, step, n).1 <==> exists j :: 0 <= j < n && step(files[j]).Crash?
    decreases n
  {
    if n > 0 {
      ProcessUpToCrash(files, step, n - 1);
    }
  }

  /** When no file raises, the profiles are exactly the names the files write to. */
  lemma {:induction false} ProcessUpToNames(files: seq<FinalFile>, step: FinalFile -> Step, n: nat)
    requires n <= |files|
    ensures !ProcessUpTo(files, step, n).1 ==>
      forall name :: name in ProcessUpTo(files, step, n).0 <==> exists i :: 0 <= i < n && WritesTo(step, files[i], name)
    decreases n
  {
    if n > 0 {
      ProcessUpToNames(files, step, n - 1);
      var (written, crashed) := ProcessUpTo(files, step, n - 1);
      if !crashed && !step(files[n - 1]).Crash? {
        var now := ProcessUpTo(files, step, n).0;
        forall name ensures name in now <==> exists i :: 0 <= i < n && WritesTo(step, files[i], name) {
          if WritesTo(step, files[n - 1], name) {
            assert name in now;
          } else if name in written {
            var i :| 0 <= i < n - 1 && WritesTo(step, files[i], name);
            assert name in now;
          }
        }
      }
    }
  }

  /** When no file raises, each profile holds the document of the last file written under its name. */
  lemma {:induction false} ProcessUpToLastWrite(files: seq<FinalFile>, step: FinalFile -> Step, n: nat)
    requires n <= |files|
    ensures !ProcessUpTo(files, step, n).1 ==>
      forall i: nat :: LastWrite(files, step, n, i) ==>
        step(files[i]).name in ProcessUpTo(files, step, n).0 &&
        ProcessUpTo(files, step, n).0[step(files[i]).name] == step(files[i]).doc
    decreases n
  {
    if n > 0 {
      ProcessUpToLastWrite(files, step, n - 1);
      var (written, crashed) := ProcessUpTo(files, step, n - 1);
      if !crashed && !step(files[n - 1]).Crash? {
        var now := ProcessUpTo(files, step, n).0;
        forall i: nat | LastWrite(files, step, n, i)
          ensures step(files[i]).name in now && now[step(files[i]).name] == step(files[i]).doc
        {
          if i < n - 1 {
            assert LastWrite(files, step, n - 1, i);
            assert !WritesTo(step, files[n - 1], step(files[i]).name);
          }
        }
      }
    }
  }

  /**
   * A run that raises keeps what the files before the first raising one
   * wrote, and no file before that one raised.
   */
  lemma ProcessUpToStops(files: seq<FinalFile>, step: FinalFile -> Step, c: nat)
    requires c < |files| && step(files[c]).Crash?
    requires forall j :: 0 <= j < c ==> !step(files[j]).Crash?
    ensures ProcessUpTo(files, step, |files|) == (ProcessUpTo(files, step, c).0, true)
    ensures !ProcessUpTo(files, step, c).1
  {
    ProcessUpToCrash(files, step, c);
    CrashSticks(files, step, c + 1, |files|);
  }
}
