/**
 * The text-preparation stage: each line of the raw JSONL dump is parsed as a
 * post, the title and body are joined and cleaned, and a five-field record is
 * kept; a line that fails anywhere is skipped.
 *
 * `clean_text` is four passes: every `http\S+` match is removed; each `\n`
 * becomes a space and each `\r` is dropped; each maximal whitespace run
 * becomes one space; and the result is stripped.
 */
module PrepareText {
  import opened Common
  import opened Text
  import opened Values

  // ---------------------------------------------------------------- http\S+

  /** `http\S+` matches at the start of `s`: `http` and at least one non-whitespace character. */
  predicate UrlAt(s: string) {
    |s| > 4 && s[0] == 'h' && s[1] == 't' && s[2] == 't' && s[3] == 'p' && !IsSpace(s[4])
  }

  /** No position of `s` starts a match of `http\S+`. */
  predicate NoUrl(s: string) {
    forall i :: 0 <= i < |s| ==> !UrlAt(s[i..])
  }

  /** The greedy `\S+`: drops the leading run of non-whitespace characters. */
  function DropNonSpace(s: string): (r: string)
    ensures |r| <= |s|
    ensures r == [] || IsSpace(r[0])
    decreases |s|
  {
    if s != [] && !IsSpace(s[0]) then DropNonSpace(s[1..]) else s
  }

  /** `re.sub(r"http\S+", "", s)`: matches are found left to right and scanning resumes after each. */
  function RemoveUrls(s: string): string
    decreases |s|
  {
    if s == [] then []
    else if UrlAt(s) then RemoveUrls(DropNonSpace(s[4..]))
    else [s[0]] + RemoveUrls(s[1..])
  }

  /** What follows a removed match is whitespace, or nothing. */
  lemma RemoveUrlsAfterMatch(s: string)
    ensures UrlAt(s) ==> RemoveUrls(s) == [] || IsSpace(RemoveUrls(s)[0])
  {
    if UrlAt(s) {
      var rest := DropNonSpace(s[4..]);
      if rest != [] {
        assert !UrlAt(rest);
        assert RemoveUrls(rest) == [rest[0]] + RemoveUrls(rest[1..]);
      }
    }
  }

  /**
   * A removal leaves whitespace or nothing behind it, so when the result
   * starts with `k` non-whitespace characters they are the first `k`
   * characters of `s`, kept as they were.
   */
  lemma {:induction false} RemoveUrlsKeepsPrefix(s: string, k: nat)
    requires k <= |RemoveUrls(s)|
    requires forall j :: 0 <= j < k ==> !IsSpace(RemoveUrls(s)[j])
    ensures k <= |s| && RemoveUrls(s)[..k] == s[..k]
    decreases k
  {
    if k > 0 {
      RemoveUrlsAfterMatch(s);
      var tail := RemoveUrls(s[1..]);
      assert RemoveUrls(s) == [s[0]] + tail;
      forall j | 0 <= j < k - 1 ensures !IsSpace(tail[j]) {
        assert tail[j] == RemoveUrls(s)[j + 1];
      }
      RemoveUrlsKeepsPrefix(s[1..], k - 1);
    }
  }

  /** After the substitution no match of `http\S+` is left. */
  lemma {:induction false} RemoveUrlsLeavesNone(s: string)
    ensures NoUrl(RemoveUrls(s))
    decreases |s|
  {
    if s != [] {
      if UrlAt(s) {
        RemoveUrlsLeavesNone(DropNonSpace(s[4..]));
      } else {
        var tail := RemoveUrls(s[1..]);
        RemoveUrlsLeavesNone(s[1..]);
        var r := [s[0]] + tail;
        forall i | 0 <= i < |r| ensures !UrlAt(r[i..]) {
          if i > 0 {
            assert r[i..] == tail[i - 1..];
          } else if 4 <= |tail| && forall j :: 0 <= j < 4 ==> !IsSpace(tail[j]) {
            RemoveUrlsKeepsPrefix(s[1..], 4);
            assert forall j :: 0 <= j < 4 ==> tail[j] == s[j + 1];
          }
        }
      }
    }
  }

  /** A string without a match is left as it is. */
  lemma {:induction false} RemoveUrlsIdentity(s: string)
    requires NoUrl(s)
    ensures RemoveUrls(s) == s
    decreases |s|
  {
    if s != [] {
      assert !UrlAt(s[0..]);
      assert s[0..] == s;
      forall i | 0 <= i < |s[1..]| ensures !UrlAt(s[1..][i..]) {
        assert s[1..][i..] == s[i + 1..];
      }
      RemoveUrlsIdentity(s[1..]);
    }
  }

  /** Dropping a leading non-whitespace run stops at the first whitespace character. */
  lemma {:induction false} DropNonSpaceSplits(a: string, c: char, y: string)
    requires IsSpace(c)
    ensures DropNonSpace(a + [c] + y) == DropNonSpace(a) + [c] + y
    decreases |a|
  {
    if a == [] {
      assert a + [c] + y == [c] + y;
    } else {
      assert (a + [c] + y)[1..] == a[1..] + [c] + y;
      if !IsSpace(a[0]) {
        DropNonSpaceSplits(a[1..], c, y);
      }
    }
  }

  /** A text without whitespace is dropped whole. */
  lemma {:induction false} DropNonSpaceToken(t: string)
    requires forall j :: 0 <= j < |t| ==> !IsSpace(t[j])
    ensures DropNonSpace(t) == []
    decreases |t|
  {
    if t != [] {
      DropNonSpaceToken(t[1..]);
    }
  }

  /** A match at the start never reaches past a whitespace character. */
  lemma UrlAtBeforeSpace(x: string, c: char, y: string)
    requires IsSpace(c) && x != []
    ensures UrlAt(x + [c] + y) == UrlAt(x)
  {
    var s := x + [c] + y;
    if |x| >= 5 {
      assert s[..5] == x[..5];
    } else {
      assert s[|x|] == c;
    }
  }

  /**
   * No match crosses a whitespace character, so the substitution works on
   * each side of it separately and keeps the character itself.
   */
  lemma {:induction false} RemoveUrlsSplitsAtSpace(x: string, c: char, y: string)
    requires IsSpace(c)
    ensures RemoveUrls(x + [c] + y) == RemoveUrls(x) + [c] + RemoveUrls(y)
    decreases |x|
  {
    if x == [] {
      var s := x + [c] + y;
      assert s == [c] + y;
      assert !UrlAt(s);
      assert RemoveUrls(s) == [c] + RemoveUrls(y);
    } else if UrlAt(x) {
      RemoveUrlsSplitsAtSpace(DropNonSpace(x[4..]), c, y);
      RemoveUrlsMatchBeforeSpace(x, c, y);
    } else {
      RemoveUrlsSplitsAtSpace(x[1..], c, y);
      RemoveUrlsKeepBeforeSpace(x, c, y);
    }
  }

  /** The step of `RemoveUrlsSplitsAtSpace` where `x` starts with a match. */
  lemma RemoveUrlsMatchBeforeSpace(x: string, c: char, y: string)
    requires IsSpace(c) && x != [] && UrlAt(x)
    requires var rest := DropNonSpace(x[4..]); RemoveUrls(rest + [c] + y) == RemoveUrls(rest) + [c] + RemoveUrls(y)
    ensures RemoveUrls(x + [c] + y) == RemoveUrls(x) + [c] + RemoveUrls(y)
  {
    var s := x + [c] + y;
    var rest := DropNonSpace(x[4..]);
    assert RemoveUrls(x) == RemoveUrls(rest);
    DropAfterMatch(x, c, y);
    assert UrlAt(s) by {
      UrlAtBeforeSpace(x, c, y);
    }
    assert RemoveUrls(s) == RemoveUrls(DropNonSpace(s[4..]));
  }

  /** The run a match at the start of `x` drops ends before the whitespace after `x`. */
  lemma DropAfterMatch(x: string, c: char, y: string)
    requires IsSpace(c) && |x| >= 4
    ensures DropNonSpace((x + [c] + y)[4..]) == DropNonSpace(x[4..]) + [c] + y
  {
    assert (x + [c] + y)[4..] == x[4..] + [c] + y;
    DropNonSpaceSplits(x[4..], c, y);
  }

  /** The step of `RemoveUrlsSplitsAtSpace` where `x` starts with a kept character. */
  lemma RemoveUrlsKeepBeforeSpace(x: string, c: char, y: string)
    requires IsSpace(c) && x != [] && !UrlAt(x)
    requires RemoveUrls(x[1..] + [c] + y) == RemoveUrls(x[1..]) + [c] + RemoveUrls(y)
    ensures RemoveUrls(x + [c] + y) == RemoveUrls(x) + [c] + RemoveUrls(y)
  {
    var s := x + [c] + y;
    UrlAtBeforeSpace(x, c, y);
    assert s[0] == x[0];
    assert s[1..] == x[1..] + [c] + y;
  }

  /** The first position of `t` where `http\S+` matches, or `|t|` when none does. */
  function FirstUrl(t: string): (i: nat)
    ensures i <= |t|
    ensures i < |t| ==> UrlAt(t[i..])
    ensures forall j :: 0 <= j < i ==> !UrlAt(t[j..])
    decreases |t|
  {
    if t == [] then 0
    else if UrlAt(t) then 0
    else
      var i := 1 + FirstUrl(t[1..]);
      assert forall j :: 1 <= j <= |t| ==> t[j..] == t[1..][j - 1..];
      i
  }

  /**
   * Within a text without whitespace, the substitution keeps everything before
   * the first match and deletes the rest: the match runs to the end of the
   * token.
   */
  lemma {:induction false} RemoveUrlsToken(t: string)
    requires forall j :: 0 <= j < |t| ==> !IsSpace(t[j])
    ensures RemoveUrls(t) == t[..FirstUrl(t)]
    decreases |t|
  {
    if t != [] {
      if UrlAt(t) {
        DropNonSpaceToken(t[4..]);
      } else {
        RemoveUrlsToken(t[1..]);
        assert t[..FirstUrl(t)] == [t[0]] + t[1..][..FirstUrl(t[1..])];
      }
    }
  }

  // ---------------------------------------------------------------- line breaks and whitespace runs

  /** `s.replace("\n", " ")` */
  function NewlinesToSpaces(s: string): (r: string)
    ensures |r| == |s|
    ensures forall i :: 0 <= i < |s| ==> r[i] == (if s[i] == '\n' then ' ' else s[i])
  {
    if s == [] then [] else [if s[0] == '\n' then ' ' else s[0]] + NewlinesToSpaces(s[1..])
  }

  /** `s.replace("\r", "")` */
  function DropCarriageReturns(s: string): (r: string)
    ensures '\r' !in r
    ensures forall c :: c in r ==> c in s
  {
    if s == [] then [] else (if s[0] == '\r' then [] else [s[0]]) + DropCarriageReturns(s[1..])
  }

  /** `re.sub(r"\s+", " ", s)`: each maximal whitespace run becomes one space. */
  function CollapseSpaces(s: string): (r: string)
    ensures r == [] <==> s == []
    ensures r != [] ==> (IsSpace(r[0]) <==> IsSpace(s[0]))
    decreases |s|
  {
    if s == [] then []
    else if IsSpace(s[0]) then [' '] + CollapseSpaces(LStrip(s))
    else [s[0]] + CollapseSpaces(s[1..])
  }

  /** A string without whitespace has no run to collapse. */
  lemma {:induction false} CollapseNoSpace(s: string)
    requires forall i :: 0 <= i < |s| ==> !IsSpace(s[i])
    ensures CollapseSpaces(s) == s
    decreases |s|
  {
    if s != [] {
      assert forall i :: 0 <= i < |s[1..]| ==> s[1..][i] == s[i + 1];
      CollapseNoSpace(s[1..]);
    }
  }

  /** Every whitespace character is a space and no two whitespace characters are adjacent. */
  predicate SingleSpaced(s: string) {
    && (forall i :: 0 <= i < |s| && IsSpace(s[i]) ==> s[i] == ' ')
    && (forall i :: 0 <= i < |s| - 1 ==> !(IsSpace(s[i]) && IsSpace(s[i + 1])))
  }

  lemma {:induction false} CollapseSingleSpaced(s: string)
    ensures SingleSpaced(CollapseSpaces(s))
    decreases |s|
  {
    if s != [] {
      var t := if IsSpace(s[0]) then LStrip(s) else s[1..];
      CollapseSingleSpaced(t);
      var tail := CollapseSpaces(t);
      var r := CollapseSpaces(s);
      assert r == [r[0]] + tail;
      assert forall i :: 0 < i < |r| ==> r[i] == tail[i - 1];
    }
  }

  /** A piece of a single-spaced string is single-spaced. */
  lemma SingleSpacedSlice(s: string, a: nat, b: nat)
    requires a <= b <= |s| && SingleSpaced(s)
    ensures SingleSpaced(s[a..b])
  {
    assert forall i :: 0 <= i < b - a ==> s[a..b][i] == s[a + i];
  }

  /** Collapsing the whitespace runs leaves the words of `s.split()` as they were. */
  lemma {:induction false} SplitCollapse(s: string)
    ensures SplitWhitespace(CollapseSpaces(s)) == SplitWhitespace(s)
    decreases |s|
  {
    if s != [] {
      if IsSpace(s[0]) {
        var t := LStrip(s);
        SplitCollapse(t);
        SplitWhitespaceSkipSpace([' '] + CollapseSpaces(t));
        assert ([' '] + CollapseSpaces(t))[1..] == CollapseSpaces(t);
        SplitWhitespaceLStrip(s);
      } else {
        var t := s[1..];
        assert s == [s[0]] + t;
        SplitCollapse(t);
        if t == [] || IsSpace(t[0]) {
          SplitWhitespaceConsAlone(s[0], CollapseSpaces(t));
          SplitWhitespaceConsAlone(s[0], t);
        } else {
          SplitWhitespaceConsJoin(s[0], CollapseSpaces(t));
          SplitWhitespaceConsJoin(s[0], t);
        }
      }
    }
  }

  // ---------------------------------------------------------------- what is kept

  /** The non-whitespace characters of `s`, in order. */
  function NonSpace(s: string): string
    decreases |s|
  {
    if s == [] then [] else (if IsSpace(s[0]) then [] else [s[0]]) + NonSpace(s[1..])
  }

  lemma {:induction false} NonSpaceAppend(a: string, b: string)
    ensures NonSpace(a + b) == NonSpace(a) + NonSpace(b)
    decreases |a|
  {
    if a != [] {
      NonSpaceAppend(a[1..], b);
      assert (a + b)[0] == a[0];
      assert (a + b)[1..] == a[1..] + b;
      var head := if IsSpace(a[0]) then [] else [a[0]];
      calc {
        NonSpace(a + b);
        head + NonSpace(a[1..] + b);
        head + (NonSpace(a[1..]) + NonSpace(b));
        (head + NonSpace(a[1..])) + NonSpace(b);
        NonSpace(a) + NonSpace(b);
      }
    } else {
      assert a + b == b;
    }
  }

  lemma {:induction false} NonSpaceNewlines(s: string)
    ensures NonSpace(NewlinesToSpaces(s)) == NonSpace(s)
    decreases |s|
  {
    if s != [] {
      NonSpaceNewlines(s[1..]);
    }
  }

  lemma {:induction false} NonSpaceCarriageReturns(s: string)
    ensures NonSpace(DropCarriageReturns(s)) == NonSpace(s)
    decreases |s|
  {
    if s != [] {
      NonSpaceCarriageReturns(s[1..]);
      NonSpaceAppend(if s[0] == '\r' then [] else [s[0]], DropCarriageReturns(s[1..]));
    }
  }

  lemma {:induction false} NonSpaceLStrip(s: string)
    ensures NonSpace(LStrip(s)) == NonSpace(s)
    decreases |s|
  {
    if s != [] && IsSpace(s[0]) {
      NonSpaceLStrip(s[1..]);
    }
  }

  lemma {:induction false} NonSpaceCollapse(s: string)
    ensures NonSpace(CollapseSpaces(s)) == NonSpace(s)
    decreases |s|
  {
    if s != [] {
      if IsSpace(s[0]) {
        NonSpaceCollapse(LStrip(s));
        NonSpaceLStrip(s);
        NonSpaceLStrip(s[1..]);
        assert LStrip(s) == LStrip(s[1..]);
      } else {
        NonSpaceCollapse(s[1..]);
      }
    }
  }

  lemma {:induction false} NonSpaceAllSpaces(s: string)
    requires forall i :: 0 <= i < |s| ==> IsSpace(s[i])
    ensures NonSpace(s) == []
    decreases |s|
  {
    if s != [] {
      NonSpaceAllSpaces(s[1..]);
    }
  }

  lemma NonSpaceStrip(s: string)
    ensures NonSpace(Strip(s)) == NonSpace(s)
  {
    StripSlice(s);
    var a := LeadingSpaces(s);
    var b := a + |Strip(s)|;
    assert s == s[..a] + s[a..b] + s[b..];
    NonSpaceAppend(s[..a] + s[a..b], s[b..]);
    NonSpaceAppend(s[..a], s[a..b]);
    LeadingSpacesAreSpaces(s);
    NonSpaceAllSpaces(s[..a]);
    TrailingSpaces(s);
    NonSpaceAllSpaces(s[b..]);
  }

  lemma {:induction false} LeadingSpacesAreSpaces(s: string)
    ensures forall i :: 0 <= i < LeadingSpaces(s) ==> IsSpace(s[i])
    decreases |s|
  {
    if s != [] && IsSpace(s[0]) {
      LeadingSpacesAreSpaces(s[1..]);
    }
  }

  /** What `str.strip` drops at the end is whitespace. */
  lemma {:induction false} TrailingSpaces(s: string)
    ensures LeadingSpaces(s) + |Strip(s)| <= |s|
    ensures forall i :: LeadingSpaces(s) + |Strip(s)| <= i < |s| ==> IsSpace(s[i])
    decreases |s|
  {
    StripSlice(s);
    if s != [] && IsSpace(s[0]) {
      TrailingSpaces(s[1..]);
      forall i | LeadingSpaces(s) + |Strip(s)| <= i < |s| ensures IsSpace(s[i]) {
        assert s[i] == s[1..][i - 1];
      }
    } else {
      assert Strip(s) == RStrip(s);
    }
  }

  // ---------------------------------------------------------------- clean_text

  function CleanText(text: string): string {
    Strip(CollapseSpaces(DropCarriageReturns(NewlinesToSpaces(RemoveUrls(text)))))
  }

  /**
   * The cleaned text has no line feed or carriage return, no whitespace but
   * single spaces between non-whitespace characters, and nothing to strip.
   */
  lemma CleanTextForm(text: string)
    ensures '\n' !in CleanText(text) && '\r' !in CleanText(text)
    ensures SingleSpaced(CleanText(text))
    ensures IsStripped(CleanText(text))
  {
    var u := RemoveUrls(text);
    var c := CollapseSpaces(DropCarriageReturns(NewlinesToSpaces(u)));
    var r := Strip(c);
    CollapseSingleSpaced(DropCarriageReturns(NewlinesToSpaces(u)));
    StripSlice(c);
    SingleSpacedSlice(c, LeadingSpaces(c), LeadingSpaces(c) + |r|);
    SingleSpacedNoBreaks(r);
  }

  /** A single-spaced string holds no line break: its only whitespace is the space. */
  lemma SingleSpacedNoBreaks(s: string)
    requires SingleSpaced(s)
    ensures '\n' !in s && '\r' !in s
  {
    forall i | 0 <= i < |s| ensures s[i] != '\n' && s[i] != '\r' {
      assert IsSpace('\n') && IsSpace('\r');
    }
  }

  /** The cleaned text holds exactly the non-whitespace characters the URL removal left, in order. */
  lemma CleanTextKeeps(text: string)
    ensures NonSpace(CleanText(text)) == NonSpace(RemoveUrls(text))
  {
    var u := RemoveUrls(text);
    var c := CollapseSpaces(DropCarriageReturns(NewlinesToSpaces(u)));
    NonSpaceStrip(c);
    NonSpaceCollapse(DropCarriageReturns(NewlinesToSpaces(u)));
    NonSpaceCarriageReturns(NewlinesToSpaces(u));
    NonSpaceNewlines(u);
  }

  /**
   * The cleaned text splits into the same words as the text after the URL
   * removal, the line-feed replacement and the carriage-return deletion:
   * collapsing and stripping only move whitespace.
   */
  lemma CleanTextWords(text: string)
    ensures SplitWhitespace(CleanText(text)) == SplitWhitespace(DropCarriageReturns(NewlinesToSpaces(RemoveUrls(text))))
  {
    var d := DropCarriageReturns(NewlinesToSpaces(RemoveUrls(text)));
    SplitWhitespaceStrip(CollapseSpaces(d));
    SplitCollapse(d);
  }

  /** `http` followed by a carriage return does not match `http\S+`, so the substitution keeps it. */
  lemma CarriageReturnKept()
    ensures RemoveUrls("http\rs") == "http\rs"
  {
    assert IsSpace('\r');
    assert RemoveUrls("s") == "s";
    assert RemoveUrls("\rs") == "\rs";
    assert RemoveUrls("p\rs") == "p\rs";
    assert RemoveUrls("tp\rs") == "tp\rs";
    assert RemoveUrls("ttp\rs") == "ttp\rs";
    assert !UrlAt("http\rs");
  }

  /** `https` holds no whitespace, so collapsing and stripping leave it as it is. */
  lemma HttpsUnchanged()
    ensures CollapseSpaces("https") == "https" && Strip("https") == "https"
  {
    var t := "https";
    assert !IsSpace('h');
    assert !IsSpace('t');
    assert !IsSpace('p');
    assert !IsSpace('s');
    assert forall i :: 0 <= i < |t| ==> t[i] in "htps";
    CollapseNoSpace(t);
    StripOfStripped(t);
  }

  /**
   * The URL removal runs before the carriage returns are dropped, so a `\r`
   * right after `http` joins it to what follows and the cleaned text can still
   * hold a match of `http\S+`.
   */
  lemma CarriageReturnJoinsUrl()
    ensures CleanText("http\rs") == "https"
    ensures !NoUrl(CleanText("http\rs"))
  {
    CarriageReturnDropped();
    HttpsUnchanged();
    assert UrlAt("https"[0..]);
  }

  lemma CarriageReturnDropped()
    ensures DropCarriageReturns(NewlinesToSpaces(RemoveUrls("http\rs"))) == "https"
  {
    CarriageReturnKept();
    NoNewlineKept();
    CarriageReturnRemoved();
  }

  lemma NoNewlineKept()
    ensures NewlinesToSpaces("http\rs") == "http\rs"
  {
  }

  lemma CarriageReturnRemoved()
    ensures DropCarriageReturns("http\rs") == "https"
  {
  }

  // ---------------------------------------------------------------- records

  /** The keys of a kept record, in order. */
  const RecordKeys: seq<string> := ["id", "subreddit", "text", "score", "num_comments"]

  /** The six keys the loop reads from a post. */
  const PostKeys: seq<string> := ["title", "selftext", "id", "subreddit", "score", "num_comments"]

  /** Every one of `keys` is present among `entries`. */
  predicate HasKeys(entries: seq<(string, Value)>, keys: seq<string>) {
    forall k :: k in keys ==> Get(entries, k).Some?
  }

  /** The dictionary written for one post, with its five keys in order. */
  function Record(id: Value, subreddit: Value, text: string, score: Value, comments: Value): (r: Value)
    ensures r.Dict? && KeysOf(r.entries) == RecordKeys
    ensures Get(r.entries, "id") == Some(id) && Get(r.entries, "subreddit") == Some(subreddit)
    ensures Get(r.entries, "text") == Some(Str(text))
    ensures Get(r.entries, "score") == Some(score) && Get(r.entries, "num_comments") == Some(comments)
  {
    var e := [("id", id), ("subreddit", subreddit), ("text", Str(text)), ("score", score), ("num_comments", comments)];
    GetSkip(e, "text", 2);
    GetSkip(e, "score", 3);
    GetSkip(e, "num_comments", 4);
    Dict(e)
  }

  /** The text field of a post's record: the title and the body joined by a space, as `str` renders them, then cleaned. */
  function RecordText(e: seq<(string, Value)>, repr: Value -> string): string
    requires Get(e, "title").Some? && Get(e, "selftext").Some?
  {
    CleanText(Display(Field(e, "title"), repr) + " " + Display(Field(e, "selftext"), repr))
  }

  /**
   * The record built from one parsed line: `None` when the line is not a
   * dictionary holding `title`, `selftext`, `id`, `subreddit`, `score` and
   * `num_comments` (the `KeyError` or `TypeError` the loop catches).
   */
  function RecordOf(post: Value, repr: Value -> string): Option<Value> {
    if post.Dict? && HasKeys(post.entries, PostKeys) then
      var e := post.entries;
      assert "title" in PostKeys && "selftext" in PostKeys && "id" in PostKeys;
      assert "subreddit" in PostKeys && "score" in PostKeys && "num_comments" in PostKeys;
      Some(Record(Field(e, "id"), Field(e, "subreddit"), RecordText(e, repr), Field(e, "score"), Field(e, "num_comments")))
    else None
  }

  /**
   * A kept post's record has exactly the five keys in order, its `text` is
   * the cleaned join of the title and the body, and the other four values
   * are copied from the post.
   */
  lemma RecordShape(post: Value, repr: Value -> string)
    requires RecordOf(post, repr).Some?
    ensures post.Dict? && HasKeys(post.entries, PostKeys)
    ensures Get(post.entries, "title").Some? && Get(post.entries, "selftext").Some?
    ensures var r := RecordOf(post, repr).value;
      && r.Dict? && KeysOf(r.entries) == RecordKeys
      && Get(r.entries, "text") == Some(Str(CleanText(Display(Field(post.entries, "title"), repr) + " " + Display(Field(post.entries, "selftext"), repr))))
      && Get(r.entries, "id") == Get(post.entries, "id")
      && Get(r.entries, "subreddit") == Get(post.entries, "subreddit")
      && Get(r.entries, "score") == Get(post.entries, "score")
      && Get(r.entries, "num_comments") == Get(post.entries, "num_comments")
  {
    assert "title" in PostKeys && "selftext" in PostKeys && "id" in PostKeys;
    assert "subreddit" in PostKeys && "score" in PostKeys && "num_comments" in PostKeys;
  }

  /** A post is kept exactly when it is a dictionary whose keys include all six the loop reads. */
  lemma RecordKept(post: Value, repr: Value -> string)
    ensures RecordOf(post, repr).Some? <==> post.Dict? && forall k :: k in PostKeys ==> k in KeysOf(post.entries)
  {
    if post.Dict? {
      forall k | k in PostKeys {
        GetFound(post.entries, k);
      }
    }
  }

  /** The record of one raw line; `parse` is `json.loads`, `None` when it raises. */
  function LineRecord(line: string, parse: string -> Option<Value>, repr: Value -> string): Option<Value> {
    match parse(line)
    case Some(post) => RecordOf(post, repr)
    case None => None
  }

  /** The values present among `rs`, in order. */
  function Kept<T>(rs: seq<Option<T>>): seq<T>
    decreases |rs|
  {
    if rs == [] then []
    else
      var rest := Kept(rs[..|rs| - 1]);
      match rs[|rs| - 1]
      case Some(r) => rest + [r]
      case None => rest
  }

  lemma KeptSnoc<T>(rs: seq<Option<T>>, i: nat)
    requires i < |rs|
    ensures Kept(rs[..i + 1]) == Kept(rs[..i]) + (if rs[i].Some? then [rs[i].value] else [])
  {
    assert rs[..i + 1][..i] == rs[..i];
  }

  /** Skipping never adds values: at most as many as options, and as many exactly when every option holds one. */
  lemma {:induction false} KeptCount<T>(rs: seq<Option<T>>)
    ensures |Kept(rs)| <= |rs|
    ensures |Kept(rs)| == |rs| <==> forall i :: 0 <= i < |rs| ==> rs[i].Some?
    decreases |rs|
  {
    if rs != [] {
      var init := rs[..|rs| - 1];
      KeptCount(init);
      assert forall i :: 0 <= i < |init| ==> init[i] == rs[i];
    }
  }

  /** Every value kept is one of the options, in the order they come. */
  lemma {:induction false} KeptFrom<T>(rs: seq<Option<T>>)
    ensures forall x :: x in Kept(rs) ==> Some(x) in rs
    decreases |rs|
  {
    if rs != [] {
      var init := rs[..|rs| - 1];
      KeptFrom(init);
      assert forall x :: x in init ==> x in rs;
    }
  }

  /** What each line of the dump yields, in order. */
  function LineRecords(lines: seq<string>, parse: string -> Option<Value>, repr: Value -> string): (rs: seq<Option<Value>>)
  {
    seq(|lines|, i requires 0 <= i < |lines| => LineRecord(lines[i], parse, repr))
  }

  /** The records of the lines, in order, skipping the lines that fail. */
  function Records(lines: seq<string>, parse: string -> Option<Value>, repr: Value -> string): seq<Value> {
    Kept(LineRecords(lines, parse, repr))
  }

  /** There are at most as many records as lines, and as many exactly when no line fails. */
  lemma RecordsCount(lines: seq<string>, parse: string -> Option<Value>, repr: Value -> string)
    ensures |Records(lines, parse, repr)| <= |lines|
    ensures |Records(lines, parse, repr)| == |lines| <==> forall i :: 0 <= i < |lines| ==> LineRecord(lines[i], parse, repr).Some?
  {
    var rs := LineRecords(lines, parse, repr);
    KeptCount(rs);
    assert |rs| == |lines|;
    assert forall i :: 0 <= i < |lines| ==> rs[i] == LineRecord(lines[i], parse, repr);
  }

  /** Every record is the record of some line. */
  lemma RecordsFromLines(lines: seq<string>, parse: string -> Option<Value>, repr: Value -> string)
    ensures forall r :: r in Records(lines, parse, repr) ==> exists i :: 0 <= i < |lines| && LineRecord(lines[i], parse, repr) == Some(r)
  {
    var rs := LineRecords(lines, parse, repr);
    KeptFrom(rs);
    forall r | r in Records(lines, parse, repr)
      ensures exists i :: 0 <= i < |lines| && LineRecord(lines[i], parse, repr) == Some(r)
    {
      var i :| 0 <= i < |rs| && rs[i] == Some(r);
      assert LineRecord(lines[i], parse, repr) == Some(r);
    }
  }

  /** The loop over the lines of the dump, skipping each line that raises. */
  method BuildRecords(lines: seq<string>, parse: string -> Option<Value>, repr: Value -> string) returns (data: seq<Value>)
    ensures data == Records(lines, parse, repr)
  {
    ghost var rs := LineRecords(lines, parse, repr);
    data := [];
    var i := 0;
    while i < |lines|
      invariant 0 <= i <= |lines|
      invariant data == Kept(rs[..i])
    {
      var record := LineRecord(lines[i], parse, repr);
      KeptSnoc(rs, i);
      if record.Some? {
        data := data + [record.value];
      }
      i := i + 1;
    }
    assert rs[..i] == rs;
  }
}
