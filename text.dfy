/**
 * The parts of Python's `str` and `re` behaviour that the profiler relies on,
 * written out over `seq<char>`: whitespace as `str.isspace` (and `\s`) sees
 * it, `strip`, `lower` (ASCII letters only), `split`, `splitlines`, `join`,
 * `count`, whole-word matching as `\b(w1|w2|...)\b` finds it, decimal
 * rendering of integers, and code-point ordering of strings.
 */
module Text {
  import opened Common

  // ---------------------------------------------------------------- characters

  /** Python's `str.isspace`; `\s` in a `str` pattern matches the same characters. */
  predicate IsSpace(c: char) {
    c in Spaces
  }

  const Spaces: set<char> := {' ', '\t', '\n', '\U{0B}', '\U{0C}', '\r', '\U{1C}', '\U{1D}', '\U{1E}', '\U{1F}', '\U{85}', '\U{A0}', '\U{1680}',
    '\U{2000}', '\U{2001}', '\U{2002}', '\U{2003}', '\U{2004}', '\U{2005}', '\U{2006}', '\U{2007}', '\U{2008}', '\U{2009}', '\U{200A}',
    '\U{2028}', '\U{2029}', '\U{202F}', '\U{205F}', '\U{3000}'}

  /** The characters at which `str.splitlines` ends a line. */
  predicate IsLineBreak(c: char) {
    || c == '\n' || c == '\r' || c == '\U{0B}' || c == '\U{0C}'
    || ('\U{1C}' <= c <= '\U{1E}')
    || c == '\U{85}' || c == '\U{2028}' || c == '\U{2029}'
  }

  /** `\w`, restricted to ASCII letters, digits and the underscore. */
  predicate IsWordChar(c: char) {
    ('a' <= c <= 'z') || ('A' <= c <= 'Z') || ('0' <= c <= '9') || c == '_'
  }

  function LowerChar(c: char): (d: char)
    ensures 'A' <= c <= 'Z' ==> 'a' <= d <= 'z' && d as int == c as int + 32
    ensures !('A' <= c <= 'Z') ==> d == c
  {
    if 'A' <= c <= 'Z' then (c as int + 32) as char else c
  }

  /** `str.lower`, for ASCII letters. */
  function Lower(s: string): (r: string)
    ensures |r| == |s|
    ensures forall i :: 0 <= i < |s| ==> r[i] == LowerChar(s[i])
  {
    if s == [] then [] else [LowerChar(s[0])] + Lower(s[1..])
  }

  // ---------------------------------------------------------------- prefixes, searching

  predicate StartsWith(s: string, prefix: string) {
    |prefix| <= |s| && s[..|prefix|] == prefix
  }

  /** `s.lower().startswith(p)`, lower-casing only the prefix that is compared. */
  predicate StartsWithLower(s: string, p: string) {
    |p| <= |s| && Lower(s[..|p|]) == p
  }

  lemma StartsWithLowerIff(s: string, p: string)
    ensures StartsWithLower(s, p) <==> StartsWith(Lower(s), p)
  {
    if |p| <= |s| {
      assert Lower(s[..|p|]) == Lower(s)[..|p|];
    }
  }

  predicate EndsWith(s: string, suffix: string) {
    |suffix| <= |s| && s[|s| - |suffix|..] == suffix
  }

  /** `sub in s.lower()`, trying each position in turn. */
  predicate ContainsLower(s: string, sub: string)
    decreases |s|
  {
    StartsWithLower(s, sub) || (s != [] && ContainsLower(s[1..], sub))
  }

  lemma {:induction false} ContainsLowerIff(s: string, sub: string)
    ensures ContainsLower(s, sub) <==> Contains(Lower(s), sub)
    decreases |s|
  {
    StartsWithLowerIff(s, sub);
    if s != [] {
      ContainsLowerIff(s[1..], sub);
      assert Lower(s)[1..] == Lower(s[1..]);
    }
  }

  lemma StartsWithLowerContains(s: string, sub: string)
    ensures StartsWithLower(s, sub) ==> ContainsLower(s, sub)
  {
  }

  /** `sub in s` */
  predicate Contains(s: string, sub: string)
    decreases |s|
  {
    StartsWith(s, sub) || (s != [] && Contains(s[1..], sub))
  }

  /** `sub` occurs in `s` starting at position `i`. */
  predicate OccursAt(s: string, sub: string, i: nat) {
    i + |sub| <= |s| && s[i..i + |sub|] == sub
  }

  /** `sub in s` holds exactly when `sub` occurs at some position of `s`. */
  lemma {:induction false} ContainsAt(s: string, sub: string)
    ensures Contains(s, sub) <==> exists i: nat :: OccursAt(s, sub, i)
    decreases |s|
  {
    if s == [] {
      if sub == [] {
        assert OccursAt(s, sub, 0);
      }
      if exists i: nat :: OccursAt(s, sub, i) {
        var i: nat :| OccursAt(s, sub, i);
        assert sub == [];
      }
    } else {
      ContainsAt(s[1..], sub);
      if StartsWith(s, sub) {
        assert OccursAt(s, sub, 0);
      }
      if Contains(s[1..], sub) {
        var i: nat :| OccursAt(s[1..], sub, i);
        assert s[1..][i..i + |sub|] == s[i + 1..i + 1 + |sub|];
        assert OccursAt(s, sub, i + 1);
      }
      if exists i: nat :: OccursAt(s, sub, i) {
        var i: nat :| OccursAt(s, sub, i);
        if i > 0 {
          assert s[1..][i - 1..i - 1 + |sub|] == s[i..i + |sub|];
          assert OccursAt(s[1..], sub, i - 1);
        } else {
          assert StartsWith(s, sub);
        }
      }
    }
  }

  /** The first index at which `p` holds, or `|s|` when there is none. */
  function FirstIndex(s: string, p: char -> bool): (k: nat)
    ensures k <= |s|
    ensures k < |s| ==> p(s[k])
    ensures forall j :: 0 <= j < k ==> !p(s[j])
    decreases |s|
  {
    if s == [] then 0 else if p(s[0]) then 0 else 1 + FirstIndex(s[1..], p)
  }

  /** `s.find(c)`, with `|s|` for "not found". */
  function IndexOf(s: string, c: char): (k: nat)
    ensures k <= |s|
    ensures k < |s| ==> s[k] == c
    ensures forall j :: 0 <= j < k ==> s[j] != c
    decreases |s|
  {
    if s == [] then 0 else if s[0] == c then 0 else 1 + IndexOf(s[1..], c)
  }

  /** What follows the first `c` in `s`, if `c` occurs. */
  function AfterFirst(s: string, c: char): (r: Option<string>)
    ensures r.Some? ==> |r.value| < |s|
    decreases |s|
  {
    if s == [] then None else if s[0] == c then Some(s[1..]) else AfterFirst(s[1..], c)
  }

  /** `AfterFirst` is the suffix after the index `s.find(c)` reports. */
  lemma {:induction false} AfterFirstIndexOf(s: string, c: char)
    ensures AfterFirst(s, c).None? <==> IndexOf(s, c) == |s|
    ensures AfterFirst(s, c).Some? ==> AfterFirst(s, c).value == s[IndexOf(s, c) + 1..]
    decreases |s|
  {
    if s != [] && s[0] != c {
      AfterFirstIndexOf(s[1..], c);
    }
  }

  // ---------------------------------------------------------------- strip

  /** No whitespace at either end. */
  predicate IsStripped(s: string) {
    s == [] || (!IsSpace(s[0]) && !IsSpace(s[|s| - 1]))
  }

  function LStrip(s: string): (r: string)
    ensures |r| <= |s| && r == s[|s| - |r|..]
    ensures forall i :: 0 <= i < |s| - |r| ==> IsSpace(s[i])
    ensures r == [] || !IsSpace(r[0])
    decreases |s|
  {
    if s != [] && IsSpace(s[0]) then LStrip(s[1..]) else s
  }

  function RStrip(s: string): (r: string)
    ensures |r| <= |s| && r == s[..|r|]
    ensures forall i :: |r| <= i < |s| ==> IsSpace(s[i])
    ensures r == [] || !IsSpace(r[|r| - 1])
    decreases |s|
  {
    if s != [] && IsSpace(s[|s| - 1]) then RStrip(s[..|s| - 1]) else s
  }

  /** `str.strip()`: `s` without the whitespace at either end. */
  function Strip(s: string): (r: string)
    ensures IsStripped(r)
    ensures |r| <= |s|
    decreases |s|
  {
    if s != [] && IsSpace(s[0]) then
      Strip(s[1..])
    else
      var r := RStrip(s);
      assert r != [] ==> r[0] == s[0];
      r
  }

  /** Every character `str.strip` keeps comes from `s`. */
  lemma {:induction false} StripWithin(s: string)
    ensures forall c :: c in Strip(s) ==> c in s
    decreases |s|
  {
    if s != [] && IsSpace(s[0]) {
      StripWithin(s[1..]);
    } else {
      var r := RStrip(s);
      assert forall i :: 0 <= i < |r| ==> r[i] == s[i];
    }
  }

  /** The number of whitespace characters `str.strip` drops at the front. */
  function LeadingSpaces(s: string): (k: nat)
    ensures k <= |s|
    decreases |s|
  {
    if s != [] && IsSpace(s[0]) then 1 + LeadingSpaces(s[1..]) else 0
  }

  /** `str.strip` keeps a contiguous piece of `s`, starting after the leading whitespace. */
  lemma {:induction false} StripSlice(s: string)
    ensures LeadingSpaces(s) + |Strip(s)| <= |s|
    ensures Strip(s) == s[LeadingSpaces(s)..LeadingSpaces(s) + |Strip(s)|]
    decreases |s|
  {
    if s != [] && IsSpace(s[0]) {
      StripSlice(s[1..]);
      StripSliceShift(s);
    } else {
      assert Strip(s) == RStrip(s);
    }
  }

  lemma StripSliceShift(s: string)
    requires s != [] && IsSpace(s[0])
    requires LeadingSpaces(s[1..]) + |Strip(s[1..])| <= |s[1..]|
    requires Strip(s[1..]) == s[1..][LeadingSpaces(s[1..])..LeadingSpaces(s[1..]) + |Strip(s[1..])|]
    ensures LeadingSpaces(s) + |Strip(s)| <= |s|
    ensures Strip(s) == s[LeadingSpaces(s)..LeadingSpaces(s) + |Strip(s)|]
  {
    assert LeadingSpaces(s) == LeadingSpaces(s[1..]) + 1;
    assert Strip(s) == Strip(s[1..]);
    SliceOfTail(s, Strip(s[1..]), LeadingSpaces(s[1..]));
  }

  lemma SliceOfTail(s: string, r: string, a: nat)
    requires s != [] && a + |r| <= |s| - 1 && r == s[1..][a..a + |r|]
    ensures r == s[a + 1..a + 1 + |r|]
  {
    assert s[1..][a..a + |r|] == s[a + 1..a + 1 + |r|];
  }

  lemma StripOfStripped(s: string)
    requires IsStripped(s)
    ensures Strip(s) == s
  {
  }

  /** `str.lstrip(c)` for a single character `c`. */
  function LStripChar(s: string, c: char): (r: string)
    ensures |r| <= |s| && r == s[|s| - |r|..]
    ensures r == [] || r[0] != c
    decreases |s|
  {
    if s != [] && s[0] == c then LStripChar(s[1..], c) else s
  }

  // ---------------------------------------------------------------- split and join

  /** `sep.join(parts)` */
  function Join(sep: string, parts: seq<string>): string
    decreases |parts|
  {
    if |parts| == 0 then "" else if |parts| == 1 then parts[0] else parts[0] + sep + Join(sep, parts[1..])
  }

  /** `s.split(c)` for a one-character separator: always at least one piece, none holding `c`. */
  function SplitOn(s: string, c: char): (parts: seq<string>)
    ensures |parts| >= 1
    ensures forall i :: 0 <= i < |parts| ==> c !in parts[i]
    decreases |s|
  {
    var k := IndexOf(s, c);
    if k == |s| then [s] else [s[..k]] + SplitOn(s[k + 1..], c)
  }

  /** Joining the pieces of a split with the separator gives back the string. */
  lemma {:induction false} JoinSplitOn(s: string, c: char)
    ensures Join([c], SplitOn(s, c)) == s
    decreases |s|
  {
    var k := IndexOf(s, c);
    if k < |s| {
      JoinSplitOn(s[k + 1..], c);
      var rest := SplitOn(s[k + 1..], c);
      var parts := [s[..k]] + rest;
      assert SplitOn(s, c) == parts;
      assert parts[1..] == rest;
      assert Join([c], parts) == s[..k] + [c] + Join([c], rest);
      assert s == s[..k] + [c] + s[k + 1..];
    }
  }

  /** `s.splitlines()`: no line holds a line break; `\r\n` ends one line. */
  function SplitLines(s: string): (lines: seq<string>)
    ensures forall i, j :: 0 <= i < |lines| && 0 <= j < |lines[i]| ==> !IsLineBreak(lines[i][j])
    decreases |s|
  {
    if s == [] then []
    else
      var k := FirstIndex(s, IsLineBreak);
      if k == |s| then [s]
      else
        var width := if s[k] == '\r' && k + 1 < |s| && s[k + 1] == '\n' then 2 else 1;
        [s[..k]] + SplitLines(s[k + width..])
  }

  /** `s.split()`: the maximal runs of non-whitespace characters, in order. */
  function SplitWhitespace(s: string): seq<string>
    decreases |s|
  {
    var t := LStrip(s);
    if t == [] then [] else var k := FirstSpace(t); [t[..k]] + SplitWhitespace(t[k..])
  }

  /** Every piece of `s.split()` is a word. */
  lemma {:induction false} SplitWhitespaceWords(s: string)
    ensures forall i :: 0 <= i < |SplitWhitespace(s)| ==> IsWord(SplitWhitespace(s)[i])
    decreases |s|
  {
    var t := LStrip(s);
    if t != [] {
      var k := FirstSpace(t);
      SplitWhitespaceWords(t[k..]);
      var rest := SplitWhitespace(t[k..]);
      assert SplitWhitespace(s) == [t[..k]] + rest;
      ConsWords(t[..k], rest);
    }
  }

  lemma ConsWords(w: string, rest: seq<string>)
    requires IsWord(w) && forall i :: 0 <= i < |rest| ==> IsWord(rest[i])
    ensures forall i :: 0 <= i < |[w] + rest| ==> IsWord(([w] + rest)[i])
  {
    assert forall i :: 0 < i < |rest| + 1 ==> ([w] + rest)[i] == rest[i - 1];
  }

  /** The index of the first whitespace character of a string that does not start with one. */
  function FirstSpace(t: string): (k: nat)
    requires t != [] && !IsSpace(t[0])
    ensures 0 < k <= |t|
    ensures k < |t| ==> IsSpace(t[k])
    ensures IsWord(t[..k])
  {
    var k := FirstIndex(t, IsSpace);
    assert forall j :: 0 <= j < k ==> !IsSpace(t[..k][j]);
    k
  }

  /** A non-empty run of non-whitespace characters. */
  predicate IsWord(w: string) {
    w != [] && forall j :: 0 <= j < |w| ==> !IsSpace(w[j])
  }

  /**
   * Reference count of words: the positions holding a non-whitespace character
   * whose predecessor is whitespace or the start of the string.
   */
  function WordStarts(s: string, afterSpace: bool): nat
    decreases |s|
  {
    if s == [] then 0
    else (if afterSpace && !IsSpace(s[0]) then 1 else 0) + WordStarts(s[1..], IsSpace(s[0]))
  }

  lemma {:induction false} WordStartsSkipSpaces(s: string, afterSpace: bool)
    requires s != [] ==> afterSpace || IsSpace(s[0])
    ensures WordStarts(s, afterSpace) == WordStarts(LStrip(s), true)
    decreases |s|
  {
    if s != [] && IsSpace(s[0]) {
      WordStartsSkipSpaces(s[1..], true);
    }
  }

  lemma {:induction false} WordStartsSkipWord(t: string, k: nat, afterSpace: bool)
    requires k <= |t|
    requires forall j :: 0 <= j < k ==> !IsSpace(t[j])
    requires k == |t| || IsSpace(t[k])
    ensures WordStarts(t, afterSpace) == (if afterSpace && k > 0 then 1 else 0) + WordStarts(t[k..], k == 0 && afterSpace)
    decreases k
  {
    if k > 0 {
      WordStartsSkipWord(t[1..], k - 1, false);
      assert t[1..][k - 1..] == t[k..];
    }
  }

  /** `len(s.split())` counts exactly the word starts of `s`. */
  lemma {:induction false} SplitWhitespaceCount(s: string)
    ensures |SplitWhitespace(s)| == WordStarts(s, true)
    decreases |s|
  {
    var t := LStrip(s);
    if t == [] {
      WordStartsSkipSpaces(s, true);
      assert SplitWhitespace(s) == [] && WordStarts(t, true) == 0;
    } else {
      SplitWhitespaceCount(t[FirstSpace(t)..]);
      SplitWhitespaceCountStep(s);
    }
  }

  /** The first word of `s` adds one to both counts. */
  lemma SplitWhitespaceCountStep(s: string)
    requires LStrip(s) != []
    requires var t := LStrip(s); |SplitWhitespace(t[FirstSpace(t)..])| == WordStarts(t[FirstSpace(t)..], true)
    ensures |SplitWhitespace(s)| == WordStarts(s, true)
  {
    var t := LStrip(s);
    var k := FirstSpace(t);
    assert WordStarts(s, true) == WordStarts(t, true) by { WordStartsSkipSpaces(s, true); }
    assert |SplitWhitespace(s)| == 1 + |SplitWhitespace(t[k..])|;
    assert WordStarts(t, true) == 1 + WordStarts(t[k..], true) by {
      WordStartsSkipWord(t, k, true);
      WordStartsAtSpace(t[k..]);
    }
  }

  /** Where a space comes first, whether one came before does not matter. */
  lemma WordStartsAtSpace(u: string)
    requires u != [] ==> IsSpace(u[0])
    ensures WordStarts(u, false) == WordStarts(u, true)
  {
    WordStartsSkipSpaces(u, false);
    WordStartsSkipSpaces(u, true);
  }

  /** The first space of a word-led text is fixed by where the run ends. */
  lemma FirstSpaceAt(t: string, k: nat)
    requires 0 < k <= |t| && forall j :: 0 <= j < k ==> !IsSpace(t[j])
    requires k < |t| ==> IsSpace(t[k])
    ensures FirstSpace(t) == k
  {
    FirstIndexAt(t, IsSpace, k);
  }

  /** The first index is fixed by the run of failures before it and the success at it. */
  lemma {:induction false} FirstIndexAt(s: string, p: char -> bool, k: nat)
    requires k <= |s| && forall j :: 0 <= j < k ==> !p(s[j])
    requires k < |s| ==> p(s[k])
    ensures FirstIndex(s, p) == k
    decreases k
  {
    if k > 0 {
      assert !p(s[0]);
      assert forall j :: 0 <= j < k - 1 ==> s[1..][j] == s[j + 1];
      FirstIndexAt(s[1..], p, k - 1);
    }
  }

  /** Leading whitespace makes no word. */
  lemma SplitWhitespaceSkipSpace(s: string)
    requires s != [] && IsSpace(s[0])
    ensures SplitWhitespace(s) == SplitWhitespace(s[1..])
  {
    assert LStrip(s) == LStrip(s[1..]);
  }

  /** `s.split()` after stripping the leading whitespace is `s.split()`. */
  lemma SplitWhitespaceLStrip(s: string)
    ensures SplitWhitespace(LStrip(s)) == SplitWhitespace(s)
  {
    assert LStrip(LStrip(s)) == LStrip(s);
  }

  /** A text that starts with a word splits into that word and the rest. */
  lemma SplitWhitespaceFirst(t: string)
    requires t != [] && !IsSpace(t[0])
    ensures SplitWhitespace(t) == [t[..FirstSpace(t)]] + SplitWhitespace(t[FirstSpace(t)..])
  {
    assert LStrip(t) == t;
  }

  /** A non-whitespace character followed by whitespace, or by nothing, is a word of its own. */
  lemma SplitWhitespaceConsAlone(a: char, s: string)
    requires !IsSpace(a) && (s == [] || IsSpace(s[0]))
    ensures SplitWhitespace([a] + s) == [[a]] + SplitWhitespace(s)
  {
    var t := [a] + s;
    SplitWhitespaceFirst(t);
    FirstSpaceAt(t, 1);
    assert t[..1] == [a];
    assert t[1..] == s;
  }

  /** A non-whitespace character in front of a word joins that word. */
  lemma SplitWhitespaceConsJoin(a: char, s: string)
    requires !IsSpace(a) && s != [] && !IsSpace(s[0])
    ensures SplitWhitespace(s) != []
    ensures SplitWhitespace([a] + s) == [[a] + SplitWhitespace(s)[0]] + SplitWhitespace(s)[1..]
  {
    var k := FirstSpace(s);
    FirstSpaceCons(a, s);
    ConsSlices(a, s, k);
    SplitWhitespaceFirst(s);
    SplitWhitespaceFirst([a] + s);
  }

  /** The first word of `[a] + s` ends one place further along than that of `s`. */
  lemma FirstSpaceCons(a: char, s: string)
    requires !IsSpace(a) && s != [] && !IsSpace(s[0])
    ensures FirstSpace([a] + s) == 1 + FirstSpace(s)
  {
    var k := FirstSpace(s);
    assert forall j :: 0 <= j < k ==> !IsSpace(s[j]) by {
      assert forall j :: 0 <= j < k ==> s[j] == s[..k][j];
    }
    ConsSlices(a, s, k);
    FirstSpaceAt([a] + s, k + 1);
  }

  /** Cutting `[a] + s` one place further along cuts `s` at the same place. */
  lemma ConsSlices(a: char, s: string, k: nat)
    requires k <= |s|
    ensures ([a] + s)[..k + 1] == [a] + s[..k]
    ensures ([a] + s)[k + 1..] == s[k..]
    ensures forall j :: 0 < j < k + 1 ==> ([a] + s)[j] == s[j - 1]
  {
  }

  /** Trailing whitespace after one more leading character still makes no word. */
  lemma SplitWhitespaceTrailingCons(a: char, y: string, sp: string)
    requires !IsSpace(a)
    requires forall j :: 0 <= j < |sp| ==> IsSpace(sp[j])
    requires SplitWhitespace(y + sp) == SplitWhitespace(y)
    ensures SplitWhitespace([a] + (y + sp)) == SplitWhitespace([a] + y)
  {
    if y != [] && !IsSpace(y[0]) {
      assert (y + sp)[0] == y[0];
      SplitWhitespaceConsJoin(a, y + sp);
      SplitWhitespaceConsJoin(a, y);
    } else {
      assert y + sp == [] || IsSpace((y + sp)[0]);
      SplitWhitespaceConsAlone(a, y + sp);
      SplitWhitespaceConsAlone(a, y);
    }
  }

  /** Trailing whitespace makes no word. */
  lemma {:induction false} SplitWhitespaceTrailing(x: string, sp: string)
    requires forall j :: 0 <= j < |sp| ==> IsSpace(sp[j])
    ensures SplitWhitespace(x + sp) == SplitWhitespace(x)
    decreases |x|
  {
    if x == [] {
      assert x + sp == sp;
      assert LStrip(sp) == [];
    } else {
      var y := x[1..];
      assert x == [x[0]] + y;
      assert x + sp == [x[0]] + (y + sp);
      SplitWhitespaceTrailing(y, sp);
      if IsSpace(x[0]) {
        SplitWhitespaceSkipSpace([x[0]] + (y + sp));
        SplitWhitespaceSkipSpace(x);
      } else {
        SplitWhitespaceTrailingCons(x[0], y, sp);
      }
    }
  }

  /** `s.strip().split()` is `s.split()`. */
  lemma {:induction false} SplitWhitespaceStrip(s: string)
    ensures SplitWhitespace(Strip(s)) == SplitWhitespace(s)
    decreases |s|
  {
    if s != [] && IsSpace(s[0]) {
      SplitWhitespaceStrip(s[1..]);
      SplitWhitespaceSkipSpace(s);
    } else {
      var r := RStrip(s);
      assert s == r + s[|r|..];
      SplitWhitespaceTrailing(r, s[|r|..]);
    }
  }

  // ---------------------------------------------------------------- counting

  /** `s.count(sub)` for a non-empty `sub`: non-overlapping occurrences, scanning left to right. */
  function CountSub(s: string, sub: string): nat
    requires sub != []
    decreases |s|
  {
    if |s| < |sub| then 0
    else if s[..|sub|] == sub then 1 + CountSub(s[|sub|..], sub)
    else CountSub(s[1..], sub)
  }

  /** Counting a one-character string counts that character. */
  lemma {:induction false} CountSubChar(s: string, c: char)
    ensures CountSub(s, [c]) == multiset(s)[c]
    decreases |s|
  {
    if s != [] {
      CountSubChar(s[1..], c);
      assert s == [s[0]] + s[1..];
      assert s[1..] == s[|[c]|..];
    }
  }

  /** `s.count(sub)` is zero exactly when `sub` does not occur in `s`. */
  lemma {:induction false} CountSubZero(s: string, sub: string)
    requires sub != []
    ensures CountSub(s, sub) == 0 <==> !Contains(s, sub)
    decreases |s|
  {
    if |s| < |sub| {
      NotContainsShort(s, sub);
    } else if s[..|sub|] != sub {
      CountSubZero(s[1..], sub);
    }
  }

  lemma {:induction false} NotContainsShort(s: string, sub: string)
    requires |s| < |sub|
    ensures !Contains(s, sub)
    decreases |s|
  {
    if s != [] {
      NotContainsShort(s[1..], sub);
    }
  }

  /** Occurrences are disjoint, so they fit in the string. */
  lemma {:induction false} CountSubBound(s: string, sub: string)
    requires sub != []
    ensures CountSub(s, sub) * |sub| <= |s|
    decreases |s|
  {
    if |s| >= |sub| {
      if s[..|sub|] == sub {
        CountSubBound(s[|sub|..], sub);
        assert CountSub(s, sub) == 1 + CountSub(s[|sub|..], sub);
        OneMoreFits(CountSub(s[|sub|..], sub), |sub|, |s| - |sub|);
      } else {
        CountSubBound(s[1..], sub);
        assert CountSub(s, sub) == CountSub(s[1..], sub);
      }
    }
  }

  lemma OneMoreFits(k: nat, m: nat, rest: nat)
    requires k * m <= rest
    ensures (1 + k) * m <= rest + m
  {
  }

  // ---------------------------------------------------------------- whole words: \b(w1|...|wn)\b

  predicate WordCharAt(s: string, i: int) {
    0 <= i < |s| && IsWordChar(s[i])
  }

  /** `\b` at position `i`: a word character on exactly one side. */
  predicate Boundary(s: string, i: int) {
    WordCharAt(s, i - 1) != WordCharAt(s, i)
  }

  /** `\b(w)\b` matches at `p`: `w` occurs there with a word boundary on both sides. */
  predicate WholeAt(s: string, w: string, p: nat) {
    p + |w| <= |s| && Boundary(s, p) && s[p..p + |w|] == w && Boundary(s, p + |w|)
  }

  /** The length of the first alternative that matches `\b(alt)\b` at `i`, tried in order. */
  function MatchAt(s: string, alts: seq<string>, i: nat): Option<nat>
    requires i <= |s|
    decreases |alts|
  {
    if alts == [] then None
    else if WholeAt(s, alts[0], i) then Some(|alts[0]|)
    else MatchAt(s, alts[1..], i)
  }

  /** A match is one of the alternatives, occurring at `i` as a whole word. */
  lemma {:induction false} MatchAtWhole(s: string, alts: seq<string>, i: nat)
    requires i <= |s|
    ensures MatchAt(s, alts, i).Some? ==>
      exists k :: 0 <= k < |alts| && MatchAt(s, alts, i).value == |alts[k]| && WholeAt(s, alts[k], i)
    decreases |alts|
  {
    if alts != [] && !WholeAt(s, alts[0], i) {
      MatchAtWhole(s, alts[1..], i);
      if MatchAt(s, alts, i).Some? {
        var k :| 0 <= k < |alts[1..]| && MatchAt(s, alts[1..], i).value == |alts[1..][k]| && WholeAt(s, alts[1..][k], i);
        assert alts[1..][k] == alts[k + 1];
      }
    }
  }

  /** Some alternative matches at `p` whenever one of them occurs there as a whole word. */
  lemma {:induction false} MatchAtFinds(s: string, alts: seq<string>, p: nat, k: nat)
    requires p <= |s| && k < |alts| && WholeAt(s, alts[k], p)
    ensures MatchAt(s, alts, p).Some?
    decreases k
  {
    if k > 0 && !WholeAt(s, alts[0], p) {
      assert alts[1..][k - 1] == alts[k];
      MatchAtFinds(s, alts[1..], p, k - 1);
    }
  }

  predicate NonEmptyAll(alts: seq<string>) {
    forall k :: 0 <= k < |alts| ==> alts[k] != []
  }

  /** `len(re.findall(r"\b(w1|...|wn)\b", s[i..]))`, scanning from position `i` of `s`. */
  function CountWords(s: string, alts: seq<string>, i: nat): nat
    requires i <= |s|
    requires NonEmptyAll(alts)
    decreases |s| - i
  {
    if i == |s| then 0
    else
      match MatchAt(s, alts, i)
      case Some(len) =>
        MatchAtWhole(s, alts, i);
        1 + CountWords(s, alts, i + len)
      case None => CountWords(s, alts, i + 1)
  }

  /**
   * The scan from `i` finds a match exactly when some alternative occurs as a
   * whole word at or after `i`: a match is such an occurrence, and the scan
   * cannot step over one without matching.
   */
  lemma {:induction false} CountWordsPositive(s: string, alts: seq<string>, i: nat)
    requires i <= |s|
    requires NonEmptyAll(alts)
    ensures CountWords(s, alts, i) > 0 <==> exists p, k :: i <= p < |s| && 0 <= k < |alts| && WholeAt(s, alts[k], p)
    decreases |s| - i
  {
    if i < |s| {
      var m := MatchAt(s, alts, i);
      MatchAtWhole(s, alts, i);
      if m.Some? {
        var k :| 0 <= k < |alts| && m.value == |alts[k]| && WholeAt(s, alts[k], i);
      } else {
        CountWordsPositive(s, alts, i + 1);
        forall k | 0 <= k < |alts| && WholeAt(s, alts[k], i) ensures false {
          MatchAtFinds(s, alts, i, k);
        }
      }
    }
  }

  /** Each match consumes at least one character. */
  lemma {:induction false} CountWordsBound(s: string, alts: seq<string>, i: nat)
    requires i <= |s|
    requires NonEmptyAll(alts)
    ensures CountWords(s, alts, i) <= |s| - i
    decreases |s| - i
  {
    if i < |s| {
      var m := MatchAt(s, alts, i);
      MatchAtWhole(s, alts, i);
      if m.Some? {
        var k :| 0 <= k < |alts| && m.value == |alts[k]| && WholeAt(s, alts[k], i);
        assert alts[k] != [];
        CountWordsBound(s, alts, i + m.value);
      } else {
        CountWordsBound(s, alts, i + 1);
      }
    }
  }

  /** Every alternative is a non-empty run of word characters. */
  predicate WordAlts(alts: seq<string>) {
    forall k, j :: 0 <= k < |alts| && 0 <= j < |alts[k]| ==> IsWordChar(alts[k][j])
  }

  /** Some alternative occurs at `p` as a whole word. */
  predicate WholeAny(s: string, alts: seq<string>, p: nat) {
    exists k :: 0 <= k < |alts| && WholeAt(s, alts[k], p)
  }

  /** The number of positions from `i` on at which some alternative occurs as a whole word. */
  function WholeCount(s: string, alts: seq<string>, i: nat): nat
    decreases |s| - i
  {
    if i >= |s| then 0 else (if WholeAny(s, alts, i) then 1 else 0) + WholeCount(s, alts, i + 1)
  }

  /** No alternative starts with `c`. */
  predicate StartsNone(alts: seq<string>, c: char) {
    forall m :: 0 <= m < |alts| && alts[m] != [] ==> alts[m][0] != c
  }

  /**
   * Strictly inside every alternative, each character either follows a word
   * character while being one itself (no `\b` there), or starts no
   * alternative: no whole-word match can begin inside another.
   */
  predicate NoInnerStart(alts: seq<string>) {
    forall k, j :: 0 <= k < |alts| && 0 < j < |alts[k]| ==>
      (IsWordChar(alts[k][j - 1]) && IsWordChar(alts[k][j])) || StartsNone(alts, alts[k][j])
  }

  /** Alternatives made of word characters cannot start inside one another. */
  lemma WordAltsNoInnerStart(alts: seq<string>)
    requires WordAlts(alts)
    ensures NoInnerStart(alts)
  {
  }

  /** No whole word starts strictly inside a match, so those positions add nothing to the count. */
  lemma {:induction false} SkipInsideMatch(s: string, alts: seq<string>, i: nat, k: nat, q: nat)
    requires NonEmptyAll(alts) && NoInnerStart(alts)
    requires k < |alts| && WholeAt(s, alts[k], i)
    requires i < q <= i + |alts[k]|
    ensures WholeCount(s, alts, q) == WholeCount(s, alts, i + |alts[k]|)
    decreases i + |alts[k]| - q
  {
    if q < i + |alts[k]| {
      NoStartInside(s, alts, i, k, q);
      SkipInsideMatch(s, alts, i, k, q + 1);
    }
  }

  lemma NoStartInside(s: string, alts: seq<string>, i: nat, k: nat, q: nat)
    requires NonEmptyAll(alts) && NoInnerStart(alts)
    requires k < |alts| && WholeAt(s, alts[k], i)
    requires i < q < i + |alts[k]|
    ensures !WholeAny(s, alts, q)
  {
    var w := alts[k];
    var j := q - i;
    assert s[q - 1] == s[i..i + |w|][j - 1] == w[j - 1];
    assert s[q] == s[i..i + |w|][j] == w[j];
    if IsWordChar(w[j - 1]) && IsWordChar(w[j]) {
      assert !Boundary(s, q);
    } else {
      assert StartsNone(alts, w[j]);
      forall m | 0 <= m < |alts| ensures WholeAt(s, alts[m], q) ==> alts[m][0] == s[q] {
        if q + |alts[m]| <= |s| {
          assert s[q..q + |alts[m]|][0] == s[q];
        }
      }
    }
  }

  /** A whole word at `i` counts once, and nothing else starts inside it. */
  lemma WholeCountStep(s: string, alts: seq<string>, i: nat, k: nat)
    requires NonEmptyAll(alts) && NoInnerStart(alts)
    requires k < |alts| && WholeAt(s, alts[k], i)
    ensures i < |s|
    ensures WholeCount(s, alts, i) == 1 + WholeCount(s, alts, i + |alts[k]|)
  {
    assert WholeAny(s, alts, i);
    SkipInsideMatch(s, alts, i, k, i + 1);
  }

  /**
   * When no alternative can start inside another's whole-word match (as with
   * alternatives made of word characters), the scan counts exactly the
   * positions where some alternative occurs as a whole word: consuming a
   * match skips none.
   */
  lemma {:induction false} CountWordsWhole(s: string, alts: seq<string>, i: nat)
    requires i <= |s|
    requires NonEmptyAll(alts) && NoInnerStart(alts)
    ensures CountWords(s, alts, i) == WholeCount(s, alts, i)
    decreases |s| - i
  {
    if i < |s| {
      MatchAtWhole(s, alts, i);
      var m := MatchAt(s, alts, i);
      if m.Some? {
        var k :| 0 <= k < |alts| && m.value == |alts[k]| && WholeAt(s, alts[k], i);
        assert CountWords(s, alts, i) == 1 + CountWords(s, alts, i + m.value);
        CountWordsWhole(s, alts, i + m.value);
        WholeCountStep(s, alts, i, k);
      } else {
        forall k | 0 <= k < |alts| && WholeAt(s, alts[k], i) ensures false {
          MatchAtFinds(s, alts, i, k);
        }
        assert !WholeAny(s, alts, i);
        assert CountWords(s, alts, i) == CountWords(s, alts, i + 1);
        assert WholeCount(s, alts, i) == WholeCount(s, alts, i + 1);
        CountWordsWhole(s, alts, i + 1);
      }
    }
  }

  // ---------------------------------------------------------------- decimal rendering

  function Digit(d: nat): (c: char)
    requires d < 10
    ensures '0' <= c <= '9'
  {
    ['0', '1', '2', '3', '4', '5', '6', '7', '8', '9'][d]
  }

  /** `str(n)` for a natural number. */
  function NatToString(n: nat): (r: string)
    ensures r != [] && forall i :: 0 <= i < |r| ==> '0' <= r[i] <= '9'
    ensures n >= 10 ==> |r| >= 2
  {
    if n < 10 then [Digit(n)] else NatToString(n / 10) + [Digit(n % 10)]
  }

  /** `str(i)` for an integer. */
  function IntToString(i: int): string {
    if i < 0 then "-" + NatToString(-i) else NatToString(i)
  }

  lemma DigitInjective(a: nat, b: nat)
    requires a < 10 && b < 10 && Digit(a) == Digit(b)
    ensures a == b
  {
  }

  lemma {:induction false} NatToStringInjective(a: nat, b: nat)
    requires NatToString(a) == NatToString(b)
    ensures a == b
    decreases a
  {
    if a >= 10 && b >= 10 {
      var ra, rb := NatToString(a), NatToString(b);
      assert ra[|ra| - 1] == Digit(a % 10) && rb[|rb| - 1] == Digit(b % 10);
      DigitInjective(a % 10, b % 10);
      assert NatToString(a / 10) == ra[..|ra| - 1] == rb[..|rb| - 1] == NatToString(b / 10);
      NatToStringInjective(a / 10, b / 10);
    } else if a < 10 && b < 10 {
      DigitInjective(a, b);
    }
  }

  lemma IntToStringSign(i: int)
    ensures IntToString(i) != []
    ensures IntToString(i)[0] == '-' <==> i < 0
  {
    if i >= 0 {
      assert '0' <= NatToString(i)[0] <= '9';
    }
  }

  /** Distinct integers render as distinct decimal strings. */
  lemma IntToStringInjective(a: int, b: int)
    requires IntToString(a) == IntToString(b)
    ensures a == b
  {
    IntToStringSign(a);
    IntToStringSign(b);
    if a < 0 {
      assert b < 0;
      NegativeInjective(a, b);
    } else {
      assert b >= 0;
      NatToStringInjective(a, b);
    }
  }

  lemma NegativeInjective(a: int, b: int)
    requires a < 0 && b < 0 && IntToString(a) == IntToString(b)
    ensures a == b
  {
    SignedTail(a);
    SignedTail(b);
    NatToStringInjective(-a, -b);
  }

  /** After the sign of a negative number come the digits of its absolute value. */
  lemma SignedTail(i: int)
    requires i < 0
    ensures IntToString(i)[1..] == NatToString(-i)
  {
  }

  // ---------------------------------------------------------------- ordering

  /** Python's `a <= b` on strings: code-point lexicographic order. */
  predicate LexLe(a: string, b: string)
    decreases |a|
  {
    if a == [] then true
    else if b == [] then false
    else if a[0] != b[0] then a[0] < b[0]
    else LexLe(a[1..], b[1..])
  }

  lemma {:induction false} LexLeReflexive(a: string)
    ensures LexLe(a, a)
    decreases |a|
  {
    if a != [] {
      LexLeReflexive(a[1..]);
    }
  }

  lemma {:induction false} LexLeTotal(a: string, b: string)
    ensures LexLe(a, b) || LexLe(b, a)
    decreases |a|
  {
    if a != [] && b != [] && a[0] == b[0] {
      LexLeTotal(a[1..], b[1..]);
    }
  }

  lemma {:induction false} LexLeTransitive(a: string, b: string, c: string)
    requires LexLe(a, b) && LexLe(b, c)
    ensures LexLe(a, c)
    decreases |a|
  {
    if a != [] && b != [] && c != [] && a[0] == b[0] && b[0] == c[0] {
      LexLeTransitive(a[1..], b[1..], c[1..]);
    }
  }

  lemma {:induction false} LexLeAntisymmetric(a: string, b: string)
    requires LexLe(a, b) && LexLe(b, a)
    ensures a == b
    decreases |a|
  {
    if a != [] && b != [] {
      LexLeAntisymmetric(a[1..], b[1..]);
      assert a == [a[0]] + a[1..];
      assert b == [b[0]] + b[1..];
    }
  }

  /** The largest of a non-empty list of strings, `sorted(names)[-1]`. */
  function LexMax(names: seq<string>): (m: string)
    requires names != []
    ensures m in names
    ensures forall n :: n in names ==> LexLe(n, m)
    decreases |names|
  {
    if |names| == 1 then
      LexLeReflexive(names[0]);
      names[0]
    else
      var rest := LexMax(names[1..]);
      LexLeTotal(names[0], rest);
      assert rest in names[1..] && names == [names[0]] + names[1..];
      if LexLe(names[0], rest) then
        assert forall n :: n in names ==> n == names[0] || n in names[1..];
        rest
      else
        LexLeReflexive(names[0]);
        assert forall n :: n in names[1..] ==> LexLe(n, names[0]) by {
          forall n | n in names[1..] ensures LexLe(n, names[0]) {
            LexLeTransitive(n, rest, names[0]);
          }
        }
        assert forall n :: n in names ==> n == names[0] || n in names[1..];
        names[0]
  }
}
