/**
 * Content cleaning of src/chunker.py: the substitution pipeline of `_clean_markdown` and the white-space
 * collapse applied to the text `_strip_html` extracts. Each regular expression of the pipeline is modelled
 * by the match it makes at a position (all of them are anchored on a literal first character and end at
 * the first occurrence of a closing delimiter), and `re.sub` by a left-to-right scan that replaces each
 * match and copies every other character.
 */
module Cleaning {
  import opened Wrappers
  import opened Text

  // ---------------------------------------------------------------------------
  // Searching
  // ---------------------------------------------------------------------------

  /** The first index at or after `from` holding `c`. */
  function FindChar(s: string, c: char, from: nat): (r: Option<nat>)
    ensures r.Some? ==> from <= r.value < |s| && s[r.value] == c
    ensures r.Some? ==> forall j :: from <= j < r.value ==> s[j] != c
    ensures r.None? ==> forall j :: from <= j < |s| ==> s[j] != c
    decreases |s| - from
  {
    if from >= |s| then None
    else if s[from] == c then Some(from)
    else FindChar(s, c, from + 1)
  }

  predicate FenceAt(s: string, j: nat) {
    j + 3 <= |s| && s[j..j + 3] == "```"
  }

  /** The first index at or after `from` where three backticks start. */
  function FindFence(s: string, from: nat): (r: Option<nat>)
    ensures r.Some? ==> from <= r.value && FenceAt(s, r.value)
    ensures r.Some? ==> forall j :: from <= j < r.value ==> !FenceAt(s, j)
    ensures r.None? ==> forall j :: from <= j ==> !FenceAt(s, j)
    decreases |s| - from
  {
    if from + 3 > |s| then None
    else if FenceAt(s, from) then Some(from)
    else FindFence(s, from + 1)
  }

  // ---------------------------------------------------------------------------
  // The substitutions between front matter and blank lines
  // ---------------------------------------------------------------------------

  /**
   * The four substitutions of `_clean_markdown` that rewrite markup:
   * `<[^>]+>` to a space, `!\[([^\]]*)\]\([^)]*\)` and `\[([^\]]*)\]\([^)]*\)` to their bracketed text,
   * and a fenced block `` ```[^\n]*\n(.*?)``` `` to its content.
   */
  datatype Rule = InlineTag | Image | Link | Fence

  /** A match: where it ends (exclusive) and what replaces it. */
  datatype Match = Match(end: nat, replacement: string)

  /** `[text](target)` starting at `open`: the text ends at the first `]`, the target at the first `)`. */
  function BracketLink(s: string, open: nat): (r: Option<Match>)
    requires open < |s| && s[open] == '['
    ensures r.Some? ==> open < r.value.end <= |s| && |r.value.replacement| < r.value.end - open
  {
    match FindChar(s, ']', open + 1)
    case None => None
    case Some(close) =>
      if close + 1 < |s| && s[close + 1] == '(' then
        match FindChar(s, ')', close + 2)
        case None => None
        case Some(paren) => Some(Match(paren + 1, s[open + 1..close]))
      else None
  }

  /** The match `rule` makes at position `i` of `s`, if any. */
  function MatchAt(rule: Rule, s: string, i: nat): (r: Option<Match>)
    requires i < |s|
    ensures r.Some? ==> i < r.value.end <= |s|
    ensures r.Some? ==> |r.value.replacement| < r.value.end - i
  {
    match rule
    case InlineTag =>
      if s[i] != '<' then None
      else (
        match FindChar(s, '>', i + 1)
        case Some(k) => if k >= i + 2 then Some(Match(k + 1, " ")) else None
        case None => None)
    case Image =>
      if s[i] == '!' && i + 1 < |s| && s[i + 1] == '[' then
        match BracketLink(s, i + 1)
        case Some(m) => Some(m)
        case None => None
      else None
    case Link =>
      if s[i] == '[' then BracketLink(s, i) else None
    case Fence =>
      if FenceAt(s, i) then
        match FindChar(s, '\n', i + 3)
        case None => None
        case Some(nl) =>
          match FindFence(s, nl + 1)
          case None => None
          case Some(close) => Some(Match(close + 3, s[nl + 1..close]))
      else None
  }

  /** `re.sub(rule, repl, s[i:])`: scan from `i`, replace each match, copy every other character. */
  function SubFrom(rule: Rule, s: string, i: nat): (r: string)
    requires i <= |s|
    ensures |r| <= |s| - i
    decreases |s| - i
  {
    if i == |s| then ""
    else
      match MatchAt(rule, s, i)
      case Some(m) => m.replacement + SubFrom(rule, s, m.end)
      case None => [s[i]] + SubFrom(rule, s, i + 1)
  }

  /** `re.sub(rule, repl, s)`: every replacement is shorter than its match, so the text never grows. */
  function Sub(rule: Rule, s: string): (r: string)
    ensures |r| <= |s|
    ensures s == [] ==> r == []
  {
    SubFrom(rule, s, 0)
  }

  /** A substitution leaves text in which its pattern never matches unchanged. */
  lemma {:induction false} SubFromNoMatch(rule: Rule, s: string, i: nat)
    requires i <= |s|
    requires forall j :: i <= j < |s| ==> MatchAt(rule, s, j).None?
    ensures SubFrom(rule, s, i) == s[i..]
    decreases |s| - i
  {
    if i < |s| {
      SubFromNoMatch(rule, s, i + 1);
      assert s[i..] == [s[i]] + s[i + 1..];
    }
  }

  lemma SubNoMatch(rule: Rule, s: string)
    requires forall j :: 0 <= j < |s| ==> MatchAt(rule, s, j).None?
    ensures Sub(rule, s) == s
  {
    SubFromNoMatch(rule, s, 0);
  }

  /** Text with no `<` has no inline tag to strip, and text with no `[` has no image or link to rewrite. */
  lemma MarkerFreeUnchanged(s: string)
    ensures (forall j :: 0 <= j < |s| ==> s[j] != '<') ==> Sub(InlineTag, s) == s
    ensures (forall j :: 0 <= j < |s| ==> s[j] != '[') ==> Sub(Link, s) == s && Sub(Image, s) == s
  {
    if forall j :: 0 <= j < |s| ==> s[j] != '<' {
      SubNoMatch(InlineTag, s);
    }
    if forall j :: 0 <= j < |s| ==> s[j] != '[' {
      SubNoMatch(Link, s);
      SubNoMatch(Image, s);
    }
  }

  // ---------------------------------------------------------------------------
  // Collapsing runs: `\n{3,}` -> "\n\n" and `\s{2,}` -> " "
  // ---------------------------------------------------------------------------

  datatype RunKind = Newlines | Blanks

  predicate InRun(kind: RunKind, c: char) {
    match kind
    case Newlines => c == '\n'
    case Blanks => IsSpace(c)
  }

  /** The shortest run the pattern matches: three newlines, or two white-space characters. */
  function MinRun(kind: RunKind): nat {
    match kind
    case Newlines => 3
    case Blanks => 2
  }

  function RunReplacement(kind: RunKind): string {
    match kind
    case Newlines => "\n\n"
    case Blanks => " "
  }

  /** The length of the run of `kind` characters `s` starts with. */
  function LeadingRun(s: string, kind: RunKind): (n: nat)
    ensures n <= |s|
    ensures forall i :: 0 <= i < n ==> InRun(kind, s[i])
    ensures n < |s| ==> !InRun(kind, s[n])
  {
    if s == [] || !InRun(kind, s[0]) then 0 else 1 + LeadingRun(s[1..], kind)
  }

  /** The length of the run starting at position `i`. */
  function RunAt(s: string, i: nat, kind: RunKind): nat
    requires i <= |s|
  {
    LeadingRun(s[i..], kind)
  }

  /** No position of `s` starts a run as long as the pattern needs. */
  predicate NoLongRun(s: string, kind: RunKind) {
    forall i :: 0 <= i < |s| ==> RunAt(s, i, kind) < MinRun(kind)
  }

  /**
   * `re.sub` with a greedy run pattern: a maximal run at least `MinRun` long becomes the replacement;
   * shorter runs and other characters are copied.
   */
  function CollapseRuns(s: string, kind: RunKind): (r: string)
    ensures NoLongRun(r, kind)
    ensures (s == [] || !InRun(kind, s[0])) ==> (r == [] || !InRun(kind, r[0]))
    decreases |s|
  {
    if s == [] then []
    else
      var n := LeadingRun(s, kind);
      if n == 0 then
        var rest := CollapseRuns(s[1..], kind);
        NoLongRunAfterOther(s[0], rest, kind);
        [s[0]] + rest
      else
        var piece := if n >= MinRun(kind) then RunReplacement(kind) else s[..n];
        var rest := CollapseRuns(s[n..], kind);
        NoLongRunAfterShortRun(piece, rest, kind);
        piece + rest
  }

  lemma {:induction false} LeadingRunConcat(a: string, b: string, kind: RunKind)
    requires forall i :: 0 <= i < |a| ==> InRun(kind, a[i])
    requires b == [] || !InRun(kind, b[0])
    ensures LeadingRun(a + b, kind) == |a|
    decreases |a|
  {
    if a == [] {
      assert a + b == b;
    } else {
      assert (a + b)[1..] == a[1..] + b;
      LeadingRunConcat(a[1..], b, kind);
    }
  }

  lemma NoLongRunAfterOther(c: char, t: string, kind: RunKind)
    requires !InRun(kind, c) && NoLongRun(t, kind)
    ensures NoLongRun([c] + t, kind)
  {
    var s := [c] + t;
    forall i | 0 <= i < |s| ensures RunAt(s, i, kind) < MinRun(kind) {
      if i > 0 {
        assert s[i..] == t[i - 1..];
        assert RunAt(s, i, kind) == RunAt(t, i - 1, kind);
      }
    }
  }

  lemma NoLongRunAfterShortRun(piece: string, t: string, kind: RunKind)
    requires |piece| < MinRun(kind) && forall i :: 0 <= i < |piece| ==> InRun(kind, piece[i])
    requires t == [] || !InRun(kind, t[0])
    requires NoLongRun(t, kind)
    ensures NoLongRun(piece + t, kind)
  {
    var s := piece + t;
    forall i | 0 <= i < |s| ensures RunAt(s, i, kind) < MinRun(kind) {
      if i < |piece| {
        assert s[i..] == piece[i..] + t;
        LeadingRunConcat(piece[i..], t, kind);
      } else {
        assert s[i..] == t[i - |piece|..];
        assert RunAt(s, i, kind) == RunAt(t, i - |piece|, kind);
      }
    }
  }

  lemma {:induction false} LeadingRunOfPrefix(s: string, k: nat, kind: RunKind)
    requires k <= |s|
    ensures LeadingRun(s[..k], kind) <= LeadingRun(s, kind)
    decreases k
  {
    if k > 0 && InRun(kind, s[0]) {
      assert s[..k][1..] == s[1..][..k - 1];
      LeadingRunOfPrefix(s[1..], k - 1, kind);
    }
  }

  /** A piece of text without long runs has none either. */
  lemma NoLongRunSlice(s: string, a: nat, b: nat, kind: RunKind)
    requires a <= b <= |s| && NoLongRun(s, kind)
    ensures NoLongRun(s[a..b], kind)
  {
    var t := s[a..b];
    forall i | 0 <= i < |t| ensures RunAt(t, i, kind) < MinRun(kind) {
      assert t[i..] == s[a + i..][..b - a - i];
      LeadingRunOfPrefix(s[a + i..], b - a - i, kind);
      assert RunAt(s, a + i, kind) < MinRun(kind);
    }
  }

  lemma StripKeepsNoLongRun(s: string, kind: RunKind)
    requires NoLongRun(s, kind)
    ensures NoLongRun(Strip(s), kind)
  {
    var a := StripIsSlice(s);
    SliceKeepsNoLongRun(s, Strip(s), a, kind);
  }

  /** A slice of a text without long runs has none either. */
  lemma SliceKeepsNoLongRun(s: string, t: string, a: nat, kind: RunKind)
    requires a + |t| <= |s| && t == s[a..a + |t|] && NoLongRun(s, kind)
    ensures NoLongRun(t, kind)
  {
    NoLongRunSlice(s, a, a + |t|, kind);
  }

  /** Collapsing runs keeps the words of the text: a run only ever becomes a shorter run of white space. */
  lemma CollapseKeepsWords(s: string, kind: RunKind)
    ensures Words(CollapseRuns(s, kind)) == Words(s)
  {
    CollapseKeepsWordsAfter([], s, kind);
    assert [] + CollapseRuns(s, kind) == CollapseRuns(s, kind);
    assert [] + s == s;
  }

  lemma {:induction false} CollapseKeepsWordsAfter(a: string, s: string, kind: RunKind)
    ensures Words(a + CollapseRuns(s, kind)) == Words(a + s)
    decreases |s|
  {
    if s != [] {
      var n := LeadingRun(s, kind);
      var piece := if n == 0 then [s[0]] else if n >= MinRun(kind) then RunReplacement(kind) else s[..n];
      var m := if n == 0 then 1 else n;
      CollapseStep(a, s, n, m, piece, kind);
      CollapseKeepsWordsAfter(a + piece, s[m..], kind);
      if n >= MinRun(kind) {
        RunIsSpace(s, n, kind);
        assert piece != [] && AllSpace(piece);
        WordsAroundRun(a, piece, s[m..]);
        WordsAroundRun(a, s[..m], s[m..]);
      }
    }
  }

  /**
   * One step of `CollapseRuns`: the first `m` characters become `piece` (the character outside a run, the
   * short run itself, or the replacement of a long run) and the rest is collapsed on its own.
   */
  lemma CollapseStep(a: string, s: string, n: nat, m: nat, piece: string, kind: RunKind)
    requires s != [] && n == LeadingRun(s, kind) && m == (if n == 0 then 1 else n)
    requires piece == if n == 0 then [s[0]] else if n >= MinRun(kind) then RunReplacement(kind) else s[..n]
    ensures m <= |s| && a + CollapseRuns(s, kind) == a + piece + CollapseRuns(s[m..], kind)
    ensures a + s == a + s[..m] + s[m..]
    ensures n < MinRun(kind) ==> piece == s[..m]
  {
    if n == 0 {
      CollapseOtherChar(s, kind);
    } else if n >= MinRun(kind) {
      CollapseLongRun(s, n, kind);
    } else {
      CollapseShortRun(s, n, kind);
    }
    PrefixConcat(a, piece, CollapseRuns(s[m..], kind), CollapseRuns(s, kind));
    PrefixConcat(a, s[..m], s[m..], s);
  }

  lemma PrefixConcat(a: string, p: string, r: string, x: string)
    requires x == p + r
    ensures a + x == a + p + r
  {
  }

  lemma CollapseOtherChar(s: string, kind: RunKind)
    requires s != [] && LeadingRun(s, kind) == 0
    ensures CollapseRuns(s, kind) == [s[0]] + CollapseRuns(s[1..], kind)
  {
  }

  lemma CollapseShortRun(s: string, n: nat, kind: RunKind)
    requires 0 < n <= |s| && n == LeadingRun(s, kind) && n < MinRun(kind)
    ensures CollapseRuns(s, kind) == s[..n] + CollapseRuns(s[n..], kind)
  {
  }

  lemma CollapseLongRun(s: string, n: nat, kind: RunKind)
    requires 0 < n <= |s| && n == LeadingRun(s, kind) && n >= MinRun(kind)
    ensures CollapseRuns(s, kind) == RunReplacement(kind) + CollapseRuns(s[n..], kind)
  {
  }

  lemma RunIsSpace(s: string, n: nat, kind: RunKind)
    requires n <= |s| && n == LeadingRun(s, kind)
    ensures AllSpace(s[..n])
  {
    forall i | 0 <= i < n ensures IsSpace(s[..n][i]) { assert InRun(kind, s[i]); }
  }

  // ---------------------------------------------------------------------------
  // Front matter: `^---\s*\n.*?\n---\s*\n` with re.DOTALL
  // ---------------------------------------------------------------------------

  /** The first index at or after `from` that is not white space. */
  function SpaceEnd(s: string, from: nat): (r: nat)
    requires from <= |s|
    ensures from <= r <= |s|
    ensures forall j :: from <= j < r ==> IsSpace(s[j])
    decreases |s| - from
  {
    if from < |s| && IsSpace(s[from]) then SpaceEnd(s, from + 1) else from
  }

  /** The last newline in `s[lo..hi]`. */
  function LastNewline(s: string, lo: nat, hi: nat): (r: Option<nat>)
    requires lo <= hi <= |s|
    ensures r.Some? ==> lo <= r.value < hi && s[r.value] == '\n'
    ensures r.Some? ==> forall j :: r.value < j < hi ==> s[j] != '\n'
    decreases hi
  {
    if hi == lo then None
    else if s[hi - 1] == '\n' then Some(hi - 1)
    else LastNewline(s, lo, hi - 1)
  }

  /** `\s*\n` at `j`, greedy: the match ends just after the last newline of the white space at `j`. */
  function SpacesThenNewline(s: string, j: nat): (r: Option<nat>)
    requires j <= |s|
    ensures r.Some? ==> j < r.value <= |s| && s[r.value - 1] == '\n'
  {
    match LastNewline(s, j, SpaceEnd(s, j))
    case Some(p) => Some(p + 1)
    case None => None
  }

  /** `.*?\n---\s*\n` from `q`, lazy: the closing delimiter at the first place where it matches. */
  function FindClosing(s: string, q: nat): (r: Option<nat>)
    requires q <= |s|
    ensures r.Some? ==> q < r.value <= |s| && s[r.value - 1] == '\n'
    decreases |s| - q
  {
    if q + 4 > |s| then None
    else if s[q..q + 4] == "\n---" && SpacesThenNewline(s, q + 4).Some? then SpacesThenNewline(s, q + 4)
    else FindClosing(s, q + 1)
  }

  /**
   * The opening `---\s*\n`: the greedy `\s*` first tries the last newline of the white space after
   * `---` (below `hi`), and backs off to earlier newlines while no closing delimiter follows.
   */
  function TryOpening(s: string, hi: nat): (r: Option<nat>)
    requires 3 <= hi <= |s|
    ensures r.Some? ==> 3 < r.value <= |s| && s[r.value - 1] == '\n'
    decreases hi
  {
    match LastNewline(s, 3, hi)
    case None => None
    case Some(p) =>
      match FindClosing(s, p + 1)
      case Some(e) => Some(e)
      case None => TryOpening(s, p)
  }

  /** Where the leading front-matter block ends, if the text starts with one. */
  function FrontMatterEnd(s: string): (r: Option<nat>)
    ensures r.Some? ==> 3 < r.value <= |s| && s[r.value - 1] == '\n'
  {
    if StartsWith(s, "---") then TryOpening(s, SpaceEnd(s, 3)) else None
  }

  /** `re.sub(r"^---\s*\n.*?\n---\s*\n", "", text, flags=re.DOTALL)`: `^` only matches at the start. */
  function StripFrontMatter(s: string): (r: string)
    ensures r == s || (StartsWith(s, "---") && |r| < |s| && r == s[|s| - |r|..])
    ensures !StartsWith(s, "---") ==> r == s
  {
    match FrontMatterEnd(s)
    case Some(e) => s[e..]
    case None => s
  }

  /**
   * A front-matter block of one line is stripped whole: `---`, a line that starts with a visible
   * character, and `---`, when the text after the block starts with a visible character.
   */
  lemma LeadingBlock(line: string, rest: string)
    requires line != [] && !IsSpace(line[0]) && forall j :: 0 <= j < |line| ==> line[j] != '\n'
    requires rest != [] && !IsSpace(rest[0])
    ensures StripFrontMatter("---\n" + line + "\n---\n" + rest) == rest
  {
    var s := "---\n" + line + "\n---\n" + rest;
    var n := |line|;
    assert s[..3] == "---" && s[3] == '\n' && s[4] == line[0];
    assert s[4..4 + n] == line;
    assert s[4 + n..8 + n] == "\n---" && s[8 + n] == '\n' && s[9 + n] == rest[0];
    assert s[9 + n..] == rest;
    assert SpaceEnd(s, 3) == 4;
    assert LastNewline(s, 3, 4) == Some(3);
    assert SpaceEnd(s, 8 + n) == 9 + n;
    assert LastNewline(s, 8 + n, 9 + n) == Some(8 + n);
    assert FindClosing(s, 4 + n) == Some(9 + n);
    forall j | 4 <= j < 4 + n
      ensures s[j] != '\n'
    {
      assert s[j] == line[j - 4];
    }
    ClosingAfterLine(s, 4, 4 + n);
  }

  /** The lazy search for the closing delimiter passes over a stretch without newlines. */
  lemma {:induction false} ClosingAfterLine(s: string, q: nat, e: nat)
    requires q <= e <= |s| && forall j :: q <= j < e ==> s[j] != '\n'
    ensures FindClosing(s, q) == FindClosing(s, e)
    decreases e - q
  {
    if q < e {
      if q + 4 <= |s| {
        assert s[q..q + 4][0] == s[q];
      }
      ClosingAfterLine(s, q + 1, e);
    }
  }

  /** A front-matter block whose one line is the character `x`. */
  function FrontMatterBlock(x: char): string {
    "---\n" + [x] + "\n---\n"
  }

  /**
   * Front-matter stripping is not idempotent: of two stacked blocks one pass removes only the first,
   * and a second pass removes the other.
   */
  lemma FrontMatterNotIdempotent(x: char, y: char, rest: string)
    requires !IsSpace(x) && !IsSpace(y) && rest != [] && !IsSpace(rest[0])
    ensures StripFrontMatter(FrontMatterBlock(x) + FrontMatterBlock(y) + rest) == FrontMatterBlock(y) + rest
    ensures StripFrontMatter(StripFrontMatter(FrontMatterBlock(x) + FrontMatterBlock(y) + rest)) == rest
    ensures StripFrontMatter(StripFrontMatter(FrontMatterBlock(x) + FrontMatterBlock(y) + rest)) != StripFrontMatter(FrontMatterBlock(x) + FrontMatterBlock(y) + rest)
  {
    var t := FrontMatterBlock(y) + rest;
    assert t[0] == '-';
    LeadingBlock([x], t);
    assert FrontMatterBlock(x) + FrontMatterBlock(y) + rest == "---\n" + [x] + "\n---\n" + t;
    LeadingBlock([y], rest);
  }

  // ---------------------------------------------------------------------------
  // The pipelines
  // ---------------------------------------------------------------------------

  /**
   * `_clean_markdown`: front matter, inline tags, images, links, code fences, then runs of three or more
   * newlines become one blank line, and the result is stripped.
   */
  function CleanMarkdown(text: string): (r: string)
    ensures IsStripped(r)
    ensures NoLongRun(r, Newlines)
  {
    var t := Sub(Fence, Sub(Link, Sub(Image, Sub(InlineTag, StripFrontMatter(text)))));
    var collapsed := CollapseRuns(t, Newlines);
    StripKeepsNoLongRun(collapsed, Newlines);
    Strip(collapsed)
  }

  /**
   * The clean-up after `_strip_html` in `chunk_page`: every run of two or more white-space characters
   * becomes one space, then the text is stripped.
   */
  function CleanExtractedHtml(extracted: string): (r: string)
    ensures IsStripped(r)
    ensures NoLongRun(r, Blanks)
  {
    var collapsed := CollapseRuns(extracted, Blanks);
    StripKeepsNoLongRun(collapsed, Blanks);
    Strip(collapsed)
  }

  lemma ShortNewlineRun(s: string)
    requires |s| >= 3 && LeadingRun(s, Newlines) < 3
    ensures s[0] != '\n' || s[1] != '\n' || s[2] != '\n'
  {
    if s[0] == '\n' && s[1] == '\n' {
      assert s[1..][1..] == s[2..];
      assert LeadingRun(s, Newlines) == 2 + LeadingRun(s[2..], Newlines);
      assert LeadingRun(s[2..], Newlines) == 0;
    }
  }

  /** No run of three newlines: the cleaned markdown never has two blank lines in a row. */
  lemma CleanMarkdownNoTripleNewline(text: string, i: nat)
    requires i + 3 <= |CleanMarkdown(text)|
    ensures var r := CleanMarkdown(text); r[i] != '\n' || r[i + 1] != '\n' || r[i + 2] != '\n'
  {
    var r := CleanMarkdown(text);
    assert RunAt(r, i, Newlines) < 3;
    ShortNewlineRun(r[i..]);
  }
}
