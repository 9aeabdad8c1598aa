/**
 * The parts of Python's `str` that the pipeline relies on: `isspace`, `strip`, `lstrip`/`rstrip` of one
 * character, `split()` with no argument, `" ".join`, `splitlines`, `lower` and the `in` operator.
 */
module Text {

  /** `str.isspace` for one character (the characters CPython treats as white space). */
  predicate IsSpace(c: char) {
    var n := c as int;
    (9 <= n <= 13) || (28 <= n <= 32) || n == 0x85 || n == 0xA0 || n == 0x1680
    || (0x2000 <= n <= 0x200A) || n == 0x2028 || n == 0x2029 || n == 0x202F || n == 0x205F || n == 0x3000
  }

  /** The characters at which `str.splitlines` ends a line. */
  predicate IsLineBreak(c: char) {
    var n := c as int;
    (10 <= n <= 13) || (28 <= n <= 30) || n == 0x85 || n == 0x2028 || n == 0x2029
  }

  predicate AllSpace(s: string) {
    forall i :: 0 <= i < |s| ==> IsSpace(s[i])
  }

  /** A token of `str.split()`: non-empty and free of white space. */
  predicate IsWord(w: string) {
    w != [] && forall i :: 0 <= i < |w| ==> !IsSpace(w[i])
  }

  /** What `str.strip()` returns: nothing to strip at either end. */
  predicate IsStripped(s: string) {
    s == [] || (!IsSpace(s[0]) && !IsSpace(s[|s| - 1]))
  }

  function StripLeft(s: string): (r: string)
    ensures |r| <= |s| && r == s[|s| - |r|..]
    ensures r == [] || !IsSpace(r[0])
    ensures AllSpace(s[..|s| - |r|])
  {
    if s != [] && IsSpace(s[0]) then
      var r := StripLeft(s[1..]);
      assert s[..|s| - |r|] == [s[0]] + s[1..][..|s| - 1 - |r|];
      r
    else s
  }

  function StripRight(s: string): (r: string)
    ensures |r| <= |s| && r == s[..|r|]
    ensures r == [] || !IsSpace(r[|r| - 1])
    ensures AllSpace(s[|r|..])
  {
    if s != [] && IsSpace(s[|s| - 1]) then
      var r := StripRight(s[..|s| - 1]);
      assert s[|r|..] == s[..|s| - 1][|r|..] + [s[|s| - 1]];
      r
    else s
  }

  /** `str.strip()`: white space removed from both ends. */
  function Strip(s: string): (r: string)
    ensures IsStripped(r)
    ensures |r| <= |s|
    ensures IsStripped(s) ==> r == s
    ensures r == [] <==> AllSpace(s)
  {
    StripFacts(s);
    StripRight(StripLeft(s))
  }

  lemma StripFacts(s: string)
    ensures var r := StripRight(StripLeft(s)); IsStripped(r) && (r == [] <==> AllSpace(s))
  {
    var l := StripLeft(s);
    StripLeftBlank(s);
    StripRightBlank(l);
    StripRightStripped(l);
  }

  lemma StripLeftBlank(s: string)
    ensures AllSpace(s) <==> AllSpace(StripLeft(s))
  {
    AllSpaceSplit(s, |s| - |StripLeft(s)|);
  }

  lemma StripRightBlank(l: string)
    ensures AllSpace(l) <==> StripRight(l) == []
  {
    var r := StripRight(l);
    AllSpaceSplit(l, |r|);
    if r != [] {
      assert !IsSpace(r[|r| - 1]);
    }
  }

  lemma StripRightStripped(l: string)
    requires l == [] || !IsSpace(l[0])
    ensures IsStripped(StripRight(l))
  {
    var r := StripRight(l);
    if r != [] {
      assert r[0] == l[0];
    }
  }

  lemma AllSpaceSplit(s: string, k: nat)
    requires k <= |s|
    ensures AllSpace(s) <==> AllSpace(s[..k]) && AllSpace(s[k..])
  {
    assert s == s[..k] + s[k..];
  }

  /** `Strip(s)` is a contiguous piece of `s`. */
  lemma StripIsSlice(s: string) returns (a: nat)
    ensures a + |Strip(s)| <= |s| && Strip(s) == s[a..a + |Strip(s)|]
  {
    var l := StripLeft(s);
    a := |s| - |l|;
    assert Strip(s) == StripRight(l) == l[..|Strip(s)|];
  }

  /** `s.lstrip(c)` for a single character `c`. */
  function LStripChar(s: string, c: char): (r: string)
    ensures |r| <= |s| && r == s[|s| - |r|..]
    ensures r == [] || r[0] != c
    ensures forall i :: 0 <= i < |s| - |r| ==> s[i] == c
  {
    if s != [] && s[0] == c then LStripChar(s[1..], c) else s
  }

  /** `s.rstrip(c)` for a single character `c`. */
  function RStripChar(s: string, c: char): (r: string)
    ensures |r| <= |s| && r == s[..|r|]
    ensures r == [] || r[|r| - 1] != c
    ensures forall i :: |r| <= i < |s| ==> s[i] == c
  {
    if s != [] && s[|s| - 1] == c then RStripChar(s[..|s| - 1], c) else s
  }

  /** The number of leading characters of `s` that are not white space. */
  function RunLength(s: string): (n: nat)
    ensures n <= |s|
    ensures forall i :: 0 <= i < n ==> !IsSpace(s[i])
    ensures n < |s| ==> IsSpace(s[n])
  {
    if s == [] || IsSpace(s[0]) then 0 else 1 + RunLength(s[1..])
  }

  /** `str.split()` with no separator: the maximal runs of non-white-space characters, in order. */
  function Words(s: string): (ws: seq<string>)
    ensures forall k :: 0 <= k < |ws| ==> IsWord(ws[k])
    decreases |s|
  {
    if s == [] then []
    else if IsSpace(s[0]) then Words(s[1..])
    else
      var n := RunLength(s);
      [s[..n]] + Words(s[n..])
  }

  /** `sep.join(parts)`. */
  function Join(parts: seq<string>, sep: string): string {
    if |parts| == 0 then ""
    else if |parts| == 1 then parts[0]
    else parts[0] + sep + Join(parts[1..], sep)
  }

  /** `str.lower()` restricted to the ASCII letters. */
  function LowerChar(c: char): char {
    if 'A' <= c <= 'Z' then (c as int + 32) as char else c
  }

  function Lower(s: string): (r: string)
    ensures |r| == |s| && forall i :: 0 <= i < |s| ==> r[i] == LowerChar(s[i])
  {
    seq(|s|, i requires 0 <= i < |s| => LowerChar(s[i]))
  }

  predicate StartsWith(s: string, prefix: string) {
    |prefix| <= |s| && s[..|prefix|] == prefix
  }

  /** Python's `sub in s`. */
  predicate Contains(s: string, sub: string)
    decreases |s|
  {
    StartsWith(s, sub) || (s != [] && Contains(s[1..], sub))
  }

  /** A text in which the first character of `sub` never occurs does not contain `sub`. */
  lemma {:induction false} ContainsNot(s: string, sub: string)
    requires sub != [] && forall k :: 0 <= k < |s| ==> s[k] != sub[0]
    ensures !Contains(s, sub)
    decreases |s|
  {
    if s != [] {
      assert !StartsWith(s, sub) by {
        if |sub| <= |s| {
          assert s[..|sub|][0] == s[0];
        }
      }
      ContainsNot(s[1..], sub);
    }
  }

  lemma {:induction false} ContainsAt(s: string, sub: string, i: nat)
    requires i + |sub| <= |s| && s[i..i + |sub|] == sub
    ensures Contains(s, sub)
    decreases i
  {
    if i > 0 {
      assert s[1..][i - 1..i - 1 + |sub|] == sub;
      ContainsAt(s[1..], sub, i - 1);
    } else {
      assert StartsWith(s, sub);
    }
  }

  /** Index of the first line break of `s` at or after `from`, or `|s|`. */
  function LineEnd(s: string, from: nat): (n: nat)
    requires from <= |s|
    ensures from <= n <= |s|
    ensures forall i :: from <= i < n ==> !IsLineBreak(s[i])
    ensures n < |s| ==> IsLineBreak(s[n])
    decreases |s| - from
  {
    if from == |s| || IsLineBreak(s[from]) then from else LineEnd(s, from + 1)
  }

  /** `str.splitlines()`: lines without their terminators; `"\r\n"` ends one line. */
  function SplitLines(s: string): (lines: seq<string>)
    ensures forall k, i :: 0 <= k < |lines| && 0 <= i < |lines[k]| ==> !IsLineBreak(lines[k][i])
    decreases |s|
  {
    if s == [] then []
    else
      var n := LineEnd(s, 0);
      if n == |s| then [s]
      else
        var skip := if s[n] == '\r' && n + 1 < |s| && s[n + 1] == '\n' then 2 else 1;
        [s[..n]] + SplitLines(s[n + skip..])
  }

  // ---------------------------------------------------------------------------
  // Splitting and joining words
  // ---------------------------------------------------------------------------

  /** Only white space gives no words: `str.split()` is empty exactly for blank text. */
  lemma {:induction false} WordsEmpty(s: string)
    ensures Words(s) == [] <==> AllSpace(s)
    decreases |s|
  {
    if s != [] && IsSpace(s[0]) {
      WordsEmpty(s[1..]);
      assert AllSpace(s) <==> AllSpace(s[1..]) by {
        if AllSpace(s[1..]) {
          forall i | 0 <= i < |s| ensures IsSpace(s[i]) { if i > 0 { assert s[i] == s[1..][i - 1]; } }
        }
      }
    }
  }

  lemma {:induction false} RunLengthBeforeSpace(a: string, b: string)
    requires |b| > 0 && IsSpace(b[0])
    ensures RunLength(a + b) == RunLength(a)
    decreases |a|
  {
    if a != [] && !IsSpace(a[0]) {
      assert (a + b)[1..] == a[1..] + b;
      RunLengthBeforeSpace(a[1..], b);
    } else if a == [] {
      assert a + b == b;
    }
  }

  /** Splitting at a white-space character splits the word list there. */
  lemma {:induction false} WordsAround(a: string, c: char, b: string)
    requires IsSpace(c)
    ensures Words(a + [c] + b) == Words(a) + Words(b)
    decreases |a|
  {
    var s := a + [c] + b;
    if a == [] {
      assert s[1..] == b;
    } else if IsSpace(a[0]) {
      assert s[1..] == a[1..] + [c] + b;
      WordsAround(a[1..], c, b);
    } else {
      RunLengthBeforeSpace(a, [c] + b);
      assert s == a + ([c] + b);
      var n := RunLength(a);
      assert s[..n] == a[..n];
      if n < |a| {
        assert s[n..] == a[n..] + [c] + b;
        WordsAround(a[n..], c, b);
      } else {
        assert a[n..] == [];
        assert s[n..] == [c] + b;
        assert s[n..][1..] == b;
      }
    }
  }

  lemma WordOfWord(w: string)
    requires IsWord(w)
    ensures Words(w) == [w]
  {
    assert RunLength(w) == |w|;
    assert w[..|w|] == w;
    assert w[|w|..] == [];
  }

  /** `" ".join(ws).split() == ws` for words. */
  lemma {:induction false} WordsOfJoin(ws: seq<string>)
    requires forall k :: 0 <= k < |ws| ==> IsWord(ws[k])
    ensures Words(Join(ws, " ")) == ws
    decreases |ws|
  {
    if |ws| == 0 {
    } else if |ws| == 1 {
      WordOfWord(ws[0]);
    } else {
      WordOfWord(ws[0]);
      WordsOfJoin(ws[1..]);
      assert ws[0] + " " + Join(ws[1..], " ") == ws[0] + [' '] + Join(ws[1..], " ");
      WordsAround(ws[0], ' ', Join(ws[1..], " "));
    }
  }

  /** A space-joined list of words starts and ends with a word character. */
  lemma {:induction false} JoinOfWordsStripped(ws: seq<string>)
    requires |ws| > 0 && forall k :: 0 <= k < |ws| ==> IsWord(ws[k])
    ensures var j := Join(ws, " "); j != [] && IsStripped(j) && j[0] == ws[0][0]
    decreases |ws|
  {
    if |ws| > 1 {
      JoinOfWordsStripped(ws[1..]);
    }
  }

  /** A stretch of white space between two texts keeps their words apart and adds none. */
  lemma {:induction false} WordsAroundRun(a: string, u: string, b: string)
    requires u != [] && AllSpace(u)
    ensures Words(a + u + b) == Words(a) + Words(b)
    decreases |u|
  {
    RunShape(a, u, b);
    WordsAround(a, u[0], u[1..] + b);
    if |u| > 1 {
      WordsAroundRun([], u[1..], b);
    }
  }

  lemma RunShape(a: string, u: string, b: string)
    requires u != []
    ensures a + u + b == a + [u[0]] + (u[1..] + b)
    ensures [] + u[1..] + b == u[1..] + b
    ensures |u| == 1 ==> u[1..] + b == b
  {
    assert u == [u[0]] + u[1..];
  }

  // ---------------------------------------------------------------------------
  // Splitting lines
  // ---------------------------------------------------------------------------

  /** Splitting into lines and joining them with `"\n"` keeps the words: every line break is white space. */
  lemma {:induction false} SplitLinesKeepWords(s: string)
    ensures Words(Join(SplitLines(s), "\n")) == Words(s)
    decreases |s|
  {
    if s != [] && LineEnd(s, 0) < |s| {
      var n, skip := SplitLinesUnfold(s);
      var t := s[n + skip..];
      SplitLinesKeepWords(t);
      KeepWordsStep(s, n, skip, t, SplitLines(t));
    }
  }

  /** One step of `SplitLines`: the first line, then the rest after its one- or two-character terminator. */
  lemma SplitLinesUnfold(s: string) returns (n: nat, skip: nat)
    requires s != [] && LineEnd(s, 0) < |s|
    ensures n + skip <= |s| && 1 <= skip && AllSpace(s[n..n + skip])
    ensures SplitLines(s) == [s[..n]] + SplitLines(s[n + skip..])
    ensures SplitLines(s[n + skip..]) == [] <==> s[n + skip..] == []
  {
    n := LineEnd(s, 0);
    skip := if s[n] == '\r' && n + 1 < |s| && s[n + 1] == '\n' then 2 else 1;
    var t := s[n + skip..];
    if t != [] {
      assert SplitLines(t) != [];
    }
  }

  lemma KeepWordsStep(s: string, n: nat, skip: nat, t: string, rest: seq<string>)
    requires n + skip <= |s| && 1 <= skip && AllSpace(s[n..n + skip])
    requires t == s[n + skip..] && (rest == [] <==> t == [])
    requires Words(Join(rest, "\n")) == Words(t)
    ensures Words(Join([s[..n]] + rest, "\n")) == Words(s)
  {
    SliceAround(s, n, n + skip);
    WordsAroundRun(s[..n], s[n..n + skip], t);
    if rest == [] {
      assert Join([s[..n]] + rest, "\n") == s[..n] + [];
      assert s[..n] + [] == s[..n];
    } else {
      JoinCons(s[..n], rest, "\n");
      WordsAroundRun(s[..n], "\n", Join(rest, "\n"));
    }
  }

  /** For text whose only line breaks are single `"\n"` and that does not end in one, joining the lines gives the text back. */
  lemma {:induction false} SplitLinesJoin(s: string)
    requires forall i :: 0 <= i < |s| && IsLineBreak(s[i]) ==> s[i] == '\n'
    requires s == [] || s[|s| - 1] != '\n'
    ensures Join(SplitLines(s), "\n") == s
    decreases |s|
  {
    if s != [] {
      var n := LineEnd(s, 0);
      if n < |s| {
        var t := s[n + 1..];
        assert t != [] && t[|t| - 1] == s[|s| - 1];
        assert forall i :: 0 <= i < |t| && IsLineBreak(t[i]) ==> t[i] == '\n' by {
          forall i | 0 <= i < |t| && IsLineBreak(t[i]) ensures t[i] == '\n' { assert t[i] == s[n + 1 + i]; }
        }
        SplitLinesJoin(t);
        JoinStep(s, n, t, SplitLines(t));
      }
    }
  }

  lemma JoinStep(s: string, n: nat, t: string, rest: seq<string>)
    requires n < |s| && s[n] == '\n' && t == s[n + 1..]
    requires rest != [] && Join(rest, "\n") == t
    ensures Join([s[..n]] + rest, "\n") == s
  {
    JoinCons(s[..n], rest, "\n");
    SliceAround(s, n, n + 1);
    assert s[n..n + 1] == "\n";
  }

  lemma JoinCons(head: string, rest: seq<string>, sep: string)
    requires rest != []
    ensures Join([head] + rest, sep) == head + sep + Join(rest, sep)
  {
    assert ([head] + rest)[1..] == rest;
  }

  lemma SliceAround(s: string, i: nat, j: nat)
    requires i <= j <= |s|
    ensures s == s[..i] + s[i..j] + s[j..]
  {
  }
}
