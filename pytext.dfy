/** Python string operations the tool applies to field files: `str.strip()`,
    `str.splitlines()` and `str.endswith()`. The whitespace and line-break
    character classes are Python's own. */
module PyText {

  /** The characters for which Python's `str.isspace()` holds; these are the
      characters `str.strip()` with no argument removes. */
  predicate IsSpace(c: char) {
    ('\U{0009}' <= c <= '\U{000D}') || ('\U{001C}' <= c <= '\U{001F}') || c == ' '
    || c == '\U{0085}' || c == '\U{00A0}' || c == '\U{1680}'
    || ('\U{2000}' <= c <= '\U{200A}') || c == '\U{2028}' || c == '\U{2029}'
    || c == '\U{202F}' || c == '\U{205F}' || c == '\U{3000}'
  }

  /** The number of whitespace characters `s` starts with. */
  function LeadingSpace(s: string): (n: nat)
    ensures n <= |s| && (n < |s| ==> !IsSpace(s[n]))
    ensures forall i :: 0 <= i < n ==> IsSpace(s[i])
    decreases |s|
  {
    if s != [] && IsSpace(s[0]) then 1 + LeadingSpace(s[1..]) else 0
  }

  /** The number of whitespace characters `s` ends with. */
  function TrailingSpace(s: string): (n: nat)
    ensures n <= |s| && (n < |s| ==> !IsSpace(s[|s| - 1 - n]))
    ensures forall i :: |s| - n <= i < |s| ==> IsSpace(s[i])
    decreases |s|
  {
    if s != [] && IsSpace(s[|s| - 1]) then 1 + TrailingSpace(s[..|s| - 1]) else 0
  }

  /** `s.lstrip()`: `s` without its leading whitespace. */
  function TrimStart(s: string): string {
    s[LeadingSpace(s)..]
  }

  /** `s.rstrip()`: `s` without its trailing whitespace. */
  function TrimEnd(s: string): string {
    s[..|s| - TrailingSpace(s)]
  }

  /** `s.strip()`: `s` without its leading and trailing whitespace. */
  function Strip(s: string): string {
    TrimEnd(TrimStart(s))
  }

  /** What `strip` leaves: the characters of `s` from the end of its
      leading whitespace on, neither starting nor ending with whitespace,
      with nothing but whitespace cut off either end. */
  lemma StripShape(s: string)
    ensures var r, k := Strip(s), LeadingSpace(s);
      && (r == [] || (!IsSpace(r[0]) && !IsSpace(r[|r| - 1])))
      && k + |r| <= |s|
      && (forall i :: 0 <= i < |r| ==> r[i] == s[k + i])
      && (forall i :: 0 <= i < k ==> IsSpace(s[i]))
      && (forall i :: k + |r| <= i < |s| ==> IsSpace(s[i]))
  {
    StripEnds(s);
    StripTail(s);
  }

  lemma StripEnds(s: string)
    ensures var r := Strip(s); r == [] || (!IsSpace(r[0]) && !IsSpace(r[|r| - 1]))
  {
    var t := TrimStart(s);
    var r := TrimEnd(t);
    if r != [] {
      assert r[0] == s[LeadingSpace(s)];
      assert r[|r| - 1] == t[|t| - 1 - TrailingSpace(t)];
    }
  }

  lemma StripTail(s: string)
    ensures var r, k := Strip(s), LeadingSpace(s);
      k + |r| <= |s| && forall i :: k + |r| <= i < |s| ==> IsSpace(s[i])
  {
    var k := LeadingSpace(s);
    var t := TrimStart(s);
    forall i | k + |Strip(s)| <= i < |s| ensures IsSpace(s[i]) {
      assert s[i] == t[i - k];
    }
  }

  /** Stripping twice is stripping once. */
  lemma StripIdempotent(s: string)
    ensures Strip(Strip(s)) == Strip(s)
  {
    StripShape(s);
    StripTrimmed(Strip(s));
  }

  /** A string with no whitespace at either end is its own strip. */
  lemma StripTrimmed(s: string)
    requires s == [] || (!IsSpace(s[0]) && !IsSpace(s[|s| - 1]))
    ensures Strip(s) == s
  {
    assert LeadingSpace(s) == 0 && s[0..] == s;
    assert TrailingSpace(s) == 0 && s[..|s|] == s;
  }

  /** The line boundaries of Python's `str.splitlines()`; `"\r\n"` is one
      boundary made of two of them. */
  predicate IsLineBreak(c: char) {
    c == '\n' || c == '\r' || c == '\U{000B}' || c == '\U{000C}'
    || c == '\U{001C}' || c == '\U{001D}' || c == '\U{001E}'
    || c == '\U{0085}' || c == '\U{2028}' || c == '\U{2029}'
  }

  /** The index of the first line break in `s`, or `|s|` when there is none. */
  function LineEnd(s: string): (i: nat)
    ensures i <= |s|
    ensures i < |s| ==> IsLineBreak(s[i])
    ensures forall k :: 0 <= k < i ==> !IsLineBreak(s[k])
  {
    if s == [] || IsLineBreak(s[0]) then 0 else 1 + LineEnd(s[1..])
  }

  /** The width of the line boundary at index `i`: 2 for `"\r\n"`, else 1. */
  function BreakWidth(s: string, i: nat): (w: nat)
    requires i < |s|
    ensures 1 <= w <= 2 && i + w <= |s|
  {
    if s[i] == '\r' && i + 1 < |s| && s[i + 1] == '\n' then 2 else 1
  }

  /** `s.splitlines()`: the lines of `s` without their terminators; a final
      terminator does not open an empty last line, and empty interior lines
      and surrounding whitespace are kept. */
  function SplitLines(s: string): (lines: seq<string>)
    ensures lines == [] <==> s == []
    ensures forall j, k :: 0 <= j < |lines| && 0 <= k < |lines[j]| ==> !IsLineBreak(lines[j][k])
    decreases |s|
  {
    if s == [] then []
    else
      var i := LineEnd(s);
      if i == |s| then [s]
      else [s[..i]] + SplitLines(s[i + BreakWidth(s, i)..])
  }

  function Concat(lines: seq<string>): string {
    if lines == [] then [] else lines[0] + Concat(lines[1..])
  }

  /** `s` with every line-break character taken out. */
  function WithoutBreaks(s: string): (r: string)
    ensures |r| <= |s|
  {
    if s == [] then []
    else (if IsLineBreak(s[0]) then [] else [s[0]]) + WithoutBreaks(s[1..])
  }

  lemma {:induction false} WithoutBreaksAppend(a: string, b: string)
    ensures WithoutBreaks(a + b) == WithoutBreaks(a) + WithoutBreaks(b)
    decreases |a|
  {
    if a == [] {
      assert a + b == b;
    } else {
      assert (a + b)[0] == a[0];
      assert (a + b)[1..] == a[1..] + b;
      WithoutBreaksAppend(a[1..], b);
    }
  }

  lemma {:induction false} WithoutBreaksNone(s: string)
    requires forall k :: 0 <= k < |s| ==> !IsLineBreak(s[k])
    ensures WithoutBreaks(s) == s
    decreases |s|
  {
    if s != [] {
      WithoutBreaksNone(s[1..]);
    }
  }

  /** `splitlines` drops exactly the line-break characters: joining the lines
      gives back `s` without them, so no other character is lost or added. */
  lemma {:induction false} SplitLinesLosesOnlyBreaks(s: string)
    ensures Concat(SplitLines(s)) == WithoutBreaks(s)
    decreases |s|
  {
    if s != [] {
      var i := LineEnd(s);
      if i == |s| {
        WithoutBreaksNone(s);
        assert Concat([s]) == s + Concat([]);
      } else {
        var w := BreakWidth(s, i);
        var line, brk, rest := s[..i], s[i..i + w], s[i + w..];
        assert s == line + (brk + rest) by {
          assert s[i..] == brk + rest by { SuffixSplit(s[i..], w); }
          assert s == s[..i] + s[i..];
        }
        BreakRemoved(s, i);
        WithoutBreaksLine(line, brk, rest);
        SplitLinesLosesOnlyBreaks(rest);
        var lines := SplitLines(s);
        assert lines == [line] + SplitLines(rest);
        assert lines[1..] == SplitLines(rest);
      }
    }
  }

  /** A non-empty text without line breaks is a single line. */
  lemma SplitLinesOneLine(s: string)
    requires s != [] && forall k :: 0 <= k < |s| ==> !IsLineBreak(s[k])
    ensures SplitLines(s) == [s]
  {
    assert LineEnd(s) == |s|;
  }

  /** Where `splitlines` cuts: a line free of breaks, followed by one line
      boundary (a single break character, or `"\r\n"`), is the first line,
      and the rest is split on its own. */
  lemma SplitLinesBreak(line: string, brk: string, rest: string)
    requires forall k :: 0 <= k < |line| ==> !IsLineBreak(line[k])
    requires brk == "\r\n" || (|brk| == 1 && IsLineBreak(brk[0]) && !(brk[0] == '\r' && rest != [] && rest[0] == '\n'))
    ensures SplitLines(line + brk + rest) == [line] + SplitLines(rest)
  {
    var s := line + brk + rest;
    LineEndAfter(line, brk + rest);
    assert line + (brk + rest) == s;
    assert s[|line|] == brk[0];
    assert BreakWidth(s, |line|) == |brk| by {
      if |brk| == 1 && rest != [] {
        assert s[|line| + 1] == rest[0];
      }
    }
    assert s[..|line|] == line;
    assert s[|line| + |brk|..] == rest;
  }

  /** The first break of `line + t`, for a break-free `line` and a `t` that
      starts with a break, is where `t` starts. */
  lemma {:induction false} LineEndAfter(line: string, t: string)
    requires forall k :: 0 <= k < |line| ==> !IsLineBreak(line[k])
    requires t != [] && IsLineBreak(t[0])
    ensures LineEnd(line + t) == |line|
    decreases |line|
  {
    if line == [] {
      assert line + t == t;
    } else {
      assert (line + t)[1..] == line[1..] + t;
      LineEndAfter(line[1..], t);
    }
  }

  lemma SuffixSplit(t: string, w: nat)
    requires w <= |t|
    ensures t == t[..w] + t[w..]
  {
  }

  /** A break-free line and a boundary of breaks lose only the boundary. */
  lemma WithoutBreaksLine(line: string, brk: string, rest: string)
    requires forall k :: 0 <= k < |line| ==> !IsLineBreak(line[k])
    requires WithoutBreaks(brk) == []
    ensures WithoutBreaks(line + (brk + rest)) == line + WithoutBreaks(rest)
  {
    WithoutBreaksAppend(brk, rest);
    assert WithoutBreaks(brk + rest) == WithoutBreaks(rest);
    WithoutBreaksAppend(line, brk + rest);
    WithoutBreaksNone(line);
  }

  /** The line boundary at the end of a line holds nothing but breaks. */
  lemma BreakRemoved(s: string, i: nat)
    requires i < |s| && IsLineBreak(s[i])
    ensures WithoutBreaks(s[i..i + BreakWidth(s, i)]) == []
  {
    var brk := s[i..i + BreakWidth(s, i)];
    if BreakWidth(s, i) == 2 {
      assert brk[1..] == [s[i + 1]];
      assert brk[1..][1..] == [];
    } else {
      assert brk[1..] == [];
    }
  }

  /** Empty interior lines survive and nothing is stripped:
      `"a\n\n b "` splits into `["a", "", " b "]`. */
  lemma SplitLinesKeepsEmptyLines()
    ensures SplitLines("a\n\n b ") == ["a", "", " b "]
  {
    assert " b "[1] == 'b';
    assert "a" + "\n" + ("" + "\n" + " b ") == "a\n\n b ";
    SplitLinesEmptyLine("a", " b ");
  }

  /** Two break-free lines around an empty one: `a\n\nb` gives `[a, "", b]`. */
  lemma SplitLinesEmptyLine(a: string, b: string)
    requires forall k :: 0 <= k < |a| ==> !IsLineBreak(a[k])
    requires b != [] && forall k :: 0 <= k < |b| ==> !IsLineBreak(b[k])
    ensures SplitLines(a + "\n" + ("" + "\n" + b)) == [a, "", b]
  {
    SplitLinesOneLine(b);
    SplitLinesBreak("", "\n", b);
    SplitLinesBreak(a, "\n", "" + "\n" + b);
  }



  /** Python's `s.endswith(suffix)`. */
  predicate EndsWith(s: string, suffix: string) {
    |suffix| <= |s| && s[|s| - |suffix|..] == suffix
  }
}
