/** Python's string and list operations that the crawler relies on:
    `str.strip()`, `str.splitlines()`, a text-mode file's `readlines()`
    and the slice `xs[a:b]` with non-negative bounds. */
module PyStr {
  import opened Text

  /** Python's `c.isspace()`: the characters `str.strip()` removes. */
  predicate IsSpace(c: char) {
    c == ' ' || c == '\t' || c == '\n' || c == '\r' || c == '\U{0B}' || c == '\U{0C}' ||
    c == '\U{1C}' || c == '\U{1D}' || c == '\U{1E}' || c == '\U{1F}' || c == '\U{85}' ||
    c == '\U{A0}' || c == '\U{1680}' || c == '\U{2000}' || c == '\U{2001}' || c == '\U{2002}' ||
    c == '\U{2003}' || c == '\U{2004}' || c == '\U{2005}' || c == '\U{2006}' || c == '\U{2007}' ||
    c == '\U{2008}' || c == '\U{2009}' || c == '\U{200A}' || c == '\U{2028}' || c == '\U{2029}' ||
    c == '\U{202F}' || c == '\U{205F}' || c == '\U{3000}'
  }

  ghost predicate AllSpace(s: string) {
    forall k | 0 <= k < |s| :: IsSpace(s[k])
  }

  /** The number of whitespace characters `s` starts with. */
  function LeadingSpaces(s: string): (n: nat)
    ensures n <= |s|
    ensures forall k | 0 <= k < n :: IsSpace(s[k])
    ensures n < |s| ==> !IsSpace(s[n])
  {
    if s != [] && IsSpace(s[0]) then 1 + LeadingSpaces(s[1..]) else 0
  }

  /** The number of whitespace characters `s` ends with. */
  function TrailingSpaces(s: string): (n: nat)
    ensures n <= |s|
    ensures forall k | |s| - n <= k < |s| :: IsSpace(s[k])
    ensures n < |s| ==> !IsSpace(s[|s| - n - 1])
  {
    if s != [] && IsSpace(s[|s| - 1]) then 1 + TrailingSpaces(s[..|s| - 1]) else 0
  }

  /** Python's `s.lstrip()`. */
  function LStrip(s: string): (t: string)
    ensures |t| <= |s| && t == s[|s| - |t|..]
    ensures AllSpace(s[..|s| - |t|])
    ensures t == [] || !IsSpace(t[0])
  {
    var n := LeadingSpaces(s);
    assert forall k | 0 <= k < n :: s[..n][k] == s[k];
    s[n..]
  }

  /** Python's `s.rstrip()`. */
  function RStrip(s: string): (t: string)
    ensures |t| <= |s| && t == s[..|t|]
    ensures AllSpace(s[|t|..])
    ensures t == [] || !IsSpace(t[|t| - 1])
  {
    var n := TrailingSpaces(s);
    assert forall k | |s| - n <= k < |s| :: s[|s| - n..][k - (|s| - n)] == s[k];
    s[..|s| - n]
  }

  /** Python's `s.strip()`. */
  function Strip(s: string): string {
    RStrip(LStrip(s))
  }

  /** What `s.strip()` returns neither starts nor ends with whitespace. */
  lemma StripTrimmed(s: string)
    ensures Strip(s) == [] || (!IsSpace(Strip(s)[0]) && !IsSpace(Strip(s)[|Strip(s)| - 1]))
  {
    StripEnds(LStrip(s), RStrip(LStrip(s)));
  }

  /** A prefix `t` of a string `l` that does not start with whitespace, itself
      not ending with whitespace, neither starts nor ends with whitespace. */
  lemma StripEnds(l: string, t: string)
    requires |t| <= |l| && t == l[..|t|]
    requires l == [] || !IsSpace(l[0])
    requires t == [] || !IsSpace(t[|t| - 1])
    ensures t == [] || (!IsSpace(t[0]) && !IsSpace(t[|t| - 1]))
  {
    if t != [] {
      assert t[0] == l[0];
    }
  }

  /** Stripping a string that neither starts nor ends with whitespace leaves it unchanged. */
  lemma StripUnchanged(s: string)
    requires s == [] || (!IsSpace(s[0]) && !IsSpace(s[|s| - 1]))
    ensures Strip(s) == s
  {
  }

  /** The characters (besides the pair "\r\n") at which `str.splitlines()` breaks. */
  predicate IsLineBoundary(c: char) {
    c == '\n' || c == '\r' || c == '\U{0B}' || c == '\U{0C}' || c == '\U{1C}' || c == '\U{1D}' ||
    c == '\U{1E}' || c == '\U{85}' || c == '\U{2028}' || c == '\U{2029}'
  }

  /** The index of the first line boundary in `s`, or `|s|`. */
  function FirstBoundary(s: string): (e: nat)
    ensures e <= |s|
    ensures e < |s| ==> IsLineBoundary(s[e])
    ensures forall k | 0 <= k < e :: !IsLineBoundary(s[k])
  {
    if s == [] || IsLineBoundary(s[0]) then 0 else 1 + FirstBoundary(s[1..])
  }

  /** Where the next line starts once the boundary at `e` is consumed: a
      "\r\n" pair counts as one boundary. */
  function AfterBoundary(s: string, e: nat): (next: nat)
    requires e < |s|
    ensures e < next <= |s|
  {
    if s[e] == '\r' && e + 1 < |s| && s[e + 1] == '\n' then e + 2 else e + 1
  }

  /** Python's `s.splitlines()` (line ends dropped, no trailing empty line). */
  function SplitLines(s: string): seq<string>
    decreases |s|
  {
    if s == [] then []
    else
      var e := FirstBoundary(s);
      if e == |s| then [s]
      else [s[..e]] + SplitLines(s[AfterBoundary(s, e)..])
  }

  /** Position `j` of `s` is the first character of one of the lines that
      `s.splitlines()` returns. */
  predicate LineStartsAt(s: string, j: nat)
    requires j < |s|
  {
    j == 0 || (IsLineBoundary(s[j - 1]) && !(s[j - 1] == '\r' && s[j] == '\n'))
  }

  /** Every line of `s` starts with `#`, stated on the characters of `s`:
      each position that begins a line holds `#`. */
  ghost predicate EveryLineOpensWithHash(s: string) {
    forall j | 0 <= j < |s| && LineStartsAt(s, j) :: s[j] == '#'
  }

  /** Every line `s.splitlines()` yields starts with `#`, stated on the lines. */
  ghost predicate AllLinesStartWithHash(s: string) {
    AllStartWithHash(SplitLines(s))
  }

  ghost predicate AllStartWithHash(lines: seq<string>) {
    forall i | 0 <= i < |lines| :: StartsWith(lines[i], "#")
  }

  /** A list of lines all starts with `#` exactly when its head and its tail do. */
  lemma AllStartWithHashCons(head: string, tail: seq<string>)
    ensures AllStartWithHash([head] + tail) <==> StartsWith(head, "#") && AllStartWithHash(tail)
  {
    var lines := [head] + tail;
    if AllStartWithHash(lines) {
      assert StartsWith(lines[0], "#");
      forall i | 0 <= i < |tail| ensures StartsWith(tail[i], "#") {
        assert tail[i] == lines[i + 1];
      }
    }
  }

  lemma LineStartsAfterBoundary(s: string, e: nat, j: nat)
    requires e < |s| && e == FirstBoundary(s)
    requires j < |s|
    ensures 0 < j < AfterBoundary(s, e) ==> !LineStartsAt(s, j)
    ensures j == AfterBoundary(s, e) ==> LineStartsAt(s, j)
    ensures j > AfterBoundary(s, e) ==>
      (LineStartsAt(s, j) <==> LineStartsAt(s[AfterBoundary(s, e)..], j - AfterBoundary(s, e)))
  {
    var n := AfterBoundary(s, e);
    if j > n {
      LaterPositionStartsLine(s, n, j);
    } else if j == n {
      NextLineStarts(s, e);
    } else if 0 < j {
      InsideBoundaryNoStart(s, e, j);
    }
  }

  /** Past `n`, a position begins a line of `s` exactly when it begins one
      of `s[n..]`. */
  lemma LaterPositionStartsLine(s: string, n: nat, j: nat)
    requires n < j < |s|
    ensures LineStartsAt(s, j) <==> LineStartsAt(s[n..], j - n)
  {
    var rest := s[n..];
    assert rest[j - n] == s[j] && rest[j - n - 1] == s[j - 1];
  }

  /** The position right after a boundary begins a line. */
  lemma NextLineStarts(s: string, e: nat)
    requires e < |s| && IsLineBoundary(s[e]) && AfterBoundary(s, e) < |s|
    ensures LineStartsAt(s, AfterBoundary(s, e))
  {
    if AfterBoundary(s, e) == e + 2 {
      assert s[e + 1] == '\n';
    }
  }

  /** No position inside the first line or its boundary begins a line. */
  lemma InsideBoundaryNoStart(s: string, e: nat, j: nat)
    requires e < |s| && e == FirstBoundary(s) && 0 < j < AfterBoundary(s, e)
    ensures !LineStartsAt(s, j)
  {
    assert !IsLineBoundary(s[j - 1]) || (j == e + 1 && s[j - 1] == '\r' && s[j] == '\n');
  }

  /** On a string with no line boundary, both readings reduce to its first character. */
  lemma OneLineHash(s: string)
    requires s != [] && FirstBoundary(s) == |s|
    ensures AllLinesStartWithHash(s) <==> s[0] == '#'
    ensures EveryLineOpensWithHash(s) <==> s[0] == '#'
  {
    assert SplitLines(s) == [s] + [];
    AllStartWithHashCons(s, []);
    forall j | 0 < j < |s| ensures !LineStartsAt(s, j) {
    }
  }

  /** The line-wise reading peels off the first line. */
  lemma FirstLineHash(s: string)
    requires s != [] && FirstBoundary(s) < |s|
    ensures AllLinesStartWithHash(s) <==>
      (s[0] == '#' && AllLinesStartWithHash(s[AfterBoundary(s, FirstBoundary(s))..]))
  {
    var e := FirstBoundary(s);
    var rest := s[AfterBoundary(s, e)..];
    assert SplitLines(s) == [s[..e]] + SplitLines(rest);
    AllStartWithHashCons(s[..e], SplitLines(rest));
    assert StartsWith(s[..e], "#") <==> s[0] == '#';
  }

  /** The position-wise reading peels off the first line. */
  lemma FirstLineOpensWithHash(s: string)
    requires s != [] && FirstBoundary(s) < |s|
    ensures EveryLineOpensWithHash(s) <==>
      (s[0] == '#' && EveryLineOpensWithHash(s[AfterBoundary(s, FirstBoundary(s))..]))
  {
    var e := FirstBoundary(s);
    if EveryLineOpensWithHash(s) {
      RestOpensWithHash(s, e);
    }
    if s[0] == '#' && EveryLineOpensWithHash(s[AfterBoundary(s, e)..]) {
      WholeOpensWithHash(s, e);
    }
  }

  lemma RestOpensWithHash(s: string, e: nat)
    requires e < |s| && e == FirstBoundary(s)
    requires EveryLineOpensWithHash(s)
    ensures EveryLineOpensWithHash(s[AfterBoundary(s, e)..])
  {
    var n := AfterBoundary(s, e);
    var rest := s[n..];
    forall j | 0 <= j < |rest| && LineStartsAt(rest, j) ensures rest[j] == '#' {
      LineStartsAfterBoundary(s, e, j + n);
      assert rest[j] == s[j + n];
    }
  }

  lemma WholeOpensWithHash(s: string, e: nat)
    requires e < |s| && e == FirstBoundary(s)
    requires s[0] == '#' && EveryLineOpensWithHash(s[AfterBoundary(s, e)..])
    ensures EveryLineOpensWithHash(s)
  {
    var n := AfterBoundary(s, e);
    var rest := s[n..];
    forall j | 0 <= j < |s| && LineStartsAt(s, j) ensures s[j] == '#' {
      LineStartsAfterBoundary(s, e, j);
      if j > 0 {
        assert LineStartsAt(rest, j - n);
        assert rest[j - n] == s[j];
      }
    }
  }

  /** The two readings of "every line starts with `#`" agree: the one on
      the lines `splitlines` produces and the one on character positions. */
  lemma {:induction false} LinesStartWithHashIff(s: string)
    ensures AllLinesStartWithHash(s) <==> EveryLineOpensWithHash(s)
    decreases |s|
  {
    if s != [] {
      var e := FirstBoundary(s);
      if e == |s| {
        OneLineHash(s);
      } else {
        FirstLineHash(s);
        FirstLineOpensWithHash(s);
        LinesStartWithHashIff(s[AfterBoundary(s, e)..]);
      }
    }
  }

  /** `line` is found at position `p` of `s`, and `p` begins a line of `s`. */
  predicate LineAt(s: string, p: nat, line: string) {
    p + |line| <= |s| && s[p..p + |line|] == line && (p < |s| ==> LineStartsAt(s, p))
  }

  /** Where line `i` of `s.splitlines()` begins in `s`: the line is the
      text found there, and that position begins a line. */
  ghost function LineStart(s: string, i: nat): (p: nat)
    requires i < |SplitLines(s)|
    ensures LineAt(s, p, SplitLines(s)[i])
    decreases |s|, 1
  {
    if i == 0 then
      FirstLineAtStart(s);
      0
    else
      LaterLineStartPos(s, i)
  }

  /** Where line `i > 0` begins: past the first boundary, where line `i - 1`
      of the rest begins. */
  ghost function LaterLineStartPos(s: string, i: nat): (p: nat)
    requires 0 < i < |SplitLines(s)|
    ensures LineAt(s, p, SplitLines(s)[i])
    decreases |s|, 0
  {
    LaterLine(s, i);
    var e := FirstBoundary(s);
    var n := AfterBoundary(s, e);
    var q := LineStart(s[n..], i - 1);
    LaterLineStart(s, e, n, s[n..], q, SplitLines(s)[i]);
    n + q
  }

  /** A line found at `q` in the text after a boundary at `e` is found at
      `n + q` in `s`, where that text starts at `n`. */
  lemma LaterLineStart(s: string, e: nat, n: nat, rest: string, q: nat, line: string)
    requires e < |s| && IsLineBoundary(s[e])
    requires n == AfterBoundary(s, e) && rest == s[n..]
    requires LineAt(rest, q, line)
    ensures LineAt(s, n + q, line)
  {
    ShiftedSlice(s, rest, n, q, line);
    if n + q < |s| {
      if q == 0 {
        NextLineStarts(s, e);
      } else {
        LaterPositionStartsLine(s, n, n + q);
      }
    }
  }

  lemma FirstLineAtStart(s: string)
    requires 0 < |SplitLines(s)|
    ensures LineAt(s, 0, SplitLines(s)[0])
  {
    var line := SplitLines(s)[0];
    assert line == s[..|line|];
    assert s[0..|line|] == s[..|line|];
  }

  /** Line `i > 0` of `s` is line `i - 1` of the text after the first boundary. */
  lemma LaterLine(s: string, i: nat)
    requires 0 < i < |SplitLines(s)|
    ensures FirstBoundary(s) < |s|
    ensures i - 1 < |SplitLines(s[AfterBoundary(s, FirstBoundary(s))..])|
    ensures SplitLines(s)[i] == SplitLines(s[AfterBoundary(s, FirstBoundary(s))..])[i - 1]
  {
  }

  /** A slice of a suffix of `s` is the slice of `s` shifted by the suffix's start. */
  lemma ShiftedSlice(s: string, rest: string, n: nat, q: nat, line: string)
    requires n <= |s| && rest == s[n..]
    requires q + |line| <= |rest| && rest[q..q + |line|] == line
    ensures s[n + q..n + q + |line|] == line
  {
    assert s[n + q..n + q + |line|] == rest[q..q + |line|];
  }

  /** The index of the first '\n' in `s`, or `|s|`. */
  function FirstNewline(s: string): (e: nat)
    ensures e <= |s|
    ensures e < |s| ==> s[e] == '\n'
    ensures forall k | 0 <= k < e :: s[k] != '\n'
  {
    if s == [] || s[0] == '\n' then 0 else 1 + FirstNewline(s[1..])
  }

  /** `readlines()` on a file opened in text mode: `text` is what the read
      returns (newlines already translated to '\n'); each line keeps its
      '\n', and only the last line may lack one. */
  function ReadLines(text: string): seq<string>
    decreases |text|
  {
    if text == [] then []
    else
      var e := FirstNewline(text);
      if e == |text| then [text]
      else [text[..e + 1]] + ReadLines(text[e + 1..])
  }

  /** Reading a text's lines and joining them back gives the text; every
      line is non-empty, ends in its only '\n', and only the last may lack one. */
  lemma ReadLinesJoin(text: string)
    ensures var lines := ReadLines(text);
      Concat(lines) == text &&
      (forall i | 0 <= i < |lines| :: lines[i] != []) &&
      (forall i | 0 <= i < |lines| - 1 :: lines[i][|lines[i]| - 1] == '\n') &&
      (forall i, k | 0 <= i < |lines| && 0 <= k < |lines[i]| - 1 :: lines[i][k] != '\n')
  {
    ReadLinesConcat(text);
    ReadLinesShape(text);
  }

  lemma {:induction false} ReadLinesConcat(text: string)
    ensures Concat(ReadLines(text)) == text
    decreases |text|
  {
    if text != [] {
      var e := FirstNewline(text);
      if e == |text| {
        assert Concat([text]) == text + Concat([]);
      } else {
        ReadLinesConcat(text[e + 1..]);
        var lines := [text[..e + 1]] + ReadLines(text[e + 1..]);
        assert lines[1..] == ReadLines(text[e + 1..]);
        assert text == text[..e + 1] + text[e + 1..];
      }
    }
  }

  lemma {:induction false} ReadLinesShape(text: string)
    ensures forall i | 0 <= i < |ReadLines(text)| :: ReadLines(text)[i] != []
    ensures forall i | 0 <= i < |ReadLines(text)| - 1 :: ReadLines(text)[i][|ReadLines(text)[i]| - 1] == '\n'
    ensures forall i, k | 0 <= i < |ReadLines(text)| && 0 <= k < |ReadLines(text)[i]| - 1 :: ReadLines(text)[i][k] != '\n'
    decreases |text|
  {
    if text != [] {
      var e := FirstNewline(text);
      if e == |text| {
        assert ReadLines(text) == [text];
      } else {
        var rest := ReadLines(text[e + 1..]);
        ReadLinesShape(text[e + 1..]);
        var lines := [text[..e + 1]] + rest;
        assert ReadLines(text) == lines;
        assert forall i | 1 <= i < |lines| :: lines[i] == rest[i - 1];
        assert forall k | 0 <= k < e :: lines[0][k] == text[k];
        assert lines[0][e] == '\n';
      }
    }
  }

  function Min(a: int, b: int): int {
    if a <= b then a else b
  }

  /** Python's `xs[a:b]` for non-negative `a` and `b`: both bounds clamped
      to the length, empty when the clamped start is not before the end. */
  function Slice<T>(xs: seq<T>, a: nat, b: nat): (r: seq<T>)
    ensures |r| <= |xs|
  {
    var lo, hi := Min(a, |xs|), Min(b, |xs|);
    if lo < hi then xs[lo..hi] else []
  }
}
