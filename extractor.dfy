/** The per-file half of crawler.py: the emptiness test, the line-range
    source slicer, the decorator renderer and the extractor that turns a
    file's walk into ordered lists of imports, functions, classes and
    variables. */
module Extractor {
  import opened Text
  import opened PyStr
  import opened Ast

  // ---------------------------------------------------------------------
  // is_file_empty

  /** `is_file_empty` on the file's text: after stripping, the text is
      empty or every line of it starts with `#`. */
  predicate IsFileEmpty(content: string) {
    var t := Strip(content);
    var lines := SplitLines(t);
    |t| == 0 || forall i | 0 <= i < |lines| :: StartsWith(lines[i], "#")
  }

  /** A file counts as empty exactly when, in its stripped text, every
      position that begins a line holds `#`. An empty stripped text has no
      such position. */
  lemma IsFileEmptyIff(content: string)
    ensures IsFileEmpty(content) <==> EveryLineOpensWithHash(Strip(content))
  {
    LinesStartWithHashIff(Strip(content));
  }

  /** No line boundary occurs in `x`. */
  predicate SingleLine(x: string) {
    forall k | 0 <= k < |x| :: !IsLineBoundary(x[k])
  }

  /** A comment line: it starts with `#` and holds no line boundary. */
  predicate CommentLine(x: string) {
    |x| > 0 && x[0] == '#' && SingleLine(x)
  }

  /** A blank line between two comment lines makes the file non-empty. */
  lemma BlankLineBetweenComments(a: string, b: string)
    requires CommentLine(a) && CommentLine(b) && !IsSpace(b[|b| - 1])
    ensures !IsFileEmpty(a + "\n\n" + b)
  {
    BlankSecondLine(a, b);
    UnstrippedBetween(a, "\n\n", b);
    NotHashFirst("");
    LineWithoutHash(a + "\n\n" + b, 1);
  }

  lemma BlankSecondLine(a: string, b: string)
    requires SingleLine(a) && SingleLine(b) && b != []
    ensures SplitLines(a + "\n\n" + b) == [a, "", b]
  {
    BlankJoin(a, b);
    SplitAfterFirst(a, "\n" + b);
    LeadingNewline(b);
    OneLine(b);
  }

  lemma BlankJoin(a: string, b: string)
    ensures a + "\n\n" + b == a + "\n" + ("\n" + b)
  {
  }

  /** A text that starts with '\n' starts with an empty line. */
  lemma LeadingNewline(r: string)
    ensures SplitLines("\n" + r) == [""] + SplitLines(r)
  {
    FirstBoundaryAt("\n" + r, 0);
    assert ("\n" + r)[1..] == r;
  }

  /** An indented comment after the first line makes the file non-empty. */
  lemma IndentedCommentLine(a: string, b: string)
    requires CommentLine(a) && CommentLine(b) && !IsSpace(b[|b| - 1])
    ensures !IsFileEmpty(a + "\n " + b)
  {
    var t := a + "\n " + b;
    assert t == a + "\n" + (" " + b);
    IndentedOneLine(b);
    SplitAfterFirst(a, " " + b);
    OneLine(" " + b);
    UnstrippedBetween(a, "\n ", b);
    NotHashFirst(" " + b);
    LineWithoutHash(t, 1);
  }

  /** A file made of comment lines only is empty. */
  lemma CommentLinesOnly(a: string, b: string)
    requires CommentLine(a) && CommentLine(b) && !IsSpace(b[|b| - 1])
    ensures IsFileEmpty(a + "\n" + b)
  {
    SplitAfterFirst(a, b);
    OneLine(b);
    UnstrippedBetween(a, "\n", b);
    HashFirst(a);
    HashFirst(b);
    EveryLineCommented(a + "\n" + b, [a, b]);
  }

  /** A file with a line whose first non-whitespace character is not `#`
      (a line of code) is not empty, wherever that line sits and whatever
      whitespace surrounds the file. */
  lemma CodeLineMakesFileNonEmpty(content: string, i: nat)
    requires i < |SplitLines(content)|
    requires var code := LStrip(SplitLines(content)[i]); code != [] && code[0] != '#'
    ensures !IsFileEmpty(content)
  {
    var p, c := CodePosition(content, i);
    var a, l, t := StripCuts(content);
    var j := HashlessLineStart(content, a, l, t, p, c);
    LineWithoutHashAt(content, j);
  }

  /** Line `i` of a file starts at `p` and has its first non-whitespace
      character, not `#`, at `c`. */
  lemma CodePosition(content: string, i: nat) returns (p: nat, c: nat)
    requires i < |SplitLines(content)|
    requires var code := LStrip(SplitLines(content)[i]); code != [] && code[0] != '#'
    ensures p <= c < |content| && !IsSpace(content[c]) && content[c] != '#'
    ensures forall k | p <= k < c :: IsSpace(content[k])
    ensures LineStartsAt(content, p)
  {
    var line, q, code;
    p, line, q, code := LineParts(content, i);
    CodeCharAt(content, p, line, q, code);
    c := p + q;
  }

  /** Line `i` of a file is found at `p`; it is `q` whitespace characters
      followed by its code. */
  lemma LineParts(content: string, i: nat) returns (p: nat, line: string, q: nat, code: string)
    requires i < |SplitLines(content)|
    requires var code := LStrip(SplitLines(content)[i]); code != [] && code[0] != '#'
    ensures LineAt(content, p, line)
    ensures q <= |line| && code == line[q..] && AllSpace(line[..q])
    ensures code != [] && !IsSpace(code[0]) && code[0] != '#'
  {
    line := SplitLines(content)[i];
    p := LineStart(content, i);
    code := LStrip(line);
    q := |line| - |code|;
  }

  /** `strip()` cuts the whitespace `s[..a]`, leaving `l`, then the
      whitespace past `t` in `l`, leaving `t`. */
  lemma StripCuts(s: string) returns (a: nat, l: string, t: string)
    ensures t == Strip(s)
    ensures a <= |s| && l == s[a..] && AllSpace(s[..a]) && (l == [] || !IsSpace(l[0]))
    ensures |t| <= |l| && t == l[..|t|] && AllSpace(l[|t|..])
  {
    a, l := LeftCut(s);
    t := RightCut(l);
  }

  lemma LeftCut(s: string) returns (a: nat, l: string)
    ensures l == LStrip(s)
    ensures a <= |s| && l == s[a..] && AllSpace(s[..a]) && (l == [] || !IsSpace(l[0]))
  {
    l := LStrip(s);
    a := |s| - |l|;
  }

  lemma RightCut(l: string) returns (t: string)
    ensures t == RStrip(l)
    ensures |t| <= |l| && t == l[..|t|] && AllSpace(l[|t|..])
  {
    t := RStrip(l);
  }

  /** A file whose stripped text has a line starting with something other
      than `#` is not empty. */
  lemma LineWithoutHashAt(content: string, j: nat)
    requires j < |Strip(content)| && LineStartsAt(Strip(content), j) && Strip(content)[j] != '#'
    ensures !IsFileEmpty(content)
  {
    IsFileEmptyIff(content);
  }

  /** In a line found at `p`, after `q` whitespace characters, comes the
      code character at `p + q`. */
  lemma CodeCharAt(s: string, p: nat, line: string, q: nat, code: string)
    requires LineAt(s, p, line)
    requires q <= |line| && code == line[q..] && AllSpace(line[..q])
    requires code != [] && !IsSpace(code[0]) && code[0] != '#'
    ensures p + q < |s| && !IsSpace(s[p + q]) && s[p + q] != '#'
    ensures forall k | p <= k < p + q :: IsSpace(s[k])
    ensures LineStartsAt(s, p)
  {
    assert s[p + q] == line[q];
    forall k | p <= k < p + q ensures IsSpace(s[k]) {
      assert s[k] == line[..q][k - p];
    }
  }

  /** In `s`, the line starting at `p` has whitespace up to the code
      character at `c`. Then some position that begins a line of the stripped
      text `t` does not hold `#`; `t` is what remains once `s[..a]` and the
      part of `l == s[a..]` past `t` are cut off. */
  lemma HashlessLineStart(s: string, a: nat, l: string, t: string, p: nat, c: nat) returns (j: nat)
    requires a <= |s| && l == s[a..] && AllSpace(s[..a]) && (l == [] || !IsSpace(l[0]))
    requires |t| <= |l| && t == l[..|t|] && AllSpace(l[|t|..])
    requires p <= c < |s| && !IsSpace(s[c]) && s[c] != '#'
    requires forall k | p <= k < c :: IsSpace(s[k])
    requires LineStartsAt(s, p)
    ensures j < |t| && LineStartsAt(t, j) && t[j] != '#'
  {
    CodeInsideStrip(s, a, l, t, c);
    if p < a {
      j := 0;
      CodeOpensStrippedText(s, a, l, t, p, c);
    } else {
      j := p - a;
      LineStartKept(s, a, l, t, p, c);
    }
  }

  /** The code character lies inside the stripped text. */
  lemma CodeInsideStrip(s: string, a: nat, l: string, t: string, c: nat)
    requires a <= |s| && l == s[a..] && AllSpace(s[..a])
    requires |t| <= |l| && t == l[..|t|] && AllSpace(l[|t|..])
    requires c < |s| && !IsSpace(s[c])
    ensures a <= c < a + |t| && t[c - a] == s[c]
  {
    forall k | 0 <= k < a ensures IsSpace(s[k]) {
      assert s[..a][k] == s[k];
    }
    forall k | a + |t| <= k < |s| ensures IsSpace(s[k]) {
      assert l[|t|..][k - a - |t|] == s[k];
    }
    assert t[c - a] == l[c - a];
  }

  /** When the cut at `a` falls inside the line's leading whitespace, the
      stripped text starts with the code character. */
  lemma CodeOpensStrippedText(s: string, a: nat, l: string, t: string, p: nat, c: nat)
    requires a <= |s| && l == s[a..] && (l == [] || !IsSpace(l[0]))
    requires |t| <= |l| && t == l[..|t|]
    requires p < a <= c < a + |t| && t[c - a] == s[c]
    requires forall k | p <= k < c :: IsSpace(s[k])
    ensures c == a && t[0] == s[c]
  {
    assert l[0] == s[a];
  }

  /** A line that starts at or after the cut still starts a line of the
      stripped text, and its first character is not `#`. */
  lemma LineStartKept(s: string, a: nat, l: string, t: string, p: nat, c: nat)
    requires a <= |s| && l == s[a..]
    requires |t| <= |l| && t == l[..|t|]
    requires a <= p <= c < a + |t| && s[c] != '#'
    requires forall k | p <= k < c :: IsSpace(s[k])
    requires LineStartsAt(s, p)
    ensures LineStartsAt(t, p - a) && t[p - a] != '#'
  {
    assert t[p - a] == s[p];
    if p > a {
      assert t[p - a - 1] == s[p - 1];
    }
  }

  /** A stripped text with a line that does not start with `#` is not empty. */
  lemma LineWithoutHash(t: string, i: nat)
    requires Strip(t) == t && i < |SplitLines(t)| && !StartsWith(SplitLines(t)[i], "#")
    ensures !IsFileEmpty(t)
  {
  }

  /** A stripped text whose lines all start with `#` is empty. */
  lemma EveryLineCommented(t: string, lines: seq<string>)
    requires Strip(t) == t && SplitLines(t) == lines && forall i | 0 <= i < |lines| :: StartsWith(lines[i], "#")
    ensures IsFileEmpty(t)
  {
  }

  lemma HashFirst(x: string)
    requires |x| > 0 && x[0] == '#'
    ensures StartsWith(x, "#")
  {
    assert x[..1] == "#";
  }

  lemma NotHashFirst(x: string)
    requires x == [] || x[0] != '#'
    ensures !StartsWith(x, "#")
  {
  }

  /** A text that neither starts nor ends with whitespace is left alone by `strip()`. */
  lemma UnstrippedBetween(a: string, m: string, b: string)
    requires a != [] && !IsSpace(a[0]) && b != [] && !IsSpace(b[|b| - 1])
    ensures Strip(a + m + b) == a + m + b
  {
    var t := a + m + b;
    assert t[0] == a[0] && t[|t| - 1] == b[|b| - 1];
    StripUnchanged(t);
  }

  /** A line without boundaries, then '\n', then the rest: the line comes first. */
  lemma SplitAfterFirst(a: string, r: string)
    requires SingleLine(a)
    ensures SplitLines(a + "\n" + r) == [a] + SplitLines(r)
  {
    var t := a + "\n" + r;
    FirstBoundaryAt(t, |a|);
    assert t[..|a|] == a && t[|a| + 1..] == r;
  }

  lemma FirstBoundaryAt(t: string, e: nat)
    requires e < |t| && IsLineBoundary(t[e]) && forall k | 0 <= k < e :: !IsLineBoundary(t[k])
    ensures FirstBoundary(t) == e
  {
  }

  /** A non-empty text without boundaries is a single line. */
  lemma OneLine(x: string)
    requires x != [] && SingleLine(x)
    ensures SplitLines(x) == [x]
  {
    assert FirstBoundary(x) == |x|;
  }

  lemma IndentedOneLine(b: string)
    requires SingleLine(b)
    ensures SingleLine(" " + b)
  {
    assert forall k | 1 <= k < |" " + b| :: (" " + b)[k] == b[k - 1];
  }

  // ---------------------------------------------------------------------
  // get_node_source_code

  /** Where 0-based line `k` of `text` starts (the text's length if there
      are at most `k` lines). */
  function LineOffset(text: string, k: nat): nat {
    var lines := ReadLines(text);
    |Concat(lines[..Min(k, |lines|)])|
  }

  /** `get_node_source_code`: lines `lineno` through `end_lineno` (1-based,
      inclusive) of the file; with `end_lineno` missing the slice taken is
      `lines[lineno-1:lineno-1]`. */
  function GetNodeSourceCode(text: string, lineno: LineNumber, endLineno: Option<LineNumber>): string {
    var lines := ReadLines(text);
    var startLine := lineno - 1;
    var endLine := if endLineno.Some? then endLineno.value else startLine;
    Concat(Slice(lines, startLine, endLine))
  }

  /** The recovered code is the file's text, verbatim, from the start of line
      `lineno` to the end of line `end_lineno` (clamped to the end of the
      file); it is empty when `end_lineno` is missing or before `lineno`. */
  lemma SourceCodeIsVerbatimSpan(text: string, lineno: LineNumber, endLineno: Option<LineNumber>)
    ensures var code := GetNodeSourceCode(text, lineno, endLineno);
      (endLineno.None? ==> code == "") &&
      (endLineno.Some? && lineno > endLineno.value ==> code == "") &&
      (endLineno.Some? && lineno <= endLineno.value ==>
        LineOffset(text, lineno - 1) <= LineOffset(text, endLineno.value) <= |text| &&
        code == text[LineOffset(text, lineno - 1)..LineOffset(text, endLineno.value)])
  {
    var lines := ReadLines(text);
    ReadLinesJoin(text);
    if endLineno.Some? && lineno <= endLineno.value {
      var lo, hi := Min(lineno - 1, |lines|), Min(endLineno.value, |lines|);
      ConcatSlice(lines, lo, hi);
      if lo == hi {
        assert Concat(lines[lo..hi]) == "";
      }
    }
  }

  /** The recovered code runs from line `lineno` to line `endLineno`,
      clamped to the end of the file: it begins with the first of those
      lines and ends with the last. */
  lemma SourceCodeIsLineRange(text: string, lineno: LineNumber, endLineno: LineNumber)
    requires lineno <= endLineno && lineno <= |ReadLines(text)|
    ensures StartsWith(GetNodeSourceCode(text, lineno, Some(endLineno)), ReadLines(text)[lineno - 1])
    ensures EndsWith(GetNodeSourceCode(text, lineno, Some(endLineno)), ReadLines(text)[Min(endLineno, |ReadLines(text)|) - 1])
  {
    var lines := ReadLines(text);
    var range := lines[lineno - 1..Min(endLineno, |lines|)];
    assert GetNodeSourceCode(text, lineno, Some(endLineno)) == Concat(range);
    ConcatStartsWithFirst(range);
    ConcatEndsWithLast(range);
    assert range[|range| - 1] == lines[Min(endLineno, |lines|) - 1];
  }

  lemma ConcatStartsWithFirst(range: seq<string>)
    requires range != []
    ensures StartsWith(Concat(range), range[0])
  {
    assert range == [range[0]] + range[1..];
    ConcatAppend([range[0]], range[1..]);
    assert Concat([range[0]]) == range[0];
  }

  lemma ConcatEndsWithLast(range: seq<string>)
    requires range != []
    ensures EndsWith(Concat(range), range[|range| - 1])
  {
    assert range == range[..|range| - 1] + [range[|range| - 1]];
    ConcatAppend(range[..|range| - 1], [range[|range| - 1]]);
    assert Concat([range[|range| - 1]]) == range[|range| - 1];
  }

  // ---------------------------------------------------------------------
  // get_decorators

  /** The decorator texts of a node: one `ast.unparse` per entry of its
      `decorator_list`, none when it has no such attribute. */
  function DecoratorTexts(node: Node): seq<string> {
    match DecoratorList(node)
    case None => []
    case Some(exprs) => seq(|exprs|, i requires 0 <= i < |exprs| => Unparse(exprs[i]))
  }

  /** `get_decorators`. */
  method GetDecorators(node: Node) returns (decorators: seq<string>)
    ensures DecoratorList(node).None? ==> decorators == []
    ensures DecoratorList(node).Some? ==>
      |decorators| == |DecoratorList(node).value| &&
      forall i | 0 <= i < |decorators| :: decorators[i] == Unparse(DecoratorList(node).value[i])
    ensures decorators == DecoratorTexts(node)
  {
    decorators := [];
    match DecoratorList(node) {
      case None =>
      case Some(decoratorList) =>
        for k := 0 to |decoratorList|
          invariant |decorators| == k
          invariant forall i | 0 <= i < k :: decorators[i] == Unparse(decoratorList[i])
        {
          decorators := decorators + [Unparse(decoratorList[k])];
        }
    }
  }

  // ---------------------------------------------------------------------
  // Import rendering

  const FontOpen: string := "<font color=\"red\">"
  const FontClose: string := "</font>"

  /** Wraps the statement in the red font tag when it starts with `prefix`. */
  function Highlight(statement: string, prefix: string): string {
    if StartsWith(statement, prefix) then FontOpen + statement + FontClose else statement
  }

  /** The entry carries the red font tag. */
  predicate IsMarked(entry: string) {
    |FontOpen| + |FontClose| <= |entry| && StartsWith(entry, FontOpen) && EndsWith(entry, FontClose)
  }

  /** The entry without its red font tag. */
  function Unwrap(entry: string): string {
    if IsMarked(entry) then entry[|FontOpen|..|entry| - |FontClose|] else entry
  }

  /** An import statement (never starting with `<`) is marked exactly when it
      starts with the prefix, and unwrapping gives it back unchanged. */
  lemma HighlightRoundTrip(statement: string, prefix: string)
    requires statement == [] || statement[0] != '<'
    ensures IsMarked(Highlight(statement, prefix)) <==> StartsWith(statement, prefix)
    ensures Unwrap(Highlight(statement, prefix)) == statement
  {
    var entry := FontOpen + statement + FontClose;
    if StartsWith(statement, prefix) {
      assert entry[..|FontOpen|] == FontOpen;
      assert entry[|entry| - |FontClose|..] == FontClose;
      assert entry[|FontOpen|..|entry| - |FontClose|] == statement;
    } else if statement != [] {
      assert statement[0] != FontOpen[0];
    }
  }

  lemma StartsWithSharedHead(head: string, s: string, p: string)
    ensures StartsWith(head + s, head + p) <==> StartsWith(s, p)
  {
    if StartsWith(s, p) {
      assert (head + s)[..|head + p|] == head + s[..|p|];
    }
    if StartsWith(head + s, head + p) {
      assert s[..|p|] == (head + s)[..|head + p|][|head|..];
    }
  }

  /** `node.module if node.module else ''`. */
  function ModuleText(moduleName: Option<string>): string {
    if moduleName.Some? then moduleName.value else ""
  }

  /** The statement rendered for a from-import. */
  function FromStatement(moduleName: Option<string>, names: seq<string>): string {
    "from " + ModuleText(moduleName) + " import " + Join(", ", names)
  }

  /** The import entries one node contributes, highlighted when they name the
      project root. */
  function NodeImports(node: Node, appRoot: string): seq<string> {
    match node
    case Import(names) =>
      seq(|names|, i requires 0 <= i < |names| => Highlight("import " + names[i], "import " + appRoot))
    case ImportFrom(moduleName, names) =>
      [Highlight(FromStatement(moduleName, names), "from " + appRoot)]
    case _ => []
  }

  lemma AliasEntriesGrow(names: seq<string>, j: nat, appRoot: string)
    requires j < |names|
    ensures NodeImports(Import(names[..j + 1]), appRoot) ==
      NodeImports(Import(names[..j]), appRoot) + [Highlight("import " + names[j], "import " + appRoot)]
  {
  }

  /** `import a, b` gives one entry per alias, in order, each `import <name>`,
      marked exactly when the name starts with the project root. */
  lemma ImportEntries(names: seq<string>, appRoot: string)
    ensures var entries := NodeImports(Import(names), appRoot);
      |entries| == |names| &&
      forall i | 0 <= i < |names| ::
        Unwrap(entries[i]) == "import " + names[i] &&
        (IsMarked(entries[i]) <==> StartsWith(names[i], appRoot))
  {
    var entries := NodeImports(Import(names), appRoot);
    forall i | 0 <= i < |names|
      ensures Unwrap(entries[i]) == "import " + names[i]
      ensures IsMarked(entries[i]) <==> StartsWith(names[i], appRoot)
    {
      HighlightRoundTrip("import " + names[i], "import " + appRoot);
      StartsWithSharedHead("import ", names[i], appRoot);
    }
  }

  /** A from-import gives exactly one entry, `from <module> import n1, n2`,
      marked exactly when the text after `from ` starts with the project root
      (so whenever the module does); the names can be read back from it in
      the order written. */
  lemma FromImportEntry(moduleName: Option<string>, names: seq<string>, appRoot: string)
    ensures var entries := NodeImports(ImportFrom(moduleName, names), appRoot);
      var tail := ModuleText(moduleName) + " import " + Join(", ", names);
      |entries| == 1 &&
      Unwrap(entries[0]) == "from " + tail &&
      (IsMarked(entries[0]) <==> StartsWith(tail, appRoot)) &&
      (StartsWith(ModuleText(moduleName), appRoot) ==> IsMarked(entries[0])) &&
      (names != [] && FreeOf(names, ',') ==>
        Split(Unwrap(entries[0])[|ModuleText(moduleName)| + 13..], ", ") == names)
  {
    var m := ModuleText(moduleName);
    var tail := m + " import " + Join(", ", names);
    var statement := FromStatement(moduleName, names);
    assert statement == "from " + tail;
    HighlightRoundTrip(statement, "from " + appRoot);
    StartsWithSharedHead("from ", tail, appRoot);
    if StartsWith(m, appRoot) {
      assert tail[..|appRoot|] == m[..|appRoot|];
    }
    assert statement[|m| + 13..] == Join(", ", names);
    if names != [] && FreeOf(names, ',') {
      SplitJoin(names, ", ");
    }
  }

  /** `from myapp.util import helper` is marked for root `myapp`;
      `from requests import get` is not; `import appx` is marked for root
      `app`, the test being a plain prefix test. */
  lemma ImportMarkingExamples()
    ensures IsMarked(NodeImports(ImportFrom(Some("myapp.util"), ["helper"]), "myapp")[0])
    ensures !IsMarked(NodeImports(ImportFrom(Some("requests"), ["get"]), "myapp")[0])
    ensures IsMarked(NodeImports(Import(["appx"]), "app")[0])
  {
    LocalFromImportMarked();
    ForeignFromImportUnmarked();
    PlainPrefixImportMarked();
  }

  lemma LocalFromImportMarked()
    ensures IsMarked(NodeImports(ImportFrom(Some("myapp.util"), ["helper"]), "myapp")[0])
  {
    FromImportEntry(Some("myapp.util"), ["helper"], "myapp");
  }

  lemma ForeignFromImportUnmarked()
    ensures !IsMarked(NodeImports(ImportFrom(Some("requests"), ["get"]), "myapp")[0])
  {
    FromImportEntry(Some("requests"), ["get"], "myapp");
    assert !StartsWith("requests import get", "myapp") by {
      assert "requests import get"[0] != "myapp"[0];
    }
  }

  lemma PlainPrefixImportMarked()
    ensures IsMarked(NodeImports(Import(["appx"]), "app")[0])
  {
    ImportEntries(["appx"], "app");
  }

  // ---------------------------------------------------------------------
  // parse_python_file

  /** One function or class record. */
  datatype Declaration = Declaration(
    name: string,
    startLine: LineNumber,
    docstring: Option<string>,
    decorators: seq<string>,
    code: string)

  /** One variable record: the assigned name and the statement's source text. */
  datatype Variable = Variable(name: string, value: Option<string>)

  /** The four ordered lists `parse_python_file` builds. */
  datatype FileRecords = FileRecords(
    imports: seq<string>,
    functions: seq<Declaration>,
    classes: seq<Declaration>,
    variables: seq<Variable>)

  const NoRecords := FileRecords([], [], [], [])

  function Merge(a: FileRecords, b: FileRecords): FileRecords {
    FileRecords(a.imports + b.imports, a.functions + b.functions, a.classes + b.classes, a.variables + b.variables)
  }

  lemma MergeAssociative(a: FileRecords, b: FileRecords, c: FileRecords)
    ensures Merge(Merge(a, b), c) == Merge(a, Merge(b, c))
  {
  }

  /** What `parse_python_file` returns: the records and the file docstring,
      or the syntax error that stops it. */
  datatype Extraction =
    | Extracted(records: FileRecords, fileDocstring: Option<string>)
    | ParseFailed(message: string)

  /** The record built for a `def` or `class` node. */
  function DeclarationOf(text: string, node: Node): Declaration
    requires node.FunctionDef? || node.ClassDef?
  {
    var d := node.decl;
    Declaration(d.name, d.lineno, d.docstring, DecoratorTexts(node), GetNodeSourceCode(text, d.lineno, d.endLineno))
  }

  /** What one node of the walk adds to the four lists. */
  function NodeRecords(text: string, appRoot: string, node: Node): FileRecords {
    match node
    case Import(_) => FileRecords(NodeImports(node, appRoot), [], [], [])
    case ImportFrom(_, _) => FileRecords(NodeImports(node, appRoot), [], [], [])
    case FunctionDef(_) => FileRecords([], [DeclarationOf(text, node)], [], [])
    case ClassDef(_) => FileRecords([], [], [DeclarationOf(text, node)], [])
    case Assign(Name(id), segment) => FileRecords([], [], [], [Variable(id, segment)])
    case _ => NoRecords
  }

  /** The four lists after visiting every node of the walk in order. */
  function WalkRecords(text: string, appRoot: string, walk: seq<Node>): FileRecords {
    if walk == [] then NoRecords
    else Merge(WalkRecords(text, appRoot, walk[..|walk| - 1]), NodeRecords(text, appRoot, walk[|walk| - 1]))
  }

  /** The inner loop over an `import` statement's aliases: one entry per
      alias, appended in order. */
  method AppendAliasImports(imports: seq<string>, names: seq<string>, appRoot: string) returns (extended: seq<string>)
    ensures extended == imports + NodeImports(Import(names), appRoot)
  {
    extended := imports;
    for j := 0 to |names|
      invariant extended == imports + NodeImports(Import(names[..j]), appRoot)
    {
      var statement := "import " + names[j];
      if StartsWith(statement, "import " + appRoot) {
        statement := FontOpen + statement + FontClose;
      }
      AliasEntriesGrow(names, j, appRoot);
      extended := extended + [statement];
    }
    assert names[..|names|] == names;
  }

  /** One pass of the loop over the walk: the node's entries are appended
      to the lists it belongs to. */
  method VisitNode(text: string, appRoot: string, node: Node,
                   imports: seq<string>, functions: seq<Declaration>, classes: seq<Declaration>, variables: seq<Variable>)
    returns (imports': seq<string>, functions': seq<Declaration>, classes': seq<Declaration>, variables': seq<Variable>)
    ensures FileRecords(imports', functions', classes', variables') ==
      Merge(FileRecords(imports, functions, classes, variables), NodeRecords(text, appRoot, node))
  {
    imports', functions', classes', variables' := imports, functions, classes, variables;
    match node {
      case Import(names) =>
        imports' := AppendAliasImports(imports, names, appRoot);
      case ImportFrom(moduleName, names) =>
        var moduleText := if moduleName.Some? then moduleName.value else "";
        var statement := "from " + moduleText + " import " + Join(", ", names);
        if StartsWith(statement, "from " + appRoot) {
          statement := FontOpen + statement + FontClose;
        }
        assert NodeImports(node, appRoot) == [statement];
        imports' := imports + [statement];
      case FunctionDef(d) =>
        var decorators := GetDecorators(node);
        var record := Declaration(d.name, d.lineno, d.docstring, decorators, GetNodeSourceCode(text, d.lineno, d.endLineno));
        assert record == DeclarationOf(text, node);
        functions' := functions + [record];
      case ClassDef(d) =>
        var decorators := GetDecorators(node);
        var record := Declaration(d.name, d.lineno, d.docstring, decorators, GetNodeSourceCode(text, d.lineno, d.endLineno));
        assert record == DeclarationOf(text, node);
        classes' := classes + [record];
      case Assign(target, segment) =>
        if target.Name? {
          variables' := variables + [Variable(target.id, segment)];
        }
      case AsyncFunctionDef(_) =>
      case Other =>
    }
  }

  /** `parse_python_file`. */
  method ParsePythonFile(text: string, tree: ParseOutcome, appRoot: string) returns (extraction: Extraction)
    ensures tree.SyntaxError? ==> extraction == ParseFailed(tree.message)
    ensures tree.Parsed? ==> extraction == Extracted(WalkRecords(text, appRoot, tree.walk), None)
  {
    if tree.SyntaxError? {
      return ParseFailed(tree.message);
    }
    var walk := tree.walk;
    var imports: seq<string> := [];
    var functions: seq<Declaration> := [];
    var classes: seq<Declaration> := [];
    var variables: seq<Variable> := [];
    var fileDocstring: Option<string> := None;

    for i := 0 to |walk|
      invariant FileRecords(imports, functions, classes, variables) == WalkRecords(text, appRoot, walk[..i])
    {
      WalkStep(text, appRoot, walk, i);
      imports, functions, classes, variables := VisitNode(text, appRoot, walk[i], imports, functions, classes, variables);
    }
    assert walk[..|walk|] == walk;
    return Extracted(FileRecords(imports, functions, classes, variables), fileDocstring);
  }

  /** Visiting one more node merges its records into those of the nodes before it. */
  lemma WalkStep(text: string, appRoot: string, walk: seq<Node>, i: nat)
    requires i < |walk|
    ensures WalkRecords(text, appRoot, walk[..i + 1]) == Merge(WalkRecords(text, appRoot, walk[..i]), NodeRecords(text, appRoot, walk[i]))
  {
    assert walk[..i + 1][..i] == walk[..i];
  }

  // ---------------------------------------------------------------------
  // Properties of the extraction

  /** Extraction follows the walk: the lists for a walk split in two are the
      lists of the first part followed by those of the second. */
  lemma {:induction false} WalkRecordsAppend(text: string, appRoot: string, a: seq<Node>, b: seq<Node>)
    ensures WalkRecords(text, appRoot, a + b) == Merge(WalkRecords(text, appRoot, a), WalkRecords(text, appRoot, b))
    decreases |b|
  {
    if b == [] {
      assert a + b == a;
    } else {
      var b', last := b[..|b| - 1], b[|b| - 1];
      assert (a + b)[..|a + b| - 1] == a + b';
      assert (a + b)[|a + b| - 1] == last;
      WalkRecordsAppend(text, appRoot, a, b');
      var x, y, z := WalkRecords(text, appRoot, a), WalkRecords(text, appRoot, b'), NodeRecords(text, appRoot, last);
      calc {
        WalkRecords(text, appRoot, a + b);
        Merge(WalkRecords(text, appRoot, a + b'), z);
        Merge(Merge(x, y), z);
        { MergeAssociative(x, y, z); }
        Merge(x, Merge(y, z));
        Merge(x, WalkRecords(text, appRoot, b));
      }
    }
  }

  /** An `async def`, an assignment to anything but a plain name (such as
      `x, y = 1, 2`) and every other kind of node leave the lists as they are. */
  lemma IgnoredNodeAddsNothing(text: string, appRoot: string, a: seq<Node>, node: Node, b: seq<Node>)
    requires node.AsyncFunctionDef? || node.Other? || (node.Assign? && !node.firstTarget.Name?)
    ensures WalkRecords(text, appRoot, a + [node] + b) == WalkRecords(text, appRoot, a + b)
  {
    assert NodeRecords(text, appRoot, node) == NoRecords;
    assert [node][..0] == [];
    assert WalkRecords(text, appRoot, [node]) == NoRecords;
    WalkRecordsAppend(text, appRoot, a, [node]);
    assert WalkRecords(text, appRoot, a + [node]) == WalkRecords(text, appRoot, a);
    WalkRecordsAppend(text, appRoot, a + [node], b);
    WalkRecordsAppend(text, appRoot, a, b);
  }

  /** A function record is exactly the record of some `def` node of the walk. */
  lemma {:induction false} FunctionRecordOrigin(text: string, appRoot: string, walk: seq<Node>, r: Declaration)
    ensures r in WalkRecords(text, appRoot, walk).functions <==>
      exists i | 0 <= i < |walk| :: walk[i].FunctionDef? && r == DeclarationOf(text, walk[i])
  {
    if walk != [] {
      var prefix := walk[..|walk| - 1];
      FunctionRecordOrigin(text, appRoot, prefix, r);
      assert forall i | 0 <= i < |prefix| :: prefix[i] == walk[i];
    }
  }

  /** A class record is exactly the record of some `class` node of the walk. */
  lemma {:induction false} ClassRecordOrigin(text: string, appRoot: string, walk: seq<Node>, r: Declaration)
    ensures r in WalkRecords(text, appRoot, walk).classes <==>
      exists i | 0 <= i < |walk| :: walk[i].ClassDef? && r == DeclarationOf(text, walk[i])
  {
    if walk != [] {
      var prefix := walk[..|walk| - 1];
      ClassRecordOrigin(text, appRoot, prefix, r);
      assert forall i | 0 <= i < |prefix| :: prefix[i] == walk[i];
    }
  }

  /** A variable record is exactly the name and source text of some
      assignment whose first target is a plain name. */
  lemma {:induction false} VariableRecordOrigin(text: string, appRoot: string, walk: seq<Node>, v: Variable)
    ensures v in WalkRecords(text, appRoot, walk).variables <==>
      exists i | 0 <= i < |walk| ::
        walk[i].Assign? && walk[i].firstTarget.Name? && v == Variable(walk[i].firstTarget.id, walk[i].segment)
  {
    if walk != [] {
      var prefix := walk[..|walk| - 1];
      VariableRecordOrigin(text, appRoot, prefix, v);
      assert forall i | 0 <= i < |prefix| :: prefix[i] == walk[i];
    }
  }
}
