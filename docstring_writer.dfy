/** crawler_docstring.py: a line-by-line rewriter that writes a fixed
    docstring block after each line naming one of the crawler's functions,
    and a wrapper that puts a file's text in a fenced Python block under a
    title. An output file is modelled as the sequence of strings written to
    it, one per `write` call; the file's contents are their concatenation. */
module DocstringWriter {
  import opened Text
  import opened PyStr
  import opened Ast

  /** The substrings the crawler's rewriter looks for, in the order its
      if/elif chain tests them. */
  const Markers: seq<string> := [
    "def is_file_empty",
    "def get_node_source_code",
    "def get_decorators",
    "def parse_python_file",
    "def process_directory",
    "if __name__"
  ]

  /** The docstring block the crawler's rewriter writes after a line holding
      the marker of the same index. */
  const Blocks: seq<string> := [
    "    \"\"\"\n    Check if a file is empty by reading its content and removing whitespace.\n    Returns True if the file is empty or contains only comments.\n    \"\"\"\n",
    "    \"\"\"\n    Get the full source code of an AST node by reading the file's lines.\n    This function helps to extract the code for specific nodes such as functions or classes.\n    \"\"\"\n",
    "    \"\"\"\n    Extract decorators from a function or class definition node in the AST.\n    Returns a list of the decorators applied to the node.\n    \"\"\"\n",
    "    \"\"\"\n    Parse a Python file using AST (Abstract Syntax Tree).\n    Extracts imports, functions, classes, variables/constants, and their docstrings or decorators.\n    Returns imports, functions, classes, variables, and file-level docstring.\n    \"\"\"\n",
    "    \"\"\"\n    Process the entire directory tree starting from `root_dir`.\n    For each Python file found, extract information and save as markdown in the output directory.\n    \"\"\"\n",
    "    \"\"\"\n    Main entry point of the script.\n    Sets the correct root directory for the app and starts processing the files.\n    \"\"\"\n"
  ]

  /** A rewriting table: the substrings looked for, in the order the if/elif
      chain tests them, and the block written after a line holding the
      marker of the same index. The lemmas below hold for every table; the
      rewriter itself uses `Crawler`. */
  datatype Table = Table(markers: seq<string>, blocks: seq<string>)

  predicate WellFormed(table: Table) {
    |table.blocks| == |table.markers|
  }

  const Crawler: Table := Table(Markers, Blocks)

  /** The first marker, from index `j` on, that `line` contains. */
  function FirstMarkerFrom(markers: seq<string>, line: string, j: nat): (m: Option<nat>)
    requires j <= |markers|
    ensures m.Some? ==> j <= m.value < |markers|
    decreases |markers| - j
  {
    if j == |markers| then None
    else if Contains(line, markers[j]) then Some(j)
    else FirstMarkerFrom(markers, line, j + 1)
  }

  /** The branch of the if/elif chain a line takes: the first marker it
      contains, or none. */
  function MatchedMarker(markers: seq<string>, line: string): (m: Option<nat>)
    ensures m.Some? ==> m.value < |markers|
  {
    FirstMarkerFrom(markers, line, 0)
  }

  lemma {:induction false} FirstMarkerFromIsFirst(markers: seq<string>, line: string, j: nat)
    requires j <= |markers|
    ensures var m := FirstMarkerFrom(markers, line, j);
      (m.Some? ==> Contains(line, markers[m.value]) && forall k | j <= k < m.value :: !Contains(line, markers[k])) &&
      (m.None? ==> forall k | j <= k < |markers| :: !Contains(line, markers[k]))
    decreases |markers| - j
  {
    if j < |markers| && !Contains(line, markers[j]) {
      FirstMarkerFromIsFirst(markers, line, j + 1);
    }
  }

  /** A line takes the branch of the first marker it contains, in the
      if/elif order, and the final `else` exactly when it contains none. */
  lemma MatchedMarkerIsFirst(markers: seq<string>, line: string)
    ensures var m := MatchedMarker(markers, line);
      (m.Some? ==> Contains(line, markers[m.value]) && forall k | 0 <= k < m.value :: !Contains(line, markers[k])) &&
      (m.None? <==> forall k | 0 <= k < |markers| :: !Contains(line, markers[k]))
  {
    FirstMarkerFromIsFirst(markers, line, 0);
  }

  /** What is written after a line: the block of the first marker the line
      contains, if any. */
  function Inserted(table: Table, line: string): (after: seq<string>)
    requires WellFormed(table)
    ensures |after| <= 1
  {
    match MatchedMarker(table.markers, line)
    case Some(i) => [table.blocks[i]]
    case None => []
  }

  /** `Inserted` for one table, as a function of the line. */
  function After(table: Table): string -> seq<string>
    requires WellFormed(table)
  {
    line => Inserted(table, line)
  }

  /** Everything written for `lines`: each line, followed by what `after`
      gives for it. The rewriter's `after` is `After(Crawler)`; the lemmas
      that only rely on the order of the writes hold for every `after`. */
  function Rewrite(after: string -> seq<string>, lines: seq<string>): seq<string> {
    if lines == [] then []
    else Rewrite(after, lines[..|lines| - 1]) + [lines[|lines| - 1]] + after(lines[|lines| - 1])
  }

  /** `add_docstrings_to_file`: `text` is what reading the input file gives,
      the result the writes to the output file, in order. */
  method AddDocstrings(text: string) returns (writes: seq<string>)
    ensures writes == Rewrite(After(Crawler), ReadLines(text))
  {
    var lines := ReadLines(text);
    writes := [];
    for k := 0 to |lines|
      invariant writes == Rewrite(After(Crawler), lines[..k])
    {
      RewriteStep(After(Crawler), lines, k);
      writes := WriteLine(writes, lines[k]);
    }
    assert lines[..|lines|] == lines;
  }

  /** Rewriting one more line extends the writes by that line and its block. */
  lemma RewriteStep(after: string -> seq<string>, lines: seq<string>, k: nat)
    requires k < |lines|
    ensures Rewrite(after, lines[..k + 1]) == Rewrite(after, lines[..k]) + [lines[k]] + after(lines[k])
  {
    assert lines[..k + 1][..k] == lines[..k];
  }

  /** One pass of the loop: the line is written, then the block of the
      first marker it contains, if any. */
  method WriteLine(writes: seq<string>, line: string) returns (extended: seq<string>)
    ensures extended == writes + [line] + After(Crawler)(line)
  {
    if Contains(line, Markers[0]) {
      extended := writes + [line];
      extended := extended + [Blocks[0]];
    } else if Contains(line, Markers[1]) {
      extended := writes + [line];
      extended := extended + [Blocks[1]];
    } else if Contains(line, Markers[2]) {
      extended := writes + [line];
      extended := extended + [Blocks[2]];
    } else if Contains(line, Markers[3]) {
      extended := writes + [line];
      extended := extended + [Blocks[3]];
    } else if Contains(line, Markers[4]) {
      extended := writes + [line];
      extended := extended + [Blocks[4]];
    } else if Contains(line, Markers[5]) {
      extended := writes + [line];
      extended := extended + [Blocks[5]];
    } else {
      extended := writes + [line];
    }
  }

  /** Rewriting a concatenation rewrites each part. */
  lemma {:induction false} RewriteAppend(after: string -> seq<string>, a: seq<string>, b: seq<string>)
    ensures Rewrite(after, a + b) == Rewrite(after, a) + Rewrite(after, b)
    decreases |b|
  {
    if b == [] {
      assert a + b == a;
    } else {
      var c, x := b[..|b| - 1], b[|b| - 1];
      RewriteAppend(after, a, c);
      RewriteLast(after, a, b);
      assert b == c + [x];
      Regroup(Rewrite(after, a), Rewrite(after, c), [x], after(x));
    }
  }

  /** Rewriting `a + b`, for a non-empty `b`, ends with the writes for
      `b`'s last line. */
  lemma RewriteLast(after: string -> seq<string>, a: seq<string>, b: seq<string>)
    requires b != []
    ensures Rewrite(after, a + b) == Rewrite(after, a + b[..|b| - 1]) + [b[|b| - 1]] + after(b[|b| - 1])
  {
    assert (a + b)[..|a + b| - 1] == a + b[..|b| - 1];
  }

  lemma Regroup<T>(p: seq<T>, q: seq<T>, r: seq<T>, t: seq<T>)
    ensures (p + q) + r + t == p + (q + r + t)
  {
  }

  /** The writes for a single line: the line, then its block, if any. */
  lemma RewriteSingle(after: string -> seq<string>, line: string)
    ensures Rewrite(after, [line]) == [line] + after(line)
  {
    assert [line][..0] == [];
    assert Rewrite(after, [line]) == [] + [line] + after(line);
  }

  lemma SplitAround(lines: seq<string>, i: nat)
    requires i < |lines|
    ensures lines == lines[..i] + [lines[i]] + lines[i + 1..]
  {
  }

  /** The writes split around any line: everything written for the lines
      before it, then the line itself followed by its block, if any, then
      everything written for the lines after it. */
  lemma RewritePlacement(after: string -> seq<string>, lines: seq<string>, i: nat)
    requires i < |lines|
    ensures Rewrite(after, lines) ==
      Rewrite(after, lines[..i]) + ([lines[i]] + after(lines[i])) + Rewrite(after, lines[i + 1..])
  {
    SplitAround(lines, i);
    RewriteAppend(after, lines[..i] + [lines[i]], lines[i + 1..]);
    RewriteAppend(after, lines[..i], [lines[i]]);
    RewriteSingle(after, lines[i]);
  }

  /** The writes with the inserted blocks deleted: a line containing a
      marker is followed by one block, which is dropped. */
  function Original(markers: seq<string>, writes: seq<string>): seq<string>
    decreases |writes|
  {
    if writes == [] then []
    else if MatchedMarker(markers, writes[0]).Some? && |writes| >= 2 then [writes[0]] + Original(markers, writes[2..])
    else [writes[0]] + Original(markers, writes[1..])
  }

  /** Deleting the inserted blocks from the output gives back the input
      lines: every line is written exactly once, in its original order. */
  lemma {:induction false} OriginalRewrite(table: Table, lines: seq<string>)
    requires WellFormed(table)
    ensures Original(table.markers, Rewrite(After(table), lines)) == lines
    decreases |lines|
  {
    if lines != [] {
      var after := After(table);
      var line, rest := lines[0], lines[1..];
      RewriteAppend(after, [line], rest);
      assert lines == [line] + rest;
      RewriteSingle(after, line);
      OriginalRewrite(table, rest);
      var w := Rewrite(after, lines);
      if MatchedMarker(table.markers, line).Some? {
        assert w[2..] == Rewrite(after, rest);
      } else {
        assert w[1..] == Rewrite(after, rest);
      }
    }
  }

  /** A file in which no line contains a marker is copied unchanged. */
  lemma {:induction false} UnmarkedCopied(table: Table, lines: seq<string>)
    requires WellFormed(table)
    requires forall i, k | 0 <= i < |lines| && 0 <= k < |table.markers| :: !Contains(lines[i], table.markers[k])
    ensures Rewrite(After(table), lines) == lines
    decreases |lines|
  {
    if lines != [] {
      var prefix := lines[..|lines| - 1];
      UnmarkedCopied(table, prefix);
      MatchedMarkerIsFirst(table.markers, lines[|lines| - 1]);
      assert After(table)(lines[|lines| - 1]) == [];
      assert lines == prefix + [lines[|lines| - 1]];
    }
  }

  /** The total size of what is written after the lines of `lines`. */
  function InsertedSize(after: string -> seq<string>, lines: seq<string>): nat {
    if lines == [] then 0
    else InsertedSize(after, lines[..|lines| - 1]) + |Concat(after(lines[|lines| - 1]))|
  }

  /** The output file is as long as the input plus the inserted blocks. */
  lemma {:induction false} RewriteLength(after: string -> seq<string>, lines: seq<string>)
    ensures |Concat(Rewrite(after, lines))| == |Concat(lines)| + InsertedSize(after, lines)
    decreases |lines|
  {
    if lines != [] {
      var prefix, line := lines[..|lines| - 1], lines[|lines| - 1];
      RewriteLength(after, prefix);
      ConcatAppend(Rewrite(after, prefix) + [line], after(line));
      ConcatAppend(Rewrite(after, prefix), [line]);
      ConcatAppend(prefix, [line]);
      assert lines == prefix + [line];
      ConcatSingle(line);
    }
  }

  // ---------------------------------------------------------------------
  // The fenced wrapper

  const Fence: string := "```python\n"
  const FenceClose: string := "```\n"

  function Title(inputFile: string): string {
    "# Documentation for " + inputFile + "\n\n"
  }

  /** `convert_to_markdown`: `text` is what reading the input file gives,
      the result the writes to the Markdown file, in order. */
  method ConvertToMarkdown(inputFile: string, text: string) returns (writes: seq<string>)
    ensures writes == [Title(inputFile), Fence] + ReadLines(text) + [FenceClose]
    ensures Concat(writes) == Title(inputFile) + Fence + text + FenceClose
  {
    var lines := ReadLines(text);
    writes := [Title(inputFile)];
    writes := writes + [Fence];
    for k := 0 to |lines|
      invariant writes == [Title(inputFile), Fence] + lines[..k]
    {
      assert lines[..k + 1] == lines[..k] + [lines[k]];
      writes := writes + [lines[k]];
    }
    assert lines[..|lines|] == lines;
    writes := writes + [FenceClose];
    MarkdownText(inputFile, text);
  }

  /** The Markdown file is the title, the opening fence, the input text
      verbatim and the closing fence. */
  lemma MarkdownText(inputFile: string, text: string)
    ensures Concat([Title(inputFile), Fence] + ReadLines(text) + [FenceClose]) == Title(inputFile) + Fence + text + FenceClose
  {
    var lines := ReadLines(text);
    ReadLinesJoin(text);
    ConcatAppend([Title(inputFile), Fence] + lines, [FenceClose]);
    ConcatAppend([Title(inputFile), Fence], lines);
    ConcatAppend([Title(inputFile)], [Fence]);
    assert [Title(inputFile)] + [Fence] == [Title(inputFile), Fence];
    ConcatSingle(Title(inputFile));
    ConcatSingle(Fence);
    ConcatSingle(FenceClose);
  }

  /** What lies between the opening fence and the closing one in a Markdown
      file written for `inputFile`. */
  function FencedBody(markdown: string, inputFile: string): string
    requires |Title(inputFile) + Fence| + |FenceClose| <= |markdown|
  {
    markdown[|Title(inputFile) + Fence|..|markdown| - |FenceClose|]
  }

  /** The input text can be read back from the file `convert_to_markdown`
      writes, between the opening fence and the closing one. */
  lemma MarkdownBodyRoundTrip(inputFile: string, text: string)
    ensures var markdown := Concat([Title(inputFile), Fence] + ReadLines(text) + [FenceClose]);
      |Title(inputFile) + Fence| + |FenceClose| <= |markdown| && FencedBody(markdown, inputFile) == text
  {
    MarkdownText(inputFile, text);
    var markdown := Title(inputFile) + Fence + text + FenceClose;
    assert markdown == (Title(inputFile) + Fence) + text + FenceClose;
  }
}
