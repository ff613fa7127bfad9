# Python Project Documenter — a Dafny model of its crawler

The documenter walks a Python project and writes one Markdown document per
directory. For every documented `.py` file of that directory, the document
lists:

- the file's imports, with those whose text starts with the project root's
  name in red;
- its functions and classes, each with its line, decorators, docstring and
  full source;
- every assignment whose first target is a plain name, at any depth (inside
  function and class bodies too).

A second script rewrites the crawler's own source. It inserts a fixed
docstring after every line that contains one of six fixed substrings: five
function headers and the `if __name__` guard. It also wraps a
Python file in a fenced Markdown block.

This project models the core of both scripts in Dafny and proves properties
of the model. The modules follow the program's structure:

- `Text` and `PyStr` give the Python string operations the crawler relies on,
  with Python's meaning:
  - `startswith`, `endswith`, `in`, `''.join` and `sep.join`, with a
    `split` that serves only to show that `', '.join` of import names can be
    undone;
  - `str(n)`, `strip()` and `splitlines()`;
  - `readlines()` on a text-mode file, and slicing with clamped bounds.
- `Sorting` gives Python's string order and `list.sort()`, which is specified
  by its result: the unique sorted permutation.
- `Ast` gives the part of Python's syntax tree the crawler reads:
  - a file's tree arrives as the sequence of nodes `ast.walk` visits;
  - the library calls made on nodes (`ast.unparse`, `ast.get_docstring`,
    `ast.get_source_segment`) arrive as values the nodes carry.
- `Extractor` models crawler.py's per-file functions: `is_file_empty`,
  `get_node_source_code`, `get_decorators` and `parse_python_file`.
- `Aggregator` models `process_directory` for one directory the walk reaches:
  - it turns the path's backslashes into slashes (crawler.py:93), then
    chooses and sorts the files;
  - it extracts each file and assembles the document section by section;
  - the document is returned rather than written.
  The outcome is `NoDocument`, `Document(markdown)`, or `Aborted(file,
  message)` when a file fails to parse, since that error ends the run.
- `DocstringWriter` models crawler_docstring.py's two functions. An output
  file is modelled as the sequence of strings passed to `write`, one per
  call. The file's contents are the concatenation of that sequence. The
  rewrite is stated for any table of markers and blocks (`Table`), and for
  any rule giving the writes that follow a line; `Crawler` is the table
  crawler_docstring.py hard-codes, and `AddDocstrings` uses it.

Files are given by their text, as a text-mode read returns it, so newlines
are already translated to `\n`.

The model follows the code in four places where the code differs from
its own comments suggest:

- The comment at crawler.py:4 says `is_file_empty` ignores comments and
  whitespace. The code (crawler.py:7-8) instead requires every line of the
  stripped text to start with `#`. A blank line between two comments, or an
  indented comment, therefore makes a file non-empty
  (`Extractor.BlankLineBetweenComments`, `Extractor.IndentedCommentLine`).
- When a node has no `end_lineno`, crawler.py:15 makes the end equal to the
  start, so the slice at crawler.py:16 is empty. The recovered code is then
  empty, not the node's first line.
- The comment at crawler.py:35 says `parse_python_file` captures the
  file-level docstring, but nothing after that line sets `file_docstring`.
  No document therefore contains a file-docstring block. The model keeps
  that block's rendering as code that is never reached.
- The comment at crawler.py:69 speaks of module-level variables, but the
  loop at crawler.py:37 visits every node of the tree, so the test at
  crawler.py:68 also records assignments inside function and class bodies
  (`Extractor.VariableRecordOrigin`).

## Model

| member | source | states |
|---|---|---|
| `PyStr.LStrip` | crawler.py:7 | the left half of `strip()` returns a suffix of the text; everything it cuts off is whitespace, and the result does not start with whitespace |
| `PyStr.RStrip` | crawler.py:7 | the right half of `strip()` returns a prefix of the text; everything it cuts off is whitespace, and the result does not end with whitespace |
| `PyStr.StripTrimmed` | crawler.py:7 | what `strip()` returns neither starts nor ends with whitespace |
| `PyStr.LineStart` | crawler.py:8 | each line `splitlines()` returns is found verbatim in the text, at a position that begins a line |
| `PyStr.LinesStartWithHashIff` | crawler.py:8 | every line `splitlines()` yields starts with `#` exactly when every character position that begins a line holds `#` |
| `PyStr.ReadLinesJoin` | crawler.py:13 | joining the lines `readlines()` returns gives the text back; every line is non-empty, ends in its only `\n`, and only the last line may lack one |
| `Text.SplitJoin` | crawler.py:46 | splitting `', '.join(names)` on `", "` gives the names back, in order, when no name contains a comma |
| `Text.DecimalRoundTrip` | crawler.py:122 | the line number printed with `str(n)` reads back as `n` |
| `Sorting.Sort` | crawler.py:97 | `filenames.sort()` leaves the list sorted in Python's string order and a permutation of the original list |
| `Sorting.SortedUnique` | crawler.py:97 | two sorted lists with the same elements are equal, so the sorted result is unique |
| `Sorting.SortIgnoresOrder` | crawler.py:97 | sorting two rearrangements of the same names gives the same list |
| `Extractor.IsFileEmptyIff` | crawler.py:5-8 | a file is empty exactly when every line-start position of its stripped text holds `#` (vacuously so for an all-whitespace file) |
| `Extractor.CodeLineMakesFileNonEmpty` | crawler.py:7-8 | any file with a line whose first non-whitespace character is not `#` is not empty, wherever that line sits and whatever whitespace surrounds the file |
| `Extractor.BlankLineBetweenComments` | crawler.py:8 | for any two one-line comments `a` and `b` (`b` not ending in whitespace), `a + "\n\n" + b` is not empty: its blank middle line does not start with `#` |
| `Extractor.IndentedCommentLine` | crawler.py:8 | for any two such comments, `a + "\n " + b` is not empty: the indented second line does not start with `#` |
| `Extractor.CommentLinesOnly` | crawler.py:8 | for any two such comments, `a + "\n" + b`, made only of comment lines, is empty |
| `Extractor.SourceCodeIsVerbatimSpan` | crawler.py:11-16 | the recovered code is the file text verbatim, from the start of line `lineno` to the end of line `end_lineno`, clamped to the end of the file; it is empty when `end_lineno` is missing or lies before `lineno` |
| `Extractor.SourceCodeIsLineRange` | crawler.py:13-16 | the recovered code begins with line `lineno` and ends with line `end_lineno`, or with the file's last line when `end_lineno` lies past the end |
| `Extractor.GetDecorators` | crawler.py:19-24 | one `ast.unparse` text per decorator, in the order written; nothing for a node without a `decorator_list` |
| `Extractor.HighlightRoundTrip` | crawler.py:41-42 | an import statement is wrapped in the red font tag exactly when it starts with the root prefix, and removing the tag gives the statement back |
| `Extractor.ImportEntries` | crawler.py:39-43 | `import a, b` gives one entry per alias, in order, each reading `import <name>` once unwrapped, marked exactly when the name starts with the project root |
| `Extractor.FromImportEntry` | crawler.py:44-49 | a from-import gives exactly one entry, `from <module> import n1, n2`; it is marked exactly when the text after `from ` starts with the root (so whenever the module does); its names split back out in order |
| `Extractor.ImportMarkingExamples` | crawler.py:41-48 | `from myapp.util import helper` is marked for root `myapp`; `from requests import get` is not; `import appx` is marked for root `app` (a plain prefix test) |
| `Extractor.AppendAliasImports` | crawler.py:39-43 | the alias loop appends exactly the node's import entries, in order, after those already collected |
| `Extractor.VisitNode` | crawler.py:38-75 | one pass of the walk loop appends the node's records to the list of its kind and leaves the other lists as they were |
| `Extractor.ParsePythonFile` | crawler.py:27-77 | a syntax error is returned as the failure; otherwise the four lists are the per-node records of the whole walk, concatenated in walk order, and the file docstring is `None` |
| `Extractor.WalkRecordsAppend` | crawler.py:37-75 | the records of a walk split in two are the records of the first part followed by those of the second |
| `Extractor.IgnoredNodeAddsNothing` | crawler.py:37-68 | an `async def`, an assignment whose first target is not a plain name, or any other node leaves all four lists unchanged |
| `Extractor.FunctionRecordOrigin` | crawler.py:50-58 | a record is in the functions list exactly when some `def` node of the walk produces it, nested ones included |
| `Extractor.ClassRecordOrigin` | crawler.py:59-67 | a record is in the classes list exactly when some `class` node of the walk produces it |
| `Extractor.VariableRecordOrigin` | crawler.py:68-75 | a variable record is exactly the name and source segment of some assignment whose first target is a plain name, nested ones included |
| `Aggregator.ReplaceBackslashesOnly` | crawler.py:93 | the replacement keeps the length, turns every backslash into `/`, leaves every other character alone, and leaves no backslash |
| `Aggregator.KeptNames` | crawler.py:96 | each name occurs in the comprehension's result as often as in the listing when it passes the test, and not at all otherwise |
| `Aggregator.DocumentedFiles` | crawler.py:96-97 | the chosen names are sorted; a name is chosen exactly when it is listed, ends in `.py`, is not `__init__.py` and its file is not empty |
| `Aggregator.ListingOrderIrrelevant` | crawler.py:96-97 | the chosen files do not depend on the order in which the directory is listed |
| `Aggregator.UndocumentedNameIrrelevant` | crawler.py:96 | adding a name that fails the test leaves the chosen files unchanged |
| `Aggregator.FileDocstringBlock` | crawler.py:111-112 | the file docstring block is absent exactly when the docstring is missing or empty |
| `Aggregator.ImportsSection` | crawler.py:114-117 | the imports section is absent exactly when there are no imports |
| `Aggregator.DeclarationsSection` | crawler.py:119-141 | the functions (or classes) section is absent exactly when the list is empty |
| `Aggregator.VariablesSection` | crawler.py:143-146 | the variables section is absent exactly when there are no variables |
| `Aggregator.AppendImports` | crawler.py:114-117 | the loop appends exactly the imports section to the document |
| `Aggregator.AppendDeclarations` | crawler.py:119-141 | the loop appends exactly the functions (or classes) section: for each entry, the decorators only when present, the docstring only when non-empty, then the code |
| `Aggregator.AppendVariables` | crawler.py:143-146 | the loop appends exactly the variables section |
| `Aggregator.AppendFile` | crawler.py:110-146 | the file's part is appended: header, docstring block, imports, functions, classes and variables, in that order |
| `Aggregator.ProcessDirectory` | crawler.py:93-146 | the outcome equals the left fold of the per-file parts over the chosen files in sorted order, starting from the directory header; no document when no file is chosen; the first syntax error aborts |
| `Aggregator.StopsIffSyntaxError` | crawler.py:106-108 | the run stops exactly when one of the files handled fails to parse |
| `Aggregator.FirstSyntaxErrorStops` | crawler.py:106-108 | a stopped run names the first file that fails to parse, with its own error message; every earlier file parsed |
| `Aggregator.AllFilesRendered` | crawler.py:106-146 | when every file parses, the result is the text so far followed by one part per file, in the given order |
| `Aggregator.RenderingOnlyAppends` | crawler.py:104-146 | adding files only extends the document; the text so far stays its prefix |
| `Aggregator.NoDocumentIffNoFiles` | crawler.py:96-99 | no document is produced exactly when no listed file passes the test |
| `Aggregator.OutcomeIgnoresListingOrder` | crawler.py:96-97 | the outcome for a directory is the same whatever order its files are listed in |
| `Aggregator.DocumentStartsWithHeader` | crawler.py:93-104 | every document starts with the `# Directory:` heading naming the path, its backslashes turned to slashes |
| `Aggregator.AbortedIffSyntaxError` | crawler.py:96-108 | the run is aborted exactly when some chosen file fails to parse |
| `Aggregator.DocumentIsHeaderThenFiles` | crawler.py:104-146 | when every chosen file parses, the document is the header followed by one part per chosen file, in sorted name order |
| `DocstringWriter.MatchedMarkerIsFirst` | crawler_docstring.py:11-30 | for any list of markers, the branch a line takes is the first marker it contains; no branch is taken exactly when it contains none |
| `DocstringWriter.WriteLine` | crawler_docstring.py:11-30 | one pass of the loop writes the line, then the block of the first of the crawler's markers it contains, if any |
| `DocstringWriter.AddDocstrings` | crawler_docstring.py:3-30 | the writes are each input line, in order, each followed by its block, if any |
| `DocstringWriter.RewriteAppend` | crawler_docstring.py:9-30 | for any rule giving the writes after a line, rewriting two runs of lines gives the rewrite of the first followed by the rewrite of the second |
| `DocstringWriter.RewritePlacement` | crawler_docstring.py:9-30 | for any such rule, around any line the writes are those for the earlier lines, then the line and what follows it, then those for the later lines |
| `DocstringWriter.OriginalRewrite` | crawler_docstring.py:9-30 | for any marker table with a block per marker, deleting the inserted blocks gives the input lines back: every line is written once, in its original order |
| `DocstringWriter.UnmarkedCopied` | crawler_docstring.py:29-30 | for any such table, a file in which no line contains a marker is copied unchanged |
| `DocstringWriter.RewriteLength` | crawler_docstring.py:9-30 | for any such rule, the output text is as long as the input text plus the inserted writes |
| `DocstringWriter.ConvertToMarkdown` | crawler_docstring.py:34-44 | the writes are the title, the opening fence, each input line and the closing fence; the Markdown text is the title, the fence, the input text and the closing fence |
| `DocstringWriter.MarkdownText` | crawler_docstring.py:39-44 | the writes concatenate to the title, the opening fence, the whole input text and the closing fence |
| `DocstringWriter.MarkdownBodyRoundTrip` | crawler_docstring.py:39-44 | reading back what lies between the opening and the closing fence of the file the writes produce gives the input text |

## Left out

- File I/O is not modelled. Opening, reading and writing files, encodings, and read failures are outside the model. A file arrives as the text a read returns; an output file is returned as its text or as its sequence of writes.
- `os.walk`, the `__pycache__` pruning, `os.path.normpath` and `os.path.join` (crawler.py:88-93, 107) are not modelled. One directory is modelled, given by its path, its listing and its files. Only the backslash replacement of line 93 is modelled.
- `app_root` (crawler.py:81) is a parameter, not computed from `os.path.basename`.
- Output file naming and `os.makedirs` (crawler.py:82-83, 101) are not modelled, since they only decide where a document is written.
- `print` diagnostics (crawler.py:85-86, 102, 152; crawler_docstring.py:32, 46) produce no modelled output.
- `ast.parse`, `ast.walk`, `ast.unparse`, `ast.get_docstring` and `ast.get_source_segment` are library code. Their results are inputs: a parse outcome, the walk as a sequence of nodes, and texts carried by the nodes.
- Extractor.GetDecorators: the `str(decorator)` fallback for interpreters without `ast.unparse` (crawler.py:23) is not modelled.
- The read at crawler.py:71 uses the platform's default encoding, unlike the UTF-8 reads elsewhere, and never closes the file; neither is modelled, since the source segment it yields is an input carried by the node.
- The module-level driver code (crawler.py:155-159, crawler_docstring.py:48-57) is not modelled. Neither is the chaining of the two docstring functions through files on disk. Each function is modelled on its own.
- crawler_html_automate.py is not part of this model.
- Sorting.Sort: `list.sort()` is modelled by its result, computed by insertion sort, not by the library's algorithm. The sorted permutation is unique (`Sorting.SortedUnique`), so the result is the same.
