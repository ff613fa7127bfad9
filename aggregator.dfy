/** The per-directory half of crawler.py (`process_directory`, for one
    directory the walk reaches): choose and sort the directory's Python
    files, extract each one and assemble the Markdown document, section by
    section. */
module Aggregator {
  import opened Text
  import opened Ast
  import opened Sorting
  import opened Extractor

  /** A file of the directory: the text a read of it returns and the
      outcome of parsing that text. */
  datatype SourceFile = SourceFile(text: string, tree: ParseOutcome)

  /** What handling one directory gives: nothing to write, the document to
      write, or the syntax error that stops the run. */
  datatype DirectoryOutcome =
    | NoDocument
    | Document(markdown: string)
    | Aborted(file: string, message: string)

  // ---------------------------------------------------------------------
  // Choosing the files

  /** `dirpath.replace("\\", "/")`. */
  function ReplaceBackslashes(path: string): string {
    seq(|path|, k requires 0 <= k < |path| => if path[k] == '\\' then '/' else path[k])
  }

  /** After the replacement no backslash is left, every backslash has become
      a slash and every other character is unchanged. */
  lemma ReplaceBackslashesOnly(path: string)
    ensures var r := ReplaceBackslashes(path);
      |r| == |path| && '\\' !in r &&
      forall k | 0 <= k < |path| :: (path[k] == '\\' ==> r[k] == '/') && (path[k] != '\\' ==> r[k] == path[k])
  {
  }

  /** The test of the comprehension at crawler.py line 96. */
  predicate IsDocumented(name: string, text: string) {
    EndsWith(name, ".py") && !IsFileEmpty(text) && name != "__init__.py"
  }

  predicate Keeps(files: map<string, SourceFile>, name: string) {
    name in files && IsDocumented(name, files[name].text)
  }

  /** The comprehension at line 96: the documented names, in listing order. */
  function KeptNames(listing: seq<string>, files: map<string, SourceFile>): (kept: seq<string>)
    requires forall n | n in listing :: n in files
    ensures forall n :: multiset(kept)[n] == if Keeps(files, n) then multiset(listing)[n] else 0
  {
    if listing == [] then []
    else
      assert listing == [listing[0]] + listing[1..];
      (if Keeps(files, listing[0]) then [listing[0]] else []) + KeptNames(listing[1..], files)
  }

  /** Lines 96-97: the names kept, sorted. */
  function DocumentedFiles(listing: seq<string>, files: map<string, SourceFile>): (names: seq<string>)
    requires forall n | n in listing :: n in files
    ensures Sorted(names)
    ensures forall n :: n in names <==> n in listing && IsDocumented(n, files[n].text)
    ensures multiset(names) == multiset(KeptNames(listing, files))
  {
    var kept := KeptNames(listing, files);
    var names := Sort(kept);
    assert forall n :: n in names <==> multiset(kept)[n] > 0;
    names
  }

  /** The files chosen do not depend on the order the directory lists them in. */
  lemma ListingOrderIrrelevant(a: seq<string>, b: seq<string>, files: map<string, SourceFile>)
    requires forall n | n in a :: n in files
    requires multiset(a) == multiset(b)
    ensures forall n | n in b :: n in files
    ensures DocumentedFiles(a, files) == DocumentedFiles(b, files)
  {
    forall n | n in b ensures n in files {
      assert n in multiset(b);
    }
    var ka, kb := KeptNames(a, files), KeptNames(b, files);
    forall n ensures multiset(ka)[n] == multiset(kb)[n] {
    }
    assert multiset(ka) == multiset(kb);
    SortIgnoresOrder(ka, kb);
  }

  /** A name that fails the test (not `.py`, `__init__.py`, or an empty file)
      does not change the files chosen. */
  lemma UndocumentedNameIrrelevant(listing: seq<string>, name: string, files: map<string, SourceFile>)
    requires forall n | n in listing :: n in files
    requires name in files && !IsDocumented(name, files[name].text)
    ensures forall n | n in listing + [name] :: n in files
    ensures DocumentedFiles(listing + [name], files) == DocumentedFiles(listing, files)
  {
    var k1, k2 := KeptNames(listing + [name], files), KeptNames(listing, files);
    UndocumentedNameNotKept(listing, name, files);
    SortIgnoresOrder(k1, k2);
  }

  lemma UndocumentedNameNotKept(listing: seq<string>, name: string, files: map<string, SourceFile>)
    requires forall n | n in listing :: n in files
    requires name in files && !IsDocumented(name, files[name].text)
    ensures forall n | n in listing + [name] :: n in files
    ensures multiset(KeptNames(listing + [name], files)) == multiset(KeptNames(listing, files))
  {
    var k1, k2 := KeptNames(listing + [name], files), KeptNames(listing, files);
    assert multiset(listing + [name]) == multiset(listing) + multiset{name};
    assert !Keeps(files, name);
    forall n ensures multiset(k1)[n] == multiset(k2)[n] {
    }
    assert multiset(k1) == multiset(k2);
  }

  // ---------------------------------------------------------------------
  // The pieces of the document: one function per piece the source appends

  datatype DeclKind = FunctionKind | ClassKind

  function Heading(kind: DeclKind): string {
    if kind == FunctionKind then "### Functions:\n" else "### Classes:\n"
  }

  function Label(kind: DeclKind): string {
    if kind == FunctionKind then "Function" else "Class"
  }

  function DirectoryHeader(dirpath: string): string {
    "# Directory: `" + ReplaceBackslashes(dirpath) + "`\n\n"
  }

  function FileHeader(filename: string): string {
    "## File: `" + filename + "`\n\n"
  }

  function FileDocstringNote(fileDocstring: string): string {
    "**File Docstring:**\n```\n" + fileDocstring + "\n```\n"
  }

  const ImportsHeading: string := "### Imports:\n"

  function ImportLine(statement: string): string {
    "- " + statement + "\n"
  }

  /** The first line of a function's or class's entry: its name and line. */
  function EntryHeader(kind: DeclKind, d: Declaration): string {
    "- **" + Label(kind) + ":** `" + d.name + "` (line " + DecimalString(d.startLine) + ")\n"
  }

  function DecoratorsNote(decorators: seq<string>): string {
    "  **Decorators:**\n  ```\n  " + Join(" ", decorators) + "\n  ```\n"
  }

  function DocstringNote(docstring: string): string {
    "  **Docstring:**\n  ```\n  " + docstring + "\n  ```\n"
  }

  const CodeOpen: string := "  ```python\n"

  function CodeLine(code: string): string {
    "  " + code + "\n"
  }

  const CodeClose: string := "  ```\n"

  const VariablesHeading: string := "### Variables/Constants:\n"

  /** An f-string renders a missing source segment as `None`. */
  function ValueText(value: Option<string>): string {
    if value.Some? then value.value else "None"
  }

  function VariableEntry(v: Variable): string {
    "  ```python\n  " + ValueText(v.value) + "\n  ```\n"
  }

  // ---------------------------------------------------------------------
  // The sections, assembled from the pieces

  /** The file docstring block, present only for a non-empty docstring. */
  function FileDocstringBlock(fileDocstring: Option<string>): (block: string)
    ensures block == "" <==> fileDocstring.None? || fileDocstring.value == ""
  {
    if fileDocstring.Some? && fileDocstring.value != "" then FileDocstringNote(fileDocstring.value) else ""
  }

  function ImportLines(imports: seq<string>): string {
    if imports == [] then ""
    else ImportLines(imports[..|imports| - 1]) + ImportLine(imports[|imports| - 1])
  }

  /** The imports section: absent exactly when there are no imports. */
  function ImportsSection(imports: seq<string>): (section: string)
    ensures section == "" <==> imports == []
  {
    if imports == [] then "" else ImportsHeading + ImportLines(imports)
  }

  /** The entry for one function or class: the decorators block only when
      there are decorators, the docstring block only for a non-empty
      docstring, then the source code in a fenced block. */
  function DeclarationEntry(kind: DeclKind, d: Declaration): string {
    EntryHeader(kind, d)
    + (if d.decorators != [] then DecoratorsNote(d.decorators) else "")
    + (if d.docstring.Some? && d.docstring.value != "" then DocstringNote(d.docstring.value) else "")
    + CodeOpen
    + CodeLine(d.code)
    + CodeClose
  }

  function DeclarationEntries(kind: DeclKind, decls: seq<Declaration>): string {
    if decls == [] then ""
    else DeclarationEntries(kind, decls[..|decls| - 1]) + DeclarationEntry(kind, decls[|decls| - 1])
  }

  /** The functions or classes section: absent exactly when the list is empty. */
  function DeclarationsSection(kind: DeclKind, decls: seq<Declaration>): (section: string)
    ensures section == "" <==> decls == []
  {
    if decls == [] then "" else Heading(kind) + DeclarationEntries(kind, decls)
  }

  function VariableEntries(variables: seq<Variable>): string {
    if variables == [] then ""
    else VariableEntries(variables[..|variables| - 1]) + VariableEntry(variables[|variables| - 1])
  }

  /** The variables section: absent exactly when there are no variables. */
  function VariablesSection(variables: seq<Variable>): (section: string)
    ensures section == "" <==> variables == []
  {
    if variables == [] then "" else VariablesHeading + VariableEntries(variables)
  }

  /** The part of the document for one file, its sections in fixed order. */
  function FileSection(filename: string, records: FileRecords, fileDocstring: Option<string>): string {
    FileHeader(filename)
    + FileDocstringBlock(fileDocstring)
    + ImportsSection(records.imports)
    + DeclarationsSection(FunctionKind, records.functions)
    + DeclarationsSection(ClassKind, records.classes)
    + VariablesSection(records.variables)
  }

  /** The document built so far, or the syntax error that stopped the run. */
  datatype Body = Rendered(text: string) | Failed(file: string, message: string)

  /** The document after the given files have been added in order to `sofar`,
      or the first syntax error met. */
  function RenderFrom(sofar: string, names: seq<string>, files: map<string, SourceFile>, appRoot: string): Body
    requires forall n | n in names :: n in files
    decreases |names|
  {
    if names == [] then Rendered(sofar)
    else
      match RenderNext(sofar, names[0], files[names[0]], appRoot)
      case Failed(f, m) => Failed(f, m)
      case Rendered(t) => RenderFrom(t, names[1..], files, appRoot)
  }

  /** Adds the part for one more file to the document so far, or fails with
      that file's syntax error. */
  function RenderNext(sofar: string, name: string, file: SourceFile, appRoot: string): Body {
    match file.tree
    case SyntaxError(m) => Failed(name, m)
    case Parsed(_) => Rendered(sofar + PartOf(name, file, appRoot))
  }

  /** The part of the document for a file that parses. */
  function PartOf(name: string, file: SourceFile, appRoot: string): string
    requires file.tree.Parsed?
  {
    FileSection(name, WalkRecords(file.text, appRoot, file.tree.walk), None)
  }

  /** The outcome of `process_directory` for one directory. */
  function DirectoryDocument(dirpath: string, listing: seq<string>, files: map<string, SourceFile>, appRoot: string): DirectoryOutcome
    requires forall n | n in listing :: n in files
  {
    var names := DocumentedFiles(listing, files);
    if names == [] then NoDocument
    else
      match RenderFrom(DirectoryHeader(dirpath), names, files, appRoot)
      case Failed(f, m) => Aborted(f, m)
      case Rendered(markdown) => Document(markdown)
  }

  // ---------------------------------------------------------------------
  // The assembly, step by step

  /** Lines 114-117. */
  method AppendImports(documentation: string, imports: seq<string>) returns (extended: string)
    ensures extended == documentation + ImportsSection(imports)
  {
    extended := documentation;
    if imports != [] {
      extended := extended + ImportsHeading;
      for k := 0 to |imports|
        invariant extended == documentation + ImportsHeading + ImportLines(imports[..k])
      {
        assert imports[..k + 1][..k] == imports[..k];
        AppendAssociates(documentation + ImportsHeading, ImportLines(imports[..k]), ImportLine(imports[k]));
        extended := extended + ImportLine(imports[k]);
      }
      assert imports[..|imports|] == imports;
      AppendAssociates(documentation, ImportsHeading, ImportLines(imports));
    }
  }

  /** Lines 119-129 (functions) and 131-141 (classes). */
  method AppendDeclarations(documentation: string, kind: DeclKind, decls: seq<Declaration>) returns (extended: string)
    ensures extended == documentation + DeclarationsSection(kind, decls)
  {
    extended := documentation;
    if decls != [] {
      extended := extended + Heading(kind);
      for k := 0 to |decls|
        invariant extended == documentation + Heading(kind) + DeclarationEntries(kind, decls[..k])
      {
        assert decls[..k + 1][..k] == decls[..k];
        var d := decls[k];
        ghost var before := extended;
        extended := extended + EntryHeader(kind, d);
        ghost var entry := EntryHeader(kind, d);
        if d.decorators != [] {
          AppendAssociates(before, entry, DecoratorsNote(d.decorators));
          extended := extended + DecoratorsNote(d.decorators);
          entry := entry + DecoratorsNote(d.decorators);
        } else {
          AppendEmpty(entry);
          entry := entry + "";
        }
        if d.docstring.Some? && d.docstring.value != "" {
          AppendAssociates(before, entry, DocstringNote(d.docstring.value));
          extended := extended + DocstringNote(d.docstring.value);
          entry := entry + DocstringNote(d.docstring.value);
        } else {
          AppendEmpty(entry);
          entry := entry + "";
        }
        AppendAssociates(before, entry, CodeOpen);
        extended := extended + CodeOpen;
        entry := entry + CodeOpen;
        AppendAssociates(before, entry, CodeLine(d.code));
        extended := extended + CodeLine(d.code);
        entry := entry + CodeLine(d.code);
        AppendAssociates(before, entry, CodeClose);
        extended := extended + CodeClose;
        entry := entry + CodeClose;
        assert entry == DeclarationEntry(kind, d);
        AppendAssociates(documentation + Heading(kind), DeclarationEntries(kind, decls[..k]), entry);
      }
      assert decls[..|decls|] == decls;
      AppendAssociates(documentation, Heading(kind), DeclarationEntries(kind, decls));
    }
  }

  /** Lines 143-146. */
  method AppendVariables(documentation: string, variables: seq<Variable>) returns (extended: string)
    ensures extended == documentation + VariablesSection(variables)
  {
    extended := documentation;
    if variables != [] {
      extended := extended + VariablesHeading;
      for k := 0 to |variables|
        invariant extended == documentation + VariablesHeading + VariableEntries(variables[..k])
      {
        assert variables[..k + 1][..k] == variables[..k];
        AppendAssociates(documentation + VariablesHeading, VariableEntries(variables[..k]), VariableEntry(variables[k]));
        extended := extended + VariableEntry(variables[k]);
      }
      assert variables[..|variables|] == variables;
      AppendAssociates(documentation, VariablesHeading, VariableEntries(variables));
    }
  }

  /** Lines 109-146: the part of the document for one file. */
  method AppendFile(documentation: string, filename: string, records: FileRecords, fileDocstring: Option<string>)
    returns (extended: string)
    ensures extended == documentation + FileSection(filename, records, fileDocstring)
  {
    extended := documentation + FileHeader(filename);
    ghost var part := FileHeader(filename);
    if fileDocstring.Some? && fileDocstring.value != "" {
      AppendAssociates(documentation, part, FileDocstringNote(fileDocstring.value));
      extended := extended + FileDocstringNote(fileDocstring.value);
      part := part + FileDocstringNote(fileDocstring.value);
    } else {
      AppendEmpty(part);
      part := part + "";
    }
    AppendAssociates(documentation, part, ImportsSection(records.imports));
    extended := AppendImports(extended, records.imports);
    part := part + ImportsSection(records.imports);
    AppendAssociates(documentation, part, DeclarationsSection(FunctionKind, records.functions));
    extended := AppendDeclarations(extended, FunctionKind, records.functions);
    part := part + DeclarationsSection(FunctionKind, records.functions);
    AppendAssociates(documentation, part, DeclarationsSection(ClassKind, records.classes));
    extended := AppendDeclarations(extended, ClassKind, records.classes);
    part := part + DeclarationsSection(ClassKind, records.classes);
    AppendAssociates(documentation, part, VariablesSection(records.variables));
    extended := AppendVariables(extended, records.variables);
    part := part + VariablesSection(records.variables);
    assert part == FileSection(filename, records, fileDocstring);
  }

  /** `process_directory` for one directory: lines 93 and 96-146, the
      document being returned rather than written. */
  method ProcessDirectory(dirpath: string, listing: seq<string>, files: map<string, SourceFile>, appRoot: string)
    returns (outcome: DirectoryOutcome)
    requires forall n | n in listing :: n in files
    ensures outcome == DirectoryDocument(dirpath, listing, files, appRoot)
  {
    var dirpathNormalized := ReplaceBackslashes(dirpath);
    var filenames := DocumentedFiles(listing, files);
    if filenames == [] {
      return NoDocument;
    }
    var header := "# Directory: `" + dirpathNormalized + "`\n\n";
    var documentation := header;
    for k := 0 to |filenames|
      invariant RenderFrom(documentation, filenames[k..], files, appRoot) == RenderFrom(header, filenames, files, appRoot)
    {
      var filename := filenames[k];
      var file := files[filename];
      assert filenames[k..][1..] == filenames[k + 1..];
      var extraction := ParsePythonFile(file.text, file.tree, appRoot);
      if extraction.ParseFailed? {
        return Aborted(filename, extraction.message);
      }
      documentation := AppendFile(documentation, filename, extraction.records, extraction.fileDocstring);
      assert PartOf(filename, file, appRoot) == FileSection(filename, extraction.records, extraction.fileDocstring);
    }
    return Document(documentation);
  }

  // ---------------------------------------------------------------------
  // Properties of the document

  /** The run is stopped exactly when some file fails to parse. */
  lemma {:induction false} StopsIffSyntaxError(sofar: string, names: seq<string>, files: map<string, SourceFile>, appRoot: string)
    requires forall n | n in names :: n in files
    ensures RenderFrom(sofar, names, files, appRoot).Failed? <==>
      exists n | n in names :: files[n].tree.SyntaxError?
    decreases |names|
  {
    if names != [] {
      var first := files[names[0]];
      if first.tree.SyntaxError? {
        assert names[0] in names;
      } else {
        var rest := names[1..];
        var text := RenderNext(sofar, names[0], first, appRoot).text;
        StopsIffSyntaxError(text, rest, files, appRoot);
        assert forall n | n in names :: n == names[0] || n in rest;
        assert forall n | n in rest :: n in names;
      }
    }
  }

  /** When the run is stopped, it is by the first file that fails to parse,
      with that file's error. */
  lemma {:induction false} FirstSyntaxErrorStops(sofar: string, names: seq<string>, files: map<string, SourceFile>, appRoot: string)
    requires forall n | n in names :: n in files
    requires RenderFrom(sofar, names, files, appRoot).Failed?
    ensures exists i | 0 <= i < |names| ::
      names[i] == RenderFrom(sofar, names, files, appRoot).file &&
      files[names[i]].tree == SyntaxError(RenderFrom(sofar, names, files, appRoot).message) &&
      forall j | 0 <= j < i :: files[names[j]].tree.Parsed?
    decreases |names|
  {
    var failure := RenderFrom(sofar, names, files, appRoot);
    var step := RenderNext(sofar, names[0], files[names[0]], appRoot);
    if step.Rendered? {
      var rest := names[1..];
      assert failure == RenderFrom(step.text, rest, files, appRoot);
      FirstSyntaxErrorStops(step.text, rest, files, appRoot);
      var i :| 0 <= i < |rest| && rest[i] == failure.file &&
        files[rest[i]].tree == SyntaxError(failure.message) &&
        forall j | 0 <= j < i :: files[rest[j]].tree.Parsed?;
      forall j | 0 <= j < i + 1 ensures files[names[j]].tree.Parsed? {
        if j > 0 {
          assert names[j] == rest[j - 1];
        }
      }
      assert names[i + 1] == failure.file;
    } else {
      assert names[0] == failure.file;
    }
  }

  /** The part of the document for each file of `names`, in order. */
  function FileSections(names: seq<string>, files: map<string, SourceFile>, appRoot: string): (parts: seq<string>)
    requires forall n | n in names :: n in files && files[n].tree.Parsed?
    ensures |parts| == |names|
  {
    if names == [] then []
    else [PartOf(names[0], files[names[0]], appRoot)] + FileSections(names[1..], files, appRoot)
  }

  /** When every file parses, the document is what came before followed by
      one part per file, in the given order. */
  lemma {:induction false} AllFilesRendered(sofar: string, names: seq<string>, files: map<string, SourceFile>, appRoot: string)
    requires forall n | n in names :: n in files && files[n].tree.Parsed?
    ensures RenderFrom(sofar, names, files, appRoot) == Rendered(sofar + Concat(FileSections(names, files, appRoot)))
    decreases |names|
  {
    if names == [] {
      AppendEmpty(sofar);
    } else {
      var part := PartOf(names[0], files[names[0]], appRoot);
      var later := FileSections(names[1..], files, appRoot);
      AllFilesRendered(sofar + part, names[1..], files, appRoot);
      assert Concat(FileSections(names, files, appRoot)) == part + Concat(later);
      AppendAssociates(sofar, part, Concat(later));
    }
  }

  /** Adding files only extends the document: what was there before stays
      its prefix. */
  lemma {:induction false} RenderingOnlyAppends(sofar: string, names: seq<string>, files: map<string, SourceFile>, appRoot: string)
    requires forall n | n in names :: n in files
    requires RenderFrom(sofar, names, files, appRoot).Rendered?
    ensures StartsWith(RenderFrom(sofar, names, files, appRoot).text, sofar)
    decreases |names|
  {
    if names != [] {
      var t := RenderNext(sofar, names[0], files[names[0]], appRoot).text;
      RenderingOnlyAppends(t, names[1..], files, appRoot);
      NextExtends(sofar, names[0], files[names[0]], appRoot);
      PrefixTransitive(RenderFrom(sofar, names, files, appRoot).text, t, sofar);
    }
  }

  /** One step of the fold only appends. */
  lemma NextExtends(sofar: string, name: string, file: SourceFile, appRoot: string)
    requires RenderNext(sofar, name, file, appRoot).Rendered?
    ensures StartsWith(RenderNext(sofar, name, file, appRoot).text, sofar)
  {
    AppendExtends(sofar, PartOf(name, file, appRoot));
  }

  /** No document is produced exactly when no file of the directory is chosen. */
  lemma NoDocumentIffNoFiles(dirpath: string, listing: seq<string>, files: map<string, SourceFile>, appRoot: string)
    requires forall n | n in listing :: n in files
    ensures DirectoryDocument(dirpath, listing, files, appRoot).NoDocument? <==>
      forall n | n in listing :: !IsDocumented(n, files[n].text)
  {
    var names := DocumentedFiles(listing, files);
    if names != [] {
      assert names[0] in listing;
    }
  }

  /** The outcome does not depend on the order of the directory listing. */
  lemma OutcomeIgnoresListingOrder(dirpath: string, a: seq<string>, b: seq<string>, files: map<string, SourceFile>, appRoot: string)
    requires forall n | n in a :: n in files
    requires multiset(a) == multiset(b)
    ensures forall n | n in b :: n in files
    ensures DirectoryDocument(dirpath, a, files, appRoot) == DirectoryDocument(dirpath, b, files, appRoot)
  {
    ListingOrderIrrelevant(a, b, files);
  }

  /** A document starts with the directory header, its backslashes turned to slashes. */
  lemma DocumentStartsWithHeader(dirpath: string, listing: seq<string>, files: map<string, SourceFile>, appRoot: string)
    requires forall n | n in listing :: n in files
    requires DirectoryDocument(dirpath, listing, files, appRoot).Document?
    ensures StartsWith(DirectoryDocument(dirpath, listing, files, appRoot).markdown, DirectoryHeader(dirpath))
  {
    RenderingOnlyAppends(DirectoryHeader(dirpath), DocumentedFiles(listing, files), files, appRoot);
  }

  /** The run is stopped exactly when some chosen file fails to parse. */
  lemma AbortedIffSyntaxError(dirpath: string, listing: seq<string>, files: map<string, SourceFile>, appRoot: string)
    requires forall n | n in listing :: n in files
    ensures DirectoryDocument(dirpath, listing, files, appRoot).Aborted? <==>
      exists n | n in listing :: IsDocumented(n, files[n].text) && files[n].tree.SyntaxError?
  {
    var names := DocumentedFiles(listing, files);
    var outcome := DirectoryDocument(dirpath, listing, files, appRoot);
    StopsIffSyntaxError(DirectoryHeader(dirpath), names, files, appRoot);
    if exists n | n in listing :: IsDocumented(n, files[n].text) && files[n].tree.SyntaxError? {
      var n :| n in listing && IsDocumented(n, files[n].text) && files[n].tree.SyntaxError?;
      assert n in names;
    }
  }

  /** When every chosen file parses, the document is the directory header
      followed by one part per chosen file, in sorted name order. */
  lemma DocumentIsHeaderThenFiles(dirpath: string, listing: seq<string>, files: map<string, SourceFile>, appRoot: string)
    requires forall n | n in listing :: n in files
    requires forall n | n in listing && IsDocumented(n, files[n].text) :: files[n].tree.Parsed?
    requires exists n | n in listing :: IsDocumented(n, files[n].text)
    ensures DirectoryDocument(dirpath, listing, files, appRoot) ==
      Document(DirectoryHeader(dirpath) + Concat(FileSections(DocumentedFiles(listing, files), files, appRoot)))
  {
    var names := DocumentedFiles(listing, files);
    var n :| n in listing && IsDocumented(n, files[n].text);
    assert n in names;
    AllFilesRendered(DirectoryHeader(dirpath), names, files, appRoot);
  }
}
