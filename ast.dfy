/** The part of Python's syntax tree the crawler reads. The tree itself, its
    parser and its traversal are outside the model: a file's tree arrives as
    the sequence of nodes `ast.walk` visits, and the three library calls the
    crawler makes on nodes (`ast.unparse` on a decorator, `ast.get_docstring`
    on a definition, `ast.get_source_segment` on an assignment) arrive as
    values carried by the nodes. */
module Ast {

  datatype Option<+T> = None | Some(value: T)

  /** Line numbers in the tree are 1-based. */
  type LineNumber = n: nat | n >= 1 witness 1

  /** A decorator expression, carried with the text `ast.unparse` renders for it. */
  datatype Expr = Expr(unparsed: string)

  /** `ast.unparse(e)`. */
  function Unparse(e: Expr): string {
    e.unparsed
  }

  /** The fields of a `def` or `class` node the crawler reads; `docstring`
      is what `ast.get_docstring` returns for it, and `endLineno` is `None`
      when the node has no `end_lineno` attribute. */
  datatype Definition = Definition(
    name: string,
    lineno: LineNumber,
    endLineno: Option<LineNumber>,
    docstring: Option<string>,
    decoratorList: seq<Expr>)

  /** The target of an assignment: a plain name, or anything else (tuple,
      attribute, subscript, starred). */
  datatype Target = Name(id: string) | OtherTarget

  /** One node of the walk. `Assign` keeps its first target (the parser
      never builds one without a target) and what `ast.get_source_segment`
      returns for the whole statement. Every other kind of node is `Other`. */
  datatype Node =
    | Import(names: seq<string>)
    | ImportFrom(moduleName: Option<string>, names: seq<string>)
    | FunctionDef(decl: Definition)
    | AsyncFunctionDef(decl: Definition)
    | ClassDef(decl: Definition)
    | Assign(firstTarget: Target, segment: Option<string>)
    | Other

  /** What parsing a file's text gives: the walk of its tree, or the syntax
      error `ast.parse` raises. */
  datatype ParseOutcome = Parsed(walk: seq<Node>) | SyntaxError(message: string)

  /** `node.decorator_list` when the node has that attribute. */
  function DecoratorList(node: Node): Option<seq<Expr>> {
    match node
    case FunctionDef(d) => Some(d.decoratorList)
    case AsyncFunctionDef(d) => Some(d.decoratorList)
    case ClassDef(d) => Some(d.decoratorList)
    case _ => None
  }
}
