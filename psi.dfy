/**
 * The parts of the IDE's syntax tree (PSI) that the BUILD-file resolution
 * helpers look at, reduced to values. The tree itself belongs to the host;
 * here an element's identity is its `id`: two values with the same id stand
 * for the same tree node, as Java's `==` on PSI elements does.
 */
module Psi {
  import opened Wrappers

  /** An element that can be handed to a processor callback. */
  datatype Symbol =
      /** A named element (parameter, assignment target, function, ...); its name may be null. */
    | Named(id: nat, name: Option<string>)
      /** A string literal, e.g. a symbol imported by a `load` statement, with the element it refers to. */
    | StringLiteral(id: nat, contents: string, referent: Option<Symbol>)
      /** Any other element. */
    | Unnamed(id: nat)

  /** The element's name as `getName()` reports it (null for elements without one). */
  function NameOf(s: Symbol): Option<string>
  {
    if s.Named? then s.name else None
  }

  /** A loop variable of a `for` statement: an expression that may or may not be an assignment target. */
  datatype LoopVariable = LoopVariable(expr: Symbol, isTarget: bool)

  /** An assignment statement, with its left-hand target when it has one. */
  datatype Assignment = Assignment(lhs: Option<Symbol>)

  /** A `load` statement and the string literals it imports. */
  datatype LoadStatement = LoadStatement(importedSymbols: seq<Symbol>)

  /** The kinds of tree node the scope walk distinguishes. */
  datatype NodeKind =
    | BuildFile
    | OtherFileSystemItem
    | FunctionStatement(parameters: seq<Symbol>)
    | ForStatement(loopVariables: seq<LoopVariable>)
    | StatementList(assignments: seq<Assignment>)
    | OtherElement

  datatype Node = Node(id: nat, kind: NodeKind)

  /** A BUILD file is a file, and so a file-system item; so are directories and other files. */
  predicate IsFileSystemItem(n: Node)
  {
    n.kind.BuildFile? || n.kind.OtherFileSystemItem?
  }

  /**
   * `chain[0]` is an element and `chain[i + 1]` the parent of `chain[i]`; the
   * chain reaches a containing file or directory, as every element of a
   * parsed file does.
   */
  predicate InFile(chain: seq<Node>)
  {
    |chain| > 0 && IsFileSystemItem(chain[|chain| - 1])
  }

  /** Something a search may be asked to resolve to a file. */
  datatype PsiTarget = File(id: nat) | Directory(id: nat) | OtherTarget(id: nat)
}
