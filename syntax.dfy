/**
 * The abstract input of the generator: the parts of a Roslyn compilation that the
 * generator reads. Syntax-tree walking is replaced by these values; a syntax tree is
 * given as the list of its descendant nodes in document order.
 */
module Syntax {

  /** The type written on a property, as far as the type mapper distinguishes it. */
  datatype TypeSyntax =
    | Nullable(elementType: TypeSyntax)  // `T?`
    | Predefined(keyword: string)        // a keyword type: `int`, `bool`, `string`, ...
    | Other(text: string)                // named, generic, array, tuple, ... types

  /** A property as the generator sees it: its identifier and its declared type. */
  datatype PropertyDecl = PropertyDecl(identifier: string, declaredType: TypeSyntax)
  {
    /** `prop.IsNullable()`: the property's type is declared with `?`. */
    predicate IsNullable()
    {
      declaredType.Nullable?
    }
  }

  /** An attribute as written: the name text and the argument texts. */
  datatype Attribute = Attribute(name: string, arguments: seq<string>)

  datatype SyntaxKind =
    | ClassDeclaration
    | StructDeclaration
    | RecordDeclaration
    | InterfaceDeclaration
    | EnumDeclaration
    | OtherNode

  /**
   * A syntax node. Only type declarations carry a meaningful identifier, modifiers,
   * attribute lists and properties; other nodes have them empty.
   */
  datatype SyntaxNode = SyntaxNode(
    kind: SyntaxKind,
    identifier: string,
    modifiers: seq<string>,
    attributeLists: seq<seq<Attribute>>,
    properties: seq<PropertyDecl>)

  /** A syntax tree, given by its descendant nodes in document order. */
  datatype SyntaxTree = SyntaxTree(descendantNodes: seq<SyntaxNode>)

  datatype Compilation = Compilation(syntaxTrees: seq<SyntaxTree>)

  const PartialKeyword: string := "partial"
}
