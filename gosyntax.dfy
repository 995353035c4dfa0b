/**
 * What the inspector reads from go/packages, go/ast and go/types, as plain
 * values. The loader resolves every type to its `types.Type.String()` text;
 * a file is the sequence of FuncDecl and GenDecl nodes that ast.Inspect
 * visits, in its depth-first order (declarations inside function bodies
 * included, at the place the traversal reaches them).
 */
module GoSyntax {
  import opened Wrappers

  /** A types.Var: a parameter, a result or a struct field. */
  datatype Variable = Variable(name: string, typeString: string)

  /** A types.Signature; `receiver` is the receiver's type text, if any. */
  datatype Signature = Signature(receiver: Option<string>, params: seq<Variable>, results: seq<Variable>)

  /** A types.Func: an explicit method of an interface. */
  datatype Func = Func(name: string, signature: Signature)

  /** The underlying type of a declared type name. */
  datatype Underlying =
    | StructType(fields: seq<Variable>)
    | InterfaceType(explicitMethods: seq<Func>)
    | OtherType(text: string)

  /** An initializer expression: only a basic literal carries text the inspector uses. */
  datatype Expr = BasicLit(value: string) | OtherExpr

  /** The object kind of a name bound by a value spec (ast.Con or ast.Var). */
  datatype ObjKind = Con | Var

  /**
   * An identifier with its entry in TypesInfo.Defs: the type text of the
   * defined object, or None when the entry is nil.
   */
  datatype Ident = Ident(name: string, def: Option<string>)

  /**
   * The specs of a GenDecl. `doc` is `Doc.Text()` of the spec itself, which
   * is "" unless the spec sits in a parenthesised group with its own comment.
   */
  datatype Spec =
    | ValueSpec(kind: ObjKind, names: seq<Ident>, values: seq<Expr>, doc: string)
    | TypeSpec(name: string, doc: string, def: Option<Underlying>)
    | ImportSpec(path: string)

  /** The nodes the inspector's switch acts on. */
  datatype Node =
    | FuncDecl(name: string, doc: string, signature: Signature)
    | GenDecl(specs: seq<Spec>)

  /** ast.IsExported: the name starts with an upper-case letter. */
  predicate IsExported(name: string)
  {
    |name| > 0 && 'A' <= name[0] <= 'Z'
  }
}
