/** The abstract syntax of a script block as the compiler sees it: the handful of expression and
    statement shapes it tells apart, each other node standing for its own source text. The parser that
    produces this syntax (ts-morph) is not part of this model. */
module Syntax {
  import opened Wrappers
  import opened Strings

  /** Expressions. `Render` gives the text that the source reads with `getText()`. */
  datatype Expr =
    | Ident(name: string)                         // an identifier
    | PropAccess(target: Expr, member: string)    // `target.member`
    | Call(callee: Expr, args: seq<Expr>)          // `callee(args)`
    | ArrayLit(elements: seq<Expr>)               // `[a, b]`
    | ObjectLit(props: seq<ObjectProp>)           // `{ name: value, ... }`
    | FuncLit(text: string)                       // an arrow function or function expression
    | Other(text: string)                         // literals, `this`, element access, operators, ...

  /** A member of an object literal: a property assignment `name: value`, or anything else (shorthand,
      spread, method), kept as text. */
  datatype ObjectProp = Assignment(name: string, value: Expr) | NonAssignment(text: string)

  /** The source text of an expression, in a canonical layout (one space after each comma). */
  function Render(e: Expr): string {
    match e
    case Ident(n) => n
    case PropAccess(t, m) => Render(t) + "." + m
    case Call(f, args) => Render(f) + "(" + Join(seq(|args|, i requires 0 <= i < |args| => Render(args[i])), ", ") + ")"
    case ArrayLit(es) => "[" + Join(seq(|es|, i requires 0 <= i < |es| => Render(es[i])), ", ") + "]"
    case ObjectLit(ps) => "{ " + Join(seq(|ps|, i requires 0 <= i < |ps| => RenderProp(ps[i])), ", ") + " }"
    case FuncLit(t) => t
    case Other(t) => t
  }

  function RenderProp(p: ObjectProp): string {
    match p
    case Assignment(n, v) => n + ": " + Render(v)
    case NonAssignment(t) => t
  }

  /** `let`, `const` or `var`. */
  datatype DeclKind = Const | Let | Var

  /** One element of a destructuring pattern: `propertyName: name = default` or `...name`; `position`
      is its index in an array pattern, holes counted. */
  datatype BindingElement = BindingElement(
    name: string,
    propertyName: Option<string>,
    default: Option<Expr>,
    isRest: bool,
    position: nat)

  /** The left-hand side of a variable declaration. A pattern lists its binding elements as the source
      collects them (holes of an array pattern are not elements); `text` is the pattern's full text. */
  datatype BindingName =
    | Simple(name: string)
    | Pattern(isArray: bool, elements: seq<BindingElement>, text: string)

  datatype NamedImport = NamedImport(name: string, alias: Option<string>)

  /** An import attribute `name: value` of a `with { ... }` clause (section 16.2.2 of ECMA-262); `value` is
      the literal's text, quotes included. */
  datatype ImportAttribute = ImportAttribute(name: string, value: string)

  /** The structure of an import declaration; an empty `attributes` means there is no `with` clause. */
  datatype ImportDecl = ImportDecl(
    moduleSpecifier: string,
    defaultImport: Option<string>,
    namespaceImport: Option<string>,
    namedImports: seq<NamedImport>,
    attributes: seq<ImportAttribute>)

  /** A top-level statement of the script block; `fullText` is its text as written. */
  datatype Stmt =
    | ImportStmt(decl: ImportDecl)
    | VarStmt(kind: DeclKind, exported: bool, binding: BindingName, init: Option<Expr>, fullText: string)
    | FunctionStmt(name: Option<string>, exported: bool, fullText: string)
    | ExprStmt(expr: Expr, fullText: string)
    | OtherStmt(fullText: string)

  /** The compiler's named constants, whose values live in a module that is not part of this model:
      the callee names it recognises, the lifecycle method each hook becomes, the reserved route-meta
      binding, the signal factory names (`SIGNALS_MAP` and `REQUIRED_SIGNALS_MAP`) and the metadata
      properties that `defineMetadata` may not set. */
  datatype Constants = Constants(
    defineMetadata: string,
    onInit: string,
    onDestroy: string,
    onInitMethod: string,
    onDestroyMethod: string,
    outputFromObservable: string,
    routeMeta: string,
    signalFactories: set<string>,
    invalidMetadata: set<string>)

  /** The errors that end a compilation. */
  datatype CompileError =
    | MissingComponentName(path: string)
    | CannotDetermineEntityType(path: string)
    | InvalidImportAttribute(value: string)
    | InvalidDefineMetadataArgument
}
