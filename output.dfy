/** The generated module: the decorated class that the compiler emits, as structured data instead of
    printed text. */
module Output {
  import opened Syntax

  /** Whether the file compiles to an Angular component or directive. */
  datatype EntityKind = Component | Directive

  /** The member's access modifier; `Default` is no modifier. */
  datatype Visibility = Default | Protected | Private

  /** A property initializer, or `Unwritten` when the writer wrote nothing for it. */
  datatype PropertyInit = Written(text: string) | Unwritten

  datatype ClassProperty = ClassProperty(name: string, init: PropertyInit, visibility: Visibility, readonly: bool)

  /** One get/set descriptor of the `Object.defineProperties(this, ...)` block for a `let` binding;
      `isFunction` when its initializer is a function, whose `value` is then bound to the instance. */
  datatype Accessor = Accessor(propertyName: string, isFunction: bool)

  /** A statement of the generated constructor. */
  datatype CtorStmt =
    | Verbatim(text: string)                    // a script statement copied as written
    | LetLocal(name: string, initText: string)  // `let <name><initText>;`
    | ConstAlias(name: string)                  // `const <name> = this.<name>;`
    | BindFunction(name: string)                // `this.<name> = <name>.bind(this);`
    | AssignHook(slot: string, fnText: string)  // `this.<slot> = <fnText>`
    | DefineAccessors(accessors: seq<Accessor>) // `Object.defineProperties(this, { ... })`

  /** A lifecycle method whose body is `this.<slot>();`. */
  datatype ClassMethod = ClassMethod(name: string, slot: string)

  /** The value of a decorator metadata property: an array literal (its elements' texts) or other text. */
  datatype MetaValue = ArrayValue(items: seq<string>) | TextValue(text: string)

  datatype MetaEntry = MetaEntry(name: string, value: MetaValue)

  /** The generated file: its imports, the class with its decorator metadata, properties, constructor
      statements and methods, and the statements placed after the class. */
  datatype Module = Module(
    kind: EntityKind,
    imports: seq<ImportDecl>,
    className: string,
    metadata: seq<MetaEntry>,
    properties: seq<ClassProperty>,
    ctor: seq<CtorStmt>,
    methods: seq<ClassMethod>,
    trailing: seq<string>)
}
