/** The generated file while the script pass writes it: the class, its decorator's metadata object and
    its constructor are changed in place, as the syntax-tree nodes are in the compiler. */
module Target {
  import opened Wrappers
  import opened Syntax
  import opened Output
  import opened Metadata

  class TargetClass {
    var kind: EntityKind
    var imports: seq<ImportDecl>
    var className: string
    var metadata: seq<MetaEntry>
    var properties: seq<ClassProperty>
    var ctor: seq<CtorStmt>
    var methods: seq<ClassMethod>
    var trailing: seq<string>

    /** The file as it stands. */
    function Snapshot(): Module
      reads this
    {
      Module(kind, imports, className, metadata, properties, ctor, methods, trailing)
    }

    constructor (m: Module)
      ensures Snapshot() == m
    {
      kind := m.kind;
      imports := m.imports;
      className := m.className;
      metadata := m.metadata;
      properties := m.properties;
      ctor := m.ctor;
      methods := m.methods;
      trailing := m.trailing;
    }

    /** `targetSourceFile.addImportDeclaration`. */
    method AddImportDeclaration(d: ImportDecl)
      modifies this
      ensures Snapshot() == old(Snapshot()).(imports := old(imports) + [d])
    {
      imports := imports + [d];
    }

    /** `targetSourceFile.addStatements`: a statement after the class. */
    method AddStatement(text: string)
      modifies this
      ensures Snapshot() == old(Snapshot()).(trailing := old(trailing) + [text])
    {
      trailing := trailing + [text];
    }

    /** `targetClass.addProperties`. */
    method AddProperties(ps: seq<ClassProperty>)
      modifies this
      ensures Snapshot() == old(Snapshot()).(properties := old(properties) + ps)
    {
      properties := properties + ps;
    }

    /** `targetConstructor.addStatements`. */
    method AddConstructorStatements(ss: seq<CtorStmt>)
      modifies this
      ensures Snapshot() == old(Snapshot()).(ctor := old(ctor) + ss)
    {
      ctor := ctor + ss;
    }

    /** `targetClass.addMethod`. */
    method AddMethod(m: ClassMethod)
      modifies this
      ensures Snapshot() == old(Snapshot()).(methods := old(methods) + [m])
    {
      methods := methods + [m];
    }

    /** `processArrayLiteralMetadata`: look the property up, add it as `[]` when it is missing, then add
        the items to it when it holds an array literal. */
    method ProcessArrayLiteralMetadata(name: string, items: seq<string>)
      modifies this
      ensures Snapshot() == old(Snapshot()).(metadata := ArrayMerged(old(metadata), name, items))
    {
      var found := FindProperty(metadata, name);
      if found.None? {
        metadata := metadata + [MetaEntry(name, ArrayValue([]))];
        found := Some(|metadata| - 1);
      }
      var k := found.value;
      match metadata[k].value {
        case ArrayValue(xs) =>
          metadata := metadata[k := MetaEntry(name, ArrayValue(xs + items))];
        case TextValue(_) =>
      }
    }

    /** One assignment of `processMetadata`: `selector` removes the first selector and adds the new one at
        the end, `exposes` adds the exposed names as class properties, anything else is added at the end.
        Stated as the step from the first `i` assignments of `props` to the first `i + 1`. */
    method ProcessAssignment(ghost meta0: seq<MetaEntry>, props: seq<MetaAssignment>, i: nat, ghost added: seq<ClassProperty>)
      returns (ghost step: seq<ClassProperty>)
      requires i < |props|
      requires (metadata, added) == ApplyFirst(meta0, props, i)
      modifies this
      ensures (metadata, added + step) == ApplyFirst(meta0, props, i + 1)
      ensures properties == old(properties) + step
      ensures kind == old(kind) && imports == old(imports) && className == old(className)
      ensures ctor == old(ctor) && methods == old(methods) && trailing == old(trailing)
    {
      var p := props[i];
      if p.name == "selector" {
        var found := FindProperty(metadata, "selector");
        if found.Some? {
          metadata := metadata[..found.value] + metadata[found.value + 1..];
        }
        metadata := metadata + [MetaEntry("selector", p.value)];
        step := [];
      } else if p.name == "exposes" {
        var exposed := ExposedProperties(ExposedNames(p.text));
        properties := properties + exposed;
        step := exposed;
      } else {
        metadata := metadata + [MetaEntry(p.name, p.value)];
        step := [];
      }
    }

    /** `processMetadata`: the assignments applied in order. */
    method ProcessMetadata(props: seq<MetaAssignment>)
      modifies this
      ensures (metadata, properties) == (ApplyAssignments(old(metadata), props).0, old(properties) + ApplyAssignments(old(metadata), props).1)
      ensures kind == old(kind) && imports == old(imports) && className == old(className)
      ensures ctor == old(ctor) && methods == old(methods) && trailing == old(trailing)
    {
      ghost var added: seq<ClassProperty> := [];
      for i := 0 to |props|
        invariant properties == old(properties) + added
        invariant (metadata, added) == ApplyFirst(old(metadata), props, i)
        invariant kind == old(kind) && imports == old(imports) && className == old(className)
        invariant ctor == old(ctor) && methods == old(methods) && trailing == old(trailing)
      {
        var step := ProcessAssignment(old(metadata), props, i, added);
        added := added + step;
      }
    }
  }
}
