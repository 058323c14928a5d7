/** `processAnalogScript` as the compiler runs it: one loop over the script's top-level statements that
    updates the member registry, the routing table, the destructuring counter and the queue of
    deferred operations while it writes into the target class; then the loops of the finalization.
    Each method is proved to do what the functions of `Transform` say. */
module Script {
  import opened Wrappers
  import opened Syntax
  import opened Output
  import opened Registry
  import opened Metadata
  import opened Imports
  import opened Destructuring
  import opened Transform
  import opened Target

  /** An import declaration: name a bare component import, read its attributes, route its names and
      copy it without its `analog` attributes. */
  method ProcessImport(target: TargetClass, pass: PassState, d: ImportDecl) returns (r: Result<PassState, CompileError>)
    modifies target
    ensures var expected := ImportStmtStep(ScanState(pass, old(target.Snapshot())), d);
      && r.Ok? == expected.Ok?
      && (r.Ok? ==> expected.value == ScanState(r.value, target.Snapshot()))
      && (r.Err? ==> r.error == expected.error && target.Snapshot() == old(target.Snapshot()))
  {
    var d1 := WithGeneratedDefault(d);
    var scan := ProcessImportAttributes(d1.attributes);
    if scan.Err? {
      return Err(scan.error);
    }
    var routes := pass.importAttributes;
    if scan.value.found.Some? {
      routes := Append(routes, scan.value.found.value, RoutedNames(d1));
    }
    target.AddImportDeclaration(d1.(attributes := scan.value.passThrough));
    r := Ok(pass.(importAttributes := routes));
  }

  /** A variable statement: an exported one is copied after the class; a simple binding is set in the
      registry; a destructuring pattern registers its hidden whole value and then its elements. */
  method ProcessVariable(target: TargetClass, pass: PassState, kind: DeclKind, exported: bool, binding: BindingName,
                         init: Option<Expr>, text: string) returns (r: PassState)
    modifies target
    ensures VariableStep(ScanState(pass, old(target.Snapshot())), kind, exported, binding, init, text)
            == ScanState(r, target.Snapshot())
  {
    if exported {
      target.AddStatement(text);
    }
    match binding {
      case Simple(n) =>
        r := pass.(registry := Set(pass.registry, ClassMember(n, InitializerOf(init), exported, kind == Let, false)));
      case Pattern(isArray, els, patternText) =>
        if els == [] {
          r := pass;
        } else {
          var count := pass.destructuredCount + 1;
          var v := VirtualName(count);
          var reg := Set(pass.registry, ClassMember(v, InitializerOf(init), false, false, true));
          reg := RegisterBindingElements(reg, v, isArray, patternText, els);
          r := pass.(registry := reg, destructuredCount := count);
        }
    }
  }

  /** An expression statement: `defineMetadata` merges at once, a hook or any other call is queued. */
  method ProcessExpression(c: Constants, target: TargetClass, pass: PassState, e: Expr, text: string)
    returns (r: Result<PassState, CompileError>)
    modifies target
    ensures var expected := ExpressionStep(c, ScanState(pass, old(target.Snapshot())), e, text);
      && r.Ok? == expected.Ok?
      && (r.Ok? ==> expected.value == ScanState(r.value, target.Snapshot()))
      && (r.Err? ==> r.error == expected.error && target.Snapshot() == old(target.Snapshot()))
  {
    if !e.Call? {
      return Ok(pass);
    }
    var fn := Render(e.callee);
    if fn == c.defineMetadata {
      if |e.args| == 0 || !e.args[0].ObjectLit? {
        return Err(InvalidDefineMetadataArgument);
      }
      var props := MetadataAssignments(c, e.args[0].props);
      if props != [] {
        target.ProcessMetadata(props);
      }
      r := Ok(pass);
    } else if fn == c.onInit || fn == c.onDestroy {
      if |e.args| > 0 && e.args[0].FuncLit? {
        r := Ok(pass.(pending := pass.pending + [HookOp(fn, Render(e.args[0]))]));
      } else {
        r := Ok(pass);
      }
    } else {
      r := Ok(pass.(pending := pass.pending + [CallOp(text)]));
    }
  }

  /** One top-level statement. */
  method ProcessStatement(c: Constants, target: TargetClass, pass: PassState, s: Stmt)
    returns (r: Result<PassState, CompileError>)
    modifies target
    ensures var expected := Step(c, ScanState(pass, old(target.Snapshot())), s);
      && r.Ok? == expected.Ok?
      && (r.Ok? ==> expected.value == ScanState(r.value, target.Snapshot()))
      && (r.Err? ==> r.error == expected.error)
  {
    match s {
      case ImportStmt(d) =>
        r := ProcessImport(target, pass, d);
      case VarStmt(kind, exported, binding, init, text) =>
        var p := ProcessVariable(target, pass, kind, exported, binding, init, text);
        r := Ok(p);
      case FunctionStmt(name, exported, text) =>
        if name.Some? {
          if exported {
            target.AddStatement(text);
          }
          r := Ok(pass.(pending := pass.pending + [FunctionOp(name.value, exported, text)]));
        } else {
          r := Ok(pass);
        }
      case ExprStmt(e, text) =>
        r := ProcessExpression(c, target, pass, e, text);
      case OtherStmt(_) =>
        r := Ok(pass);
    }
  }

  /** The registry turned into class properties, constructor locals and aliases; returns the
      getter/setter descriptors of the `let` members. */
  method FinishRegistry(c: Constants, target: TargetClass, registry: seq<ClassMember>) returns (accessors: seq<Accessor>)
    modifies target
    ensures FinishMembers(c, Names(registry), Finishing(old(target.Snapshot()), []), registry)
            == Finishing(target.Snapshot(), accessors)
  {
    var names := Names(registry);
    accessors := [];
    for j := 0 to |registry|
      invariant FinishMembers(c, names, Finishing(old(target.Snapshot()), []), registry[..j])
                == Finishing(target.Snapshot(), accessors)
    {
      assert registry[..j + 1][..j] == registry[..j];
      var m := registry[j];
      if m.isLet && m.hasExportKeyword {
        // an exported `let` is dropped
      } else if m.isLet {
        target.AddConstructorStatements([LetLocal(m.name, LetInitText(m.init))]);
        accessors := accessors + [Accessor(m.name, IsFunctionInit(m.init))];
      } else {
        target.AddProperties([MemberProperty(c, names, m)]);
        if m.name != c.routeMeta && !m.isVirtual {
          target.AddConstructorStatements([ConstAlias(m.name)]);
        }
      }
    }
    assert registry[..|registry|] == registry;
  }

  /** The deferred operations, run in the order they were queued. */
  method RunPendingOperations(c: Constants, target: TargetClass, pending: seq<PendingOp>)
    modifies target
    ensures target.Snapshot() == RunAll(c, old(target.Snapshot()), pending)
  {
    for j := 0 to |pending|
      invariant target.Snapshot() == RunAll(c, old(target.Snapshot()), pending[..j])
    {
      assert pending[..j + 1][..j] == pending[..j];
      match pending[j] {
        case FunctionOp(n, exported, text) =>
          if exported {
            target.AddProperties([ClassProperty(n, Written(n), Protected, true)]);
          } else {
            target.AddConstructorStatements([Verbatim(text), BindFunction(n)]);
          }
        case HookOp(h, fnText) =>
          target.AddConstructorStatements([AssignHook(h, fnText)]);
          target.AddMethod(ClassMethod(HookMethod(c, h), h));
        case CallOp(text) =>
          target.AddConstructorStatements([Verbatim(text)]);
      }
    }
    assert pending[..|pending|] == pending;
  }

  /** The routed names merged into the decorator and the class. */
  method MergeImportAttributes(target: TargetClass, routes: Routes)
    modifies target
    ensures target.Snapshot() == MergeRoutes(old(target.Snapshot()), routes)
  {
    if target.kind == Component {
      if routes.viewProviders != [] {
        target.ProcessArrayLiteralMetadata("viewProviders", routes.viewProviders);
      }
      if routes.imports != [] {
        target.ProcessArrayLiteralMetadata("imports", routes.imports);
      }
      if routes.exposes != [] {
        target.AddProperties(ExposedProperties(TrimAll(routes.exposes)));
      } else {
        assert ExposedProperties(TrimAll(routes.exposes)) == [];
        assert target.properties + [] == target.properties;
      }
    }
    if routes.providers != [] {
      target.ProcessArrayLiteralMetadata("providers", routes.providers);
    }
  }

  /** `processAnalogScript`: the pass over the statements, stopping at the first error, then the
      finalization. On success the target holds exactly what `Transform` computes. */
  method ProcessAnalogScript(c: Constants, target: TargetClass, stmts: seq<Stmt>) returns (err: Option<CompileError>)
    modifies target
    ensures var expected := ScriptResult(c, old(target.Snapshot()), stmts);
      && (err.None? <==> expected.Ok?)
      && (err.None? ==> target.Snapshot() == expected.value)
      && (err.Some? ==> err.value == expected.error)
  {
    var pass := EmptyPass;
    ghost var start := target.Snapshot();
    for i := 0 to |stmts|
      invariant Pass(c, ScanState(EmptyPass, start), stmts[..i]) == Ok(ScanState(pass, target.Snapshot()))
    {
      assert stmts[..i + 1][..i] == stmts[..i];
      var r := ProcessStatement(c, target, pass, stmts[i]);
      if r.Err? {
        PassStopsAtError(c, ScanState(EmptyPass, start), stmts, i + 1);
        return Some(r.error);
      }
      pass := r.value;
    }
    assert stmts[..|stmts|] == stmts;
    var accessors := FinishRegistry(c, target, pass.registry);
    RunPendingOperations(c, target, pass.pending);
    MergeImportAttributes(target, pass.importAttributes);
    if accessors != [] {
      target.AddConstructorStatements([DefineAccessors(accessors)]);
    }
    err := None;
  }
}
