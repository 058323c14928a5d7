/** The script pass (`processAnalogScript`) as functions: one forward pass over the top-level statements
    that fills the member registry, the import routing table, the destructuring counter and the queue
    of deferred operations while it writes imports, exported statements and metadata to the target;
    then the finalization that turns the registry into class members and constructor statements, runs
    the queue and merges the routed names. */
module Transform {
  import opened Wrappers
  import opened Strings
  import opened Syntax
  import opened Output
  import opened Scope
  import opened Registry
  import opened Metadata
  import opened Imports
  import opened Destructuring

  /** A deferred operation of `pendingOperations`. */
  datatype PendingOp =
    | FunctionOp(name: string, exported: bool, text: string)  // a named function declaration
    | HookOp(hook: string, fnText: string)                     // `onInit(fn)` / `onDestroy(fn)`
    | CallOp(text: string)                                     // any other top-level call

  /** The pass's own variables. */
  datatype PassState = PassState(
    registry: seq<ClassMember>,
    importAttributes: Routes,
    destructuredCount: nat,
    pending: seq<PendingOp>)

  const EmptyPass := PassState([], NoRoutes, 0, [])

  /** The pass's variables and the target file. */
  datatype ScanState = ScanState(pass: PassState, target: Module)

  // ---------------------------------------------------------------------------------------------
  // One statement
  // ---------------------------------------------------------------------------------------------

  function ImportStmtStep(st: ScanState, d: ImportDecl): Result<ScanState, CompileError> {
    var (routes, copy) :- ImportStep(st.pass.importAttributes, d);
    Ok(ScanState(st.pass.(importAttributes := routes), st.target.(imports := st.target.imports + [copy])))
  }

  /** A variable statement: an exported one is also copied after the class at once; a simple binding
      is set in the registry, a pattern is lowered. */
  function VariableStep(st: ScanState, kind: DeclKind, exported: bool, binding: BindingName, init: Option<Expr>,
                        text: string): ScanState
  {
    var target := if exported then st.target.(trailing := st.target.trailing + [text]) else st.target;
    match binding
    case Simple(n) =>
      ScanState(st.pass.(registry := Set(st.pass.registry, ClassMember(n, InitializerOf(init), exported, kind == Let, false))),
                target)
    case Pattern(isArray, els, patternText) =>
      var (reg, count) := Destructure(st.pass.registry, st.pass.destructuredCount, init, isArray, patternText, els);
      ScanState(st.pass.(registry := reg, destructuredCount := count), target)
  }

  /** A function declaration: skipped without a name; otherwise queued, and an exported one is also
      copied after the class at once. */
  function FunctionStep(st: ScanState, name: Option<string>, exported: bool, text: string): ScanState {
    match name
    case None => st
    case Some(n) =>
      ScanState(st.pass.(pending := st.pass.pending + [FunctionOp(n, exported, text)]),
                if exported then st.target.(trailing := st.target.trailing + [text]) else st.target)
  }

  /** The property assignments of a `defineMetadata` argument whose names are allowed, in order. */
  function MetadataAssignments(c: Constants, props: seq<ObjectProp>): (r: seq<MetaAssignment>)
    ensures |r| <= |props|
    ensures forall i :: 0 <= i < |r| ==> r[i].name !in c.invalidMetadata
  {
    if props == [] then []
    else
      (match props[0]
       case Assignment(n, v) => if n in c.invalidMetadata then [] else [AssignmentOf(n, v)]
       case NonAssignment(_) => [])
      + MetadataAssignments(c, props[1..])
  }

  /** An expression statement: only calls matter. `defineMetadata` merges its object argument now (a
      missing or non-object argument fails the compilation); a hook with a function argument and any
      other call are queued. */
  function ExpressionStep(c: Constants, st: ScanState, e: Expr, text: string): Result<ScanState, CompileError> {
    if !e.Call? then Ok(st)
    else
      var fn := Render(e.callee);
      if fn == c.defineMetadata then
        if |e.args| == 0 || !e.args[0].ObjectLit? then Err(InvalidDefineMetadataArgument)
        else
          var props := MetadataAssignments(c, e.args[0].props);
          if props == [] then Ok(st)
          else
            var (meta, added) := ApplyAssignments(st.target.metadata, props);
            Ok(st.(target := st.target.(metadata := meta, properties := st.target.properties + added)))
      else if fn == c.onInit || fn == c.onDestroy then
        if |e.args| > 0 && e.args[0].FuncLit? then Ok(st.(pass := st.pass.(pending := st.pass.pending + [HookOp(fn, Render(e.args[0]))])))
        else Ok(st)
      else Ok(st.(pass := st.pass.(pending := st.pass.pending + [CallOp(text)])))
  }

  function Step(c: Constants, st: ScanState, s: Stmt): Result<ScanState, CompileError> {
    match s
    case ImportStmt(d) => ImportStmtStep(st, d)
    case VarStmt(kind, exported, binding, init, text) => Ok(VariableStep(st, kind, exported, binding, init, text))
    case FunctionStmt(name, exported, text) => Ok(FunctionStep(st, name, exported, text))
    case ExprStmt(e, text) => ExpressionStep(c, st, e, text)
    case OtherStmt(_) => Ok(st)
  }

  /** The pass over `stmts`, as a function of its prefix. */
  function Pass(c: Constants, st: ScanState, stmts: seq<Stmt>): Result<ScanState, CompileError> {
    if stmts == [] then Ok(st)
    else
      var before :- Pass(c, st, stmts[..|stmts| - 1]);
      Step(c, before, stmts[|stmts| - 1])
  }

  /** One more statement after a pass that succeeded is one more step. */
  lemma PassSnoc(c: Constants, st: ScanState, pre: seq<Stmt>, s: Stmt)
    requires Pass(c, st, pre).Ok?
    ensures Pass(c, st, pre + [s]) == Step(c, Pass(c, st, pre).value, s)
  {
    assert (pre + [s])[..|pre + [s]| - 1] == pre;
  }

  /** Once a prefix of the statements has failed, the whole pass fails the same way. */
  lemma {:induction false} PassStopsAtError(c: Constants, st: ScanState, stmts: seq<Stmt>, n: nat)
    requires n <= |stmts| && Pass(c, st, stmts[..n]).Err?
    ensures Pass(c, st, stmts) == Pass(c, st, stmts[..n])
    decreases |stmts| - n
  {
    if n < |stmts| {
      assert stmts[..n + 1][..n] == stmts[..n];
      PassStopsAtError(c, st, stmts, n + 1);
    } else {
      assert stmts[..n] == stmts;
    }
  }

  // ---------------------------------------------------------------------------------------------
  // Finalization
  // ---------------------------------------------------------------------------------------------

  /** The text a `let` local's writer adds after its name: `=<initializer>`, or a written initializer's
      text as is. */
  function LetInitText(init: Initializer): string {
    match init
    case NoInitializer => ""
    case FromExpression(e) => "=" + Render(e)
    case ElementOf(v, k, d) => ElementText(v, k, d)
    case RestOf(p, v, b) => RestText(p, v, b)
  }

  /** The expression of a script initializer, if it has one. */
  function ExpressionOf(init: Initializer): Option<Expr> {
    if init.FromExpression? then Some(init.e) else None
  }

  /** A class property's initializer: a written initializer as written; an exported member's own name;
      otherwise `processInitializer`, which writes nothing for a member without an initializer. */
  function PropertyInitOf(c: Constants, names: set<string>, m: ClassMember): PropertyInit {
    match m.init
    case ElementOf(v, k, d) => Written(ElementText(v, k, d))
    case RestOf(p, v, b) => Written(RestText(p, v, b))
    case _ =>
      if m.hasExportKeyword then Written(m.name)
      else
        match ProcessInitializer(c, names, ExpressionOf(m.init))
        case None => Unwritten
        case Some(t) => Written(t)
  }

  /** The class property of a member that is not a `let`: protected and read-only when exported, private
      and read-only when virtual. */
  function MemberProperty(c: Constants, names: set<string>, m: ClassMember): (p: ClassProperty)
    ensures p.name == m.name
    ensures p.readonly <==> m.hasExportKeyword || m.isVirtual
    ensures p.visibility == Protected <==> m.hasExportKeyword
    ensures p.visibility == Private <==> !m.hasExportKeyword && m.isVirtual
    // a destructured member reads its element from the hidden virtual member
    ensures m.init.ElementOf? ==> p.init == Written(ElementText(m.init.virtualName, m.init.key, m.init.default))
    ensures m.init.RestOf? ==> p.init == Written(RestText(m.init.patternText, m.init.virtualName, m.init.bindingName))
    // an exported member is copied after the class, so its property aliases that module-level binding
    ensures !m.init.ElementOf? && !m.init.RestOf? && m.hasExportKeyword ==> p.init == Written(m.name)
    // any other member takes its script initializer through `processInitializer`, or none
    ensures !m.init.ElementOf? && !m.init.RestOf? && !m.hasExportKeyword ==>
              (p.init.Written? <==> ProcessInitializer(c, names, ExpressionOf(m.init)).Some?)
              && (p.init.Written? ==> ProcessInitializer(c, names, ExpressionOf(m.init)) == Some(p.init.text))
    ensures m.init == NoInitializer && !m.hasExportKeyword ==> p.init == Unwritten
  {
    ClassProperty(m.name, PropertyInitOf(c, names, m),
                  if m.hasExportKeyword then Protected else if m.isVirtual then Private else Default,
                  m.hasExportKeyword || m.isVirtual)
  }

  /** Whether a `let` member's descriptor binds a function value. */
  function IsFunctionInit(init: Initializer): bool {
    init.FromExpression? && init.e.FuncLit?
  }

  /** The target and the getter/setter descriptors while the registry is turned into members. */
  datatype Finishing = Finishing(target: Module, accessors: seq<Accessor>)

  /** One registry member: an exported `let` is dropped; a `let` becomes a constructor local and a
      descriptor; anything else becomes a class property and, unless virtual or the route-meta binding,
      a constructor alias. */
  function FinishMember(c: Constants, names: set<string>, f: Finishing, m: ClassMember): Finishing {
    if m.isLet && m.hasExportKeyword then f
    else if m.isLet then
      Finishing(f.target.(ctor := f.target.ctor + [LetLocal(m.name, LetInitText(m.init))]),
                f.accessors + [Accessor(m.name, IsFunctionInit(m.init))])
    else
      Finishing(f.target.(properties := f.target.properties + [MemberProperty(c, names, m)],
                          ctor := f.target.ctor + (if m.name != c.routeMeta && !m.isVirtual then [ConstAlias(m.name)] else [])),
                f.accessors)
  }

  function FinishMembers(c: Constants, names: set<string>, f: Finishing, members: seq<ClassMember>): Finishing {
    if members == [] then f
    else FinishMember(c, names, FinishMembers(c, names, f, members[..|members| - 1]), members[|members| - 1])
  }

  /** `HOOKS_MAP`: the lifecycle method a hook becomes. */
  function HookMethod(c: Constants, hook: string): string {
    if hook == c.onInit then c.onInitMethod else c.onDestroyMethod
  }

  /** One queued operation. */
  function RunPending(c: Constants, m: Module, op: PendingOp): Module {
    match op
    case FunctionOp(n, exported, text) =>
      if exported then m.(properties := m.properties + [ClassProperty(n, Written(n), Protected, true)])
      else m.(ctor := m.ctor + [Verbatim(text), BindFunction(n)])
    case HookOp(h, fnText) =>
      m.(ctor := m.ctor + [AssignHook(h, fnText)], methods := m.methods + [ClassMethod(HookMethod(c, h), h)])
    case CallOp(text) =>
      m.(ctor := m.ctor + [Verbatim(text)])
  }

  /** The queue, run in the order it was filled. */
  function RunAll(c: Constants, m: Module, ops: seq<PendingOp>): Module {
    if ops == [] then m else RunPending(c, RunAll(c, m, ops[..|ops| - 1]), ops[|ops| - 1])
  }

  /** A routed list merged into its metadata property, only when the list is not empty. */
  function RouteMerged(meta: seq<MetaEntry>, name: string, items: seq<string>): seq<MetaEntry> {
    if items == [] then meta else ArrayMerged(meta, name, items)
  }

  /** The routed names merged into the metadata: for a component `viewProviders`, then `imports`, then
      the exposed names as class properties; for either kind `providers`. */
  function MergeRoutes(m: Module, routes: Routes): Module {
    var m1 := if m.kind == Component
              then m.(metadata := RouteMerged(RouteMerged(m.metadata, "viewProviders", routes.viewProviders),
                                              "imports", routes.imports),
                      properties := m.properties + ExposedProperties(TrimAll(routes.exposes)))
              else m;
    m1.(metadata := RouteMerged(m1.metadata, "providers", routes.providers))
  }

  /** A routed list lands after what its property held; every other property keeps what it held. */
  lemma RouteMergedSpec(meta: seq<MetaEntry>, name: string, items: seq<string>, other: string)
    requires AcceptsItems(meta, name) && name != other
    ensures ArrayItems(RouteMerged(meta, name, items), name) == ArrayItems(meta, name) + items
    ensures ArrayItems(RouteMerged(meta, name, items), other) == ArrayItems(meta, other)
    ensures AcceptsItems(RouteMerged(meta, name, items), other) == AcceptsItems(meta, other)
  {
    if items == [] {
      assert ArrayItems(meta, name) + items == ArrayItems(meta, name);
    } else {
      ArrayMergeAppends(meta, name, items);
      ArrayMergeOtherName(meta, name, other, items);
    }
  }

  function TrimAll(names: seq<string>): (r: seq<string>)
    ensures |r| == |names| && forall i :: 0 <= i < |names| ==> r[i] == Trim(names[i])
  {
    seq(|names|, i requires 0 <= i < |names| => Trim(names[i]))
  }

  /** The finalization after the pass. */
  function Finalize(c: Constants, st: ScanState): Module {
    var f := FinishMembers(c, Names(st.pass.registry), Finishing(st.target, []), st.pass.registry);
    var m := MergeRoutes(RunAll(c, f.target, st.pass.pending), st.pass.importAttributes);
    if f.accessors != [] then m.(ctor := m.ctor + [DefineAccessors(f.accessors)]) else m
  }

  /** `processAnalogScript` on a target file and the script's statements. */
  function ScriptResult(c: Constants, target: Module, stmts: seq<Stmt>): Result<Module, CompileError> {
    var st :- Pass(c, ScanState(EmptyPass, target), stmts);
    Ok(Finalize(c, st))
  }

  // ---------------------------------------------------------------------------------------------
  // Properties of the finalization
  // ---------------------------------------------------------------------------------------------

  /** The descriptors the `let` members that are not exported call for, in registry order. */
  function LetAccessors(members: seq<ClassMember>): seq<Accessor> {
    if members == [] then []
    else
      var m := members[|members| - 1];
      LetAccessors(members[..|members| - 1])
      + (if m.isLet && !m.hasExportKeyword then [Accessor(m.name, IsFunctionInit(m.init))] else [])
  }

  /** The names of those `let` members. */
  function LetNames(members: seq<ClassMember>): seq<string> {
    if members == [] then []
    else
      var m := members[|members| - 1];
      LetNames(members[..|members| - 1]) + (if m.isLet && !m.hasExportKeyword then [m.name] else [])
  }

  /** The class property of every member that is not a `let`, in registry order. */
  function NonLetProperties(c: Constants, names: set<string>, members: seq<ClassMember>): seq<ClassProperty> {
    if members == [] then []
    else
      var m := members[|members| - 1];
      NonLetProperties(c, names, members[..|members| - 1]) + (if m.isLet then [] else [MemberProperty(c, names, m)])
  }

  /** The names that get a `const x = this.x;` alias: members that are neither `let`, virtual nor the
      route-meta binding, in registry order. */
  function AliasNames(c: Constants, members: seq<ClassMember>): seq<string> {
    if members == [] then []
    else
      var m := members[|members| - 1];
      AliasNames(c, members[..|members| - 1])
      + (if !m.isLet && !m.isVirtual && m.name != c.routeMeta then [m.name] else [])
  }

  /** The names of the alias statements among constructor statements. */
  function Aliases(ss: seq<CtorStmt>): seq<string> {
    if ss == [] then []
    else Aliases(ss[..|ss| - 1]) + (if ss[|ss| - 1].ConstAlias? then [ss[|ss| - 1].name] else [])
  }

  /** The names of the `let` locals among constructor statements. */
  function LetLocals(ss: seq<CtorStmt>): seq<string> {
    if ss == [] then []
    else LetLocals(ss[..|ss| - 1]) + (if ss[|ss| - 1].LetLocal? then [ss[|ss| - 1].name] else [])
  }

  lemma {:induction false} CtorFiltersAppend(a: seq<CtorStmt>, b: seq<CtorStmt>)
    ensures Aliases(a + b) == Aliases(a) + Aliases(b)
    ensures LetLocals(a + b) == LetLocals(a) + LetLocals(b)
    decreases |b|
  {
    if b == [] {
      assert a + b == a;
    } else {
      var b0 := b[..|b| - 1];
      assert (a + b)[..|a + b| - 1] == a + b0;
      CtorFiltersAppend(a, b0);
    }
  }

  lemma SuffixOfExtension(a: seq<CtorStmt>, b: seq<CtorStmt>, c: seq<CtorStmt>)
    requires |a| <= |b| && b[..|a|] == a && |b| <= |c| && c[..|b|] == b
    ensures |a| <= |c| && c[..|a|] == a && c[|a|..] == b[|a|..] + c[|b|..]
  {
    assert c[..|b|][..|a|] == c[..|a|];
  }

  /** One registry member, as the filters above see it. */
  lemma FinishMemberStep(c: Constants, names: set<string>, f: Finishing, m: ClassMember)
    ensures var g := FinishMember(c, names, f, m);
      && g.accessors == f.accessors + (if m.isLet && !m.hasExportKeyword then [Accessor(m.name, IsFunctionInit(m.init))] else [])
      && g.target.properties == f.target.properties + (if m.isLet then [] else [MemberProperty(c, names, m)])
      && |f.target.ctor| <= |g.target.ctor| && g.target.ctor[..|f.target.ctor|] == f.target.ctor
      && Aliases(g.target.ctor[|f.target.ctor|..]) == (if !m.isLet && !m.isVirtual && m.name != c.routeMeta then [m.name] else [])
      && LetLocals(g.target.ctor[|f.target.ctor|..]) == (if m.isLet && !m.hasExportKeyword then [m.name] else [])
      && g.target.(properties := f.target.properties, ctor := f.target.ctor) == f.target
  {
    var g := FinishMember(c, names, f, m);
    var extra := g.target.ctor[|f.target.ctor|..];
    if m.isLet && m.hasExportKeyword {
      assert extra == [];
    } else if m.isLet {
      assert extra == [LetLocal(m.name, LetInitText(m.init))];
      assert extra[..0] == [];
    } else if m.name != c.routeMeta && !m.isVirtual {
      assert extra == [ConstAlias(m.name)];
      assert extra[..0] == [];
    } else {
      assert extra == [];
    }
  }

  /** Turning the registry into members: exactly one descriptor per `let` that is not exported and
      exactly one property per member that is not a `let`, each in registry order; besides the
      constructor, nothing else of the target changes. */
  lemma FinishMembersSpec(c: Constants, names: set<string>, t: Module, members: seq<ClassMember>)
    ensures var f := FinishMembers(c, names, Finishing(t, []), members);
      && f.accessors == LetAccessors(members)
      && f.target.properties == t.properties + NonLetProperties(c, names, members)
      && f.target.(properties := t.properties, ctor := t.ctor) == t
  {
    FinishMembersAccessors(c, names, t, members);
    FinishMembersProperties(c, names, t, members);
    FinishMembersKeepRest(c, names, t, members);
  }

  lemma {:induction false} FinishMembersAccessors(c: Constants, names: set<string>, t: Module, members: seq<ClassMember>)
    ensures FinishMembers(c, names, Finishing(t, []), members).accessors == LetAccessors(members)
  {
    if members != [] {
      var init := members[..|members| - 1];
      FinishMembersAccessors(c, names, t, init);
      FinishMemberStep(c, names, FinishMembers(c, names, Finishing(t, []), init), members[|members| - 1]);
    }
  }

  lemma {:induction false} FinishMembersProperties(c: Constants, names: set<string>, t: Module, members: seq<ClassMember>)
    ensures FinishMembers(c, names, Finishing(t, []), members).target.properties
            == t.properties + NonLetProperties(c, names, members)
  {
    if members != [] {
      var init := members[..|members| - 1];
      var m := members[|members| - 1];
      FinishMembersProperties(c, names, t, init);
      var f0 := FinishMembers(c, names, Finishing(t, []), init);
      FinishMemberStep(c, names, f0, m);
      var p0 := NonLetProperties(c, names, init);
      var added := if m.isLet then [] else [MemberProperty(c, names, m)];
      assert NonLetProperties(c, names, members) == p0 + added;
      assert FinishMembers(c, names, Finishing(t, []), members).target.properties == t.properties + p0 + added;
    }
  }

  lemma {:induction false} FinishMembersKeepRest(c: Constants, names: set<string>, t: Module, members: seq<ClassMember>)
    ensures FinishMembers(c, names, Finishing(t, []), members).target.(properties := t.properties, ctor := t.ctor) == t
  {
    if members != [] {
      var init := members[..|members| - 1];
      FinishMembersKeepRest(c, names, t, init);
      FinishMemberStep(c, names, FinishMembers(c, names, Finishing(t, []), init), members[|members| - 1]);
    }
  }

  /** The constructor statements the members add: a local for exactly the `let` members that are not
      exported and an alias for exactly the members that are neither `let`, virtual nor the route-meta
      binding, each in registry order, all after the statements already there. */
  lemma {:induction false} FinishMembersConstructor(c: Constants, names: set<string>, t: Module, members: seq<ClassMember>)
    ensures var ctor := FinishMembers(c, names, Finishing(t, []), members).target.ctor;
      && |t.ctor| <= |ctor| && ctor[..|t.ctor|] == t.ctor
      && Aliases(ctor[|t.ctor|..]) == AliasNames(c, members)
      && LetLocals(ctor[|t.ctor|..]) == LetNames(members)
  {
    if members == [] {
      assert t.ctor[|t.ctor|..] == [];
    } else {
      var init := members[..|members| - 1];
      var m := members[|members| - 1];
      FinishMembersConstructor(c, names, t, init);
      var f0 := FinishMembers(c, names, Finishing(t, []), init);
      FinishMemberStep(c, names, f0, m);
      var ctor0 := f0.target.ctor;
      var ctor := FinishMember(c, names, f0, m).target.ctor;
      SuffixOfExtension(t.ctor, ctor0, ctor);
      CtorFiltersAppend(ctor0[|t.ctor|..], ctor[|ctor0|..]);
    }
  }

  /** The properties added by exported function declarations, in queue order. */
  function ExportedFunctionProperties(ops: seq<PendingOp>): seq<ClassProperty> {
    if ops == [] then []
    else
      var op := ops[|ops| - 1];
      ExportedFunctionProperties(ops[..|ops| - 1])
      + (if op.FunctionOp? && op.exported then [ClassProperty(op.name, Written(op.name), Protected, true)] else [])
  }

  /** The lifecycle methods added by hooks, in queue order. */
  function HookMethods(c: Constants, ops: seq<PendingOp>): seq<ClassMethod> {
    if ops == [] then []
    else
      var op := ops[|ops| - 1];
      HookMethods(c, ops[..|ops| - 1]) + (if op.HookOp? then [ClassMethod(HookMethod(c, op.hook), op.hook)] else [])
  }

  /** The constructor statements the queue adds, in queue order: a function declared without `export`
      is copied and then bound to the instance, a hook's function is stored in its slot, any other call
      is copied as written; an exported function adds none. */
  function PendingConstructor(ops: seq<PendingOp>): seq<CtorStmt> {
    if ops == [] then []
    else
      var op := ops[|ops| - 1];
      PendingConstructor(ops[..|ops| - 1])
      + (match op
         case FunctionOp(n, exported, text) => if exported then [] else [Verbatim(text), BindFunction(n)]
         case HookOp(h, fnText) => [AssignHook(h, fnText)]
         case CallOp(text) => [Verbatim(text)])
  }

  /** Running the queue adds, in queue order, a protected read-only property per exported function, a
      lifecycle method per hook and the constructor statements of `PendingConstructor` after those
      already there; it changes nothing else. */
  lemma {:induction false} RunAllSpec(c: Constants, m: Module, ops: seq<PendingOp>)
    ensures var r := RunAll(c, m, ops);
      && r.properties == m.properties + ExportedFunctionProperties(ops)
      && r.methods == m.methods + HookMethods(c, ops)
      && r.ctor == m.ctor + PendingConstructor(ops)
      && r.(properties := m.properties, methods := m.methods, ctor := m.ctor) == m
  {
    if ops != [] {
      RunAllSpec(c, m, ops[..|ops| - 1]);
    }
  }

  /** The finalization keeps the pass's statements after the class and the properties already on the
      target, adds the queued constructor statements after the members' ones, and the constructor ends
      with at most one `Object.defineProperties` after them. */
  lemma FinalizeSpec(c: Constants, st: ScanState)
    ensures var f := FinishMembers(c, Names(st.pass.registry), Finishing(st.target, []), st.pass.registry);
      var r := Finalize(c, st);
      var props := st.target.properties + NonLetProperties(c, Names(st.pass.registry), st.pass.registry);
      && r.trailing == st.target.trailing
      && |props| <= |r.properties| && r.properties[..|props|] == props
      && r.ctor == f.target.ctor + PendingConstructor(st.pass.pending)
                   + (if f.accessors != [] then [DefineAccessors(f.accessors)] else [])
  {
    var names := Names(st.pass.registry);
    FinishMembersSpec(c, names, st.target, st.pass.registry);
    var f := FinishMembers(c, names, Finishing(st.target, []), st.pass.registry);
    RunAllSpec(c, f.target, st.pass.pending);
    var run := RunAll(c, f.target, st.pass.pending);
    var merged := MergeRoutes(run, st.pass.importAttributes);
    assert merged.ctor == run.ctor && merged.trailing == run.trailing;
    var props := st.target.properties + NonLetProperties(c, names, st.pass.registry);
    assert run.properties[..|props|] == props;
    assert merged.properties[..|props|] == props;
  }

  /** A member that is not a `let` and is in the registry at the end of the pass ends up as a class
      property. */
  lemma {:induction false} NonLetPropertiesHas(c: Constants, names: set<string>, members: seq<ClassMember>, k: nat)
    requires k < |members| && !members[k].isLet
    ensures MemberProperty(c, names, members[k]) in NonLetProperties(c, names, members)
  {
    if k < |members| - 1 {
      NonLetPropertiesHas(c, names, members[..|members| - 1], k);
    }
  }

  /** `export const n = ...` as a script statement: the statement is copied after the class, and the
      class gets a protected read-only property `n` initialized with the module-level `n`, so both the
      module and the template see the same value. */
  lemma ExportedConstIsAliased(c: Constants, m: Module, pre: seq<Stmt>, n: string, init: Option<Expr>, text: string)
    requires Pass(c, ScanState(EmptyPass, m), pre).Ok?
    ensures var r := ScriptResult(c, m, pre + [VarStmt(Const, true, Simple(n), init, text)]);
      && r.Ok?
      && |r.value.trailing| > 0 && r.value.trailing[|r.value.trailing| - 1] == text
      && ClassProperty(n, Written(n), Protected, true) in r.value.properties
  {
    var before := Pass(c, ScanState(EmptyPass, m), pre).value;
    PassSnoc(c, ScanState(EmptyPass, m), pre, VarStmt(Const, true, Simple(n), init, text));
    var st := VariableStep(before, Const, true, Simple(n), init, text);
    ExportedConstStep(before, n, init, text);
    var k := Find(st.pass.registry, n).value;
    var names := Names(st.pass.registry);
    NonLetPropertiesHas(c, names, st.pass.registry, k);
    FinalizeSpec(c, st);
    var props := st.target.properties + NonLetProperties(c, names, st.pass.registry);
    var r := Finalize(c, st);
    assert ClassProperty(n, Written(n), Protected, true) in props;
    assert r.properties[..|props|] == props;
    assert ScriptResult(c, m, pre + [VarStmt(Const, true, Simple(n), init, text)]) == Ok(r);
  }

  /** The step of `export const n = ...`: the text goes after the class and the registry holds `n` as an
      exported non-`let` member. */
  lemma ExportedConstStep(st: ScanState, n: string, init: Option<Expr>, text: string)
    ensures var r := VariableStep(st, Const, true, Simple(n), init, text);
      && r.target.trailing == st.target.trailing + [text]
      && Find(r.pass.registry, n).Some?
      && r.pass.registry[Find(r.pass.registry, n).value] == ClassMember(n, InitializerOf(init), true, false, false)
  {
    var member := ClassMember(n, InitializerOf(init), true, false, false);
    SetThenGet(st.pass.registry, member);
  }

  /** A function declared without `export`: its declaration is copied into the constructor and directly
      followed by `this.f = f.bind(this);`, so the template calls it on the instance. */
  lemma FunctionIsBoundInConstructor(c: Constants, m: Module, pre: seq<Stmt>, n: string, text: string)
    requires Pass(c, ScanState(EmptyPass, m), pre).Ok?
    ensures var r := ScriptResult(c, m, pre + [FunctionStmt(Some(n), false, text)]);
      && r.Ok?
      && exists k :: 0 <= k < |r.value.ctor| - 1 && r.value.ctor[k] == Verbatim(text) && r.value.ctor[k + 1] == BindFunction(n)
  {
    var stmts := pre + [FunctionStmt(Some(n), false, text)];
    assert stmts[..|stmts| - 1] == pre;
    var before := Pass(c, ScanState(EmptyPass, m), pre).value;
    var st := Pass(c, ScanState(EmptyPass, m), stmts).value;
    assert st.pass.pending == before.pass.pending + [FunctionOp(n, false, text)];
    assert st.pass.pending[..|st.pass.pending| - 1] == before.pass.pending;
    var bound := PendingConstructor(before.pass.pending) + [Verbatim(text), BindFunction(n)];
    assert PendingConstructor(st.pass.pending) == bound;
    FinalizeSpec(c, st);
    var f := FinishMembers(c, Names(st.pass.registry), Finishing(st.target, []), st.pass.registry);
    var r := Finalize(c, st);
    var k := |f.target.ctor| + |PendingConstructor(before.pass.pending)|;
    assert r.ctor[k] == Verbatim(text) && r.ctor[k + 1] == BindFunction(n);
  }

  /** `onInit(fn)` becomes the `onInitMethod` lifecycle method calling the stored function. */
  lemma HookBecomesLifecycleMethod(c: Constants, m: Module, fnText: string)
    ensures RunPending(c, m, HookOp(c.onInit, fnText)).methods == m.methods + [ClassMethod(c.onInitMethod, c.onInit)]
    ensures c.onDestroy != c.onInit ==>
              RunPending(c, m, HookOp(c.onDestroy, fnText)).methods == m.methods + [ClassMethod(c.onDestroyMethod, c.onDestroy)]
    ensures RunPending(c, m, HookOp(c.onInit, fnText)).ctor == m.ctor + [AssignHook(c.onInit, fnText)]
  {
  }

  /** A directive takes only the routed providers: its metadata receives `providers` and nothing else,
      and it gets no exposed properties. */
  lemma DirectiveMergesOnlyProviders(m: Module, routes: Routes)
    requires m.kind == Directive && AcceptsItems(m.metadata, "providers")
    ensures MergeRoutes(m, routes).properties == m.properties
    ensures ArrayItems(MergeRoutes(m, routes).metadata, "providers") == ArrayItems(m.metadata, "providers") + routes.providers
    ensures ArrayItems(MergeRoutes(m, routes).metadata, "imports") == ArrayItems(m.metadata, "imports")
    ensures ArrayItems(MergeRoutes(m, routes).metadata, "viewProviders") == ArrayItems(m.metadata, "viewProviders")
    ensures routes.providers == [] ==> MergeRoutes(m, routes) == m
  {
    RouteMergedSpec(m.metadata, "providers", routes.providers, "imports");
    RouteMergedSpec(m.metadata, "providers", routes.providers, "viewProviders");
  }

  /** A component takes every routed list: each of `viewProviders`, `imports` and `providers` receives
      its names after what it held, and every exposed name, trimmed, becomes a protected read-only
      property. */
  lemma ComponentMergesAllRoutes(m: Module, routes: Routes)
    requires m.kind == Component
    requires AcceptsItems(m.metadata, "viewProviders") && AcceptsItems(m.metadata, "imports")
    requires AcceptsItems(m.metadata, "providers")
    ensures MergeRoutes(m, routes).properties == m.properties + ExposedProperties(TrimAll(routes.exposes))
    ensures ArrayItems(MergeRoutes(m, routes).metadata, "viewProviders") == ArrayItems(m.metadata, "viewProviders") + routes.viewProviders
    ensures ArrayItems(MergeRoutes(m, routes).metadata, "imports") == ArrayItems(m.metadata, "imports") + routes.imports
    ensures ArrayItems(MergeRoutes(m, routes).metadata, "providers") == ArrayItems(m.metadata, "providers") + routes.providers
  {
    var meta0 := m.metadata;
    var meta1 := RouteMerged(meta0, "viewProviders", routes.viewProviders);
    RouteMergedSpec(meta0, "viewProviders", routes.viewProviders, "imports");
    RouteMergedSpec(meta0, "viewProviders", routes.viewProviders, "providers");
    var meta2 := RouteMerged(meta1, "imports", routes.imports);
    RouteMergedSpec(meta1, "imports", routes.imports, "viewProviders");
    RouteMergedSpec(meta1, "imports", routes.imports, "providers");
    var meta3 := RouteMerged(meta2, "providers", routes.providers);
    RouteMergedSpec(meta2, "providers", routes.providers, "viewProviders");
    RouteMergedSpec(meta2, "providers", routes.providers, "imports");
    assert MergeRoutes(m, routes).metadata == meta3;
  }

  // ---------------------------------------------------------------------------------------------
  // Properties of the pass
  // ---------------------------------------------------------------------------------------------

  /** The number of declarations with a non-empty destructuring pattern. */
  function PatternCount(stmts: seq<Stmt>): nat {
    if stmts == [] then 0
    else
      var s := stmts[|stmts| - 1];
      PatternCount(stmts[..|stmts| - 1])
      + (if s.VarStmt? && s.binding.Pattern? && s.binding.elements != [] then 1 else 0)
  }

  /** The number of import declarations. */
  function ImportCount(stmts: seq<Stmt>): nat {
    if stmts == [] then 0
    else ImportCount(stmts[..|stmts| - 1]) + (if stmts[|stmts| - 1].ImportStmt? then 1 else 0)
  }

  /** No import attribute called `analog`. */
  predicate WithoutAnalogAttribute(d: ImportDecl) {
    forall i :: 0 <= i < |d.attributes| ==> d.attributes[i].name != "analog"
  }

  /** What the pass keeps: the counter counts the non-empty patterns, one import is copied per import
      declaration and none of the copies carries an `analog` attribute, and the registry never holds a
      name twice. */
  lemma {:induction false} PassInvariants(c: Constants, st: ScanState, stmts: seq<Stmt>)
    requires Pass(c, st, stmts).Ok?
    requires UniqueNames(st.pass.registry)
    ensures var r := Pass(c, st, stmts).value;
      && r.pass.destructuredCount == st.pass.destructuredCount + PatternCount(stmts)
      && |r.target.imports| == |st.target.imports| + ImportCount(stmts)
      && r.target.imports[..|st.target.imports|] == st.target.imports
      && (forall i :: |st.target.imports| <= i < |r.target.imports| ==> WithoutAnalogAttribute(r.target.imports[i]))
      && UniqueNames(r.pass.registry)
      && r.target.kind == st.target.kind && r.target.className == st.target.className
  {
    if stmts != [] {
      var init := stmts[..|stmts| - 1];
      PassInvariants(c, st, init);
      var before := Pass(c, st, init).value;
      StepInvariants(c, before, stmts[|stmts| - 1]);
    }
  }

  lemma VariableStepInvariants(st: ScanState, kind: DeclKind, exported: bool, binding: BindingName,
                                init: Option<Expr>, text: string)
    requires UniqueNames(st.pass.registry)
    ensures var r := VariableStep(st, kind, exported, binding, init, text);
      && r.pass.destructuredCount
         == st.pass.destructuredCount + (if binding.Pattern? && binding.elements != [] then 1 else 0)
      && r.target.imports == st.target.imports
      && UniqueNames(r.pass.registry)
      && r.target.kind == st.target.kind && r.target.className == st.target.className
  {
    match binding {
      case Simple(n) =>
        SetNames(st.pass.registry, ClassMember(n, InitializerOf(init), exported, kind == Let, false));
      case Pattern(isArray, els, patternText) =>
        DestructureSpec(st.pass.registry, st.pass.destructuredCount, init, isArray, patternText, els);
    }
  }

  lemma StepInvariants(c: Constants, st: ScanState, s: Stmt)
    requires Step(c, st, s).Ok?
    requires UniqueNames(st.pass.registry)
    ensures var r := Step(c, st, s).value;
      && r.pass.destructuredCount
         == st.pass.destructuredCount + (if s.VarStmt? && s.binding.Pattern? && s.binding.elements != [] then 1 else 0)
      && r.target.imports == st.target.imports + (if s.ImportStmt? then [r.target.imports[|st.target.imports|]] else [])
      && (s.ImportStmt? ==> WithoutAnalogAttribute(r.target.imports[|st.target.imports|]))
      && UniqueNames(r.pass.registry)
      && r.target.kind == st.target.kind && r.target.className == st.target.className
  {
    match s {
      case ImportStmt(d) =>
        ImportCopyHasNoAnalogAttribute(st.pass.importAttributes, d);
      case VarStmt(kind, exported, binding, init, text) =>
        VariableStepInvariants(st, kind, exported, binding, init, text);
      case FunctionStmt(_, _, _) =>
      case ExprStmt(e, text) =>
      case OtherStmt(_) =>
    }
  }

  /** An empty script leaves the generated file as it is. */
  lemma EmptyScriptChangesNothing(c: Constants, m: Module)
    ensures ScriptResult(c, m, []) == Ok(m)
  {
    var f := FinishMembers(c, {}, Finishing(m, []), []);
    assert f == Finishing(m, []);
    assert RunAll(c, m, []) == m;
    assert MergeRoutes(m, NoRoutes) == m;
  }

  /** The script never changes what the file declares: the entity kind and the class name stay, and the
      imports already there stay first. */
  lemma ScriptKeepsDeclaration(c: Constants, m: Module, stmts: seq<Stmt>)
    requires ScriptResult(c, m, stmts).Ok?
    ensures ScriptResult(c, m, stmts).value.kind == m.kind
    ensures ScriptResult(c, m, stmts).value.className == m.className
    ensures |m.imports| <= |ScriptResult(c, m, stmts).value.imports|
    ensures ScriptResult(c, m, stmts).value.imports[..|m.imports|] == m.imports
  {
    var st := Pass(c, ScanState(EmptyPass, m), stmts).value;
    PassInvariants(c, ScanState(EmptyPass, m), stmts);
    FinishMembersSpec(c, Names(st.pass.registry), st.target, st.pass.registry);
    var f := FinishMembers(c, Names(st.pass.registry), Finishing(st.target, []), st.pass.registry);
    RunAllSpec(c, f.target, st.pass.pending);
  }
}
