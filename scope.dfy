/** Scope qualification (`processInitializer` and
    `processCallExpressionOrPropertyAccessExpressionForClassMember`): a top-level binding of the script
    becomes an instance member, so an initializer that reaches it through a call or a property-access
    chain must read it as `this.<name>`. `names` is the set of names in the member registry. */
module Scope {
  import opened Wrappers
  import opened Strings
  import opened Syntax

  /** The deepest expression of a property-access chain: `route.snapshot.paramMap` gives `route`. */
  function RootOf(e: Expr): (r: Expr)
    ensures !r.PropAccess?
    ensures e.PropAccess? ==> r < e
    ensures !e.PropAccess? ==> r == e
  {
    match e
    case PropAccess(t, _) => RootOf(t)
    case _ => e
  }

  /** The chain starting at `e` ends in an identifier that the registry holds. */
  predicate HasRegisteredRoot(names: set<string>, e: Expr) {
    RootOf(e).Ident? && RootOf(e).name in names
  }

  /** The rewrite of a call or a property access; any other expression is emitted as written. */
  function Qualify(names: set<string>, e: Expr): string
    decreases e, 0
  {
    match e
    case Call(f, args) =>
      (if HasRegisteredRoot(names, f) then "this." else "") + Render(f)
      + "(" + Join(QualifyArguments(names, args), ", ") + ")"
    case PropAccess(t, _) =>
      if HasRegisteredRoot(names, t) then "this." + Render(e) else Render(e)
    case _ => Render(e)
  }

  /** The arguments of a call, each rewritten on its own. */
  function QualifyArguments(names: set<string>, args: seq<Expr>): (r: seq<string>)
    ensures |r| == |args|
    decreases args, 2
  {
    seq(|args|, i requires 0 <= i < |args| => QualifyArgument(names, args[i]))
  }

  /** One argument: a registered identifier is qualified, a property access or a call is rewritten,
      anything else is emitted as written. */
  function QualifyArgument(names: set<string>, a: Expr): string
    decreases a, 1
  {
    if a.Ident? && a.name in names then "this." + a.name
    else if a.PropAccess? || a.Call? then Qualify(names, a)
    else Render(a)
  }

  /** A call to a signal factory other than `outputFromObservable`: a framework call, not a member. */
  predicate IsVerbatimFactoryCall(c: Constants, e: Expr) {
    e.Call? && Render(e.callee) in c.signalFactories && Render(e.callee) != c.outputFromObservable
  }

  /** `processInitializer`: `None` when the member has no initializer (the source warns and writes
      nothing). A call to a signal factory is emitted as written, except `outputFromObservable`, whose
      call is rewritten in full. */
  function ProcessInitializer(c: Constants, names: set<string>, init: Option<Expr>): (r: Option<string>)
    ensures init.None? <==> r.None?
    ensures init.Some? && IsVerbatimFactoryCall(c, init.value) ==> r == Some(Render(init.value))
    ensures init.Some? && !IsVerbatimFactoryCall(c, init.value) ==> r == Some(Qualify(names, init.value))
  {
    match init
    case None => None
    case Some(e) =>
      if e.Call? && Render(e.callee) in c.signalFactories then
        if Render(e.callee) == c.outputFromObservable then Some(Qualify(names, e)) else Some(Render(e))
      else Some(Qualify(names, e))
  }

  // ---------------------------------------------------------------------------------------------
  // A reference definition on trees: the same rewrite as a transformation of the syntax tree, which
  // turns the root identifier `x` of a qualified chain into `this.x` and changes nothing else.
  // ---------------------------------------------------------------------------------------------

  /** `this.<name>` as a tree. */
  function ThisMember(name: string): Expr {
    PropAccess(Other("this"), name)
  }

  /** The chain `e` with its root identifier replaced by `this.<root>`. */
  function PrefixRoot(e: Expr): Expr
    requires RootOf(e).Ident?
  {
    match e
    case PropAccess(t, m) => PropAccess(PrefixRoot(t), m)
    case Ident(n) => ThisMember(n)
  }

  function QualifyTree(names: set<string>, e: Expr): Expr
    decreases e, 0
  {
    match e
    case Call(f, args) =>
      Call(if HasRegisteredRoot(names, f) then PrefixRoot(f) else f,
           seq(|args|, i requires 0 <= i < |args| => QualifyArgumentTree(names, args[i])))
    case PropAccess(t, _) =>
      if HasRegisteredRoot(names, t) then PrefixRoot(e) else e
    case _ => e
  }

  function QualifyArgumentTree(names: set<string>, a: Expr): Expr
    decreases a, 1
  {
    if a.Ident? && a.name in names then ThisMember(a.name)
    else if a.PropAccess? || a.Call? then QualifyTree(names, a)
    else a
  }

  /** Prefixing the root in the tree prefixes `this.` to the text. */
  lemma {:induction false} PrefixRootRenders(e: Expr)
    requires RootOf(e).Ident?
    ensures Render(PrefixRoot(e)) == "this." + Render(e)
  {
    match e
    case PropAccess(t, m) =>
      PrefixRootRenders(t);
    case Ident(n) =>
  }

  /** The text rewrite is the rendering of the tree rewrite: qualification only turns registered roots
      into `this.` members and keeps every other part of the expression, arguments included. */
  lemma {:induction false} QualifyIsTreeRewrite(names: set<string>, e: Expr)
    ensures Render(QualifyTree(names, e)) == Qualify(names, e)
    decreases e, 0
  {
    match e
    case Call(f, args) =>
      if HasRegisteredRoot(names, f) {
        PrefixRootRenders(f);
      }
      QualifyArgumentsAreTreeRewrite(names, args);
    case PropAccess(t, _) =>
      if HasRegisteredRoot(names, t) {
        PrefixRootRenders(e);
      }
    case _ =>
  }

  lemma {:induction false} QualifyArgumentsAreTreeRewrite(names: set<string>, args: seq<Expr>)
    ensures var trees := seq(|args|, i requires 0 <= i < |args| => QualifyArgumentTree(names, args[i]));
      seq(|trees|, i requires 0 <= i < |trees| => Render(trees[i])) == QualifyArguments(names, args)
    decreases args, 2
  {
    var trees := seq(|args|, i requires 0 <= i < |args| => QualifyArgumentTree(names, args[i]));
    forall i | 0 <= i < |args|
      ensures Render(trees[i]) == QualifyArguments(names, args)[i]
    {
      QualifyArgumentIsTreeRewrite(names, args[i]);
    }
  }

  lemma {:induction false} QualifyArgumentIsTreeRewrite(names: set<string>, a: Expr)
    ensures Render(QualifyArgumentTree(names, a)) == QualifyArgument(names, a)
    decreases a, 1
  {
    if !(a.Ident? && a.name in names) && (a.PropAccess? || a.Call?) {
      QualifyIsTreeRewrite(names, a);
    }
  }

  /** The tree rewrite keeps the shape of a call: same kind of node, same number of arguments. */
  lemma CallShapeKept(names: set<string>, f: Expr, args: seq<Expr>)
    ensures QualifyTree(names, Call(f, args)).Call?
    ensures |QualifyTree(names, Call(f, args)).args| == |args|
  {
  }

  /** With nothing registered the rewrite changes nothing. */
  lemma {:induction false} QualifyWithoutNamesIsIdentity(e: Expr)
    ensures QualifyTree({}, e) == e
    ensures Qualify({}, e) == Render(e)
    decreases e, 0
  {
    match e {
    case Call(f, args) =>
      forall i | 0 <= i < |args|
        ensures QualifyArgumentTree({}, args[i]) == args[i]
      {
        QualifyArgumentWithoutNames(args[i]);
      }
      assert seq(|args|, i requires 0 <= i < |args| => QualifyArgumentTree({}, args[i])) == args;
    case _ =>
    }
    QualifyIsTreeRewrite({}, e);
  }

  lemma {:induction false} QualifyArgumentWithoutNames(a: Expr)
    ensures QualifyArgumentTree({}, a) == a
    decreases a, 1
  {
    if a.PropAccess? || a.Call? {
      QualifyWithoutNamesIsIdentity(a);
    }
  }

  /** Root qualification of a chain: `this.` is prefixed exactly when the deepest expression is a
      registered identifier, and the rest of the text is kept. */
  lemma ChainQualification(names: set<string>, e: Expr)
    requires e.PropAccess?
    ensures HasRegisteredRoot(names, e) ==> Qualify(names, e) == "this." + Render(e)
    ensures !HasRegisteredRoot(names, e) ==> Qualify(names, e) == Render(e)
  {
  }

  /** The callee of a call is qualified under the same rule, and each argument is rewritten on its own. */
  lemma CallQualification(names: set<string>, f: Expr, args: seq<Expr>)
    ensures Qualify(names, Call(f, args))
            == (if HasRegisteredRoot(names, f) then "this." + Render(f) else Render(f))
               + "(" + Join(QualifyArguments(names, args), ", ") + ")"
    ensures forall i :: 0 <= i < |args| && args[i].Ident? && args[i].name in names ==>
              QualifyArguments(names, args)[i] == "this." + args[i].name
    ensures forall i :: 0 <= i < |args| && !args[i].Ident? && !args[i].PropAccess? && !args[i].Call? ==>
              QualifyArguments(names, args)[i] == Render(args[i])
  {
  }

  /** A bare identifier or any other expression that is neither a call nor a property access is never
      rewritten, even when it names a registered member. */
  lemma BareExpressionKept(names: set<string>, e: Expr)
    requires !e.Call? && !e.PropAccess?
    ensures Qualify(names, e) == Render(e)
  {
  }

  /** `route.snapshot.id` with `route` registered reads the member. */
  lemma RegisteredRouteIsQualified()
    ensures Qualify({"route"}, PropAccess(PropAccess(Ident("route"), "snapshot"), "id")) == "this.route.snapshot.id"
  {
  }

  /** `Math.max(a, 1)` with only `a` registered keeps `Math` and qualifies the argument. */
  lemma GlobalCalleeIsKept()
    ensures Qualify({"a"}, Call(PropAccess(Ident("Math"), "max"), [Ident("a"), Other("1")])) == "Math.max(this.a, 1)"
  {
    var args := [Ident("a"), Other("1")];
    assert QualifyArgument({"a"}, args[0]) == "this.a";
    assert QualifyArgument({"a"}, args[1]) == "1";
    assert QualifyArguments({"a"}, args) == ["this.a", "1"];
  }
}
