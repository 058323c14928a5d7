/** Import handling of the script pass: the default name given to a bare import of another component
    file, the `analog` import attribute (the `with { ... }` clause of section 16.2.2 of ECMA-262) that
    routes the imported names into one of four lists, and the copy of the import into the output. */
module Imports {
  import opened Wrappers
  import opened Strings
  import opened Syntax

  /** The four lists of the `importAttributes` table. */
  datatype RouteKey = ImportsKey | ViewProvidersKey | ProvidersKey | ExposesKey

  function KeyName(k: RouteKey): string {
    match k
    case ImportsKey => "imports"
    case ViewProvidersKey => "viewProviders"
    case ProvidersKey => "providers"
    case ExposesKey => "exposes"
  }

  /** The list an `analog` attribute value selects: one of the table's own four keys. */
  function RouteKeyOf(value: string): (r: Option<RouteKey>)
    ensures r.Some? ==> KeyName(r.value) == value
  {
    if value == "imports" then Some(ImportsKey)
    else if value == "viewProviders" then Some(ViewProvidersKey)
    else if value == "providers" then Some(ProvidersKey)
    else if value == "exposes" then Some(ExposesKey)
    else None
  }

  /** The accepted values are exactly the four key names. */
  lemma RouteKeyRoundTrip(k: RouteKey, value: string)
    ensures RouteKeyOf(KeyName(k)) == Some(k)
    ensures RouteKeyOf(value).Some? <==> value in {"imports", "viewProviders", "providers", "exposes"}
  {
  }

  /** The names routed so far, one list per key, each in the order the names were pushed. */
  datatype Routes = Routes(imports: seq<string>, viewProviders: seq<string>, providers: seq<string>, exposes: seq<string>)

  const NoRoutes := Routes([], [], [], [])

  function Get(routes: Routes, k: RouteKey): seq<string> {
    match k
    case ImportsKey => routes.imports
    case ViewProvidersKey => routes.viewProviders
    case ProvidersKey => routes.providers
    case ExposesKey => routes.exposes
  }

  /** `importAttributes[key].push(...names)`. */
  function Append(routes: Routes, k: RouteKey, names: seq<string>): (r: Routes)
    ensures Get(r, k) == Get(routes, k) + names
    ensures forall other :: other != k ==> Get(r, other) == Get(routes, other)
  {
    match k
    case ImportsKey => routes.(imports := routes.imports + names)
    case ViewProvidersKey => routes.(viewProviders := routes.viewProviders + names)
    case ProvidersKey => routes.(providers := routes.providers + names)
    case ExposesKey => routes.(exposes := routes.exposes + names)
  }

  // ---------------------------------------------------------------------------------------------
  // Bare imports of component files
  // ---------------------------------------------------------------------------------------------

  /** `import './foo.analog'`: no named import, no default import, and a component file extension. */
  predicate IsBareComponentImport(d: ImportDecl) {
    d.namedImports == [] && d.defaultImport.None?
    && (EndsWith(d.moduleSpecifier, ".analog") || EndsWith(d.moduleSpecifier, ".ag"))
  }

  /** The generated default name: the module specifier with every character that is not an ASCII letter
      removed. */
  function GeneratedName(specifier: string): (r: string)
    ensures forall i :: 0 <= i < |r| ==> IsLetter(r[i])
  {
    Keep(specifier, IsLetter)
  }

  /** The import as the rest of the pass sees it, with the generated default name set on a bare import. */
  function WithGeneratedDefault(d: ImportDecl): (r: ImportDecl)
    ensures IsBareComponentImport(d) ==> r == d.(defaultImport := Some(GeneratedName(d.moduleSpecifier)))
    ensures !IsBareComponentImport(d) ==> r == d
  {
    if IsBareComponentImport(d) then d.(defaultImport := Some(GeneratedName(d.moduleSpecifier))) else d
  }

  // ---------------------------------------------------------------------------------------------
  // The `analog` attribute
  // ---------------------------------------------------------------------------------------------

  predicate IsNotQuote(c: char) { c != '\'' && c != '"' }

  /** The attribute value with every single and double quote removed. */
  function StripQuotes(value: string): (r: string)
    ensures forall i :: 0 <= i < |r| ==> IsNotQuote(r[i])
  {
    Keep(value, IsNotQuote)
  }

  /** A value written between quotes loses exactly its quotes. */
  lemma StripQuotesOfQuoted(q: char, s: string)
    requires !IsNotQuote(q)
    requires forall i :: 0 <= i < |s| ==> IsNotQuote(s[i])
    ensures StripQuotes([q] + s + [q]) == s
  {
    KeepAppend([q] + s, [q], IsNotQuote);
    KeepAppend([q], s, IsNotQuote);
    KeepAll(s, IsNotQuote);
  }

  /** The result of the attribute loop: the list selected by the last `analog` attribute, if any, and
      the other attributes. */
  datatype AttributeScan = AttributeScan(found: Option<RouteKey>, passThrough: seq<ImportAttribute>)

  /** The attribute loop over `attrs`, as a function of its prefix: the first `analog` attribute whose
      value selects no list ends the compilation. */
  function ScanAttributes(attrs: seq<ImportAttribute>): Result<AttributeScan, CompileError> {
    if attrs == [] then Ok(AttributeScan(None, []))
    else
      var before :- ScanAttributes(attrs[..|attrs| - 1]);
      var a := attrs[|attrs| - 1];
      if a.name == "analog" then
        var value := StripQuotes(a.value);
        match RouteKeyOf(value)
        case None => Err(InvalidImportAttribute(value))
        case Some(k) => Ok(before.(found := Some(k)))
      else Ok(before.(passThrough := before.passThrough + [a]))
  }

  /** The attribute loop itself. */
  method ProcessImportAttributes(attrs: seq<ImportAttribute>) returns (r: Result<AttributeScan, CompileError>)
    ensures r == ScanAttributes(attrs)
  {
    var passThrough: seq<ImportAttribute> := [];
    var found: Option<RouteKey> := None;
    for i := 0 to |attrs|
      invariant ScanAttributes(attrs[..i]) == Ok(AttributeScan(found, passThrough))
    {
      assert attrs[..i + 1][..i] == attrs[..i];
      var a := attrs[i];
      if a.name == "analog" {
        var value := StripQuotes(a.value);
        var k := RouteKeyOf(value);
        if k.None? {
          assert ScanAttributes(attrs[..i + 1]) == Err(InvalidImportAttribute(value));
          SameScanAfterError(attrs, i + 1);
          return Err(InvalidImportAttribute(value));
        }
        found := k;
        continue;
      }
      passThrough := passThrough + [a];
    }
    assert attrs[..|attrs|] == attrs;
    return Ok(AttributeScan(found, passThrough));
  }

  /** Once the scan of a prefix has failed, the scan of the whole list fails the same way. */
  lemma {:induction false} SameScanAfterError(attrs: seq<ImportAttribute>, n: nat)
    requires n <= |attrs| && ScanAttributes(attrs[..n]).Err?
    ensures ScanAttributes(attrs) == ScanAttributes(attrs[..n])
    decreases |attrs| - n
  {
    if n < |attrs| {
      assert attrs[..n + 1][..n] == attrs[..n];
      SameScanAfterError(attrs, n + 1);
    } else {
      assert attrs[..n] == attrs;
    }
  }

  /** An `analog` attribute that selects no list. */
  predicate IsInvalidAnalog(a: ImportAttribute) {
    a.name == "analog" && RouteKeyOf(StripQuotes(a.value)).None?
  }

  /** The attributes other than `analog`, in order. */
  function NonAnalog(attrs: seq<ImportAttribute>): (r: seq<ImportAttribute>)
    ensures forall i :: 0 <= i < |r| ==> r[i].name != "analog"
  {
    if attrs == [] then []
    else NonAnalog(attrs[..|attrs| - 1]) + (if attrs[|attrs| - 1].name == "analog" then [] else [attrs[|attrs| - 1]])
  }

  /** The list selected by the last `analog` attribute. */
  function LastRoute(attrs: seq<ImportAttribute>): Option<RouteKey> {
    if attrs == [] then None
    else if attrs[|attrs| - 1].name == "analog" then RouteKeyOf(StripQuotes(attrs[|attrs| - 1].value))
    else LastRoute(attrs[..|attrs| - 1])
  }

  /** The scan fails exactly when some `analog` attribute selects no list; otherwise the `analog`
      attributes are dropped, every other attribute passes through in order, and the last `analog`
      attribute decides the list. */
  lemma {:induction false} ScanAttributesSpec(attrs: seq<ImportAttribute>)
    ensures ScanAttributes(attrs).Err? <==> exists i :: 0 <= i < |attrs| && IsInvalidAnalog(attrs[i])
    ensures ScanAttributes(attrs).Ok? ==>
              ScanAttributes(attrs).value == AttributeScan(LastRoute(attrs), NonAnalog(attrs))
  {
    if attrs != [] {
      var init := attrs[..|attrs| - 1];
      ScanAttributesSpec(init);
      assert forall i :: 0 <= i < |init| ==> init[i] == attrs[i];
      if ScanAttributes(init).Ok? && !IsInvalidAnalog(attrs[|attrs| - 1]) {
        assert !(exists i :: 0 <= i < |attrs| && IsInvalidAnalog(attrs[i])) by {
          forall i | 0 <= i < |attrs| ensures !IsInvalidAnalog(attrs[i]) {
            if i < |init| {
              assert !IsInvalidAnalog(init[i]);
            }
          }
        }
      }
      if ScanAttributes(init).Err? {
        var i :| 0 <= i < |init| && IsInvalidAnalog(init[i]);
        assert IsInvalidAnalog(attrs[i]);
      }
    }
  }

  // ---------------------------------------------------------------------------------------------
  // Routing and the copied import
  // ---------------------------------------------------------------------------------------------

  /** The names an import binds, as they are pushed: the default import first, then each named import's
      alias, or its name when it has none, in source order. */
  function RoutedNames(d: ImportDecl): (r: seq<string>)
    ensures |r| == (if d.defaultImport.Some? then 1 else 0) + |d.namedImports|
  {
    (if d.defaultImport.Some? then [d.defaultImport.value] else [])
    + seq(|d.namedImports|, i requires 0 <= i < |d.namedImports| =>
            d.namedImports[i].alias.GetOr(d.namedImports[i].name))
  }

  /** One import declaration: the routing table afterwards and the declaration copied to the output, with
      its `analog` attributes removed and no `with` clause when nothing else is left. */
  function ImportStep(routes: Routes, d: ImportDecl): Result<(Routes, ImportDecl), CompileError> {
    var d1 := WithGeneratedDefault(d);
    var scan :- ScanAttributes(d1.attributes);
    var routes1 := if scan.found.Some? then Append(routes, scan.found.value, RoutedNames(d1)) else routes;
    Ok((routes1, d1.(attributes := scan.passThrough)))
  }

  /** An import without an `analog` attribute routes nothing and is copied with its attributes. */
  lemma ImportWithoutAnalogAttribute(routes: Routes, d: ImportDecl)
    requires forall i :: 0 <= i < |d.attributes| ==> d.attributes[i].name != "analog"
    ensures ImportStep(routes, d) == Ok((routes, WithGeneratedDefault(d)))
  {
    var attrs := WithGeneratedDefault(d).attributes;
    ScanAttributesSpec(attrs);
    NoAnalogScan(attrs);
  }

  lemma {:induction false} NoAnalogScan(attrs: seq<ImportAttribute>)
    requires forall i :: 0 <= i < |attrs| ==> attrs[i].name != "analog"
    ensures ScanAttributes(attrs) == Ok(AttributeScan(None, attrs))
  {
    if attrs != [] {
      NoAnalogScan(attrs[..|attrs| - 1]);
      assert attrs[..|attrs| - 1] + [attrs[|attrs| - 1]] == attrs;
    }
  }

  /** Whatever an import routes, its copy in the generated file carries no `analog` attribute. */
  lemma ImportCopyHasNoAnalogAttribute(routes: Routes, d: ImportDecl)
    requires ImportStep(routes, d).Ok?
    ensures forall i :: 0 <= i < |ImportStep(routes, d).value.1.attributes| ==>
              ImportStep(routes, d).value.1.attributes[i].name != "analog"
  {
    ScanAttributesSpec(WithGeneratedDefault(d).attributes);
  }

  /** A routed import appends its names, default first, to the selected list only, and its copy keeps
      every attribute but the `analog` ones. */
  lemma RoutedImport(routes: Routes, d: ImportDecl, k: RouteKey)
    requires ScanAttributes(WithGeneratedDefault(d).attributes).Ok?
    requires LastRoute(WithGeneratedDefault(d).attributes) == Some(k)
    ensures ImportStep(routes, d).Ok?
    ensures var (routes1, copy) := ImportStep(routes, d).value;
      && Get(routes1, k) == Get(routes, k) + RoutedNames(WithGeneratedDefault(d))
      && (forall other :: other != k ==> Get(routes1, other) == Get(routes, other))
      && copy.attributes == NonAnalog(d.attributes)
      && copy.moduleSpecifier == d.moduleSpecifier && copy.namedImports == d.namedImports
  {
    ScanAttributesSpec(WithGeneratedDefault(d).attributes);
  }

  /** `import { a, b as c } from './x' with { analog: 'imports' }` pushes `a` then `c` to `imports`. */
  lemma NamedImportsAreRouted()
    ensures var d := ImportDecl("./x", None, None, [NamedImport("a", None), NamedImport("b", Some("c"))],
                                [ImportAttribute("analog", "'imports'")]);
            ImportStep(NoRoutes, d) == Ok((Routes(["a", "c"], [], [], []), d.(attributes := [])))
  {
    var d := ImportDecl("./x", None, None, [NamedImport("a", None), NamedImport("b", Some("c"))],
                        [ImportAttribute("analog", "'imports'")]);
    ImportsAttributeScan();
    NamedImportsNames(d);
    assert WithGeneratedDefault(d) == d;
    var names: seq<string> := ["a", "c"];
    assert NoRoutes.imports + names == names;
  }

  lemma ImportsAttributeScan()
    ensures ScanAttributes([ImportAttribute("analog", "'imports'")]) == Ok(AttributeScan(Some(ImportsKey), []))
  {
    QuotedValueScan("imports", ImportsKey);
    assert "'" + "imports" + "'" == "'imports'";
  }

  lemma NamedImportsNames(d: ImportDecl)
    requires d.defaultImport.None? && d.namedImports == [NamedImport("a", None), NamedImport("b", Some("c"))]
    ensures RoutedNames(d) == ["a", "c"]
  {
  }

  /** A single `analog` attribute naming a list in single quotes selects that list. */
  lemma QuotedValueScan(value: string, k: RouteKey)
    requires value == KeyName(k)
    ensures ScanAttributes([ImportAttribute("analog", "'" + value + "'")]) == Ok(AttributeScan(Some(k), []))
  {
    RouteKeyRoundTrip(k, value);
    StripQuotesOfQuoted('\'', value);
    var attrs := [ImportAttribute("analog", "'" + value + "'")];
    assert attrs[..0] == [];
  }

  // ---------------------------------------------------------------------------------------------
  // The validation as written
  // ---------------------------------------------------------------------------------------------

  /** The names a plain JavaScript object inherits from `Object.prototype`, which the `in` operator
      also finds on the `importAttributes` table. */
  const ObjectPrototypeKeys: set<string> := {
    "constructor", "hasOwnProperty", "isPrototypeOf", "propertyIsEnumerable", "toLocaleString",
    "toString", "valueOf", "__proto__", "__defineGetter__", "__defineSetter__", "__lookupGetter__",
    "__lookupSetter__"}

  /** The check `value in importAttributes` as written: an own key of the table or an inherited one. */
  predicate PassesValidationAsWritten(value: string) {
    RouteKeyOf(value).Some? || value in ObjectPrototypeKeys
  }

  /** `with { analog: 'toString' }` passes the check as written although it names no list; the model's
      validation rejects it with the compiler's own error. */
  lemma InheritedKeyPassesValidation()
    ensures PassesValidationAsWritten("toString") && RouteKeyOf("toString").None?
    ensures ScanAttributes([ImportAttribute("analog", "'toString'")]) == Err(InvalidImportAttribute("toString"))
  {
    StripQuotesOfQuoted('\'', "toString");
    assert ['\''] + "toString" + ['\''] == "'toString'";
    assert [ImportAttribute("analog", "'toString'")][..0] == [];
  }

  /** The corrected validation accepts exactly what the written one accepts, except the inherited
      names. */
  lemma ValidationDiffersOnlyOnInheritedKeys(value: string)
    ensures RouteKeyOf(value).Some? <==> PassesValidationAsWritten(value) && value !in ObjectPrototypeKeys
  {
    forall s | s in ObjectPrototypeKeys ensures RouteKeyOf(s).None? {
    }
  }
}
