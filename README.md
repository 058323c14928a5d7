# Analog single-file component compiler, modelled in Dafny

This project models the compiler that turns an Analog `.analog` single-file component into an Angular
class (`packages/vite-plugin-angular/src/lib/authoring/analog.ts`):

- `compileAnalogFile` derives the component name, file name and class name from the path. It classifies the file as a Component or a Directive, or rejects it, and builds the generated skeleton: the `@angular/core` import and the decorator metadata with `standalone`, the selector and a component's change detection, template or `templateUrl`, styles and host.
- `processAnalogScript` makes one pass over the script's top-level statements. It copies and routes imports by their `analog` import attribute, registers variables in an insertion-ordered member registry, and lowers destructuring patterns into a hidden `__destructuredN` member. It merges `defineMetadata` into the decorator and queues functions, lifecycle hooks and other calls.
- Its finalization turns the registry into class properties, constructor locals, aliases and `Object.defineProperties` descriptors. It then runs the queued operations and merges the routed names into `imports`, `viewProviders` and `providers`, and into exposed class properties.
- `processInitializer` and the scope-qualification rewrite prefix `this.` to registered names.
- `processArrayLiteralMetadata` and `processMetadata` edit the decorator's object literal in place.
- `toPropertyName`, `toClassName`, `toFileName` and `toCapitalCase` are the naming utilities.

How the model is laid out:

- The syntax tree the compiler walks is an abstract datatype: `Syntax.Expr`, `Syntax.Stmt` and `Syntax.ImportDecl`.
- The generated file is `Output.Module`.
- The file as it is changed in place is the class `Target.TargetClass`, whose methods are the ts-morph mutations the compiler uses.
- The statement pass is specified by the functions of `Transform` and carried out by the methods of `Script`. Each method is proved equal to its specification, and the properties are proved about that specification.
- The constants imported from `constants.js` are the fields of a `Syntax.Constants` record parameter: `DEFINE_METADATA`, `ON_INIT`, `ON_DESTROY`, `HOOKS_MAP`, `ROUTE_META`, `OUTPUT_FROM_OBSERVABLE`, the signal maps and `INVALID_METADATA_PROPERTIES`.

## Model

| member | source | states |
|---|---|---|
| Compile.ComponentName | packages/vite-plugin-angular/src/lib/authoring/analog.ts:37-41 | the component name is the part of the last path segment before its first dot; it is non-empty and holds no `/` or `.`, and an empty one fails with the missing-name error |
| Compile.ComponentNameMissing | packages/vite-plugin-angular/src/lib/authoring/analog.ts:37-41 | the name is missing exactly when the last path segment is empty or starts with a dot, and then the error carries the path |
| Compile.ComponentNameOfFile | packages/vite-plugin-angular/src/lib/authoring/analog.ts:37 | `<dir>/<name>.<ext>` yields `name` for any directory |
| Compile.EntityTypeCases | packages/vite-plugin-angular/src/lib/authoring/analog.ts:64-71 | Component iff markdown, a template, or a script mentioning `templateUrl`; Directive iff no markdown, no template, and a script without `templateUrl`; an error iff none of template, markdown and script |
| Compile.EntityNameIsIdentifier | packages/vite-plugin-angular/src/lib/authoring/analog.ts:73 | `<ClassName>Analog<Kind>` is non-empty, made of ASCII letters and digits, and starts with a capital whenever the class name does |
| Compile.MarkdownTakesTemplateUrl | packages/vite-plugin-angular/src/lib/authoring/analog.ts:75-84 | a markdown component's second item is `templateUrl` pointing at `virtual-analog:<path without .ts>`, and there is no inline `template` |
| Compile.StylesWithoutLineBreaks | packages/vite-plugin-angular/src/lib/authoring/analog.ts:86-88 | the inlined styles contain no `\n` character (a `\r` stays, as `replaceAll('\n', '')` leaves it) |
| Compile.SkeletonDecorator | packages/vite-plugin-angular/src/lib/authoring/analog.ts:100-112 | the decorator holds `standalone: true` first and the selector `'<file-name>,<ClassName>'` second; a directive has nothing more, and a component's items follow |
| Compile.SkeletonImports | packages/vite-plugin-angular/src/lib/authoring/analog.ts:100-103 | one `@angular/core` import naming the kind, plus `ChangeDetectionStrategy` for a component only |
| Compile.CompileWithoutName | packages/vite-plugin-angular/src/lib/authoring/analog.ts:37-41 | a file without a component name fails with the missing-name error before anything else |
| Compile.CompileEmptyFile | packages/vite-plugin-angular/src/lib/authoring/analog.ts:64-71 | no template, no markdown marker and no script fails with the cannot-determine-type error |
| Compile.CompileTemplateOnly | packages/vite-plugin-angular/src/lib/authoring/analog.ts:115-127 | without a script, a markdown or template file compiles to the skeleton itself (the imports and decorator that `Compile.SkeletonImports` and `Compile.SkeletonDecorator` describe, with the component's items), an empty class named `<ClassName>AnalogComponent` |
| Compile.CompileWithScript | packages/vite-plugin-angular/src/lib/authoring/analog.ts:115-124 | with a script, the successful output keeps the classified kind and the entity name |
| Naming.ToPropertyName | packages/vite-plugin-angular/src/lib/authoring/analog.ts:764-772 | the result holds only ASCII letters and digits and never starts with a digit |
| Naming.SecondPassOfPropertyNameIsIdle | packages/vite-plugin-angular/src/lib/authoring/analog.ts:766-768 | the second replacement of `toPropertyName` removes nothing after the first |
| Naming.PropertyNameFixesCamelCase | packages/vite-plugin-angular/src/lib/authoring/analog.ts:764-772 | a lowerCamelCase identifier is its own property name |
| Naming.ToCapitalCase | packages/vite-plugin-angular/src/lib/authoring/analog.ts:787-789 | same length; the first character upper-cased and the rest unchanged |
| Naming.ToClassName | packages/vite-plugin-angular/src/lib/authoring/analog.ts:757-759 | letters and digits only, starting with an upper-case letter when non-empty |
| Naming.FileNameFixesLowerHyphenated | packages/vite-plugin-angular/src/lib/authoring/analog.ts:777-783 | a lower-case hyphenated name not starting with a digit is its own file name |
| Naming.FileNameInvertsPropertyName | packages/vite-plugin-angular/src/lib/authoring/analog.ts:764-783 | `toFileName(toPropertyName(s)) == s` for kebab-case names such as `my-page` |
| Scope.ProcessInitializer | packages/vite-plugin-angular/src/lib/authoring/analog.ts:583-620 | no initializer writes nothing; a signal-factory call other than `outputFromObservable` is kept verbatim; anything else is qualified |
| Scope.QualifyIsTreeRewrite | packages/vite-plugin-angular/src/lib/authoring/analog.ts:622-687 | the text rewrite is the rendering of a tree rewrite that only replaces registered roots with `this.<root>` |
| Scope.CallShapeKept | packages/vite-plugin-angular/src/lib/authoring/analog.ts:626-665 | qualification keeps a call a call with the same number of arguments |
| Scope.QualifyWithoutNamesIsIdentity | packages/vite-plugin-angular/src/lib/authoring/analog.ts:622-687 | with nothing registered the rewrite changes nothing |
| Scope.ChainQualification | packages/vite-plugin-angular/src/lib/authoring/analog.ts:667-683 | a property-access chain gets `this.` exactly when its deepest expression is a registered identifier |
| Scope.CallQualification | packages/vite-plugin-angular/src/lib/authoring/analog.ts:626-665 | a call's callee follows the same root rule; registered identifier arguments are qualified, and other non-call, non-access arguments are kept |
| Scope.BareExpressionKept | packages/vite-plugin-angular/src/lib/authoring/analog.ts:686 | an expression that is neither a call nor a property access is emitted as written |
| Scope.RegisteredRouteIsQualified | packages/vite-plugin-angular/src/lib/authoring/analog.ts:667-683 | `route.snapshot.id` with `route` registered becomes `this.route.snapshot.id` |
| Scope.GlobalCalleeIsKept | packages/vite-plugin-angular/src/lib/authoring/analog.ts:636-664 | `Math.max(a, 1)` with only `a` registered becomes `Math.max(this.a, 1)` |
| Registry.Find | packages/vite-plugin-angular/src/lib/authoring/analog.ts:188 | the position of the only entry that can answer a lookup: the first with that name, none iff no entry has it |
| Registry.SetThenGet | packages/vite-plugin-angular/src/lib/authoring/analog.ts:296-360 | after `set`, `get` of that name returns the new member and every other name reads as before |
| Registry.SetKeepsOrder | packages/vite-plugin-angular/src/lib/authoring/analog.ts:188 | `set` on a present key keeps its position and the size; on a new key it appends |
| Registry.SetNames | packages/vite-plugin-angular/src/lib/authoring/analog.ts:188 | `set` adds exactly its name to the keys and keeps names unique |
| Imports.RouteKeyRoundTrip | packages/vite-plugin-angular/src/lib/authoring/analog.ts:180-185 | the accepted attribute values are exactly the four table keys |
| Imports.GeneratedName | packages/vite-plugin-angular/src/lib/authoring/analog.ts:203-206 | the generated default name holds only ASCII letters |
| Imports.WithGeneratedDefault | packages/vite-plugin-angular/src/lib/authoring/analog.ts:197-209 | only a bare `.analog`/`.ag` import gets the generated default name; other imports are unchanged |
| Imports.StripQuotes | packages/vite-plugin-angular/src/lib/authoring/analog.ts:218 | the attribute value without any quote character |
| Imports.StripQuotesOfQuoted | packages/vite-plugin-angular/src/lib/authoring/analog.ts:218 | a quote-free value written between quotes comes back exactly |
| Imports.ProcessImportAttributes | packages/vite-plugin-angular/src/lib/authoring/analog.ts:216-229 | the attribute loop computes the scan function |
| Imports.ScanAttributesSpec | packages/vite-plugin-angular/src/lib/authoring/analog.ts:216-229 | the scan fails iff some `analog` attribute selects no list; otherwise it yields the list of the last `analog` attribute and the other attributes in order |
| Imports.SameScanAfterError | packages/vite-plugin-angular/src/lib/authoring/analog.ts:219-223 | the first invalid attribute's error is the loop's result |
| Imports.Append | packages/vite-plugin-angular/src/lib/authoring/analog.ts:232-244 | pushing appends to the selected list and leaves the other three alone |
| Imports.RoutedImport | packages/vite-plugin-angular/src/lib/authoring/analog.ts:231-254 | a routed import appends default-then-named (`alias ?? name`) names to the selected list only, and its copy keeps every attribute except `analog` |
| Imports.ImportWithoutAnalogAttribute | packages/vite-plugin-angular/src/lib/authoring/analog.ts:211-254 | an import without `analog` routes nothing and is copied unchanged apart from its generated default |
| Imports.ImportCopyHasNoAnalogAttribute | packages/vite-plugin-angular/src/lib/authoring/analog.ts:228-254 | no copied import carries an `analog` attribute |
| Imports.NamedImportsAreRouted | packages/vite-plugin-angular/src/lib/authoring/analog.ts:241-244 | `{ a, b as c }` routed to `imports` pushes `a` then `c` |
| Imports.InheritedKeyPassesValidation | packages/vite-plugin-angular/src/lib/authoring/analog.ts:219 | `toString` passes the check as written but selects no list, and the model rejects it |
| Imports.ValidationDiffersOnlyOnInheritedKeys | packages/vite-plugin-angular/src/lib/authoring/analog.ts:219 | the corrected check accepts exactly what the written one accepts minus `Object.prototype` names |
| Destructuring.DecimalRoundTrip | packages/vite-plugin-angular/src/lib/authoring/analog.ts:295 | the counter's decimal text reads back as the counter |
| Destructuring.VirtualNamesDistinct | packages/vite-plugin-angular/src/lib/authoring/analog.ts:292-295 | distinct counter values give distinct virtual names |
| Destructuring.ElementKey | packages/vite-plugin-angular/src/lib/authoring/analog.ts:330-338 | an array element is read by position and an object element by `propertyName ?? name` |
| Destructuring.ElementMember | packages/vite-plugin-angular/src/lib/authoring/analog.ts:304-349 | an element's member is named after its binding and is neither `let`, exported nor virtual |
| Destructuring.RegisterBindingElements | packages/vite-plugin-angular/src/lib/authoring/analog.ts:304-350 | the element loop computes the registration function |
| Destructuring.RegisterElementsNames | packages/vite-plugin-angular/src/lib/authoring/analog.ts:304-350 | the registry keys grow by exactly the elements' names and stay unique |
| Destructuring.RegisterElementsKeepsOthers | packages/vite-plugin-angular/src/lib/authoring/analog.ts:304-350 | a name no element binds is looked up as before |
| Destructuring.RegisterElementsFinds | packages/vite-plugin-angular/src/lib/authoring/analog.ts:304-350 | each element's member is found under its name unless a later element rebinds it |
| Destructuring.DestructureSpec | packages/vite-plugin-angular/src/lib/authoring/analog.ts:277-353 | an empty pattern changes nothing; otherwise the counter rises by one, the keys gain the virtual name and the element names, and each lookup finds its member |
| Destructuring.ElementBindsAsDestructuring | packages/vite-plugin-angular/src/lib/authoring/analog.ts:330-349 | the generated element initializer yields what ECMA-262 destructuring binds (section 14.3.3), defaults included |
| Destructuring.ArrayElementAsWrittenReadsByName | packages/vite-plugin-angular/src/lib/authoring/analog.ts:336-338 | for `const [first] = [1]`, the access as written reads `undefined` while destructuring binds `1` |
| Destructuring.DefaultOnlyReplacesUndefined | packages/vite-plugin-angular/src/lib/authoring/analog.ts:340-344 | a default replaces `undefined` only, not other present values |
| Metadata.FindProperty | packages/vite-plugin-angular/src/lib/authoring/analog.ts:694 | `getProperty`: the first property with that name, none iff no property has it |
| Metadata.ArrayMergeAppends | packages/vite-plugin-angular/src/lib/authoring/analog.ts:689-709 | the items are appended after the array's items, the property is created at the end when missing, and every other property is kept |
| Metadata.ArrayMergeOtherName | packages/vite-plugin-angular/src/lib/authoring/analog.ts:689-709 | merging under one name leaves every other name's lookup and items unchanged |
| Metadata.ArrayMergeTwice | packages/vite-plugin-angular/src/lib/authoring/analog.ts:689-709 | merging `a` then `b` equals merging `a + b` |
| Metadata.ArrayMergeNothing | packages/vite-plugin-angular/src/lib/authoring/analog.ts:696-708 | merging no items into an existing property changes nothing, while a missing one is still created as `[]` |
| Metadata.RemoveFirstSpec | packages/vite-plugin-angular/src/lib/authoring/analog.ts:724 | removing the first property of a name removes one of them when there is one, and keeps every property of another name in order |
| Metadata.SelectorReplaced | packages/vite-plugin-angular/src/lib/authoring/analog.ts:722-729 | with at most one selector before, exactly one afterwards: the new one, last, with every other property unchanged |
| Metadata.ExposedNames | packages/vite-plugin-angular/src/lib/authoring/analog.ts:733-735 | splitting an `exposes` text always yields at least one name |
| Metadata.ExposedProperties | packages/vite-plugin-angular/src/lib/authoring/analog.ts:736-743 | one protected read-only property per exposed name, in order |
| Metadata.ExposesRoundTrip | packages/vite-plugin-angular/src/lib/authoring/analog.ts:733-741 | the names parsed from a rendered `[a, b]` array are the identifiers written |
| Metadata.EmptyExposesGivesEmptyName | packages/vite-plugin-angular/src/lib/authoring/analog.ts:733-741 | `exposes: []` yields one property with an empty name |
| Target.TargetClass.ProcessArrayLiteralMetadata | packages/vite-plugin-angular/src/lib/authoring/analog.ts:689-709 | in place: the metadata becomes the merge function of the old metadata; nothing else changes |
| Target.TargetClass.ProcessAssignment | packages/vite-plugin-angular/src/lib/authoring/analog.ts:717-750 | in place: one assignment takes the metadata and the added properties from the result of the assignments before it to the result including it; nothing else changes |
| Target.TargetClass.ProcessMetadata | packages/vite-plugin-angular/src/lib/authoring/analog.ts:711-752 | in place: each assignment in order replaces the selector, adds exposed properties or appends a property |
| Transform.MetadataAssignments | packages/vite-plugin-angular/src/lib/authoring/analog.ts:405-412 | only property assignments whose names are allowed, never more than there are properties |
| Transform.PassStopsAtError | packages/vite-plugin-angular/src/lib/authoring/analog.ts:191-450 | the first statement that throws decides the pass's outcome |
| Transform.MemberProperty | packages/vite-plugin-angular/src/lib/authoring/analog.ts:490-508 | the property keeps the member's name; it is read-only iff exported or virtual, protected iff exported, and private iff virtual and not exported; its initializer is the element or rest read for a destructured member, the member's own name for an exported one (the module-level copy), and otherwise exactly what `processInitializer` writes, nothing when there is no initializer |
| Transform.FinishMembersSpec | packages/vite-plugin-angular/src/lib/authoring/analog.ts:455-513 | exactly one descriptor per non-exported `let` and one property per non-`let` member, each in registry order; exported `let` members are dropped |
| Transform.FinishMembersConstructor | packages/vite-plugin-angular/src/lib/authoring/analog.ts:455-513 | locals for exactly the non-exported `let` members and aliases for exactly the non-`let`, non-virtual, non-route-meta members, in order, after the existing statements |
| Transform.RunAllSpec | packages/vite-plugin-angular/src/lib/authoring/analog.ts:518-520 | queued operations run in order: a protected read-only property per exported function, a lifecycle method per hook, and the constructor gains exactly, in queue order, a non-exported function's text followed by its `bind(this)`, a hook's slot assignment, and each other call as written |
| Transform.HookBecomesLifecycleMethod | packages/vite-plugin-angular/src/lib/authoring/analog.ts:430-441 | `onInit(fn)` assigns the function in the constructor and adds the `onInit` lifecycle method calling it |
| Transform.FinalizeSpec | packages/vite-plugin-angular/src/lib/authoring/analog.ts:455-578 | the finalization keeps the statements after the class and the properties already there, puts the members' properties first, and the constructor is the members' statements, then the queue's, then at most one `Object.defineProperties` |
| Transform.ExportedConstStep | packages/vite-plugin-angular/src/lib/authoring/analog.ts:262-272 | `export const n = ...` is copied after the class at once and registers `n` as an exported non-`let` member |
| Transform.ExportedConstIsAliased | packages/vite-plugin-angular/src/lib/authoring/analog.ts:490-508 | after a script whose last statement is `export const n = ...`, the statement is the last one after the class and the class has the protected read-only property `n` initialized with `n` |
| Transform.FunctionIsBoundInConstructor | packages/vite-plugin-angular/src/lib/authoring/analog.ts:375-391 | a function declared without `export` is copied into the constructor and directly followed by `this.n = n.bind(this);` |
| Transform.RouteMergedSpec | packages/vite-plugin-angular/src/lib/authoring/analog.ts:522-557 | a routed list lands after what its property held, other properties unchanged, and an empty list does nothing |
| Transform.DirectiveMergesOnlyProviders | packages/vite-plugin-angular/src/lib/authoring/analog.ts:522-557 | a directive receives `providers` only: no `imports`, no `viewProviders`, no exposed properties |
| Transform.ComponentMergesAllRoutes | packages/vite-plugin-angular/src/lib/authoring/analog.ts:522-557 | a component receives each routed list after its existing items and one protected read-only property per trimmed exposed name |
| Transform.PassInvariants | packages/vite-plugin-angular/src/lib/authoring/analog.ts:191-450 | the counter counts the non-empty patterns, one import is copied per import statement with none carrying `analog`, the registry never holds a name twice, and kind and class name are kept |
| Transform.EmptyScriptChangesNothing | packages/vite-plugin-angular/src/lib/authoring/analog.ts:138-581 | an empty script leaves the generated file unchanged |
| Transform.ScriptKeepsDeclaration | packages/vite-plugin-angular/src/lib/authoring/analog.ts:138-581 | the script pass never changes the entity kind, the class name or the imports already present |
| Script.ProcessImport | packages/vite-plugin-angular/src/lib/authoring/analog.ts:193-257 | in place: the import's effect on the target and routing table is the import step, and on error nothing is written |
| Script.ProcessVariable | packages/vite-plugin-angular/src/lib/authoring/analog.ts:262-362 | in place: the variable step |
| Script.ProcessExpression | packages/vite-plugin-angular/src/lib/authoring/analog.ts:397-449 | in place: the expression step, with a missing or non-object `defineMetadata` argument an error |
| Script.ProcessStatement | packages/vite-plugin-angular/src/lib/authoring/analog.ts:191-450 | in place: one statement of the pass |
| Script.FinishRegistry | packages/vite-plugin-angular/src/lib/authoring/analog.ts:452-513 | in place: the registry loop computes the finishing function and returns the descriptors |
| Script.RunPendingOperations | packages/vite-plugin-angular/src/lib/authoring/analog.ts:518-520 | in place: the queue runs in order |
| Script.MergeImportAttributes | packages/vite-plugin-angular/src/lib/authoring/analog.ts:522-557 | in place: the route merging |
| Script.ProcessAnalogScript | packages/vite-plugin-angular/src/lib/authoring/analog.ts:138-581 | in place: the target becomes exactly the script result on success, and the error of the first failing statement otherwise |

## Left out

- Text production is not modelled:
  - ts-morph parsing, printing and formatting;
  - writer output;
  - the exact text of `Object.defineProperties` (the model keeps the descriptor list);
  - the final blank-line collapse;
  - the `isProd` formatting switch.
- The tag regular expressions that cut a file into script, style and template blocks are not modelled: they live in `constants.js`, which is not part of this model. `Compile.Blocks` takes the blocks as those patterns capture them.
- The script reaches the pass as its parsed statement list.
- `parseAttributes` is not modelled: it is a lazy, backreferencing regular expression. The `hostOf` parameter of `Compile.CompileAnalogFile` stands for `JSON.stringify(parseAttributes(...))`.
- The contents of `SIGNALS_MAP`, `REQUIRED_SIGNALS_MAP`, `HOOKS_MAP`, `INVALID_METADATA_PROPERTIES` and the other constants are parameters of the `Syntax.Constants` record, not values.
- `console.warn` for an exported `let` (line 464) and for a missing initializer (line 590) is left out. Both cases are modelled as writing nothing.
- The structural errors at lines 150-178 are not modelled: missing class, missing decorator, non-object decorator argument, missing constructor body, no syntax list. They cannot arise only as long as the skeleton text parses as built. The template, the styles and the file name are put into that text unescaped (lines 83, 87 and 107), so a backtick in the template or the styles, or a `'` in the file name, changes how the skeleton parses. The model assumes these do not occur.
- A variable statement with several declarations (`const a = 1, b = 2`) is outside the model: `Syntax.VarStmt` holds a single binding. The source registers only the first declaration (lines 263-264).
- Case mapping (`toUpperCase`/`toLowerCase`) and `/[^a-zA-Z]/` are modelled on ASCII only. Non-ASCII letters are outside the model.
- Expression text is a canonical rendering, not the source's own layout. `getText()` keeps the author's spacing, which the model does not carry.
- `Destructuring.JsValue` covers objects, arrays and primitives. Getters, prototypes, iterators and an array's `length` or methods are not modelled, and nested patterns are not supported by the source either.
- Namespace imports and side-effect imports are copied like other imports. Their specific printing is not modelled.
- A `defineMetadata` call whose first argument is missing or is not an object literal makes the source throw a `TypeError`; the model returns `InvalidDefineMetadataArgument`.
- Scope.ProcessInitializer: `signalFactories` is the set of names for which `REQUIRED_SIGNALS_MAP[name] || SIGNALS_MAP[name]` is truthy (line 598). Both are plain objects, so that set is their own keys plus the names inherited from `Object.prototype` (`Imports.ObjectPrototypeKeys`); whoever builds `Syntax.Constants` must include those. With `count` registered, `const s = valueOf(count)` is then kept as `valueOf(count)`, as the source does, and not qualified to `valueOf(this.count)`. The model does not fix this inherited-key lookup.
- Naming.FileNameInvertsPropertyName: proved for lower-case kebab names whose every hyphen is followed by at least two letters, not for every input.
- `packages/create-analog/template-blog/vite.config.ts` is a scaffold configuration without logic and is not part of this model.
- Destructuring.ElementKey: an array element is read by position (`this.__destructuredN[i]`), as array destructuring binds it in ECMA-262 (section 14.3.3, Destructuring Binding Patterns) and as the comment at analog.ts:340 intends. The code reads `this.__destructuredN.<name>` (analog.ts:336-338); this is logged under Findings.

## Findings

| source | as written | input that shows it | evidently intended | confidence | as-written member | corrected member |
|---|---|---|---|---|---|---|
| packages/vite-plugin-angular/src/lib/authoring/analog.ts:219 | `value in importAttributes` also accepts names inherited from `Object.prototype`, so the later `importAttributes[value].push` hits a function instead of a list | `import { A } from './a' with { analog: 'toString' }` | reject every value other than `imports`, `viewProviders`, `providers`, `exposes` with "Invalid Analog import attribute" | not executed | Imports.InheritedKeyPassesValidation | Imports.ValidationDiffersOnlyOnInheritedKeys |
| packages/vite-plugin-angular/src/lib/authoring/analog.ts:336-338 | an array-pattern element is read as `this.__destructuredN.<name>`, because an array element has no property name | `const [first] = [1];` gives `first` the value `undefined` instead of `1` | read an array element by position: `this.__destructuredN[<index>]` | not executed | Destructuring.ArrayElementAsWrittenReadsByName | Destructuring.ElementBindsAsDestructuring |
