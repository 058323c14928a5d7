/** `compileAnalogFile`: the component name from the file path, the kind of entity the file declares,
    the generated class skeleton with its decorator metadata, and the script pass over it when the file
    has a script. The tag patterns that cut the file into blocks are not part of this model: the blocks
    arrive as those patterns capture them, and the script as its parsed statements. */
module Compile {
  import opened Wrappers
  import opened Strings
  import opened Naming
  import opened Syntax
  import opened Output
  import opened Metadata
  import opened Transform

  /** The captures of the script, style and template patterns; `None` where a pattern did not match. */
  datatype Blocks = Blocks(
    script: Option<string>,
    style: Option<string>,
    templateAttributes: Option<string>,
    template: Option<string>)

  /** `filePath.split('/').pop()`: the last path segment. */
  function LastSegment(path: string): (r: string)
    ensures '/' !in r
  {
    var segments := Split(path, '/');
    segments[|segments| - 1]
  }

  /** `filePath.split('/').pop()?.split('.')[0]`, and the error thrown when it is empty. */
  function ComponentName(path: string): (r: Result<string, CompileError>)
    ensures r.Ok? ==> r.value != "" && '/' !in r.value && '.' !in r.value
  {
    var name := Split(LastSegment(path), '.')[0];
    SplitKeepsAbsent(LastSegment(path), '.', '/');
    if name == "" then Err(MissingComponentName(path)) else Ok(name)
  }

  /** The name is missing exactly when the file name is empty or starts with a dot. */
  lemma ComponentNameMissing(path: string)
    ensures ComponentName(path).Err? <==> LastSegment(path) == "" || LastSegment(path)[0] == '.'
    ensures ComponentName(path).Err? ==> ComponentName(path).error == MissingComponentName(path)
  {
  }

  /** The component name of `<dir>/<name>.<extension>` is `name`. */
  lemma ComponentNameOfFile(dir: string, name: string, extension: string)
    requires name != "" && '/' !in name && '.' !in name && '/' !in extension
    ensures ComponentName(dir + "/" + name + "." + extension) == Ok(name)
  {
    var file := name + "." + extension;
    assert dir + "/" + name + "." + extension == dir + ['/'] + file;
    assert '/' !in file by {
      assert forall i :: 0 <= i < |file| ==> file[i] == (if i < |name| then name[i] else if i == |name| then '.' else extension[i - |name| - 1]);
    }
    SplitLastPiece(dir, '/', file);
    assert file == name + ['.'] + extension;
    SplitPieceThenSeparator(name, '.', extension);
  }

  /** `fileContent.includes('lang="md"')`. */
  predicate IsMarkdown(content: string) {
    Contains(content, "lang=\"md\"")
  }

  function ScriptContent(b: Blocks): string { Trim(b.script.GetOr("")) }

  function StyleContent(b: Blocks): string { Trim(b.style.GetOr("")) }

  predicate IsNotNewline(c: char) { c != '\n' }

  /** The template tag's attributes, trimmed and with their line breaks removed. */
  function TemplateAttributeString(b: Blocks): string { Keep(Trim(b.templateAttributes.GetOr("")), IsNotNewline) }

  /** The template's content; a markdown file has none. */
  function TemplateContent(b: Blocks, isMarkdown: bool): string {
    if isMarkdown then "" else Trim(b.template.GetOr(""))
  }

  /** `ngType`: a component when there is a template or the file is markdown; otherwise, with a script,
      a component when the script mentions `templateUrl` and a directive if not; with neither, an
      error. */
  function EntityType(path: string, isMarkdown: bool, template: string, script: string): Result<EntityKind, CompileError> {
    if template != "" || isMarkdown then Ok(Component)
    else if script != "" then Ok(if Contains(script, "templateUrl") then Component else Directive)
    else Err(CannotDetermineEntityType(path))
  }

  /** The three outcomes, each by what the file holds. */
  lemma EntityTypeCases(path: string, isMarkdown: bool, template: string, script: string)
    ensures EntityType(path, isMarkdown, template, script) == Ok(Component) <==>
              isMarkdown || template != "" || (script != "" && Contains(script, "templateUrl"))
    ensures EntityType(path, isMarkdown, template, script) == Ok(Directive) <==>
              !isMarkdown && template == "" && script != "" && !Contains(script, "templateUrl")
    ensures EntityType(path, isMarkdown, template, script).Err? <==> !isMarkdown && template == "" && script == ""
  {
  }

  function KindName(kind: EntityKind): string {
    match kind
    case Component => "Component"
    case Directive => "Directive"
  }

  /** `${className}Analog${ngType}`. */
  function EntityName(className: string, kind: EntityKind): string {
    className + "Analog" + KindName(kind)
  }

  predicate AllAlnum(s: string) {
    forall i :: 0 <= i < |s| ==> IsAlnum(s[i])
  }

  lemma AllAlnumAppend(a: string, b: string)
    requires AllAlnum(a) && AllAlnum(b)
    ensures AllAlnum(a + b)
  {
    assert forall i :: |a| <= i < |a + b| ==> (a + b)[i] == b[i - |a|];
  }

  lemma SuffixIsAlnum(kind: EntityKind)
    ensures AllAlnum("Analog" + KindName(kind)) && IsUpper(("Analog" + KindName(kind))[0])
  {
    var suffix := "Analog" + KindName(kind);
    forall i | 0 <= i < |suffix| ensures IsAlnum(suffix[i]) {
      if i < 6 {
        assert suffix[i] == "Analog"[i];
      } else {
        assert suffix[i] == KindName(kind)[i - 6];
      }
    }
  }

  /** The class name is an identifier that starts with a capital letter, however short the name of the
      file (`ToClassName` gives letters and digits only). */
  lemma EntityNameIsIdentifier(className: string, kind: EntityKind)
    requires AllAlnum(className)
    ensures var n := EntityName(className, kind);
      n != "" && IsUpper(n[0]) == (className == "" || IsUpper(className[0])) && AllAlnum(n)
  {
    SuffixIsAlnum(kind);
    AllAlnumAppend(className, "Analog" + KindName(kind));
    assert EntityName(className, kind) == className + ("Analog" + KindName(kind));
  }

  /** The metadata items a component adds after its selector: change detection, then either the
      markdown `templateUrl` or the inline template, then the styles without line breaks, then the
      host attributes (`hostOf` stands for `JSON.stringify(parseAttributes(...))`). */
  function ComponentItems(path: string, isMarkdown: bool, template: string, style: string, attributes: string,
                          hostOf: string -> string): seq<MetaEntry>
  {
    [MetaEntry("changeDetection", TextValue("ChangeDetectionStrategy.OnPush"))]
    + (if isMarkdown then [MetaEntry("templateUrl", TextValue("`virtual-analog:" + ReplaceFirst(path, ".ts", "") + "`"))]
       else if template != "" then [MetaEntry("template", TextValue("`" + template + "`"))]
       else [])
    + (if style != "" then [MetaEntry("styles", TextValue("`" + Keep(style, IsNotNewline) + "`"))] else [])
    + (if attributes != "" then [MetaEntry("host", TextValue(hostOf(attributes)))] else [])
  }

  /** The generated file before the script pass: the `@angular/core` import, the decorator with
      `standalone`, the selector `'<file-name>,<ClassName>'` and, for a component, its items, and an
      empty class. */
  function Skeleton(kind: EntityKind, fileName: string, className: string, items: seq<MetaEntry>): Module {
    var named := [NamedImport(KindName(kind), None)]
                 + (if kind == Component then [NamedImport("ChangeDetectionStrategy", None)] else []);
    Module(kind,
           [ImportDecl("@angular/core", None, None, named, [])],
           EntityName(className, kind),
           [MetaEntry("standalone", TextValue("true")),
            MetaEntry("selector", TextValue("'" + fileName + "," + className + "'"))]
           + (if kind == Component then items else []),
           [], [], [], [])
  }

  /** `compileAnalogFile`: the skeleton, run through the script pass when there is a script. */
  function CompileAnalogFile(c: Constants, path: string, content: string, b: Blocks, hostOf: string -> string,
                             script: seq<Stmt>): Result<Module, CompileError>
  {
    var componentName :- ComponentName(path);
    var fileName := ToFileName(componentName);
    var className := ToClassName(componentName);
    var isMarkdown := IsMarkdown(content);
    var template := TemplateContent(b, isMarkdown);
    var kind :- EntityType(path, isMarkdown, template, ScriptContent(b));
    var items := ComponentItems(path, isMarkdown, template, StyleContent(b), TemplateAttributeString(b), hostOf);
    var skeleton := Skeleton(kind, fileName, className, items);
    if ScriptContent(b) != "" then ScriptResult(c, skeleton, script) else Ok(skeleton)
  }

  /** A markdown component points `templateUrl` at the virtual markdown module and has no inline
      template, whatever the template block holds. */
  lemma MarkdownTakesTemplateUrl(path: string, template: string, style: string, attributes: string,
                                 hostOf: string -> string)
    ensures var items := ComponentItems(path, true, template, style, attributes, hostOf);
      && FindProperty(items, "templateUrl") == Some(1)
      && items[1].value == TextValue("`virtual-analog:" + ReplaceFirst(path, ".ts", "") + "`")
      && FindProperty(items, "template").None?
  {
    var items := ComponentItems(path, true, template, style, attributes, hostOf);
    assert items[0].name == "changeDetection" && items[1].name == "templateUrl";
    assert forall i :: 2 <= i < |items| ==> items[i].name in {"styles", "host"};
  }

  /** A component's styles are inlined without line breaks. */
  lemma StylesWithoutLineBreaks(path: string, isMarkdown: bool, template: string, style: string, attributes: string,
                                hostOf: string -> string)
    ensures var items := ComponentItems(path, isMarkdown, template, style, attributes, hostOf);
      forall i :: 0 <= i < |items| && items[i].name == "styles" ==>
        items[i].value.TextValue? && '\n' !in items[i].value.text
  {
    var text := "`" + Keep(style, IsNotNewline) + "`";
    assert forall j :: 0 <= j < |text| ==> text[j] != '\n' by {
      var kept := Keep(style, IsNotNewline);
      assert forall j :: 1 <= j < |text| - 1 ==> text[j] == kept[j - 1];
    }
  }

  /** The decorator of the skeleton: `standalone` first, then the selector `'<file-name>,<ClassName>'`;
      a directive has nothing more, a component has change detection next. */
  lemma SkeletonDecorator(kind: EntityKind, fileName: string, className: string, items: seq<MetaEntry>)
    ensures var meta := Skeleton(kind, fileName, className, items).metadata;
      && FindProperty(meta, "standalone") == Some(0) && meta[0].value == TextValue("true")
      && FindProperty(meta, "selector") == Some(1)
      && meta[1].value == TextValue("'" + fileName + "," + className + "'")
      && (kind == Directive ==> |meta| == 2)
      && (kind == Component ==> meta[2..] == items)
  {
    var meta := Skeleton(kind, fileName, className, items).metadata;
    assert meta[0].name == "standalone" && meta[1].name == "selector";
  }

  /** A directive imports only `Directive`; a component also imports `ChangeDetectionStrategy`. */
  lemma SkeletonImports(kind: EntityKind, fileName: string, className: string, items: seq<MetaEntry>)
    ensures var imports := Skeleton(kind, fileName, className, items).imports;
      && |imports| == 1 && imports[0].moduleSpecifier == "@angular/core"
      && imports[0].namedImports[0].name == KindName(kind)
      && |imports[0].namedImports| == (if kind == Component then 2 else 1)
  {
  }

  /** A file name without a component name fails with `MissingComponentName`. */
  lemma CompileWithoutName(c: Constants, path: string, content: string, b: Blocks, hostOf: string -> string,
                           script: seq<Stmt>)
    requires ComponentName(path).Err?
    ensures CompileAnalogFile(c, path, content, b, hostOf, script) == Err(MissingComponentName(path))
  {
  }

  /** A file with a name but with no template, no markdown marker and no script fails with
      `CannotDetermineEntityType`. */
  lemma CompileEmptyFile(c: Constants, path: string, content: string, b: Blocks, hostOf: string -> string,
                         script: seq<Stmt>)
    requires ComponentName(path).Ok?
    requires !IsMarkdown(content) && Trim(b.template.GetOr("")) == "" && ScriptContent(b) == ""
    ensures CompileAnalogFile(c, path, content, b, hostOf, script) == Err(CannotDetermineEntityType(path))
  {
  }

  /** Without a script, a markdown file or a file with a template compiles to the bare component: the
      skeleton itself, whose imports and decorator `SkeletonImports` and `SkeletonDecorator` describe,
      with an empty class named `<ClassName>AnalogComponent`. */
  lemma CompileTemplateOnly(c: Constants, path: string, content: string, b: Blocks, hostOf: string -> string,
                            script: seq<Stmt>)
    requires ComponentName(path).Ok? && ScriptContent(b) == ""
    requires IsMarkdown(content) || Trim(b.template.GetOr("")) != ""
    ensures var r := CompileAnalogFile(c, path, content, b, hostOf, script);
      && r.Ok? && r.value.kind == Component
      && r.value.className == EntityName(ToClassName(ComponentName(path).value), Component)
      && r.value.properties == [] && r.value.ctor == [] && r.value.methods == [] && r.value.trailing == []
    ensures var name := ComponentName(path).value;
      var isMarkdown := IsMarkdown(content);
      CompileAnalogFile(c, path, content, b, hostOf, script)
      == Ok(Skeleton(Component, ToFileName(name), ToClassName(name),
                     ComponentItems(path, isMarkdown, TemplateContent(b, isMarkdown), StyleContent(b),
                                    TemplateAttributeString(b), hostOf)))
  {
    var name := ComponentName(path).value;
    var isMarkdown := IsMarkdown(content);
    var template := TemplateContent(b, isMarkdown);
    assert template != "" || isMarkdown;
    assert EntityType(path, isMarkdown, template, ScriptContent(b)) == Ok(Component);
    var items := ComponentItems(path, isMarkdown, template, StyleContent(b), TemplateAttributeString(b), hostOf);
    var skeleton := Skeleton(Component, ToFileName(name), ToClassName(name), items);
    assert CompileAnalogFile(c, path, content, b, hostOf, script) == Ok(skeleton);
  }

  /** With a script, the output is the script pass over the skeleton, which keeps the kind the file was
      classified as and the class name. */
  lemma CompileWithScript(c: Constants, path: string, content: string, b: Blocks, hostOf: string -> string,
                          script: seq<Stmt>)
    requires ComponentName(path).Ok? && ScriptContent(b) != ""
    requires CompileAnalogFile(c, path, content, b, hostOf, script).Ok?
    ensures var r := CompileAnalogFile(c, path, content, b, hostOf, script).value;
      && r.kind == (if IsMarkdown(content) || Trim(b.template.GetOr("")) != "" || Contains(ScriptContent(b), "templateUrl")
                    then Component else Directive)
      && r.className == EntityName(ToClassName(ComponentName(path).value), r.kind)
  {
    var name := ComponentName(path).value;
    var isMarkdown := IsMarkdown(content);
    var template := TemplateContent(b, isMarkdown);
    var kind := EntityType(path, isMarkdown, template, ScriptContent(b)).value;
    var items := ComponentItems(path, isMarkdown, template, StyleContent(b), TemplateAttributeString(b), hostOf);
    var skeleton := Skeleton(kind, ToFileName(name), ToClassName(name), items);
    assert CompileAnalogFile(c, path, content, b, hostOf, script) == ScriptResult(c, skeleton, script);
    ScriptKeepsDeclaration(c, skeleton, script);
  }
}
