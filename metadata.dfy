/** Merges into the decorator metadata object (`processArrayLiteralMetadata`, `processMetadata`): the
    metadata is an ordered list of properties, looked up by name from the front as `getProperty` does. */
module Metadata {
  import opened Wrappers
  import opened Strings
  import opened Syntax
  import opened Output

  /** `getProperty(name)`: the position of the first property with that name. */
  function FindProperty(meta: seq<MetaEntry>, name: string): (r: Option<nat>)
    ensures r.Some? ==> r.value < |meta| && meta[r.value].name == name
    ensures r.Some? ==> forall j :: 0 <= j < r.value ==> meta[j].name != name
    ensures r.None? ==> forall j :: 0 <= j < |meta| ==> meta[j].name != name
  {
    if |meta| == 0 then None
    else if meta[0].name == name then Some(0)
    else
      match FindProperty(meta[1..], name)
      case None => None
      case Some(k) => Some(k + 1)
  }

  /** The items of the array held by the first property called `name`; none when it is missing. */
  function ArrayItems(meta: seq<MetaEntry>, name: string): seq<string> {
    match FindProperty(meta, name)
    case None => []
    case Some(k) => if meta[k].value.ArrayValue? then meta[k].value.items else []
  }

  /** The first property called `name` is missing or holds an array literal. */
  predicate AcceptsItems(meta: seq<MetaEntry>, name: string) {
    FindProperty(meta, name).None? || meta[FindProperty(meta, name).value].value.ArrayValue?
  }

  /** `processArrayLiteralMetadata`: the property is created as `[]` when missing, then `items` are added
      to its array literal; a property that holds something else is left alone. */
  function ArrayMerged(meta: seq<MetaEntry>, name: string, items: seq<string>): seq<MetaEntry> {
    // When the property is missing it is added at the end, so the lookup that follows finds it there.
    var withKey := if FindProperty(meta, name).None? then meta + [MetaEntry(name, ArrayValue([]))] else meta;
    var k := if FindProperty(meta, name).None? then |meta| else FindProperty(meta, name).value;
    match withKey[k].value
    case ArrayValue(xs) => withKey[k := MetaEntry(name, ArrayValue(xs + items))]
    case TextValue(_) => withKey
  }

  lemma FindAfterAppend(meta: seq<MetaEntry>, e: MetaEntry, name: string)
    requires FindProperty(meta, name).None? && e.name == name
    ensures FindProperty(meta + [e], name) == Some(|meta|)
  {
    assert (meta + [e])[|meta|].name == name;
    assert forall j :: 0 <= j < |meta| ==> (meta + [e])[j] == meta[j];
  }

  lemma FindAfterUpdate(meta: seq<MetaEntry>, k: nat, e: MetaEntry, name: string)
    requires FindProperty(meta, name) == Some(k) && e.name == name
    ensures FindProperty(meta[k := e], name) == Some(k)
  {
    assert meta[k := e][k].name == name;
    assert forall j :: 0 <= j < k ==> meta[k := e][j] == meta[j];
  }

  /** Merging appends the items, in order and without removing duplicates, to the array of the first
      property with that name, creating that property at the end when it is missing; every other
      property keeps its place and value. */
  lemma {:induction false} ArrayMergeAppends(meta: seq<MetaEntry>, name: string, items: seq<string>)
    requires AcceptsItems(meta, name)
    ensures var r := ArrayMerged(meta, name, items);
      && AcceptsItems(r, name)
      && FindProperty(r, name).Some?
      && ArrayItems(r, name) == ArrayItems(meta, name) + items
      && |r| == |meta| + (if FindProperty(meta, name).None? then 1 else 0)
      && (forall j :: 0 <= j < |meta| && Some(j) != FindProperty(meta, name) ==> r[j] == meta[j])
  {
    var r := ArrayMerged(meta, name, items);
    match FindProperty(meta, name)
    case None =>
      var withKey := meta + [MetaEntry(name, ArrayValue([]))];
      FindAfterAppend(meta, MetaEntry(name, ArrayValue([])), name);
      assert [] + items == items;
      assert r == withKey[|meta| := MetaEntry(name, ArrayValue(items))];
      FindAfterUpdate(withKey, |meta|, MetaEntry(name, ArrayValue(items)), name);
    case Some(k) =>
      var xs := meta[k].value.items;
      assert r == meta[k := MetaEntry(name, ArrayValue(xs + items))];
      FindAfterUpdate(meta, k, MetaEntry(name, ArrayValue(xs + items)), name);
  }

  /** The two shapes a merge takes on metadata that accepts items. */
  lemma ArrayMergedShape(meta: seq<MetaEntry>, name: string, items: seq<string>)
    requires AcceptsItems(meta, name)
    ensures FindProperty(meta, name).None? ==>
              ArrayMerged(meta, name, items) == meta + [MetaEntry(name, ArrayValue(items))]
    ensures FindProperty(meta, name).Some? ==>
              var k := FindProperty(meta, name).value;
              ArrayMerged(meta, name, items) == meta[k := MetaEntry(name, ArrayValue(meta[k].value.items + items))]
  {
    assert [] + items == items;
  }

  lemma FindAfterAppendOther(meta: seq<MetaEntry>, e: MetaEntry, other: string)
    requires e.name != other
    ensures FindProperty(meta + [e], other) == FindProperty(meta, other)
  {
    assert forall j :: 0 <= j < |meta| ==> (meta + [e])[j] == meta[j];
    match FindProperty(meta, other)
    case None =>
    case Some(k) =>
      assert (meta + [e])[k].name == other;
  }

  lemma FindAfterUpdateOther(meta: seq<MetaEntry>, k: nat, e: MetaEntry, other: string)
    requires k < |meta| && e.name == meta[k].name && e.name != other
    ensures FindProperty(meta[k := e], other) == FindProperty(meta, other)
  {
    assert forall j :: 0 <= j < |meta| && j != k ==> meta[k := e][j] == meta[j];
    match FindProperty(meta, other)
    case None =>
    case Some(i) =>
      assert meta[k := e][i].name == other;
  }

  /** Merging into one name leaves what another name holds as it was. */
  lemma ArrayMergeOtherName(meta: seq<MetaEntry>, name: string, other: string, items: seq<string>)
    requires name != other && AcceptsItems(meta, name)
    ensures FindProperty(ArrayMerged(meta, name, items), other) == FindProperty(meta, other)
    ensures ArrayItems(ArrayMerged(meta, name, items), other) == ArrayItems(meta, other)
    ensures AcceptsItems(ArrayMerged(meta, name, items), other) == AcceptsItems(meta, other)
  {
    ArrayMergedShape(meta, name, items);
    var r := ArrayMerged(meta, name, items);
    match FindProperty(meta, name) {
      case None =>
        FindAfterAppendOther(meta, MetaEntry(name, ArrayValue(items)), other);
        if FindProperty(meta, other).Some? {
          var i := FindProperty(meta, other).value;
          assert r[i] == meta[i];
        }
      case Some(k) =>
        var e := MetaEntry(name, ArrayValue(meta[k].value.items + items));
        FindAfterUpdateOther(meta, k, e, other);
        if FindProperty(meta, other).Some? {
          var i := FindProperty(meta, other).value;
          assert i != k;
          assert r[i] == meta[i];
        }
    }
  }

  /** Merging twice appends both times: merging `a` then `b` is merging `a + b`. */
  lemma ArrayMergeTwice(meta: seq<MetaEntry>, name: string, a: seq<string>, b: seq<string>)
    requires AcceptsItems(meta, name)
    ensures ArrayMerged(ArrayMerged(meta, name, a), name, b) == ArrayMerged(meta, name, a + b)
  {
    ArrayMergedShape(meta, name, a);
    ArrayMergedShape(meta, name, a + b);
    var once := ArrayMerged(meta, name, a);
    match FindProperty(meta, name)
    case None =>
      FindAfterAppend(meta, MetaEntry(name, ArrayValue(a)), name);
      ArrayMergedShape(once, name, b);
      assert once[|meta| := MetaEntry(name, ArrayValue(a + b))] == meta + [MetaEntry(name, ArrayValue(a + b))];
    case Some(k) =>
      var xs := meta[k].value.items;
      FindAfterUpdate(meta, k, MetaEntry(name, ArrayValue(xs + a)), name);
      ArrayMergedShape(once, name, b);
      assert xs + a + b == xs + (a + b);
  }

  /** Merging no items into an existing array property changes nothing (the compiler skips empty lists,
      since on a missing property it would still add `name: []`). */
  lemma ArrayMergeNothing(meta: seq<MetaEntry>, name: string)
    ensures FindProperty(meta, name).Some? ==> ArrayMerged(meta, name, []) == meta
    ensures FindProperty(meta, name).None? ==> ArrayMerged(meta, name, []) == meta + [MetaEntry(name, ArrayValue([]))]
  {
    match FindProperty(meta, name)
    case None =>
      var none: seq<string> := [];
      assert none + none == none;
    case Some(k) =>
      if meta[k].value.ArrayValue? {
        assert meta[k].value.items + [] == meta[k].value.items;
        assert meta[k := MetaEntry(name, ArrayValue(meta[k].value.items))] == meta;
      }
  }

  // ---------------------------------------------------------------------------------------------
  // processMetadata
  // ---------------------------------------------------------------------------------------------

  /** A property assignment of the `defineMetadata` argument that the compiler merges: its name, the
      value its initializer's text adds to the metadata, and that text. */
  datatype MetaAssignment = MetaAssignment(name: string, value: MetaValue, text: string)

  /** The metadata value that adding the assignment's text produces: an array literal stays one. */
  function ValueOf(e: Expr): MetaValue {
    if e.ArrayLit? then ArrayValue(seq(|e.elements|, i requires 0 <= i < |e.elements| => Render(e.elements[i])))
    else TextValue(Render(e))
  }

  /** The assignment `name: e` as the compiler reads it. */
  function AssignmentOf(name: string, e: Expr): MetaAssignment {
    MetaAssignment(name, ValueOf(e), Render(e))
  }

  predicate IsNotBracket(c: char) { c != '[' && c != ']' }

  /** The `exposes` text with its brackets removed, split on commas, each piece trimmed. */
  function ExposedNames(text: string): (r: seq<string>)
    ensures |r| >= 1
  {
    var pieces := Split(Keep(text, IsNotBracket), ',');
    seq(|pieces|, i requires 0 <= i < |pieces| => Trim(pieces[i]))
  }

  /** An exposed name becomes a protected read-only property initialised with that name. */
  function ExposedProperty(name: string): ClassProperty {
    ClassProperty(name, Written(name), Protected, true)
  }

  function ExposedProperties(names: seq<string>): (r: seq<ClassProperty>)
    ensures |r| == |names|
    ensures forall i :: 0 <= i < |names| ==> r[i] == ExposedProperty(names[i])
  {
    seq(|names|, i requires 0 <= i < |names| => ExposedProperty(names[i]))
  }

  /** The metadata without its first property called `name`. */
  function RemoveFirst(meta: seq<MetaEntry>, name: string): seq<MetaEntry> {
    match FindProperty(meta, name)
    case None => meta
    case Some(k) => meta[..k] + meta[k + 1..]
  }

  /** One step of `processMetadata`: the new metadata and the class properties to add. `selector` replaces
      the existing selector, `exposes` adds class properties, any other property is added at the end. */
  function ApplyAssignment(meta: seq<MetaEntry>, a: MetaAssignment): (seq<MetaEntry>, seq<ClassProperty>) {
    if a.name == "selector" then
      (RemoveFirst(meta, "selector") + [MetaEntry("selector", a.value)], [])
    else if a.name == "exposes" then
      (meta, ExposedProperties(ExposedNames(a.text)))
    else
      (meta + [MetaEntry(a.name, a.value)], [])
  }

  /** `processMetadata` over the first `n` assignments, in order. */
  function ApplyFirst(meta: seq<MetaEntry>, props: seq<MetaAssignment>, n: nat): (seq<MetaEntry>, seq<ClassProperty>)
    requires n <= |props|
  {
    if n == 0 then (meta, [])
    else
      var before := ApplyFirst(meta, props, n - 1);
      var step := ApplyAssignment(before.0, props[n - 1]);
      (step.0, before.1 + step.1)
  }

  /** `processMetadata` over a list of assignments, in order. */
  function ApplyAssignments(meta: seq<MetaEntry>, props: seq<MetaAssignment>): (seq<MetaEntry>, seq<ClassProperty>) {
    ApplyFirst(meta, props, |props|)
  }

  function CountName(meta: seq<MetaEntry>, name: string): nat {
    if meta == [] then 0 else (if meta[0].name == name then 1 else 0) + CountName(meta[1..], name)
  }

  /** The properties not called `name`, in order. */
  function Without(meta: seq<MetaEntry>, name: string): seq<MetaEntry> {
    if meta == [] then [] else (if meta[0].name == name then [] else [meta[0]]) + Without(meta[1..], name)
  }

  lemma {:induction false} CountAndWithoutAppend(a: seq<MetaEntry>, b: seq<MetaEntry>, name: string)
    ensures CountName(a + b, name) == CountName(a, name) + CountName(b, name)
    ensures Without(a + b, name) == Without(a, name) + Without(b, name)
  {
    if a != [] {
      assert (a + b)[1..] == a[1..] + b;
      CountAndWithoutAppend(a[1..], b, name);
    } else {
      assert a + b == b;
    }
  }

  lemma {:induction false} CountAndWithoutAbsent(meta: seq<MetaEntry>, name: string)
    requires forall j :: 0 <= j < |meta| ==> meta[j].name != name
    ensures CountName(meta, name) == 0 && Without(meta, name) == meta
  {
    if meta != [] {
      CountAndWithoutAbsent(meta[1..], name);
      assert [meta[0]] + meta[1..] == meta;
    }
  }

  /** A `selector` given to `defineMetadata` replaces the selector: afterwards there is exactly one,
      holding the new value, and the other properties keep their order. */
  lemma SelectorReplaced(meta: seq<MetaEntry>, value: MetaValue, text: string)
    requires CountName(meta, "selector") <= 1
    ensures var r := ApplyAssignment(meta, MetaAssignment("selector", value, text)).0;
      && CountName(r, "selector") == 1
      && r[|r| - 1] == MetaEntry("selector", value)
      && Without(r, "selector") == Without(meta, "selector")
  {
    var entry := MetaEntry("selector", value);
    var removed := RemoveFirst(meta, "selector");
    RemoveFirstSpec(meta, "selector");
    CountAndWithoutAppend(removed, [entry], "selector");
    assert Without([entry], "selector") == [] && CountName([entry], "selector") == 1;
  }

  /** Removing the first property called `name` removes one of them, if there is one, and nothing else. */
  lemma RemoveFirstSpec(meta: seq<MetaEntry>, name: string)
    ensures CountName(RemoveFirst(meta, name), name) == if CountName(meta, name) > 0 then CountName(meta, name) - 1 else 0
    ensures Without(RemoveFirst(meta, name), name) == Without(meta, name)
  {
    match FindProperty(meta, name)
    case None =>
      CountAndWithoutAbsent(meta, name);
    case Some(k) =>
      assert meta == meta[..k] + [meta[k]] + meta[k + 1..];
      CountAndWithoutAppend(meta[..k] + [meta[k]], meta[k + 1..], name);
      CountAndWithoutAppend(meta[..k], [meta[k]], name);
      CountAndWithoutAppend(meta[..k], meta[k + 1..], name);
      CountAndWithoutAbsent(meta[..k], name);
      assert CountName([meta[k]], name) == 1 && Without([meta[k]], name) == [];
  }

  predicate NoBracket(s: string) {
    forall j :: 0 <= j < |s| ==> IsNotBracket(s[j])
  }

  lemma {:induction false} JoinNoBrackets(parts: seq<string>, sep: string)
    requires forall i :: 0 <= i < |parts| ==> NoBracket(parts[i])
    requires NoBracket(sep)
    ensures NoBracket(Join(parts, sep))
  {
    if |parts| > 1 {
      JoinNoBrackets(parts[1..], sep);
      var rest := Join(parts[1..], sep);
      var whole := Join(parts, sep);
      assert whole == parts[0] + sep + rest;
      forall j | 0 <= j < |whole| ensures IsNotBracket(whole[j]) {
        if j < |parts[0]| {
          assert whole[j] == parts[0][j];
        } else if j < |parts[0]| + |sep| {
          assert whole[j] == sep[j - |parts[0]|];
        } else {
          assert whole[j] == rest[j - |parts[0]| - |sep|];
        }
      }
    }
  }

  /** Each name after the first preceded by one space. */
  function Spaced(names: seq<string>): (r: seq<string>)
    requires |names| >= 1
    ensures |r| == |names| && r[0] == names[0]
    ensures forall i :: 1 <= i < |names| ==> r[i] == " " + names[i]
  {
    [names[0]] + seq(|names| - 1, i requires 0 <= i < |names| - 1 => " " + names[i + 1])
  }

  lemma {:induction false} JoinCommaSpace(names: seq<string>)
    requires |names| >= 1
    ensures Join(names, ", ") == Join(Spaced(names), ",")
  {
    if |names| > 1 {
      JoinCommaSpace(names[1..]);
      var sp := Spaced(names[1..]);
      var whole := Spaced(names);
      assert whole[1..] == [" " + sp[0]] + sp[1..];
      JoinPrefixFirst(sp, " ", ",");
      assert Join(whole, ",") == names[0] + "," + Join(whole[1..], ",");
      assert names[0] + "," + (" " + Join(sp, ",")) == names[0] + ", " + Join(sp, ",");
    }
  }

  /** Text put before the first piece comes first in the joined text. */
  lemma JoinPrefixFirst(parts: seq<string>, x: string, sep: string)
    requires |parts| >= 1
    ensures Join([x + parts[0]] + parts[1..], sep) == x + Join(parts, sep)
  {
    var q := [x + parts[0]] + parts[1..];
    if |parts| > 1 {
      assert q[1..] == parts[1..];
      assert x + parts[0] + sep + Join(parts[1..], sep) == x + (parts[0] + sep + Join(parts[1..], sep));
    }
  }

  /** A name with no white space at either end. */
  predicate IsTrimmed(s: string) {
    s == [] || (!IsJsSpace(s[0]) && !IsJsSpace(s[|s| - 1]))
  }

  /** The identifiers with the given names. */
  function Identifiers(names: seq<string>): (r: seq<Expr>)
    ensures |r| == |names|
    ensures forall i :: 0 <= i < |names| ==> r[i] == Ident(names[i])
  {
    seq(|names|, i requires 0 <= i < |names| => Ident(names[i]))
  }

  lemma RenderIdentifierArray(names: seq<string>)
    ensures Render(ArrayLit(Identifiers(names))) == "[" + Join(names, ", ") + "]"
  {
    var es := Identifiers(names);
    assert seq(|es|, i requires 0 <= i < |es| => Render(es[i])) == names;
  }

  lemma StripBrackets(joined: string)
    requires NoBracket(joined)
    ensures Keep("[" + joined + "]", IsNotBracket) == joined
  {
    KeepAppend("[" + joined, "]", IsNotBracket);
    KeepAppend("[", joined, IsNotBracket);
    KeepAll(joined, IsNotBracket);
  }

  lemma SplitCommaSpace(names: seq<string>)
    requires |names| >= 1
    requires forall i :: 0 <= i < |names| ==> ',' !in names[i]
    ensures Split(Join(names, ", "), ',') == Spaced(names)
  {
    JoinCommaSpace(names);
    var sp := Spaced(names);
    forall i | 0 <= i < |sp| ensures ',' !in sp[i] {
      if i > 0 {
        NoCommaAfterSpace(names[i]);
      }
    }
    SplitJoin(sp, ',');
  }

  lemma NoCommaAfterSpace(n: string)
    requires ',' !in n
    ensures ',' !in " " + n
  {
    var s := " " + n;
    assert s == [' '] + n;
    assert forall c :: c in s ==> c == ' ' || c in n;
  }

  lemma TrimAfterSpace(n: string)
    requires IsTrimmed(n)
    ensures Trim(" " + n) == n
  {
    assert (" " + n)[1..] == n;
    assert TrimStart(" " + n) == TrimStart(n);
    TrimFixesTrimmed(n);
  }

  /** A name that survives the `exposes` parsing: no comma, no bracket, no white space at either end. */
  predicate IsExposableName(n: string) {
    IsTrimmed(n) && ',' !in n && NoBracket(n)
  }

  lemma TrimSpacedAt(names: seq<string>, i: nat)
    requires i < |names| && IsTrimmed(names[i])
    ensures Trim(Spaced(names)[i]) == names[i]
  {
    if i > 0 {
      TrimAfterSpace(names[i]);
    } else {
      TrimFixesTrimmed(names[i]);
    }
  }

  lemma {:induction false} TrimSpaced(names: seq<string>)
    requires |names| >= 1
    requires forall i :: 0 <= i < |names| ==> IsTrimmed(names[i])
    ensures forall i :: 0 <= i < |names| ==> Trim(Spaced(names)[i]) == names[i]
  {
    forall i | 0 <= i < |names| ensures Trim(Spaced(names)[i]) == names[i] {
      TrimSpacedAt(names, i);
    }
  }

  /** Rendering a list of identifiers as the `exposes` array and parsing it back gives the names. */
  lemma {:induction false} ExposesRoundTrip(names: seq<string>)
    requires |names| >= 1
    requires forall i :: 0 <= i < |names| ==> IsExposableName(names[i])
    ensures ExposedNames(Render(ArrayLit(Identifiers(names)))) == names
  {
    var text := Render(ArrayLit(Identifiers(names)));
    var joined := Join(names, ", ");
    RenderIdentifierArray(names);
    JoinNoBrackets(names, ", ");
    StripBrackets(joined);
    assert Keep(text, IsNotBracket) == joined;
    SplitCommaSpace(names);
    TrimSpaced(names);
    var sp := Spaced(names);
    assert seq(|sp|, i requires 0 <= i < |sp| => Trim(sp[i])) == names;
  }

  /** An empty `exposes` array still yields one property, with an empty name. */
  lemma EmptyExposesGivesEmptyName()
    ensures ExposedNames("[]") == [""]
  {
    assert Keep("[]", IsNotBracket) == "";
  }
}
