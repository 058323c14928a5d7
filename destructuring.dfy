/** Lowering of a destructuring declaration: the pattern's initializer becomes a hidden virtual member
    `__destructured<n>`, and each binding element becomes a member read from it. */
module Destructuring {
  import opened Wrappers
  import opened Strings
  import opened Syntax
  import opened Registry

  // ---------------------------------------------------------------------------------------------
  // Virtual member names
  // ---------------------------------------------------------------------------------------------

  function DigitChar(d: nat): (c: char)
    requires d < 10
    ensures IsDigit(c)
  {
    ('0' as int + d) as char
  }

  function DigitValue(c: char): nat
    requires IsDigit(c)
  {
    c as int - '0' as int
  }

  /** The decimal text of a counter value, as a template literal prints it. */
  function DecimalString(n: nat): (r: string)
    ensures |r| >= 1
    ensures forall i :: 0 <= i < |r| ==> IsDigit(r[i])
  {
    if n < 10 then [DigitChar(n)] else DecimalString(n / 10) + [DigitChar(n % 10)]
  }

  function DecimalValue(s: string): nat
    requires forall i :: 0 <= i < |s| ==> IsDigit(s[i])
  {
    if s == [] then 0 else DecimalValue(s[..|s| - 1]) * 10 + DigitValue(s[|s| - 1])
  }

  /** Reading the decimal text back gives the number. */
  lemma {:induction false} DecimalRoundTrip(n: nat)
    ensures DecimalValue(DecimalString(n)) == n
  {
    if n >= 10 {
      DecimalRoundTrip(n / 10);
      var s := DecimalString(n);
      assert s[..|s| - 1] == DecimalString(n / 10);
    }
  }

  /** The name of the virtual member of the `k`-th destructuring declaration. */
  function VirtualName(k: nat): string {
    "__destructured" + DecimalString(k)
  }

  /** Different counter values give different virtual names. */
  lemma VirtualNamesDistinct(j: nat, k: nat)
    requires j != k
    ensures VirtualName(j) != VirtualName(k)
  {
    if VirtualName(j) == VirtualName(k) {
      var p := "__destructured";
      assert VirtualName(j)[|p|..] == DecimalString(j);
      assert VirtualName(k)[|p|..] == DecimalString(k);
      DecimalRoundTrip(j);
      DecimalRoundTrip(k);
    }
  }

  // ---------------------------------------------------------------------------------------------
  // Element members
  // ---------------------------------------------------------------------------------------------

  /** The key the compiler as written reads an element with: `propertyName ?? name`, in array patterns
      too, where an element has no property name. */
  function ElementKeyAsWritten(el: BindingElement): Key {
    Named(el.propertyName.GetOr(el.name))
  }

  /** The key an element is read with: its position in an array pattern, `propertyName ?? name` in an
      object pattern. */
  function ElementKey(isArray: bool, el: BindingElement): (r: Key)
    ensures isArray ==> r == Index(el.position)
    ensures !isArray ==> r == ElementKeyAsWritten(el)
  {
    if isArray then Index(el.position) else Named(el.propertyName.GetOr(el.name))
  }

  /** The member registered for one binding element: a rest element reads the rest of the pattern, any
      other element reads its key from the virtual member. */
  function ElementMember(virtualName: string, isArray: bool, patternText: string, el: BindingElement): (m: ClassMember)
    ensures m.name == el.name && !m.isLet && !m.hasExportKeyword && !m.isVirtual
  {
    if el.isRest then ClassMember(el.name, RestOf(patternText, virtualName, el.name), false, false, false)
    else ClassMember(el.name, ElementOf(virtualName, ElementKey(isArray, el), el.default), false, false, false)
  }

  /** The registry after the elements' members are set, in order. */
  function RegisterElements(reg: seq<ClassMember>, virtualName: string, isArray: bool, patternText: string,
                            els: seq<BindingElement>): seq<ClassMember>
  {
    if els == [] then reg
    else Set(RegisterElements(reg, virtualName, isArray, patternText, els[..|els| - 1]),
             ElementMember(virtualName, isArray, patternText, els[|els| - 1]))
  }

  /** The loop over the binding elements. */
  method RegisterBindingElements(reg: seq<ClassMember>, virtualName: string, isArray: bool, patternText: string,
                                 els: seq<BindingElement>) returns (r: seq<ClassMember>)
    ensures r == RegisterElements(reg, virtualName, isArray, patternText, els)
  {
    r := reg;
    for i := 0 to |els|
      invariant r == RegisterElements(reg, virtualName, isArray, patternText, els[..i])
    {
      assert els[..i + 1][..i] == els[..i];
      var el := els[i];
      if el.isRest {
        r := Set(r, ClassMember(el.name, RestOf(patternText, virtualName, el.name), false, false, false));
        continue;
      }
      r := Set(r, ClassMember(el.name, ElementOf(virtualName, ElementKey(isArray, el), el.default), false, false, false));
    }
    assert els[..|els|] == els;
  }

  /** A declaration's lowering: nothing for an empty pattern; otherwise the counter goes up by one, the
      virtual member holding the initializer is set, then the elements. */
  function Destructure(reg: seq<ClassMember>, count: nat, init: Option<Expr>, isArray: bool, patternText: string,
                       els: seq<BindingElement>): (seq<ClassMember>, nat)
  {
    if els == [] then (reg, count)
    else
      var v := VirtualName(count + 1);
      var withVirtual := Set(reg, ClassMember(v, InitializerOf(init), false, false, true));
      (RegisterElements(withVirtual, v, isArray, patternText, els), count + 1)
  }

  /** The names the elements of a pattern bind. */
  function ElementNames(els: seq<BindingElement>): set<string> {
    set el | el in els :: el.name
  }

  lemma ElementNamesSnoc(els: seq<BindingElement>)
    requires els != []
    ensures ElementNames(els) == ElementNames(els[..|els| - 1]) + {els[|els| - 1].name}
  {
    var init := els[..|els| - 1];
    assert els == init + [els[|els| - 1]];
    forall x | x in ElementNames(els) ensures x in ElementNames(init) + {els[|els| - 1].name} {
      var el :| el in els && el.name == x;
    }
    forall x | x in ElementNames(init) + {els[|els| - 1].name} ensures x in ElementNames(els) {
      if x != els[|els| - 1].name {
        var el :| el in init && el.name == x;
        assert el in els;
      }
    }
  }

  /** The registry names after the elements are set: the old ones and each element's. */
  lemma {:induction false} RegisterElementsNames(reg: seq<ClassMember>, v: string, isArray: bool, patternText: string,
                                                 els: seq<BindingElement>)
    ensures Names(RegisterElements(reg, v, isArray, patternText, els)) == Names(reg) + ElementNames(els)
    ensures UniqueNames(reg) ==> UniqueNames(RegisterElements(reg, v, isArray, patternText, els))
  {
    if els != [] {
      var init := els[..|els| - 1];
      RegisterElementsNames(reg, v, isArray, patternText, init);
      SetNames(RegisterElements(reg, v, isArray, patternText, init), ElementMember(v, isArray, patternText, els[|els| - 1]));
      ElementNamesSnoc(els);
    }
  }

  /** A name no element binds is looked up as before. */
  lemma {:induction false} RegisterElementsKeepsOthers(reg: seq<ClassMember>, v: string, isArray: bool, patternText: string,
                                                       els: seq<BindingElement>, n: string)
    requires forall i :: 0 <= i < |els| ==> els[i].name != n
    ensures Get(RegisterElements(reg, v, isArray, patternText, els), n) == Get(reg, n)
  {
    if els != [] {
      var init := els[..|els| - 1];
      assert forall i :: 0 <= i < |init| ==> init[i] == els[i];
      RegisterElementsKeepsOthers(reg, v, isArray, patternText, init, n);
      GetIgnoresOtherName(RegisterElements(reg, v, isArray, patternText, init),
                          ElementMember(v, isArray, patternText, els[|els| - 1]), n);
    }
  }

  /** The member of an element is found under its name unless a later element of the same pattern takes
      that name (the last write wins). */
  lemma {:induction false} RegisterElementsFinds(reg: seq<ClassMember>, v: string, isArray: bool, patternText: string,
                                                 els: seq<BindingElement>, i: nat)
    requires i < |els| && forall j :: i < j < |els| ==> els[j].name != els[i].name
    ensures Get(RegisterElements(reg, v, isArray, patternText, els), els[i].name)
            == Some(ElementMember(v, isArray, patternText, els[i]))
  {
    var init := els[..|els| - 1];
    var before := RegisterElements(reg, v, isArray, patternText, init);
    if i == |els| - 1 {
      SetThenGet(before, ElementMember(v, isArray, patternText, els[i]));
    } else {
      assert forall j :: 0 <= j < |init| ==> init[j] == els[j];
      RegisterElementsFinds(reg, v, isArray, patternText, init, i);
      GetIgnoresOtherName(before, ElementMember(v, isArray, patternText, els[|els| - 1]), els[i].name);
    }
  }

  /** An empty pattern changes nothing; a non-empty one raises the counter by exactly one and registers
      the virtual member (unless an element takes its name) and every element. */
  lemma DestructureSpec(reg: seq<ClassMember>, count: nat, init: Option<Expr>, isArray: bool, patternText: string,
                        els: seq<BindingElement>)
    ensures els == [] ==> Destructure(reg, count, init, isArray, patternText, els) == (reg, count)
    ensures els != [] ==>
              var (reg1, count1) := Destructure(reg, count, init, isArray, patternText, els);
              var v := VirtualName(count + 1);
              && count1 == count + 1
              && Names(reg1) == Names(reg) + {v} + ElementNames(els)
              && (UniqueNames(reg) ==> UniqueNames(reg1))
              && ((forall i :: 0 <= i < |els| ==> els[i].name != v) ==>
                    Get(reg1, v) == Some(ClassMember(v, InitializerOf(init), false, false, true)))
              && (forall i :: 0 <= i < |els| && (forall j :: i < j < |els| ==> els[j].name != els[i].name) ==>
                    Get(reg1, els[i].name) == Some(ElementMember(v, isArray, patternText, els[i])))
  {
    if els != [] {
      var v := VirtualName(count + 1);
      var withVirtual := Set(reg, ClassMember(v, InitializerOf(init), false, false, true));
      SetNames(reg, ClassMember(v, InitializerOf(init), false, false, true));
      SetThenGet(reg, ClassMember(v, InitializerOf(init), false, false, true));
      RegisterElementsNames(withVirtual, v, isArray, patternText, els);
      if forall i :: 0 <= i < |els| ==> els[i].name != v {
        RegisterElementsKeepsOthers(withVirtual, v, isArray, patternText, els, v);
      }
      forall i | 0 <= i < |els| && (forall j :: i < j < |els| ==> els[j].name != els[i].name)
        ensures Get(RegisterElements(withVirtual, v, isArray, patternText, els), els[i].name)
                == Some(ElementMember(v, isArray, patternText, els[i]))
      {
        RegisterElementsFinds(withVirtual, v, isArray, patternText, els, i);
      }
    }
  }

  // ---------------------------------------------------------------------------------------------
  // The generated initializers as text
  // ---------------------------------------------------------------------------------------------

  /** `this.<virtual>.<name>` or `this.<virtual>[<index>]`. */
  function AccessText(virtualName: string, key: Key): string {
    "this." + virtualName
    + match key
      case Named(n) => "." + n
      case Index(i) => "[" + DecimalString(i) + "]"
  }

  /** A destructured element's initializer: the access, or with a default
      `<access> === undefined ? <default> : <access>`. */
  function ElementText(virtualName: string, key: Key, default: Option<Expr>): string {
    var access := AccessText(virtualName, key);
    match default
    case None => access
    case Some(d) => access + " === undefined ? " + Render(d) + " : " + access
  }

  /** A rest element's initializer: an arrow function, called at once, that destructures the virtual
      member with the original pattern and returns the rest binding. */
  function RestText(patternText: string, virtualName: string, bindingName: string): string {
    "(() => {\n  const " + patternText + " = this." + virtualName + ";\n  return " + bindingName + ";\n})()"
  }

  // ---------------------------------------------------------------------------------------------
  // What the generated initializer evaluates to
  // ---------------------------------------------------------------------------------------------

  /** The JavaScript values a destructured initializer can hold, as far as destructuring looks at them. */
  datatype JsValue =
    | Undefined
    | Null
    | Number(n: int)
    | Text(s: string)
    | Object(props: map<string, JsValue>)
    | Array(items: seq<JsValue>)

  /** Reading a property: an object's own property by name, an array's element by position; anything
      missing reads as `undefined`. Inherited properties, an array's `length` and its methods are not
      modelled. */
  function Read(v: JsValue, key: Key): JsValue {
    match v
    case Object(props) =>
      (match key
       case Named(n) => if n in props then props[n] else Undefined
       case Index(i) => var n := DecimalString(i); if n in props then props[n] else Undefined)
    case Array(items) =>
      (match key
       case Index(i) => if i < |items| then items[i] else Undefined
       case Named(_) => Undefined)
    case _ => Undefined
  }

  /** The value of a generated element initializer, given the virtual member's value `v` and the value
      `dv` its default text evaluates to: `p === undefined ? d : p`, or `p` without a default. */
  function EvalElement(v: JsValue, key: Key, hasDefault: bool, dv: JsValue): JsValue {
    var p := Read(v, key);
    if hasDefault && p == Undefined then dv else p
  }

  /** The value standard destructuring binds to a non-rest element (section 14.3.3 of ECMA-262): in an
      object pattern the property `propertyName ?? name`, in an array pattern the element at its
      position (iteration of a plain array); the initializer is used exactly when that value is
      `undefined`. */
  function StandardBinding(v: JsValue, isArray: bool, el: BindingElement, dv: JsValue): JsValue {
    var raw :=
      if isArray then
        (match v
         case Array(items) => if el.position < |items| then items[el.position] else Undefined
         case _ => Undefined)
      else
        (match v
         case Object(props) =>
           var k := el.propertyName.GetOr(el.name);
           if k in props then props[k] else Undefined
         case _ => Undefined);
    if el.default.Some? && raw == Undefined then dv else raw
  }

  /** The member generated for an element holds what destructuring would bind: for an object pattern of
      any value, and for an array pattern of an array. */
  lemma ElementBindsAsDestructuring(v: JsValue, isArray: bool, el: BindingElement, dv: JsValue)
    requires isArray ==> v.Array?
    ensures EvalElement(v, ElementKey(isArray, el), el.default.Some?, dv) == StandardBinding(v, isArray, el, dv)
  {
  }

  /** `const [first] = [1]`: destructuring binds `1`, but the key as written reads `first` from the array,
      which is `undefined`. */
  lemma ArrayElementAsWrittenReadsByName()
    ensures var el := BindingElement("first", None, None, false, 0);
      && StandardBinding(Array([Number(1)]), true, el, Undefined) == Number(1)
      && EvalElement(Array([Number(1)]), ElementKeyAsWritten(el), false, Undefined) == Undefined
      && EvalElement(Array([Number(1)]), ElementKey(true, el), false, Undefined) == Number(1)
  {
  }

  /** A default is used for `undefined` only: `null`, `0` and `''` are kept. */
  lemma DefaultOnlyReplacesUndefined(props: map<string, JsValue>, name: string, dv: JsValue)
    requires name in props && props[name] != Undefined
    ensures EvalElement(Object(props), Named(name), true, dv) == props[name]
    ensures EvalElement(Object(props - {name}), Named(name), true, dv) == dv
  {
  }
}
