/** The member registry of the script pass: a JavaScript `Map` from binding name to class member, kept
    as the sequence of its entries in insertion order. `Set` on a name already present replaces the
    entry where it stands, as `Map.prototype.set` does. */
module Registry {
  import opened Wrappers
  import opened Syntax

  /** How a destructured element is read from its virtual member: by property name, or by position in
      an array pattern. */
  datatype Key = Named(name: string) | Index(position: nat)

  /** A member's initializer: none, a script expression, or one the compiler writes itself for a
      destructured element (`this.<virtual><key>`, with its default) or a rest element (an IIFE that
      destructures the virtual member again and returns the rest binding). */
  datatype Initializer =
    | NoInitializer
    | FromExpression(e: Expr)
    | ElementOf(virtualName: string, key: Key, default: Option<Expr>)
    | RestOf(patternText: string, virtualName: string, bindingName: string)

  /** A declaration's initializer as a member initializer. */
  function InitializerOf(init: Option<Expr>): (r: Initializer)
    ensures init.None? <==> r == NoInitializer
    ensures init.Some? ==> r == FromExpression(init.value)
  {
    match init
    case None => NoInitializer
    case Some(e) => FromExpression(e)
  }

  datatype ClassMember = ClassMember(
    name: string,
    init: Initializer,
    hasExportKeyword: bool,
    isLet: bool,
    isVirtual: bool)

  /** The position of the entry for `name`. */
  function Find(reg: seq<ClassMember>, name: string): (r: Option<nat>)
    ensures r.Some? ==> r.value < |reg| && reg[r.value].name == name
    ensures r.Some? ==> forall j :: 0 <= j < r.value ==> reg[j].name != name
    ensures r.None? <==> forall j :: 0 <= j < |reg| ==> reg[j].name != name
  {
    if |reg| == 0 then None
    else if reg[0].name == name then Some(0)
    else
      match Find(reg[1..], name)
      case None => None
      case Some(k) => Some(k + 1)
  }

  /** `Map.prototype.get`. */
  function Get(reg: seq<ClassMember>, name: string): Option<ClassMember> {
    match Find(reg, name)
    case None => None
    case Some(k) => Some(reg[k])
  }

  /** The keys of the map (`Map.prototype.has` is membership). */
  function Names(reg: seq<ClassMember>): set<string> {
    set m | m in reg :: m.name
  }

  /** No name has two entries. */
  predicate UniqueNames(reg: seq<ClassMember>) {
    forall i, j :: 0 <= i < j < |reg| ==> reg[i].name != reg[j].name
  }

  /** `Map.prototype.set`: replace the entry in place, or add it at the end. */
  function Set(reg: seq<ClassMember>, m: ClassMember): seq<ClassMember> {
    match Find(reg, m.name)
    case None => reg + [m]
    case Some(k) => reg[k := m]
  }

  lemma FindInUnique(reg: seq<ClassMember>, k: nat)
    requires UniqueNames(reg) && k < |reg|
    ensures Find(reg, reg[k].name) == Some(k)
  {
    assert Find(reg, reg[k].name).Some?;
  }

  /** After `set`, `get` of that name gives the new member (last write wins) and every other name is
      looked up as before. */
  lemma SetThenGet(reg: seq<ClassMember>, m: ClassMember)
    ensures Get(Set(reg, m), m.name) == Some(m)
    ensures forall n :: n != m.name ==> Get(Set(reg, m), n) == Get(reg, n)
  {
    var r := Set(reg, m);
    match Find(reg, m.name)
    case None =>
      assert r[|reg|].name == m.name;
      assert forall j :: 0 <= j < |reg| ==> r[j] == reg[j];
    case Some(k) =>
      assert r[k].name == m.name;
      assert forall j :: 0 <= j < k ==> r[j] == reg[j];
    forall n | n != m.name ensures Get(r, n) == Get(reg, n) {
      GetIgnoresOtherName(reg, m, n);
    }
  }

  lemma GetIgnoresOtherName(reg: seq<ClassMember>, m: ClassMember, n: string)
    requires n != m.name
    ensures Get(Set(reg, m), n) == Get(reg, n)
  {
    match Find(reg, m.name)
    case None =>
      FindAppendOther(reg, m, n);
      if Find(reg, n).Some? {
        assert (reg + [m])[Find(reg, n).value] == reg[Find(reg, n).value];
      }
    case Some(k) =>
      FindUpdateOther(reg, k, m, n);
  }

  lemma FindAppendOther(reg: seq<ClassMember>, m: ClassMember, n: string)
    requires n != m.name
    ensures Find(reg + [m], n) == Find(reg, n)
  {
    var r := reg + [m];
    assert forall j :: 0 <= j < |reg| ==> r[j] == reg[j];
    assert r[|reg|] == m;
  }

  lemma FindUpdateOther(reg: seq<ClassMember>, k: nat, m: ClassMember, n: string)
    requires k < |reg| && reg[k].name != n && n != m.name
    ensures Find(reg[k := m], n) == Find(reg, n)
  {
    var r := reg[k := m];
    assert forall j :: 0 <= j < |reg| && j != k ==> r[j] == reg[j];
  }

  /** `set` keeps the order of the map: a present name keeps its position and the size is unchanged; a
      new name goes at the end. */
  lemma SetKeepsOrder(reg: seq<ClassMember>, m: ClassMember)
    ensures m.name in Names(reg) ==>
              |Set(reg, m)| == |reg| && Find(Set(reg, m), m.name) == Find(reg, m.name)
              && forall j :: 0 <= j < |reg| && reg[j].name != m.name ==> Set(reg, m)[j] == reg[j]
    ensures m.name !in Names(reg) ==> Set(reg, m) == reg + [m]
  {
    match Find(reg, m.name)
    case None =>
      assert forall x :: x in reg ==> x.name != m.name;
    case Some(k) =>
      var r := Set(reg, m);
      assert r[k].name == m.name;
      assert forall j :: 0 <= j < k ==> r[j] == reg[j];
  }

  /** `set` adds exactly its name to the keys and keeps the names unique. */
  lemma SetNames(reg: seq<ClassMember>, m: ClassMember)
    ensures Names(Set(reg, m)) == Names(reg) + {m.name}
    ensures UniqueNames(reg) ==> UniqueNames(Set(reg, m))
  {
    var r := Set(reg, m);
    match Find(reg, m.name)
    case None =>
      assert r == reg + [m];
      assert Names(r) == Names(reg) + {m.name} by {
        forall x | x in Names(r) ensures x in Names(reg) + {m.name} {
          var y :| y in r && y.name == x;
        }
        forall x | x in Names(reg) + {m.name} ensures x in Names(r) {
          if x != m.name {
            var y :| y in reg && y.name == x;
            assert y in r;
          } else {
            assert r[|reg|] == m;
          }
        }
      }
    case Some(k) =>
      assert Names(r) == Names(reg) + {m.name} by {
        forall x | x in Names(r) ensures x in Names(reg) + {m.name} {
          var y :| y in r && y.name == x;
        }
        forall x | x in Names(reg) + {m.name} ensures x in Names(r) {
          var y :| y in reg && y.name == x;
          var j :| 0 <= j < |reg| && reg[j] == y;
          if j == k {
            assert r[k].name == reg[k].name;
          } else {
            assert r[j] == y;
          }
        }
      }
  }
}
