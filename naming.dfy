/** The casing utilities that derive the generated class name and the element selector from a file name
    (`toPropertyName`, `toClassName`, `toFileName`, `toCapitalCase`). Each regular-expression replacement
    of the source is one function here, applied in the source's order. */
module Naming {
  import opened Strings

  // ---------------------------------------------------------------------------------------------
  // toPropertyName: hyphenated to lowerCamelCase
  // ---------------------------------------------------------------------------------------------

  /** `replace(/([^a-zA-Z0-9])+(.)?/g, (_, __, chr) => chr ? chr.toUpperCase() : '')`: every maximal run of
      non-alphanumeric characters is dropped and the character after it (always alphanumeric, since the
      run is maximal) is upper-cased. `afterRun` says that the character before `s` closed such a run. */
  function CamelizeRuns(s: string, afterRun: bool): (r: string)
    ensures forall i :: 0 <= i < |r| ==> IsAlnum(r[i])
    ensures |r| <= |s|
  {
    if s == [] then []
    else if !IsAlnum(s[0]) then CamelizeRuns(s[1..], true)
    else [if afterRun then ToUpper(s[0]) else s[0]] + CamelizeRuns(s[1..], false)
  }

  /** `replace(/[^a-zA-Z\d]/g, '')`. */
  function DropNonAlnum(s: string): string {
    Keep(s, IsAlnum)
  }

  /** `replace(/^([A-Z])/, (m) => m.toLowerCase())`. */
  function LowerFirst(s: string): string {
    if s != [] && IsUpper(s[0]) then [ToLower(s[0])] + s[1..] else s
  }

  /** `replace(/^\d+/, '')`. */
  function DropLeadingDigits(s: string): (r: string)
    ensures r == [] || !IsDigit(r[0])
    ensures |r| <= |s| && r == s[|s| - |r|..]
  {
    if s != [] && IsDigit(s[0]) then DropLeadingDigits(s[1..]) else s
  }

  /** `toPropertyName`: the result holds only ASCII letters and digits and never starts with a digit. */
  function ToPropertyName(s: string): (r: string)
    ensures forall i :: 0 <= i < |r| ==> IsAlnum(r[i])
    ensures r == [] || !IsDigit(r[0])
  {
    var camel := CamelizeRuns(s, false);
    var lowered := LowerFirst(DropNonAlnum(camel));
    KeepAll(camel, IsAlnum);
    assert forall i :: 0 <= i < |lowered| ==> IsAlnum(lowered[i]);
    DropLeadingDigits(lowered)
  }

  /** The second replacement of `toPropertyName` never removes anything: the first already leaves only
      letters and digits. */
  lemma SecondPassOfPropertyNameIsIdle(s: string)
    ensures DropNonAlnum(CamelizeRuns(s, false)) == CamelizeRuns(s, false)
  {
    KeepAll(CamelizeRuns(s, false), IsAlnum);
  }

  /** An identifier already in lowerCamelCase is its own property name. */
  lemma {:induction false} PropertyNameFixesCamelCase(s: string)
    requires forall i :: 0 <= i < |s| ==> IsAlnum(s[i])
    requires s == [] || IsLower(s[0])
    ensures ToPropertyName(s) == s
  {
    CamelizeAlnum(s);
    KeepAll(s, IsAlnum);
  }

  lemma {:induction false} CamelizeAlnum(s: string)
    requires forall i :: 0 <= i < |s| ==> IsAlnum(s[i])
    ensures CamelizeRuns(s, false) == s
  {
    if s != [] {
      CamelizeAlnum(s[1..]);
      assert [s[0]] + s[1..] == s;
    }
  }

  // ---------------------------------------------------------------------------------------------
  // toCapitalCase and toClassName
  // ---------------------------------------------------------------------------------------------

  /** `str.charAt(0).toUpperCase() + str.slice(1)`. */
  function ToCapitalCase(s: string): (r: string)
    ensures |r| == |s|
    ensures s != [] ==> r[0] == ToUpper(s[0]) && r[1..] == s[1..]
  {
    if s == [] then [] else [ToUpper(s[0])] + s[1..]
  }

  /** `toClassName`, hyphenated to UpperCamelCase: letters and digits only, starting with an upper-case
      letter unless empty. */
  function ToClassName(s: string): (r: string)
    ensures forall i :: 0 <= i < |r| ==> IsAlnum(r[i])
    ensures r == [] || IsUpper(r[0])
  {
    ToCapitalCase(ToPropertyName(s))
  }

  // ---------------------------------------------------------------------------------------------
  // toFileName: UpperCamelCase to lower-case, hyphenated
  // ---------------------------------------------------------------------------------------------

  /** `replace(/([a-z\d])([A-Z])/g, '$1_$2')`: an underscore between a lower-case letter or digit and the
      upper-case letter after it. Matches never overlap, because the second character of a match (upper
      case) cannot begin another one. */
  function SeparateWords(s: string): string {
    if |s| < 2 then s
    else if (IsLower(s[0]) || IsDigit(s[0])) && IsUpper(s[1]) then [s[0], '_'] + SeparateWords(s[1..])
    else [s[0]] + SeparateWords(s[1..])
  }

  /** `replace(/(?!^[_])[ _]/g, '-')`: every space or underscore becomes a hyphen, except an underscore at
      the very start. `atStart` says that `s` begins the whole string. */
  function Hyphenate(s: string, atStart: bool): (r: string)
    ensures |r| == |s|
  {
    if s == [] then []
    else if (s[0] == ' ' || s[0] == '_') && !(atStart && s[0] == '_') then ['-'] + Hyphenate(s[1..], false)
    else [s[0]] + Hyphenate(s[1..], false)
  }

  /** `replace(/^\d+-?/, '')`: leading digits and one hyphen right after them (so `12-3ab` gives `3ab`). */
  function DropLeadingNumber(s: string): (r: string)
    ensures |r| <= |s| && r == s[|s| - |r|..]
    ensures s == [] || !IsDigit(s[0]) ==> r == s
  {
    if s != [] && IsDigit(s[0]) then
      var rest := DropLeadingDigits(s);
      if rest != [] && rest[0] == '-' then rest[1..] else rest
    else s
  }

  /** `toFileName`. */
  function ToFileName(s: string): string {
    DropLeadingNumber(Hyphenate(LowerAll(SeparateWords(s)), true))
  }

  /** A lower-case hyphenated name (letters, digits and hyphens, not starting with a digit) is its own file
      name: this is the usual case of a route file such as `my-page-2`. */
  lemma FileNameFixesLowerHyphenated(s: string)
    requires forall i :: 0 <= i < |s| ==> IsLower(s[i]) || IsDigit(s[i]) || s[i] == '-'
    requires s == [] || !IsDigit(s[0])
    ensures ToFileName(s) == s
  {
    SeparateWordsNoUpper(s);
    LowerAllNoUpper(s);
    HyphenateNoSeparator(s, true);
  }

  lemma {:induction false} SeparateWordsNoUpper(s: string)
    requires forall i :: 0 <= i < |s| ==> !IsUpper(s[i])
    ensures SeparateWords(s) == s
  {
    if |s| >= 2 {
      SeparateWordsNoUpper(s[1..]);
      assert [s[0]] + s[1..] == s;
    }
  }

  lemma {:induction false} LowerAllNoUpper(s: string)
    requires forall i :: 0 <= i < |s| ==> !IsUpper(s[i])
    ensures LowerAll(s) == s
  {
  }

  lemma {:induction false} HyphenateNoSeparator(s: string, atStart: bool)
    requires forall i :: 0 <= i < |s| ==> s[i] != ' ' && s[i] != '_'
    ensures Hyphenate(s, atStart) == s
  {
    if s != [] {
      HyphenateNoSeparator(s[1..], false);
      assert [s[0]] + s[1..] == s;
    }
  }

  /** A hyphenated lower-case name whose every hyphen is followed by at least two letters. (A one-letter
      word after a hyphen does not survive the round trip below: `a-b-c` gives `aBC` and then `a-bc`.) */
  predicate IsKebab(s: string) {
    && s != [] && IsLower(s[0])
    && KebabTail(s)
  }

  predicate KebabTail(s: string) {
    && (forall i :: 0 <= i < |s| ==> IsLower(s[i]) || s[i] == '-')
    && (forall i :: 0 <= i < |s| && s[i] == '-' ==> i + 2 < |s| && IsLower(s[i + 1]) && IsLower(s[i + 2]))
  }

  /** Every hyphen replaced by an underscore. */
  function Underscored(s: string): (r: string)
    ensures |r| == |s|
  {
    if s == [] then [] else [if s[0] == '-' then '_' else s[0]] + Underscored(s[1..])
  }

  /** `toFileName` undoes `toPropertyName` on such names: `my-page` gives `myPage` and back `my-page`. */
  lemma FileNameInvertsPropertyName(s: string)
    requires IsKebab(s)
    ensures ToPropertyName(s) == CamelizeRuns(s, false)
    ensures ToFileName(ToPropertyName(s)) == s
  {
    var camel := CamelizeRuns(s, false);
    assert s == [s[0]] + s[1..];
    assert camel == [s[0]] + CamelizeRuns(s[1..], false);
    KeepAll(camel, IsAlnum);
    assert ToPropertyName(s) == camel;
    KebabTailSuffix(s, 1);
    SeparateAfterLower(s[0], s[1..]);
    assert LowerAll(SeparateWords(camel)) == Underscored(s);
    HyphenateUnderscored(s, true);
  }

  lemma KebabTailSuffix(s: string, k: nat)
    requires KebabTail(s) && k <= |s|
    ensures KebabTail(s[k..])
  {
    forall i | 0 <= i < |s[k..]| && s[k..][i] == '-'
      ensures i + 2 < |s[k..]| && IsLower(s[k..][i + 1]) && IsLower(s[k..][i + 2])
    {
      assert s[k + i] == '-';
    }
  }

  /** The heart of the round trip: after a lower-case letter `p`, camelizing, separating and lower-casing
      the rest of a kebab name gives the rest with its hyphens turned into underscores. */
  lemma {:induction false} SeparateAfterLower(p: char, t: string)
    requires IsLower(p) && KebabTail(t)
    ensures LowerAll(SeparateWords([p] + CamelizeRuns(t, false))) == [p] + Underscored(t)
    decreases |t|, 1
  {
    if t == [] {
      assert [p] + CamelizeRuns(t, false) == [p];
    } else if t[0] != '-' {
      SeparateAfterLowerLetter(p, t);
    } else {
      SeparateAfterLowerHyphen(p, t);
    }
  }

  /** The case where the rest starts with a letter. */
  lemma {:induction false} SeparateAfterLowerLetter(p: char, t: string)
    requires IsLower(p) && KebabTail(t) && t != [] && t[0] != '-'
    ensures LowerAll(SeparateWords([p] + CamelizeRuns(t, false))) == [p] + Underscored(t)
    decreases |t|, 0
  {
    var rest := CamelizeRuns(t[1..], false);
    assert CamelizeRuns(t, false) == [t[0]] + rest;
    SeparateNoBreak(p, t[0], rest);
    KebabTailSuffix(t, 1);
    SeparateAfterLower(t[0], t[1..]);
    LowerAllCons(p, SeparateWords([t[0]] + rest));
  }

  /** The case where the rest starts with a hyphen, so with `-xy`. */
  lemma {:induction false} SeparateAfterLowerHyphen(p: char, t: string)
    requires IsLower(p) && KebabTail(t) && t != [] && t[0] == '-'
    ensures LowerAll(SeparateWords([p] + CamelizeRuns(t, false))) == [p] + Underscored(t)
    decreases |t|, 0
  {
    assert 2 < |t| && IsLower(t[1]) && IsLower(t[2]);
    var up := ToUpper(t[1]);
    var rest := CamelizeRuns(t[3..], false);
    var tail := [t[2]] + rest;
    CamelizeHyphen(t);
    SeparateHyphenWord(p, up, tail);
    KebabTailSuffix(t, 3);
    SeparateAfterLower(t[2], t[3..]);
    UnderscoredHyphen(t);
    assert ToLower(up) == t[1];
  }

  /** A capital after a lower-case letter starts a new word, written back in lower case. */
  lemma SeparateHyphenWord(p: char, up: char, tail: string)
    requires IsLower(p) && IsUpper(up)
    ensures LowerAll(SeparateWords([p] + ([up] + tail))) == [p, '_', ToLower(up)] + LowerAll(SeparateWords(tail))
  {
    SeparateBreak(p, up, tail);
    SeparateAfterUpper(up, tail);
    assert SeparateWords([p] + ([up] + tail)) == [p, '_', up] + SeparateWords(tail);
    LowerThree(p, up, SeparateWords(tail));
  }

  lemma CamelizeHyphen(t: string)
    requires 2 < |t| && t[0] == '-' && IsLower(t[1]) && IsLower(t[2])
    ensures CamelizeRuns(t, false) == [ToUpper(t[1])] + ([t[2]] + CamelizeRuns(t[3..], false))
  {
    assert t[1..][1..] == t[2..] && t[2..][1..] == t[3..];
    assert CamelizeRuns(t[2..], false) == [t[2]] + CamelizeRuns(t[3..], false);
  }

  lemma UnderscoredHyphen(t: string)
    requires 2 < |t| && t[0] == '-' && t[1] != '-' && t[2] != '-'
    ensures Underscored(t) == ['_', t[1], t[2]] + Underscored(t[3..])
  {
    assert t[1..][1..] == t[2..] && t[2..][1..] == t[3..];
    assert Underscored(t[2..]) == [t[2]] + Underscored(t[3..]);
    assert Underscored(t[1..]) == [t[1]] + Underscored(t[2..]);
  }

  lemma LowerThree(p: char, up: char, s: string)
    requires IsLower(p) && IsUpper(up)
    ensures LowerAll([p, '_', up] + s) == [p, '_', ToLower(up)] + LowerAll(s)
  {
    LowerAllCons(up, s);
    LowerAllCons('_', [up] + s);
    assert [p, '_', up] + s == [p] + (['_'] + ([up] + s));
    LowerAllCons(p, ['_'] + ([up] + s));
  }

  lemma SeparateNoBreak(p: char, q: char, rest: string)
    requires !IsUpper(q)
    ensures SeparateWords([p] + ([q] + rest)) == [p] + SeparateWords([q] + rest)
  {
    assert ([p] + ([q] + rest))[1..] == [q] + rest;
  }

  lemma SeparateBreak(p: char, u: char, rest: string)
    requires IsLower(p) && IsUpper(u)
    ensures SeparateWords([p] + ([u] + rest)) == [p, '_'] + SeparateWords([u] + rest)
  {
    assert ([p] + ([u] + rest))[1..] == [u] + rest;
  }

  lemma SeparateAfterUpper(u: char, rest: string)
    requires IsUpper(u)
    ensures SeparateWords([u] + rest) == [u] + SeparateWords(rest)
  {
    assert ([u] + rest)[1..] == rest;
  }

  lemma LowerAllCons(c: char, s: string)
    ensures LowerAll([c] + s) == [ToLower(c)] + LowerAll(s)
  {
    assert ([c] + s)[1..] == s;
  }

  lemma {:induction false} HyphenateUnderscored(s: string, atStart: bool)
    requires forall i :: 0 <= i < |s| ==> IsLower(s[i]) || s[i] == '-'
    requires atStart && s != [] ==> s[0] != '-'
    ensures Hyphenate(Underscored(s), atStart) == s
  {
    if s != [] {
      HyphenateUnderscored(s[1..], false);
      assert Underscored(s) == [if s[0] == '-' then '_' else s[0]] + Underscored(s[1..]);
      assert Underscored(s)[1..] == Underscored(s[1..]);
      assert [s[0]] + s[1..] == s;
    }
  }
}
