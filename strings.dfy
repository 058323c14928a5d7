/** String operations of JavaScript that the compiler relies on, stated over `seq<char>`.
    Case mapping is ASCII only (see README, "Left out"). */
module Strings {
  import opened Wrappers

  predicate IsLower(c: char) { 'a' <= c <= 'z' }
  predicate IsUpper(c: char) { 'A' <= c <= 'Z' }
  predicate IsLetter(c: char) { IsLower(c) || IsUpper(c) }
  predicate IsDigit(c: char) { '0' <= c <= '9' }
  predicate IsAlnum(c: char) { IsLetter(c) || IsDigit(c) }

  /** `String.prototype.toUpperCase` on one ASCII character. */
  function ToUpper(c: char): (r: char)
    ensures IsLower(c) ==> IsUpper(r)
    ensures IsAlnum(c) <==> IsAlnum(r)
    ensures IsLetter(c) <==> IsLetter(r)
    ensures !IsLower(c) ==> r == c
  {
    if IsLower(c) then (c as int - 32) as char else c
  }

  /** `String.prototype.toLowerCase` on one ASCII character. */
  function ToLower(c: char): (r: char)
    ensures IsUpper(c) ==> IsLower(r)
    ensures !IsUpper(c) ==> r == c
    ensures IsUpper(c) ==> ToUpper(r) == c
  {
    if IsUpper(c) then (c as int + 32) as char else c
  }

  function LowerAll(s: string): (r: string)
    ensures |r| == |s|
    ensures forall i :: 0 <= i < |s| ==> r[i] == ToLower(s[i])
  {
    if s == [] then [] else [ToLower(s[0])] + LowerAll(s[1..])
  }

  /** The characters that `String.prototype.trim` removes: ECMAScript WhiteSpace and LineTerminator. */
  predicate IsJsSpace(c: char) {
    || c == ' ' || c == '\t' || c == '\n' || c == '\r'
    || c == '\U{000B}' || c == '\U{000C}' || c == '\U{00A0}' || c == '\U{1680}'
    || ('\U{2000}' <= c <= '\U{200A}')
    || c == '\U{2028}' || c == '\U{2029}' || c == '\U{202F}' || c == '\U{205F}'
    || c == '\U{3000}' || c == '\U{FEFF}'
  }

  function TrimStart(s: string): (r: string)
    ensures |r| <= |s| && r == s[|s| - |r|..]
    ensures r == [] || !IsJsSpace(r[0])
    ensures forall i :: 0 <= i < |s| - |r| ==> IsJsSpace(s[i])
  {
    if s != [] && IsJsSpace(s[0]) then TrimStart(s[1..]) else s
  }

  function TrimEnd(s: string): (r: string)
    ensures |r| <= |s| && r == s[..|r|]
    ensures r == [] || !IsJsSpace(r[|r| - 1])
    ensures forall i :: |r| <= i < |s| ==> IsJsSpace(s[i])
  {
    if s != [] && IsJsSpace(s[|s| - 1]) then TrimEnd(s[..|s| - 1]) else s
  }

  /** `String.prototype.trim`: the longest slice of `s` that neither starts nor ends with white space. */
  function Trim(s: string): (r: string)
    ensures |r| <= |s|
    ensures r == [] || (!IsJsSpace(r[0]) && !IsJsSpace(r[|r| - 1]))
  {
    TrimEnd(TrimStart(s))
  }

  lemma TrimFixesTrimmed(s: string)
    requires s == [] || (!IsJsSpace(s[0]) && !IsJsSpace(s[|s| - 1]))
    ensures Trim(s) == s
  {
  }

  /** The characters of `s` that satisfy `keep`, in order (a `replace(/[...]/g, '')` with a character class). */
  function Keep(s: string, keep: char -> bool): (r: string)
    ensures |r| <= |s|
    ensures forall i :: 0 <= i < |r| ==> keep(r[i])
  {
    if s == [] then []
    else if keep(s[0]) then [s[0]] + Keep(s[1..], keep)
    else Keep(s[1..], keep)
  }

  lemma {:induction false} KeepAll(s: string, keep: char -> bool)
    requires forall i :: 0 <= i < |s| ==> keep(s[i])
    ensures Keep(s, keep) == s
  {
    if s != [] {
      KeepAll(s[1..], keep);
    }
  }

  lemma {:induction false} KeepAppend(s: string, t: string, keep: char -> bool)
    ensures Keep(s + t, keep) == Keep(s, keep) + Keep(t, keep)
  {
    if s == [] {
      assert s + t == t;
    } else {
      assert (s + t)[1..] == s[1..] + t;
      KeepAppend(s[1..], t, keep);
    }
  }

  predicate StartsWith(s: string, prefix: string) {
    |prefix| <= |s| && s[..|prefix|] == prefix
  }

  predicate EndsWith(s: string, suffix: string) {
    |suffix| <= |s| && s[|s| - |suffix|..] == suffix
  }

  /** `pattern` occurs in `s` at position `j`. */
  predicate OccursAt(s: string, pattern: string, j: nat) {
    j + |pattern| <= |s| && s[j..j + |pattern|] == pattern
  }

  /** `s.indexOf(pattern)`: the first position at which `pattern` occurs, if any. */
  function IndexOf(s: string, pattern: string): (r: Option<nat>)
    ensures r.Some? ==> OccursAt(s, pattern, r.value)
    ensures r.Some? ==> forall j: nat :: j < r.value ==> !OccursAt(s, pattern, j)
    ensures r.None? ==> forall j: nat :: !OccursAt(s, pattern, j)
  {
    if |pattern| > |s| then None
    else if StartsWith(s, pattern) then Some(0)
    else
      OccursInTail(s, pattern);
      match IndexOf(s[1..], pattern)
      case None => None
      case Some(k) => Some(k + 1)
  }

  /** An occurrence after the first character is an occurrence in the rest, one position earlier. */
  lemma OccursInTail(s: string, pattern: string)
    requires s != []
    ensures forall j: nat :: 1 <= j ==> OccursAt(s, pattern, j) == OccursAt(s[1..], pattern, j - 1)
  {
    forall j: nat | 1 <= j
      ensures OccursAt(s, pattern, j) == OccursAt(s[1..], pattern, j - 1)
    {
      if j + |pattern| <= |s| {
        assert s[1..][j - 1..j - 1 + |pattern|] == s[j..j + |pattern|];
      }
    }
  }

  /** `s.includes(pattern)`. */
  predicate Contains(s: string, pattern: string) {
    IndexOf(s, pattern).Some?
  }

  /** `s.replace(pattern, replacement)` with a string pattern: only the first occurrence is replaced. */
  function ReplaceFirst(s: string, pattern: string, replacement: string): (r: string)
    ensures !Contains(s, pattern) ==> r == s
    ensures Contains(s, pattern) ==>
      var k := IndexOf(s, pattern).value;
      r == s[..k] + replacement + s[k + |pattern|..]
  {
    match IndexOf(s, pattern)
    case None => s
    case Some(k) => s[..k] + replacement + s[k + |pattern|..]
  }

  /** `parts.join(sep)`. */
  function Join(parts: seq<string>, sep: string): string {
    if |parts| == 0 then ""
    else if |parts| == 1 then parts[0]
    else parts[0] + sep + Join(parts[1..], sep)
  }

  /** `s.split(c)` for a one-character separator: always at least one piece, none holding `c`. */
  function Split(s: string, c: char): (r: seq<string>)
    ensures |r| >= 1
    ensures forall i :: 0 <= i < |r| ==> c !in r[i]
  {
    if s == [] then [""]
    else
      var rest := Split(s[1..], c);
      if s[0] == c then [""] + rest
      else [[s[0]] + rest[0]] + rest[1..]
  }

  /** Splitting and joining again with the same separator gives back the text. */
  lemma {:induction false} JoinSplit(s: string, c: char)
    ensures Join(Split(s, c), [c]) == s
  {
    if s != [] {
      var rest := Split(s[1..], c);
      JoinSplit(s[1..], c);
      if s[0] == c {
        assert Split(s, c) == [""] + rest;
        assert Join(Split(s, c), [c]) == "" + [c] + Join(rest, [c]);
      } else {
        var pieces := [[s[0]] + rest[0]] + rest[1..];
        assert Split(s, c) == pieces;
        if |rest| == 1 {
          assert Join(pieces, [c]) == [s[0]] + rest[0];
        } else {
          assert pieces[1..] == rest[1..];
          assert Join(rest, [c]) == rest[0] + [c] + Join(rest[1..], [c]);
          assert Join(pieces, [c]) == [s[0]] + rest[0] + [c] + Join(rest[1..], [c]);
        }
      }
    }
  }

  /** Joining pieces that do not contain the separator and splitting again gives back the pieces. */
  lemma {:induction false} SplitJoin(parts: seq<string>, c: char)
    requires |parts| >= 1
    requires forall i :: 0 <= i < |parts| ==> c !in parts[i]
    ensures Split(Join(parts, [c]), c) == parts
  {
    if |parts| == 1 {
      SplitNoSeparator(parts[0], c);
    } else {
      SplitJoin(parts[1..], c);
      SplitPieceThenSeparator(parts[0], c, Join(parts[1..], [c]));
    }
  }

  lemma {:induction false} SplitNoSeparator(s: string, c: char)
    requires c !in s
    ensures Split(s, c) == [s]
  {
    if s != [] {
      SplitNoSeparator(s[1..], c);
      assert [s[0]] + s[1..] == s;
    }
  }

  lemma {:induction false} SplitPieceThenSeparator(p: string, c: char, t: string)
    requires c !in p
    ensures Split(p + [c] + t, c) == [p] + Split(t, c)
  {
    if p == [] {
      assert (p + [c] + t)[1..] == t;
    } else {
      assert (p + [c] + t)[1..] == p[1..] + [c] + t;
      SplitPieceThenSeparator(p[1..], c, t);
      var rest := Split(p[1..] + [c] + t, c);
      assert rest == [p[1..]] + Split(t, c);
      assert Split(p + [c] + t, c) == [[p[0]] + rest[0]] + rest[1..];
      assert [p[0]] + p[1..] == p;
    }
  }

  /** The last piece after a separator is the text after the last separator. */
  lemma {:induction false} SplitLastPiece(s: string, c: char, t: string)
    requires c !in t
    ensures |Split(s + [c] + t, c)| >= 2
    ensures Split(s + [c] + t, c)[|Split(s + [c] + t, c)| - 1] == t
  {
    if s == [] {
      assert (s + [c] + t)[1..] == t;
      SplitNoSeparator(t, c);
    } else {
      assert (s + [c] + t)[1..] == s[1..] + [c] + t;
      SplitLastPiece(s[1..], c, t);
    }
  }

  /** Splitting adds no character: a character absent from the text is absent from every piece. */
  lemma {:induction false} SplitKeepsAbsent(s: string, c: char, d: char)
    requires d !in s
    ensures forall i :: 0 <= i < |Split(s, c)| ==> d !in Split(s, c)[i]
  {
    if s != [] {
      assert d !in s[1..] by {
        assert forall i :: 0 <= i < |s[1..]| ==> s[1..][i] == s[i + 1];
      }
      SplitKeepsAbsent(s[1..], c, d);
    }
  }
}
