/**
 * String helpers and the line recognisers of the namespacer.
 *
 * Every regular expression of the original is replaced by a hand-written
 * predicate over `string` (= `seq<char>`). Python's `\s` and `str.strip()`
 * are both modelled by the ASCII whitespace class `IsSpace`.
 */
module Text {

  datatype Option<T> = None | Some(value: T)

  predicate IsSpace(c: char) {
    c == ' ' || c == '\t' || c == '\n' || c == '\r' || c == '\U{B}' || c == '\U{C}'
  }

  predicate IsWordChar(c: char) {
    ('A' <= c <= 'Z') || ('a' <= c <= 'z') || ('0' <= c <= '9') || c == '_'
  }

  predicate StartsWith(s: string, p: string) {
    |p| <= |s| && s[..|p|] == p
  }

  predicate EndsWith(s: string, p: string) {
    |p| <= |s| && s[|s| - |p|..] == p
  }

  /** `s.startswith("//")` */
  predicate IsLineComment(s: string) {
    |s| >= 2 && s[0] == '/' && s[1] == '/'
  }

  // `s.startswith("/" "*")`: the line opens a block comment.
  predicate OpensBlockComment(s: string) {
    |s| >= 2 && s[0] == '/' && s[1] == '*'
  }

  /** `s.endswith("\\")` */
  predicate EndsWithBackslash(s: string) {
    |s| >= 1 && s[|s| - 1] == '\\'
  }

  predicate NoSpace(s: string) {
    forall k :: 0 <= k < |s| ==> !IsSpace(s[k])
  }

  /** `s.lstrip()`: the longest suffix of `s` that does not start with whitespace. */
  function TrimLeft(s: string): (r: string)
    ensures |r| <= |s|
    ensures forall k :: 0 <= k < |s| - |r| ==> IsSpace(s[k])
    ensures r == [] || !IsSpace(r[0])
  {
    if s != [] && IsSpace(s[0]) then TrimLeft(s[1..]) else s
  }

  /** `s.rstrip()`: the longest prefix of `s` that does not end with whitespace. */
  function TrimRight(s: string): (r: string)
    ensures |r| <= |s|
    ensures forall k :: |r| <= k < |s| ==> IsSpace(s[k])
    ensures r == [] || !IsSpace(r[|r| - 1])
  {
    if s != [] && IsSpace(s[|s| - 1]) then TrimRight(s[..|s| - 1]) else s
  }

  /** What `TrimLeft` keeps is a suffix of its argument. */
  lemma {:induction false} TrimLeftIsSuffix(s: string)
    ensures TrimLeft(s) == s[|s| - |TrimLeft(s)|..]
  {
    if s != [] && IsSpace(s[0]) {
      TrimLeftIsSuffix(s[1..]);
      assert s[1..][|s[1..]| - |TrimLeft(s[1..])|..] == s[|s| - |TrimLeft(s)|..];
    }
  }

  /** What `TrimRight` keeps is a prefix of its argument. */
  lemma {:induction false} TrimRightIsPrefix(s: string)
    ensures TrimRight(s) == s[..|TrimRight(s)|]
  {
    if s != [] && IsSpace(s[|s| - 1]) {
      TrimRightIsPrefix(s[..|s| - 1]);
    }
  }

  /** `s.strip()`: neither end of the result is whitespace. */
  function Strip(s: string): (r: string)
    ensures |r| <= |s|
    ensures r == [] || (!IsSpace(r[0]) && !IsSpace(r[|r| - 1]))
  {
    var t := TrimLeft(s);
    var r := TrimRight(t);
    TrimRightIsPrefix(t);
    assert r != [] ==> r[0] == t[0];
    r
  }

  /**
   * `Strip(s)` is the part of `s` between its leading and its trailing
   * whitespace: it starts after the leading run, and everything cut off on
   * either side is whitespace (and neither end of the result is, so nothing
   * more could be cut).
   */
  lemma StripIsMiddle(s: string)
    ensures var i, r := |s| - |TrimLeft(s)|, Strip(s);
      && i + |r| <= |s| && r == s[i..i + |r|]
      && (forall k :: 0 <= k < i ==> IsSpace(s[k]))
      && (forall k :: i + |r| <= k < |s| ==> IsSpace(s[k]))
  {
    var t := TrimLeft(s);
    var r := TrimRight(t);
    TrimLeftIsSuffix(s);
    TrimRightIsPrefix(t);
    var i := |s| - |t|;
    assert forall k :: i + |r| <= k < |s| ==> s[k] == t[k - i];
  }

  /** Stripping twice is stripping once. */
  lemma StripIdempotent(s: string)
    ensures Strip(Strip(s)) == Strip(s)
  {
    var r := Strip(s);
    assert TrimLeft(r) == r;
    if r != [] {
      assert TrimRight(r) == r;
    }
  }

  /** `sub` occurs in `s` at position `k`. */
  predicate OccursAt(s: string, sub: string, k: int) {
    0 <= k <= |s| - |sub| && s[k..k + |sub|] == sub
  }

  /** The index of the first occurrence of `sub` in `s` at or after `from` (`str.index`). */
  function IndexOf(s: string, sub: string, from: nat): (r: Option<nat>)
    requires from <= |s|
    ensures r.Some? ==> from <= r.value && OccursAt(s, sub, r.value)
    ensures r.Some? ==> forall k :: from <= k < r.value ==> !OccursAt(s, sub, k)
    ensures r.None? ==> forall k :: from <= k ==> !OccursAt(s, sub, k)
    decreases |s| - from
  {
    if |s| - from < |sub| then None
    else if s[from..from + |sub|] == sub then Some(from)
    else IndexOf(s, sub, from + 1)
  }

  /** Python's `sub in s`. */
  predicate Contains(s: string, sub: string) {
    IndexOf(s, sub, 0).Some?
  }

  /** The longest prefix of `s` made of `[A-Za-z0-9_]` characters. */
  function WordPrefix(s: string): (r: string)
    ensures StartsWith(s, r)
    ensures forall k :: 0 <= k < |r| ==> IsWordChar(r[k])
    ensures |r| == |s| || !IsWordChar(s[|r|])
  {
    if s != [] && IsWordChar(s[0]) then [s[0]] + WordPrefix(s[1..]) else []
  }

  /** What follows `^#\s*` in a directive line, if the line starts with `#`. */
  function AfterHash(l: string): Option<string> {
    if l != [] && l[0] == '#' then Some(TrimLeft(l[1..])) else None
  }

  /** `re.match("^#\s*" + word, l)` for a word that starts with a letter. */
  predicate IsDirective(l: string, word: string) {
    AfterHash(l).Some? && StartsWith(AfterHash(l).value, word)
  }

  /** `^#\s*if` -- this also matches `#ifdef` and `#ifndef`. */
  predicate IsIf(l: string) { IsDirective(l, "if") }

  /** `^#\s*endif` */
  predicate IsEndif(l: string) { IsDirective(l, "endif") }

  /** `^#\s*include` */
  predicate IsInclude(l: string) { IsDirective(l, "include") }

  /** `^#\s*(elif|else|define|undef|error|pragma|warning)`: the directives filter_preprocessor drops. */
  predicate IsNoise(l: string) {
    IsDirective(l, "elif") || IsDirective(l, "else") || IsDirective(l, "define") ||
    IsDirective(l, "undef") || IsDirective(l, "error") || IsDirective(l, "pragma") ||
    IsDirective(l, "warning")
  }

  /** The text of `s` after `word` and at least one whitespace character, stripped on the left (`word\s+`). */
  function AfterWordAndSpace(s: string, word: string): Option<string> {
    if StartsWith(s, word) && |s| > |word| && IsSpace(s[|word|]) then Some(TrimLeft(s[|word|..]))
    else None
  }

  /**
   * `re.match("^#\s*ifndef\s+([A-Za-z0-9_]+)", l).group(1)`: the longest
   * word after `#`, optional whitespace, `ifndef` and some whitespace.
   */
  function IfndefName(l: string): (r: Option<string>)
    ensures r.Some? ==> r.value != [] && IsIf(l)
    ensures r.Some? ==> forall k :: 0 <= k < |r.value| ==> IsWordChar(r.value[k])
    ensures r.Some? ==>
      && AfterHash(l).Some? && AfterWordAndSpace(AfterHash(l).value, "ifndef").Some?
      && var rest := AfterWordAndSpace(AfterHash(l).value, "ifndef").value;
         StartsWith(rest, r.value) && (|r.value| == |rest| || !IsWordChar(rest[|r.value|]))
  {
    match AfterHash(l)
    case None => None
    case Some(t) =>
      match AfterWordAndSpace(t, "ifndef")
      case None => None
      case Some(rest) =>
        var n := WordPrefix(rest);
        if n == [] then None else Some(n)
  }

  /** `re.match("^#\s*define\s+" + name, l)`: a PREFIX match on the name. */
  predicate DefinesName(l: string, name: string) {
    AfterHash(l).Some? &&
    AfterWordAndSpace(AfterHash(l).value, "define").Some? &&
    StartsWith(AfterWordAndSpace(AfterHash(l).value, "define").value, name)
  }

  /** `re.match("^#\s*include (.*)", l).group(1).strip()`; `None` where the match fails. */
  function IncludeTarget(l: string): (r: Option<string>)
    ensures r.Some? ==> IsInclude(l)
  {
    assert forall t: string :: StartsWith(t, "include ") ==> t[..7] == "include " [..7];
    match AfterHash(l)
    case None => None
    case Some(t) => if StartsWith(t, "include ") then Some(Strip(t[8..])) else None
  }

  /** `re.match("^\s*class\s*([^\s]+)\s*;\s*$", l).group(1)` */
  function ClassPredecl(l: string): (r: Option<string>)
    ensures r.Some? ==> r.value != [] && NoSpace(r.value)
  {
    var t := TrimLeft(l);
    if !StartsWith(t, "class") then None
    else
      var rest := TrimRight(TrimLeft(t[5..]));
      if rest == [] || rest[|rest| - 1] != ';' then None
      else
        var w := TrimRight(rest[..|rest| - 1]);
        if w != [] && NoSpace(w) then Some(w) else None
  }

  /** The forward declaration recogniser accepts `class NAME;` for every name without whitespace. */
  lemma ClassPredeclOfDeclaration(w: string)
    requires w != [] && NoSpace(w)
    ensures ClassPredecl("class " + w + ";") == Some(w)
  {
    var l := "class " + w + ";";
    assert TrimLeft(l) == l;
    var t5 := l[5..];
    assert t5 == " " + w + ";";
    assert TrimLeft(t5[1..]) == t5[1..];
    assert TrimLeft(t5) == w + ";";
    var rest := w + ";";
    assert TrimRight(rest) == rest;
    assert rest[..|rest| - 1] == w;
    assert TrimRight(w) == w;
  }

  /** `#ifdef` and `#ifndef` are both taken for `#if`, as `^#\s*if` is a prefix match. */
  lemma IfMatchesIfdefAndIfndef(rest: string)
    ensures IsIf("#ifdef" + rest) && IsIf("#ifndef" + rest)
  {
    assert ("#ifdef" + rest)[1..] == "ifdef" + rest;
    assert ("#ifndef" + rest)[1..] == "ifndef" + rest;
  }

  /** `#` followed by a text that does not start with whitespace. */
  lemma AfterHashOf(t: string)
    requires t == [] || !IsSpace(t[0])
    ensures AfterHash("#" + t) == Some(t)
  {
    assert ("#" + t)[1..] == t;
  }

  /** A word, one blank, and a text that does not start with whitespace. */
  lemma AfterWordAndSpaceOf(word: string, x: string)
    requires x == [] || !IsSpace(x[0])
    ensures AfterWordAndSpace(word + " " + x, word) == Some(x)
  {
    var s := word + " " + x;
    assert s[..|word|] == word;
    assert s[|word|..] == " " + x;
    assert (" " + x)[1..] == x;
    assert TrimLeft(x) == x;
  }

  /** The guard's define check accepts any macro that merely starts with the guard name. */
  lemma DefineIsPrefixMatch(name: string, tail: string)
    requires name != [] && IsWordChar(name[0])
    ensures DefinesName("#define " + name + tail, name)
  {
    AfterWordAndSpaceOf("define", name + tail);
    assert "define " + name + tail == "define" + " " + (name + tail);
    AfterHashOf("define " + name + tail);
    assert "#define " + name + tail == "#" + ("define " + name + tail);
  }

  /** Leading whitespace is exactly what `TrimLeft` removes. */
  lemma {:induction false} TrimLeftSpaces(sp: string, t: string)
    requires forall k :: 0 <= k < |sp| ==> IsSpace(sp[k])
    requires t == [] || !IsSpace(t[0])
    ensures TrimLeft(sp + t) == t
  {
    if sp != [] {
      assert (sp + t)[1..] == sp[1..] + t;
      TrimLeftSpaces(sp[1..], t);
    } else {
      assert sp + t == t;
    }
  }

  /** A word followed by a non-word character (or nothing) is the word prefix. */
  lemma {:induction false} WordPrefixOf(n: string, rest: string)
    requires forall k :: 0 <= k < |n| ==> IsWordChar(n[k])
    requires rest == [] || !IsWordChar(rest[0])
    ensures WordPrefix(n + rest) == n
  {
    if n == [] {
      assert n + rest == rest;
    } else {
      assert (n + rest)[1..] == n[1..] + rest;
      WordPrefixOf(n[1..], rest);
      assert [n[0]] + n[1..] == n;
    }
  }

  /** `#ifndef NAME` captures exactly `NAME`, whatever non-word text follows it. */
  lemma IfndefNameOf(n: string, rest: string)
    requires n != [] && forall k :: 0 <= k < |n| ==> IsWordChar(n[k])
    requires rest == [] || !IsWordChar(rest[0])
    ensures IfndefName("#ifndef " + n + rest) == Some(n)
  {
    assert !IsSpace((n + rest)[0]);
    AfterWordAndSpaceOf("ifndef", n + rest);
    assert "ifndef " + n + rest == "ifndef" + " " + (n + rest);
    AfterHashOf("ifndef " + n + rest);
    assert "#ifndef " + n + rest == "#" + ("ifndef " + n + rest);
    WordPrefixOf(n, rest);
  }

  /**
   * The target of an `#include` line with any whitespace after `#`: the
   * stripped text after `include ` when a blank follows the word, and no
   * match otherwise (`#include<x>` or `#include\tx`).
   */
  lemma IncludeTargetOf(sp: string, x: string)
    requires forall k :: 0 <= k < |sp| ==> IsSpace(sp[k])
    ensures IncludeTarget("#" + sp + "include" + x) == if x != [] && x[0] == ' ' then Some(Strip(x[1..])) else None
  {
    var l := "#" + sp + "include" + x;
    assert l[1..] == sp + ("include" + x);
    TrimLeftSpaces(sp, "include" + x);
    assert AfterHash(l) == Some("include" + x);
    var t := "include" + x;
    if x != [] && x[0] == ' ' {
      assert StartsWith(t, "include ");
      assert t[8..] == x[1..];
    } else {
      if x == [] {
        assert |t| < 8;
      } else {
        assert t[..8][7] == x[0];
      }
    }
  }
}
