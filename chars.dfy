/**
 * Character classes and the string primitives of Python's `str` and `re`
 * that the rest of the model is built on.
 */
module Chars {

  /** `\s` in Python's `re` (and `str.isspace`): the exact set of whitespace code points. */
  predicate IsSpace(c: char) {
    ('\t' <= c <= '\r') || ('\U{1C}' <= c <= ' ') || c == '\U{85}' || c == '\U{A0}'
    || c == '\U{1680}' || ('\U{2000}' <= c <= '\U{200A}') || c == '\U{2028}' || c == '\U{2029}'
    || c == '\U{202F}' || c == '\U{205F}' || c == '\U{3000}'
  }

  /**
   * `\w` in Python's `re`. Exact below U+0300; above it only the Latin
   * Extended Additional block (U+1E00..U+1EFF) counts as word characters.
   */
  predicate IsWordChar(c: char) {
    ('0' <= c <= '9') || ('A' <= c <= 'Z') || c == '_' || ('a' <= c <= 'z')
    || c == '\U{AA}' || ('\U{B2}' <= c <= '\U{B3}') || c == '\U{B5}'
    || ('\U{B9}' <= c <= '\U{BA}') || ('\U{BC}' <= c <= '\U{BE}')
    || ('\U{C0}' <= c <= '\U{D6}') || ('\U{D8}' <= c <= '\U{F6}')
    || ('\U{F8}' <= c <= '\U{2C1}') || ('\U{2C6}' <= c <= '\U{2D1}')
    || ('\U{2E0}' <= c <= '\U{2E4}') || c == '\U{2EC}' || c == '\U{2EE}'
    || ('\U{1E00}' <= c <= '\U{1EFF}')
  }

  lemma WordCharIsNotSpace(c: char)
    ensures IsWordChar(c) ==> !IsSpace(c)
  {
  }

  /** Lower-case mapping of one character (ASCII and Latin-1 capitals). */
  function ToLower(c: char): char {
    if 'A' <= c <= 'Z' || ('\U{C0}' <= c <= '\U{DE}' && c != '\U{D7}')
    then (c as int + 32) as char
    else c
  }

  /** Upper-case mapping of one character (ASCII and Latin-1 small letters with a one-character capital). */
  function ToUpper(c: char): char {
    if 'a' <= c <= 'z' || ('\U{E0}' <= c <= '\U{FE}' && c != '\U{F7}')
    then (c as int - 32) as char
    else c
  }

  /** Case mapping keeps the character class that tokenization looks at. */
  lemma ToLowerKeepsClass(c: char)
    ensures IsWordChar(ToLower(c)) == IsWordChar(c)
    ensures IsSpace(ToLower(c)) == IsSpace(c)
    ensures ToLower(ToLower(c)) == ToLower(c)
  {
  }

  /** `str.lower()`. */
  function Lower(s: string): (r: string)
    ensures |r| == |s|
    ensures forall i :: 0 <= i < |s| ==> r[i] == ToLower(s[i])
  {
    seq(|s|, i requires 0 <= i < |s| => ToLower(s[i]))
  }

  /** `str.upper()`. */
  function Upper(s: string): (r: string)
    ensures |r| == |s|
    ensures forall i :: 0 <= i < |s| ==> r[i] == ToUpper(s[i])
  {
    seq(|s|, i requires 0 <= i < |s| => ToUpper(s[i]))
  }

  /** `str.capitalize()`: the first character in upper case, the rest in lower case. */
  function Capitalize(s: string): (r: string)
    ensures |r| == |s|
    ensures s != [] ==> r[0] == ToUpper(s[0]) && r[1..] == Lower(s[1..])
  {
    if s == [] then [] else [ToUpper(s[0])] + Lower(s[1..])
  }

  lemma LowerIdempotent(s: string)
    ensures Lower(Lower(s)) == Lower(s)
  {
    forall i | 0 <= i < |s| ensures Lower(Lower(s))[i] == Lower(s)[i] {
      ToLowerKeepsClass(s[i]);
    }
  }

  lemma LowerConcat(a: string, b: string)
    ensures Lower(a + b) == Lower(a) + Lower(b)
  {
  }

  /** Number of leading characters of `s` for which `p` holds. */
  function LeadingRun(s: string, p: char -> bool): (n: nat)
    ensures n <= |s|
    ensures forall i :: 0 <= i < n ==> p(s[i])
    ensures n < |s| ==> !p(s[n])
  {
    if s == [] || !p(s[0]) then 0 else 1 + LeadingRun(s[1..], p)
  }

  /** Number of trailing characters of `s` for which `p` holds. */
  function TrailingRun(s: string, p: char -> bool): (n: nat)
    ensures n <= |s|
    ensures forall i :: |s| - n <= i < |s| ==> p(s[i])
    ensures n < |s| ==> !p(s[|s| - 1 - n])
  {
    if s == [] || !p(s[|s| - 1]) then 0 else 1 + TrailingRun(s[..|s| - 1], p)
  }

  /** `str.rstrip(chars)` for the set of characters `p` describes. */
  function RStripBy(s: string, p: char -> bool): (r: string)
    ensures r == s[..|s| - TrailingRun(s, p)]
    ensures r == [] || !p(r[|r| - 1])
  {
    s[..|s| - TrailingRun(s, p)]
  }

  /** `str.lstrip(chars)` for the set of characters `p` describes. */
  function LStripBy(s: string, p: char -> bool): (r: string)
    ensures r == s[LeadingRun(s, p)..]
    ensures r == [] || !p(r[0])
  {
    s[LeadingRun(s, p)..]
  }

  /** `str.strip(chars)`: both ends. */
  function StripBy(s: string, p: char -> bool): (r: string)
    ensures r == [] || (!p(r[0]) && !p(r[|r| - 1]))
  {
    RStripBy(LStripBy(s, p), p)
  }

  /** `str.strip()`: whitespace at both ends. */
  function Strip(s: string): (r: string)
    ensures r == [] || (!IsSpace(r[0]) && !IsSpace(r[|r| - 1]))
  {
    StripBy(s, IsSpace)
  }

  /** `str.split()`: the maximal runs of non-whitespace characters, in order. */
  function Split(s: string): (words: seq<string>)
    ensures forall k :: 0 <= k < |words| ==> words[k] != [] && NoSpace(words[k])
    decreases |s|
  {
    var lead := LeadingRun(s, IsSpace);
    if lead == |s| then []
    else
      var rest := s[lead..];
      var n := LeadingRun(rest, IsNonSpace);
      assert NoSpace(rest[..n]);
      [rest[..n]] + Split(rest[n..])
  }

  predicate IsNonSpace(c: char) {
    !IsSpace(c)
  }

  predicate NoSpace(s: string) {
    forall i :: 0 <= i < |s| ==> !IsSpace(s[i])
  }

  /** `sep.join(parts)`. */
  function Join(parts: seq<string>, sep: string): (r: string)
    ensures parts == [] ==> r == []
    ensures |parts| == 1 ==> r == parts[0]
  {
    if parts == [] then []
    else if |parts| == 1 then parts[0]
    else parts[0] + sep + Join(parts[1..], sep)
  }

  /** `pattern` occurs in `s` starting at index `i`. */
  predicate OccursAt(s: string, pattern: string, i: int) {
    0 <= i <= |s| - |pattern| && s[i..i + |pattern|] == pattern
  }

  /** `pattern in s`. */
  predicate Contains(s: string, pattern: string) {
    exists i | 0 <= i <= |s| :: OccursAt(s, pattern, i)
  }

  /** Index of the first occurrence of `pattern` in `s` (`str.find`), or -1. */
  function Find(s: string, pattern: string): (r: int)
    ensures r == -1 || OccursAt(s, pattern, r)
    ensures forall i :: 0 <= i && (r == -1 || i < r) ==> !OccursAt(s, pattern, i)
    ensures r == -1 <==> !Contains(s, pattern)
    decreases |s|
  {
    if |s| < |pattern| then -1
    else if s[..|pattern|] == pattern then 0
    else
      var k := Find(s[1..], pattern);
      assert forall i :: 1 <= i ==> OccursAt(s, pattern, i) == OccursAt(s[1..], pattern, i - 1) by {
        forall i | 1 <= i ensures OccursAt(s, pattern, i) == OccursAt(s[1..], pattern, i - 1) {
          OccursAtTail(s, pattern, i);
        }
      }
      if k == -1 then -1 else k + 1
  }

  lemma OccursAtTail(s: string, pattern: string, i: int)
    requires s != [] && 1 <= i
    ensures OccursAt(s, pattern, i) == OccursAt(s[1..], pattern, i - 1)
  {
    if i <= |s| - |pattern| {
      var a := s[i..i + |pattern|];
      var b := s[1..][i - 1..i - 1 + |pattern|];
      forall j | 0 <= j < |pattern| ensures a[j] == b[j] {
        assert s[1..][i - 1 + j] == s[i + j];
      }
      assert a == b;
    }
  }

  /** `s.split(pattern)[1]` exists iff `pattern in s`; this is the text after the first occurrence. */
  function After(s: string, pattern: string): string
    requires Contains(s, pattern)
  {
    var k := Find(s, pattern);
    s[k + |pattern|..]
  }

  /** An occurrence inside a prefix is an occurrence in the whole string. */
  lemma OccursInPrefix(s: string, pattern: string, k: nat, i: int)
    requires k <= |s| && OccursAt(s[..k], pattern, i)
    ensures OccursAt(s, pattern, i) && i + |pattern| <= k
  {
    assert s[..k][i..i + |pattern|] == s[i..i + |pattern|];
  }

  /** `s.split(pattern)[0]`: the text before the first occurrence, or all of `s`. */
  function Before(s: string, pattern: string): (r: string)
    ensures r <= s
    ensures pattern != [] ==> !Contains(r, pattern)
    ensures !Contains(s, pattern) ==> r == s
  {
    var k := Find(s, pattern);
    if k == -1 then s
    else
      assert pattern != [] ==> !Contains(s[..k], pattern) by {
        if pattern != [] && Contains(s[..k], pattern) {
          var i :| 0 <= i <= k && OccursAt(s[..k], pattern, i);
          OccursInPrefix(s, pattern, k, i);
        }
      }
      s[..k]
  }

  // ---------------------------------------------------------------------
  // Facts about case mapping and `str.split()`
  // ---------------------------------------------------------------------

  /** Upper-casing, then lower-casing, is lower-casing. */
  lemma LowerOfUpper(s: string)
    ensures Lower(Upper(s)) == Lower(s)
  {
  }

  /** Capitalizing does not change the lower-cased text. */
  lemma LowerOfCapitalize(s: string)
    ensures Lower(Capitalize(s)) == Lower(s)
  {
    if s != [] {
      assert s == [s[0]] + s[1..];
      LowerConcat([s[0]], s[1..]);
      LowerConcat([ToUpper(s[0])], Lower(s[1..]));
      LowerIdempotent(s[1..]);
    }
  }

  /** A run of `p`-characters in a concatenation. */
  lemma {:induction false} LeadingRunAppend(u: string, v: string, p: char -> bool)
    ensures LeadingRun(u + v, p) == if LeadingRun(u, p) < |u| then LeadingRun(u, p) else |u| + LeadingRun(v, p)
  {
    if u != [] {
      assert (u + v)[0] == u[0] && (u + v)[1..] == u[1..] + v;
      if p(u[0]) {
        LeadingRunAppend(u[1..], v, p);
      }
    } else {
      assert u + v == v;
    }
  }

  predicate AllSpace(s: string) {
    forall i :: 0 <= i < |s| ==> IsSpace(s[i])
  }

  /** A string made only of `p`-characters is one run. */
  lemma {:induction false} LeadingRunAll(s: string, p: char -> bool)
    requires forall i :: 0 <= i < |s| ==> p(s[i])
    ensures LeadingRun(s, p) == |s|
  {
    if s != [] {
      assert forall i :: 0 <= i < |s[1..]| ==> p(s[1..][i]);
      LeadingRunAll(s[1..], p);
    }
  }

  /** Dropping past the first part of a concatenation. */
  lemma DropAppend(a: string, b: string, n: nat)
    requires |a| <= n <= |a| + |b|
    ensures (a + b)[n..] == b[n - |a|..]
  {
  }

  /** Leading whitespace does not change the words. */
  lemma SplitSpacePrefix(sp: string, s: string)
    requires AllSpace(sp)
    ensures Split(sp + s) == Split(s)
  {
    LeadingRunAppend(sp, s, IsSpace);
    LeadingRunAll(sp, IsSpace);
    DropAppend(sp, s, |sp| + LeadingRun(s, IsSpace));
    SplitSameRest(sp + s, s);
  }

  /** The words depend only on what follows the leading whitespace. */
  lemma SplitSameRest(x: string, y: string)
    requires x[LeadingRun(x, IsSpace)..] == y[LeadingRun(y, IsSpace)..]
    ensures Split(x) == Split(y)
  {
  }

  /** A word followed by nothing or by whitespace is the first word. */
  lemma SplitWord(w: string, t: string)
    requires w != [] && NoSpace(w) && (t == [] || IsSpace(t[0]))
    ensures Split(w + t) == [w] + Split(t)
  {
    LeadingRunAppend(w, t, IsSpace);
    LeadingRunAppend(w, t, IsNonSpace);
    assert LeadingRun(w, IsNonSpace) == |w|;
    assert (w + t)[0..] == w + t;
    assert (w + t)[..|w|] == w && (w + t)[|w|..] == t;
  }

  /** Slicing a concatenation inside its first part. */
  lemma SliceAppend(a: string, b: string, n: nat)
    requires n <= |a|
    ensures (a + b)[..n] == a[..n] && (a + b)[n..] == a[n..] + b
  {
    var l, r := (a + b)[n..], a[n..] + b;
    assert |l| == |r|;
    forall i | 0 <= i < |l| ensures l[i] == r[i] {
      if n + i < |a| {
        assert l[i] == a[n + i];
      } else {
        assert l[i] == b[n + i - |a|];
      }
    }
  }

  /** One step of `Split`: the first word and what follows it. */
  lemma SplitStep(s: string)
    requires LeadingRun(s, IsSpace) < |s|
    ensures var rest := s[LeadingRun(s, IsSpace)..];
      var n := LeadingRun(rest, IsNonSpace);
      Split(s) == [rest[..n]] + Split(rest[n..])
  {
  }

  /** Whitespace alone has no words. */
  lemma SplitAllSpace(x: string)
    requires AllSpace(x)
    ensures Split(x) == []
  {
    LeadingRunAll(x, IsSpace);
  }

  /** Trailing whitespace does not change the words. */
  lemma {:induction false} SplitSpaceSuffix(s: string, sp: string)
    requires AllSpace(sp)
    ensures Split(s + sp) == Split(s)
    decreases |s|
  {
    var lead := LeadingRun(s, IsSpace);
    LeadingRunAppend(s, sp, IsSpace);
    if lead == |s| {
      assert AllSpace(s + sp);
      SplitAllSpace(s + sp);
      SplitAllSpace(s);
    } else {
      var rest := s[lead..];
      var n := LeadingRun(rest, IsNonSpace);
      if n < |rest| {
        SplitSpaceSuffix(rest[n..], sp);
      }
      SplitSpaceSuffixStep(s, sp);
    }
  }

  /** The first word of `s + sp` is that of `s`; what follows it is left to the induction. */
  lemma SplitSpaceSuffixStep(s: string, sp: string)
    requires AllSpace(sp) && LeadingRun(s, IsSpace) < |s|
    requires var rest := s[LeadingRun(s, IsSpace)..];
      var n := LeadingRun(rest, IsNonSpace);
      n < |rest| ==> Split(rest[n..] + sp) == Split(rest[n..])
    ensures Split(s + sp) == Split(s)
  {
    var lead := LeadingRun(s, IsSpace);
    var rest := s[lead..];
    var n := LeadingRun(rest, IsNonSpace);
    LeadingRunAppend(s, sp, IsSpace);
    SliceAppend(s, sp, lead);
    LeadingRunAppend(rest, sp, IsNonSpace);
    SplitStep(s);
    SplitStep(s + sp);
    if n == |rest| {
      SplitWordAtEnd(rest, sp);
    } else {
      SliceAppend(rest, sp, n);
    }
  }

  /** A word that ends the text, followed by whitespace. */
  lemma SplitWordAtEnd(rest: string, sp: string)
    requires AllSpace(sp) && LeadingRun(rest, IsNonSpace) == |rest|
    ensures var n := LeadingRun(rest + sp, IsNonSpace);
      n == |rest| && (rest + sp)[..n] == rest[..n] && Split((rest + sp)[n..]) == Split(rest[n..])
  {
    LeadingRunAppend(rest, sp, IsNonSpace);
    assert LeadingRun(sp, IsNonSpace) == 0 by {
      if sp != [] {
        assert !IsNonSpace(sp[0]);
      }
    }
    SliceAppend(rest, sp, |rest|);
    assert (rest + sp)[|rest|..] == sp;
    SplitAllSpace(sp);
    assert rest[|rest|..] == [];
    SplitAllSpace([]);
  }

  /** Stripping leading whitespace does not change the words. */
  lemma SplitLStrip(s: string)
    ensures Split(LStripBy(s, IsSpace)) == Split(s)
  {
    var k := LeadingRun(s, IsSpace);
    assert AllSpace(s[..k]) by {
      forall i | 0 <= i < k ensures IsSpace(s[..k][i]) {
        assert s[..k][i] == s[i];
      }
    }
    assert s == s[..k] + s[k..];
    SplitSpacePrefix(s[..k], s[k..]);
  }

  /** Stripping trailing whitespace does not change the words. */
  lemma SplitRStrip(s: string)
    ensures Split(RStripBy(s, IsSpace)) == Split(s)
  {
    var m := |s| - TrailingRun(s, IsSpace);
    assert AllSpace(s[m..]) by {
      forall i | 0 <= i < |s| - m ensures IsSpace(s[m..][i]) {
        assert s[m..][i] == s[m + i];
      }
    }
    assert s == s[..m] + s[m..];
    SplitSpaceSuffix(s[..m], s[m..]);
  }

  /** Stripping whitespace does not change the words. */
  lemma SplitStrip(s: string)
    ensures Split(Strip(s)) == Split(s)
  {
    SplitLStrip(s);
    SplitRStrip(LStripBy(s, IsSpace));
  }
}
