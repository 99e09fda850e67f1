/**
 * The vocabulary of one language (backend/ml/vocabulary.py): the tokenizer,
 * frequency-ordered id assignment with four reserved ids, `encode`,
 * `decode` and the saved snapshot.
 */
module Vocab {
  import opened Wrappers
  import opened Config
  import opened Chars
  import Dict
  import Decimal

  // ---------------------------------------------------------------------
  // Tokenizer: `re.findall(r'\w+|[^\w\s]', text.lower().strip())`
  // ---------------------------------------------------------------------

  /** A maximal run of word characters. */
  predicate IsWordToken(t: string) {
    t != [] && forall i :: 0 <= i < |t| ==> IsWordChar(t[i])
  }

  /** A single character that is neither a word character nor whitespace. */
  predicate IsSymbolToken(t: string) {
    |t| == 1 && !IsWordChar(t[0]) && !IsSpace(t[0])
  }

  predicate IsToken(t: string) {
    t != [] && (IsWordToken(t) || IsSymbolToken(t))
  }

  predicate IsLowercase(s: string) {
    forall i :: 0 <= i < |s| ==> ToLower(s[i]) == s[i]
  }

  /** A token never spells a reserved token: those contain `<`, which is a symbol of its own. */
  lemma TokenIsNotSpecial(t: string)
    requires IsToken(t)
    ensures t !in SPECIAL_TOKENS
  {
    assert forall s :: s in SPECIAL_TOKENS ==> |s| > 1 && s[0] == '<';
    if IsWordToken(t) {
      assert IsWordChar(t[0]) && t[0] != '<';
    }
  }

  /** The scan of `re.findall(r'\w+|[^\w\s]', s)`: word runs and single symbols, whitespace skipped. */
  function Scan(s: string): (tokens: seq<string>)
    ensures forall k :: 0 <= k < |tokens| ==> IsToken(tokens[k])
    decreases |s|
  {
    if s == [] then []
    else if IsSpace(s[0]) then Scan(s[1..])
    else if IsWordChar(s[0]) then
      var n := LeadingRun(s, IsWordChar);
      [s[..n]] + Scan(s[n..])
    else
      [[s[0]]] + Scan(s[1..])
  }

  /** `Vocabulary._tokenize`: lower-case, trim, then scan. */
  function Tokenize(text: string): seq<string> {
    Scan(Lower(Strip(text)))
  }

  /** The characters of all tokens are exactly the non-whitespace characters of the input, in order. */
  lemma {:induction false} ScanKeepsEveryNonSpace(s: string)
    ensures Flatten(Scan(s)) == NonSpace(s)
    decreases |s|
  {
    if s != [] {
      var n := FirstRun(s);
      ScanKeepsEveryNonSpace(s[n..]);
      ScanStep(s);
      assert s == s[..n] + s[n..];
      NonSpaceConcat(s[..n], s[n..]);
    }
  }

  /** How many characters the scanner consumes at the front of `s`. */
  function FirstRun(s: string): (n: nat)
    requires s != []
    ensures 1 <= n <= |s|
  {
    if IsWordChar(s[0]) then LeadingRun(s, IsWordChar) else 1
  }

  lemma ScanStep(s: string)
    requires s != []
    ensures Flatten(Scan(s)) == NonSpace(s[..FirstRun(s)]) + Flatten(Scan(s[FirstRun(s)..]))
  {
    var n := FirstRun(s);
    if IsSpace(s[0]) {
      assert s[..n] == [s[0]];
    } else if IsWordChar(s[0]) {
      WordCharIsNotSpaceAll(s[..n]);
      var rest := Scan(s[n..]);
      assert ([s[..n]] + rest)[1..] == rest;
    } else {
      assert s[..n] == [s[0]];
      var rest := Scan(s[1..]);
      assert ([[s[0]]] + rest)[1..] == rest;
    }
  }

  function Flatten(ss: seq<string>): string {
    if ss == [] then [] else ss[0] + Flatten(ss[1..])
  }

  /** `s` with every whitespace character removed. */
  function NonSpace(s: string): string {
    if s == [] then [] else (if IsSpace(s[0]) then [] else [s[0]]) + NonSpace(s[1..])
  }

  lemma {:induction false} NonSpaceConcat(a: string, b: string)
    ensures NonSpace(a + b) == NonSpace(a) + NonSpace(b)
  {
    if a == [] {
      assert a + b == b;
    } else {
      assert (a + b)[0] == a[0] && (a + b)[1..] == a[1..] + b;
      NonSpaceConcat(a[1..], b);
      var h := if IsSpace(a[0]) then [] else [a[0]];
      assert NonSpace(a + b) == h + (NonSpace(a[1..]) + NonSpace(b));
    }
  }

  lemma {:induction false} WordCharIsNotSpaceAll(w: string)
    requires forall i :: 0 <= i < |w| ==> IsWordChar(w[i])
    ensures NonSpace(w) == w
  {
    if w != [] {
      WordCharIsNotSpace(w[0]);
      WordCharIsNotSpaceAll(w[1..]);
    }
  }

  // ---------------------------------------------------------------------
  // Decoding text: join with spaces, then `re.sub(r'\s+([.,!?;:])', r'\1', text)`
  // ---------------------------------------------------------------------

  predicate IsClosingPunct(c: char) {
    c == '.' || c == ',' || c == '!' || c == '?' || c == ';' || c == ':'
  }

  /** `re.sub(r'\s+([.,!?;:])', r'\1', s)`: a whitespace run is dropped exactly when one of `.,!?;:` follows it. */
  function RemoveSpaceBeforePunct(s: string): (r: string)
    ensures |r| <= |s|
    decreases |s|
  {
    if s == [] then []
    else if IsSpace(s[0]) then
      var n := LeadingRun(s, IsSpace);
      (if n < |s| && IsClosingPunct(s[n]) then [] else s[..n]) + RemoveSpaceBeforePunct(s[n..])
    else
      [s[0]] + RemoveSpaceBeforePunct(s[1..])
  }

  /**
   * What joining and cleaning make of a list of tokens: one space between
   * neighbours, none before a closing punctuation mark.
   */
  function Glue(tokens: seq<string>): string {
    if tokens == [] then []
    else if |tokens| == 1 then tokens[0]
    else tokens[0] + (if tokens[1] != [] && IsClosingPunct(tokens[1][0]) then [] else " ") + Glue(tokens[1..])
  }

  lemma {:induction false} RemoveSpaceSkipsWord(a: string, b: string)
    requires NoSpace(a)
    ensures RemoveSpaceBeforePunct(a + b) == a + RemoveSpaceBeforePunct(b)
  {
    if a == [] {
      assert a + b == b;
    } else {
      calc {
        RemoveSpaceBeforePunct(a + b);
        { assert a + b == [a[0]] + (a[1..] + b); RemoveSpaceKeepsChar(a[0], a[1..] + b); }
        [a[0]] + RemoveSpaceBeforePunct(a[1..] + b);
        { RemoveSpaceSkipsWord(a[1..], b); }
        [a[0]] + (a[1..] + RemoveSpaceBeforePunct(b));
        { assert [a[0]] + a[1..] == a; }
        a + RemoveSpaceBeforePunct(b);
      }
    }
  }

  lemma RemoveSpaceKeepsChar(c: char, s: string)
    requires !IsSpace(c)
    ensures RemoveSpaceBeforePunct([c] + s) == [c] + RemoveSpaceBeforePunct(s)
  {
    assert ([c] + s)[1..] == s;
  }

  lemma {:induction false} RemoveSpaceJoin(tokens: seq<string>)
    requires forall k :: 0 <= k < |tokens| ==> IsToken(tokens[k])
    ensures RemoveSpaceBeforePunct(Join(tokens, " ")) == Glue(tokens)
  {
    if |tokens| > 1 {
      RemoveSpaceJoin(tokens[1..]);
      RemoveSpaceJoinStep(tokens);
    } else if |tokens| == 1 {
      TokenHasNoSpace(tokens[0]);
      RemoveSpaceSkipsWord(tokens[0], []);
      assert tokens[0] + [] == tokens[0];
    }
  }

  /** One step of `RemoveSpaceJoin`: the first token and the space after it. */
  lemma RemoveSpaceJoinStep(tokens: seq<string>)
    requires |tokens| > 1 && IsToken(tokens[0]) && IsToken(tokens[1])
    requires RemoveSpaceBeforePunct(Join(tokens[1..], " ")) == Glue(tokens[1..])
    ensures RemoveSpaceBeforePunct(Join(tokens, " ")) == Glue(tokens)
  {
    var t := tokens[0];
    var rest := Join(tokens[1..], " ");
    TokenHasNoSpace(t);
    TokenHasNoSpace(tokens[1]);
    JoinStartsWithFirst(tokens[1..]);
    var sep: string := if IsClosingPunct(tokens[1][0]) then [] else " ";
    calc {
      RemoveSpaceBeforePunct(Join(tokens, " "));
      { ConcatAssoc(t, " ", rest); }
      RemoveSpaceBeforePunct(t + (" " + rest));
      { RemoveSpaceSkipsWord(t, " " + rest); }
      t + RemoveSpaceBeforePunct(" " + rest);
      { RemoveOneSpace(rest); }
      t + (sep + RemoveSpaceBeforePunct(rest));
      t + (sep + Glue(tokens[1..]));
      { ConcatAssoc(t, sep, Glue(tokens[1..])); }
      Glue(tokens);
    }
  }

  lemma ConcatAssoc(a: string, b: string, c: string)
    ensures a + b + c == a + (b + c)
  {
  }

  /** A single space is dropped exactly when a closing punctuation mark follows it. */
  lemma RemoveOneSpace(rest: string)
    requires rest != [] && !IsSpace(rest[0])
    ensures RemoveSpaceBeforePunct(" " + rest)
      == (if IsClosingPunct(rest[0]) then [] else " ") + RemoveSpaceBeforePunct(rest)
  {
    var s := " " + rest;
    assert s[1..] == rest && s[..1] == " ";
    assert LeadingRun(s, IsSpace) == 1 by {
      assert s[1..] == rest;
    }
  }

  lemma TokenHasNoSpace(t: string)
    requires IsToken(t)
    ensures NoSpace(t) && t != []
  {
    if IsWordToken(t) {
      forall i | 0 <= i < |t| ensures !IsSpace(t[i]) {
        WordCharIsNotSpace(t[i]);
      }
    }
  }

  lemma {:induction false} JoinStartsWithFirst(tokens: seq<string>)
    requires tokens != [] && tokens[0] != []
    ensures Join(tokens, " ") != [] && Join(tokens, " ")[0] == tokens[0][0]
  {
  }

  /** A run of word characters followed by a non-word character or nothing is read as one run. */
  lemma {:induction false} LeadingRunOfPrefix(a: string, b: string, p: char -> bool)
    requires forall i :: 0 <= i < |a| ==> p(a[i])
    requires b == [] || !p(b[0])
    ensures LeadingRun(a + b, p) == |a|
  {
    if a != [] {
      assert (a + b)[1..] == a[1..] + b;
      LeadingRunOfPrefix(a[1..], b, p);
    }
  }

  lemma ScanWordThen(t: string, tail: string)
    requires IsWordToken(t)
    requires tail == [] || !IsWordChar(tail[0])
    ensures Scan(t + tail) == [t] + Scan(tail)
  {
    LeadingRunOfPrefix(t, tail, IsWordChar);
    assert (t + tail)[0] == t[0];
    assert (t + tail)[..|t|] == t && (t + tail)[|t|..] == tail;
  }

  lemma ScanSymbolThen(t: string, tail: string)
    requires IsSymbolToken(t)
    ensures Scan(t + tail) == [t] + Scan(tail)
  {
    assert (t + tail)[0] == t[0] && (t + tail)[1..] == tail;
    assert [t[0]] == t;
  }

  lemma ScanSpaceThen(tail: string)
    ensures Scan(" " + tail) == Scan(tail)
  {
    assert (" " + tail)[1..] == tail;
  }

  /** Scanning glued tokens gives the tokens back. */
  lemma {:induction false} ScanGlue(tokens: seq<string>)
    requires forall k :: 0 <= k < |tokens| ==> IsToken(tokens[k])
    ensures Scan(Glue(tokens)) == tokens
  {
    if |tokens| == 1 {
      ScanTokenThen(tokens[0], []);
      assert tokens[0] + [] == tokens[0];
    } else if |tokens| > 1 {
      var tail := GlueTail(tokens);
      assert Glue(tokens) == tokens[0] + tail;
      ScanGlue(tokens[1..]);
      ScanGlueTail(tokens);
      ScanTokenThen(tokens[0], tail);
      assert tokens == [tokens[0]] + tokens[1..];
    }
  }

  /** What follows the first token in `Glue(tokens)`: the separator and the rest. */
  function GlueTail(tokens: seq<string>): string
    requires |tokens| > 1 && tokens[1] != []
  {
    (if IsClosingPunct(tokens[1][0]) then [] else " ") + Glue(tokens[1..])
  }

  lemma ScanGlueTail(tokens: seq<string>)
    requires |tokens| > 1 && forall k :: 0 <= k < |tokens| ==> IsToken(tokens[k])
    requires Scan(Glue(tokens[1..])) == tokens[1..]
    ensures Scan(GlueTail(tokens)) == tokens[1..]
    ensures !IsWordChar(GlueTail(tokens)[0])
  {
    var g := Glue(tokens[1..]);
    GlueStartsWithFirst(tokens[1..]);
    if IsClosingPunct(tokens[1][0]) {
      assert GlueTail(tokens) == g;
      assert g[0] == tokens[1][0];
    } else {
      assert GlueTail(tokens) == " " + g;
      ScanSpaceThen(g);
    }
  }

  lemma ScanTokenThen(t: string, tail: string)
    requires IsToken(t)
    requires tail == [] || !IsWordChar(tail[0])
    ensures Scan(t + tail) == [t] + Scan(tail)
  {
    if IsWordToken(t) {
      ScanWordThen(t, tail);
    } else {
      ScanSymbolThen(t, tail);
    }
  }

  lemma {:induction false} GlueStartsWithFirst(tokens: seq<string>)
    requires tokens != [] && forall k :: 0 <= k < |tokens| ==> tokens[k] != []
    ensures Glue(tokens) != [] && Glue(tokens)[0] == tokens[0][0]
    ensures Glue(tokens)[|Glue(tokens)| - 1] == tokens[|tokens| - 1][|tokens[|tokens| - 1]| - 1]
  {
    if |tokens| > 1 {
      GlueStartsWithFirst(tokens[1..]);
    }
  }

  lemma {:induction false} GlueIsLowercase(tokens: seq<string>)
    requires forall k :: 0 <= k < |tokens| ==> IsLowercase(tokens[k])
    ensures IsLowercase(Glue(tokens))
  {
    if |tokens| > 1 {
      GlueIsLowercase(tokens[1..]);
    }
  }

  lemma {:induction false} ScanOfLowercase(s: string)
    requires IsLowercase(s)
    ensures forall k :: 0 <= k < |Scan(s)| ==> IsLowercase(Scan(s)[k])
    decreases |s|
  {
    if s != [] {
      if IsSpace(s[0]) {
        ScanOfLowercase(s[1..]);
      } else if IsWordChar(s[0]) {
        var n := LeadingRun(s, IsWordChar);
        ScanOfLowercase(s[n..]);
      } else {
        ScanOfLowercase(s[1..]);
      }
    }
  }

  /** Every token `Tokenize` yields is in lower case. */
  lemma TokensAreLowercase(text: string)
    ensures forall k :: 0 <= k < |Tokenize(text)| ==> IsLowercase(Tokenize(text)[k])
  {
    var s := Lower(Strip(text));
    forall i | 0 <= i < |s| ensures ToLower(s[i]) == s[i] {
      ToLowerKeepsClass(Strip(text)[i]);
    }
    ScanOfLowercase(s);
  }

  lemma StripKeepsTrimmed(g: string)
    requires g == [] || (!IsSpace(g[0]) && !IsSpace(g[|g| - 1]))
    ensures Strip(g) == g
  {
    if g != [] {
      assert LeadingRun(g, IsSpace) == 0;
      assert g[0..] == g;
      assert TrailingRun(g, IsSpace) == 0;
      assert g[..|g|] == g;
    }
  }

  lemma LowerKeepsLowercase(g: string)
    requires IsLowercase(g)
    ensures Lower(g) == g
  {
  }

  lemma GlueIsTrimmed(tokens: seq<string>)
    requires forall k :: 0 <= k < |tokens| ==> IsToken(tokens[k])
    ensures var g := Glue(tokens); g == [] || (!IsSpace(g[0]) && !IsSpace(g[|g| - 1]))
  {
    if tokens != [] {
      GlueStartsWithFirst(tokens);
      TokenHasNoSpace(tokens[0]);
      TokenHasNoSpace(tokens[|tokens| - 1]);
    }
  }

  /** Tokenizing glued tokens gives them back: lower-casing and trimming change nothing. */
  lemma TokenizeGlue(tokens: seq<string>)
    requires forall k :: 0 <= k < |tokens| ==> IsToken(tokens[k]) && IsLowercase(tokens[k])
    ensures Tokenize(Glue(tokens)) == tokens
  {
    var g := Glue(tokens);
    GlueIsTrimmed(tokens);
    StripKeepsTrimmed(g);
    GlueIsLowercase(tokens);
    LowerKeepsLowercase(g);
    ScanGlue(tokens);
  }

  // ---------------------------------------------------------------------
  // Word counts: a `collections.Counter`, i.e. a dict in first-seen order
  // ---------------------------------------------------------------------

  type Counter = Dict.Dict<string, nat>

  /** `counter[w]`: zero for an absent word. */
  function Count(c: Counter, w: string): nat {
    Dict.Get(c, w).GetOr(0)
  }

  /** `counter.update(words)`: one more per occurrence; a new word goes to the end. */
  function Tally(c: Counter, words: seq<string>): Counter
    decreases |words|
  {
    if words == [] then c
    else
      Bump(Tally(c, words[..|words| - 1]), words[|words| - 1])
  }

  /** `counter[w] += 1`. */
  function Bump(c: Counter, w: string): Counter {
    var n: nat := Count(c, w) + 1;
    Dict.Set(c, w, n)
  }

  /** The counting loop of `build_from_texts`: the tokens of every text, text by text. */
  function TallyTexts(c: Counter, texts: seq<string>): Counter
    decreases |texts|
  {
    if texts == [] then c
    else Tally(TallyTexts(c, texts[..|texts| - 1]), Tokenize(texts[|texts| - 1]))
  }

  lemma BumpCount(c: Counter, w: string, x: string)
    ensures Count(Bump(c, w), x) == Count(c, x) + if x == w then 1 else 0
  {
    var n: nat := Count(c, w) + 1;
    Dict.GetSet(c, w, n, x);
  }

  lemma BumpKeepsDistinct(c: Counter, w: string)
    requires Dict.DistinctKeys(c)
    ensures Dict.DistinctKeys(Bump(c, w))
  {
    var n: nat := Count(c, w) + 1;
    Dict.SetKeepsDistinct(c, w, n);
  }

  /** After an update every word's count has grown by its number of occurrences. */
  lemma {:induction false} TallyCounts(c: Counter, words: seq<string>, w: string)
    ensures Count(Tally(c, words), w) == Count(c, w) + multiset(words)[w]
    decreases |words|
  {
    if words != [] {
      var init := words[..|words| - 1];
      TallyCounts(c, init, w);
      TallyLast(c, words, w);
      MultisetLast(words, w);
    }
  }

  lemma TallyLast(c: Counter, words: seq<string>, w: string)
    requires words != []
    ensures Count(Tally(c, words), w)
      == Count(Tally(c, words[..|words| - 1]), w) + if w == words[|words| - 1] then 1 else 0
  {
    BumpCount(Tally(c, words[..|words| - 1]), words[|words| - 1], w);
  }

  lemma MultisetLast(words: seq<string>, w: string)
    requires words != []
    ensures multiset(words)[w] == multiset(words[..|words| - 1])[w] + if w == words[|words| - 1] then 1 else 0
  {
    assert words == words[..|words| - 1] + [words[|words| - 1]];
  }

  /** An update never gives one word two entries. */
  lemma {:induction false} TallyKeepsDistinct(c: Counter, words: seq<string>)
    requires Dict.DistinctKeys(c)
    ensures Dict.DistinctKeys(Tally(c, words))
    decreases |words|
  {
    if words != [] {
      var init := words[..|words| - 1];
      var last := words[|words| - 1];
      TallyKeepsDistinct(c, init);
      BumpKeepsDistinct(Tally(c, init), last);
    }
  }

  lemma {:induction false} TallyTextsKeepsDistinct(c: Counter, texts: seq<string>)
    requires Dict.DistinctKeys(c)
    ensures Dict.DistinctKeys(TallyTexts(c, texts))
    decreases |texts|
  {
    if texts != [] {
      TallyTextsKeepsDistinct(c, texts[..|texts| - 1]);
      TallyKeepsDistinct(TallyTexts(c, texts[..|texts| - 1]), Tokenize(texts[|texts| - 1]));
    }
  }

  // ---------------------------------------------------------------------
  // `Counter.most_common()`: a stable sort by count, highest first
  // ---------------------------------------------------------------------

  /** Position of the entry for `w` in the counter (`|c|` if there is none). */
  function KeyIndex(c: Counter, w: string): (i: nat)
    ensures i <= |c|
    ensures i < |c| <==> w in Dict.Keys(c)
    ensures i < |c| ==> c[i].0 == w
  {
    if c == [] then 0 else if c[0].0 == w then 0 else 1 + KeyIndex(c[1..], w)
  }

  /** Entry `x` is listed before entry `y`: a higher count, or the same count and an earlier first occurrence. */
  predicate Precedes(c: Counter, x: (string, nat), y: (string, nat)) {
    x.1 > y.1 || (x.1 == y.1 && KeyIndex(c, x.0) < KeyIndex(c, y.0))
  }

  /** `r` lists entries in `most_common` order for the counter `c`. */
  predicate RankedBy(c: Counter, r: seq<(string, nat)>) {
    forall i, j :: 0 <= i < j < |r| ==> Precedes(c, r[i], r[j])
  }

  /** How many leading entries of `l` have a count of at least `n`. */
  function InsertionPoint(l: seq<(string, nat)>, n: nat): (p: nat)
    ensures p <= |l|
    ensures forall i :: 0 <= i < p ==> l[i].1 >= n
    ensures p < |l| ==> l[p].1 < n
  {
    if l == [] || l[0].1 < n then 0 else 1 + InsertionPoint(l[1..], n)
  }

  /** Insert `e` after every entry whose count is at least its own. */
  function InsertByCount(l: seq<(string, nat)>, e: (string, nat)): (r: seq<(string, nat)>)
    ensures multiset(r) == multiset(l) + multiset{e}
  {
    var p := InsertionPoint(l, e.1);
    assert l == l[..p] + l[p..];
    l[..p] + [e] + l[p..]
  }

  /** `counter.most_common()`: every entry once, highest count first, ties in counter order. */
  function MostCommon(c: Counter): (r: seq<(string, nat)>)
    ensures multiset(r) == multiset(c)
    decreases |c|
  {
    if c == [] then []
    else
      assert c == c[..|c| - 1] + [c[|c| - 1]];
      InsertByCount(MostCommon(c[..|c| - 1]), c[|c| - 1])
  }

  /** With distinct keys, the position of an entry's key is the entry's own position. */
  lemma {:induction false} KeyIndexAt(c: Counter, i: nat)
    requires Dict.DistinctKeys(c) && i < |c|
    ensures KeyIndex(c, c[i].0) == i
  {
    if i > 0 {
      assert c[0].0 != c[i].0;
      DistinctKeysTail(c);
      KeyIndexAt(c[1..], i - 1);
    }
  }

  lemma DistinctKeysTail(c: Counter)
    requires c != [] && Dict.DistinctKeys(c)
    ensures Dict.DistinctKeys(c[1..])
  {
    forall a, b | 0 <= a < b < |c| - 1 ensures c[1..][a].0 != c[1..][b].0 {
      assert c[1..][a] == c[a + 1] && c[1..][b] == c[b + 1];
    }
  }

  /** Inserting an entry whose counter position is after all others keeps the order. */
  lemma InsertRanked(c: Counter, l: seq<(string, nat)>, e: (string, nat))
    requires RankedBy(c, l)
    requires forall i :: 0 <= i < |l| ==> KeyIndex(c, l[i].0) < KeyIndex(c, e.0)
    ensures RankedBy(c, InsertByCount(l, e))
  {
    var p := InsertionPoint(l, e.1);
    var r := InsertByCount(l, e);
    InsertShape(l, e);
    forall k | p <= k < |l| ensures l[k].1 < e.1 {
      if k > p {
        assert Precedes(c, l[p], l[k]);
      }
    }
    forall i, j | 0 <= i < j < |r| ensures Precedes(c, r[i], r[j]) {
      if i < p && j < p {
        assert Precedes(c, l[i], l[j]);
      } else if i < p && p < j {
        assert Precedes(c, l[i], l[j - 1]);
      } else if p < i {
        assert Precedes(c, l[i - 1], l[j - 1]);
      }
    }
  }

  /** Where the entries end up after an insertion. */
  lemma InsertShape(l: seq<(string, nat)>, e: (string, nat))
    ensures var p := InsertionPoint(l, e.1);
      var r := InsertByCount(l, e);
      && |r| == |l| + 1 && r[p] == e
      && (forall k :: 0 <= k < p ==> r[k] == l[k])
      && (forall k :: p < k < |r| ==> r[k] == l[k - 1])
  {
  }

  /** An entry before the last one keeps its counter position and comes before the last key. */
  lemma EarlierEntryIndex(c: Counter, a: nat)
    requires Dict.DistinctKeys(c) && a < |c| - 1
    ensures KeyIndex(c, c[a].0) == KeyIndex(c[..|c| - 1], c[a].0) < KeyIndex(c, c[|c| - 1].0)
  {
    var init := c[..|c| - 1];
    DistinctKeysInit(c);
    assert init[a] == c[a];
    KeyIndexAt(init, a);
    KeyIndexAt(c, a);
    KeyIndexAt(c, |c| - 1);
  }

  /** The ranking of all but the last entry stays a ranking in the whole counter, and the last key comes after it. */
  lemma RankedInExtension(c: Counter, l: seq<(string, nat)>)
    requires c != [] && Dict.DistinctKeys(c)
    requires RankedBy(c[..|c| - 1], l) && multiset(l) == multiset(c[..|c| - 1])
    ensures RankedBy(c, l)
    ensures forall i :: 0 <= i < |l| ==> KeyIndex(c, l[i].0) < KeyIndex(c, c[|c| - 1].0)
  {
    forall i | 0 <= i < |l| ensures KeyIndex(c, l[i].0) == KeyIndex(c[..|c| - 1], l[i].0) < KeyIndex(c, c[|c| - 1].0) {
      PrefixEntryIndex(c, l[i]);
    }
    RankedTransfer(c[..|c| - 1], c, l);
  }

  lemma PrefixEntryIndex(c: Counter, x: (string, nat))
    requires c != [] && Dict.DistinctKeys(c) && x in multiset(c[..|c| - 1])
    ensures KeyIndex(c, x.0) == KeyIndex(c[..|c| - 1], x.0) < KeyIndex(c, c[|c| - 1].0)
  {
    var init := c[..|c| - 1];
    var a :| 0 <= a < |init| && init[a] == x;
    EarlierEntryIndex(c, a);
  }

  /** A ranking stays one under another counter that orders its keys the same way. */
  lemma RankedTransfer(c: Counter, d: Counter, l: seq<(string, nat)>)
    requires RankedBy(c, l)
    requires forall i :: 0 <= i < |l| ==> KeyIndex(d, l[i].0) == KeyIndex(c, l[i].0)
    ensures RankedBy(d, l)
  {
    forall i, j | 0 <= i < j < |l| ensures Precedes(d, l[i], l[j]) {
      assert Precedes(c, l[i], l[j]);
    }
  }

  /** `most_common` lists each entry of a counter exactly in rank order. */
  lemma {:induction false} MostCommonRanked(c: Counter)
    requires Dict.DistinctKeys(c)
    ensures RankedBy(c, MostCommon(c))
    decreases |c|
  {
    if c != [] {
      var n := |c| - 1;
      var init := c[..n];
      var e := c[n];
      var l := MostCommon(init);
      MostCommonRanked(init);
      RankedInExtension(c, l);
      InsertRanked(c, l, e);
    }
  }

  /** The entries of a counter keep their counts once ranked. */
  lemma EntryCount(c: Counter, x: (string, nat))
    requires Dict.DistinctKeys(c) && x in c
    ensures Count(c, x.0) == x.1 && x.0 in Dict.Keys(c)
  {
    var a :| 0 <= a < |c| && c[a] == x;
    assert Dict.Keys(c)[a] == x.0;
    Dict.GetAt(c, a);
  }

  /** A ranked list of the entries of a counter never lists one word twice. */
  lemma RankedDistinct(c: Counter, r: seq<(string, nat)>)
    requires Dict.DistinctKeys(c) && RankedBy(c, r)
    requires forall x :: x in r ==> x in c
    ensures Dict.DistinctKeys(r)
  {
    forall i, j | 0 <= i < j < |r| ensures r[i].0 != r[j].0 {
      EntryCount(c, r[i]);
      EntryCount(c, r[j]);
      assert Precedes(c, r[i], r[j]);
    }
  }

  // ---------------------------------------------------------------------
  // Id assignment
  // ---------------------------------------------------------------------

  /** The two maps of a vocabulary and the next id to hand out. */
  datatype IdMaps = IdMaps(word2idx: map<string, int>, idx2word: map<int, string>, next: int)

  /** The maps of a newly constructed vocabulary: the reserved tokens only. */
  function SpecialIds(): (m: map<string, int>)
    ensures forall k :: 0 <= k < |SPECIAL_TOKENS| ==> SPECIAL_TOKENS[k] in m && m[SPECIAL_TOKENS[k]] == k
    ensures forall w :: w in m <==> w in SPECIAL_TOKENS
  {
    map[PAD_TOKEN := PAD_ID, START_TOKEN := START_ID, END_TOKEN := END_ID, UNK_TOKEN := UNK_ID]
  }

  function SpecialWords(): (m: map<int, string>)
    ensures forall k :: 0 <= k < |SPECIAL_TOKENS| ==> k in m && m[k] == SPECIAL_TOKENS[k]
    ensures forall i :: i in m <==> 0 <= i < |SPECIAL_TOKENS|
  {
    map[PAD_ID := PAD_TOKEN, START_ID := START_TOKEN, END_ID := END_TOKEN, UNK_ID := UNK_TOKEN]
  }

  /** Both maps send each reserved token to its fixed id and back. */
  predicate HasSpecials(word2idx: map<string, int>, idx2word: map<int, string>) {
    forall k :: 0 <= k < |SPECIAL_TOKENS| ==>
      SPECIAL_TOKENS[k] in word2idx && word2idx[SPECIAL_TOKENS[k]] == k
      && k in idx2word && idx2word[k] == SPECIAL_TOKENS[k]
  }

  /** One pass of the assignment loop: a ranked word with enough occurrences and no id yet takes `next`. */
  function AssignStep(st: IdMaps, e: (string, nat), minFrequency: int): IdMaps {
    if e.1 >= minFrequency && e.0 !in st.word2idx then
      IdMaps(st.word2idx[e.0 := st.next], st.idx2word[st.next := e.0], st.next + 1)
    else st
  }

  /**
   * The assignment loop of `build_from_texts` over the ranked entries.
   * A word that already has an id keeps it; ids are only ever added, from `st.next` up.
   */
  function AssignIds(st: IdMaps, ranked: seq<(string, nat)>, minFrequency: int): IdMaps
    decreases |ranked|
  {
    if ranked == [] then st
    else AssignStep(AssignIds(st, ranked[..|ranked| - 1], minFrequency), ranked[|ranked| - 1], minFrequency)
  }

  /** The loop only adds: a word keeps its id, and ids below the starting `next` keep their word. */
  lemma {:induction false} AssignOnlyAdds(st: IdMaps, ranked: seq<(string, nat)>, minFrequency: int)
    ensures var r := AssignIds(st, ranked, minFrequency);
      && st.next <= r.next
      && (forall w :: w in st.word2idx ==> w in r.word2idx && r.word2idx[w] == st.word2idx[w])
      && (forall i :: i in st.idx2word && i < st.next ==> i in r.idx2word && r.idx2word[i] == st.idx2word[i])
    decreases |ranked|
  {
    if ranked != [] {
      AssignOnlyAdds(st, ranked[..|ranked| - 1], minFrequency);
    }
  }

  /** Every build keeps the reserved tokens on ids 0..3, whatever state it starts from. */
  lemma AssignKeepsSpecials(st: IdMaps, ranked: seq<(string, nat)>, minFrequency: int)
    requires HasSpecials(st.word2idx, st.idx2word) && st.next >= |SPECIAL_TOKENS|
    ensures HasSpecials(AssignIds(st, ranked, minFrequency).word2idx, AssignIds(st, ranked, minFrequency).idx2word)
  {
    AssignOnlyAdds(st, ranked, minFrequency);
  }

  /** A ranked entry that takes a fresh id: enough occurrences, and not a reserved token. */
  predicate Eligible(e: (string, nat), minFrequency: int) {
    e.1 >= minFrequency && e.0 !in SPECIAL_TOKENS
  }

  /** The words a fresh vocabulary gives ids to, in the order it gives them. */
  function Selected(ranked: seq<(string, nat)>, minFrequency: int): (ws: seq<string>)
    ensures forall k :: 0 <= k < |ws| ==> ws[k] !in SPECIAL_TOKENS
    decreases |ranked|
  {
    if ranked == [] then []
    else
      var ws := Selected(ranked[..|ranked| - 1], minFrequency);
      var e := ranked[|ranked| - 1];
      if Eligible(e, minFrequency) then ws + [e.0] else ws
  }

  /** A word is selected exactly when some ranked entry for it is eligible. */
  lemma {:induction false} SelectedMembers(ranked: seq<(string, nat)>, minFrequency: int, w: string)
    ensures w in Selected(ranked, minFrequency)
      <==> exists i :: 0 <= i < |ranked| && ranked[i].0 == w && Eligible(ranked[i], minFrequency)
    decreases |ranked|
  {
    if ranked != [] {
      var init := ranked[..|ranked| - 1];
      SelectedMembers(init, minFrequency, w);
      assert forall i :: 0 <= i < |init| ==> init[i] == ranked[i];
    }
  }

  /** `ws[k]` mapped to `base + k`. */
  function IdsFrom(ws: seq<string>, base: int): (m: map<string, int>)
    ensures forall w :: w in m <==> w in ws
    decreases |ws|
  {
    if ws == [] then map[]
    else IdsFrom(ws[..|ws| - 1], base)[ws[|ws| - 1] := base + |ws| - 1]
  }

  /** `base + k` mapped to `ws[k]`. */
  function WordsFrom(ws: seq<string>, base: int): (m: map<int, string>)
    ensures forall i :: i in m <==> base <= i < base + |ws|
    ensures forall k :: 0 <= k < |ws| ==> m[base + k] == ws[k]
    decreases |ws|
  {
    if ws == [] then map[]
    else WordsFrom(ws[..|ws| - 1], base)[base + |ws| - 1 := ws[|ws| - 1]]
  }

  predicate Distinct(ws: seq<string>) {
    forall i, j :: 0 <= i < j < |ws| ==> ws[i] != ws[j]
  }

  lemma {:induction false} IdsFromAt(ws: seq<string>, base: int, k: nat)
    requires Distinct(ws) && k < |ws|
    ensures IdsFrom(ws, base)[ws[k]] == base + k
    decreases |ws|
  {
    if k < |ws| - 1 {
      IdsFromAt(ws[..|ws| - 1], base, k);
    }
  }

  lemma {:induction false} SelectedDistinct(ranked: seq<(string, nat)>, minFrequency: int)
    requires Dict.DistinctKeys(ranked)
    ensures Distinct(Selected(ranked, minFrequency))
    decreases |ranked|
  {
    if ranked != [] {
      var init := ranked[..|ranked| - 1];
      var e := ranked[|ranked| - 1];
      SelectedDistinct(init, minFrequency);
      if Eligible(e, minFrequency) {
        forall i | 0 <= i < |init| ensures init[i].0 != e.0 {
          assert init[i] == ranked[i];
        }
        SelectedMembers(init, minFrequency, e.0);
      }
    }
  }

  /** The state of a newly constructed vocabulary. */
  function FreshIds(): IdMaps {
    IdMaps(SpecialIds(), SpecialWords(), |SPECIAL_TOKENS|)
  }

  lemma {:induction false} IdsFromSnoc(ws: seq<string>, w: string, base: int)
    ensures IdsFrom(ws + [w], base) == IdsFrom(ws, base)[w := base + |ws|]
    ensures WordsFrom(ws + [w], base) == WordsFrom(ws, base)[base + |ws| := w]
  {
    assert (ws + [w])[..|ws|] == ws;
  }

  /** The state after assigning the words `ws` on a fresh vocabulary. */
  function FreshAfter(ws: seq<string>): IdMaps {
    IdMaps(SpecialIds() + IdsFrom(ws, 4), SpecialWords() + WordsFrom(ws, 4), 4 + |ws|)
  }

  lemma MapUnionUpdate<K, V>(a: map<K, V>, b: map<K, V>, k: K, v: V)
    ensures (a + b)[k := v] == a + b[k := v]
  {
  }

  lemma FreshAfterStep(ws: seq<string>, e: (string, nat), minFrequency: int)
    requires e.0 !in ws && Eligible(e, minFrequency)
    ensures AssignStep(FreshAfter(ws), e, minFrequency) == FreshAfter(ws + [e.0])
    ensures |FreshAfter(ws + [e.0]).word2idx| == |FreshAfter(ws).word2idx| + 1
  {
    var st := FreshAfter(ws);
    IdsFromSnoc(ws, e.0, 4);
    MapUnionUpdate(SpecialIds(), IdsFrom(ws, 4), e.0, 4 + |ws|);
    MapUnionUpdate(SpecialWords(), WordsFrom(ws, 4), 4 + |ws|, e.0);
    assert e.0 !in st.word2idx;
  }

  lemma FreshAfterSkip(ws: seq<string>, e: (string, nat), minFrequency: int)
    requires !Eligible(e, minFrequency)
    ensures AssignStep(FreshAfter(ws), e, minFrequency) == FreshAfter(ws)
  {
  }

  lemma FreshIdsCard()
    ensures FreshAfter([]) == FreshIds()
    ensures |FreshIds().word2idx| == 4
  {
    assert SpecialIds() + map[] == SpecialIds();
    assert SpecialWords() + map[] == SpecialWords();
    SpecialIdsCard();
  }

  lemma SpecialIdsCard()
    ensures |SpecialIds()| == 4
  {
    var m := map[PAD_TOKEN := PAD_ID, START_TOKEN := START_ID, END_TOKEN := END_ID];
    assert |m| == 3 by {
      assert |map[PAD_TOKEN := PAD_ID]| == 1;
      assert PAD_TOKEN != START_TOKEN;
      assert END_TOKEN !in map[PAD_TOKEN := PAD_ID, START_TOKEN := START_ID];
    }
    assert UNK_TOKEN !in m;
  }

  /**
   * On a fresh vocabulary the loop's result has a closed form: the selected
   * words, in ranked order, take the consecutive ids 4, 5, 6, ...
   */
  lemma DistinctKeysInit(ranked: seq<(string, nat)>)
    requires ranked != [] && Dict.DistinctKeys(ranked)
    ensures Dict.DistinctKeys(ranked[..|ranked| - 1])
    ensures forall i :: 0 <= i < |ranked| - 1 ==> ranked[i].0 != ranked[|ranked| - 1].0
  {
    var init := ranked[..|ranked| - 1];
    forall i, j | 0 <= i < j < |init| ensures init[i].0 != init[j].0 {
      assert init[i] == ranked[i] && init[j] == ranked[j];
    }
  }

  /** A new non-reserved word adds one entry. */
  lemma FreshAfterCardStep(ws: seq<string>, w: string)
    requires w !in ws && w !in SPECIAL_TOKENS
    ensures |FreshAfter(ws + [w]).word2idx| == |FreshAfter(ws).word2idx| + 1
  {
    FreshAfterStep(ws, (w, 0), 0);
  }

  lemma DistinctInit(ws: seq<string>)
    requires ws != [] && Distinct(ws)
    ensures Distinct(ws[..|ws| - 1]) && ws[|ws| - 1] !in ws[..|ws| - 1]
  {
  }

  /** Distinct non-reserved words give one new id each. */
  lemma {:induction false} FreshAfterCard(ws: seq<string>)
    requires Distinct(ws) && forall k :: 0 <= k < |ws| ==> ws[k] !in SPECIAL_TOKENS
    ensures |FreshAfter(ws).word2idx| == 4 + |ws|
    decreases |ws|
  {
    if ws == [] {
      FreshIdsCard();
    } else {
      var init := ws[..|ws| - 1];
      var w := ws[|ws| - 1];
      assert init + [w] == ws;
      DistinctInit(ws);
      FreshAfterCard(init);
      FreshAfterCardStep(init, w);
    }
  }

  lemma {:induction false} FreshAssignClosed(ranked: seq<(string, nat)>, minFrequency: int)
    requires Dict.DistinctKeys(ranked)
    ensures AssignIds(FreshIds(), ranked, minFrequency) == FreshAfter(Selected(ranked, minFrequency))
    decreases |ranked|
  {
    if ranked == [] {
      FreshIdsCard();
    } else {
      var init := ranked[..|ranked| - 1];
      var e := ranked[|ranked| - 1];
      DistinctKeysInit(ranked);
      FreshAssignClosed(init, minFrequency);
      var ws := Selected(init, minFrequency);
      if Eligible(e, minFrequency) {
        SelectedMembers(init, minFrequency, e.0);
        FreshAfterStep(ws, e, minFrequency);
      } else {
        FreshAfterSkip(ws, e, minFrequency);
      }
    }
  }

  lemma FreshAssign(ranked: seq<(string, nat)>, minFrequency: int)
    requires Dict.DistinctKeys(ranked)
    ensures AssignIds(FreshIds(), ranked, minFrequency) == FreshAfter(Selected(ranked, minFrequency))
    ensures |AssignIds(FreshIds(), ranked, minFrequency).word2idx| == 4 + |Selected(ranked, minFrequency)|
  {
    FreshAssignClosed(ranked, minFrequency);
    SelectedDistinct(ranked, minFrequency);
    FreshAfterCard(Selected(ranked, minFrequency));
  }

  /** Where each selected word comes from in the ranked list: later words from later entries. */
  lemma {:induction false} SelectedOrigin(ranked: seq<(string, nat)>, minFrequency: int, k: nat) returns (i: nat)
    requires k < |Selected(ranked, minFrequency)|
    ensures i < |ranked| && ranked[i].0 == Selected(ranked, minFrequency)[k] && Eligible(ranked[i], minFrequency)
    ensures forall l :: k < l < |Selected(ranked, minFrequency)| ==>
      exists j :: i < j < |ranked| && ranked[j].0 == Selected(ranked, minFrequency)[l]
    decreases |ranked|
  {
    var init := ranked[..|ranked| - 1];
    var e := ranked[|ranked| - 1];
    var ws := Selected(init, minFrequency);
    if k == |ws| {
      i := |ranked| - 1;
    } else {
      i := SelectedOrigin(init, minFrequency, k);
      forall l | k < l < |Selected(ranked, minFrequency)|
        ensures exists j :: i < j < |ranked| && ranked[j].0 == Selected(ranked, minFrequency)[l]
      {
        if l == |ws| {
          assert ranked[|ranked| - 1].0 == Selected(ranked, minFrequency)[l];
        } else {
          var j :| i < j < |init| && init[j].0 == ws[l];
          assert ranked[j] == init[j];
        }
      }
    }
  }

  /** Facts about `most_common` of a counter with distinct keys, gathered for the theorems below. */
  lemma RankedFacts(c: Counter)
    requires Dict.DistinctKeys(c)
    ensures RankedBy(c, MostCommon(c))
    ensures Dict.DistinctKeys(MostCommon(c))
    ensures forall x :: x in MostCommon(c) <==> x in c
  {
    var r := MostCommon(c);
    MostCommonRanked(c);
    assert forall x :: x in r <==> x in multiset(r);
    RankedDistinct(c, r);
  }

  lemma FreshAfterWordToId(ws: seq<string>, w: string)
    requires Distinct(ws) && forall k :: 0 <= k < |ws| ==> ws[k] !in SPECIAL_TOKENS
    requires w in FreshAfter(ws).word2idx
    ensures FreshAfter(ws).word2idx[w] in FreshAfter(ws).idx2word
    ensures FreshAfter(ws).idx2word[FreshAfter(ws).word2idx[w]] == w
  {
    var ids := IdsFrom(ws, 4);
    var words := WordsFrom(ws, 4);
    if w in ws {
      var k :| 0 <= k < |ws| && ws[k] == w;
      IdsFromAt(ws, 4, k);
      assert (SpecialIds() + ids)[w] == 4 + k;
      assert (SpecialWords() + words)[4 + k] == words[4 + k];
    } else {
      assert w in SpecialIds();
      assert (SpecialIds() + ids)[w] == SpecialIds()[w];
      assert SpecialIds()[w] !in words;
    }
  }

  lemma FreshAfterIdToWord(ws: seq<string>, i: int)
    requires Distinct(ws) && forall k :: 0 <= k < |ws| ==> ws[k] !in SPECIAL_TOKENS
    requires i in FreshAfter(ws).idx2word
    ensures FreshAfter(ws).idx2word[i] in FreshAfter(ws).word2idx
    ensures FreshAfter(ws).word2idx[FreshAfter(ws).idx2word[i]] == i
  {
    var ids := IdsFrom(ws, 4);
    var words := WordsFrom(ws, 4);
    if i >= 4 {
      IdsFromAt(ws, 4, i - 4);
      assert (SpecialWords() + words)[i] == ws[i - 4];
      assert (SpecialIds() + ids)[ws[i - 4]] == i;
    } else {
      assert i !in words;
      assert (SpecialWords() + words)[i] == SpecialWords()[i] == SPECIAL_TOKENS[i];
      assert SPECIAL_TOKENS[i] !in ws;
      assert SPECIAL_TOKENS[i] !in ids;
    }
  }

  lemma FreshAfterSpecials(ws: seq<string>)
    requires forall k :: 0 <= k < |ws| ==> ws[k] !in SPECIAL_TOKENS
    ensures forall i :: i in FreshAfter(ws).idx2word <==> 0 <= i < FreshAfter(ws).next
    ensures HasSpecials(FreshAfter(ws).word2idx, FreshAfter(ws).idx2word)
  {
    var ids := IdsFrom(ws, 4);
    forall k | 0 <= k < |SPECIAL_TOKENS| ensures SPECIAL_TOKENS[k] !in ids {
      assert SPECIAL_TOKENS[k] !in ws;
    }
  }

  /** `word2idx` and `idx2word` undo each other. */
  predicate Inverse(word2idx: map<string, int>, idx2word: map<int, string>) {
    && (forall w :: w in word2idx ==> word2idx[w] in idx2word && idx2word[word2idx[w]] == w)
    && (forall i :: i in idx2word ==> idx2word[i] in word2idx && word2idx[idx2word[i]] == i)
  }

  /** The ids in use are exactly 0 .. n-1. */
  ghost predicate DenseIds(idx2word: map<int, string>, n: int) {
    forall i :: i in idx2word <==> 0 <= i < n
  }

  /** The words with an id are the reserved tokens and the words counted at least `minFrequency` times. */
  ghost predicate FrequentWordsOnly(word2idx: map<string, int>, c: Counter, minFrequency: int) {
    forall w :: w in word2idx <==> w in SPECIAL_TOKENS || (w in Dict.Keys(c) && Count(c, w) >= minFrequency)
  }

  /** The closed form is a pair of mutual inverses over the ids 0 .. next-1. */
  lemma FreshAfterInverse(ws: seq<string>)
    requires Distinct(ws) && forall k :: 0 <= k < |ws| ==> ws[k] !in SPECIAL_TOKENS
    ensures var st := FreshAfter(ws);
      Inverse(st.word2idx, st.idx2word) && DenseIds(st.idx2word, st.next) && HasSpecials(st.word2idx, st.idx2word)
  {
    forall w | w in FreshAfter(ws).word2idx
      ensures FreshAfter(ws).word2idx[w] in FreshAfter(ws).idx2word
      ensures FreshAfter(ws).idx2word[FreshAfter(ws).word2idx[w]] == w
    {
      FreshAfterWordToId(ws, w);
    }
    forall i | i in FreshAfter(ws).idx2word
      ensures FreshAfter(ws).idx2word[i] in FreshAfter(ws).word2idx
      ensures FreshAfter(ws).word2idx[FreshAfter(ws).idx2word[i]] == i
    {
      FreshAfterIdToWord(ws, i);
    }
    FreshAfterSpecials(ws);
  }

  /**
   * After a build on a fresh vocabulary, `word2idx` and `idx2word` are
   * mutual inverses, the ids are exactly 0 .. next-1, the reserved tokens
   * hold 0..3, and the vocabulary length equals the number of ids.
   */
  lemma FreshBuildInverse(c: Counter, minFrequency: int)
    requires Dict.DistinctKeys(c)
    ensures var st := AssignIds(FreshIds(), MostCommon(c), minFrequency);
      && Inverse(st.word2idx, st.idx2word)
      && DenseIds(st.idx2word, st.next)
      && |st.word2idx| == st.next
      && HasSpecials(st.word2idx, st.idx2word)
  {
    var ranked := MostCommon(c);
    RankedFacts(c);
    FreshAssign(ranked, minFrequency);
    SelectedDistinct(ranked, minFrequency);
    FreshAfterInverse(Selected(ranked, minFrequency));
  }

  lemma FreshAfterMembers(ws: seq<string>, w: string)
    ensures w in FreshAfter(ws).word2idx <==> w in SPECIAL_TOKENS || w in ws
  {
  }

  /** A non-reserved word is selected from a counter exactly when it is counted at least `minFrequency` times. */
  lemma SelectedOfCounter(c: Counter, minFrequency: int, w: string)
    requires Dict.DistinctKeys(c) && w !in SPECIAL_TOKENS
    ensures w in Selected(MostCommon(c), minFrequency) <==> w in Dict.Keys(c) && Count(c, w) >= minFrequency
  {
    var ranked := MostCommon(c);
    RankedFacts(c);
    SelectedMembers(ranked, minFrequency, w);
    if i :| 0 <= i < |ranked| && ranked[i].0 == w && Eligible(ranked[i], minFrequency) {
      EntryCount(c, ranked[i]);
    }
    if w in Dict.Keys(c) && Count(c, w) >= minFrequency {
      var a := KeyIndex(c, w);
      EntryCount(c, c[a]);
      assert c[a] in ranked;
      var i :| 0 <= i < |ranked| && ranked[i] == c[a];
      assert Eligible(ranked[i], minFrequency);
    }
  }

  /** A fresh build gives an id to a word exactly when it is reserved or counted at least `minFrequency` times. */
  lemma FreshBuildMembers(c: Counter, minFrequency: int, w: string)
    requires Dict.DistinctKeys(c)
    ensures w in AssignIds(FreshIds(), MostCommon(c), minFrequency).word2idx
      <==> w in SPECIAL_TOKENS || (w in Dict.Keys(c) && Count(c, w) >= minFrequency)
  {
    var ranked := MostCommon(c);
    RankedFacts(c);
    FreshAssign(ranked, minFrequency);
    FreshAfterMembers(Selected(ranked, minFrequency), w);
    if w !in SPECIAL_TOKENS {
      SelectedOfCounter(c, minFrequency, w);
    }
  }

  lemma FreshBuildKeepsFrequent(c: Counter, minFrequency: int)
    requires Dict.DistinctKeys(c)
    ensures FrequentWordsOnly(AssignIds(FreshIds(), MostCommon(c), minFrequency).word2idx, c, minFrequency)
  {
    forall w {
      FreshBuildMembers(c, minFrequency, w);
    }
  }

  /** A build from texts on a fresh vocabulary: inverse maps over dense ids, frequent words only. */
  lemma FreshBuildFromTexts(texts: seq<string>, minFrequency: int)
    ensures var c := TallyTexts([], texts);
      var st := AssignIds(IdMaps(SpecialIds(), SpecialWords(), |SPECIAL_TOKENS|), MostCommon(c), minFrequency);
      && Inverse(st.word2idx, st.idx2word) && DenseIds(st.idx2word, |st.word2idx|)
      && FrequentWordsOnly(st.word2idx, c, minFrequency)
  {
    var c := TallyTexts([], texts);
    TallyTextsKeepsDistinct([], texts);
    FreshBuildInverse(c, minFrequency);
    FreshBuildKeepsFrequent(c, minFrequency);
  }

  /** Two words with non-reserved ids in the closed form: the smaller id belongs to the earlier word. */
  lemma FreshAfterPositions(ws: seq<string>, a: string, b: string) returns (k: nat, l: nat)
    requires Distinct(ws) && forall k :: 0 <= k < |ws| ==> ws[k] !in SPECIAL_TOKENS
    requires a in FreshAfter(ws).word2idx && b in FreshAfter(ws).word2idx
    requires 4 <= FreshAfter(ws).word2idx[a] < FreshAfter(ws).word2idx[b]
    ensures k < l < |ws| && ws[k] == a && ws[l] == b
  {
    FreshAfterMembers(ws, a);
    FreshAfterMembers(ws, b);
    FreshAfterSpecials(ws);
    k :| 0 <= k < |ws| && ws[k] == a;
    l :| 0 <= l < |ws| && ws[l] == b;
    IdsFromAt(ws, 4, k);
    IdsFromAt(ws, 4, l);
  }

  /** Selected words come in `most_common` order. */
  lemma SelectedRanked(c: Counter, minFrequency: int, k: nat, l: nat)
    requires Dict.DistinctKeys(c)
    requires k < l < |Selected(MostCommon(c), minFrequency)|
    ensures var ws := Selected(MostCommon(c), minFrequency);
      Count(c, ws[k]) > Count(c, ws[l]) || (Count(c, ws[k]) == Count(c, ws[l]) && KeyIndex(c, ws[k]) < KeyIndex(c, ws[l]))
  {
    var ranked := MostCommon(c);
    var ws := Selected(ranked, minFrequency);
    RankedFacts(c);
    var i := SelectedOrigin(ranked, minFrequency, k);
    var j :| i < j < |ranked| && ranked[j].0 == ws[l];
    assert Precedes(c, ranked[i], ranked[j]);
    EntryCount(c, ranked[i]);
    EntryCount(c, ranked[j]);
  }

  /**
   * A fresh build numbers words from 4 upward in descending frequency;
   * words with the same count are numbered in order of first occurrence.
   */
  lemma FreshBuildOrder(c: Counter, minFrequency: int, a: string, b: string)
    requires Dict.DistinctKeys(c)
    requires var st := AssignIds(FreshIds(), MostCommon(c), minFrequency);
      a in st.word2idx && b in st.word2idx && |SPECIAL_TOKENS| <= st.word2idx[a] < st.word2idx[b]
    ensures Count(c, a) > Count(c, b) || (Count(c, a) == Count(c, b) && KeyIndex(c, a) < KeyIndex(c, b))
  {
    var ranked := MostCommon(c);
    RankedFacts(c);
    FreshAssign(ranked, minFrequency);
    var ws := Selected(ranked, minFrequency);
    SelectedDistinct(ranked, minFrequency);
    var k, l := FreshAfterPositions(ws, a, b);
    SelectedRanked(c, minFrequency, k, l);
  }

  /** A whitespace character at `i` directly followed by one of `.,!?;:`. */
  predicate SpaceBeforePunctAt(r: string, i: int) {
    0 <= i < |r| - 1 && IsSpace(r[i]) && IsClosingPunct(r[i + 1])
  }

  /** After cleaning, no whitespace character stands right before one of `.,!?;:`. */
  lemma {:induction false} RemoveSpaceClosesUp(s: string)
    ensures s != [] && !IsSpace(s[0]) ==> RemoveSpaceBeforePunct(s) != [] && RemoveSpaceBeforePunct(s)[0] == s[0]
    ensures forall i :: !SpaceBeforePunctAt(RemoveSpaceBeforePunct(s), i)
    decreases |s|
  {
    if s != [] {
      var r := RemoveSpaceBeforePunct(s);
      if IsSpace(s[0]) {
        var n := LeadingRun(s, IsSpace);
        var rest := RemoveSpaceBeforePunct(s[n..]);
        RemoveSpaceClosesUp(s[n..]);
        if n < |s| && IsClosingPunct(s[n]) {
          assert r == rest;
        } else {
          var run := s[..n];
          assert r == run + rest;
          forall i ensures !SpaceBeforePunctAt(r, i) {
            if 0 <= i && i + 1 < n {
              assert r[i + 1] == run[i + 1];
            } else if i + 1 == n {
              assert n < |s| ==> r[i + 1] == rest[0] == s[n];
            } else if n <= i < |r| - 1 {
              assert r[i] == rest[i - n] && r[i + 1] == rest[i - n + 1];
              assert !SpaceBeforePunctAt(rest, i - n);
            }
          }
        }
      } else {
        var rest := RemoveSpaceBeforePunct(s[1..]);
        RemoveSpaceClosesUp(s[1..]);
        assert r == [s[0]] + rest;
        forall i ensures !SpaceBeforePunctAt(r, i) {
          if 0 < i < |r| - 1 {
            assert r[i] == rest[i - 1] && r[i + 1] == rest[i];
            assert !SpaceBeforePunctAt(rest, i - 1);
          } else if i == 0 {
            assert r[0] == s[0];
          }
        }
      }
    }
  }

  /** The cleaning step deletes whitespace only: every other character survives, in order. */
  lemma {:induction false} RemoveSpaceKeepsNonSpace(s: string)
    ensures NonSpace(RemoveSpaceBeforePunct(s)) == NonSpace(s)
    decreases |s|
  {
    if s != [] {
      if IsSpace(s[0]) {
        var n := LeadingRun(s, IsSpace);
        RemoveSpaceKeepsNonSpace(s[n..]);
        var run := if n < |s| && IsClosingPunct(s[n]) then [] else s[..n];
        NonSpaceConcat(run, RemoveSpaceBeforePunct(s[n..]));
        NonSpaceConcat(s[..n], s[n..]);
        AllSpaceHasNoNonSpace(s[..n]);
        assert s == s[..n] + s[n..];
      } else {
        RemoveSpaceKeepsNonSpace(s[1..]);
        NonSpaceConcat([s[0]], RemoveSpaceBeforePunct(s[1..]));
        NonSpaceConcat([s[0]], s[1..]);
        assert s == [s[0]] + s[1..];
      }
    }
  }

  lemma {:induction false} AllSpaceHasNoNonSpace(w: string)
    requires forall i :: 0 <= i < |w| ==> IsSpace(w[i])
    ensures NonSpace(w) == []
  {
    if w != [] {
      AllSpaceHasNoNonSpace(w[1..]);
    }
  }

  // ---------------------------------------------------------------------
  // Encoding and decoding
  // ---------------------------------------------------------------------

  /** `word2idx.get(token, UNK_ID)`. */
  function IdOf(word2idx: map<string, int>, token: string): int {
    if token in word2idx then word2idx[token] else UNK_ID
  }

  /** `idx2word.get(idx, UNK_TOKEN)`. */
  function WordOf(idx2word: map<int, string>, idx: int): string {
    if idx in idx2word then idx2word[idx] else UNK_TOKEN
  }

  /** The ids of the tokens, unknown ones as `UNK_ID`. */
  function TokenIds(word2idx: map<string, int>, tokens: seq<string>): (ids: seq<int>)
    ensures |ids| == |tokens|
    ensures forall k :: 0 <= k < |tokens| && tokens[k] !in word2idx ==> ids[k] == UNK_ID
    ensures forall k :: 0 <= k < |tokens| && tokens[k] in word2idx ==> ids[k] == word2idx[tokens[k]]
    decreases |tokens|
  {
    if tokens == [] then []
    else TokenIds(word2idx, tokens[..|tokens| - 1]) + [IdOf(word2idx, tokens[|tokens| - 1])]
  }

  /** `Vocabulary.encode`: defined for every text; with reserved tokens it is START, the token ids, END. */
  function EncodeIds(word2idx: map<string, int>, text: string, addSpecialTokens: bool): (ids: seq<int>)
    ensures addSpecialTokens ==>
      && |ids| == |Tokenize(text)| + 2 && ids[0] == START_ID && ids[|ids| - 1] == END_ID
      && ids[1..|ids| - 1] == TokenIds(word2idx, Tokenize(text))
    ensures !addSpecialTokens ==> ids == TokenIds(word2idx, Tokenize(text))
  {
    var ids := TokenIds(word2idx, Tokenize(text));
    if addSpecialTokens then [START_ID] + ids + [END_ID] else ids
  }

  /** The decoding loop: look each id up, and drop reserved tokens when asked. */
  function DecodeWords(idx2word: map<int, string>, ids: seq<int>, skipSpecialTokens: bool): (words: seq<string>)
    ensures |words| <= |ids|
    ensures !skipSpecialTokens ==> |words| == |ids|
    ensures skipSpecialTokens ==> forall k :: 0 <= k < |words| ==> words[k] !in SPECIAL_TOKENS
    decreases |ids|
  {
    if ids == [] then []
    else DecodeWords(idx2word, ids[..|ids| - 1], skipSpecialTokens) + DecodeOne(idx2word, ids[|ids| - 1], skipSpecialTokens)
  }

  /** The word of one id, or nothing when it is a reserved token that is skipped. */
  function DecodeOne(idx2word: map<int, string>, id: int, skipSpecialTokens: bool): seq<string> {
    var w := WordOf(idx2word, id);
    if skipSpecialTokens && w in SPECIAL_TOKENS then [] else [w]
  }

  /** `Vocabulary.decode`: join the words with single spaces, then close up the space before `.,!?;:`. */
  function DecodeText(idx2word: map<int, string>, ids: seq<int>, skipSpecialTokens: bool): string {
    RemoveSpaceBeforePunct(Join(DecodeWords(idx2word, ids, skipSpecialTokens), " "))
  }

  /** The words of `l` that are not reserved tokens, in order. */
  function WithoutSpecials(l: seq<string>): seq<string> {
    if l == [] then []
    else WithoutSpecials(l[..|l| - 1]) + (if l[|l| - 1] in SPECIAL_TOKENS then [] else [l[|l| - 1]])
  }

  /** Skipping reserved tokens is looking every id up, then dropping the reserved words. */
  lemma {:induction false} DecodeSkipsSpecials(idx2word: map<int, string>, ids: seq<int>)
    ensures DecodeWords(idx2word, ids, true) == WithoutSpecials(DecodeWords(idx2word, ids, false))
    decreases |ids|
  {
    if ids != [] {
      var init := ids[..|ids| - 1];
      DecodeSkipsSpecials(idx2word, init);
      var l := DecodeWords(idx2word, ids, false);
      assert l[..|l| - 1] == DecodeWords(idx2word, init, false);
    }
  }

  lemma {:induction false} DecodeWordsConcat(idx2word: map<int, string>, a: seq<int>, b: seq<int>, skip: bool)
    ensures DecodeWords(idx2word, a + b, skip) == DecodeWords(idx2word, a, skip) + DecodeWords(idx2word, b, skip)
    decreases |b|
  {
    if b == [] {
      assert a + b == a;
    } else {
      var b' := b[..|b| - 1];
      var last := b[|b| - 1];
      calc {
        DecodeWords(idx2word, a + b, skip);
        { assert (a + b)[..|a + b| - 1] == a + b' && (a + b)[|a + b| - 1] == last; }
        DecodeWords(idx2word, a + b', skip) + DecodeOne(idx2word, last, skip);
        { DecodeWordsConcat(idx2word, a, b', skip); }
        DecodeWords(idx2word, a, skip) + DecodeWords(idx2word, b', skip) + DecodeOne(idx2word, last, skip);
      }
    }
  }

  /** The tokens that have an id, in order. */
  function KnownTokens(word2idx: map<string, int>, tokens: seq<string>): (r: seq<string>)
    ensures forall k :: 0 <= k < |r| ==> r[k] in tokens && r[k] in word2idx
    decreases |tokens|
  {
    if tokens == [] then []
    else
      var init := tokens[..|tokens| - 1];
      var t := tokens[|tokens| - 1];
      assert forall x :: x in init ==> x in tokens;
      KnownTokens(word2idx, init) + (if t in word2idx then [t] else [])
  }

  /** Decoding the ids of tokens gives back the known ones: unknown tokens became UNK, which is dropped. */
  lemma {:induction false} DecodeTokenIds(word2idx: map<string, int>, idx2word: map<int, string>, tokens: seq<string>)
    requires forall w :: w in word2idx ==> word2idx[w] in idx2word && idx2word[word2idx[w]] == w
    requires HasSpecials(word2idx, idx2word)
    requires forall k :: 0 <= k < |tokens| ==> tokens[k] !in SPECIAL_TOKENS
    ensures DecodeWords(idx2word, TokenIds(word2idx, tokens), true) == KnownTokens(word2idx, tokens)
    decreases |tokens|
  {
    if tokens != [] {
      var init := tokens[..|tokens| - 1];
      DecodeTokenIds(word2idx, idx2word, init);
      var ids := TokenIds(word2idx, tokens);
      assert ids[..|ids| - 1] == TokenIds(word2idx, init);
      assert UNK_TOKEN == SPECIAL_TOKENS[3];
    }
  }

  /** The decoded words of an encoding with reserved tokens are the known tokens. */
  lemma DecodeEncodedWords(word2idx: map<string, int>, idx2word: map<int, string>, tokens: seq<string>)
    requires forall w :: w in word2idx ==> word2idx[w] in idx2word && idx2word[word2idx[w]] == w
    requires HasSpecials(word2idx, idx2word)
    requires forall k :: 0 <= k < |tokens| ==> tokens[k] !in SPECIAL_TOKENS
    ensures DecodeWords(idx2word, [START_ID] + TokenIds(word2idx, tokens) + [END_ID], true) == KnownTokens(word2idx, tokens)
  {
    var ids := TokenIds(word2idx, tokens);
    DecodeWordsConcat(idx2word, [START_ID] + ids, [END_ID], true);
    DecodeWordsConcat(idx2word, [START_ID], ids, true);
    DecodeReservedId(word2idx, idx2word, START_ID);
    DecodeReservedId(word2idx, idx2word, END_ID);
    DecodeTokenIds(word2idx, idx2word, tokens);
  }

  lemma DecodeReservedId(word2idx: map<string, int>, idx2word: map<int, string>, id: int)
    requires HasSpecials(word2idx, idx2word) && 0 <= id < |SPECIAL_TOKENS|
    ensures DecodeWords(idx2word, [id], true) == []
  {
    assert WordOf(idx2word, id) == SPECIAL_TOKENS[id];
    assert [id][..0] == [];
  }

  /** Joining, cleaning and tokenizing a subsequence of a text's tokens gives it back. */
  lemma TokenizeDecodedKnown(word2idx: map<string, int>, text: string)
    ensures Tokenize(RemoveSpaceBeforePunct(Join(KnownTokens(word2idx, Tokenize(text)), " ")))
      == KnownTokens(word2idx, Tokenize(text))
  {
    var known := KnownTokens(word2idx, Tokenize(text));
    TokensAreLowercase(text);
    assert forall k :: 0 <= k < |known| ==> IsToken(known[k]) && IsLowercase(known[k]);
    RemoveSpaceJoin(known);
    TokenizeGlue(known);
  }

  /**
   * Decoding what was encoded and tokenizing again gives the tokens of the
   * original text that the vocabulary knows, in order.
   */
  lemma EncodeDecodeRoundTrip(word2idx: map<string, int>, idx2word: map<int, string>, text: string)
    requires forall w :: w in word2idx ==> word2idx[w] in idx2word && idx2word[word2idx[w]] == w
    requires HasSpecials(word2idx, idx2word)
    ensures Tokenize(DecodeText(idx2word, EncodeIds(word2idx, text, true), true)) == KnownTokens(word2idx, Tokenize(text))
  {
    var tokens := Tokenize(text);
    forall k | 0 <= k < |tokens| ensures tokens[k] !in SPECIAL_TOKENS {
      TokenIsNotSpecial(tokens[k]);
    }
    DecodeEncodedWords(word2idx, idx2word, tokens);
    TokenizeDecodedKnown(word2idx, text);
  }

  lemma {:induction false} KnownTokensAll(word2idx: map<string, int>, tokens: seq<string>)
    requires forall k :: 0 <= k < |tokens| ==> tokens[k] in word2idx
    ensures KnownTokens(word2idx, tokens) == tokens
    decreases |tokens|
  {
    if tokens != [] {
      KnownTokensAll(word2idx, tokens[..|tokens| - 1]);
      assert tokens == tokens[..|tokens| - 1] + [tokens[|tokens| - 1]];
    }
  }

  /** When every token of the text has an id, the round trip is exact. */
  lemma EncodeDecodeKnownText(word2idx: map<string, int>, idx2word: map<int, string>, text: string)
    requires forall w :: w in word2idx ==> word2idx[w] in idx2word && idx2word[word2idx[w]] == w
    requires HasSpecials(word2idx, idx2word)
    requires forall k :: 0 <= k < |Tokenize(text)| ==> Tokenize(text)[k] in word2idx
    ensures Tokenize(DecodeText(idx2word, EncodeIds(word2idx, text, true), true)) == Tokenize(text)
  {
    EncodeDecodeRoundTrip(word2idx, idx2word, text);
    KnownTokensAll(word2idx, Tokenize(text));
  }

  // ---------------------------------------------------------------------
  // The saved snapshot: JSON turns the integer keys of `idx2word` into strings
  // ---------------------------------------------------------------------

  /** The fields of a saved vocabulary file. */
  datatype VocabFile = VocabFile(
    language: string,
    word2idx: map<string, int>,
    idx2word: map<string, string>,
    wordCounts: Counter)

  /** JSON writes each integer key as its decimal text: every written key reads back as one of the integers. */
  function KeysToText(m: map<int, string>): (r: map<string, string>)
    ensures forall k :: k in r ==> IsIntKey(k) && Decimal.ParseInt(k).value in m
  {
    map k | k in TextKeys(m) :: m[Decimal.ParseInt(k).value]
  }

  /** The written keys. */
  function TextKeys(m: map<int, string>): (ks: set<string>)
    ensures forall k :: k in ks ==> IsIntKey(k) && Decimal.ParseInt(k).value in m
  {
    Decimal.IntToStringFacts();
    set i | i in m :: Decimal.IntToString(i)
  }

  /** Each integer key is written as its decimal text, with its value. */
  lemma KeysToTextAt(m: map<int, string>, i: int)
    requires i in m
    ensures Decimal.IntToString(i) in KeysToText(m) && KeysToText(m)[Decimal.IntToString(i)] == m[i]
  {
    Decimal.ParseIntRoundTrip(i);
    assert Decimal.IntToString(i) in TextKeys(m);
  }

  /** A key as `str(int)` writes it: `int(k)` reads it and writing that back gives `k`. */
  predicate IsIntKey(k: string) {
    Decimal.ParseInt(k).Some? && Decimal.IntToString(Decimal.ParseInt(k).value) == k
  }

  predicate AllIntKeys(m: map<string, string>) {
    forall k :: k in m ==> IsIntKey(k)
  }

  /** `{int(k): v for k, v in m.items()}` on keys that `str(int)` could have written: every integer comes from its own text. */
  function ParsedKeys(m: map<string, string>): (r: map<int, string>)
    requires AllIntKeys(m)
    ensures forall i :: i in r ==> Decimal.IntToString(i) in m && r[i] == m[Decimal.IntToString(i)]
  {
    map i | i in (set k | k in m :: Decimal.ParseInt(k).value) :: m[Decimal.IntToString(i)]
  }

  /** Every text key is read as an integer key with the same value. */
  lemma ParsedKeysAt(m: map<string, string>, k: string)
    requires AllIntKeys(m) && k in m
    ensures Decimal.ParseInt(k).value in ParsedKeys(m) && ParsedKeys(m)[Decimal.ParseInt(k).value] == m[k]
  {
    assert IsIntKey(k);
  }

  /** `{int(k): v for k, v in ...}`; `None` where a key is not the text of an integer. */
  function KeysFromText(m: map<string, string>): (r: Option<map<int, string>>)
    ensures r.Some? <==> AllIntKeys(m)
  {
    if AllIntKeys(m) then Some(ParsedKeys(m)) else None
  }

  /** Writing the keys as text and reading them back restores the map. */
  lemma KeysRoundTrip(m: map<int, string>)
    ensures KeysFromText(KeysToText(m)) == Some(m)
  {
    var t := KeysToText(m);
    assert AllIntKeys(t);
    var r := ParsedKeys(t);
    forall i | i in m ensures i in r && r[i] == m[i] {
      KeysToTextAt(m, i);
      ParsedKeysAt(t, Decimal.IntToString(i));
      Decimal.ParseIntRoundTrip(i);
    }
    forall i | i in r ensures i in m {
      assert Decimal.IntToString(i) in t;
      Decimal.ParseIntRoundTrip(i);
    }
    MapsEqual(r, m);
  }

  lemma MapsEqual<K, V>(a: map<K, V>, b: map<K, V>)
    requires forall k :: k in a <==> k in b
    requires forall k :: k in a ==> a[k] == b[k]
    ensures a == b
  {
  }

  /** What `save` writes for a vocabulary with these fields. */
  function Snapshot(language: string, word2idx: map<string, int>, idx2word: map<int, string>, wordCounts: Counter): VocabFile {
    VocabFile(language, word2idx, KeysToText(idx2word), wordCounts)
  }

  /** `load` after `save` restores the language, both maps and the counts. */
  lemma SaveLoadRoundTrip(language: string, word2idx: map<string, int>, idx2word: map<int, string>, wordCounts: Counter)
    ensures var f := Snapshot(language, word2idx, idx2word, wordCounts);
      && f.language == language && f.word2idx == word2idx && f.wordCounts == wordCounts
      && KeysFromText(f.idx2word) == Some(idx2word)
  {
    KeysRoundTrip(idx2word);
  }

  // ---------------------------------------------------------------------
  // The vocabulary object
  // ---------------------------------------------------------------------

  /** The maps `base + PrefixIds(k)`: the first `k` reserved tokens assigned. */
  function SpecialPrefixIds(k: nat): map<string, int>
    requires k <= |SPECIAL_TOKENS|
  {
    if k == 0 then map[] else SpecialPrefixIds(k - 1)[SPECIAL_TOKENS[k - 1] := k - 1]
  }

  function SpecialPrefixWords(k: nat): map<int, string>
    requires k <= |SPECIAL_TOKENS|
  {
    if k == 0 then map[] else SpecialPrefixWords(k - 1)[k - 1 := SPECIAL_TOKENS[k - 1]]
  }

  class Vocabulary {
    var language: string
    var word2idx: map<string, int>
    var idx2word: map<int, string>
    var wordCounts: Counter

    /** A new vocabulary knows the four reserved tokens and nothing else. */
    constructor (language: string)
      ensures this.language == language
      ensures word2idx == SpecialIds() && idx2word == SpecialWords() && wordCounts == []
      ensures HasSpecials(word2idx, idx2word)
    {
      this.language := language;
      word2idx := map[];
      idx2word := map[];
      wordCounts := [];
      new;
      InitSpecialTokens();
      assert SpecialPrefixIds(4) == SpecialIds();
      assert SpecialPrefixWords(4) == SpecialWords();
      assert map[] + SpecialIds() == SpecialIds();
      assert map[] + SpecialWords() == SpecialWords();
    }

    /** `_init_special_tokens`: each reserved token onto its fixed id, in both maps. */
    method InitSpecialTokens()
      modifies this
      ensures word2idx == old(word2idx) + SpecialPrefixIds(|SPECIAL_TOKENS|)
      ensures idx2word == old(idx2word) + SpecialPrefixWords(|SPECIAL_TOKENS|)
      ensures language == old(language) && wordCounts == old(wordCounts)
    {
      var k := 0;
      while k < |SPECIAL_TOKENS|
        invariant 0 <= k <= |SPECIAL_TOKENS|
        invariant word2idx == old(word2idx) + SpecialPrefixIds(k)
        invariant idx2word == old(idx2word) + SpecialPrefixWords(k)
        invariant language == old(language) && wordCounts == old(wordCounts)
      {
        MapUnionUpdate(old(word2idx), SpecialPrefixIds(k), SPECIAL_TOKENS[k], k);
        MapUnionUpdate(old(idx2word), SpecialPrefixWords(k), k, SPECIAL_TOKENS[k]);
        word2idx := word2idx[SPECIAL_TOKENS[k] := k];
        idx2word := idx2word[k := SPECIAL_TOKENS[k]];
        k := k + 1;
      }
    }

    /** `len(vocab)`. */
    function Length(): nat
      reads this
    {
      |word2idx|
    }

    /**
     * `build_from_texts`: count the tokens of every text, then hand out ids
     * from 4 upward in `most_common` order to words counted at least
     * `minFrequency` times that have no id yet. On a fresh vocabulary the
     * ids are consecutive, the maps are mutual inverses and the length is
     * the number of ids.
     */
    method BuildFromTexts(texts: seq<string>, minFrequency: int)
      modifies this
      ensures language == old(language)
      ensures wordCounts == TallyTexts(old(wordCounts), texts)
      ensures var st := AssignIds(IdMaps(old(word2idx), old(idx2word), |SPECIAL_TOKENS|), MostCommon(wordCounts), minFrequency);
        word2idx == st.word2idx && idx2word == st.idx2word
      ensures old(HasSpecials(word2idx, idx2word)) ==> HasSpecials(word2idx, idx2word)
      ensures old(word2idx == SpecialIds() && idx2word == SpecialWords() && wordCounts == []) ==>
        Inverse(word2idx, idx2word) && DenseIds(idx2word, Length()) && FrequentWordsOnly(word2idx, wordCounts, minFrequency)
    {
      ghost var isFresh := word2idx == SpecialIds() && idx2word == SpecialWords() && wordCounts == [];
      ghost var start := IdMaps(word2idx, idx2word, |SPECIAL_TOKENS|);
      wordCounts := CountTexts(wordCounts, texts);
      var ranked := MostCommon(wordCounts);
      word2idx, idx2word := AssignRanked(word2idx, idx2word, ranked, minFrequency);
      if HasSpecials(start.word2idx, start.idx2word) {
        AssignKeepsSpecials(start, ranked, minFrequency);
      }
      if isFresh {
        FreshBuildFromTexts(texts, minFrequency);
      }
    }

    /** The counting loop of `build_from_texts`: `word_counts.update(tokens)` for each text in turn. */
    static method CountTexts(counts: Counter, texts: seq<string>) returns (r: Counter)
      ensures r == TallyTexts(counts, texts)
    {
      r := counts;
      var i := 0;
      while i < |texts|
        invariant 0 <= i <= |texts|
        invariant r == TallyTexts(counts, texts[..i])
      {
        assert texts[..i + 1][..i] == texts[..i];
        r := Tally(r, Tokenize(texts[i]));
        i := i + 1;
      }
      assert texts[..|texts|] == texts;
    }

    /** The assignment loop of `build_from_texts`: `next_idx` starts again at 4 on every call. */
    static method AssignRanked(w2i: map<string, int>, i2w: map<int, string>, ranked: seq<(string, nat)>, minFrequency: int)
      returns (word2idx: map<string, int>, idx2word: map<int, string>)
      ensures var st := AssignIds(IdMaps(w2i, i2w, |SPECIAL_TOKENS|), ranked, minFrequency);
        word2idx == st.word2idx && idx2word == st.idx2word
    {
      word2idx, idx2word := w2i, i2w;
      var nextIdx := |SPECIAL_TOKENS|;
      var k := 0;
      while k < |ranked|
        invariant 0 <= k <= |ranked|
        invariant IdMaps(word2idx, idx2word, nextIdx) == AssignIds(IdMaps(w2i, i2w, |SPECIAL_TOKENS|), ranked[..k], minFrequency)
      {
        assert ranked[..k + 1][..k] == ranked[..k];
        var (word, count) := ranked[k];
        if count >= minFrequency && word !in word2idx {
          word2idx := word2idx[word := nextIdx];
          idx2word := idx2word[nextIdx := word];
          nextIdx := nextIdx + 1;
        }
        k := k + 1;
      }
      assert ranked[..|ranked|] == ranked;
    }

    /** `encode`: never fails; unknown tokens become `UNK_ID`. */
    function Encode(text: string, addSpecialTokens: bool): seq<int>
      reads this
    {
      EncodeIds(word2idx, text, addSpecialTokens)
    }

    /** `decode`: look up every id, drop reserved tokens if asked, join and close up punctuation. */
    method Decode(indices: seq<int>, skipSpecialTokens: bool) returns (text: string)
      ensures text == DecodeText(idx2word, indices, skipSpecialTokens)
    {
      var words: seq<string> := [];
      var k := 0;
      while k < |indices|
        invariant 0 <= k <= |indices|
        invariant words == DecodeWords(idx2word, indices[..k], skipSpecialTokens)
      {
        assert indices[..k + 1][..k] == indices[..k];
        var word := WordOf(idx2word, indices[k]);
        k := k + 1;
        if skipSpecialTokens && word in SPECIAL_TOKENS {
          continue;
        }
        words := words + [word];
      }
      assert indices[..|indices|] == indices;
      text := RemoveSpaceBeforePunct(Join(words, " "));
    }

    /** `save`, without the file: the snapshot it writes. */
    function Save(): VocabFile
      reads this
    {
      Snapshot(language, word2idx, idx2word, wordCounts)
    }

    /** `load`, without the file: a new vocabulary holding the snapshot, or an error where `int(k)` fails. */
    static method Load(file: VocabFile) returns (r: Result<Vocabulary, string>)
      ensures r.Ok? <==> KeysFromText(file.idx2word).Some?
      ensures r.Ok? ==>
        && fresh(r.value)
        && r.value.language == file.language && r.value.word2idx == file.word2idx
        && r.value.idx2word == KeysFromText(file.idx2word).value && r.value.wordCounts == file.wordCounts
    {
      var keys := KeysFromText(file.idx2word);
      if keys.None? {
        return Err("invalid literal for int()");
      }
      var v := new Vocabulary(file.language);
      v.word2idx := file.word2idx;
      v.idx2word := keys.value;
      v.wordCounts := file.wordCounts;
      return Ok(v);
    }
  }

  // ---------------------------------------------------------------------
  // Vocabulary files on disk, keyed by language (`VOCAB_FILE_TEMPLATE`)
  // ---------------------------------------------------------------------

  /** The vocabulary file of `language` exists and `Vocabulary.load` reads it without raising. */
  predicate Readable(vocabFiles: map<string, VocabFile>, language: string) {
    language in vocabFiles && KeysFromText(vocabFiles[language].idx2word).Some?
  }

  /** A vocabulary object holding what a file says, as `load` fills it. */
  predicate Holds(v: Vocabulary, file: VocabFile)
    reads v
  {
    && v.language == file.language && v.word2idx == file.word2idx
    && Some(v.idx2word) == KeysFromText(file.idx2word) && v.wordCounts == file.wordCounts
  }
}
