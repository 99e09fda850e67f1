/**
 * Data augmentation (backend/ml/data_augmentation.py): string rewrites of
 * a French/target pair and the bookkeeping that multiplies a dataset.
 *
 * Every random draw (`random.choice`, `random.random`, `random.randint`)
 * is an input: a `Draw` names the technique picked and the values it drew.
 */
module Augmentation {
  import opened Chars

  // ---------------------------------------------------------------------
  // Punctuation (`_add_punctuation_variation`)
  // ---------------------------------------------------------------------

  predicate IsEndMark(c: char) {
    c == '.' || c == '!' || c == '?'
  }

  /** The marks the variation picks from; the empty one removes the mark. */
  const PUNCTUATIONS: seq<string> := [".", "!", "?", ""]

  /** Both sides lose their trailing `.!?` and get the same drawn mark. */
  function PunctuationVariation(source: string, target: string, mark: string): (string, string) {
    (RStripBy(source, IsEndMark) + mark, RStripBy(target, IsEndMark) + mark)
  }

  /** Stripping the marks of a text that ends in none, plus one drawn mark, gives the text back. */
  lemma RStripMark(x: string, mark: string)
    requires x == [] || !IsEndMark(x[|x| - 1])
    requires mark in PUNCTUATIONS
    ensures RStripBy(x + mark, IsEndMark) == x
  {
    if mark == "" {
      assert x + mark == x;
      assert TrailingRun(x, IsEndMark) == 0;
    } else {
      var y := x + mark;
      assert y[..|y| - 1] == x;
      assert TrailingRun(y, IsEndMark) == 1 + TrailingRun(x, IsEndMark);
      assert TrailingRun(x, IsEndMark) == 0;
    }
  }

  /**
   * Each side ends with the drawn mark and nothing else from `.!?`, and
   * what precedes it is the original text without its trailing marks.
   */
  lemma PunctuationEndsWithMark(source: string, target: string, mark: string)
    requires mark in PUNCTUATIONS
    ensures var r := PunctuationVariation(source, target, mark);
      && RStripBy(r.0, IsEndMark) == RStripBy(source, IsEndMark) && r.0 == RStripBy(r.0, IsEndMark) + mark
      && RStripBy(r.1, IsEndMark) == RStripBy(target, IsEndMark) && r.1 == RStripBy(r.1, IsEndMark) + mark
  {
    RStripMark(RStripBy(source, IsEndMark), mark);
    RStripMark(RStripBy(target, IsEndMark), mark);
  }

  /** Re-punctuating a varied pair is the same as punctuating the original. */
  lemma PunctuationIdempotent(source: string, target: string, mark1: string, mark2: string)
    requires mark1 in PUNCTUATIONS
    ensures var r := PunctuationVariation(source, target, mark1);
      PunctuationVariation(r.0, r.1, mark2) == PunctuationVariation(source, target, mark2)
  {
    PunctuationEndsWithMark(source, target, mark1);
  }

  // ---------------------------------------------------------------------
  // Case (`_add_case_variation`)
  // ---------------------------------------------------------------------

  /** The three case functions the variation picks from. */
  datatype CaseVariant = Lowered | Capitalized | UpperIfOneWord

  function ApplyCase(variant: CaseVariant, x: string): string {
    match variant
    case Lowered => Lower(x)
    case Capitalized => Capitalize(x)
    case UpperIfOneWord => if |Split(x)| == 1 then Upper(x) else Capitalize(x)
  }

  /** The drawn case function, applied to each side on its own. */
  function CaseVariation(source: string, target: string, variant: CaseVariant): (string, string) {
    (ApplyCase(variant, source), ApplyCase(variant, target))
  }

  /** A case variation keeps each side's length and its lower-cased text, which is all tokenization sees. */
  lemma CaseKeepsLoweredText(source: string, target: string, variant: CaseVariant)
    ensures var r := CaseVariation(source, target, variant);
      && |r.0| == |source| && Lower(r.0) == Lower(source)
      && |r.1| == |target| && Lower(r.1) == Lower(target)
  {
    LowerIdempotent(source);
    LowerIdempotent(target);
    LowerOfUpper(source);
    LowerOfUpper(target);
    LowerOfCapitalize(source);
    LowerOfCapitalize(target);
  }

  // ---------------------------------------------------------------------
  // Spacing (`_add_spacing_variation`)
  // ---------------------------------------------------------------------

  /** `re.sub(r'\s+', ' ', s)`: every whitespace run becomes one space. */
  function CollapseSpaces(s: string): (r: string)
    ensures s != [] && IsSpace(s[0]) ==> r != [] && r[0] == ' '
    ensures s == [] ==> r == []
    decreases |s|
  {
    if s == [] then []
    else if IsSpace(s[0]) then " " + CollapseSpaces(s[LeadingRun(s, IsSpace)..])
    else [s[0]] + CollapseSpaces(s[1..])
  }

  /** `re.sub(r'\s', '  ', s)`: every whitespace character becomes two spaces. */
  function DoubleSpaces(s: string): (r: string)
    ensures s != [] && IsSpace(s[0]) ==> r != [] && r[0] == ' '
    ensures s == [] ==> r == []
  {
    if s == [] then []
    else (if IsSpace(s[0]) then "  " else [s[0]]) + DoubleSpaces(s[1..])
  }

  /** The normalisation both sides go through: runs collapsed, then stripped. */
  function Normalize(s: string): string {
    Strip(CollapseSpaces(s))
  }

  /** Both sides normalised; when the roll is under 0.3, every space doubled. */
  function SpacingVariation(source: string, target: string, roll: real): (string, string) {
    var s, t := Normalize(source), Normalize(target);
    if roll < 0.3 then (DoubleSpaces(s), DoubleSpaces(t)) else (s, t)
  }

  /** A word is left as it is by the collapsing. */
  lemma {:induction false} CollapseWord(w: string, t: string)
    requires NoSpace(w)
    ensures CollapseSpaces(w + t) == w + CollapseSpaces(t)
  {
    if w != [] {
      assert (w + t)[0] == w[0] && (w + t)[1..] == w[1..] + t;
      CollapseWord(w[1..], t);
    } else {
      assert w + t == t;
    }
  }

  /** A text with a word in it: leading whitespace, the first word, and the rest, which starts with whitespace if anything. */
  lemma FirstWord(s: string) returns (sp: string, word: string, tail: string)
    requires LeadingRun(s, IsSpace) < |s|
    ensures |sp| == LeadingRun(s, IsSpace) && s == sp + (word + tail) && s[|sp|..] == word + tail
    ensures AllSpace(sp) && word != [] && NoSpace(word) && (tail == [] || IsSpace(tail[0]))
    ensures Split(s) == [word] + Split(tail)
  {
    var lead := LeadingRun(s, IsSpace);
    var rest := s[lead..];
    var n := LeadingRun(rest, IsNonSpace);
    sp, word, tail := s[..lead], rest[..n], rest[n..];
    FirstWordShape(s);
    SplitStep(s);
  }

  /** The three parts `FirstWord` cuts a text into, as slices. */
  lemma FirstWordShape(s: string)
    requires LeadingRun(s, IsSpace) < |s|
    ensures var lead := LeadingRun(s, IsSpace);
      var rest := s[lead..];
      var n := LeadingRun(rest, IsNonSpace);
      && s == s[..lead] + rest && rest == rest[..n] + rest[n..]
      && AllSpace(s[..lead]) && n > 0 && NoSpace(rest[..n])
      && (n == |rest| || IsSpace(rest[n..][0]))
  {
    var lead := LeadingRun(s, IsSpace);
    var rest := s[lead..];
    assert IsNonSpace(rest[0]);
    RunPrefix(s, IsSpace);
    RunPrefix(rest, IsNonSpace);
    Cut(s, lead);
    Cut(rest, LeadingRun(rest, IsNonSpace));
  }

  /** The leading run, taken as a string of its own. */
  lemma RunPrefix(s: string, p: char -> bool)
    ensures var n := LeadingRun(s, p); forall i :: 0 <= i < n ==> p(s[..n][i])
  {
  }

  lemma Cut(s: string, k: nat)
    requires k <= |s|
    ensures s == s[..k] + s[k..]
  {
  }

  /** Collapsing whitespace runs does not change the words. */
  lemma {:induction false} SplitCollapse(s: string)
    ensures Split(CollapseSpaces(s)) == Split(s)
    decreases |s|
  {
    var lead := LeadingRun(s, IsSpace);
    if s == [] {
    } else if lead == |s| {
      assert CollapseSpaces(s) == " " + CollapseSpaces(s[|s|..]);
      assert s[|s|..] == [];
      SplitSpacePrefix(" ", []);
      assert " " + [] == " ";
    } else {
      var sp, word, tail := FirstWord(s);
      CollapseWord(word, tail);
      if sp != [] {
        assert CollapseSpaces(s) == " " + CollapseSpaces(word + tail);
        SplitSpacePrefix(" ", CollapseSpaces(word + tail));
      } else {
        assert word + tail == s;
      }
      SplitWord(word, CollapseSpaces(tail));
      SplitCollapse(tail);
    }
  }

  lemma {:induction false} DoubleAppend(a: string, b: string)
    ensures DoubleSpaces(a + b) == DoubleSpaces(a) + DoubleSpaces(b)
  {
    if a != [] {
      assert (a + b)[0] == a[0] && (a + b)[1..] == a[1..] + b;
      DoubleAppend(a[1..], b);
    } else {
      assert a + b == b;
    }
  }

  lemma {:induction false} DoubleWord(w: string)
    requires NoSpace(w)
    ensures DoubleSpaces(w) == w
  {
    if w != [] {
      DoubleWord(w[1..]);
    }
  }

  lemma {:induction false} DoubleSpaceRun(sp: string)
    requires AllSpace(sp)
    ensures AllSpace(DoubleSpaces(sp))
  {
    if sp != [] {
      DoubleSpaceRun(sp[1..]);
    }
  }

  /** Doubling whitespace does not change the words. */
  lemma {:induction false} SplitDouble(s: string)
    ensures Split(DoubleSpaces(s)) == Split(s)
    decreases |s|
  {
    var lead := LeadingRun(s, IsSpace);
    if lead == |s| {
      assert AllSpace(s);
      DoubleSpaceRun(s);
      SplitSpacePrefix(DoubleSpaces(s), []);
      assert DoubleSpaces(s) + [] == DoubleSpaces(s);
      SplitSpacePrefix(s, []);
      assert s + [] == s;
    } else {
      var sp, word, tail := FirstWord(s);
      DoubleAppend(sp, word + tail);
      DoubleAppend(word, tail);
      DoubleWord(word);
      DoubleSpaceRun(sp);
      SplitSpacePrefix(DoubleSpaces(sp), word + DoubleSpaces(tail));
      SplitWord(word, DoubleSpaces(tail));
      SplitDouble(tail);
    }
  }

  /** The spacing variation never changes the words of either side. */
  lemma SpacingKeepsWords(source: string, target: string, roll: real)
    ensures var r := SpacingVariation(source, target, roll);
      Split(r.0) == Split(source) && Split(r.1) == Split(target)
  {
    SplitCollapse(source);
    SplitCollapse(target);
    SplitStrip(CollapseSpaces(source));
    SplitStrip(CollapseSpaces(target));
    SplitDouble(Normalize(source));
    SplitDouble(Normalize(target));
  }

  // ---------------------------------------------------------------------
  // Character noise (`_add_character_noise`, `_add_char_noise_to_text`)
  // ---------------------------------------------------------------------

  datatype NoiseKind = Swap | Duplicate | Delete

  /** `random.randint(1, len(chars) - 2)`: a position that is neither the first nor the last. */
  predicate InnerPosition(text: string, pos: int) {
    1 <= pos <= |text| - 2
  }

  /** How much one edit changes the length. */
  function LengthChange(kind: NoiseKind): int {
    match kind
    case Swap => 0
    case Duplicate => 1
    case Delete => -1
  }

  /**
   * One edit at an inner position: swap it with its successor, duplicate
   * it, or delete it. Texts under three characters are left alone.
   */
  function NoisyText(text: string, pos: int, kind: NoiseKind): (r: string)
    requires |text| < 3 || InnerPosition(text, pos)
    ensures |text| < 3 ==> r == text
    ensures |text| >= 3 ==> |r| == |text| + LengthChange(kind)
    ensures |text| >= 3 ==> r[0] == text[0]
    ensures |text| >= 3 && (kind != Swap || pos < |text| - 2) ==> r[|r| - 1] == text[|text| - 1]
    ensures |text| >= 3 && kind == Swap && pos == |text| - 2 ==> r[|r| - 1] == text[|text| - 2]
  {
    if |text| < 3 then text
    else
      match kind
      case Swap =>
        if pos < |text| - 1 then text[..pos] + [text[pos + 1], text[pos]] + text[pos + 2..] else text
      case Duplicate => text[..pos] + [text[pos]] + text[pos..]
      case Delete => text[..pos] + text[pos + 1..]
  }

  /** A swap keeps the characters, a duplication adds one copy of the one at the position, a deletion removes it. */
  lemma NoiseCharacters(text: string, pos: int, kind: NoiseKind)
    requires |text| >= 3 && InnerPosition(text, pos)
    ensures var r := NoisyText(text, pos, kind);
      match kind
      case Swap => multiset(r) == multiset(text)
      case Duplicate => multiset(r) == multiset(text) + multiset{text[pos]}
      case Delete => multiset(r) + multiset{text[pos]} == multiset(text)
  {
    match kind
    case Swap => SwapKeepsCharacters(text, pos);
    case Duplicate => DuplicateAddsCharacter(text, pos);
    case Delete => DeleteRemovesCharacter(text, pos);
  }

  lemma SwapKeepsCharacters(text: string, pos: int)
    requires |text| >= 3 && InnerPosition(text, pos)
    ensures multiset(NoisyText(text, pos, Swap)) == multiset(text)
  {
    var front, c, d, rest := text[..pos], text[pos], text[pos + 1], text[pos + 2..];
    assert text == front + [c, d] + rest;
    assert NoisyText(text, pos, Swap) == front + [d, c] + rest;
    assert multiset([c, d]) == multiset([d, c]);
  }

  lemma DuplicateAddsCharacter(text: string, pos: int)
    requires |text| >= 3 && InnerPosition(text, pos)
    ensures multiset(NoisyText(text, pos, Duplicate)) == multiset(text) + multiset{text[pos]}
  {
    var front, back := text[..pos], text[pos..];
    assert text == front + back;
    assert NoisyText(text, pos, Duplicate) == front + [text[pos]] + back;
  }

  lemma DeleteRemovesCharacter(text: string, pos: int)
    requires |text| >= 3 && InnerPosition(text, pos)
    ensures multiset(NoisyText(text, pos, Delete)) + multiset{text[pos]} == multiset(text)
  {
    var front, c, back := text[..pos], text[pos], text[pos + 1..];
    assert text == front + [c] + back;
    assert NoisyText(text, pos, Delete) == front + back;
  }

  /** Noise touches the source only, and only when the roll is at most the noise probability. */
  function CharacterNoise(source: string, target: string, roll: real, pos: int, kind: NoiseKind, noiseProb: real): (r: (string, string))
    requires |source| < 3 || InnerPosition(source, pos)
    ensures r.1 == target
    ensures roll > noiseProb ==> r.0 == source
  {
    if roll > noiseProb then (source, target)
    else (NoisyText(source, pos, kind), target)
  }

  // ---------------------------------------------------------------------
  // Pairs and datasets (`augment_pair`, `augment_dataset`)
  // ---------------------------------------------------------------------

  /** What `_apply_random_augmentation` drew: the technique and that technique's own draws. */
  datatype Draw =
    | PunctuationDraw(mark: string)
    | CaseDraw(variant: CaseVariant)
    | SpacingDraw(spacingRoll: real)
    | NoiseDraw(noiseRoll: real, pos: int, kind: NoiseKind)

  /** A draw that `random` could have produced for this source. */
  predicate Fits(d: Draw, source: string) {
    match d
    case PunctuationDraw(mark) => mark in PUNCTUATIONS
    case NoiseDraw(_, pos, _) => |source| < 3 || InnerPosition(source, pos)
    case _ => true
  }

  function ApplyDraw(d: Draw, source: string, target: string, noiseProb: real): (string, string)
    requires Fits(d, source)
  {
    match d
    case PunctuationDraw(mark) => PunctuationVariation(source, target, mark)
    case CaseDraw(variant) => CaseVariation(source, target, variant)
    case SpacingDraw(roll) => SpacingVariation(source, target, roll)
    case NoiseDraw(roll, pos, kind) => CharacterNoise(source, target, roll, pos, kind, noiseProb)
  }

  predicate AllFit(draws: seq<Draw>, source: string) {
    forall k :: 0 <= k < |draws| ==> Fits(draws[k], source)
  }

  /** The original pair followed by one variation per draw. */
  function Group(pair: (string, string), draws: seq<Draw>, noiseProb: real): (g: seq<(string, string)>)
    requires AllFit(draws, pair.0)
    ensures |g| == |draws| + 1 && g[0] == pair
    ensures forall k :: 1 <= k <= |draws| ==> g[k] == ApplyDraw(draws[k - 1], pair.0, pair.1, noiseProb)
  {
    [pair] + seq(|draws|, k requires 0 <= k < |draws| => ApplyDraw(draws[k], pair.0, pair.1, noiseProb))
  }

  /** Draws for a dataset: `factor - 1` fitting draws for each pair (none when the factor is below 1). */
  predicate DrawsFor(pairs: seq<(string, string)>, factor: int, draws: seq<seq<Draw>>) {
    && |draws| == |pairs|
    && forall i :: 0 <= i < |pairs| ==>
         |draws[i]| == (if factor < 1 then 0 else factor - 1) && AllFit(draws[i], pairs[i].0)
  }

  /** The groups of all pairs, one after the other. */
  function Expanded(pairs: seq<(string, string)>, draws: seq<seq<Draw>>, noiseProb: real): seq<(string, string)>
    requires |draws| == |pairs| && forall i :: 0 <= i < |pairs| ==> AllFit(draws[i], pairs[i].0)
  {
    if pairs == [] then []
    else
      var n := |pairs| - 1;
      Expanded(pairs[..n], draws[..n], noiseProb) + Group(pairs[n], draws[n], noiseProb)
  }

  lemma MulSucc(n: nat, k: nat)
    ensures (n + 1) * k == n * k + k
  {
  }

  lemma BlockBound(i: nat, j: nat, n: nat, k: nat)
    requires i < n && j < k
    ensures i * k + j < n * k
  {
    var d: nat := n - i - 1;
    assert n * k == d * k + i * k + k;
    assert d * k >= 0;
  }

  /** A dataset grows by the factor (by nothing when the factor is below 1). */
  lemma {:induction false} ExpandedLength(pairs: seq<(string, string)>, factor: int, draws: seq<seq<Draw>>, noiseProb: real)
    requires DrawsFor(pairs, factor, draws)
    ensures |Expanded(pairs, draws, noiseProb)| == |pairs| * (if factor < 1 then 1 else factor)
  {
    if pairs != [] {
      var k := if factor < 1 then 1 else factor;
      var n := |pairs| - 1;
      assert DrawsFor(pairs[..n], factor, draws[..n]);
      ExpandedLength(pairs[..n], factor, draws[..n], noiseProb);
      var front := Expanded(pairs[..n], draws[..n], noiseProb);
      var g := Group(pairs[n], draws[n], noiseProb);
      assert Expanded(pairs, draws, noiseProb) == front + g;
      assert |g| == k;
      MulSucc(n, k);
    }
  }

  /** Every original sits at the start of its block, followed by its own variations. */
  lemma {:induction false} ExpandedAt(pairs: seq<(string, string)>, factor: int, draws: seq<seq<Draw>>, noiseProb: real, i: nat, j: nat)
    requires DrawsFor(pairs, factor, draws)
    requires i < |pairs| && j < (if factor < 1 then 1 else factor)
    ensures var k := if factor < 1 then 1 else factor;
      var e := Expanded(pairs, draws, noiseProb);
      && i * k + j < |e|
      && e[i * k + j] == Group(pairs[i], draws[i], noiseProb)[j]
  {
    var k := if factor < 1 then 1 else factor;
    var n := |pairs| - 1;
    assert DrawsFor(pairs[..n], factor, draws[..n]);
    ExpandedLength(pairs[..n], factor, draws[..n], noiseProb);
    var front := Expanded(pairs[..n], draws[..n], noiseProb);
    var g := Group(pairs[n], draws[n], noiseProb);
    assert Expanded(pairs, draws, noiseProb) == front + g;
    BlockIndex(front, g, n, k, i, j);
    if i < n {
      ExpandedAt(pairs[..n], factor, draws[..n], noiseProb, i, j);
      assert pairs[..n][i] == pairs[i] && draws[..n][i] == draws[i];
    }
  }

  /** Position `i * k + j` in `n` blocks of length `k` followed by one more block `g`. */
  lemma BlockIndex<T>(front: seq<T>, g: seq<T>, n: nat, k: nat, i: nat, j: nat)
    requires |front| == n * k && |g| == k && i <= n && j < k
    ensures i * k + j < |front + g|
    ensures i < n ==> i * k + j < |front| && (front + g)[i * k + j] == front[i * k + j]
    ensures i == n ==> (front + g)[i * k + j] == g[j]
  {
    if i < n {
      BlockBound(i, j, n, k);
    }
  }

  /** `DataAugmenter`: its only state is the noise probability. */
  class DataAugmenter {
    const noiseProb: real

    constructor (noiseProb: real)
      ensures this.noiseProb == noiseProb
    {
      this.noiseProb := noiseProb;
    }

    /** `augment_pair`: the original, then one variation per draw. */
    method AugmentPair(source: string, target: string, numVariations: int, draws: seq<Draw>)
      returns (variations: seq<(string, string)>)
      requires |draws| == (if numVariations < 0 then 0 else numVariations) && AllFit(draws, source)
      ensures variations == Group((source, target), draws, noiseProb)
    {
      variations := [(source, target)];
      var i := 0;
      while i < numVariations
        invariant 0 <= i <= |draws|
        invariant variations == Group((source, target), draws[..i], noiseProb)
      {
        variations := variations + [ApplyDraw(draws[i], source, target, noiseProb)];
        i := i + 1;
      }
      assert draws[..|draws|] == draws;
    }

    /** `augment_dataset`: each pair, then the variations `augment_pair` made for it. */
    method AugmentDataset(pairs: seq<(string, string)>, factor: int, draws: seq<seq<Draw>>)
      returns (augmented: seq<(string, string)>)
      requires DrawsFor(pairs, factor, draws)
      ensures augmented == Expanded(pairs, draws, noiseProb)
      ensures |augmented| == |pairs| * (if factor < 1 then 1 else factor)
    {
      augmented := [];
      for i := 0 to |pairs|
        invariant augmented == Expanded(pairs[..i], draws[..i], noiseProb)
      {
        var (source, target) := pairs[i];
        augmented := augmented + [(source, target)];
        var variations := AugmentPair(source, target, factor - 1, draws[i]);
        augmented := augmented + variations[1..];
        assert pairs[..i + 1][..i] == pairs[..i] && draws[..i + 1][..i] == draws[..i];
      }
      assert pairs[..|pairs|] == pairs && draws[..|draws|] == draws;
      ExpandedLength(pairs, factor, draws, noiseProb);
    }
  }

  // ---------------------------------------------------------------------
  // Contextual variations (`ContextualAugmenter.get_variations`)
  // ---------------------------------------------------------------------

  const CONTEXTUAL_VARIATIONS: map<string, seq<string>> := map[
    "bonjour" := ["salut", "hello", "coucou", "bonsoir", "bon matin"],
    "merci" := ["merci beaucoup", "merci bien", "grand merci"],
    "au revoir" := ["à bientôt", "à plus tard", "bye", "salut"],
    "comment allez-vous" := ["comment vas-tu", "comment ça va", "ça va"],
    "oui" := ["ok", "d'accord", "bien sûr"],
    "non" := ["pas du tout", "jamais", "négatif"]
  ]

  /** The phrase lower-cased and stripped of `.!?` at both ends, looked up in the table; `[]` when absent. */
  function GetVariations(source: string): (r: seq<string>)
    ensures r == [] || r in CONTEXTUAL_VARIATIONS.Values
  {
    var key := StripBy(Lower(source), IsEndMark);
    if key in CONTEXTUAL_VARIATIONS then CONTEXTUAL_VARIATIONS[key] else []
  }

  /** The lookup ignores case: an upper-cased or capitalized phrase finds the same variations. */
  lemma GetVariationsIgnoresCase(source: string)
    ensures GetVariations(Upper(source)) == GetVariations(source)
    ensures GetVariations(Capitalize(source)) == GetVariations(source)
  {
    LowerOfUpper(source);
    LowerOfCapitalize(source);
  }
}
