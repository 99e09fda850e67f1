/**
 * The fallback BLEU score of the evaluation module (backend/ml/evaluation.py,
 * `_simple_bleu`): clipped n-gram precisions for the orders 1 .. max_order
 * over the reference/hypothesis pairs, combined by a geometric mean.
 * A `Counter` of n-grams is a multiset; the geometric mean is a parameter.
 */
module Evaluation {
  import opened Wrappers
  import opened Chars

  /** An n-gram: `tuple(tokens[i:i+n])`. */
  type Gram = seq<string>

  // ---------------------------------------------------------------- n-grams

  /** The n-grams of a token list, one per start position, in order. */
  function NGrams(tokens: seq<string>, n: nat): (r: seq<Gram>)
    ensures |r| == if |tokens| >= n then |tokens| - n + 1 else 0
    ensures forall i :: 0 <= i < |r| ==> |r[i]| == n && r[i] == tokens[i..i + n]
  {
    if |tokens| < n then []
    else seq(|tokens| - n + 1, i requires 0 <= i < |tokens| - n + 1 => tokens[i..i + n])
  }

  /** `get_ngrams`: the loop that lists every window of `n` tokens; the `Counter` is its multiset. */
  method GetNgrams(tokens: seq<string>, n: nat) returns (grams: seq<Gram>)
    ensures grams == NGrams(tokens, n)
    ensures |multiset(grams)| == if |tokens| >= n then |tokens| - n + 1 else 0
  {
    grams := [];
    var i := 0;
    while i < |tokens| - n + 1
      invariant 0 <= i && (i == 0 || i <= |tokens| - n + 1)
      invariant grams == NGrams(tokens, n)[..i]
    {
      grams := grams + [tokens[i..i + n]];
      i := i + 1;
    }
    assert grams == NGrams(tokens, n)[..|NGrams(tokens, n)|];
  }

  // ---------------------------------------------------------------- clipped matches

  /** The distinct elements of a list in order of first occurrence: the keys of its `Counter`. */
  function Keys(xs: seq<Gram>): (r: seq<Gram>)
    ensures forall x :: x in r <==> x in xs
    ensures Distinct(r)
  {
    if xs == [] then []
    else
      var n := |xs| - 1;
      var d := Keys(xs[..n]);
      assert forall x :: x in xs <==> x in xs[..n] || x == xs[n];
      if xs[n] in d then d else d + [xs[n]]
  }

  predicate Distinct(xs: seq<Gram>) {
    forall i, j :: 0 <= i < j < |xs| ==> xs[i] != xs[j]
  }

  function Min(a: nat, b: nat): nat {
    if a <= b then a else b
  }

  /** `min(hyp[g], ref[g])` summed over the keys `ks`. */
  function ClipSum(ks: seq<Gram>, hyp: multiset<Gram>, ref: multiset<Gram>): nat {
    if ks == [] then 0
    else
      var n := |ks| - 1;
      ClipSum(ks[..n], hyp, ref) + Min(hyp[ks[n]], ref[ks[n]])
  }

  /** The matches of one sentence: for each distinct hypothesis n-gram found in the reference, the smaller count. */
  method ClippedMatches(hypGrams: seq<Gram>, refGrams: seq<Gram>) returns (m: nat)
    ensures m == |multiset(hypGrams) * multiset(refGrams)|
  {
    var hyp := multiset(hypGrams);
    var ref := multiset(refGrams);
    var keys := Keys(hypGrams);
    m := 0;
    for k := 0 to |keys|
      invariant m == ClipSum(keys[..k], hyp, ref)
    {
      assert keys[..k + 1][..k] == keys[..k];
      var g := keys[k];
      if g in ref {
        m := m + Min(hyp[g], ref[g]);
      }
    }
    assert keys[..|keys|] == keys;
    ClipSumIsIntersection(keys, hyp, ref);
  }

  /** Two multisets that agree on the keys give the same clipped sum. */
  lemma {:induction false} ClipSumAgree(ks: seq<Gram>, hyp: multiset<Gram>, hyp': multiset<Gram>, ref: multiset<Gram>)
    requires forall g :: g in ks ==> hyp[g] == hyp'[g]
    ensures ClipSum(ks, hyp, ref) == ClipSum(ks, hyp', ref)
  {
    if ks != [] {
      var n := |ks| - 1;
      assert ks[n] in ks;
      assert forall g :: g in ks[..n] ==> g in ks;
      ClipSumAgree(ks[..n], hyp, hyp', ref);
    }
  }

  /** `c` copies of `g`. */
  lemma {:induction false} CopiesCard(g: Gram, c: nat)
    ensures |multiset{}[g := c]| == c
  {
    if c > 0 {
      CopiesCard(g, c - 1);
      assert multiset{}[g := c] == multiset{}[g := c - 1] + multiset{g};
    }
  }

  /**
   * Summing the smaller count over keys that cover the hypothesis counter is
   * the size of the multiset intersection.
   */
  lemma {:induction false} ClipSumIsIntersection(ks: seq<Gram>, hyp: multiset<Gram>, ref: multiset<Gram>)
    requires Distinct(ks) && forall g :: g in hyp ==> g in ks
    ensures ClipSum(ks, hyp, ref) == |hyp * ref|
  {
    if ks == [] {
      assert hyp == multiset{};
      assert hyp * ref == multiset{};
    } else {
      var n := |ks| - 1;
      var g := ks[n];
      var rest := hyp[g := 0];
      assert forall x :: x in ks[..n] ==> x != g;
      ClipSumAgree(ks[..n], hyp, rest, ref);
      forall x | x in rest ensures x in ks[..n] {
        assert x in ks && x != g;
        var i :| 0 <= i < |ks| && ks[i] == x;
        assert ks[..n][i] == x;
      }
      assert Distinct(ks[..n]);
      ClipSumIsIntersection(ks[..n], rest, ref);
      var c := Min(hyp[g], ref[g]);
      assert hyp * ref == rest * ref + multiset{}[g := c];
      CopiesCard(g, c);
    }
  }

  /** The intersection is never larger than the hypothesis counter. */
  lemma IntersectionBound(hyp: multiset<Gram>, ref: multiset<Gram>)
    ensures |hyp * ref| <= |hyp|
  {
    assert hyp == hyp * ref + (hyp - hyp * ref);
  }

  // ---------------------------------------------------------------- corpus counts

  /** `zip(references, hypotheses)`: pairs up to the shorter list. */
  function Zip(references: seq<string>, hypotheses: seq<string>): (r: seq<(string, string)>)
    ensures |r| == if |references| <= |hypotheses| then |references| else |hypotheses|
    ensures forall i :: 0 <= i < |r| ==> r[i] == (references[i], hypotheses[i])
  {
    var m := if |references| <= |hypotheses| then |references| else |hypotheses|;
    seq(m, i requires 0 <= i < m => (references[i], hypotheses[i]))
  }

  /** Clipped matches of order `n` for one (reference, hypothesis) pair. */
  function SentenceMatches(pair: (string, string), n: nat): nat
  {
    |multiset(NGrams(Split(pair.1), n)) * multiset(NGrams(Split(pair.0), n))|
  }

  /** `max(len(hyp_tokens) - n + 1, 0)`. */
  function SentenceTotal(pair: (string, string), n: nat): nat {
    if |Split(pair.1)| >= n then |Split(pair.1)| - n + 1 else 0
  }

  function Matches(pairs: seq<(string, string)>, n: nat): nat
  {
    if pairs == [] then 0 else Matches(pairs[..|pairs| - 1], n) + SentenceMatches(pairs[|pairs| - 1], n)
  }

  function Total(pairs: seq<(string, string)>, n: nat): nat {
    if pairs == [] then 0 else Total(pairs[..|pairs| - 1], n) + SentenceTotal(pairs[|pairs| - 1], n)
  }

  /** A sentence never matches more n-grams than its hypothesis has. */
  lemma SentenceMatchesBound(pair: (string, string), n: nat)
    ensures SentenceMatches(pair, n) <= SentenceTotal(pair, n)
  {
    IntersectionBound(multiset(NGrams(Split(pair.1), n)), multiset(NGrams(Split(pair.0), n)));
  }

  /** Over the corpus, the clipped matches never exceed the total. */
  lemma {:induction false} MatchesBound(pairs: seq<(string, string)>, n: nat)
    ensures Matches(pairs, n) <= Total(pairs, n)
  {
    if pairs != [] {
      MatchesBound(pairs[..|pairs| - 1], n);
      SentenceMatchesBound(pairs[|pairs| - 1], n);
    }
  }

  /** A hypothesis identical to its reference matches every one of its n-grams. */
  lemma {:induction false} IdenticalMatchesAll(pairs: seq<(string, string)>, n: nat)
    requires forall i :: 0 <= i < |pairs| ==> pairs[i].0 == pairs[i].1
    ensures Matches(pairs, n) == Total(pairs, n)
  {
    if pairs != [] {
      var last := pairs[|pairs| - 1];
      var h := multiset(NGrams(Split(last.1), n));
      assert h * h == h;
      IdenticalMatchesAll(pairs[..|pairs| - 1], n);
    }
  }

  // ---------------------------------------------------------------- precisions and the score

  /** `(matches / total if total > 0 else 0) * 100`. */
  function Precision(matches: nat, total: nat): real {
    if total > 0 then (matches as real / total as real) * 100.0 else 0.0
  }

  /** The precision of order `n`. */
  function PrecisionAt(pairs: seq<(string, string)>, n: nat): real
  {
    Precision(Matches(pairs, n), Total(pairs, n))
  }

  /** `[f(1), ..., f(k)]`. */
  function Table(f: nat -> real, k: nat): (r: seq<real>)
    ensures |r| == k
  {
    if k == 0 then [] else Table(f, k - 1) + [f(k)]
  }

  lemma {:induction false} TableAt(f: nat -> real, k: nat, i: nat)
    requires i < k
    ensures Table(f, k)[i] == f(i + 1)
  {
    if i < k - 1 {
      TableAt(f, k - 1, i);
    }
  }

  /** The precisions of orders 1 .. k, in order. */
  function Precisions(pairs: seq<(string, string)>, k: nat): (r: seq<real>)
    ensures |r| == k
  {
    Table((n: nat) => PrecisionAt(pairs, n), k)
  }

  /** Exactly one precision per order: the i-th entry is the precision of order i + 1. */
  lemma PrecisionsAt(pairs: seq<(string, string)>, k: nat, i: nat)
    requires i < k
    ensures Precisions(pairs, k)[i] == PrecisionAt(pairs, i + 1)
  {
    TableAt((n: nat) => PrecisionAt(pairs, n), k, i);
  }

  /** Every precision lies in [0, 100], and is 0 when there is nothing to count. */
  lemma PrecisionBounds(pairs: seq<(string, string)>, n: nat)
    ensures 0.0 <= PrecisionAt(pairs, n) <= 100.0
    ensures Total(pairs, n) == 0 ==> PrecisionAt(pairs, n) == 0.0
  {
    MatchesBound(pairs, n);
    RatioBound(Matches(pairs, n), Total(pairs, n));
  }

  lemma RatioBound(m: nat, t: nat)
    requires m <= t
    ensures 0.0 <= Precision(m, t) <= 100.0
  {
    if t > 0 {
      assert m as real / t as real <= 1.0;
    }
  }

  /** Hypotheses identical to their references score 100 at every order that has n-grams. */
  lemma PerfectPrecision(pairs: seq<(string, string)>, n: nat)
    requires forall i :: 0 <= i < |pairs| ==> pairs[i].0 == pairs[i].1
    requires Total(pairs, n) > 0
    ensures PrecisionAt(pairs, n) == 100.0
  {
    IdenticalMatchesAll(pairs, n);
    FullPrecision(Total(pairs, n));
  }

  lemma FullPrecision(t: nat)
    requires t > 0
    ensures Precision(t, t) == 100.0
  {
    assert t as real / t as real == 1.0;
  }

  /** The scores returned: the BLEU value and the first four precisions, 0 where absent. */
  datatype BleuScores = BleuScores(bleu: real, bleu1: real, bleu2: real, bleu3: real, bleu4: real)

  /** `precisions[i] if len(precisions) > i else 0`. */
  function PrecisionOr0(precisions: seq<real>, i: nat): real {
    if i < |precisions| then precisions[i] else 0.0
  }

  predicate AllPositive(precisions: seq<real>) {
    forall i :: 0 <= i < |precisions| ==> precisions[i] > 0.0
  }

  /** The score: the geometric mean `geoMean` of the precisions when their minimum is positive, else 0. */
  function Score(precisions: seq<real>, geoMean: seq<real> -> real): BleuScores {
    var bleu := if AllPositive(precisions) then geoMean(precisions) else 0.0;
    BleuScores(bleu, PrecisionOr0(precisions, 0), PrecisionOr0(precisions, 1),
               PrecisionOr0(precisions, 2), PrecisionOr0(precisions, 3))
  }

  /** A single zero precision brings the score to 0, whatever the mean. */
  lemma ZeroPrecisionZeroScore(precisions: seq<real>, geoMean: seq<real> -> real, i: nat)
    requires i < |precisions| && precisions[i] == 0.0
    ensures Score(precisions, geoMean).bleu == 0.0
  {
  }

  /** The four reported precisions of a corpus all lie in [0, 100]. */
  lemma ReportedPrecisionsBounded(pairs: seq<(string, string)>, k: nat, geoMean: seq<real> -> real)
    ensures var s := Score(Precisions(pairs, k), geoMean);
      && 0.0 <= s.bleu1 <= 100.0 && 0.0 <= s.bleu2 <= 100.0
      && 0.0 <= s.bleu3 <= 100.0 && 0.0 <= s.bleu4 <= 100.0
  {
    forall i: nat | i < 4 && i < k ensures 0.0 <= Precisions(pairs, k)[i] <= 100.0 {
      PrecisionsAt(pairs, k, i);
      PrecisionBounds(pairs, i + 1);
    }
  }

  /** A table of precisions with a zero entry scores 0. */
  lemma TableZeroScore(f: nat -> real, k: nat, n: nat, geoMean: seq<real> -> real)
    requires 1 <= n <= k && f(n) == 0.0
    ensures Score(Table(f, k), geoMean).bleu == 0.0
  {
    TableAt(f, k, n - 1);
    ZeroPrecisionZeroScore(Table(f, k), geoMean, n - 1);
  }

  /** Hypotheses all shorter than `n` words contribute no n-gram. */
  lemma {:induction false} ShortHypothesesNoTotal(pairs: seq<(string, string)>, n: nat)
    requires forall i :: 0 <= i < |pairs| ==> |Split(pairs[i].1)| < n
    ensures Total(pairs, n) == 0
  {
    if pairs != [] {
      ShortHypothesesNoTotal(pairs[..|pairs| - 1], n);
    }
  }

  /**
   * When every hypothesis is shorter than `n` words for some order `n` up to
   * `k`, that order has precision 0 and the corpus scores 0.
   */
  lemma ShortHypothesesZeroScore(pairs: seq<(string, string)>, k: nat, n: nat, geoMean: seq<real> -> real)
    requires 1 <= n <= k && forall i :: 0 <= i < |pairs| ==> |Split(pairs[i].1)| < n
    ensures Score(Precisions(pairs, k), geoMean).bleu == 0.0
  {
    ShortHypothesesNoTotal(pairs, n);
    PrecisionBounds(pairs, n);
    TableZeroScore((m: nat) => PrecisionAt(pairs, m), k, n, geoMean);
  }

  /** The precisions of the whole lists are those of their first `min` entries: surplus entries are ignored. */
  lemma ZipIgnoresSurplus(references: seq<string>, hypotheses: seq<string>, k: nat)
    ensures var m := if |references| <= |hypotheses| then |references| else |hypotheses|;
      Precisions(Zip(references, hypotheses), k) == Precisions(Zip(references[..m], hypotheses[..m]), k)
  {
    var m := if |references| <= |hypotheses| then |references| else |hypotheses|;
    assert Zip(references, hypotheses) == Zip(references[..m], hypotheses[..m]);
  }

  /**
   * `_simple_bleu`: for each order, sum the clipped matches and the totals
   * over the zipped pairs, then combine. `min([])` raises for an order
   * below 1, which gives `None`.
   */
  method SimpleBleu(references: seq<string>, hypotheses: seq<string>, maxOrder: int, geoMean: seq<real> -> real)
    returns (r: Option<BleuScores>)
    ensures r.None? <==> maxOrder < 1
    ensures r.Some? ==> r.value == Score(Precisions(Zip(references, hypotheses), maxOrder), geoMean)
  {
    var pairs := Zip(references, hypotheses);
    if maxOrder < 1 {
      return None;
    }
    var precisions: seq<real> := [];
    for n := 1 to maxOrder + 1
      invariant precisions == Precisions(pairs, n - 1)
    {
      var matches, total := OrderCounts(pairs, n);
      precisions := precisions + [Precision(matches, total)];
    }
    r := Some(Score(precisions, geoMean));
  }

  /** The inner loop for one order: clipped matches and totals summed over the pairs. */
  method OrderCounts(pairs: seq<(string, string)>, n: nat) returns (matches: nat, total: nat)
    ensures matches == Matches(pairs, n) && total == Total(pairs, n)
    ensures matches <= total
  {
    matches, total := 0, 0;
    for i := 0 to |pairs|
      invariant matches == Matches(pairs[..i], n) && total == Total(pairs[..i], n)
    {
      assert pairs[..i + 1][..i] == pairs[..i];
      var refTokens := Split(pairs[i].0);
      var hypTokens := Split(pairs[i].1);
      var refGrams := GetNgrams(refTokens, n);
      var hypGrams := GetNgrams(hypTokens, n);
      var m := ClippedMatches(hypGrams, refGrams);
      matches := matches + m;
      total := total + if |hypTokens| - n + 1 > 0 then |hypTokens| - n + 1 else 0;
    }
    assert pairs[..|pairs|] == pairs;
    MatchesBound(pairs, n);
  }
}
