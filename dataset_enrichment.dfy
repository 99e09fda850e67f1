/**
 * Dataset enrichment (backend/ml/dataset_enrichment.py): asking the Gemini
 * model for new phrase pairs with a bounded retry, cutting the JSON out of
 * a fenced reply, reading the existing pairs of one language and merging
 * the generated pairs into the `language.json` table.
 *
 * Gemini's reply to each attempt and the JSON parser are parameters; the
 * table is the one the translation store reads (`Firestore.Table`).
 */
module Enrichment {
  import opened Wrappers
  import opened Chars
  import opened Config
  import Dict
  import Firestore

  /** Phrase pairs as `json.loads` gives them: French text to translation. */
  type Pairs = Dict.Dict<string, string>

  const FENCE: string := "```"
  const JSON_FENCE: string := "```json"
  const MAX_RETRIES: nat := 3
  const INITIAL_RETRY_DELAY: nat := 5

  // ---------------------------------------------------------------- fence stripping

  /**
   * The cleaning of `content` (already stripped): after a "```json" fence,
   * `content.split("```json")[1].split("```")[0].strip()`; else after a
   * plain fence, `content.split("```")[1].split("```")[0].strip()`; else
   * the content itself.
   */
  function StripFences(content: string): string {
    if Contains(content, JSON_FENCE) then
      Strip(Before(Before(After(content, JSON_FENCE), JSON_FENCE), FENCE))
    else if Contains(content, FENCE) then
      Strip(Before(Before(After(content, FENCE), FENCE), FENCE))
    else content
  }

  /** A slice of a string without an occurrence of `pattern` has none either. */
  lemma NoOccurrenceInSlice(s: string, pattern: string, a: nat, b: nat)
    requires a <= b <= |s| && !Contains(s, pattern)
    ensures !Contains(s[a..b], pattern)
  {
    if Contains(s[a..b], pattern) {
      var i :| 0 <= i <= b - a && OccursAt(s[a..b], pattern, i);
      forall k | 0 <= k < |pattern| ensures s[a + i..a + i + |pattern|][k] == pattern[k] {
        assert s[a..b][i..i + |pattern|][k] == pattern[k];
      }
      assert OccursAt(s, pattern, a + i);
    }
  }

  /** `str.strip()` keeps a slice of its argument. */
  lemma StripIsSlice(s: string) returns (a: nat, b: nat)
    ensures a <= b <= |s| && Strip(s) == s[a..b]
  {
    var l := LStripBy(s, IsSpace);
    a := LeadingRun(s, IsSpace);
    b := a + |l| - TrailingRun(l, IsSpace);
    assert l == s[a..];
    assert Strip(s) == l[..|l| - TrailingRun(l, IsSpace)];
  }

  /** Whenever the reply has a fence, what is kept has none. */
  lemma FencedContentHasNoFence(content: string)
    requires Contains(content, FENCE)
    ensures !Contains(StripFences(content), FENCE)
  {
    var inner := if Contains(content, JSON_FENCE)
      then Before(Before(After(content, JSON_FENCE), JSON_FENCE), FENCE)
      else Before(Before(After(content, FENCE), FENCE), FENCE);
    assert StripFences(content) == Strip(inner);
    var a, b := StripIsSlice(inner);
    NoOccurrenceInSlice(inner, FENCE, a, b);
  }

  /** Without any fence the content is parsed as it is. */
  lemma UnfencedContentKept(content: string)
    requires !Contains(content, FENCE)
    ensures StripFences(content) == content
  {
    if Contains(content, JSON_FENCE) {
      var i :| 0 <= i <= |content| && OccursAt(content, JSON_FENCE, i);
      assert content[i..i + 3] == content[i..i + 7][..3];
      assert OccursAt(content, FENCE, i);
    }
  }

  /** An occurrence of "```json" is an occurrence of "```". */
  lemma JsonFenceIsFence(x: string, i: int)
    requires OccursAt(x, JSON_FENCE, i)
    ensures OccursAt(x, FENCE, i)
  {
    assert x[i..i + 3] == x[i..i + 7][..3];
  }

  /** The first "```" comes no later than the first "```json". */
  lemma FenceNoLaterThanJsonFence(x: string)
    requires Find(x, JSON_FENCE) != -1
    ensures Find(x, FENCE) != -1 && Find(x, FENCE) <= Find(x, JSON_FENCE)
  {
    JsonFenceIsFence(x, Find(x, JSON_FENCE));
    assert Contains(x, FENCE);
  }

  /** The first occurrence of `pattern` is `i` once it occurs there and nowhere before. */
  lemma FindIs(s: string, pattern: string, i: int)
    requires OccursAt(s, pattern, i)
    requires forall k :: 0 <= k < i ==> !OccursAt(s, pattern, k)
    ensures Find(s, pattern) == i
  {
    assert Contains(s, pattern);
  }

  /** An occurrence that ends inside a prefix is an occurrence in the prefix. */
  lemma OccursInLongerPrefix(x: string, pattern: string, k: nat, i: nat)
    requires OccursAt(x, pattern, i) && i + |pattern| <= k <= |x|
    ensures OccursAt(x[..k], pattern, i)
  {
    forall t | 0 <= t < |pattern| ensures x[..k][i..i + |pattern|][t] == pattern[t] {
      assert x[..k][i + t] == x[i + t] == x[i..i + |pattern|][t];
    }
  }

  /** A first occurrence that ends inside a prefix is the prefix's first occurrence too. */
  lemma FindInPrefix(x: string, pattern: string, k: nat)
    requires Find(x, pattern) != -1 && Find(x, pattern) + |pattern| <= k <= |x|
    ensures Find(x[..k], pattern) == Find(x, pattern)
  {
    var f := Find(x, pattern);
    OccursInLongerPrefix(x, pattern, k, f);
    forall i | 0 <= i < f ensures !OccursAt(x[..k], pattern, i) {
      if OccursAt(x[..k], pattern, i) {
        OccursInPrefix(x, pattern, k, i);
      }
    }
    FindIs(x[..k], pattern, f);
  }

  /** A prefix that ends before the first occurrence is over contains none. */
  lemma NoneInPrefix(x: string, pattern: string, k: nat)
    requires k <= |x| && (Find(x, pattern) == -1 || Find(x, pattern) + |pattern| > k)
    ensures !Contains(x[..k], pattern)
  {
    if Contains(x[..k], pattern) {
      var i :| 0 <= i <= k && OccursAt(x[..k], pattern, i);
      OccursInPrefix(x, pattern, k, i);
    }
  }

  /** A fence that starts before `j` but ends after it puts a backtick at `j - 1`. */
  lemma FenceEndsBefore(x: string, f: int, j: int)
    requires OccursAt(x, FENCE, f) && f <= j <= |x| && (j <= 0 || x[j - 1] != '`')
    ensures f + 3 <= j || f == j
  {
    assert forall t :: f <= t < f + 3 ==> x[t] == x[f..f + 3][t - f];
  }

  /** The splits inside the text after the opening fence, by where its first "```" is. */
  lemma JsonSegmentFence(x: string)
    requires var j := Find(x, JSON_FENCE); j != -1 && (j == 0 || x[j - 1] != '`')
    ensures Find(x, FENCE) != -1 && Before(x[..Find(x, JSON_FENCE)], FENCE) == x[..Find(x, FENCE)]
  {
    var j := Find(x, JSON_FENCE);
    FenceNoLaterThanJsonFence(x);
    var f := Find(x, FENCE);
    FenceEndsBefore(x, f, j);
    if f + 3 <= j {
      CutAfterFence(x, j);
    } else {
      CutAtFence(x, j);
    }
  }

  /** Cutting after the first fence ends keeps that fence first, so the split stops there. */
  lemma CutAfterFence(x: string, j: nat)
    requires Find(x, FENCE) != -1 && Find(x, FENCE) + 3 <= j <= |x|
    ensures Before(x[..j], FENCE) == x[..Find(x, FENCE)]
  {
    FindInPrefix(x, FENCE, j);
    assert x[..j][..Find(x, FENCE)] == x[..Find(x, FENCE)];
  }

  /** Cutting before the first fence ends leaves no fence, so the split keeps it all. */
  lemma CutAtFence(x: string, j: nat)
    requires Find(x, FENCE) == j <= |x|
    ensures Before(x[..j], FENCE) == x[..j]
  {
    NoneInPrefix(x, FENCE, j);
  }

  /**
   * The two splits of the "```json" case keep the text up to the first
   * "```" after the opening fence, unless a backtick sits right before a
   * second "```json" (then a fence straddling it is missed).
   */
  lemma JsonFenceKeepsUpToNextFence(x: string)
    requires var j := Find(x, JSON_FENCE); j <= 0 || x[j - 1] != '`'
    ensures Before(Before(x, JSON_FENCE), FENCE) == Before(x, FENCE)
  {
    if Find(x, JSON_FENCE) != -1 {
      JsonSegmentFence(x);
      FenceNoLaterThanJsonFence(x);
    }
  }

  // ---------------------------------------------------------------- the retry loop

  /** What one `generate_content` call gave: a reply, or the exception it raised. */
  datatype Reply = Text(text: string) | Raised(message: string)

  /** One attempt: the parsed pairs, or the text of the exception (from the call or from `json.loads`). */
  function Outcome(reply: Reply, parse: string -> Result<Pairs, string>): Result<Pairs, string> {
    match reply
    case Text(t) => parse(StripFences(Strip(t)))
    case Raised(m) => Err(m)
  }

  /** `code in s`, scanning from the left. */
  predicate Mentions(s: string, code: string)
    decreases |s|
  {
    if |s| < |code| then false else s[..|code|] == code || Mentions(s[1..], code)
  }

  /** The scan agrees with `Contains`. */
  lemma {:induction false} MentionsIsContains(s: string, code: string)
    ensures Mentions(s, code) <==> Contains(s, code)
    decreases |s|
  {
    if |s| >= |code| && s[..|code|] != code {
      MentionsIsContains(s[1..], code);
      if Contains(s, code) {
        var i :| 0 <= i <= |s| && OccursAt(s, code, i);
        assert i != 0;
        OccursAtTail(s, code, i);
      }
      if Contains(s[1..], code) {
        var i :| 0 <= i <= |s[1..]| && OccursAt(s[1..], code, i);
        OccursAtTail(s, code, i + 1);
      }
    } else if |s| >= |code| {
      assert OccursAt(s, code, 0);
    } else {
      assert !Contains(s, code);
    }
  }

  /** An attempt that failed on the quota (`"429" in str(e)`). */
  predicate QuotaError(o: Result<Pairs, string>) {
    o.Err? && Mentions(o.error, "429")
  }

  /** What the loop did: the pairs returned, the waits made, the number of attempts. */
  datatype Run = Run(pairs: Pairs, waits: seq<nat>, attempts: nat)

  /** The outcome of each attempt, by attempt number. */
  function Outcomes(reply: nat -> Reply, parse: string -> Result<Pairs, string>): nat -> Result<Pairs, string> {
    (k: nat) => Outcome(reply(k), parse)
  }

  /** The loop from attempt `attempt` on, with the current delay `delay`. */
  function RetryFrom(attempt: nat, delay: nat, outcome: nat -> Result<Pairs, string>): Run
    decreases MAX_RETRIES - attempt
  {
    if attempt >= MAX_RETRIES then Run([], [], 0)
    else
      var o := outcome(attempt);
      if o.Ok? then Run(o.value, [], 1)
      else if QuotaError(o) then
        var rest := RetryFrom(attempt + 1, delay * 2, outcome);
        Run(rest.pairs, [delay] + rest.waits, 1 + rest.attempts)
      else Run([], [], 1)
  }

  /** `generate_translations`: `{}` at once when Gemini is unavailable, else the retry loop. */
  method GenerateTranslations(available: bool, reply: nat -> Reply, parse: string -> Result<Pairs, string>)
    returns (pairs: Pairs, waits: seq<nat>, attempts: nat)
    ensures !available ==> pairs == [] && waits == [] && attempts == 0
    ensures available ==> Run(pairs, waits, attempts) == RetryFrom(0, INITIAL_RETRY_DELAY, Outcomes(reply, parse))
  {
    if !available {
      return [], [], 0;
    }
    pairs, waits, attempts := RetryLoop(Outcomes(reply, parse));
  }

  /**
   * The `for attempt in range(max_retries)` loop: return the first parsed
   * pairs; on a quota error wait and double the delay; on any other error stop.
   */
  method RetryLoop(outcome: nat -> Result<Pairs, string>) returns (pairs: Pairs, waits: seq<nat>, attempts: nat)
    ensures Run(pairs, waits, attempts) == RetryFrom(0, INITIAL_RETRY_DELAY, outcome)
  {
    pairs, waits, attempts := [], [], 0;
    var retryDelay := INITIAL_RETRY_DELAY;
    var attempt := 0;
    ghost var total := RetryFrom(0, INITIAL_RETRY_DELAY, outcome);
    assert total == Prepend([], 0, total);
    while attempt < MAX_RETRIES
      invariant attempt <= MAX_RETRIES && attempts == attempt && pairs == []
      invariant total == Prepend(waits, attempts, RetryFrom(attempt, retryDelay, outcome))
    {
      RetryStep(attempt, retryDelay, outcome);
      var o := outcome(attempt);
      if o.Ok? {
        PrependLast(waits, attempts, o.value);
        pairs, attempts := o.value, attempts + 1;
        return;
      }
      if QuotaError(o) {
        PrependTwice(waits, attempts, [retryDelay], 1, RetryFrom(attempt + 1, retryDelay * 2, outcome));
        waits := waits + [retryDelay];
        retryDelay := retryDelay * 2;
        attempts := attempts + 1;
      } else {
        PrependLast(waits, attempts, []);
        attempts := attempts + 1;
        break;
      }
      attempt := attempt + 1;
    }
  }

  /** Two stretches of the loop one after the other. */
  lemma PrependTwice(w1: seq<nat>, a1: nat, w2: seq<nat>, a2: nat, rest: Run)
    ensures Prepend(w1, a1, Prepend(w2, a2, rest)) == Prepend(w1 + w2, a1 + a2, rest)
  {
    assert w1 + (w2 + rest.waits) == (w1 + w2) + rest.waits;
  }

  /** A last attempt without a wait. */
  lemma PrependLast(w: seq<nat>, a: nat, pairs: Pairs)
    ensures Prepend(w, a, Run(pairs, [], 1)) == Run(pairs, w, a + 1)
  {
    assert w + [] == w;
  }

  /** The waits and attempts already made, in front of what the rest of the loop does. */
  function Prepend(waits: seq<nat>, attempts: nat, rest: Run): Run {
    Run(rest.pairs, waits + rest.waits, attempts + rest.attempts)
  }

  /** One attempt of the loop, unfolded. */
  lemma RetryStep(attempt: nat, delay: nat, outcome: nat -> Result<Pairs, string>)
    requires attempt < MAX_RETRIES
    ensures var o := outcome(attempt);
      var r := RetryFrom(attempt, delay, outcome);
      && (o.Ok? ==> r == Run(o.value, [], 1))
      && (QuotaError(o) ==> r == Prepend([delay], 1, RetryFrom(attempt + 1, delay * 2, outcome)))
      && (o.Err? && !QuotaError(o) ==> r == Run([], [], 1))
  {
  }

  /** From attempt `a` on there are at most `3 - a` attempts, and at least one if any is left. */
  lemma {:induction false} RetryAttempts(a: nat, delay: nat, outcome: nat -> Result<Pairs, string>)
    requires a <= MAX_RETRIES
    ensures var r := RetryFrom(a, delay, outcome);
      r.attempts <= MAX_RETRIES - a && (a < MAX_RETRIES ==> r.attempts >= 1)
    decreases MAX_RETRIES - a
  {
    if a < MAX_RETRIES && QuotaError(outcome(a)) {
      RetryAttempts(a + 1, delay * 2, outcome);
    }
  }

  /** The waits start at `delay` and each doubles the one before, one per quota error, so at most one per attempt. */
  lemma {:induction false} RetryWaits(a: nat, delay: nat, outcome: nat -> Result<Pairs, string>)
    requires a <= MAX_RETRIES
    ensures var r := RetryFrom(a, delay, outcome);
      && |r.waits| <= r.attempts
      && (|r.waits| > 0 ==> r.waits[0] == delay)
      && forall i :: 0 <= i < |r.waits| - 1 ==> r.waits[i + 1] == 2 * r.waits[i]
    decreases MAX_RETRIES - a
  {
    if a < MAX_RETRIES && QuotaError(outcome(a)) {
      RetryWaits(a + 1, delay * 2, outcome);
      var rest := RetryFrom(a + 1, delay * 2, outcome);
      var r := RetryFrom(a, delay, outcome);
      assert r.waits == [delay] + rest.waits;
      forall i | 0 < i < |r.waits| - 1 ensures r.waits[i + 1] == 2 * r.waits[i] {
        assert r.waits[i + 1] == rest.waits[i] && r.waits[i] == rest.waits[i - 1];
      }
    }
  }

  /**
   * Every attempt but the last failed on the quota; the pairs are those of
   * the last attempt if it succeeded and empty otherwise; the wait count is
   * the number of quota errors.
   */
  lemma {:induction false} RetryLast(a: nat, delay: nat, outcome: nat -> Result<Pairs, string>)
    requires a < MAX_RETRIES
    ensures var r := RetryFrom(a, delay, outcome);
      && r.attempts >= 1
      && (forall k :: a <= k < a + r.attempts - 1 ==> QuotaError(outcome(k)))
      && var last := outcome(a + r.attempts - 1);
      && (last.Ok? ==> r.pairs == last.value)
      && (last.Err? ==> r.pairs == [])
      && |r.waits| == (if QuotaError(last) then r.attempts else r.attempts - 1)
    decreases MAX_RETRIES - a
  {
    if QuotaError(outcome(a)) {
      if a + 1 < MAX_RETRIES {
        RetryLast(a + 1, delay * 2, outcome);
      }
    }
  }

  /** The schedule the source promises: waits of 5, 10 and 20 seconds at most, at most three attempts. */
  lemma RetrySchedule(outcome: nat -> Result<Pairs, string>)
    ensures var r := RetryFrom(0, INITIAL_RETRY_DELAY, outcome);
      && 1 <= r.attempts <= MAX_RETRIES
      && r.waits == [5, 10, 20][..|r.waits|]
  {
    RetryAttempts(0, INITIAL_RETRY_DELAY, outcome);
    RetryWaits(0, INITIAL_RETRY_DELAY, outcome);
    var r := RetryFrom(0, INITIAL_RETRY_DELAY, outcome);
    forall i | 0 <= i < |r.waits| ensures r.waits[i] == [5, 10, 20][i] {
      if i > 0 {
        assert r.waits[1] == 2 * r.waits[0];
      }
    }
  }

  /** Three failed attempts give no pairs. */
  lemma AllFailedGivesNothing(outcome: nat -> Result<Pairs, string>)
    requires forall k :: 0 <= k < MAX_RETRIES ==> outcome(k).Err?
    ensures RetryFrom(0, INITIAL_RETRY_DELAY, outcome).pairs == []
  {
    RetryLast(0, INITIAL_RETRY_DELAY, outcome);
    RetryAttempts(0, INITIAL_RETRY_DELAY, outcome);
  }

  /** An error that is not a quota error ends the loop at once. */
  lemma OtherErrorStops(outcome: nat -> Result<Pairs, string>, k: nat)
    requires var r := RetryFrom(0, INITIAL_RETRY_DELAY, outcome); k < r.attempts
    requires var o := outcome(k); o.Err? && !QuotaError(o)
    ensures RetryFrom(0, INITIAL_RETRY_DELAY, outcome).attempts == k + 1
    ensures RetryFrom(0, INITIAL_RETRY_DELAY, outcome).pairs == []
  {
    RetryLast(0, INITIAL_RETRY_DELAY, outcome);
    RetryAttempts(0, INITIAL_RETRY_DELAY, outcome);
  }

  // ---------------------------------------------------------------- existing pairs

  /** The pairs of `fr` that have a translation into `language`, in file order. */
  function Existing(fr: Dict.Dict<string, Firestore.Entry>, language: string): Pairs {
    if fr == [] then []
    else
      var n := |fr| - 1;
      match Dict.Get(fr[n].1, language)
      case Some(v) => Dict.Set(Existing(fr[..n], language), fr[n].0, v)
      case None => Existing(fr[..n], language)
  }

  /** A phrase has a pair exactly when its entry has the language, and the pair holds that translation. */
  lemma {:induction false} ExistingLookup(fr: Dict.Dict<string, Firestore.Entry>, language: string, p: string)
    requires Dict.DistinctKeys(fr)
    ensures Dict.Get(Existing(fr, language), p) ==
      match Dict.Get(fr, p) case Some(e) => Dict.Get(e, language) case None => None
  {
    if fr != [] {
      var n := |fr| - 1;
      Dict.GetLast(fr, p);
      ExistingLookup(fr[..n], language, p);
      match Dict.Get(fr[n].1, language)
      case Some(v) => Dict.GetSet(Existing(fr[..n], language), fr[n].0, v, p);
      case None =>
    }
  }

  /** `_load_existing_data`: `{}` without a file, else the pairs of the target language. */
  method LoadExistingData(file: Option<Firestore.Table>, language: string) returns (result: Pairs)
    ensures file.None? ==> result == []
    ensures file.Some? ==> result == Existing(Firestore.French(file.value), language)
  {
    result := [];
    if file.None? {
      return;
    }
    var fr := Firestore.French(file.value);
    var i := 0;
    while i < |fr|
      invariant i <= |fr|
      invariant result == Existing(fr[..i], language)
    {
      var (frText, translations) := fr[i];
      assert fr[..i + 1][..i] == fr[..i];
      var found := Dict.Get(translations, language);
      if found.Some? {
        result := Dict.Set(result, frText, found.value);
      }
      i := i + 1;
    }
    assert fr[..i] == fr;
  }

  // ---------------------------------------------------------------- the merge

  /** The loop over one language's generated pairs: each sets `fr[phrase][language]`. */
  function MergeLanguage(table: Firestore.Table, language: string, pairs: Pairs): Firestore.Table {
    if pairs == [] then table
    else
      var n := |pairs| - 1;
      Firestore.Upsert(MergeLanguage(table, language, pairs[..n]), pairs[n].0, language, pairs[n].1)
  }

  /** The generated pairs fill in their language's slot; every other slot keeps its translation. */
  lemma {:induction false} MergeLanguageLookup(table: Firestore.Table, language: string, pairs: Pairs, p: string, l: string)
    requires Dict.DistinctKeys(pairs)
    ensures Firestore.LocalLookup(MergeLanguage(table, language, pairs), p, l) ==
      if l == language && p in Dict.Keys(pairs) then Dict.Get(pairs, p) else Firestore.LocalLookup(table, p, l)
  {
    if pairs != [] {
      var n := |pairs| - 1;
      Dict.GetLast(pairs, p);
      MergeLanguageLookup(table, language, pairs[..n], p, l);
      Firestore.UpsertLookup(MergeLanguage(table, language, pairs[..n]), pairs[n].0, language, pairs[n].1, p, l);
    }
  }

  /** The merge leaves every top-level key but `"fr"` alone. */
  lemma {:induction false} MergeLanguageKeepsOthers(table: Firestore.Table, language: string, pairs: Pairs, k: string)
    requires k != "fr"
    ensures Dict.Get(MergeLanguage(table, language, pairs), k) == Dict.Get(table, k)
  {
    if pairs != [] {
      var n := |pairs| - 1;
      MergeLanguageKeepsOthers(table, language, pairs[..n], k);
      Firestore.UpsertKeepsOtherTopLevel(MergeLanguage(table, language, pairs[..n]), pairs[n].0, language, pairs[n].1, k);
    }
  }

  /** The outer loop over the languages. */
  function MergeAll(table: Firestore.Table, languages: seq<string>, generated: string -> Pairs): Firestore.Table {
    if languages == [] then table
    else
      var n := |languages| - 1;
      MergeLanguage(MergeAll(table, languages[..n], generated), languages[n], generated(languages[n]))
  }

  /** Merging keeps the `"fr"` key once it is there. */
  lemma UpsertKeepsFrench(table: Firestore.Table, p: string, l: string, v: string)
    ensures "fr" in Dict.Keys(Firestore.Upsert(table, p, l, v))
  {
    var fr := Firestore.French(table);
    var entry := Dict.Get(fr, p).GetOr([]);
    Dict.GetSet(table, "fr", Dict.Set(fr, p, Dict.Set(entry, l, v)), "fr");
  }

  /** How `enrich_all` ended. */
  datatype Enriched =
    | NoSource                   // `language.json` is missing: nothing is written
    | FrenchMissing              // `full_data['fr']` raised `KeyError`
    | Written(table: Firestore.Table)  // the table saved as `language_enriched.json`

  /** One more language of the outer loop. */
  lemma MergeAllStep(table: Firestore.Table, languages: seq<string>, generated: string -> Pairs, i: nat)
    requires i < |languages|
    ensures MergeAll(table, languages[..i + 1], generated) ==
      MergeLanguage(MergeAll(table, languages[..i], generated), languages[i], generated(languages[i]))
  {
    assert languages[..i + 1][..i] == languages[..i];
  }

  /**
   * The inner loop of `enrich_all` for one language: `None` when
   * `full_data['fr']` raises `KeyError`, which happens exactly when the
   * table has no `"fr"` and there is a pair to merge.
   */
  method MergeLanguageLoop(table: Firestore.Table, language: string, newData: Pairs) returns (r: Option<Firestore.Table>)
    ensures "fr" in Dict.Keys(table) ==> r == Some(MergeLanguage(table, language, newData))
    ensures "fr" !in Dict.Keys(table) ==> r == if newData == [] then Some(table) else None
    ensures r.Some? && ("fr" in Dict.Keys(table) || newData != []) ==> "fr" in Dict.Keys(r.value)
  {
    var fullData := table;
    var j := 0;
    while j < |newData|
      invariant j <= |newData|
      invariant fullData == MergeLanguage(table, language, newData[..j])
      invariant (j > 0 || "fr" in Dict.Keys(table)) ==> "fr" in Dict.Keys(fullData)
      invariant "fr" !in Dict.Keys(table) ==> j == 0
    {
      if "fr" !in Dict.Keys(fullData) {
        return None;
      }
      var (frText, translation) := newData[j];
      assert newData[..j + 1][..j] == newData[..j];
      UpsertKeepsFrench(fullData, frText, language, translation);
      fullData := Firestore.Upsert(fullData, frText, language, translation);
      j := j + 1;
    }
    assert newData[..j] == newData;
    r := Some(fullData);
  }

  /** No language got any pair. */
  predicate NothingGenerated(languages: seq<string>, generated: string -> Pairs) {
    forall k :: 0 <= k < |languages| ==> generated(languages[k]) == []
  }

  /**
   * `enrich_all`, with `generated(lang)` the pairs `generate_translations`
   * gave for `lang`. A table without `"fr"` only survives when nothing was generated.
   */
  method EnrichAll(file: Option<Firestore.Table>, generated: string -> Pairs) returns (r: Enriched)
    ensures file.None? ==> r == NoSource
    ensures file.Some? && "fr" in Dict.Keys(file.value) ==>
      r == Written(MergeAll(file.value, SUPPORTED_LANGUAGES, generated))
    ensures file.Some? && "fr" !in Dict.Keys(file.value) ==>
      r == if NothingGenerated(SUPPORTED_LANGUAGES, generated) then Written(file.value) else FrenchMissing
  {
    if file.None? {
      return NoSource;
    }
    var merged := MergeLanguagesLoop(file.value, SUPPORTED_LANGUAGES, generated);
    r := if merged.Some? then Written(merged.value) else FrenchMissing;
  }

  /** The `for lang in SUPPORTED_LANGUAGES` loop of `enrich_all`; `None` when it raises `KeyError`. */
  method MergeLanguagesLoop(table: Firestore.Table, languages: seq<string>, generated: string -> Pairs)
    returns (r: Option<Firestore.Table>)
    ensures "fr" in Dict.Keys(table) ==> r == Some(MergeAll(table, languages, generated))
    ensures "fr" !in Dict.Keys(table) ==> r == if NothingGenerated(languages, generated) then Some(table) else None
  {
    var fullData := table;
    var i := 0;
    while i < |languages|
      invariant i <= |languages|
      invariant "fr" in Dict.Keys(table) ==>
        fullData == MergeAll(table, languages[..i], generated) && "fr" in Dict.Keys(fullData)
      invariant "fr" !in Dict.Keys(table) ==>
        fullData == table && NothingGenerated(languages[..i], generated)
    {
      var lang := languages[i];
      var merged := MergeLanguageLoop(fullData, lang, generated(lang));
      if merged.None? {
        assert generated(languages[i]) != [];
        return None;
      }
      MergeAllStep(table, languages, generated, i);
      assert NothingGenerated(languages[..i], generated) && generated(lang) == [] ==>
        NothingGenerated(languages[..i + 1], generated);
      fullData := merged.value;
      i := i + 1;
    }
    assert languages[..i] == languages;
    r := Some(fullData);
  }
}
