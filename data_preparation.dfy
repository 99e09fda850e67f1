/**
 * Dataset preparation (backend/ml/data_preparation.py): the French/target
 * pairs read from `language.json`, the vocabularies built from them, the
 * length filter, the shuffled train/validation/test split and the padding
 * into fixed-width examples.
 */
module DataPreparation {
  import opened Wrappers
  import opened Config
  import Dict
  import Vocab
  import Augmentation

  /** One training pair: a French phrase and its translation. */
  type Pair = (string, string)

  /** A pair once encoded, reserved tokens included. */
  type EncodedPair = (seq<int>, seq<int>)

  /** The translations of one French phrase, keyed by language code. */
  type Translations = Dict.Dict<string, string>

  /** The parsed `language.json`: language code, then phrase, then translations. */
  type LanguageData = Dict.Dict<string, Dict.Dict<string, Translations>>

  // ---------------------------------------------------------------- pair extraction

  /** `data.get("fr", {})`. */
  function FrenchEntries(data: LanguageData): (r: Dict.Dict<string, Translations>)
    ensures SOURCE_LANGUAGE !in Dict.Keys(data) ==> r == []
  {
    Dict.Get(data, SOURCE_LANGUAGE).GetOr([])
  }

  /** The translation an entry contributes: present and non-empty, as `if target_translation:` demands. */
  function TranslationOf(translations: Translations, language: string): Option<string> {
    match Dict.Get(translations, language)
    case Some(t) => if t != "" then Some(t) else None
    case None => None
  }

  /** What each entry offers, in file order: its pair, or nothing. */
  function Offers(entries: Dict.Dict<string, Translations>, language: string): (r: seq<Option<Pair>>)
    ensures |r| == |entries|
    ensures forall k :: 0 <= k < |entries| ==>
      r[k] == match TranslationOf(entries[k].1, language) case Some(t) => Some((entries[k].0, t)) case None => None
  {
    seq(|entries|, k requires 0 <= k < |entries| =>
      match TranslationOf(entries[k].1, language) case Some(t) => Some((entries[k].0, t)) case None => None)
  }

  /** The values of the present options, in order. */
  function Present<T>(xs: seq<Option<T>>): seq<T> {
    if xs == [] then []
    else
      var n := |xs| - 1;
      Present(xs[..n]) + (if xs[n].Some? then [xs[n].value] else [])
  }

  /** One more option: its value, if any, comes last. */
  lemma PresentSnoc<T>(xs: seq<Option<T>>, i: nat)
    requires i < |xs|
    ensures Present(xs[..i + 1]) == Present(xs[..i]) + (if xs[i].Some? then [xs[i].value] else [])
  {
    assert xs[..i + 1][..i] == xs[..i];
  }

  lemma {:induction false} PresentMembers<T>(xs: seq<Option<T>>, x: T)
    ensures x in Present(xs) <==> Some(x) in xs
  {
    if xs != [] {
      var n := |xs| - 1;
      PresentMembers(xs[..n], x);
      assert xs == xs[..n] + [xs[n]];
    }
  }

  /** The pairs `load_data_from_json` appends, in file order. */
  function ExtractPairs(entries: Dict.Dict<string, Translations>, language: string): seq<Pair> {
    Present(Offers(entries, language))
  }

  /** A phrase is kept exactly when its entry has a non-empty translation into the language. */
  lemma ExtractPairsMembers(entries: Dict.Dict<string, Translations>, language: string, p: Pair)
    ensures p in ExtractPairs(entries, language) <==>
      exists k :: 0 <= k < |entries| && entries[k].0 == p.0 && TranslationOf(entries[k].1, language) == Some(p.1)
  {
    var offers := Offers(entries, language);
    PresentMembers(offers, p);
    if Some(p) in offers {
      var k :| 0 <= k < |offers| && offers[k] == Some(p);
      assert entries[k].0 == p.0 && TranslationOf(entries[k].1, language) == Some(p.1);
    }
    if exists k :: 0 <= k < |entries| && entries[k].0 == p.0 && TranslationOf(entries[k].1, language) == Some(p.1) {
      var k :| 0 <= k < |entries| && entries[k].0 == p.0 && TranslationOf(entries[k].1, language) == Some(p.1);
      assert offers[k] == Some(p);
    }
  }

  /** No entry contributes more than one pair. */
  lemma {:induction false} PresentLength<T>(xs: seq<Option<T>>)
    ensures |Present(xs)| <= |xs|
  {
    if xs != [] {
      PresentLength(xs[..|xs| - 1]);
    }
  }

  /** The French sides and the target sides of a list of pairs. */
  function Sources(pairs: seq<Pair>): (r: seq<string>)
    ensures |r| == |pairs| && forall k :: 0 <= k < |pairs| ==> r[k] == pairs[k].0
  {
    seq(|pairs|, k requires 0 <= k < |pairs| => pairs[k].0)
  }

  function Targets(pairs: seq<Pair>): (r: seq<string>)
    ensures |r| == |pairs| && forall k :: 0 <= k < |pairs| ==> r[k] == pairs[k].1
  {
    seq(|pairs|, k requires 0 <= k < |pairs| => pairs[k].1)
  }

  // ---------------------------------------------------------------- encoding and the length filter

  /** Both sides encoded with `<START>` and `<END>`. */
  function EncodePair(sourceIds: map<string, int>, targetIds: map<string, int>, p: Pair): EncodedPair {
    (Vocab.EncodeIds(sourceIds, p.0, true), Vocab.EncodeIds(targetIds, p.1, true))
  }

  /** Neither side is longer than `MAX_SEQUENCE_LENGTH`. */
  predicate Fits(e: EncodedPair) {
    |e.0| <= MAX_SEQUENCE_LENGTH && |e.1| <= MAX_SEQUENCE_LENGTH
  }

  /** Each pair encoded, in order. */
  function Encodings(sourceIds: map<string, int>, targetIds: map<string, int>, pairs: seq<Pair>): (r: seq<EncodedPair>)
    ensures |r| == |pairs| && forall k :: 0 <= k < |pairs| ==> r[k] == EncodePair(sourceIds, targetIds, pairs[k])
  {
    seq(|pairs|, k requires 0 <= k < |pairs| => EncodePair(sourceIds, targetIds, pairs[k]))
  }

  /** The encoded pairs that fit, in order. */
  function KeepFitting(es: seq<EncodedPair>): seq<EncodedPair> {
    if es == [] then []
    else
      var n := |es| - 1;
      KeepFitting(es[..n]) + (if Fits(es[n]) then [es[n]] else [])
  }

  /** One more encoding: it comes last if it fits. */
  lemma KeepFittingSnoc(es: seq<EncodedPair>, i: nat)
    requires i < |es|
    ensures KeepFitting(es[..i + 1]) == KeepFitting(es[..i]) + (if Fits(es[i]) then [es[i]] else [])
  {
    assert es[..i + 1][..i] == es[..i];
  }

  /** The encoding loop of `create_tf_datasets`: encode every pair, keep the ones that fit. */
  function EncodedPairs(sourceIds: map<string, int>, targetIds: map<string, int>, pairs: seq<Pair>): seq<EncodedPair> {
    KeepFitting(Encodings(sourceIds, targetIds, pairs))
  }

  /** The filter keeps exactly the encodings that fit: long pairs are dropped, never cut down. */
  lemma {:induction false} KeepFittingMembers(es: seq<EncodedPair>, e: EncodedPair)
    ensures e in KeepFitting(es) <==> e in es && Fits(e)
  {
    if es != [] {
      var n := |es| - 1;
      KeepFittingMembers(es[..n], e);
      assert es == es[..n] + [es[n]];
    }
  }

  /** A pair is kept exactly when it is the encoding of an input pair and fits. */
  lemma EncodedPairsMembers(sourceIds: map<string, int>, targetIds: map<string, int>, pairs: seq<Pair>, e: EncodedPair)
    ensures e in EncodedPairs(sourceIds, targetIds, pairs) <==>
      Fits(e) && exists k :: 0 <= k < |pairs| && EncodePair(sourceIds, targetIds, pairs[k]) == e
  {
    var encode := p => EncodePair(sourceIds, targetIds, p);
    KeptEncodings(encode, pairs, Encodings(sourceIds, targetIds, pairs), e);
  }

  /** The filter over a list of encodings, whatever the encoder. */
  lemma KeptEncodings<P>(encode: P -> EncodedPair, pairs: seq<P>, es: seq<EncodedPair>, e: EncodedPair)
    requires |es| == |pairs| && forall k :: 0 <= k < |pairs| ==> es[k] == encode(pairs[k])
    ensures e in KeepFitting(es) <==> Fits(e) && exists k :: 0 <= k < |pairs| && encode(pairs[k]) == e
  {
    KeepFittingMembers(es, e);
    if e in es {
      var k :| 0 <= k < |es| && es[k] == e;
      assert encode(pairs[k]) == e;
    }
    if exists k :: 0 <= k < |pairs| && encode(pairs[k]) == e {
      var k :| 0 <= k < |pairs| && encode(pairs[k]) == e;
      assert es[k] == e;
    }
  }

  /** Every kept sequence opens with `<START>`, closes with `<END>` and fits. */
  lemma EncodedPairsShape(sourceIds: map<string, int>, targetIds: map<string, int>, pairs: seq<Pair>)
    ensures forall e :: e in EncodedPairs(sourceIds, targetIds, pairs) ==> Fits(e) && Delimited(e.0) && Delimited(e.1)
  {
    var es := Encodings(sourceIds, targetIds, pairs);
    forall e | e in EncodedPairs(sourceIds, targetIds, pairs)
      ensures Fits(e) && Delimited(e.0) && Delimited(e.1)
    {
      KeepFittingMembers(es, e);
      var k :| 0 <= k < |es| && es[k] == e;
    }
  }

  /**
   * A pair whose sides have at most `MAX_SEQUENCE_LENGTH - 2` tokens each:
   * with `<START>` and `<END>` added, its encodings fit whatever the vocabularies.
   */
  predicate ShortEnough(p: Pair) {
    |Vocab.Tokenize(p.0)| + 2 <= MAX_SEQUENCE_LENGTH && |Vocab.Tokenize(p.1)| + 2 <= MAX_SEQUENCE_LENGTH
  }

  /** An encoded pair fits exactly when the pair is short enough. */
  lemma FitsIffShort(sourceIds: map<string, int>, targetIds: map<string, int>, p: Pair)
    ensures Fits(EncodePair(sourceIds, targetIds, p)) <==> ShortEnough(p)
  {
    var e := EncodePair(sourceIds, targetIds, p);
    assert |e.0| == |Vocab.Tokenize(p.0)| + 2 && |e.1| == |Vocab.Tokenize(p.1)| + 2;
  }

  /** No pair of the list is short enough to be kept. */
  predicate NoneShortEnough(pairs: seq<Pair>) {
    forall p :: p in pairs ==> !ShortEnough(p)
  }

  /** Nothing is kept exactly when no pair is short enough, whichever vocabularies encode them. */
  lemma NothingKeptIffNoneShort(sourceIds: map<string, int>, targetIds: map<string, int>, pairs: seq<Pair>)
    ensures EncodedPairs(sourceIds, targetIds, pairs) == [] <==> NoneShortEnough(pairs)
  {
    var kept := EncodedPairs(sourceIds, targetIds, pairs);
    if kept != [] {
      EncodedPairsMembers(sourceIds, targetIds, pairs, kept[0]);
      var k :| 0 <= k < |pairs| && EncodePair(sourceIds, targetIds, pairs[k]) == kept[0];
      FitsIffShort(sourceIds, targetIds, pairs[k]);
      assert pairs[k] in pairs;
    } else {
      forall p | p in pairs
        ensures !ShortEnough(p)
      {
        var e := EncodePair(sourceIds, targetIds, p);
        var k :| 0 <= k < |pairs| && pairs[k] == p;
        EncodedPairsMembers(sourceIds, targetIds, pairs, e);
        FitsIffShort(sourceIds, targetIds, p);
      }
    }
  }

  /** A sequence that opens with `<START>` and closes with `<END>`. */
  predicate Delimited(ids: seq<int>) {
    |ids| >= 2 && ids[0] == START_ID && ids[|ids| - 1] == END_ID
  }

  // ---------------------------------------------------------------- random.shuffle

  /** Exchange two positions. */
  function Swap<T>(s: seq<T>, i: nat, j: nat): (r: seq<T>)
    requires i < |s| && j < |s|
    ensures |r| == |s|
  {
    s[i := s[j]][j := s[i]]
  }

  lemma SwapPermutes<T>(s: seq<T>, i: nat, j: nat)
    requires i < |s| && j < |s|
    ensures multiset(Swap(s, i, j)) == multiset(s)
  {
  }

  /**
   * The Fisher-Yates passes `random.shuffle` makes, from position `i` down to 1:
   * position `i` is exchanged with position `pick(i) % (i + 1)`. The random
   * draws are the parameter `pick`.
   */
  function ShuffleFrom<T>(s: seq<T>, i: nat, pick: nat -> nat): seq<T>
    requires i < |s|
    decreases i
  {
    if i == 0 then s else ShuffleFrom(Swap(s, i, pick(i) % (i + 1)), i - 1, pick)
  }

  /** `random.shuffle(x)` under the draws `pick`. */
  function Shuffled<T>(s: seq<T>, pick: nat -> nat): seq<T> {
    if |s| <= 1 then s else ShuffleFrom(s, |s| - 1, pick)
  }

  lemma {:induction false} ShuffleFromPermutes<T>(s: seq<T>, i: nat, pick: nat -> nat)
    requires i < |s|
    ensures |ShuffleFrom(s, i, pick)| == |s| && multiset(ShuffleFrom(s, i, pick)) == multiset(s)
    decreases i
  {
    if i > 0 {
      SwapPermutes(s, i, pick(i) % (i + 1));
      ShuffleFromPermutes(Swap(s, i, pick(i) % (i + 1)), i - 1, pick);
    }
  }

  /** Whatever the draws, the shuffle only reorders. */
  lemma ShuffledPermutes<T>(s: seq<T>, pick: nat -> nat)
    ensures |Shuffled(s, pick)| == |s| && multiset(Shuffled(s, pick)) == multiset(s)
  {
    if |s| > 1 {
      ShuffleFromPermutes(s, |s| - 1, pick);
    }
  }

  /** The shuffle done in place, as the library does it. */
  method Shuffle<T>(s: seq<T>, pick: nat -> nat) returns (r: seq<T>)
    ensures r == Shuffled(s, pick)
  {
    r := s;
    if |s| <= 1 {
      return;
    }
    var i := |s| - 1;
    while i > 0
      invariant 0 <= i < |r| == |s|
      invariant ShuffleFrom(r, i, pick) == ShuffleFrom(s, |s| - 1, pick)
    {
      var j := pick(i) % (i + 1);
      r := Swap(r, i, j);
      i := i - 1;
    }
  }

  // ---------------------------------------------------------------- the split

  /** `int(total * 0.15)`, the size of the test split and of the validation split. */
  function TestSize(total: nat): nat {
    total * TEST_PERCENT / 100
  }

  function ValidationSize(total: nat): nat {
    total * VALIDATION_PERCENT / 100
  }

  datatype Splits<T> = Splits(train: seq<T>, validation: seq<T>, test: seq<T>)

  /** The three consecutive slices of the shuffled list. */
  function SplitData<T>(shuffled: seq<T>): (s: Splits<T>)
    ensures s.train + s.validation + s.test == shuffled
    ensures |s.test| == TestSize(|shuffled|) && |s.validation| == ValidationSize(|shuffled|)
  {
    var total := |shuffled|;
    var trainSize := total - TestSize(total) - ValidationSize(total);
    Splits(shuffled[..trainSize], shuffled[trainSize..trainSize + ValidationSize(total)],
           shuffled[trainSize + ValidationSize(total)..])
  }

  /** The training split is never smaller than the others, and is non-empty as soon as there is data. */
  lemma TrainIsLargest<T>(shuffled: seq<T>)
    ensures |SplitData(shuffled).train| >= |SplitData(shuffled).validation|
    ensures |shuffled| > 0 ==> |SplitData(shuffled).train| > 0
  {
    var total := |shuffled|;
    var q := total * 15 / 100;
    assert q * 100 <= total * 15;
  }

  // ---------------------------------------------------------------- padding and examples

  /**
   * `pad_sequences(..., maxlen=MAX_SEQUENCE_LENGTH, padding='post', value=PAD_ID)`:
   * a short sequence is followed by `<PAD>` ids, and a long one (the default
   * truncation is 'pre') keeps its last `MAX_SEQUENCE_LENGTH` ids.
   */
  function PadSequence(ids: seq<int>): (r: seq<int>)
    ensures |r| == MAX_SEQUENCE_LENGTH
    ensures |ids| <= MAX_SEQUENCE_LENGTH ==>
      r[..|ids|] == ids && forall i :: |ids| <= i < MAX_SEQUENCE_LENGTH ==> r[i] == PAD_ID
    ensures |ids| > MAX_SEQUENCE_LENGTH ==> r == ids[|ids| - MAX_SEQUENCE_LENGTH..]
  {
    if |ids| > MAX_SEQUENCE_LENGTH then ids[|ids| - MAX_SEQUENCE_LENGTH..]
    else ids + seq(MAX_SEQUENCE_LENGTH - |ids|, _ => PAD_ID)
  }

  /** Drop the trailing `<PAD>` ids. */
  function StripPadding(ids: seq<int>): (r: seq<int>)
    ensures |r| <= |ids| && r == ids[..|r|]
    ensures r == [] || r[|r| - 1] != PAD_ID
  {
    if ids == [] || ids[|ids| - 1] != PAD_ID then ids else StripPadding(ids[..|ids| - 1])
  }

  lemma {:induction false} StripPads(ids: seq<int>, n: nat)
    requires ids == [] || ids[|ids| - 1] != PAD_ID
    ensures StripPadding(ids + seq(n, _ => PAD_ID)) == ids
    decreases n
  {
    if n > 0 {
      var padded := ids + seq(n, _ => PAD_ID);
      assert padded[..|padded| - 1] == ids + seq(n - 1, _ => PAD_ID);
      StripPads(ids, n - 1);
    } else {
      assert ids + seq(n, _ => PAD_ID) == ids;
    }
  }

  /** Padding loses nothing from a sequence that fits and does not already end in `<PAD>`. */
  lemma PaddingRoundTrip(ids: seq<int>)
    requires |ids| <= MAX_SEQUENCE_LENGTH && (ids == [] || ids[|ids| - 1] != PAD_ID)
    ensures StripPadding(PadSequence(ids)) == ids
  {
    StripPads(ids, MAX_SEQUENCE_LENGTH - |ids|);
  }

  /** One element of `((padded_sources, padded_targets), padded_targets)`. */
  datatype Example = Example(encoderInput: seq<int>, decoderInput: seq<int>, labels: seq<int>)

  /** `_create_dataset_from_pairs` before the library's shuffle buffer and batching. */
  function Examples(pairs: seq<EncodedPair>): (r: seq<Example>)
    ensures |r| == |pairs|
    ensures forall k :: 0 <= k < |r| ==>
      r[k].decoderInput == r[k].labels && |r[k].encoderInput| == |r[k].labels| == MAX_SEQUENCE_LENGTH
  {
    seq(|pairs|, k requires 0 <= k < |pairs| =>
      Example(PadSequence(pairs[k].0), PadSequence(pairs[k].1), PadSequence(pairs[k].1)))
  }

  /** Each example of kept pairs gives its pair back once the padding is stripped. */
  lemma ExamplesRecoverPairs(pairs: seq<EncodedPair>)
    requires forall e :: e in pairs ==> Fits(e) && Delimited(e.0) && Delimited(e.1)
    ensures forall k :: 0 <= k < |pairs| ==>
      StripPadding(Examples(pairs)[k].encoderInput) == pairs[k].0 &&
      StripPadding(Examples(pairs)[k].labels) == pairs[k].1
  {
    forall k | 0 <= k < |pairs|
      ensures StripPadding(Examples(pairs)[k].encoderInput) == pairs[k].0
      ensures StripPadding(Examples(pairs)[k].labels) == pairs[k].1
    {
      assert pairs[k] in pairs;
      PaddingRoundTrip(pairs[k].0);
      PaddingRoundTrip(pairs[k].1);
    }
  }

  /** The `InvalidArgumentError` tf.data raises for `shuffle(buffer_size=0)`. */
  const EMPTY_SHUFFLE_BUFFER: string := "buffer_size must be greater than zero."

  /**
   * `_create_dataset_from_pairs(pairs, shuffle)`: the examples of the pairs; a
   * shuffled dataset takes a buffer of `len(pairs)`, which tf.data refuses when
   * there are no pairs.
   */
  function DatasetFromPairs(pairs: seq<EncodedPair>, shuffle: bool): (r: Result<seq<Example>, string>)
    ensures r.Err? <==> shuffle && |pairs| == 0
    ensures r.Err? ==> r.error == EMPTY_SHUFFLE_BUFFER
    ensures r.Ok? ==> r.value == Examples(pairs)
  {
    if shuffle && |pairs| == 0 then Err(EMPTY_SHUFFLE_BUFFER) else Ok(Examples(pairs))
  }

  /** The training split is empty exactly when no pair was kept, whatever the shuffle draws. */
  lemma EmptyTrainIffNothingKept<T>(kept: seq<T>, pick: nat -> nat)
    ensures SplitData(Shuffled(kept, pick)).train == [] <==> kept == []
  {
    ShuffledPermutes(kept, pick);
    TrainIsLargest(Shuffled(kept, pick));
  }

  /** The train, validation and test datasets. */
  datatype Datasets = Datasets(train: seq<Example>, validation: seq<Example>, test: seq<Example>)

  /** What `create_tf_datasets` builds from the pairs, the vocabularies' ids and the shuffle draws. */
  function MakeDatasets(sourceIds: map<string, int>, targetIds: map<string, int>, pairs: seq<Pair>, pick: nat -> nat): Datasets {
    var parts := SplitData(Shuffled(EncodedPairs(sourceIds, targetIds, pairs), pick));
    Datasets(Examples(parts.train), Examples(parts.validation), Examples(parts.test))
  }

  /**
   * The three splits hold, between them, each kept pair exactly as often as the
   * filter kept it: the split is a partition of a reordering.
   */
  lemma SplitsPartitionKeptPairs(sourceIds: map<string, int>, targetIds: map<string, int>, pairs: seq<Pair>, pick: nat -> nat)
    ensures var kept := EncodedPairs(sourceIds, targetIds, pairs);
      var parts := SplitData(Shuffled(kept, pick));
      multiset(parts.train) + multiset(parts.validation) + multiset(parts.test) == multiset(kept)
  {
    var kept := EncodedPairs(sourceIds, targetIds, pairs);
    var shuffled := Shuffled(kept, pick);
    var parts := SplitData(shuffled);
    ShuffledPermutes(kept, pick);
    calc {
      multiset(parts.train) + multiset(parts.validation) + multiset(parts.test);
      multiset(parts.train + parts.validation + parts.test);
      multiset(shuffled);
    }
  }

  /** Every example of every split is a padded encoding of an input pair, which padding does not hide. */
  lemma DatasetExamplesComeFromPairs(sourceIds: map<string, int>, targetIds: map<string, int>, pairs: seq<Pair>, pick: nat -> nat)
    ensures var kept := EncodedPairs(sourceIds, targetIds, pairs);
      var parts := SplitData(Shuffled(kept, pick));
      forall e :: e in parts.train || e in parts.validation || e in parts.test ==>
        e in kept && Fits(e) && Delimited(e.0) && Delimited(e.1)
  {
    var kept := EncodedPairs(sourceIds, targetIds, pairs);
    var shuffled := Shuffled(kept, pick);
    var parts := SplitData(shuffled);
    ShuffledPermutes(kept, pick);
    EncodedPairsShape(sourceIds, targetIds, pairs);
    forall e | e in parts.train || e in parts.validation || e in parts.test
      ensures e in kept
    {
      assert e in parts.train + parts.validation + parts.test;
      assert e in multiset(shuffled);
    }
  }

  /**
   * The pairs a new builder's `prepare_all(augment)` works on: those of the
   * file, or their expansion with the default factor when augmenting.
   */
  function PreparedPairs(data: LanguageData, language: string, augment: bool, draws: seq<seq<Augmentation.Draw>>): seq<Pair>
    requires augment ==> Augmentation.DrawsFor(ExtractPairs(FrenchEntries(data), language), AUGMENTATION_FACTOR, draws)
  {
    var raw := ExtractPairs(FrenchEntries(data), language);
    if augment && Augmentation.Expanded(raw, draws, 0.1) != [] then Augmentation.Expanded(raw, draws, 0.1) else raw
  }

  // ---------------------------------------------------------------- the builder

  /** `DatasetBuilder`: the pairs of one target language and the vocabularies built from them. */
  class DatasetBuilder {
    const targetLanguage: string
    var sourceVocab: Option<Vocab.Vocabulary>
    var targetVocab: Option<Vocab.Vocabulary>
    const augmenter: Augmentation.DataAugmenter
    var rawPairs: seq<Pair>
    var augmentedPairs: seq<Pair>

    constructor (targetLanguage: string)
      requires targetLanguage in SUPPORTED_LANGUAGES
      ensures this.targetLanguage == targetLanguage
      ensures sourceVocab.None? && targetVocab.None? && rawPairs == [] && augmentedPairs == []
      ensures fresh(augmenter) && augmenter.noiseProb == 0.1
    {
      this.targetLanguage := targetLanguage;
      sourceVocab := None;
      targetVocab := None;
      augmenter := new Augmentation.DataAugmenter(0.1);
      rawPairs := [];
      augmentedPairs := [];
    }

    /** `DatasetBuilder(target_language)`, which raises `ValueError` for an unsupported language. */
    static method Create(targetLanguage: string) returns (r: Result<DatasetBuilder, string>)
      ensures r.Ok? <==> targetLanguage in SUPPORTED_LANGUAGES
      ensures r.Ok? ==>
        && fresh(r.value) && r.value.targetLanguage == targetLanguage
        && r.value.sourceVocab.None? && r.value.targetVocab.None?
        && r.value.rawPairs == [] && r.value.augmentedPairs == []
        && r.value.augmenter.noiseProb == 0.1
      ensures r.Err? ==> r.error == "Langue non supportée: " + targetLanguage
    {
      if targetLanguage !in SUPPORTED_LANGUAGES {
        return Err("Langue non supportée: " + targetLanguage);
      }
      var b := new DatasetBuilder(targetLanguage);
      return Ok(b);
    }

    /** The pairs vocabularies and datasets are made from: the augmented ones if there are any. */
    function Pairs(): seq<Pair>
      reads this
    {
      if augmentedPairs != [] then augmentedPairs else rawPairs
    }

    /** `load_data_from_json` on the parsed file: append the pairs found under `"fr"`. */
    method LoadDataFromJson(data: LanguageData) returns (pairs: seq<Pair>)
      modifies this
      ensures rawPairs == old(rawPairs) + ExtractPairs(FrenchEntries(data), targetLanguage)
      ensures pairs == rawPairs
      ensures sourceVocab == old(sourceVocab) && targetVocab == old(targetVocab) && augmentedPairs == old(augmentedPairs)
    {
      var entries := FrenchEntries(data);
      ghost var offers := Offers(entries, targetLanguage);
      for i := 0 to |entries|
        invariant rawPairs == old(rawPairs) + Present(offers[..i])
        invariant sourceVocab == old(sourceVocab) && targetVocab == old(targetVocab) && augmentedPairs == old(augmentedPairs)
      {
        PresentSnoc(offers, i);
        var translation := TranslationOf(entries[i].1, targetLanguage);
        if translation.Some? {
          rawPairs := rawPairs + [(entries[i].0, translation.value)];
        }
      }
      assert offers[..|entries|] == offers;
      pairs := rawPairs;
    }

    /** `augment_data(factor)`: replace the augmented pairs by the expansion of the raw ones. */
    method AugmentData(factor: int, draws: seq<seq<Augmentation.Draw>>)
      requires Augmentation.DrawsFor(rawPairs, factor, draws)
      modifies this
      ensures rawPairs == old(rawPairs) && sourceVocab == old(sourceVocab) && targetVocab == old(targetVocab)
      ensures augmentedPairs == Augmentation.Expanded(rawPairs, draws, augmenter.noiseProb)
      ensures |augmentedPairs| == |rawPairs| * (if factor < 1 then 1 else factor)
    {
      augmentedPairs := augmenter.AugmentDataset(rawPairs, factor, draws);
    }

    /**
     * `build_vocabularies`: two new vocabularies, counted over the French and
     * the target sides of `Pairs()` with the default minimum frequency.
     */
    method BuildVocabularies() returns (source: Vocab.Vocabulary, target: Vocab.Vocabulary)
      modifies this
      ensures rawPairs == old(rawPairs) && augmentedPairs == old(augmentedPairs)
      ensures sourceVocab == Some(source) && targetVocab == Some(target)
      ensures fresh(source) && Built(source, SOURCE_LANGUAGE, Sources(Pairs()))
      ensures fresh(target) && Built(target, targetLanguage, Targets(Pairs()))
    {
      var pairs := Pairs();
      source := NewVocabulary(SOURCE_LANGUAGE, Sources(pairs));
      target := NewVocabulary(targetLanguage, Targets(pairs));
      sourceVocab := Some(source);
      targetVocab := Some(target);
    }

    /** `Vocabulary(language)` followed by `build_from_texts(texts)`. */
    static method NewVocabulary(language: string, texts: seq<string>) returns (v: Vocab.Vocabulary)
      ensures fresh(v) && Built(v, language, texts)
    {
      v := new Vocab.Vocabulary(language);
      v.BuildFromTexts(texts, MIN_VOCAB_FREQUENCY);
    }

    /** `not self.source_vocab or not self.target_vocab`: missing, or of length 0. */
    predicate VocabulariesMissing()
      reads this, if sourceVocab.Some? then {sourceVocab.value} else {}, if targetVocab.Some? then {targetVocab.value} else {}
    {
      || sourceVocab.None? || sourceVocab.value.Length() == 0
      || targetVocab.None? || targetVocab.value.Length() == 0
    }

    /** The encoding loop: encode both sides of every pair and keep those that fit. */
    static method EncodeAll(source: Vocab.Vocabulary, target: Vocab.Vocabulary, pairs: seq<Pair>) returns (encoded: seq<EncodedPair>)
      ensures encoded == EncodedPairs(source.word2idx, target.word2idx, pairs)
    {
      ghost var es := Encodings(source.word2idx, target.word2idx, pairs);
      encoded := [];
      for i := 0 to |pairs|
        invariant encoded == KeepFitting(es[..i])
      {
        KeepFittingSnoc(es, i);
        var sourceIds := source.Encode(pairs[i].0, true);
        var targetIds := target.Encode(pairs[i].1, true);
        if |sourceIds| <= MAX_SEQUENCE_LENGTH && |targetIds| <= MAX_SEQUENCE_LENGTH {
          encoded := encoded + [(sourceIds, targetIds)];
        }
      }
      assert es[..|pairs|] == es;
    }

    /**
     * `create_tf_datasets`: `ValueError` without both vocabularies; otherwise
     * the encoded pairs that fit, shuffled by the draws `pick` and split. The
     * training split is shuffled by tf.data, which fails when it is empty,
     * that is when no pair was kept.
     */
    method CreateTfDatasets(pick: nat -> nat) returns (r: Result<Datasets, string>)
      ensures VocabulariesMissing() ==> r == Err("Les vocabulaires doivent être construits d'abord")
      ensures !VocabulariesMissing() ==>
        (r.Err? <==> EncodedPairs(sourceVocab.value.word2idx, targetVocab.value.word2idx, Pairs()) == [])
      ensures !VocabulariesMissing() && r.Err? ==> r.error == EMPTY_SHUFFLE_BUFFER
      ensures r.Ok? ==> r.value == MakeDatasets(sourceVocab.value.word2idx, targetVocab.value.word2idx, Pairs(), pick)
    {
      if sourceVocab.None? || sourceVocab.value.Length() == 0 || targetVocab.None? || targetVocab.value.Length() == 0 {
        return Err("Les vocabulaires doivent être construits d'abord");
      }
      var encoded := EncodeAll(sourceVocab.value, targetVocab.value, Pairs());
      var shuffled := Shuffle(encoded, pick);
      var parts := SplitData(shuffled);
      EmptyTrainIffNothingKept(encoded, pick);
      var train := DatasetFromPairs(parts.train, true);
      if train.Err? {
        return Err(train.error);
      }
      var validation := DatasetFromPairs(parts.validation, false);
      var test := DatasetFromPairs(parts.test, false);
      r := Ok(Datasets(train.value, validation.value, test.value));
    }

    /**
     * `prepare_all(augment)`: load, augment with the default factor when asked,
     * build the vocabularies, then create the datasets. The vocabularies are
     * built, so the only failure left is an empty training split.
     */
    method PrepareAll(data: LanguageData, augment: bool, draws: seq<seq<Augmentation.Draw>>, pick: nat -> nat)
      returns (r: Result<Datasets, string>)
      requires augment ==>
        Augmentation.DrawsFor(rawPairs + ExtractPairs(FrenchEntries(data), targetLanguage), AUGMENTATION_FACTOR, draws)
      modifies this
      ensures rawPairs == old(rawPairs) + ExtractPairs(FrenchEntries(data), targetLanguage)
      ensures augmentedPairs == if augment then Augmentation.Expanded(rawPairs, draws, augmenter.noiseProb) else old(augmentedPairs)
      ensures sourceVocab.Some? && targetVocab.Some?
      ensures Built(sourceVocab.value, SOURCE_LANGUAGE, Sources(Pairs()))
      ensures Built(targetVocab.value, targetLanguage, Targets(Pairs()))
      ensures r.Err? <==> EncodedPairs(sourceVocab.value.word2idx, targetVocab.value.word2idx, Pairs()) == []
      ensures r.Err? ==> r.error == EMPTY_SHUFFLE_BUFFER
      ensures r.Ok? ==> r.value == MakeDatasets(sourceVocab.value.word2idx, targetVocab.value.word2idx, Pairs(), pick)
    {
      var _ := LoadDataFromJson(data);
      if augment {
        AugmentData(AUGMENTATION_FACTOR, draws);
      }
      var source, target := BuildVocabularies();
      HasSpecialsNonEmpty(source.word2idx, source.idx2word);
      HasSpecialsNonEmpty(target.word2idx, target.idx2word);
      assert !VocabulariesMissing();
      r := CreateTfDatasets(pick);
    }
  }

  /**
   * A vocabulary freshly built over `texts`: it counts their words, gives
   * ids 0 .. n-1 to the reserved tokens and the words seen at least
   * `MIN_VOCAB_FREQUENCY` times, and maps ids and words both ways.
   */
  ghost predicate Built(v: Vocab.Vocabulary, language: string, texts: seq<string>)
    reads v
  {
    && v.language == language
    && v.wordCounts == Vocab.TallyTexts([], texts)
    && Vocab.Inverse(v.word2idx, v.idx2word) && Vocab.DenseIds(v.idx2word, v.Length())
    && Vocab.FrequentWordsOnly(v.word2idx, v.wordCounts, MIN_VOCAB_FREQUENCY)
    && Vocab.HasSpecials(v.word2idx, v.idx2word)
  }

  /** A vocabulary holding the reserved tokens is never empty, so `not vocab` is false for it. */
  lemma HasSpecialsNonEmpty(word2idx: map<string, int>, idx2word: map<int, string>)
    requires Vocab.HasSpecials(word2idx, idx2word)
    ensures |word2idx| >= 1
  {
    assert SPECIAL_TOKENS[0] in word2idx;
    assert |word2idx| == |word2idx.Keys|;
    assert word2idx.Keys != {};
  }
}
