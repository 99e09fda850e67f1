/**
 * The TensorFlow translation service: at start-up it loads, for every
 * supported target language, the saved model and the two vocabularies;
 * it then translates French text with a loaded model and scores the
 * result from the attention trace and the inference time.
 *
 * The disk is a parameter: `modelFiles` holds the models that load,
 * `vocabFiles` the vocabulary files present. The clock and the entropy of
 * the attention trace (a floating-point computation) are parameters too.
 */
module TranslationService {
  import opened Wrappers
  import opened Config
  import Dict
  import Vocab
  import Seq2Seq

  // ---------------------------------------------------------------------
  // Confidence score (`_calculate_confidence`)
  // ---------------------------------------------------------------------

  /** `np.clip(x, 0.0, 1.0)`. */
  function Clip(x: real): (r: real)
    ensures 0.0 <= r <= 1.0
    ensures 0.0 <= x <= 1.0 ==> r == x
  {
    if x < 0.0 then 0.0 else if x > 1.0 then 1.0 else x
  }

  /** Inference that takes a second or more is penalised. */
  function TimePenalty(inferenceTime: real): real {
    if inferenceTime < 1.0 then 1.0 else 0.8
  }

  /** `attention_weights.size`: the number of weights over all recorded rows. */
  function AttentionSize(attention: seq<seq<real>>): nat {
    if attention == [] then 0 else AttentionSize(attention[..|attention| - 1]) + |attention[|attention| - 1]|
  }

  /**
   * The score for an attention trace whose normalised mean entropy is
   * `normalizedEntropy`: 0.5 for an empty trace, otherwise the
   * complement of the entropy, penalised when slow, clipped to [0, 1].
   */
  function Confidence(attention: seq<seq<real>>, normalizedEntropy: real, inferenceTime: real): (c: real)
    ensures 0.0 <= c <= 1.0
    ensures AttentionSize(attention) == 0 ==> c == 0.5
    ensures AttentionSize(attention) > 0 ==> c == Clip((1.0 - normalizedEntropy) * TimePenalty(inferenceTime))
  {
    if AttentionSize(attention) == 0 then 0.5
    else Clip((1.0 - normalizedEntropy) * TimePenalty(inferenceTime))
  }

  /** A normalised entropy in [0, 1] is not clipped: the score is its complement, times the penalty. */
  lemma ConfidenceUnclipped(attention: seq<seq<real>>, normalizedEntropy: real, inferenceTime: real)
    requires AttentionSize(attention) > 0 && 0.0 <= normalizedEntropy <= 1.0
    ensures Confidence(attention, normalizedEntropy, inferenceTime)
      == (1.0 - normalizedEntropy) * (if inferenceTime < 1.0 then 1.0 else 0.8)
  {
  }

  /** A slow inference never scores higher than a fast one on the same trace. */
  lemma SlowNeverScoresHigher(attention: seq<seq<real>>, normalizedEntropy: real, fast: real, slow: real)
    requires fast < 1.0 <= slow
    ensures Confidence(attention, normalizedEntropy, slow) <= Confidence(attention, normalizedEntropy, fast)
  {
  }

  /** More concentrated attention (lower entropy) never scores lower. */
  lemma ConcentrationRaisesConfidence(attention: seq<seq<real>>, e1: real, e2: real, inferenceTime: real)
    requires e1 <= e2
    ensures Confidence(attention, e2, inferenceTime) <= Confidence(attention, e1, inferenceTime)
  {
    var p := TimePenalty(inferenceTime);
    assert (1.0 - e2) * p <= (1.0 - e1) * p;
  }

  // ---------------------------------------------------------------------
  // Loading (`_load_models`)
  // ---------------------------------------------------------------------

  /** A language is registered when its model loads and both its vocabularies load after it. */
  predicate Loadable<M>(language: string, modelFiles: map<string, M>, vocabFiles: map<string, Vocab.VocabFile>) {
    language in modelFiles && Vocab.Readable(vocabFiles, SOURCE_LANGUAGE) && Vocab.Readable(vocabFiles, language)
  }

  /** The languages of `languages` that load, in their order. */
  function LoadedLanguages<M>(languages: seq<string>, modelFiles: map<string, M>, vocabFiles: map<string, Vocab.VocabFile>): (r: seq<string>)
    ensures |r| <= |languages|
  {
    if languages == [] then []
    else
      var last := languages[|languages| - 1];
      LoadedLanguages(languages[..|languages| - 1], modelFiles, vocabFiles)
        + (if Loadable(last, modelFiles, vocabFiles) then [last] else [])
  }

  /** A language is registered exactly when it is a candidate that loads. */
  lemma {:induction false} LoadedLanguagesMembers<M>(languages: seq<string>, modelFiles: map<string, M>, vocabFiles: map<string, Vocab.VocabFile>)
    ensures forall l :: l in LoadedLanguages(languages, modelFiles, vocabFiles) <==> l in languages && Loadable(l, modelFiles, vocabFiles)
  {
    if languages != [] {
      var init := languages[..|languages| - 1];
      LoadedLanguagesMembers(init, modelFiles, vocabFiles);
      assert languages == init + [languages[|languages| - 1]];
    }
  }

  predicate NoRepeats(s: seq<string>) {
    forall i, j :: 0 <= i < j < |s| ==> s[i] != s[j]
  }

  /** Without repeats in the candidates, no language is registered twice. */
  lemma {:induction false} LoadedLanguagesDistinct<M>(languages: seq<string>, modelFiles: map<string, M>, vocabFiles: map<string, Vocab.VocabFile>)
    requires NoRepeats(languages)
    ensures NoRepeats(LoadedLanguages(languages, modelFiles, vocabFiles))
  {
    if languages != [] {
      var init := languages[..|languages| - 1];
      var last := languages[|languages| - 1];
      assert forall i, j :: 0 <= i < j < |init| ==> init[i] == languages[i] != languages[j] == init[j];
      LoadedLanguagesDistinct(init, modelFiles, vocabFiles);
      LoadedLanguagesMembers(init, modelFiles, vocabFiles);
      assert last !in init;
      var a := LoadedLanguages(init, modelFiles, vocabFiles);
      var r := LoadedLanguages(languages, modelFiles, vocabFiles);
      assert r == a + (if Loadable(last, modelFiles, vocabFiles) then [last] else []);
      forall i, j | 0 <= i < j < |r| ensures r[i] != r[j] {
        assert r[i] == a[i];
        if j >= |a| {
          assert r[j] == last;
        } else {
          assert r[j] == a[j];
        }
      }
    }
  }

  /** The models `_load_models` registers: each loadable language of `languages` with its model, in order. */
  function LoadedModels<M>(languages: seq<string>, modelFiles: map<string, M>, vocabFiles: map<string, Vocab.VocabFile>): Dict.Dict<string, M>
  {
    if languages == [] then []
    else
      var last := languages[|languages| - 1];
      LoadedModels(languages[..|languages| - 1], modelFiles, vocabFiles)
        + (if Loadable(last, modelFiles, vocabFiles) then [(last, modelFiles[last])] else [])
  }

  /** The registered models are keyed by the loaded languages, each with the model read for it. */
  lemma {:induction false} LoadedModelsFacts<M>(languages: seq<string>, modelFiles: map<string, M>, vocabFiles: map<string, Vocab.VocabFile>)
    ensures var r := LoadedModels(languages, modelFiles, vocabFiles);
      && Dict.Keys(r) == LoadedLanguages(languages, modelFiles, vocabFiles)
      && forall k :: 0 <= k < |r| ==> Loadable(r[k].0, modelFiles, vocabFiles) && r[k].1 == modelFiles[r[k].0]
  {
    if languages != [] {
      var init := languages[..|languages| - 1];
      var last := languages[|languages| - 1];
      LoadedModelsFacts(init, modelFiles, vocabFiles);
      var a := LoadedModels(init, modelFiles, vocabFiles);
      if Loadable(last, modelFiles, vocabFiles) {
        Dict.KeysSnoc(a, last, modelFiles[last]);
      }
    }
  }

  lemma LoadedModelsStep<M>(languages: seq<string>, i: nat, modelFiles: map<string, M>, vocabFiles: map<string, Vocab.VocabFile>)
    requires i < |languages|
    ensures var l := languages[i];
      LoadedModels(languages[..i + 1], modelFiles, vocabFiles)
        == LoadedModels(languages[..i], modelFiles, vocabFiles)
           + (if Loadable(l, modelFiles, vocabFiles) then [(l, modelFiles[l])] else [])
  {
    assert languages[..i + 1][..i] == languages[..i];
  }

  lemma SupportedLanguagesDistinct()
    ensures NoRepeats(SUPPORTED_LANGUAGES)
  {
    var l := SUPPORTED_LANGUAGES;
    assert |l[0]| == 4 && |l[1]| == 6 && |l[2]| == 5 && |l[3]| == 4;
    assert l[0][0] != l[3][0];
  }

  /** The supported languages are registered at most once each, every one with a model read for it. */
  lemma SupportedModelsValid<E(!new)>(modelFiles: map<string, Seq2Seq.Model<E, seq<real>>>, vocabFiles: map<string, Vocab.VocabFile>)
    requires forall l :: l in modelFiles ==> Seq2Seq.Valid(modelFiles[l])
    ensures var r := LoadedModels(SUPPORTED_LANGUAGES, modelFiles, vocabFiles);
      Dict.DistinctKeys(r) && forall k :: 0 <= k < |r| ==> Seq2Seq.Valid(r[k].1)
  {
    SupportedLanguagesDistinct();
    LoadedLanguagesDistinct(SUPPORTED_LANGUAGES, modelFiles, vocabFiles);
    LoadedModelsFacts(SUPPORTED_LANGUAGES, modelFiles, vocabFiles);
    var r := LoadedModels(SUPPORTED_LANGUAGES, modelFiles, vocabFiles);
    var names := Dict.Keys(r);
    assert forall i :: 0 <= i < |r| ==> names[i] == r[i].0;
  }

  /** The vocabulary objects held by a registry. */
  function Objects(d: Dict.Dict<string, Vocab.Vocabulary>): set<Vocab.Vocabulary> {
    set k | 0 <= k < |d| :: d[k].1
  }

  /**
   * The three registries side by side: the same languages in the same
   * order, each with its French vocabulary and its target vocabulary as
   * read from their files.
   */
  ghost predicate InStep<M>(vocabFiles: map<string, Vocab.VocabFile>, loaded: Dict.Dict<string, M>,
                            sources: Dict.Dict<string, Vocab.Vocabulary>, targets: Dict.Dict<string, Vocab.Vocabulary>)
    reads Objects(sources), Objects(targets)
  {
    && |sources| == |loaded| && |targets| == |loaded|
    && forall k :: 0 <= k < |loaded| ==>
         && sources[k].0 == loaded[k].0 && targets[k].0 == loaded[k].0
         && SOURCE_LANGUAGE in vocabFiles && Vocab.Holds(sources[k].1, vocabFiles[SOURCE_LANGUAGE])
         && loaded[k].0 in vocabFiles && Vocab.Holds(targets[k].1, vocabFiles[loaded[k].0])
  }

  lemma InStepAdd<M>(vocabFiles: map<string, Vocab.VocabFile>, loaded: Dict.Dict<string, M>,
                     sources: Dict.Dict<string, Vocab.Vocabulary>, targets: Dict.Dict<string, Vocab.Vocabulary>,
                     language: string, model: M, sourceVocab: Vocab.Vocabulary, targetVocab: Vocab.Vocabulary)
    requires InStep(vocabFiles, loaded, sources, targets)
    requires SOURCE_LANGUAGE in vocabFiles && Vocab.Holds(sourceVocab, vocabFiles[SOURCE_LANGUAGE])
    requires language in vocabFiles && Vocab.Holds(targetVocab, vocabFiles[language])
    ensures InStep(vocabFiles, loaded + [(language, model)], sources + [(language, sourceVocab)], targets + [(language, targetVocab)])
  {
    var loaded', sources', targets' := loaded + [(language, model)], sources + [(language, sourceVocab)], targets + [(language, targetVocab)];
    forall k | 0 <= k < |loaded'|
      ensures && sources'[k].0 == loaded'[k].0 && targets'[k].0 == loaded'[k].0
              && Vocab.Holds(sources'[k].1, vocabFiles[SOURCE_LANGUAGE])
              && loaded'[k].0 in vocabFiles && Vocab.Holds(targets'[k].1, vocabFiles[loaded'[k].0])
    {
      if k < |loaded| {
        assert loaded'[k] == loaded[k] && sources'[k] == sources[k] && targets'[k] == targets[k];
      }
    }
  }

  /** What `get_model_info` reports. */
  datatype ModelInfo = ModelInfo(language: string, sourceVocabSize: nat, targetVocabSize: nat, modelLoaded: bool)

  class Service<E(!new)> {
    var models: Dict.Dict<string, Seq2Seq.Model<E, seq<real>>>
    var sourceVocabs: Dict.Dict<string, Vocab.Vocabulary>
    var targetVocabs: Dict.Dict<string, Vocab.Vocabulary>
    var isAvailable: bool

    /**
     * The three registries hold the same languages in the same order,
     * each at most once, every model has the shapes its layers fix, and
     * the service is available exactly when some model is loaded.
     * That each vocabulary holds what its file holds (`InStep`) is stated
     * by the constructor instead: the files are not kept by the service,
     * and the vocabulary objects lie outside the `this` that `Valid` reads.
     */
    ghost predicate Valid()
      reads this
    {
      && Dict.DistinctKeys(models)
      && |sourceVocabs| == |models| && |targetVocabs| == |models|
      && (forall k :: 0 <= k < |models| ==> sourceVocabs[k].0 == models[k].0 && targetVocabs[k].0 == models[k].0)
      && (forall k :: 0 <= k < |models| ==> Seq2Seq.Valid(models[k].1))
      && (isAvailable <==> models != [])
    }

    /** `__init__` followed by `_load_models`. */
    constructor (modelFiles: map<string, Seq2Seq.Model<E, seq<real>>>, vocabFiles: map<string, Vocab.VocabFile>)
      requires forall l :: l in modelFiles ==> Seq2Seq.Valid(modelFiles[l])
      ensures Valid()
      ensures models == LoadedModels(SUPPORTED_LANGUAGES, modelFiles, vocabFiles)
      ensures InStep(vocabFiles, models, sourceVocabs, targetVocabs)
    {
      var loaded, sources, targets, loadedCount := LoadModels(SUPPORTED_LANGUAGES, modelFiles, vocabFiles);
      SupportedModelsValid(modelFiles, vocabFiles);
      models := loaded;
      sourceVocabs := sources;
      targetVocabs := targets;
      isAvailable := loadedCount > 0;
      new;
      assert forall v :: v in Objects(sources) + Objects(targets) ==> v as object != this;
    }

    /**
     * The loop of `_load_models`: each supported language in turn is
     * skipped when its model or a vocabulary fails to load, and otherwise
     * registered in all three registries at once.
     */
    static method LoadModels<M>(languages: seq<string>, modelFiles: map<string, M>, vocabFiles: map<string, Vocab.VocabFile>)
      returns (loaded: Dict.Dict<string, M>, sources: Dict.Dict<string, Vocab.Vocabulary>,
               targets: Dict.Dict<string, Vocab.Vocabulary>, loadedCount: int)
      ensures loadedCount == |loaded|
      ensures loaded == LoadedModels(languages, modelFiles, vocabFiles)
      ensures InStep(vocabFiles, loaded, sources, targets)
    {
      loaded := [];
      sources := [];
      targets := [];
      loadedCount := 0;
      for i := 0 to |languages|
        invariant loadedCount == |loaded|
        invariant loaded == LoadedModels(languages[..i], modelFiles, vocabFiles)
        invariant InStep(vocabFiles, loaded, sources, targets)
      {
        var language := languages[i];
        LoadedModelsStep(languages, i, modelFiles, vocabFiles);
        var entry := TryLoad(language, modelFiles, vocabFiles);
        if entry.Some? {
          InStepAdd(vocabFiles, loaded, sources, targets, language, entry.value.0, entry.value.1, entry.value.2);
          loaded := loaded + [(language, entry.value.0)];
          sources := sources + [(language, entry.value.1)];
          targets := targets + [(language, entry.value.2)];
          loadedCount := loadedCount + 1;
        }
      }
      assert languages[..|languages|] == languages;
    }

    /**
     * The `try` block of `_load_models` for one language: the model, then
     * the French vocabulary, then the target vocabulary; `None` where the
     * model is missing or either `Vocabulary.load` raises.
     */
    static method TryLoad<M>(language: string, modelFiles: map<string, M>, vocabFiles: map<string, Vocab.VocabFile>)
      returns (r: Option<(M, Vocab.Vocabulary, Vocab.Vocabulary)>)
      ensures r.Some? <==> Loadable(language, modelFiles, vocabFiles)
      ensures r.Some? ==>
        && r.value.0 == modelFiles[language]
        && fresh(r.value.1) && Vocab.Holds(r.value.1, vocabFiles[SOURCE_LANGUAGE])
        && fresh(r.value.2) && Vocab.Holds(r.value.2, vocabFiles[language])
    {
      if language !in modelFiles {
        return None;
      }
      var model := modelFiles[language];
      if SOURCE_LANGUAGE !in vocabFiles {
        return None;
      }
      var sourceVocab := Vocab.Vocabulary.Load(vocabFiles[SOURCE_LANGUAGE]);
      if sourceVocab.Err? {
        return None;
      }
      if language !in vocabFiles {
        return None;
      }
      var targetVocab := Vocab.Vocabulary.Load(vocabFiles[language]);
      if targetVocab.Err? {
        return None;
      }
      return Some((model, sourceVocab.value, targetVocab.value));
    }

    /** `is_service_available`: some model is loaded. */
    method IsServiceAvailable() returns (r: bool)
      requires Valid()
      ensures r <==> Dict.Keys(models) != []
    {
      r := isAvailable;
    }

    /** `get_available_languages`: the loaded languages, in loading order, each with both vocabularies. */
    method GetAvailableLanguages() returns (r: seq<string>)
      requires Valid()
      ensures r == Dict.Keys(models)
      ensures r == Dict.Keys(sourceVocabs) == Dict.Keys(targetVocabs)
    {
      r := Dict.Keys(models);
      assert r == Dict.Keys(sourceVocabs) == Dict.Keys(targetVocabs);
    }

    /** The position of a registered language: the same in all three registries. */
    method IndexOf(language: string) returns (k: int)
      requires Valid()
      ensures k < 0 <==> Dict.Get(models, language).None?
      ensures 0 <= k ==>
        && k < |models| && models[k].0 == language && sourceVocabs[k].0 == language && targetVocabs[k].0 == language
        && Dict.Get(models, language) == Some(models[k].1)
    {
      k := 0;
      while k < |models|
        invariant 0 <= k <= |models|
        invariant forall j :: 0 <= j < k ==> models[j].0 != language
      {
        if models[k].0 == language {
          Dict.GetAt(models, k);
          return;
        }
        k := k + 1;
      }
      assert language !in Dict.Keys(models);
      k := -1;
    }

    /** `get_model_info`: `None` for a language without a model, else both vocabulary sizes. */
    method GetModelInfo(language: string) returns (r: Option<ModelInfo>)
      requires Valid()
      ensures r.None? <==> Dict.Get(models, language).None?
      ensures r.Some? ==>
        && Dict.Get(sourceVocabs, language).Some? && Dict.Get(targetVocabs, language).Some?
        && r.value == ModelInfo(language, Dict.Get(sourceVocabs, language).value.Length(),
                                Dict.Get(targetVocabs, language).value.Length(), true)
    {
      var k := IndexOf(language);
      if k < 0 {
        return None;
      }
      var sourceVocab := sourceVocabs[k].1;
      var targetVocab := targetVocabs[k].1;
      LookupSame(language, k);
      return Some(ModelInfo(language, sourceVocab.Length(), targetVocab.Length(), true));
    }

    /** The vocabularies registered with the model at position `k` are the ones a lookup finds. */
    lemma LookupSame(language: string, k: nat)
      requires Valid() && k < |models| && models[k].0 == language
      ensures Dict.Get(sourceVocabs, language) == Some(sourceVocabs[k].1)
      ensures Dict.Get(targetVocabs, language) == Some(targetVocabs[k].1)
    {
      assert Dict.DistinctKeys(sourceVocabs) && Dict.DistinctKeys(targetVocabs);
      Dict.GetAt(sourceVocabs, k);
      Dict.GetAt(targetVocabs, k);
    }

    /**
     * `translate_text`: `None` when no model is loaded or the target
     * language has none; otherwise the greedy translation of the encoded
     * text with its confidence score.
     */
    method TranslateText(text: string, targetLanguage: string, inferenceTime: real, entropy: seq<seq<real>> -> real)
      returns (r: Option<(string, real)>)
      requires Valid()
      ensures r.Some? <==> isAvailable && Dict.Get(models, targetLanguage).Some?
      ensures r.Some? ==>
        && Dict.Get(sourceVocabs, targetLanguage).Some? && Dict.Get(targetVocabs, targetLanguage).Some?
        && var m := Dict.Get(models, targetLanguage).value;
           var source := Dict.Get(sourceVocabs, targetLanguage).value.Encode(text, true);
           Seq2Seq.Valid(m)
           && var g := Seq2Seq.Greedy(m.decoder, m.targetVocabSize, m.encoder(source).output, START_ID,
                                      Seq2Seq.InitialState(m, source), MAX_SEQUENCE_LENGTH);
           && r.value.0 == Vocab.DecodeText(Dict.Get(targetVocabs, targetLanguage).value.idx2word, g.ids, true)
           && r.value.1 == Confidence(g.attention, entropy(g.attention), inferenceTime)
    {
      if !isAvailable {
        return None;
      }
      var k := IndexOf(targetLanguage);
      if k < 0 {
        return None;
      }
      var model := models[k].1;
      var sourceVocab := sourceVocabs[k].1;
      var targetVocab := targetVocabs[k].1;
      LookupSame(targetLanguage, k);
      var sourceIds := sourceVocab.Encode(text, true);
      var translation, attentionWeights := Seq2Seq.Translate(model, sourceIds, targetVocab, MAX_SEQUENCE_LENGTH);
      var confidence := Confidence(attentionWeights, entropy(attentionWeights), inferenceTime);
      return Some((translation, confidence));
    }
  }
}
