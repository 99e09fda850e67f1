/**
 * Training (backend/ml/training.py): the loss that ignores padding, and
 * the order in which the trainer runs its stages.
 *
 * A batch of labels is flattened into one sequence, since the loss sums
 * over every position of every row alike. The per-position
 * cross-entropy computed by Keras is an input.
 */
module Training {
  import opened Wrappers
  import opened Config
  import Vocab
  import Seq2Seq
  import Augmentation
  import DataPreparation

  // ---------------------------------------------------------------------
  // Masked loss (`MaskedSparseCategoricalCrossentropy.call`)
  // ---------------------------------------------------------------------

  /** `tf.cast(tf.not_equal(y_true, 0))`: weight 0 at padding, 1 elsewhere. */
  function Mask(labels: seq<int>): (m: seq<real>)
    ensures |m| == |labels|
    ensures forall i :: 0 <= i < |labels| ==> (m[i] == 0.0 <==> labels[i] == PAD_ID) && (m[i] == 0.0 || m[i] == 1.0)
  {
    seq(|labels|, i requires 0 <= i < |labels| => if labels[i] == PAD_ID then 0.0 else 1.0)
  }

  /** `loss *= mask`, position by position. */
  function Times(a: seq<real>, b: seq<real>): (r: seq<real>)
    requires |a| == |b|
    ensures |r| == |a|
  {
    seq(|a|, i requires 0 <= i < |a| => a[i] * b[i])
  }

  /** `tf.reduce_sum`. */
  function Sum(s: seq<real>): real {
    if s == [] then 0.0 else Sum(s[..|s| - 1]) + s[|s| - 1]
  }

  /** Some position holds a real token. */
  predicate HasToken(labels: seq<int>) {
    exists i :: 0 <= i < |labels| && labels[i] != PAD_ID
  }

  /**
   * The loss as written: the masked sum divided by the sum of the mask.
   * The division has no guard, so an all-padding batch is excluded.
   */
  function MaskedLoss(labels: seq<int>, losses: seq<real>): real
    requires |labels| == |losses| && HasToken(labels)
  {
    KeptNonEmpty(labels, losses);
    MaskedSums(labels, losses);
    Sum(Times(losses, Mask(labels))) / Sum(Mask(labels))
  }

  /** The losses at the non-padding positions, in order: what the loss averages. */
  function Kept(labels: seq<int>, losses: seq<real>): (r: seq<real>)
    requires |labels| == |losses|
    ensures |r| <= |labels|
  {
    if labels == [] then []
    else
      var n := |labels| - 1;
      Kept(labels[..n], losses[..n]) + (if labels[n] == PAD_ID then [] else [losses[n]])
  }

  function Mean(s: seq<real>): real
    requires s != []
  {
    Sum(s) / (|s| as real)
  }

  lemma MaskPrefix(labels: seq<int>, losses: seq<real>, n: nat)
    requires |labels| == |losses| && n <= |labels|
    ensures Mask(labels)[..n] == Mask(labels[..n])
    ensures Times(losses, Mask(labels))[..n] == Times(losses[..n], Mask(labels[..n]))
  {
  }

  /** The masked sum is the sum of the kept losses, and the mask sums to their number. */
  lemma {:induction false} MaskedSums(labels: seq<int>, losses: seq<real>)
    requires |labels| == |losses|
    ensures Sum(Times(losses, Mask(labels))) == Sum(Kept(labels, losses))
    ensures Sum(Mask(labels)) == |Kept(labels, losses)| as real
  {
    if labels != [] {
      var n := |labels| - 1;
      MaskedSums(labels[..n], losses[..n]);
      MaskPrefix(labels, losses, n);
      var k := Kept(labels[..n], losses[..n]);
      var extra := if labels[n] == PAD_ID then [] else [losses[n]];
      SumAppend(k, extra);
    }
  }

  lemma {:induction false} SumAppend(a: seq<real>, b: seq<real>)
    requires |b| <= 1
    ensures Sum(a + b) == Sum(a) + Sum(b)
  {
    if b != [] {
      assert (a + b)[..|a + b| - 1] == a;
      assert Sum(b) == Sum([]) + b[0];
    } else {
      assert a + b == a;
    }
  }

  /** The denominator is zero exactly for an all-padding batch. */
  lemma {:induction false} KeptNonEmpty(labels: seq<int>, losses: seq<real>)
    requires |labels| == |losses|
    ensures Kept(labels, losses) != [] <==> HasToken(labels)
  {
    if labels != [] {
      var n := |labels| - 1;
      KeptNonEmpty(labels[..n], losses[..n]);
      if HasToken(labels) && labels[n] == PAD_ID {
        var i :| 0 <= i < |labels| && labels[i] != PAD_ID;
        assert labels[..n][i] != PAD_ID;
      }
      if HasToken(labels[..n]) {
        var i :| 0 <= i < n && labels[..n][i] != PAD_ID;
        assert labels[i] != PAD_ID;
      }
    }
  }

  /** The loss is the mean of the per-position losses over the non-padding positions. */
  lemma MaskedLossIsMean(labels: seq<int>, losses: seq<real>)
    requires |labels| == |losses| && HasToken(labels)
    ensures Kept(labels, losses) != []
    ensures MaskedLoss(labels, losses) == Mean(Kept(labels, losses))
  {
    KeptNonEmpty(labels, losses);
    MaskedSums(labels, losses);
  }

  /** Losses at padding positions are never kept. */
  lemma {:induction false} KeptIgnoresPadding(labels: seq<int>, losses1: seq<real>, losses2: seq<real>)
    requires |labels| == |losses1| == |losses2|
    requires forall i :: 0 <= i < |labels| && labels[i] != PAD_ID ==> losses1[i] == losses2[i]
    ensures Kept(labels, losses1) == Kept(labels, losses2)
  {
    if labels != [] {
      var n := |labels| - 1;
      KeptIgnoresPadding(labels[..n], losses1[..n], losses2[..n]);
    }
  }

  /** Changing the losses at padding positions leaves the loss unchanged. */
  lemma PaddingInvariance(labels: seq<int>, losses1: seq<real>, losses2: seq<real>)
    requires |labels| == |losses1| == |losses2| && HasToken(labels)
    requires forall i :: 0 <= i < |labels| && labels[i] != PAD_ID ==> losses1[i] == losses2[i]
    ensures MaskedLoss(labels, losses1) == MaskedLoss(labels, losses2)
  {
    KeptIgnoresPadding(labels, losses1, losses2);
    MaskedLossIsMean(labels, losses1);
    MaskedLossIsMean(labels, losses2);
  }

  /** With a single real token, the loss is that position's loss. */
  lemma SingleToken(labels: seq<int>, losses: seq<real>, j: nat)
    requires |labels| == |losses| && j < |labels| && labels[j] != PAD_ID
    requires forall i :: 0 <= i < |labels| && i != j ==> labels[i] == PAD_ID
    ensures HasToken(labels)
    ensures MaskedLoss(labels, losses) == losses[j]
  {
    KeptSingle(labels, losses, j);
    MaskedLossIsMean(labels, losses);
    assert Sum([losses[j]]) == Sum([]) + losses[j];
  }

  lemma {:induction false} KeptSingle(labels: seq<int>, losses: seq<real>, j: nat)
    requires |labels| == |losses| && j < |labels| && labels[j] != PAD_ID
    requires forall i :: 0 <= i < |labels| && i != j ==> labels[i] == PAD_ID
    ensures Kept(labels, losses) == [losses[j]]
  {
    var n := |labels| - 1;
    if j < n {
      KeptSingle(labels[..n], losses[..n], j);
    } else {
      KeptAllPadding(labels[..n], losses[..n]);
    }
  }

  lemma {:induction false} KeptAllPadding(labels: seq<int>, losses: seq<real>)
    requires |labels| == |losses|
    requires forall i :: 0 <= i < |labels| ==> labels[i] == PAD_ID
    ensures Kept(labels, losses) == []
  {
    if labels != [] {
      var n := |labels| - 1;
      KeptAllPadding(labels[..n], losses[..n]);
    }
  }

  /** The loss lies between the smallest and the largest loss at a real token. */
  lemma LossBetween(labels: seq<int>, losses: seq<real>, lo: real, hi: real)
    requires |labels| == |losses| && HasToken(labels)
    requires forall i :: 0 <= i < |labels| && labels[i] != PAD_ID ==> lo <= losses[i] <= hi
    ensures lo <= MaskedLoss(labels, losses) <= hi
  {
    KeptBetween(labels, losses, lo, hi);
    MaskedLossIsMean(labels, losses);
    MeanBetween(Kept(labels, losses), lo, hi);
  }

  lemma MeanBetween(s: seq<real>, lo: real, hi: real)
    requires s != [] && forall x :: x in s ==> lo <= x <= hi
    ensures lo <= Mean(s) <= hi
  {
    SumBetween(s, lo, hi);
    DivBetween(Sum(s), |s| as real, lo, hi);
  }

  lemma DivBetween(x: real, c: real, lo: real, hi: real)
    requires c > 0.0 && lo * c <= x <= hi * c
    ensures lo <= x / c <= hi
  {
    var q := x / c;
    assert q * c == x;
  }

  lemma {:induction false} KeptBetween(labels: seq<int>, losses: seq<real>, lo: real, hi: real)
    requires |labels| == |losses|
    requires forall i :: 0 <= i < |labels| && labels[i] != PAD_ID ==> lo <= losses[i] <= hi
    ensures forall x :: x in Kept(labels, losses) ==> lo <= x <= hi
  {
    if labels != [] {
      var n := |labels| - 1;
      KeptBetween(labels[..n], losses[..n], lo, hi);
    }
  }

  lemma {:induction false} SumBetween(s: seq<real>, lo: real, hi: real)
    requires forall x :: x in s ==> lo <= x <= hi
    ensures lo * (|s| as real) <= Sum(s) <= hi * (|s| as real)
  {
    if s != [] {
      var n := |s| - 1;
      assert forall x :: x in s[..n] ==> x in s;
      SumBetween(s[..n], lo, hi);
      assert s[n] in s;
    }
  }

  // ---------------------------------------------------------------------
  // What the loss is given during `fit` and `evaluate`
  // ---------------------------------------------------------------------

  /** The score rows `call` returns for an example: one per position of `target_seq[:, :-1]`. */
  function PredictionRows(e: DataPreparation.Example): nat {
    |Seq2Seq.DecoderInputs(e.decoderInput)|
  }

  /**
   * Sparse cross-entropy, like the sparse accuracy metric, needs exactly one
   * label per score row; its shape check raises `ValueError` otherwise.
   */
  predicate LabelsMatch(e: DataPreparation.Example) {
    |e.labels| == PredictionRows(e)
  }

  predicate AllMatch(examples: seq<DataPreparation.Example>) {
    forall e :: e in examples ==> LabelsMatch(e)
  }

  const SHAPE_MISMATCH: string := "ValueError: Shape mismatch"

  /**
   * The examples of `_create_dataset_from_pairs` give the padded target both
   * as decoder input and as labels, so they carry one label more than `call`
   * has score rows.
   */
  lemma ExamplesOutrunPredictions(pairs: seq<DataPreparation.EncodedPair>)
    ensures forall e :: e in DataPreparation.Examples(pairs) ==> |e.labels| == PredictionRows(e) + 1
  {
    var examples := DataPreparation.Examples(pairs);
    forall e | e in examples
      ensures |e.labels| == PredictionRows(e) + 1
    {
      var k :| 0 <= k < |examples| && examples[k] == e;
    }
  }

  /** Whenever some pair is kept, the training set holds an example the loss refuses. */
  lemma PreparedDatasetsNeverTrain(sourceIds: map<string, int>, targetIds: map<string, int>,
                                   pairs: seq<DataPreparation.Pair>, pick: nat -> nat)
    requires DataPreparation.EncodedPairs(sourceIds, targetIds, pairs) != []
    ensures !AllMatch(DataPreparation.MakeDatasets(sourceIds, targetIds, pairs, pick).train)
  {
    var kept := DataPreparation.EncodedPairs(sourceIds, targetIds, pairs);
    var parts := DataPreparation.SplitData(DataPreparation.Shuffled(kept, pick));
    DataPreparation.EmptyTrainIffNothingKept(kept, pick);
    var train := DataPreparation.Examples(parts.train);
    assert train == DataPreparation.MakeDatasets(sourceIds, targetIds, pairs, pick).train;
    ExamplesOutrunPredictions(parts.train);
    assert train[0] in train && !LabelsMatch(train[0]);
  }

  /** Whether `prepare_data` succeeds for `language`: it is supported and some pair is short enough to keep. */
  predicate Preparable(data: DataPreparation.LanguageData, language: string, augment: bool,
                       draws: seq<seq<Augmentation.Draw>>)
    requires augment ==> Augmentation.DrawsFor(
      DataPreparation.ExtractPairs(DataPreparation.FrenchEntries(data), language), AUGMENTATION_FACTOR, draws)
  {
    language in SUPPORTED_LANGUAGES
    && !DataPreparation.NoneShortEnough(DataPreparation.PreparedPairs(data, language, augment, draws))
  }

  /**
   * What `prepare_all` leaves on a new builder for `language`: two
   * vocabularies freshly built over the French and the target sides of the
   * prepared pairs, and the datasets made from those pairs with their ids.
   */
  ghost predicate PreparedFrom(datasets: DataPreparation.Datasets, source: Vocab.Vocabulary, target: Vocab.Vocabulary,
                               data: DataPreparation.LanguageData, language: string, augment: bool,
                               draws: seq<seq<Augmentation.Draw>>, pick: nat -> nat)
    requires augment ==> Augmentation.DrawsFor(
      DataPreparation.ExtractPairs(DataPreparation.FrenchEntries(data), language), AUGMENTATION_FACTOR, draws)
    reads source, target
  {
    var pairs := DataPreparation.PreparedPairs(data, language, augment, draws);
    && DataPreparation.Built(source, SOURCE_LANGUAGE, DataPreparation.Sources(pairs))
    && DataPreparation.Built(target, language, DataPreparation.Targets(pairs))
    && datasets == DataPreparation.MakeDatasets(source.word2idx, target.word2idx, pairs, pick)
  }

  // ---------------------------------------------------------------------
  // The trainer (`TranslationTrainer`)
  // ---------------------------------------------------------------------

  /** The stages of `run_full_training`. */
  datatype Stage = Prepared | Built | Compiled | Trained | Evaluated | Saved

  /** What `create_model` is given: the sizes of the two vocabularies. */
  datatype ModelShape = ModelShape(sourceVocabSize: nat, targetVocabSize: nat)

  /**
   * The trainer's state: the vocabularies and the model once they
   * exist, whether the model is compiled, and the stages completed so
   * far. Keras' compile, fit, evaluate and save are recorded as stages.
   */
  class Trainer {
    const targetLanguage: string
    var sourceVocab: Option<Vocab.Vocabulary>
    var targetVocab: Option<Vocab.Vocabulary>
    var model: Option<ModelShape>
    var compiled: bool
    var stages: seq<Stage>

    constructor (targetLanguage: string)
      ensures this.targetLanguage == targetLanguage
      ensures sourceVocab.None? && targetVocab.None? && model.None? && !compiled && stages == []
    {
      this.targetLanguage := targetLanguage;
      sourceVocab := None;
      targetVocab := None;
      model := None;
      compiled := false;
      stages := [];
    }

    /**
     * `prepare_data`: a `DatasetBuilder` for the target language runs
     * `prepare_all`, and its vocabularies are kept once it has succeeded.
     * It raises for an unsupported language, and when no pair is short
     * enough to be kept (the empty shuffle buffer).
     */
    method PrepareData(data: DataPreparation.LanguageData, augment: bool, draws: seq<seq<Augmentation.Draw>>, pick: nat -> nat)
      returns (r: Result<DataPreparation.Datasets, string>)
      requires augment ==> Augmentation.DrawsFor(
        DataPreparation.ExtractPairs(DataPreparation.FrenchEntries(data), targetLanguage), AUGMENTATION_FACTOR, draws)
      modifies this
      ensures model == old(model) && compiled == old(compiled)
      ensures targetLanguage !in SUPPORTED_LANGUAGES ==> r == Err("Langue non supportée: " + targetLanguage)
      ensures r.Ok? <==> Preparable(data, targetLanguage, augment, draws)
      ensures targetLanguage in SUPPORTED_LANGUAGES && r.Err? ==> r.error == DataPreparation.EMPTY_SHUFFLE_BUFFER
      ensures r.Err? ==> sourceVocab == old(sourceVocab) && targetVocab == old(targetVocab) && stages == old(stages)
      ensures r.Ok? ==>
        && sourceVocab.Some? && targetVocab.Some? && stages == old(stages) + [Prepared]
        && !AllMatch(r.value.train)
    {
      var built := BuildDatasets(targetLanguage, data, augment, draws, pick);
      if built.Err? {
        return Err(built.error);
      }
      KeepVocabularies(built.value.1, built.value.2);
      r := Ok(built.value.0);
    }

    /** Lines 72-73 of `prepare_data`: keep the builder's vocabularies. */
    method KeepVocabularies(source: Vocab.Vocabulary, target: Vocab.Vocabulary)
      modifies this
      ensures sourceVocab == Some(source) && targetVocab == Some(target)
      ensures model == old(model) && compiled == old(compiled) && stages == old(stages) + [Prepared]
    {
      sourceVocab := Some(source);
      targetVocab := Some(target);
      stages := stages + [Prepared];
    }

    /**
     * Lines 68-69 of `prepare_data`: `DatasetBuilder(target_language).prepare_all(augment=augment)`,
     * giving the datasets together with the builder's two vocabularies.
     */
    static method BuildDatasets(language: string, data: DataPreparation.LanguageData, augment: bool,
                                draws: seq<seq<Augmentation.Draw>>, pick: nat -> nat)
      returns (r: Result<(DataPreparation.Datasets, Vocab.Vocabulary, Vocab.Vocabulary), string>)
      requires augment ==> Augmentation.DrawsFor(
        DataPreparation.ExtractPairs(DataPreparation.FrenchEntries(data), language), AUGMENTATION_FACTOR, draws)
      ensures language !in SUPPORTED_LANGUAGES ==> r == Err("Langue non supportée: " + language)
      ensures r.Ok? <==> Preparable(data, language, augment, draws)
      ensures language in SUPPORTED_LANGUAGES && r.Err? ==> r.error == DataPreparation.EMPTY_SHUFFLE_BUFFER
      ensures r.Ok? ==> PreparedFrom(r.value.0, r.value.1, r.value.2, data, language, augment, draws, pick)
      ensures r.Ok? ==> !AllMatch(r.value.0.train)
    {
      var created := DataPreparation.DatasetBuilder.Create(language);
      if created.Err? {
        return Err(created.error);
      }
      var builder := created.value;
      var raw := DataPreparation.ExtractPairs(DataPreparation.FrenchEntries(data), language);
      assert builder.rawPairs + raw == raw;
      var prepared := builder.PrepareAll(data, augment, draws, pick);
      ghost var pairs := DataPreparation.PreparedPairs(data, language, augment, draws);
      assert builder.Pairs() == pairs;
      var source, target := builder.sourceVocab.value, builder.targetVocab.value;
      DataPreparation.NothingKeptIffNoneShort(source.word2idx, target.word2idx, pairs);
      if prepared.Err? {
        return Err(prepared.error);
      }
      PreparedDatasetsNeverTrain(source.word2idx, target.word2idx, pairs, pick);
      r := Ok((prepared.value, source, target));
    }

    /**
     * `build_model`: when either vocabulary is missing, both are loaded
     * from disk (the French one first, kept even if the target one then
     * fails); the model is sized by the two vocabularies.
     */
    method BuildModel(vocabFiles: map<string, Vocab.VocabFile>) returns (r: Result<(), string>)
      modifies this
      ensures compiled == old(compiled)
      ensures old(sourceVocab).Some? && old(targetVocab).Some? ==>
        r.Ok? && sourceVocab == old(sourceVocab) && targetVocab == old(targetVocab)
      ensures old(sourceVocab).None? || old(targetVocab).None? ==>
        && (r.Ok? <==> Vocab.Readable(vocabFiles, SOURCE_LANGUAGE) && Vocab.Readable(vocabFiles, targetLanguage))
        && (r.Ok? ==>
              && sourceVocab.Some? && fresh(sourceVocab.value) && Vocab.Holds(sourceVocab.value, vocabFiles[SOURCE_LANGUAGE])
              && targetVocab.Some? && fresh(targetVocab.value) && Vocab.Holds(targetVocab.value, vocabFiles[targetLanguage]))
      ensures r.Ok? ==>
        && sourceVocab.Some? && targetVocab.Some?
        && model == Some(ModelShape(sourceVocab.value.Length(), targetVocab.value.Length()))
        && stages == old(stages) + [Built]
      ensures r.Err? ==> model == old(model) && stages == old(stages)
      ensures r.Err? ==>
        && targetVocab == old(targetVocab)
        && (Vocab.Readable(vocabFiles, SOURCE_LANGUAGE) ==>
              sourceVocab.Some? && fresh(sourceVocab.value) && Vocab.Holds(sourceVocab.value, vocabFiles[SOURCE_LANGUAGE]))
        && (!Vocab.Readable(vocabFiles, SOURCE_LANGUAGE) ==> sourceVocab == old(sourceVocab))
    {
      if sourceVocab.None? || targetVocab.None? {
        var source := LoadVocabulary(vocabFiles, SOURCE_LANGUAGE);
        if source.Err? {
          return Err(source.error);
        }
        sourceVocab := Some(source.value);
        var target := LoadVocabulary(vocabFiles, targetLanguage);
        if target.Err? {
          return Err(target.error);
        }
        targetVocab := Some(target.value);
      }
      model := Some(ModelShape(sourceVocab.value.Length(), targetVocab.value.Length()));
      stages := stages + [Built];
      return Ok(());
    }

    /** `Vocabulary.load(language=...)`: a missing file raises, as does a malformed one. */
    static method LoadVocabulary(vocabFiles: map<string, Vocab.VocabFile>, language: string) returns (r: Result<Vocab.Vocabulary, string>)
      ensures r.Ok? <==> Vocab.Readable(vocabFiles, language)
      ensures r.Ok? ==> fresh(r.value) && Vocab.Holds(r.value, vocabFiles[language])
    {
      if language !in vocabFiles {
        return Err("FileNotFoundError");
      }
      r := Vocab.Vocabulary.Load(vocabFiles[language]);
    }

    /** `compile_model`: needs a model (`None.compile` raises). */
    method CompileModel() returns (r: Result<(), string>)
      modifies this
      ensures r.Ok? <==> model.Some?
      ensures sourceVocab == old(sourceVocab) && targetVocab == old(targetVocab) && model == old(model)
      ensures compiled == (old(compiled) || r.Ok?)
      ensures stages == old(stages) + (if r.Ok? then [Compiled] else [])
    {
      if model.None? {
        return Err("AttributeError");
      }
      compiled := true;
      stages := stages + [Compiled];
      return Ok(());
    }

    /** `train`: `fit` needs a compiled model. */
    method Train(train: seq<DataPreparation.Example>, validation: seq<DataPreparation.Example>) returns (r: Result<(), string>)
      modifies this
      ensures r.Ok? <==> model.Some? && compiled && AllMatch(train) && AllMatch(validation)
      ensures r.Err? && model.Some? && compiled ==> r.error == SHAPE_MISMATCH
      ensures sourceVocab == old(sourceVocab) && targetVocab == old(targetVocab)
      ensures model == old(model) && compiled == old(compiled)
      ensures stages == old(stages) + (if r.Ok? then [Trained] else [])
    {
      if model.None? {
        return Err("AttributeError");
      }
      if !compiled {
        return Err("RuntimeError");
      }
      if !AllMatch(train) || !AllMatch(validation) {
        return Err(SHAPE_MISMATCH);
      }
      stages := stages + [Trained];
      return Ok(());
    }

    /** `evaluate`: Keras' `evaluate` on the test set, with the same needs as `fit`. */
    method Evaluate(test: seq<DataPreparation.Example>) returns (r: Result<(), string>)
      modifies this
      ensures r.Ok? <==> model.Some? && compiled && AllMatch(test)
      ensures r.Err? && model.Some? && compiled ==> r.error == SHAPE_MISMATCH
      ensures sourceVocab == old(sourceVocab) && targetVocab == old(targetVocab)
      ensures model == old(model) && compiled == old(compiled)
      ensures stages == old(stages) + (if r.Ok? then [Evaluated] else [])
    {
      if model.None? {
        return Err("AttributeError");
      }
      if !compiled {
        return Err("RuntimeError");
      }
      if !AllMatch(test) {
        return Err(SHAPE_MISMATCH);
      }
      stages := stages + [Evaluated];
      return Ok(());
    }

    /** `save_model`: needs a model. */
    method SaveModel() returns (r: Result<(), string>)
      modifies this
      ensures r.Ok? <==> model.Some?
      ensures sourceVocab == old(sourceVocab) && targetVocab == old(targetVocab)
      ensures model == old(model) && compiled == old(compiled)
      ensures stages == old(stages) + (if r.Ok? then [Saved] else [])
    {
      if model.None? {
        return Err("AttributeError");
      }
      stages := stages + [Saved];
      return Ok(());
    }

    /**
     * `run_full_training`: prepare, build, compile, train, evaluate and
     * save, stopping at the first stage that raises. Preparation supplies
     * both vocabularies, so building and compiling succeed; `fit` then
     * meets labels one position longer than the score rows, so the
     * pipeline as written never gets past training.
     */
    method RunFullTraining(data: DataPreparation.LanguageData, augment: bool, draws: seq<seq<Augmentation.Draw>>,
                           pick: nat -> nat, vocabFiles: map<string, Vocab.VocabFile>)
      returns (r: Result<(), string>)
      requires augment ==> Augmentation.DrawsFor(
        DataPreparation.ExtractPairs(DataPreparation.FrenchEntries(data), targetLanguage), AUGMENTATION_FACTOR, draws)
      modifies this
      ensures r.Err?
      ensures targetLanguage !in SUPPORTED_LANGUAGES ==>
        r.error == "Langue non supportée: " + targetLanguage && stages == old(stages)
      ensures targetLanguage in SUPPORTED_LANGUAGES && !Preparable(data, targetLanguage, augment, draws) ==>
        r.error == DataPreparation.EMPTY_SHUFFLE_BUFFER && stages == old(stages)
      ensures Preparable(data, targetLanguage, augment, draws) ==>
        r.error == SHAPE_MISMATCH && stages == old(stages) + [Prepared] + [Built] + [Compiled]
    {
      var datasets := PrepareData(data, augment, draws, pick);
      if datasets.Err? {
        return Err(datasets.error);
      }
      assert !AllMatch(datasets.value.train);
      assert sourceVocab.Some? && targetVocab.Some? && stages == old(stages) + [Prepared];
      r := BuildModel(vocabFiles);
      if r.Err? {
        assert false;
        return;
      }
      assert stages == old(stages) + [Prepared] + [Built];
      r := CompileModel();
      if r.Err? {
        assert false;
        return;
      }
      assert stages == old(stages) + [Prepared] + [Built] + [Compiled];
      r := Train(datasets.value.train, datasets.value.validation);
      if r.Err? {
        return;
      }
      // `fit` refuses every prepared training set, so `evaluate` and `save` are never reached.
      assert false;
    }
  }
}
