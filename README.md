# KUMAJALA translation backend in Dafny

A Dafny model of the backend core of KUMAJALA. The system translates French into four
Ivorian and Burkinabè languages: Bété, Baoulé, Mooré and Agni. The model covers:

- **Vocabulary** (`Vocab`, `vocabulary.dfy`):
  - lower-casing regex tokenizer;
  - frequency counting with `most_common` order;
  - id assignment after the four reserved tokens `<PAD> <START> <END> <UNK>`;
  - encoding and decoding, including the punctuation clean-up;
  - the JSON save/load round trip with its string-keyed `idx2word`.
- **Sequence-to-sequence model** (`Seq2Seq`, `seq2seq.dfy`):
  - encoder states concatenated and then projected;
  - teacher-forced forward pass;
  - greedy decoding loop that stops at `<END>`.
  - The neural layers themselves are opaque function values.
- **TensorFlow translation service** (`TranslationService`, `translation_service.dfy`):
  - model loading per supported language;
  - `translate_text` and the attention-based confidence score;
  - model info.
- **Training** (`Training`, `training.dfy`):
  - the padding-masked loss;
  - the order of the trainer's pipeline stages;
  - the shape check of the loss. As written, the labels are the padded targets (`MAX_SEQUENCE_LENGTH` wide), but the decoder reads the targets without their last position and so makes one prediction row fewer. Keras refuses that mismatch, so `run_full_training` never gets past `fit`.
- **Dataset preparation** (`DataPreparation`, `data_preparation.dfy`):
  - pair extraction from `language.json`;
  - vocabulary building;
  - encoding with the length filter;
  - the shuffle;
  - the train/validation/test split;
  - post-padding.
- **Augmentation** (`Augmentation`, `data_augmentation.dfy`):
  - punctuation, case, spacing and character-noise variations;
  - dataset expansion;
  - the contextual variation table.
- **Evaluation** (`Evaluation`, `evaluation.dfy`): the simple corpus BLEU with clipped n-gram counts.
- **Firestore service in local mode** (`Firestore`, `firestore.dfy`):
  - the translation table keyed by lower-cased French text;
  - lookups and saves;
  - manual updates;
  - languages sorted by name;
  - locally numbered contact messages.
- **Dataset enrichment** (`Enrichment`, `dataset_enrichment.dfy`):
  - Gemini reply clean-up;
  - retry with exponential back-off;
  - merging generated pairs into the French table.
- **Contact route** (`Contact`, `contact.dfy`): required-field and e-mail validation, plus the 201/400/500 responses.

Supporting modules:

| module | file | contents |
|---|---|---|
| `Wrappers` | `wrappers.dfy` | `Option` and `Result` |
| `Config` | `config.dfy` | the constants of `backend/ml/config.py` |
| `Chars` | `chars.dfy` | whitespace, word characters, case mapping, `strip`, `split`, substring search |
| `Decimal` | `decimal.dfy` | integer ↔ decimal text |
| `Dict` | `dict.dfy` | Python dictionaries as insertion-ordered association lists |
| `JsonValues` | `json.dfy` | JSON values and Python truthiness |

Randomness, clocks, files, the network, Firestore, Gemini and the Keras layers are all parameters of the model:

- a random draw is a value or a function of the attempt index;
- a file is a value that is either present or missing;
- a remote answer is an `Option` or a `Result`;
- a neural layer is a function value.

Where the code and its documentation disagree, the model follows the code:

- `build_from_texts` restarts `next_idx` at 4 on every call. A second build can therefore give a new word an id that is already in use. Only a build on a fresh vocabulary is proved to give inverse, dense maps; the antecedent in the ensures of `Vocab.Vocabulary.BuildFromTexts` says so.
- `int(total * 0.15)` is modelled as `total * 15 / 100`.
- `not self.source_vocab` is also true of a vocabulary of length 0, so `DataPreparation.DatasetBuilder.VocabulariesMissing` includes that case.
- The code-fence clean-up of `generate_translations` is modelled as written: `split("```json")[1].split("```")[0]`. `Enrichment.JsonFenceKeepsUpToNextFence` shows that this equals the text up to the first fence whenever the first "```json" is not preceded by a backtick.
- A quota error is any error whose text contains "429" anywhere.

## Model

| member | source | states |
|---|---|---|
| Vocab.Vocabulary.constructor | backend/ml/vocabulary.py:21-28 | a new vocabulary has the given language, no counts, and exactly the four reserved tokens mapped to ids 0..3 in both directions |
| Vocab.Vocabulary.InitSpecialTokens | backend/ml/vocabulary.py:30-41 | adds `<PAD> <START> <END> <UNK>` at ids 0, 1, 2, 3 to both maps and changes nothing else |
| Vocab.Scan | backend/ml/vocabulary.py:77 | every token is a non-empty run of word characters or a single character that is neither a word character nor whitespace |
| Vocab.ScanKeepsEveryNonSpace | backend/ml/vocabulary.py:77 | the tokens, concatenated, are exactly the non-whitespace characters of the text in order: the tokenizer loses nothing but whitespace |
| Vocab.TokensAreLowercase | backend/ml/vocabulary.py:66-79 | every token of `_tokenize` is lower case |
| Vocab.TokenIsNotSpecial | backend/ml/vocabulary.py:77 | no token spells a reserved token such as `<PAD>` (the regex splits `<` and `>` off) |
| Vocab.TokenizeGlue | backend/ml/vocabulary.py:66-79 | tokenizing a decoded, glued token list gives back the same tokens |
| Vocab.TallyCounts | backend/ml/vocabulary.py:52-54 | after `Counter.update`, each word's count is its old count plus its number of occurrences |
| Vocab.MostCommon | backend/ml/vocabulary.py:58 | `most_common()` is a permutation of the counter's entries |
| Vocab.MostCommonRanked | backend/ml/vocabulary.py:58 | `most_common()` lists entries by decreasing count, with ties in first-insertion order |
| Vocab.AssignOnlyAdds | backend/ml/vocabulary.py:57-62 | the assignment loop keeps every existing id and only adds words of at least `min_frequency` occurrences that are not yet mapped |
| Vocab.AssignKeepsSpecials | backend/ml/vocabulary.py:57-62 | the reserved tokens keep ids 0..3 through the assignment |
| Vocab.FreshBuildInverse | backend/ml/vocabulary.py:43-62 | on a fresh vocabulary: `word2idx` and `idx2word` are mutually inverse, ids are exactly 0..n-1, and `len` equals the next free id |
| Vocab.FreshBuildMembers | backend/ml/vocabulary.py:58-62 | on a fresh vocabulary a word gets an id iff it is reserved or occurs at least `min_frequency` times |
| Vocab.FreshBuildKeepsFrequent | backend/ml/vocabulary.py:58-59 | on a fresh vocabulary only reserved or frequent-enough words are mapped |
| Vocab.FreshBuildOrder | backend/ml/vocabulary.py:57-62 | a smaller non-reserved id means a higher count, or the same count and an earlier first occurrence |
| Vocab.FreshBuildFromTexts | backend/ml/vocabulary.py:43-62 | building from texts on a fresh vocabulary gives inverse, dense maps holding only frequent-enough words |
| Vocab.Vocabulary.BuildFromTexts | backend/ml/vocabulary.py:43-62 | counts become the old counts tallied with all tokens; the maps are the id assignment over `most_common` starting again at 4; reserved tokens survive; on a fresh vocabulary the maps are inverse and dense |
| Vocab.Vocabulary.CountTexts | backend/ml/vocabulary.py:52-54 | the counting loop computes the tally over all tokenized texts |
| Vocab.Vocabulary.AssignRanked | backend/ml/vocabulary.py:57-62 | the assignment loop computes the specified id assignment |
| Vocab.TokenIds | backend/ml/vocabulary.py:92-93 | one id per token: the word's id if known, `UNK_ID` (3) otherwise |
| Vocab.EncodeIds | backend/ml/vocabulary.py:81-98 | with special tokens the ids are `START_ID`, the token ids, then `END_ID`; without them, just the token ids |
| Vocab.DecodeWords | backend/ml/vocabulary.py:111-118 | one word per id unless skipping; when skipping, no reserved token appears in the output |
| Vocab.DecodeSkipsSpecials | backend/ml/vocabulary.py:111-118 | decoding with `skip_special_tokens` equals decoding without it and then dropping the reserved tokens |
| Vocab.RemoveSpaceClosesUp | backend/ml/vocabulary.py:125 | after the clean-up no whitespace precedes `.,!?;:` and a non-space first character is kept |
| Vocab.RemoveSpaceKeepsNonSpace | backend/ml/vocabulary.py:125 | the clean-up removes whitespace only: the non-whitespace characters are unchanged |
| Vocab.RemoveSpaceJoin | backend/ml/vocabulary.py:121-125 | joining tokens with spaces and cleaning up gives the tokens glued with no space before punctuation |
| Vocab.EncodeDecodeRoundTrip | backend/ml/vocabulary.py:66-127 | for inverse maps with the reserved tokens, `_tokenize(decode(encode(text)))` is the tokens of `text` that are in the vocabulary, in order |
| Vocab.EncodeDecodeKnownText | backend/ml/vocabulary.py:66-127 | when every token is known, `_tokenize(decode(encode(text)))` equals `_tokenize(text)` |
| Vocab.Vocabulary.Decode | backend/ml/vocabulary.py:100-127 | the decode loop computes the specified text: words joined by single spaces, with the whitespace before each punctuation mark removed |
| Vocab.KeysToText | backend/ml/vocabulary.py:138-143 | every JSON key of the saved `idx2word` is the decimal text of an id of the map |
| Vocab.KeysFromText | backend/ml/vocabulary.py:162-165 | the keys convert iff every key is the canonical decimal text of an integer |
| Vocab.KeysRoundTrip | backend/ml/vocabulary.py:138-165 | converting `idx2word` keys to text and back gives the same map |
| Vocab.SaveLoadRoundTrip | backend/ml/vocabulary.py:133-168 | saving a vocabulary and loading the file gives back language, `word2idx`, `idx2word` and counts |
| Vocab.Vocabulary.Load | backend/ml/vocabulary.py:150-168 | `load` succeeds iff all `idx2word` keys parse as integers, and then restores every field from the file |
| Seq2Seq.EncoderState | backend/ml/model_architecture.py:65-71 | the encoder state is the forward state followed by the backward state, twice `ENCODER_UNITS` wide |
| Seq2Seq.InitialState | backend/ml/model_architecture.py:244-248 | the projected initial decoder state is `DECODER_UNITS` wide |
| Seq2Seq.ProjectionSplits | backend/ml/model_architecture.py:244-248 | each projected unit is the forward part's weights on the forward state plus the backward part's weights on the backward state, plus the bias |
| Seq2Seq.ArgMax | backend/ml/model_architecture.py:317 | `argmax` returns the first index of a largest score (what the CPU kernel returns on a tie) |
| Seq2Seq.Predict | backend/ml/model_architecture.py:317 | a predicted id is a valid target vocabulary index |
| Seq2Seq.DecoderInputs | backend/ml/model_architecture.py:251 | teacher forcing feeds the target without its last token |
| Seq2Seq.TeacherForcedStep | backend/ml/model_architecture.py:258-269 | output `t` is the decoder's scores for input token `t`, in the state reached after feeding tokens `0..t-1` |
| Seq2Seq.Call | backend/ml/model_architecture.py:230-275 | the forward-pass loop computes the teacher-forced outputs: one row per decoder input, each `target_vocab_size` wide |
| Seq2Seq.GreedyBounds | backend/ml/model_architecture.py:307-326 | greedy decoding emits at most `max_length` ids, never `END_ID`, and one attention row per step, with one more row than ids exactly when it stopped at `END_ID` |
| Seq2Seq.GreedyStep | backend/ml/model_architecture.py:307-326 | step `k` feeds back the previous prediction (`START_ID` first); its attention row is recorded and its prediction is the `k`-th id, or `END_ID` at the stop |
| Seq2Seq.Translate | backend/ml/model_architecture.py:277-330 | the translation loop returns the greedy attention rows and the decoded text of the greedy ids, with special tokens skipped |
| TranslationService.Clip | backend/services/tensorflow.py:158 | `np.clip` into [0, 1] leaves values already in range unchanged |
| TranslationService.Confidence | backend/services/tensorflow.py:124-158 | the confidence lies in [0, 1]; it is 0.5 for empty attention, and otherwise (1 - normalized entropy) times the time penalty, clipped to [0, 1] |
| TranslationService.ConfidenceUnclipped | backend/services/tensorflow.py:147-158 | for non-empty attention and an entropy ratio in [0, 1], the confidence is (1 - entropy ratio) times the time penalty |
| TranslationService.SlowNeverScoresHigher | backend/services/tensorflow.py:153-156 | an inference of a second or more never scores higher than a faster one |
| TranslationService.ConcentrationRaisesConfidence | backend/services/tensorflow.py:145-156 | lower normalized entropy never lowers the confidence |
| TranslationService.LoadedLanguagesMembers | backend/services/tensorflow.py:32-55 | a language is loaded iff it is supported and its model and both vocabularies can be read |
| TranslationService.LoadedLanguagesDistinct | backend/services/tensorflow.py:32-55 | no language is loaded twice |
| TranslationService.LoadedModelsFacts | backend/services/tensorflow.py:32-55 | the model registry holds exactly the loadable languages, in order, each with its own model file |
| TranslationService.SupportedModelsValid | backend/services/tensorflow.py:32-55 | every registered model is well formed when every model file is |
| TranslationService.Service.constructor | backend/services/tensorflow.py:17-24 | the registry is the loading result, with the source vocabulary (French) and the target vocabulary of each language stored in step |
| TranslationService.Service.LoadModels | backend/services/tensorflow.py:26-65 | the loading loop returns the specified registry, the vocabularies in step, and the number of models loaded |
| TranslationService.Service.TryLoad | backend/services/tensorflow.py:33-58 | loading one language succeeds iff its model and both vocabularies are readable, and then returns what the files hold |
| TranslationService.Service.IsServiceAvailable | backend/services/tensorflow.py:160-162 | the service is available iff at least one model is loaded |
| TranslationService.Service.GetAvailableLanguages | backend/services/tensorflow.py:164-166 | the available languages are the registry keys, the same for models and both vocabulary tables |
| TranslationService.Service.GetModelInfo | backend/services/tensorflow.py:168-182 | `None` for an unloaded language; otherwise the language, both vocabulary sizes, and `model_loaded` true |
| TranslationService.Service.TranslateText | backend/services/tensorflow.py:67-107 | a result exists iff the service is available and the language is loaded; it is the greedy translation of the encoded text, with the confidence of its attention |
| Training.Mask | backend/ml/training.py:34 | the mask is 0 exactly at padding labels and 1 elsewhere |
| Training.MaskedLossIsMean | backend/ml/training.py:29-40 | the masked loss is the mean of the per-token losses at non-padding positions |
| Training.KeptNonEmpty | backend/ml/training.py:34-40 | the denominator is non-zero iff some label is not padding |
| Training.PaddingInvariance | backend/ml/training.py:29-40 | losses at padding positions do not affect the masked loss |
| Training.SingleToken | backend/ml/training.py:29-40 | with one non-padding label the masked loss is that token's loss |
| Training.LossBetween | backend/ml/training.py:29-40 | the masked loss lies between the smallest and largest non-padding losses |
| Training.Trainer.constructor | backend/ml/training.py:46-60 | a new trainer has its target language, no vocabularies, no model, and no stage run |
| Training.Trainer.PrepareData | backend/ml/training.py:62-75 | preparing data fails with the builder's error for an unsupported language, and with the empty-shuffle-buffer error iff no prepared pair is short enough to keep; otherwise it stores both vocabularies, records the preparation stage, and its training set holds an example the loss refuses; on failure the vocabularies and stages are unchanged |
| Training.Trainer.BuildDatasets | backend/ml/training.py:68-69 | a builder for the language runs `prepare_all`: it fails exactly as `prepare_data` does, and otherwise gives vocabularies built over the French and target sides of the prepared pairs and the datasets made from those pairs with their ids |
| Training.Trainer.KeepVocabularies | backend/ml/training.py:72-73 | both vocabularies are stored and the preparation stage is recorded; the model is untouched |
| Training.Trainer.BuildModel | backend/ml/training.py:77-91 | missing vocabularies are loaded first; the model is sized by both vocabulary lengths; a failed load changes no model and keeps the French vocabulary when only the target one failed |
| Training.Trainer.LoadVocabulary | backend/ml/training.py:85-86 | loading succeeds iff the vocabulary file is readable, and then gives what the file holds |
| Training.Trainer.CompileModel | backend/ml/training.py:93-115 | compiling needs a model and then marks it compiled |
| Training.Trainer.Train | backend/ml/training.py:166-194 | `fit` succeeds iff there is a compiled model and every training and validation example has as many labels as the decoder has prediction rows; with a compiled model the failure is the loss's shape mismatch |
| Training.Trainer.Evaluate | backend/ml/training.py:209-221 | `evaluate` succeeds iff there is a compiled model and every test example's labels match the prediction rows; with a compiled model the failure is the shape mismatch |
| Training.Trainer.SaveModel | backend/ml/training.py:196-207 | saving needs a model |
| Training.Trainer.RunFullTraining | backend/ml/training.py:223-245 | the pipeline never completes: an unsupported language or no keepable pair stops it at preparation with no stage recorded; otherwise preparation, building and compiling are recorded and `fit` stops it with the shape mismatch |
| Training.ExamplesOutrunPredictions | backend/ml/model_architecture.py:250-252 | every prepared example has one more label than the decoder has prediction rows (labels are the padded targets, the decoder reads them without their last position) |
| Training.PreparedDatasetsNeverTrain | backend/ml/training.py:166-194 | whenever some pair is kept, the training set holds an example the loss refuses |
| DataPreparation.FitsIffShort | backend/ml/data_preparation.py:118-125 | an encoded pair passes the length filter iff both sides have at most MAX_SEQUENCE_LENGTH - 2 tokens, whatever the vocabularies |
| DataPreparation.NothingKeptIffNoneShort | backend/ml/data_preparation.py:117-126 | the length filter keeps nothing iff no pair is short enough |
| DataPreparation.FrenchEntries | backend/ml/data_preparation.py:48 | a file without a `fr` key gives no entries |
| DataPreparation.ExtractPairsMembers | backend/ml/data_preparation.py:48-54 | a pair is extracted iff its French phrase has a non-empty translation into the target language |
| DataPreparation.EncodedPairsMembers | backend/ml/data_preparation.py:117-125 | an encoded pair is kept iff both sides fit in `MAX_SEQUENCE_LENGTH` and it encodes some pair |
| DataPreparation.EncodedPairsShape | backend/ml/data_preparation.py:117-125 | every kept pair fits and is delimited by `START_ID` ... `END_ID` |
| DataPreparation.SwapPermutes | backend/ml/data_preparation.py:130 | a swap step of the shuffle permutes the list |
| DataPreparation.ShuffledPermutes | backend/ml/data_preparation.py:130 | the shuffle returns a permutation of the encoded pairs |
| DataPreparation.Shuffle | backend/ml/data_preparation.py:130 | the shuffle loop computes the specified Fisher–Yates shuffle |
| DataPreparation.SplitData | backend/ml/data_preparation.py:133-140 | train, validation and test concatenate back to the shuffled list, with test and validation each 15% of the total, rounded down |
| DataPreparation.TrainIsLargest | backend/ml/data_preparation.py:133-140 | the training part is at least as large as the validation part, and non-empty when there is data |
| DataPreparation.SplitsPartitionKeptPairs | backend/ml/data_preparation.py:117-140 | together the three parts are a permutation of the kept pairs |
| DataPreparation.DatasetExamplesComeFromPairs | backend/ml/data_preparation.py:117-140 | every example pair is a kept, fitting, delimited encoding |
| DataPreparation.PadSequence | backend/ml/data_preparation.py:169-174 | padding gives exactly `MAX_SEQUENCE_LENGTH` ids: short inputs followed by `PAD_ID`, long ones keep their last ids |
| DataPreparation.PaddingRoundTrip | backend/ml/data_preparation.py:169-174 | stripping the trailing padding recovers any fitting sequence that does not end in `PAD_ID` |
| DataPreparation.Examples | backend/ml/data_preparation.py:163-179 | each example is the padded source, the padded target as decoder input, and the padded target as labels |
| DataPreparation.ExamplesRecoverPairs | backend/ml/data_preparation.py:163-179 | the unpadded encoder input and labels of each example are the encoded pair |
| DataPreparation.DatasetBuilder.constructor | backend/ml/data_preparation.py:22-33 | a new builder has its language, no vocabularies, no pairs, and an augmenter with noise probability 0.1 |
| DataPreparation.DatasetBuilder.Create | backend/ml/data_preparation.py:22-24 | construction succeeds iff the language is supported; otherwise the error is "Langue non supportée: " followed by the language |
| DataPreparation.DatasetBuilder.LoadDataFromJson | backend/ml/data_preparation.py:35-58 | appends the extracted pairs to the raw pairs and returns them |
| DataPreparation.DatasetBuilder.AugmentData | backend/ml/data_preparation.py:60-72 | the augmented pairs are the raw pairs expanded `factor` times |
| DataPreparation.DatasetBuilder.BuildVocabularies | backend/ml/data_preparation.py:76-100 | builds fresh source and target vocabularies from the augmented pairs if any, else the raw pairs |
| DataPreparation.DatasetBuilder.EncodeAll | backend/ml/data_preparation.py:117-125 | the encoding loop computes the specified kept encodings |
| DataPreparation.DatasetFromPairs | backend/ml/data_preparation.py:151-189 | a dataset is refused iff it is shuffled and has no pair (the buffer of size 0), with the tf.data error; otherwise it holds the padded examples |
| DataPreparation.EmptyTrainIffNothingKept | backend/ml/data_preparation.py:133-145 | the training split is empty iff no encoded pair was kept, whatever the shuffle draws |
| DataPreparation.DatasetBuilder.CreateTfDatasets | backend/ml/data_preparation.py:102-149 | fails with "Les vocabulaires doivent être construits d'abord" when a vocabulary is missing or empty; otherwise fails with the empty shuffle buffer error iff no pair is kept, and else gives the split examples |
| DataPreparation.DatasetBuilder.PrepareAll | backend/ml/data_preparation.py:209-249 | load, optional augmentation, vocabulary building and dataset creation in order; fails iff no pair is kept (the empty shuffle buffer), and otherwise the datasets are built from the prepared vocabularies |
| Augmentation.PunctuationEndsWithMark | backend/ml/data_augmentation.py:49-60 | each side is its text without trailing `.!?` followed by the chosen mark |
| Augmentation.PunctuationIdempotent | backend/ml/data_augmentation.py:49-60 | re-punctuating a punctuated pair is the same as punctuating the original |
| Augmentation.CaseKeepsLoweredText | backend/ml/data_augmentation.py:62-72 | every case variant keeps the length and the lower-cased text of both sides |
| Augmentation.SpacingKeepsWords | backend/ml/data_augmentation.py:74-85 | spacing variations keep the words (`str.split()`) of both sides |
| Augmentation.NoisyText | backend/ml/data_augmentation.py:99-121 | texts under 3 characters are unchanged; otherwise the length changes by 0, +1 or -1 and the first character is kept |
| Augmentation.NoiseCharacters | backend/ml/data_augmentation.py:99-121 | a swap permutes the characters; a duplicate adds one copy of the character at the position; a delete removes it |
| Augmentation.CharacterNoise | backend/ml/data_augmentation.py:87-97 | the target is never changed, and the source is unchanged when the roll exceeds the noise probability |
| Augmentation.Group | backend/ml/data_augmentation.py:16-35 | `augment_pair` gives the original followed by one variation per draw |
| Augmentation.ExpandedLength | backend/ml/data_augmentation.py:123-146 | the augmented dataset has `factor` entries per pair (1 when `factor` < 1) |
| Augmentation.ExpandedAt | backend/ml/data_augmentation.py:134-142 | entry `j` of pair `i`'s block is the original when `j` = 0, and variation `j` otherwise |
| Augmentation.DataAugmenter.constructor | backend/ml/data_augmentation.py:13-14 | stores the noise probability |
| Augmentation.DataAugmenter.AugmentPair | backend/ml/data_augmentation.py:16-35 | the variation loop computes the specified group |
| Augmentation.DataAugmenter.AugmentDataset | backend/ml/data_augmentation.py:123-146 | the dataset loop computes the expansion, `factor` entries per pair |
| Augmentation.GetVariations | backend/ml/data_augmentation.py:163-170 | the variations are empty or one of the table's lists |
| Augmentation.GetVariationsIgnoresCase | backend/ml/data_augmentation.py:165 | upper-casing or capitalizing the source does not change its variations |
| Evaluation.NGrams | backend/ml/evaluation.py:54-59 | `len - n + 1` n-grams (none when too short), the `i`-th being the `n` tokens from `i` |
| Evaluation.GetNgrams | backend/ml/evaluation.py:54-59 | the n-gram loop computes them and the counter's total is their number |
| Evaluation.ClippedMatches | backend/ml/evaluation.py:75-77 | the sum of `min(hyp[g], ref[g])` over the hypothesis n-grams is the size of the multiset intersection |
| Evaluation.IntersectionBound | backend/ml/evaluation.py:75-79 | the matches of one sentence never exceed its hypothesis n-grams |
| Evaluation.Zip | backend/ml/evaluation.py:67 | `zip` pairs references with hypotheses up to the shorter list |
| Evaluation.MatchesBound | backend/ml/evaluation.py:67-79 | corpus matches never exceed the corpus total |
| Evaluation.IdenticalMatchesAll | backend/ml/evaluation.py:67-79 | identical references and hypotheses match every n-gram |
| Evaluation.PrecisionBounds | backend/ml/evaluation.py:81-82 | each precision lies in [0, 100], and is 0 when there is no n-gram |
| Evaluation.PerfectPrecision | backend/ml/evaluation.py:81-82 | identical sentences with some n-gram score 100 |
| Evaluation.PrecisionsAt | backend/ml/evaluation.py:63-82 | precision `i` is the precision of order `i + 1` |
| Evaluation.ReportedPrecisionsBounded | backend/ml/evaluation.py:90-96 | the reported `bleu_1`..`bleu_4` lie in [0, 100] |
| Evaluation.ZeroPrecisionZeroScore | backend/ml/evaluation.py:85-88 | a zero precision makes the BLEU score 0 |
| Evaluation.ShortHypothesesZeroScore | backend/ml/evaluation.py:79-88 | hypotheses all shorter than some order up to `max_order` give BLEU 0 |
| Evaluation.ZipIgnoresSurplus | backend/ml/evaluation.py:67 | sentences beyond the shorter list are ignored |
| Evaluation.SimpleBleu | backend/ml/evaluation.py:50-96 | fails iff `max_order` < 1 (where `min([])` raises), otherwise gives the specified scores |
| Evaluation.OrderCounts | backend/ml/evaluation.py:64-79 | the corpus loop for one order computes matches and total, with matches never above total |
| Firestore.LowerKeysGet | backend/services/firestore.py:64-67 | the folded table maps a lower-cased key to the last entry whose key lowers to it |
| Firestore.LowerKeysAreLower | backend/services/firestore.py:64-67 | every key of the folded table is lower case |
| Firestore.NoFrenchKeyMisses | backend/services/firestore.py:68-72 | a file without `fr` is kept as is, and every local lookup then misses |
| Firestore.LoadedLookup | backend/services/firestore.py:54-72 | a lookup after loading finds, for any text, the entry of the last key with the same lower case |
| Firestore.UpsertLookup | backend/services/firestore.py:200-209 | after a save, the saved text and language give the new translation and every other lookup is unchanged |
| Firestore.UpsertKeepsOtherTopLevel | backend/services/firestore.py:200-209 | a save touches only the `fr` table |
| Firestore.SaveThenGetAnyCase | backend/services/firestore.py:158-209 | a translation saved under one spelling is found under any spelling with the same lower case |
| Firestore.UpsertTwice | backend/services/firestore.py:200-209 | saving twice is the same as saving the second translation |
| Firestore.SortByNameFacts | backend/services/firestore.py:270 | sorting by name gives a sorted permutation |
| Firestore.SupportedLanguagesSorted | backend/services/firestore.py:264-270 | the supported languages are the five metadata entries, sorted by name |
| Firestore.ContactIdInjective | backend/services/firestore.py:310 | distinct counts give distinct `contact_N` ids |
| Firestore.NumberedIdsDistinct | backend/services/firestore.py:304-314 | the stored contacts have distinct ids |
| Firestore.FirestoreService.constructor | backend/services/firestore.py:8-52 | the table is the loaded file; local mode iff there are no credentials or the client fails to connect |
| Firestore.FirestoreService.GetTranslation | backend/services/firestore.py:158-176 | local mode, or a remote miss, gives the local lookup of the lower-cased text; otherwise the remote answer |
| Firestore.FirestoreService.SaveTranslation | backend/services/firestore.py:192-198 | local mode saves into the table under the lower-cased text and succeeds; remote mode reports the remote result and leaves the table alone |
| Firestore.FirestoreService.SaveLocalTranslation | backend/services/firestore.py:200-216 | creates the missing levels and sets the translation |
| Firestore.FirestoreService.UpdateTranslationManual | backend/services/firestore.py:230-262 | same as a save: local upsert of the lower-cased text, or the remote result |
| Firestore.FirestoreService.SaveContactMessage | backend/services/firestore.py:272-326 | local mode appends the message under id `contact_<n+1>` and returns that id, keeping ids distinct; remote mode returns the remote result |
| Enrichment.FencedContentHasNoFence | backend/ml/dataset_enrichment.py:68-72 | when the reply contains a code fence, the cleaned text contains none |
| Enrichment.UnfencedContentKept | backend/ml/dataset_enrichment.py:68-72 | a reply without a fence is only stripped |
| Enrichment.JsonFenceKeepsUpToNextFence | backend/ml/dataset_enrichment.py:69-72 | when "```json" is not preceded by a backtick, taking the text before it and then before the next fence is the text before the first fence |
| Enrichment.MentionsIsContains | backend/ml/dataset_enrichment.py:80 | the quota test is a substring test for "429" |
| Enrichment.GenerateTranslations | backend/ml/dataset_enrichment.py:25-87 | an unavailable service gives no pairs and no attempts; otherwise the specified retry run |
| Enrichment.RetryLoop | backend/ml/dataset_enrichment.py:59-87 | the retry loop computes the specified run |
| Enrichment.RetrySchedule | backend/ml/dataset_enrichment.py:59-85 | one to three attempts, with waits of 5, 10 and 20 seconds in order |
| Enrichment.AllFailedGivesNothing | backend/ml/dataset_enrichment.py:59-87 | three failed attempts give no pairs |
| Enrichment.OtherErrorStops | backend/ml/dataset_enrichment.py:78-87 | an error without "429" stops at once with no pairs |
| Enrichment.ExistingLookup | backend/ml/dataset_enrichment.py:96-101 | the existing data maps a French text to its translation in that language |
| Enrichment.LoadExistingData | backend/ml/dataset_enrichment.py:88-101 | a missing file gives nothing; otherwise the existing pairs |
| Enrichment.MergeLanguageLookup | backend/ml/dataset_enrichment.py:115-119 | after merging a language, each generated text has its translation and every other lookup is unchanged |
| Enrichment.MergeLanguageKeepsOthers | backend/ml/dataset_enrichment.py:115-119 | merging touches only the `fr` table |
| Enrichment.MergeLanguageLoop | backend/ml/dataset_enrichment.py:115-119 | the merge loop computes the merge; without `fr` it raises unless nothing was generated |
| Enrichment.MergeAllStep | backend/ml/dataset_enrichment.py:112-119 | languages are merged one after another in supported order |
| Enrichment.MergeLanguagesLoop | backend/ml/dataset_enrichment.py:112-122 | the outer loop computes the merge of all languages, or raises `KeyError` |
| Enrichment.EnrichAll | backend/ml/dataset_enrichment.py:103-130 | no file writes nothing; otherwise the written table merges every language, or the run ends in `KeyError` when `fr` is absent and something was generated |
| Contact.FirstMissing | backend/routes/contact.py:24-30 | the reported field is a required field that is empty or falsy; none reported means every field is present |
| Contact.FirstMissingIsFirst | backend/routes/contact.py:25-30 | the first falsy field in `name, email, subject, message` order is the one reported |
| Contact.ReportedIsFirstEmpty | backend/routes/contact.py:25-30 | field `k` is reported iff it is falsy and all earlier fields are truthy |
| Contact.MissingFieldRejected | backend/routes/contact.py:24-30 | the 400 for field `k` happens exactly when field `k` is the first falsy one |
| Contact.RejectsReportedField | backend/routes/contact.py:24-38 | a 400 naming a field happens iff that field is the first missing one |
| Contact.CompleteFormRejectsOnlyEmail | backend/routes/contact.py:32-38 | with every field present, the only possible 400 is the e-mail format error |
| Contact.EmailNeedsAtAndDot | backend/routes/contact.py:33-38 | with every field present, the e-mail is rejected iff it lacks `@` or `.` |
| Contact.CreatedExactly | backend/routes/contact.py:40-57 | a 201 with an id happens iff every field is present, the e-mail is accepted, and the save of the record returns that id |
| Contact.NonObjectBodyFails | backend/routes/contact.py:20-64 | a body that is not a JSON object ends in the 500 response |
| Contact.StatusCodes | backend/routes/contact.py:20-64 | the status is always 201, 400 or 500, and 201 only for a JSON object body |

## Left out

- I/O: files, paths, `json.dump`, `_save_local_translations_to_file`, vocabulary file writes, model and weight files, TensorBoard and CSV logs. Files that are read become parameters (present or missing values); writes are not modelled.
- Console output (`print`) and timing prints are not modelled.
- Keras layers: embeddings, LSTMs, attention and dropout are opaque function values. Only their shapes and the way the loops combine them are modelled. The batch dimension (always 1 when translating) is dropped.
- Keras `compile`, `fit`, `evaluate`, callbacks, `save` and the learning-rate schedule are stages of the trainer, not computations.
- `tf.data`: the order the shuffle buffer draws, batching and prefetch of `_create_dataset_from_pairs` are not modelled; only its refusal of an empty buffer is. Its examples are modelled as a list.
- Randomness: `random.choice`, `random.random`, `random.randint` and `random.shuffle` draws are parameters. The shuffle follows CPython's Fisher–Yates with `j = pick(i) mod (i + 1)`.
- Floating point: reals are exact. The attention entropy (`tensorflow.py` lines 127-147, including `squeeze`/`reshape`) is a parameter function returning the normalized entropy. The BLEU geometric mean (`np.exp`/`np.log`) is a parameter.
- TranslationService.Service.TranslateText: exceptions raised inside the model (tensorflow.py 109-111) are not modelled, and the inference time is a parameter.
- Training: the loss's NaN when every label is padding is excluded by `HasToken` and is not modelled.
- Training.Trainer.Train: of the ways `fit` can raise, only a missing model, an uncompiled model and the loss's label/prediction shape mismatch are modelled. Callback and directory I/O failures and Keras' handling of an empty dataset are not.
- Training.Trainer.Evaluate: as for `Train`, only a missing model, an uncompiled model and the shape mismatch are modelled.
- Training.Trainer.PrepareData: its contract says that both vocabularies are stored, not which ones. That they are the ones built over the prepared pairs is stated on `Training.Trainer.BuildDatasets`. Carrying that fact across the field updates is beyond the verifier's resource limit.
- Training.Trainer.RunFullTraining: the `evaluate` and `save_model` steps are not in its body. `fit` raises on every prepared training set, so they are never reached. `Evaluate` and `SaveModel` are modelled on their own.
- Chars: case mapping is a one-to-one table over ASCII and Latin-1 letters that have a single-character partner. `ToUpper` leaves ß (U+DF), µ (U+B5) and ÿ (U+FF) unchanged, where Python gives `'SS'`, U+039C and U+0178 (and `capitalize` turns a leading ß into `'Ss'`). Letters outside Latin-1 are not case-mapped. `\w` is exact below U+0300, plus U+1E00–U+1EFF; other word characters above U+02FF are not recognised.
- Augmentation.CaseKeepsLoweredText: holds for the model's one-to-one case table only; on text with ß, Python's `upper` changes the length ("straße" becomes "STRASSE").
- Vocab.KeysFromText, Vocab.Vocabulary.Load: `int()` also accepts forms such as `"07"`, `"-0"`, `" 7"`, `"+7"` or `"1_0"`; the model accepts only canonical decimal keys, which is what `save` writes, and rejects a file holding any other form.
- The `get_stats` of the vocabulary and `get_dataset_stats` of the dataset builder (means over lengths) are not modelled: their output is only printed.
- The `ModelEvaluator` class in `evaluation.py` (model loading, test-set translation, report files) and the sacrebleu path of `calculate_bleu_score` are not modelled; only the simple BLEU is.
- Firestore client calls (`_get_firestore_translation`, `_save_firestore_translation`, `_save_contact_firestore`) are `Option`/`Result` parameters. The temporary credentials file is not modelled.
- Firestore.FirestoreService.SaveContactMessage: the contacts file is given to the constructor as a list, and the timestamp is a parameter of the route. Its exceptions are not modelled.
- Gemini: the prompt and the requested `count` are not modelled. Each attempt's reply is a parameter, and `json.loads` of the cleaned text is a parameter parser. `time.sleep` waits are recorded, not performed, and the 2-second pause of `enrich_all` is not modelled.
- Enrichment.EnrichAll: the pairs generated for each language are a parameter function; that each is what `Enrichment.GenerateTranslations` returns for that language's replies is not stated in the model.
- JSON numbers: `JsonValues` holds integers only; floats in request bodies are not modelled.
- The singleton accessors (`get_tensorflow_service`, module-level `firestore_service`) and the Flask request plumbing other than the route body are not modelled.
