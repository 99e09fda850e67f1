/** Constants of the training and serving configuration (backend/ml/config.py). */
module Config {

  /** Reserved token strings and their fixed ids. */
  const PAD_TOKEN: string := "<PAD>"
  const START_TOKEN: string := "<START>"
  const END_TOKEN: string := "<END>"
  const UNK_TOKEN: string := "<UNK>"
  const SPECIAL_TOKENS: seq<string> := [PAD_TOKEN, START_TOKEN, END_TOKEN, UNK_TOKEN]

  const PAD_ID: int := 0
  const START_ID: int := 1
  const END_ID: int := 2
  const UNK_ID: int := 3

  /** The source language and the target languages a model can be trained for. */
  const SOURCE_LANGUAGE: string := "fr"
  const SUPPORTED_LANGUAGES: seq<string> := ["bété", "baoulé", "mooré", "agni"]

  /** Width of the decoder state, and of one encoder direction. */
  const ENCODER_UNITS: nat := 512
  const DECODER_UNITS: nat := 512

  /** Longest encoded sequence (reserved tokens included) kept for training. */
  const MAX_SEQUENCE_LENGTH: nat := 50

  /** The validation and test splits are 0.15 each, kept here as percentages. */
  const VALIDATION_PERCENT: nat := 15
  const TEST_PERCENT: nat := 15

  const MIN_VOCAB_FREQUENCY: int := 1
  const CONFIDENCE_THRESHOLD: real := 0.7
  const AUGMENTATION_FACTOR: int := 5
  const NOISE_PROBABILITY: real := 0.1
  const BLEU_MAX_ORDER: int := 4
  const EPOCHS: nat := 100
}
