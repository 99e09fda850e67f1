/**
 * The control flow of the sequence-to-sequence model: the encoder summary
 * handed to the decoder, teacher forcing during training, and greedy
 * decoding at inference. The neural layers (embedding, LSTMs, attention,
 * output layer) are oracles passed in as functions; the two projection
 * layers are plain dense layers.
 */
module Seq2Seq {
  import opened Config
  import Vocab

  /** The recurrent state handed from step to step: hidden and cell vectors. */
  datatype LstmState = LstmState(h: seq<real>, c: seq<real>)

  /** What the bidirectional encoder returns: its output sequence and the final states of both directions. */
  datatype EncoderRun<E> = EncoderRun(
    output: E,
    forwardH: seq<real>, forwardC: seq<real>,
    backwardH: seq<real>, backwardC: seq<real>)

  /** One decoder step: the scores over the target vocabulary, the next state, the attention row. */
  datatype Step<A> = Step(logits: seq<real>, state: LstmState, attention: A)

  /** A dense layer without activation: one weight row and one bias per output unit. */
  datatype Dense = Dense(weights: seq<seq<real>>, bias: seq<real>)

  predicate DenseShape(d: Dense, inputs: nat, units: nat) {
    |d.weights| == units && |d.bias| == units
    && forall j :: 0 <= j < units ==> |d.weights[j]| == inputs
  }

  function Dot(w: seq<real>, x: seq<real>): real
    requires |w| == |x|
  {
    if w == [] then 0.0 else w[0] * x[0] + Dot(w[1..], x[1..])
  }

  /** The layer's output: one weighted sum plus bias per unit. */
  function Apply(d: Dense, x: seq<real>): (y: seq<real>)
    requires DenseShape(d, |x|, |d.bias|)
    ensures |y| == |d.bias|
  {
    seq(|d.bias|, j requires 0 <= j < |d.bias| => Dot(d.weights[j], x) + d.bias[j])
  }

  /** A weighted sum over two concatenated inputs is the sum of the two weighted sums. */
  lemma {:induction false} DotConcat(w1: seq<real>, w2: seq<real>, x1: seq<real>, x2: seq<real>)
    requires |w1| == |x1| && |w2| == |x2|
    ensures Dot(w1 + w2, x1 + x2) == Dot(w1, x1) + Dot(w2, x2)
  {
    if w1 != [] {
      assert (w1 + w2)[1..] == w1[1..] + w2;
      assert (x1 + x2)[1..] == x1[1..] + x2;
      DotConcat(w1[1..], w2, x1[1..], x2);
    } else {
      assert w1 + w2 == w2 && x1 + x2 == x2;
    }
  }

  /**
   * The model: the encoder and the decoder step are oracles; `projectH`
   * and `projectC` are the two dense layers between them.
   */
  datatype Model<!E, A> = Model(
    encoder: seq<int> -> EncoderRun<E>,
    projectH: Dense,
    projectC: Dense,
    decoder: (int, LstmState, E) -> Step<A>,
    targetVocabSize: nat)

  /** Every decoder step scores each of the `width` target ids. */
  ghost predicate EmitsLogits<E(!new), A>(decoder: (int, LstmState, E) -> Step<A>, width: nat) {
    width > 0 && forall t: int, s: LstmState, e: E :: |decoder(t, s, e).logits| == width
  }

  /**
   * The shapes the layer constructors fix: each encoder direction has
   * `ENCODER_UNITS` units, both projections map twice that onto
   * `DECODER_UNITS`, and the output layer has one unit per target id.
   */
  ghost predicate Valid<E(!new), A>(m: Model<E, A>) {
    && (forall src :: EncoderWidths(m.encoder(src)))
    && DenseShape(m.projectH, 2 * ENCODER_UNITS, DECODER_UNITS)
    && DenseShape(m.projectC, 2 * ENCODER_UNITS, DECODER_UNITS)
    && EmitsLogits(m.decoder, m.targetVocabSize)
  }

  predicate EncoderWidths<E>(r: EncoderRun<E>) {
    |r.forwardH| == ENCODER_UNITS && |r.forwardC| == ENCODER_UNITS
    && |r.backwardH| == ENCODER_UNITS && |r.backwardC| == ENCODER_UNITS
  }

  /** `Encoder.call`: the summary state puts the forward state first and the backward state after it. */
  function EncoderState<E>(r: EncoderRun<E>): (s: LstmState)
    ensures |s.h| == |r.forwardH| + |r.backwardH| && |s.c| == |r.forwardC| + |r.backwardC|
    ensures s.h[..|r.forwardH|] == r.forwardH && s.h[|r.forwardH|..] == r.backwardH
    ensures s.c[..|r.forwardC|] == r.forwardC && s.c[|r.forwardC|..] == r.backwardC
    ensures EncoderWidths(r) ==> |s.h| == 2 * ENCODER_UNITS && |s.c| == 2 * ENCODER_UNITS
  {
    LstmState(r.forwardH + r.backwardH, r.forwardC + r.backwardC)
  }

  /** The state the decoder starts from: the encoder summary projected to the decoder's width. */
  function InitialState<E(!new), A>(m: Model<E, A>, source: seq<int>): (s: LstmState)
    requires Valid(m)
    ensures |s.h| == DECODER_UNITS && |s.c| == DECODER_UNITS
  {
    var r := m.encoder(source);
    assert EncoderWidths(r);
    var summary := EncoderState(r);
    LstmState(Apply(m.projectH, summary.h), Apply(m.projectC, summary.c))
  }

  /**
   * Each projected unit weighs the forward and the backward state
   * separately: the weight row splits at `ENCODER_UNITS`.
   */
  lemma ProjectionSplits<E(!new), A>(m: Model<E, A>, source: seq<int>, j: nat)
    requires Valid(m) && j < DECODER_UNITS
    ensures var r := m.encoder(source);
      var w := m.projectH.weights[j];
      InitialState(m, source).h[j]
        == Dot(w[..ENCODER_UNITS], r.forwardH) + Dot(w[ENCODER_UNITS..], r.backwardH) + m.projectH.bias[j]
  {
    var r := m.encoder(source);
    assert EncoderWidths(r);
    var w := m.projectH.weights[j];
    assert w == w[..ENCODER_UNITS] + w[ENCODER_UNITS..];
    DotConcat(w[..ENCODER_UNITS], w[ENCODER_UNITS..], r.forwardH, r.backwardH);
  }

  /** `tf.argmax`: the first position of the largest score. */
  function ArgMax(xs: seq<real>): (i: nat)
    requires xs != []
    ensures i < |xs|
    ensures forall j :: 0 <= j < |xs| ==> xs[j] <= xs[i]
    ensures forall j :: 0 <= j < i ==> xs[j] < xs[i]
    decreases |xs|
  {
    if |xs| == 1 then 0
    else
      var i := ArgMax(xs[..|xs| - 1]);
      assert forall j :: 0 <= j < |xs| - 1 ==> xs[..|xs| - 1][j] == xs[j];
      if xs[|xs| - 1] > xs[i] then |xs| - 1 else i
  }

  lemma LogitsWidth<E(!new), A>(decoder: (int, LstmState, E) -> Step<A>, width: nat, t: int, s: LstmState, e: E)
    requires EmitsLogits(decoder, width)
    ensures |decoder(t, s, e).logits| == width
  {
  }

  /** The id the decoder predicts for `input` in state `s`: a valid target id. */
  function Predict<E(!new), A>(decoder: (int, LstmState, E) -> Step<A>, width: nat, enc: E, input: int, s: LstmState): (p: nat)
    requires EmitsLogits(decoder, width)
    ensures p < width
  {
    var o := decoder(input, s, enc);
    assert |o.logits| == width;
    ArgMax(o.logits)
  }

  /** The decoder state after feeding `inputs` one by one, starting from `s`. */
  function StateAfter<E, A>(decoder: (int, LstmState, E) -> Step<A>, enc: E, s: LstmState, inputs: seq<int>): LstmState
    decreases |inputs|
  {
    if inputs == [] then s else StateAfter(decoder, enc, decoder(inputs[0], s, enc).state, inputs[1..])
  }

  // ---------------------------------------------------------------------
  // Teacher forcing (`Seq2SeqModel.call`)
  // ---------------------------------------------------------------------

  /** `target_seq[:, :-1]`: every target token but the last. */
  function DecoderInputs(target: seq<int>): (inputs: seq<int>)
    ensures |inputs| == if target == [] then 0 else |target| - 1
    ensures inputs <= target
  {
    if target == [] then [] else target[..|target| - 1]
  }

  /** The scores written at each time step when the true tokens are fed in. */
  function TeacherForced<E, A>(decoder: (int, LstmState, E) -> Step<A>, enc: E, s: LstmState, inputs: seq<int>): (out: seq<seq<real>>)
    ensures |out| == |inputs|
    decreases |inputs|
  {
    if inputs == [] then []
    else
      var o := decoder(inputs[0], s, enc);
      [o.logits] + TeacherForced(decoder, enc, o.state, inputs[1..])
  }

  /** Step `t` of teacher forcing feeds the true token `t` in the state left by the tokens before it. */
  lemma {:induction false} TeacherForcedStep<E, A>(decoder: (int, LstmState, E) -> Step<A>, enc: E, s: LstmState, inputs: seq<int>, t: nat)
    requires t < |inputs|
    ensures TeacherForced(decoder, enc, s, inputs)[t] == decoder(inputs[t], StateAfter(decoder, enc, s, inputs[..t]), enc).logits
    decreases t
  {
    if t > 0 {
      var o := decoder(inputs[0], s, enc);
      TeacherForcedStep(decoder, enc, o.state, inputs[1..], t - 1);
      assert inputs[..t][1..] == inputs[1..][..t - 1];
    }
  }

  /**
   * `call` for one batch row: encode, project, then feed the target without
   * its last token and keep one score row per fed position.
   */
  method Call<E(!new), A>(m: Model<E, A>, source: seq<int>, target: seq<int>) returns (outputs: seq<seq<real>>)
    requires Valid(m)
    ensures outputs == TeacherForced(m.decoder, m.encoder(source).output, InitialState(m, source), DecoderInputs(target))
    ensures |outputs| == |DecoderInputs(target)|
    ensures forall t :: 0 <= t < |outputs| ==> |outputs[t]| == m.targetVocabSize
  {
    var enc := m.encoder(source).output;
    var s := InitialState(m, source);
    var inputs := DecoderInputs(target);
    ghost var all := TeacherForced(m.decoder, enc, s, inputs);
    outputs := [];
    var t := 0;
    while t < |inputs|
      invariant 0 <= t <= |inputs|
      invariant outputs + TeacherForced(m.decoder, enc, s, inputs[t..]) == all
      invariant forall k :: 0 <= k < |outputs| ==> |outputs[k]| == m.targetVocabSize
    {
      var o := m.decoder(inputs[t], s, enc);
      LogitsWidth(m.decoder, m.targetVocabSize, inputs[t], s, enc);
      assert inputs[t..][1..] == inputs[t + 1..];
      outputs := outputs + [o.logits];
      s := o.state;
      t := t + 1;
    }
  }

  // ---------------------------------------------------------------------
  // Greedy decoding (`Seq2SeqModel.translate`)
  // ---------------------------------------------------------------------

  /** The ids emitted and the attention rows recorded by a greedy run. */
  datatype Generation<A> = Generation(ids: seq<int>, attention: seq<A>)

  /**
   * At most `fuel` greedy steps from decoder input `input` in state `s`:
   * each step records its attention row, stops on `END_ID`, otherwise
   * emits the predicted id and feeds it back.
   */
  function Greedy<E(!new), A>(decoder: (int, LstmState, E) -> Step<A>, width: nat, enc: E, input: int, s: LstmState, fuel: nat): Generation<A>
    requires EmitsLogits(decoder, width)
    decreases fuel
  {
    if fuel == 0 then Generation([], [])
    else
      var o := decoder(input, s, enc);
      var p := Predict(decoder, width, enc, input, s);
      if p == END_ID then Generation([], [o.attention])
      else
        var g := Greedy(decoder, width, enc, p, o.state, fuel - 1);
        Generation([p] + g.ids, [o.attention] + g.attention)
  }

  /**
   * A greedy run takes at most `fuel` steps and never emits `END_ID`; it
   * records one attention row per step, so one more than the ids when it
   * stopped on `END_ID` and exactly `fuel` when it ran out of steps.
   */
  lemma {:induction false} GreedyBounds<E(!new), A>(decoder: (int, LstmState, E) -> Step<A>, width: nat, enc: E, input: int, s: LstmState, fuel: nat)
    requires EmitsLogits(decoder, width)
    ensures var g := Greedy(decoder, width, enc, input, s, fuel);
      && |g.ids| <= fuel && |g.attention| <= fuel
      && END_ID !in g.ids
      && (|g.attention| == |g.ids| + 1 || |g.attention| == |g.ids| == fuel)
    decreases fuel
  {
    if fuel > 0 {
      var o := decoder(input, s, enc);
      var p := Predict(decoder, width, enc, input, s);
      if p != END_ID {
        GreedyBounds(decoder, width, enc, p, o.state, fuel - 1);
      }
    }
  }

  /**
   * Step `k` of a greedy run: its input is `input` for the first step and
   * the previously emitted id afterwards, its state is the one those inputs
   * lead to, and its prediction is the `k`-th emitted id or, on the last
   * step of a run that stopped early, `END_ID`.
   */
  lemma {:induction false} GreedyStep<E(!new), A>(decoder: (int, LstmState, E) -> Step<A>, width: nat, enc: E, input: int, s: LstmState, fuel: nat, k: nat)
    requires EmitsLogits(decoder, width)
    requires k < |Greedy(decoder, width, enc, input, s, fuel).attention|
    ensures var g := Greedy(decoder, width, enc, input, s, fuel);
      var fed := [input] + g.ids;
      k < |fed|
      && var state := StateAfter(decoder, enc, s, fed[..k]);
      && decoder(fed[k], state, enc).attention == g.attention[k]
      && Predict(decoder, width, enc, fed[k], state) == (if k < |g.ids| then g.ids[k] else END_ID)
    decreases fuel
  {
    var g := Greedy(decoder, width, enc, input, s, fuel);
    var o := decoder(input, s, enc);
    var p := Predict(decoder, width, enc, input, s);
    GreedyUnfold(decoder, width, enc, input, s, fuel);
    if k > 0 {
      var rest := Greedy(decoder, width, enc, p, o.state, fuel - 1);
      assert p != END_ID;
      assert g.ids == [p] + rest.ids && g.attention == [o.attention] + rest.attention;
      GreedyStep(decoder, width, enc, p, o.state, fuel - 1, k - 1);
      FedShift(input, p, rest.ids, k);
    }
  }

  /** Dropping the first fed token shifts every later position down by one. */
  lemma FedShift(input: int, p: int, ids: seq<int>, k: nat)
    requires 0 < k <= |ids| + 1
    ensures var fed := [input] + ([p] + ids);
      && fed[k] == ([p] + ids)[k - 1]
      && fed[..k] == [input] + ([p] + ids)[..k - 1]
  {
    var fed := [input] + ([p] + ids);
    assert fed[..k] == [input] + ([p] + ids)[..k - 1];
  }

  /** One step of a greedy run with steps left: the prediction either ends the run or is emitted and fed back. */
  lemma GreedyUnfold<E(!new), A>(decoder: (int, LstmState, E) -> Step<A>, width: nat, enc: E, input: int, s: LstmState, fuel: nat)
    requires EmitsLogits(decoder, width) && fuel > 0
    ensures var o := decoder(input, s, enc);
      var p := Predict(decoder, width, enc, input, s);
      var g := Greedy(decoder, width, enc, input, s, fuel);
      var next := Greedy(decoder, width, enc, p, o.state, fuel - 1);
      g == if p == END_ID then Generation([], [o.attention]) else Generation([p] + next.ids, [o.attention] + next.attention)
  {
  }

  /**
   * `translate` for one source sentence: start from `START_ID`, run at most
   * `maxLength` greedy steps, and decode the emitted ids with the target
   * vocabulary, reserved tokens skipped.
   */
  method Translate<E(!new), A>(m: Model<E, A>, source: seq<int>, targetVocab: Vocab.Vocabulary, maxLength: int)
    returns (translation: string, attentionPlot: seq<A>)
    requires Valid(m)
    ensures var g := Greedy(m.decoder, m.targetVocabSize, m.encoder(source).output, START_ID,
                            InitialState(m, source), if maxLength < 0 then 0 else maxLength);
      && attentionPlot == g.attention
      && translation == Vocab.DecodeText(targetVocab.idx2word, g.ids, true)
  {
    var decoder, width := m.decoder, m.targetVocabSize;
    var enc := m.encoder(source).output;
    var s := InitialState(m, source);
    var steps := if maxLength < 0 then 0 else maxLength;
    ghost var all := Greedy(decoder, width, enc, START_ID, s, steps);
    var decoderInput := START_ID;
    var result: seq<int> := [];
    attentionPlot := [];
    var i := 0;
    while i < steps
      invariant 0 <= i <= steps
      invariant var rest := Greedy(decoder, width, enc, decoderInput, s, steps - i);
        all == Generation(result + rest.ids, attentionPlot + rest.attention)
    {
      var o := decoder(decoderInput, s, enc);
      LogitsWidth(decoder, width, decoderInput, s, enc);
      var predictedId := ArgMax(o.logits);
      GreedyUnfold(decoder, width, enc, decoderInput, s, steps - i);
      ghost var next := Greedy(decoder, width, enc, predictedId, o.state, steps - i - 1);
      ghost var before := attentionPlot;
      attentionPlot := attentionPlot + [o.attention];
      if predictedId == END_ID {
        assert before + [o.attention] == attentionPlot;
        assert result + [] == result;
        break;
      }
      assert result + ([predictedId] + next.ids) == (result + [predictedId]) + next.ids;
      assert before + ([o.attention] + next.attention) == attentionPlot + next.attention;
      result := result + [predictedId];
      decoderInput := predictedId;
      s := o.state;
      i := i + 1;
    }
    assert all == Generation(result, attentionPlot);
    translation := targetVocab.Decode(result, true);
  }
}
