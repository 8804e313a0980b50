/**
 * `FlexPredictor` (`ai-totem/src/ml_engine/predictor.py`): loads the
 * artifact once, at construction, and classifies one (dwell, interaction)
 * pair into a category and a confidence, never raising.
 *
 * The forest's own `predict` and `predict_proba` belong to the learning
 * library; they are parameters here, returning None where they raise.
 */
module Predictor {
  import opened Wrappers
  import opened Fields
  import opened Artifact

  const UntrainedLabel := "Modelo Não Treinado"
  const ErrorLabel := "Erro ML"

  /** `model.predict(X)`: one category per sample, or None when it raises. */
  type PredictFn = (Classifier, seq<Features>) -> Option<seq<Value>>

  /** `model.predict_proba(X)`: one row of class probabilities per sample, or None when it raises. */
  type ProbaFn = (Classifier, seq<Features>) -> Option<seq<seq<real>>>

  datatype Prediction = Prediction(category: Value, confidence: real)

  /** All entries of a matrix, row after row. */
  function Flatten(m: seq<seq<real>>): (r: seq<real>)
    ensures forall i, j :: 0 <= i < |m| && 0 <= j < |m[i]| ==> m[i][j] in r
    ensures forall x :: x in r ==> exists i :: 0 <= i < |m| && x in m[i]
  {
    if m == [] then [] else m[0] + Flatten(m[1..])
  }

  /** numpy's `.max()`: the largest entry, which is one of the entries. */
  function Max(s: seq<real>): (x: real)
    requires |s| > 0
    ensures x in s
    ensures forall k :: 0 <= k < |s| ==> s[k] <= x
  {
    if |s| == 1 then s[0]
    else
      var rest := Max(s[1..]);
      if s[0] >= rest then s[0] else rest
  }

  /**
   * `predict`. Without a model: the untrained category with confidence 0.
   * Otherwise the model sees exactly one sample; the category is the first
   * prediction and the confidence the largest probability, and any failure
   * (either call raising, an empty result) gives the error category with
   * confidence 0.
   */
  function Classify(model: Option<Classifier>, dwell: real, interaction: real,
                   predict: PredictFn, proba: ProbaFn): (p: Prediction)
    ensures model.None? ==> p == Prediction(Str(UntrainedLabel), 0.0)
    ensures model.Some? ==>
      var labels := predict(model.value, [Features(dwell, interaction)]);
      var probs := proba(model.value, [Features(dwell, interaction)]);
      if labels.Some? && labels.value != [] && probs.Some? && Flatten(probs.value) != [] then
        && p.category == labels.value[0]
        && p.confidence in Flatten(probs.value)
        && forall q :: q in Flatten(probs.value) ==> q <= p.confidence
      else
        p == Prediction(Str(ErrorLabel), 0.0)
  {
    if model.None? then Prediction(Str(UntrainedLabel), 0.0)
    else
      var input := [Features(dwell, interaction)];
      var labels := predict(model.value, input);
      if labels.None? || labels.value == [] then Prediction(Str(ErrorLabel), 0.0)
      else
        var probs := proba(model.value, input);
        if probs.None? || Flatten(probs.value) == [] then Prediction(Str(ErrorLabel), 0.0)
        else Prediction(labels.value[0], Max(Flatten(probs.value)))
  }

  function Sum(s: seq<real>): real {
    if s == [] then 0.0 else s[0] + Sum(s[1..])
  }

  lemma {:induction false} SumAtMost(s: seq<real>, bound: real)
    requires forall k :: 0 <= k < |s| ==> s[k] <= bound
    ensures Sum(s) <= |s| as real * bound
  {
    if s != [] {
      SumAtMost(s[1..], bound);
    }
  }

  /** An upper bound on every entry of a distribution over k outcomes is at least 1/k. */
  lemma BoundOfDistribution(row: seq<real>, m: real)
    requires Sum(row) == 1.0
    requires forall k :: 0 <= k < |row| ==> row[k] <= m
    ensures 1.0 <= |row| as real * m
  {
    SumAtMost(row, m);
  }

  /** With one row of probabilities, the confidence is that row's largest entry. */
  lemma ConfidenceOfOneRow(model: Classifier, dwell: real, interaction: real,
                           predict: PredictFn, proba: ProbaFn, row: seq<real>)
    requires predict(model, [Features(dwell, interaction)]).Some?
    requires predict(model, [Features(dwell, interaction)]).value != []
    requires proba(model, [Features(dwell, interaction)]) == Some([row]) && row != []
    ensures Classify(Some(model), dwell, interaction, predict, proba)
         == Prediction(predict(model, [Features(dwell, interaction)]).value[0], Max(row))
  {
    assert [row][1..] == [];
    assert Flatten([row]) == row;
  }

  /**
   * For one sample whose class probabilities form a distribution over k
   * classes, the reported confidence lies between 1/k and 1.
   */
  lemma ConfidenceIsAProbability(model: Classifier, dwell: real, interaction: real,
                                 predict: PredictFn, proba: ProbaFn, row: seq<real>, c: real)
    requires predict(model, [Features(dwell, interaction)]).Some?
    requires predict(model, [Features(dwell, interaction)]).value != []
    requires proba(model, [Features(dwell, interaction)]) == Some([row])
    requires row != [] && Sum(row) == 1.0
    requires forall k :: 0 <= k < |row| ==> 0.0 <= row[k] <= 1.0
    requires c == Classify(Some(model), dwell, interaction, predict, proba).confidence
    ensures 1.0 <= |row| as real * c && c <= 1.0
  {
    ConfidenceOfOneRow(model, dwell, interaction, predict, proba, row);
    BoundOfDistribution(row, c);
  }

  /** `FlexPredictor`: the model is whatever the artifact file held when the predictor was built. */
  class FlexPredictor {
    const modelPath: string
    const model: Option<Classifier>

    /** `__init__` and `_load_model`: a missing file means no model. */
    constructor(file: ModelFile)
      ensures modelPath == ModelPath && model == file.stored
    {
      modelPath := ModelPath;
      model := file.stored;
    }

    method Predict(dwell: real, interaction: real, predict: PredictFn, proba: ProbaFn) returns (category: Value, confidence: real)
      ensures Prediction(category, confidence) == Classify(model, dwell, interaction, predict, proba)
    {
      var p := Classify(model, dwell, interaction, predict, proba);
      category, confidence := p.category, p.confidence;
    }
  }

  /**
   * A kiosk started before the first training run: no artifact file exists,
   * so whatever the scorers would say, every prediction is the untrained
   * label with confidence 0.
   */
  method PredictBeforeTraining(dwell: real, interaction: real, predict: PredictFn, proba: ProbaFn)
    returns (category: Value, confidence: real)
    ensures category == Str(UntrainedLabel) && confidence == 0.0
  {
    var file := new ModelFile.Missing();
    var predictor := new FlexPredictor(file);
    category, confidence := predictor.Predict(dwell, interaction, predict, proba);
  }
}
