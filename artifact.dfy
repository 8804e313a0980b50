/**
 * The trained model as it travels from the trainer to the predictor: a
 * pickled random forest in one fixed file.
 */
module Artifact {
  import opened Wrappers
  import opened Fields

  /** Where the trainer writes and the predictor reads, relative to the project root. */
  const ModelPath := "data/models/interaction_classifier.pkl"

  /** One sample: `tempo_permanencia` and `tempo_interacao`, in that column order. */
  datatype Features = Features(dwell: real, interaction: real)

  /**
   * A fitted random forest, known by its settings and by the samples it was
   * fitted on; how the trees are grown is the learning library's business.
   */
  datatype Classifier = Forest(trees: nat, seed: int, trainX: seq<Features>, trainY: seq<Value>)

  /** The artifact file: absent, or holding the last classifier written. */
  class ModelFile {
    var stored: Option<Classifier>

    constructor Missing()
      ensures stored == None
    {
      stored := None;
    }

    /** `pickle.dump` with mode "wb": whatever was there before is replaced. */
    method Write(c: Classifier)
      modifies this
      ensures stored == Some(c)
    {
      stored := Some(c);
    }
  }
}
