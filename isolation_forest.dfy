/** The scikit-learn estimators the detection code calls (StandardScaler and
    IsolationForest), as oracles: their numerics are not modelled, only the
    shape of what they return. */
module IsolationForest {

  /** The label `predict` and `fit_predict` give a sample: 1 for an inlier,
      -1 for an outlier. */
  type Label = l: int | l == -1 || l == 1 witness 1

  /** A batch detector: given a feature matrix it scales it, fits a forest to
      it and labels each of its rows. */
  type BatchDetector = seq<seq<real>> -> seq<Label>

  /** `fit_predict` returns one label per row of its input. */
  ghost predicate LabelsEveryRow(detector: BatchDetector) {
    forall m :: |detector(m)| == |m|
  }
}
