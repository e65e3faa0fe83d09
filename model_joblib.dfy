/** The stand-alone training and prediction module: `train_model` cleans the
    training file and fits a scaler and a forest on heart_rate and
    motion_intensity; `predict` reloads both and turns the forest's score
    into a clamped, linear confidence. */
module ModelJoblib {
  import opened Wrappers
  import opened DataFrame
  import opened IsolationForest
  import Ai = AiModelService

  const HeartRate := "heart_rate"
  const MotionIntensity := "motion_intensity"
  const FeatureSet: set<string> := {HeartRate, MotionIntensity}

  const NormalStatus := "NORMAL"
  const AnomalyStatus := "ANOMALY"
  const TrainedMessage := "Model trained successfully."
  const MissingDataMessage := "training_data.csv is missing."

  /** The shift that moves a decision score of -0.5 to a confidence of 0. */
  const Offset: real := 0.5

  /** Why training stops: the data file is absent, the cleaned frame lacks a
      feature column, or no row is left for the scaler to fit. */
  datatype TrainError =
    | FileNotFound(message: string)
    | KeyError(missing: set<string>)
    | EmptyTrainingSet

  /** What training hands to the scaler and the forest, with the message it returns. */
  datatype Trained = Trained(matrix: seq<seq<real>>, message: string)

  /** `pd.to_numeric(errors="coerce")` applied to every column of one row. */
  function CoerceRow(r: Row, parse: string -> Option<real>): (c: Row)
    ensures c.Keys == r.Keys
    ensures forall k :: k in r ==> c[k] == Coerce(r[k], parse)
  {
    map k | k in r :: Coerce(r[k], parse)
  }

  /** The training frame after coercing every column and `dropna()` over all of them. */
  function CleanTraining(t: Table, parse: string -> Option<real>): (rows: seq<Row>)
    ensures |rows| <= |t.rows|
  {
    Keep(seq(|t.rows|, i requires 0 <= i < |t.rows| => CoerceRow(t.rows[i], parse)), t.columns)
  }

  /** A cleaned training row is exactly the coercion of a raw row whose every
      column coerces to a number. */
  lemma CleanTrainingMembers(t: Table, parse: string -> Option<real>, x: Row)
    requires Rectangular(t.columns, t.rows)
    ensures x in CleanTraining(t, parse) <==>
      exists i :: 0 <= i < |t.rows| && x == CoerceRow(t.rows[i], parse)
        && forall k :: k in t.columns ==> Coerce(t.rows[i][k], parse).Number?
  {
    var coerced := seq(|t.rows|, i requires 0 <= i < |t.rows| => CoerceRow(t.rows[i], parse));
    KeepMembers(coerced, t.columns, x);
    if x in CleanTraining(t, parse) {
      var i :| 0 <= i < |coerced| && coerced[i] == x;
      forall k | k in t.columns ensures Coerce(t.rows[i][k], parse).Number? {
        assert x[k] == Coerce(t.rows[i][k], parse);
      }
    }
    if exists i :: 0 <= i < |t.rows| && x == CoerceRow(t.rows[i], parse)
        && forall k :: k in t.columns ==> Coerce(t.rows[i][k], parse).Number? {
      var i :| 0 <= i < |t.rows| && x == CoerceRow(t.rows[i], parse)
        && forall k :: k in t.columns ==> Coerce(t.rows[i][k], parse).Number?;
      assert coerced[i] == x;
      assert Complete(x, t.columns);
    }
  }

  /** A raw row whose columns all coerce to numbers is never dropped. */
  lemma NumericRowKept(t: Table, parse: string -> Option<real>, i: int)
    requires Rectangular(t.columns, t.rows) && 0 <= i < |t.rows|
    requires forall k :: k in t.columns ==> Coerce(t.rows[i][k], parse).Number?
    ensures CoerceRow(t.rows[i], parse) in CleanTraining(t, parse)
  {
    CleanTrainingMembers(t, parse, CoerceRow(t.rows[i], parse));
  }

  /** `train_model` up to fitting: the matrix `fit_transform` and `fit` are
      given, in the cleaned frame's row order, or the reason it stops. */
  function TrainModel(dataExists: bool, t: Table, parse: string -> Option<real>): (r: Result<Trained, TrainError>)
    requires Rectangular(t.columns, t.rows)
    ensures !dataExists <==> r == Err(FileNotFound(MissingDataMessage))
    ensures r.Err? && r.error.KeyError? <==> dataExists && !(FeatureSet <= t.columns)
    ensures r.Err? && r.error.KeyError? ==> r.error.missing == FeatureSet - t.columns
    ensures r.Err? && r.error.EmptyTrainingSet? <==>
      dataExists && FeatureSet <= t.columns && CleanTraining(t, parse) == []
    ensures r.Ok? <==> dataExists && FeatureSet <= t.columns && CleanTraining(t, parse) != []
    ensures r.Ok? ==>
      var clean := CleanTraining(t, parse);
      && r.value.message == TrainedMessage
      && |r.value.matrix| == |clean| > 0
      && forall i :: 0 <= i < |clean| ==>
           && |r.value.matrix[i]| == 2 && HeartRate in clean[i] && MotionIntensity in clean[i]
           && clean[i][HeartRate] == Number(r.value.matrix[i][0])
           && clean[i][MotionIntensity] == Number(r.value.matrix[i][1])
  {
    if !dataExists then Err(FileNotFound(MissingDataMessage))
    else
      var clean := CleanTraining(t, parse);
      if !(FeatureSet <= t.columns) then Err(KeyError(FeatureSet - t.columns))
      else if clean == [] then Err(EmptyTrainingSet)
      else
        KeepNumeric(seq(|t.rows|, i requires 0 <= i < |t.rows| => CoerceRow(t.rows[i], parse)), t.columns);
        Ok(Trained(TrainingMatrix(clean), TrainedMessage))
  }

  function TrainingRow(r: Row): seq<real>
    requires Numeric(r, FeatureSet)
  {
    [r[HeartRate].v, r[MotionIntensity].v]
  }

  /** `df[["heart_rate", "motion_intensity"]]` of the cleaned frame. */
  function TrainingMatrix(rows: seq<Row>): (m: seq<seq<real>>)
    requires forall i :: 0 <= i < |rows| ==> Numeric(rows[i], FeatureSet)
    ensures |m| == |rows|
  {
    seq(|rows|, i requires 0 <= i < |rows| => TrainingRow(rows[i]))
  }

  /** `max(0, min(1, x))`. */
  function Clamp01(x: real): (y: real)
    ensures 0.0 <= y <= 1.0
    ensures 0.0 <= x <= 1.0 ==> y == x
    ensures x < 0.0 ==> y == 0.0
    ensures x > 1.0 ==> y == 1.0
  {
    if x < 0.0 then 0.0 else if x > 1.0 then 1.0 else x
  }

  /** The normal confidence, in percent, for a decision score. */
  function ConfidenceNormal(score: real): (c: real)
    ensures 0.0 <= c <= 100.0
    ensures score <= -Offset ==> c == 0.0
    ensures score >= Offset ==> c == 100.0
    ensures -Offset <= score <= Offset ==> c == (score + Offset) * 100.0
  {
    Clamp01(score + Offset) * 100.0
  }

  /** The anomaly confidence is what the normal confidence leaves of 100. */
  function ConfidenceAnomaly(score: real): (c: real)
    ensures 0.0 <= c <= 100.0
    ensures c + ConfidenceNormal(score) == 100.0
  {
    100.0 - ConfidenceNormal(score)
  }

  /** A higher score never lowers the normal confidence nor raises the anomaly one. */
  lemma ConfidenceMonotone(s1: real, s2: real)
    requires s1 <= s2
    ensures ConfidenceNormal(s1) <= ConfidenceNormal(s2)
    ensures ConfidenceAnomaly(s1) >= ConfidenceAnomaly(s2)
  {
  }

  /** `"NORMAL" if pred == 1 else "ANOMALY"`. */
  function Status(pred: Label): (s: string)
    ensures s == NormalStatus <==> pred == 1
    ensures s == AnomalyStatus <==> pred == -1
  {
    if pred == 1 then NormalStatus else AnomalyStatus
  }

  datatype Prediction = Prediction(heartRate: real, motionIntensity: real, status: string,
                                   anomalyScore: real, confidenceNormal: real, confidenceAnomaly: real)

  /** The prediction for a sample the forest labels `pred` and scores `score`. */
  function Report(heartRate: real, motionIntensity: real, pred: Label, score: real): (p: Prediction)
    ensures p.heartRate == heartRate && p.motionIntensity == motionIntensity && p.anomalyScore == score
    ensures p.status == NormalStatus <==> pred == 1
    ensures 0.0 <= p.confidenceNormal <= 100.0 && 0.0 <= p.confidenceAnomaly <= 100.0
    ensures p.confidenceNormal + p.confidenceAnomaly == 100.0
  {
    Prediction(heartRate, motionIntensity, Status(pred), score, ConfidenceNormal(score), ConfidenceAnomaly(score))
  }

  /** `predict`: load the model, then the scaler, scale the sample and ask
      the forest; nothing is caught, so the first exception is the outcome. */
  function Predict(modelFile: Ai.Outcome<Ai.Forest>, scalerFile: Ai.Outcome<Ai.Scaler>,
                   heartRate: real, motionIntensity: real): (r: Ai.Outcome<Prediction>)
    ensures modelFile.Raised? ==> r == Ai.Raised(modelFile.message)
    ensures modelFile.Returned? && scalerFile.Raised? ==> r == Ai.Raised(scalerFile.message)
    ensures modelFile.Returned? && scalerFile.Returned? ==>
      match Ai.Evaluate(modelFile.value, scalerFile.value, heartRate, motionIntensity)
      case Raised(e) => r == Ai.Raised(e)
      case Returned(v) => r == Ai.Returned(Report(heartRate, motionIntensity, v.0, v.1))
  {
    match modelFile
    case Raised(e) => Ai.Raised(e)
    case Returned(forest) =>
      match scalerFile
      case Raised(e) => Ai.Raised(e)
      case Returned(scaler) =>
        match Ai.Evaluate(forest, scaler, heartRate, motionIntensity)
        case Raised(e) => Ai.Raised(e)
        case Returned(v) => Ai.Returned(Report(heartRate, motionIntensity, v.0, v.1))
  }
}
