/** The prediction endpoint of the AI router: a fitted IsolationForest and
    its StandardScaler, loaded once when the module is imported, and a
    `predict` that turns the forest's label and decision score into a
    NORMAL/STRESSED verdict with integer confidences that add up to 100. */
module AiModelService {
  import opened Wrappers
  import opened IsolationForest

  /** What a library call does: return a value or raise an exception whose
      text is `message`. */
  datatype Outcome<T> = Returned(value: T) | Raised(message: string)

  /** A loaded StandardScaler: `transform` on one sample. */
  datatype Scaler = Scaler(transform: seq<real> -> Outcome<seq<real>>)

  /** A loaded IsolationForest: `predict` and `decision_function` on one scaled sample. */
  datatype Forest = Forest(predict: seq<real> -> Outcome<Label>, decisionFunction: seq<real> -> Outcome<real>)

  const NotLoaded := "Model or scaler not loaded. Please retrain."
  const Stressed := "STRESSED"
  const NormalLabel := "NORMAL"

  /** The steepness of the sigmoid that squashes the score. */
  const Steepness: real := 5.0

  /** The answer of `predict`: an error entry alone, or the prediction. */
  datatype Reply =
    | ErrorReply(error: string)
    | PredictionReply(heartRate: real, motionIntensity: real, prediction: string,
                      anomalyScore: real, confidenceNormal: int, confidenceStress: int)

  /** Python's `round` to an integer on an exact value: to the nearest
      integer, and to the even one of two equally near. */
  function RoundHalfEven(x: real): (n: int)
    ensures x - 0.5 <= n as real <= x + 0.5
    ensures n as real - x == 0.5 || x - n as real == 0.5 ==> n % 2 == 0
  {
    var f := x.Floor;
    var d := x - f as real;
    if d < 0.5 then f
    else if d > 0.5 then f + 1
    else if f % 2 == 0 then f
    else f + 1
  }

  /** Rounding never reverses an order. */
  lemma RoundHalfEvenMonotone(a: real, b: real)
    requires a <= b
    ensures RoundHalfEven(a) <= RoundHalfEven(b)
  {
    var fa, fb := a.Floor, b.Floor;
    if fa == fb {
      assert a - fa as real <= b - fb as real;
    } else {
      assert fa < fb;
      assert RoundHalfEven(a) <= fa + 1 <= fb <= RoundHalfEven(b);
    }
  }

  /** Rounding an integer gives it back. */
  lemma RoundHalfEvenOfInteger(n: int)
    ensures RoundHalfEven(n as real) == n
  {
    assert (n as real).Floor == n;
  }

  /** The properties of `np.exp` the sigmoid relies on: positive and monotone. */
  ghost predicate ExpLike(exp: real -> real) {
    && (forall x :: exp(x) > 0.0)
    && (forall x, y :: x <= y ==> exp(x) <= exp(y))
  }

  /** `1 / (1 + np.exp(-5 * score))`: the probability that the sample is normal. */
  function Sigmoid(score: real, exp: real -> real): (p: real)
    requires forall x :: exp(x) > 0.0
    ensures 0.0 < p < 1.0
  {
    1.0 / (1.0 + exp(-Steepness * score))
  }

  lemma ReciprocalAntitone(a: real, b: real)
    requires 0.0 < b <= a
    ensures 1.0 / a <= 1.0 / b
  {
  }

  /** A higher score never gives a lower probability of normal. */
  lemma SigmoidMonotone(s1: real, s2: real, exp: real -> real)
    requires ExpLike(exp)
    requires s1 <= s2
    ensures Sigmoid(s1, exp) <= Sigmoid(s2, exp)
  {
    assert -Steepness * s2 <= -Steepness * s1;
    assert exp(-Steepness * s2) <= exp(-Steepness * s1);
    ReciprocalAntitone(1.0 + exp(-Steepness * s1), 1.0 + exp(-Steepness * s2));
  }

  /** `int(round(prob_normal * 100))`. */
  function ConfidenceNormal(probNormal: real): (c: int)
    requires 0.0 <= probNormal <= 1.0
    ensures 0 <= c <= 100
  {
    RoundHalfEvenOfInteger(0);
    RoundHalfEvenOfInteger(100);
    RoundHalfEvenMonotone(0.0, probNormal * 100.0);
    RoundHalfEvenMonotone(probNormal * 100.0, 100.0);
    RoundHalfEven(probNormal * 100.0)
  }

  /** The reply for a sample that the forest labels `pred` and scores `score`. */
  function Scored(heartRate: real, motionIntensity: real, pred: Label, score: real, exp: real -> real): (r: Reply)
    requires forall x :: exp(x) > 0.0
    ensures r.PredictionReply?
    ensures r.heartRate == heartRate && r.motionIntensity == motionIntensity && r.anomalyScore == score
    ensures r.prediction == Stressed <==> pred == -1
    ensures r.prediction == NormalLabel <==> pred == 1
    ensures 0 <= r.confidenceNormal <= 100 && 0 <= r.confidenceStress <= 100
    ensures r.confidenceNormal + r.confidenceStress == 100
  {
    var confidenceNormal := ConfidenceNormal(Sigmoid(score, exp));
    PredictionReply(heartRate, motionIntensity, if pred == -1 then Stressed else NormalLabel,
                    score, confidenceNormal, 100 - confidenceNormal)
  }

  /** The normal confidence never decreases as the score rises, and the
      stress confidence never increases. */
  lemma ConfidenceMonotone(s1: real, s2: real, exp: real -> real)
    requires ExpLike(exp)
    requires s1 <= s2
    ensures ConfidenceNormal(Sigmoid(s1, exp)) <= ConfidenceNormal(Sigmoid(s2, exp))
    ensures forall h, m, p1: Label, p2: Label :: Scored(h, m, p1, s1, exp).confidenceStress >= Scored(h, m, p2, s2, exp).confidenceStress
  {
    SigmoidMonotone(s1, s2, exp);
    RoundHalfEvenMonotone(Sigmoid(s1, exp) * 100.0, Sigmoid(s2, exp) * 100.0);
  }

  /** The forest's label and score for one sample, both computed on the same
      scaled sample, or the first exception on the way: `transform`, then
      `predict`, then `decision_function`. */
  function Evaluate(forest: Forest, scaler: Scaler, heartRate: real, motionIntensity: real): (r: Outcome<(Label, real)>)
    ensures scaler.transform([heartRate, motionIntensity]).Raised? ==>
      r == Raised(scaler.transform([heartRate, motionIntensity]).message)
    ensures scaler.transform([heartRate, motionIntensity]).Returned? ==>
      var x := scaler.transform([heartRate, motionIntensity]).value;
      && (forest.predict(x).Raised? ==> r == Raised(forest.predict(x).message))
      && (forest.predict(x).Returned? && forest.decisionFunction(x).Raised? ==>
            r == Raised(forest.decisionFunction(x).message))
      && (r.Returned? <==> forest.predict(x).Returned? && forest.decisionFunction(x).Returned?)
      && (r.Returned? ==> r.value == (forest.predict(x).value, forest.decisionFunction(x).value))
  {
    match scaler.transform([heartRate, motionIntensity])
    case Raised(e) => Raised(e)
    case Returned(x) =>
      match forest.predict(x)
      case Raised(e) => Raised(e)
      case Returned(pred) =>
        match forest.decisionFunction(x)
        case Raised(e) => Raised(e)
        case Returned(score) => Returned((pred, score))
  }

  /** The module state of the router: the model and the scaler, or None. */
  class Service {
    var model: Option<Forest>
    var scaler: Option<Scaler>

    /** Both are loaded, or neither is. */
    ghost predicate Valid()
      reads this
    {
      model.None? <==> scaler.None?
    }

    /** The import-time loading: `joblib.load` of the model, then of the
        scaler; if either raises, both are reset to None. */
    constructor Load(modelFile: Outcome<Forest>, scalerFile: Outcome<Scaler>)
      ensures Valid()
      ensures modelFile.Returned? && scalerFile.Returned? ==>
        model == Some(modelFile.value) && scaler == Some(scalerFile.value)
      ensures modelFile.Raised? || scalerFile.Raised? ==> model.None? && scaler.None?
    {
      model := None;
      scaler := None;
      if modelFile.Raised? {
        model, scaler := None, None;
      } else {
        model := Some(modelFile.value);
        if scalerFile.Raised? {
          model, scaler := None, None;
        } else {
          scaler := Some(scalerFile.value);
        }
      }
    }

    /** `predict` on one sample: an error entry when the model or the
        scaler is missing, the exception's text when a library call raises,
        and otherwise the scored reply. */
    function Predict(heartRate: real, motionIntensity: real, exp: real -> real): (r: Reply)
      reads this
      requires forall x :: exp(x) > 0.0
      ensures model.None? || scaler.None? ==> r == ErrorReply(NotLoaded)
      ensures model.Some? && scaler.Some? ==>
        match Evaluate(model.value, scaler.value, heartRate, motionIntensity)
        case Raised(e) => r == ErrorReply(e)
        case Returned(v) => r == Scored(heartRate, motionIntensity, v.0, v.1, exp)
      ensures r.PredictionReply? ==>
        && model.Some? && scaler.Some?
        && 0 <= r.confidenceNormal <= 100 && r.confidenceNormal + r.confidenceStress == 100
        && (r.prediction == Stressed || r.prediction == NormalLabel)
    {
      if model.None? || scaler.None? then ErrorReply(NotLoaded)
      else
        match Evaluate(model.value, scaler.value, heartRate, motionIntensity)
        case Raised(e) => ErrorReply(e)
        case Returned(v) => Scored(heartRate, motionIntensity, v.0, v.1, exp)
    }
  }
}
