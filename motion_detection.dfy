/** The batch script that flags heart-rate and scalar-motion samples with a
    binary anomaly column: a strict heart-rate rule (below 60 or above 100
    bpm), an IsolationForest verdict on the motion values alone, and their
    disjunction. */
module MotionDetection {
  import opened Wrappers
  import opened DataFrame
  import opened IsolationForest

  const HeartRate := "heart_rate"
  const Motion := "motion"
  const RequiredSet: set<string> := {HeartRate, Motion}

  const HeartAnomaly := "Heart_Anomaly"
  const MotionAnomaly := "Motion_Anomaly"
  const Anomaly := "Anomaly"

  /** The columns the script adds. */
  const Derived: set<string> := {HeartAnomaly, MotionAnomaly, Anomaly}

  const HeartLow: real := 60.0
  const HeartHigh: real := 100.0

  const Yes: Cell := Text("Yes")
  const No: Cell := Text("No")

  /** `np.where(condition, "Yes", "No")` for one row. */
  function YesNo(b: bool): Cell {
    if b then Yes else No
  }

  /** The heart rule of this script: strictly below 60 or strictly above 100 bpm. */
  predicate HeartRule(heartRate: real) {
    heartRate < HeartLow || heartRate > HeartHigh
  }

  /** Both bounds are exclusive: 60 and 100 themselves are normal. */
  lemma HeartRuleBounds(heartRate: real)
    ensures HeartRule(heartRate) <==> !(HeartLow <= heartRate <= HeartHigh)
    ensures !HeartRule(HeartLow) && !HeartRule(HeartHigh)
  {
  }

  /** A cleaned row: heart_rate and motion both hold floats. */
  predicate HasReading(r: Row) {
    HeartRate in r && r[HeartRate].Number? && Motion in r && r[Motion].Number?
  }

  lemma NumericHasReading(r: Row)
    ensures Numeric(r, RequiredSet) <==> HasReading(r)
  {
    if HasReading(r) {
      forall c | c in RequiredSet ensures c in r && r[c].Number? {
        assert c == HeartRate || c == Motion;
      }
    }
    if Numeric(r, RequiredSet) {
      assert HeartRate in RequiredSet && Motion in RequiredSet;
    }
  }

  /** The rows after coercing heart_rate, then motion, and `dropna`. */
  ghost function Cleaned(t: Table, parse: string -> Option<real>): seq<Row>
    requires Rectangular(t.columns, t.rows) && RequiredSet <= t.columns
  {
    Keep(CoerceColumns(t.rows, [HeartRate, Motion], parse), RequiredSet)
  }

  /** A raw row survives cleaning iff its heart_rate and its motion both
      hold a float or a string that reads as a number. */
  lemma CleanedRowSurvives(t: Table, parse: string -> Option<real>, i: int)
    requires Rectangular(t.columns, t.rows) && RequiredSet <= t.columns
    requires 0 <= i < |t.rows|
    ensures Complete(CoerceColumns(t.rows, [HeartRate, Motion], parse)[i], RequiredSet)
        <==> Coerce(t.rows[i][HeartRate], parse).Number? && Coerce(t.rows[i][Motion], parse).Number?
  {
    CoerceColumnsAt(t.rows, [HeartRate, Motion], parse, i, HeartRate);
    CoerceColumnsAt(t.rows, [HeartRate, Motion], parse, i, Motion);
  }

  /** The forest's input `data[["motion"]]`: one single-feature row per sample. */
  function MotionMatrix(rows: seq<Row>): (m: seq<seq<real>>)
    requires forall i :: 0 <= i < |rows| ==> HasReading(rows[i])
    ensures |m| == |rows|
  {
    seq(|rows|, i requires 0 <= i < |rows| => MotionFeature(rows[i]))
  }

  function MotionFeature(r: Row): seq<real>
    requires HasReading(r)
  {
    [r[Motion].v]
  }

  function HeartColumn(heartRates: seq<Cell>): (col: seq<Cell>)
    requires forall i :: 0 <= i < |heartRates| ==> heartRates[i].Number?
    ensures |col| == |heartRates|
  {
    seq(|heartRates|, i requires 0 <= i < |heartRates| =>
      YesNo(HeartRule(heartRates[i].v)))
  }

  function MotionColumn(labels: seq<Label>): (col: seq<Cell>)
    ensures |col| == |labels|
  {
    seq(|labels|, i requires 0 <= i < |labels| => YesNo(labels[i] == -1))
  }

  function AnomalyColumn(heart: seq<Cell>, motion: seq<Cell>): (col: seq<Cell>)
    requires |heart| == |motion|
    ensures |col| == |heart|
  {
    seq(|heart|, i requires 0 <= i < |heart| => YesNo(heart[i] == Yes || motion[i] == Yes))
  }

  /** What the script writes into one cleaned row `c` whose motion got the forest verdict `verdict`. */
  ghost predicate Annotation(c: Row, verdict: Label, r: Row)
    requires HasReading(c)
  {
    && r.Keys == c.Keys + Derived
    && (forall k :: k in c && k !in Derived ==> r[k] == c[k])
    && r[HeartAnomaly] == YesNo(HeartRule(c[HeartRate].v))
    && r[MotionAnomaly] == YesNo(verdict == -1)
    && r[Anomaly] == YesNo(r[HeartAnomaly] == Yes || r[MotionAnomaly] == Yes)
  }

  /** A row is an anomaly iff its heart rate breaks the strict rule or the
      forest marks its motion an outlier; it is "No" only when neither holds. */
  lemma AnnotatedAnomaly(c: Row, verdict: Label, r: Row)
    requires HasReading(c) && Annotation(c, verdict, r)
    ensures r[Anomaly] == Yes <==> HeartRule(c[HeartRate].v) || verdict == -1
    ensures r[Anomaly] == No <==> !HeartRule(c[HeartRate].v) && verdict == 1
  {
  }

  /** `(data["Anomaly"] == "Yes").sum()`: the rows flagged "Yes", which is
      never more than the number of rows. */
  function TotalAnomalies(rows: seq<Row>): (n: nat)
    requires forall i :: 0 <= i < |rows| ==> Anomaly in rows[i]
    ensures n <= |rows|
  {
    Occurrences(Column(rows, Anomaly), Yes)
  }

  /** The total counts one per flagged row: it is zero iff no row is flagged,
      and the number of rows iff every row is. */
  lemma {:induction false} TotalAnomaliesExtremes(rows: seq<Row>)
    requires forall i :: 0 <= i < |rows| ==> Anomaly in rows[i]
    ensures TotalAnomalies(rows) == 0 <==> forall i :: 0 <= i < |rows| ==> rows[i][Anomaly] != Yes
    ensures TotalAnomalies(rows) == |rows| <==> forall i :: 0 <= i < |rows| ==> rows[i][Anomaly] == Yes
  {
    var s := Column(rows, Anomaly);
    assert forall i :: 0 <= i < |rows| ==> s[i] == rows[i][Anomaly];
    OccurrencesPositive(s, Yes);
    OccurrencesAll(s, Yes);
  }

  /** Every cell equals `v` iff `v` occurs `|s|` times. */
  lemma {:induction false} OccurrencesAll(s: seq<Cell>, v: Cell)
    ensures Occurrences(s, v) == |s| <==> forall i :: 0 <= i < |s| ==> s[i] == v
  {
    if |s| > 0 {
      var init := s[..|s| - 1];
      OccurrencesAll(init, v);
      assert forall i :: 0 <= i < |init| ==> init[i] == s[i];
    }
  }

  /** How the script ends: a missing column, no row left for the forest to
      fit (sklearn's ValueError on zero samples), or the annotated frame with
      its anomaly total. */
  datatype Outcome =
    | MissingColumns(expected: set<string>)
    | NoRows
    | Analysed(frame: Frame, totalAnomalies: nat)

  /** The validation and cleaning part of the script: `read_csv`'s frame
      with heart_rate, then motion, coerced, and `dropna` over both. */
  method Clean(input: Table, parse: string -> Option<real>) returns (data: Frame)
    requires Rectangular(input.columns, input.rows) && RequiredSet <= input.columns
    ensures fresh(data) && data.Valid() && data.columns == input.columns
    ensures data.rows == Cleaned(input, parse)
    ensures forall i :: 0 <= i < |data.rows| ==> HasReading(data.rows[i])
  {
    data := new Frame(input);
    data.ToNumeric(HeartRate, parse);
    assert [HeartRate][..0] == [];
    assert data.rows == CoerceColumns(input.rows, [HeartRate], parse);
    data.ToNumeric(Motion, parse);
    assert [HeartRate, Motion][..1] == [HeartRate];
    assert data.rows == CoerceColumns(input.rows, [HeartRate, Motion], parse);
    data.DropNa(RequiredSet);
    CleanedHaveReadings(input, parse);
  }

  /** Every row left by cleaning has both readings. */
  lemma CleanedHaveReadings(input: Table, parse: string -> Option<real>)
    requires Rectangular(input.columns, input.rows) && RequiredSet <= input.columns
    ensures forall i :: 0 <= i < |Cleaned(input, parse)| ==> HasReading(Cleaned(input, parse)[i])
  {
    var clean := Cleaned(input, parse);
    CoercedHasNoText(input.rows, [HeartRate, Motion], RequiredSet, parse);
    KeepNumeric(CoerceColumns(input.rows, [HeartRate, Motion], parse), RequiredSet);
    forall i | 0 <= i < |clean| ensures HasReading(clean[i]) {
      NumericHasReading(clean[i]);
    }
  }

  /** The detection part of the script on the cleaned frame: the strict heart
      flag, the forest's motion flag, their disjunction and the total. */
  method Annotate(data: Frame, detector: BatchDetector) returns (total: nat)
    requires data.Valid() && forall i :: 0 <= i < |data.rows| ==> HasReading(data.rows[i])
    requires LabelsEveryRow(detector)
    modifies data
    ensures data.Valid() && data.columns == old(data.columns) + Derived
    ensures |data.rows| == |old(data.rows)|
    ensures forall i :: 0 <= i < |data.rows| ==>
      Annotation(old(data.rows)[i], detector(MotionMatrix(old(data.rows)))[i], data.rows[i])
    ensures total == TotalAnomalies(data.rows)
  {
    var clean := data.rows;
    var heart := HeartColumn(Column(data.rows, HeartRate));
    data.SetColumn(HeartAnomaly, heart);
    var labels := detector(MotionMatrix(clean));
    var motion := MotionColumn(labels);
    data.SetColumn(MotionAnomaly, motion);
    var anomaly := AnomalyColumn(heart, motion);
    data.SetColumn(Anomaly, anomaly);
    total := TotalAnomalies(data.rows);
    AnnotatedRows(clean, labels, heart, motion, anomaly, data.rows);
  }

  /** The three column assignments of `Annotate`, applied to every row, build
      each row's annotation. */
  lemma AnnotatedRows(clean: seq<Row>, labels: seq<Label>, heart: seq<Cell>, motion: seq<Cell>,
                      anomaly: seq<Cell>, final: seq<Row>)
    requires forall i :: 0 <= i < |clean| ==> HasReading(clean[i])
    requires |labels| == |clean| == |final|
    requires forall i :: 0 <= i < |clean| ==> HeartRate in clean[i] && clean[i][HeartRate].Number?
    requires heart == HeartColumn(Column(clean, HeartRate)) && motion == MotionColumn(labels)
    requires anomaly == AnomalyColumn(heart, motion)
    requires forall i :: 0 <= i < |final| ==>
      final[i] == clean[i][HeartAnomaly := heart[i]][MotionAnomaly := motion[i]][Anomaly := anomaly[i]]
    ensures forall i :: 0 <= i < |final| ==> Annotation(clean[i], labels[i], final[i])
  {
    forall i | 0 <= i < |final|
      ensures Annotation(clean[i], labels[i], final[i])
    {
      assert final[i] == clean[i][HeartAnomaly := heart[i]][MotionAnomaly := motion[i]][Anomaly := anomaly[i]];
    }
  }

  /** The whole script on the table `read_csv` produced: validate the
      columns, coerce both and drop non-numeric rows (stopping when none is
      left, as `fit` raises then), flag the heart rate by
      the strict rule and the motion by the forest, combine the flags and count
      the anomalies.  `parse` and `detector` stand for pandas' number reader
      and IsolationForest fitted to, then predicting on, the motion column. */
  method DetectAnomalies(input: Table, parse: string -> Option<real>, detector: BatchDetector)
    returns (out: Outcome)
    requires Rectangular(input.columns, input.rows)
    requires LabelsEveryRow(detector)
    ensures out.MissingColumns? <==> !(RequiredSet <= input.columns)
    ensures out.MissingColumns? ==> out.expected == RequiredSet
    ensures out.NoRows? <==> RequiredSet <= input.columns && Cleaned(input, parse) == []
    ensures out.Analysed? ==>
      var clean := Cleaned(input, parse);
      var rows := out.frame.rows;
      && out.frame.columns == input.columns + Derived
      && |rows| == |clean| > 0
      && (forall i :: 0 <= i < |clean| ==> HasReading(clean[i]))
      && (forall i :: 0 <= i < |rows| ==> Annotation(clean[i], detector(MotionMatrix(clean))[i], rows[i]))
      && out.totalAnomalies == TotalAnomalies(rows)
  {
    if !(RequiredSet <= input.columns) {
      return MissingColumns(RequiredSet);
    }
    var data := Clean(input, parse);
    if |data.rows| == 0 {
      return NoRows;
    }
    var total := Annotate(data, detector);
    return Analysed(data, total);
  }
}
