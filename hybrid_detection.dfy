/** The batch script that labels heart-rate and three-axis accelerometer
    samples with a five-way anomaly type: an IsolationForest verdict over
    (heart_rate, X, Y, Z), refined by two fixed rules (heart rate at or
    beyond 60/100 bpm, motion magnitude at least 0.5 g away from 1 g). */
module HybridDetection {
  import opened Wrappers
  import opened DataFrame
  import opened IsolationForest

  const HeartRate := "heart_rate"
  const AxisX := "X"
  const AxisY := "Y"
  const AxisZ := "Z"

  /** The columns the input must have, in the order the cleaning loop visits them. */
  const Required: seq<string> := [HeartRate, AxisX, AxisY, AxisZ]
  const RequiredSet: set<string> := {HeartRate, AxisX, AxisY, AxisZ}

  const MotionMagnitude := "motion_magnitude"
  const AnomalyLabel := "Anomaly_Label"
  const MlAnomaly := "ML_Anomaly"
  const NetAccel := "net_accel"
  const MotionAnomaly := "Motion_Anomaly"
  const HeartAnomaly := "Heart_Anomaly"
  const AnomalyType := "Anomaly_Type"

  /** The columns the script adds. */
  const Derived: set<string> := {MotionMagnitude, AnomalyLabel, MlAnomaly, NetAccel, MotionAnomaly, HeartAnomaly, AnomalyType}

  const Gravity: real := 1.0
  const DeltaThreshold: real := 0.5
  const HeartLow: real := 60.0
  const HeartHigh: real := 100.0

  const Yes: Cell := Text("Yes")
  const No: Cell := Text("No")

  const Both := "Both (ML+Rule)"
  const HeartOnly := "Heart (ML+Rule)"
  const MotionOnly := "Motion (ML+Rule)"
  const MlOnly := "Anomaly (ML)"
  const Normal := "Normal"

  /** The five anomaly types, as the cells of the Anomaly_Type column. */
  const TypeCells: seq<Cell> := [Text(Both), Text(HeartOnly), Text(MotionOnly), Text(MlOnly), Text(Normal)]

  /** `np.where(condition, "Yes", "No")` for one row. */
  function YesNo(b: bool): Cell {
    if b then Yes else No
  }

  function Abs(x: real): real {
    if x < 0.0 then -x else x
  }

  /** The heart rule: a rate of 60 or less, or of 100 or more, is anomalous. */
  predicate HeartRule(heartRate: real) {
    heartRate <= HeartLow || heartRate >= HeartHigh
  }

  /** The motion rule: a magnitude at least 0.5 g away from 1 g is anomalous. */
  predicate MotionRule(magnitude: real) {
    Abs(magnitude - Gravity) >= DeltaThreshold
  }

  /** Both bounds of the heart rule are inclusive, and the band between them is normal. */
  lemma HeartRuleBounds(heartRate: real)
    ensures HeartRule(heartRate) <==> !(HeartLow < heartRate < HeartHigh)
    ensures HeartRule(HeartLow) && HeartRule(HeartHigh)
  {
  }

  /** The motion rule flags exactly the magnitudes outside (0.5, 1.5), both ends included. */
  lemma MotionRuleBounds(magnitude: real)
    ensures MotionRule(magnitude) <==> magnitude <= 0.5 || magnitude >= 1.5
  {
  }

  /** The float in column `c` of a row. */
  function Num(r: Row, c: string): real
    requires c in r && r[c].Number?
  {
    r[c].v
  }

  /** `combined_type(row)`: without an ML verdict of "Yes" the row is Normal,
      whatever the rules say; with one, the two rule flags select its type. */
  function CombinedType(row: Row): (t: string)
    requires MlAnomaly in row && HeartAnomaly in row && MotionAnomaly in row
    ensures Text(t) in TypeCells
    ensures t == Normal <==> row[MlAnomaly] != Yes
    ensures t == Both <==> row[MlAnomaly] == Yes && row[HeartAnomaly] == Yes && row[MotionAnomaly] == Yes
    ensures t == HeartOnly <==> row[MlAnomaly] == Yes && row[HeartAnomaly] == Yes && row[MotionAnomaly] != Yes
    ensures t == MotionOnly <==> row[MlAnomaly] == Yes && row[HeartAnomaly] != Yes && row[MotionAnomaly] == Yes
    ensures t == MlOnly <==> row[MlAnomaly] == Yes && row[HeartAnomaly] != Yes && row[MotionAnomaly] != Yes
  {
    if row[MlAnomaly] == Yes then
      if row[HeartAnomaly] == Yes && row[MotionAnomaly] == Yes then Both
      else if row[HeartAnomaly] == Yes then HeartOnly
      else if row[MotionAnomaly] == Yes then MotionOnly
      else MlOnly
    else Normal
  }

  /** A cleaned row: heart_rate, X, Y and Z all hold floats. */
  predicate HasReading(r: Row) {
    && HeartRate in r && r[HeartRate].Number?
    && AxisX in r && r[AxisX].Number?
    && AxisY in r && r[AxisY].Number?
    && AxisZ in r && r[AxisZ].Number?
  }

  lemma NumericHasReading(r: Row)
    ensures Numeric(r, RequiredSet) <==> HasReading(r)
  {
    if HasReading(r) {
      forall c | c in RequiredSet ensures c in r && r[c].Number? {
        assert c == HeartRate || c == AxisX || c == AxisY || c == AxisZ;
      }
    }
    if Numeric(r, RequiredSet) {
      assert HeartRate in RequiredSet && AxisX in RequiredSet && AxisY in RequiredSet && AxisZ in RequiredSet;
    }
  }

  /** The feature matrix of the forest: one [heart_rate, X, Y, Z] row per cleaned sample. */
  function Features(rows: seq<Row>): (m: seq<seq<real>>)
    requires forall i :: 0 <= i < |rows| ==> HasReading(rows[i])
    ensures |m| == |rows|
  {
    seq(|rows|, i requires 0 <= i < |rows| => FeatureRow(rows[i]))
  }

  /** `data[["heart_rate", "X", "Y", "Z"]]` for one row. */
  function FeatureRow(r: Row): seq<real>
    requires HasReading(r)
  {
    [Num(r, HeartRate), Num(r, AxisX), Num(r, AxisY), Num(r, AxisZ)]
  }

  /** What the magnitude relies on of `np.sqrt`: on a non-negative number
      it gives the non-negative root. */
  ghost predicate SqrtLike(sqrt: real -> real) {
    forall x :: x >= 0.0 ==> sqrt(x) >= 0.0 && sqrt(x) * sqrt(x) == x
  }

  /** `np.sqrt(X**2 + Y**2 + Z**2)`, with `sqrt` standing for `np.sqrt`: the
      Euclidean length of the acceleration vector. */
  function Magnitude(r: Row, sqrt: real -> real): (m: real)
    requires HasReading(r)
    ensures SqrtLike(sqrt) ==>
      && m >= 0.0
      && m * m == Num(r, AxisX) * Num(r, AxisX) + Num(r, AxisY) * Num(r, AxisY) + Num(r, AxisZ) * Num(r, AxisZ)
  {
    var x, y, z := Num(r, AxisX), Num(r, AxisY), Num(r, AxisZ);
    sqrt(x * x + y * y + z * z)
  }

  /** A sample at rest, reading 1 g on one axis only, has magnitude 1 and
      so is never a motion anomaly. */
  lemma MagnitudeAtRest(r: Row, sqrt: real -> real)
    requires SqrtLike(sqrt) && HasReading(r)
    requires Num(r, AxisX) == 0.0 && Num(r, AxisY) == 0.0 && Num(r, AxisZ) == 1.0
    ensures Magnitude(r, sqrt) == 1.0 && !MotionRule(Magnitude(r, sqrt))
  {
    var m := Magnitude(r, sqrt);
    assert m >= 0.0 && m * m == 1.0;
    if m <= 1.0 {
      assert m * m <= m;
    }
  }

  /** The rows after the cleaning loop and `dropna`. */
  ghost function Cleaned(t: Table, parse: string -> Option<real>): seq<Row>
    requires Rectangular(t.columns, t.rows) && RequiredSet <= t.columns
  {
    Keep(CoerceColumns(t.rows, Required, parse), RequiredSet)
  }

  /** A raw row survives cleaning iff each of heart_rate, X, Y, Z holds a
      float or a string that reads as a number. */
  lemma CleanedRowSurvives(t: Table, parse: string -> Option<real>, i: int)
    requires Rectangular(t.columns, t.rows) && RequiredSet <= t.columns
    requires 0 <= i < |t.rows|
    ensures Complete(CoerceColumns(t.rows, Required, parse)[i], RequiredSet)
        <==> forall c :: c in RequiredSet ==> Coerce(t.rows[i][c], parse).Number?
  {
    forall c | c in RequiredSet
      ensures CoerceColumns(t.rows, Required, parse)[i][c] == Coerce(t.rows[i][c], parse)
    {
      CoerceColumnsAt(t.rows, Required, parse, i, c);
    }
  }

  /** What the script writes into one cleaned row `c` with forest verdict `verdict`. */
  ghost predicate Annotation(c: Row, verdict: Label, sqrt: real -> real, r: Row)
    requires HasReading(c)
  {
    var m := Magnitude(c, sqrt);
    && r.Keys == c.Keys + Derived
    && (forall k :: k in c && k !in Derived ==> r[k] == c[k])
    && r[MotionMagnitude] == Number(m)
    && r[AnomalyLabel] == Number(verdict as real)
    && r[MlAnomaly] == YesNo(verdict == -1)
    && r[NetAccel] == Number(Abs(m - Gravity))
    && r[MotionAnomaly] == YesNo(MotionRule(m))
    && r[HeartAnomaly] == YesNo(HeartRule(Num(c, HeartRate)))
    && r[AnomalyType] == Text(CombinedType(r))
  }

  /** The anomaly type of an annotated row, read off its raw values and its verdict. */
  lemma AnnotatedType(c: Row, verdict: Label, sqrt: real -> real, r: Row)
    requires HasReading(c) && Annotation(c, verdict, sqrt, r)
    ensures var hr, m := Num(c, HeartRate), Magnitude(c, sqrt);
      && (r[AnomalyType] == Text(Normal) <==> verdict == 1)
      && (r[AnomalyType] == Text(Both) <==> verdict == -1 && HeartRule(hr) && MotionRule(m))
      && (r[AnomalyType] == Text(HeartOnly) <==> verdict == -1 && HeartRule(hr) && !MotionRule(m))
      && (r[AnomalyType] == Text(MotionOnly) <==> verdict == -1 && !HeartRule(hr) && MotionRule(m))
      && (r[AnomalyType] == Text(MlOnly) <==> verdict == -1 && !HeartRule(hr) && !MotionRule(m))
  {
  }

  /** The category counts: each of the five types with the number of rows
      `value_counts` reports for it (0 when it does not list it). */
  function TotalCount(summary: map<Cell, nat>): nat {
    SumCounts(summary, TypeCells)
  }

  lemma TypeCellsDistinct()
    ensures Distinct(TypeCells)
  {
  }

  /** The five types are texts, so none of them is the missing value. */
  lemma TypeCellsPresent()
    ensures forall k :: 0 <= k < |TypeCells| ==> TypeCells[k].Text?
  {
  }

  /** On the five types the summary's counts are the occurrence counts. */
  lemma TypeCounts(summary: map<Cell, nat>, types: seq<Cell>)
    requires forall v :: v in summary <==> v in types && v != Missing
    requires forall v :: v in summary ==> summary[v] == Occurrences(types, v)
    ensures forall k :: 0 <= k < |TypeCells| ==> CountOf(summary, TypeCells[k]) == Occurrences(types, TypeCells[k])
  {
    TypeCellsPresent();
    forall k | 0 <= k < |TypeCells|
      ensures CountOf(summary, TypeCells[k]) == Occurrences(types, TypeCells[k])
    {
      CountOfValueCounts(summary, types, TypeCells[k]);
    }
  }

  /** When every Anomaly_Type cell is one of the five types, the five counts
      of `value_counts` add up to the number of rows. */
  lemma SummaryCoversRows(summary: map<Cell, nat>, types: seq<Cell>)
    requires forall i :: 0 <= i < |types| ==> types[i] in TypeCells
    requires forall v :: v in summary <==> v in types && v != Missing
    requires forall v :: v in summary ==> summary[v] == Occurrences(types, v)
    ensures TotalCount(summary) == |types|
  {
    TypeCounts(summary, types);
    SumCountsMatch(summary, types, TypeCells);
    TypeCellsDistinct();
    SumOccurrencesPartition(types, TypeCells);
  }

  /** How the script ends: a missing column, no row left for the scaler to
      fit (sklearn's ValueError on zero samples), or the annotated frame
      with its type counts. */
  datatype Outcome =
    | MissingColumns(expected: set<string>)
    | NoRows
    | Analysed(frame: Frame, summary: map<Cell, nat>)

  function MagnitudeColumn(rows: seq<Row>, sqrt: real -> real): (col: seq<Cell>)
    requires forall i :: 0 <= i < |rows| ==> HasReading(rows[i])
    ensures |col| == |rows|
  {
    seq(|rows|, i requires 0 <= i < |rows| => Number(Magnitude(rows[i], sqrt)))
  }

  function LabelColumn(labels: seq<Label>): (col: seq<Cell>)
    ensures |col| == |labels|
  {
    seq(|labels|, i requires 0 <= i < |labels| => Number(labels[i] as real))
  }

  function MlColumn(verdicts: seq<Cell>): (col: seq<Cell>)
    ensures |col| == |verdicts|
  {
    seq(|verdicts|, i requires 0 <= i < |verdicts| => YesNo(verdicts[i] == Number(-1.0)))
  }

  function NetAccelColumn(magnitudes: seq<Cell>): (col: seq<Cell>)
    requires forall i :: 0 <= i < |magnitudes| ==> magnitudes[i].Number?
    ensures |col| == |magnitudes|
  {
    seq(|magnitudes|, i requires 0 <= i < |magnitudes| => Number(Abs(magnitudes[i].v - Gravity)))
  }

  function MotionColumn(netAccel: seq<Cell>): (col: seq<Cell>)
    requires forall i :: 0 <= i < |netAccel| ==> netAccel[i].Number?
    ensures |col| == |netAccel|
  {
    seq(|netAccel|, i requires 0 <= i < |netAccel| => YesNo(netAccel[i].v >= DeltaThreshold))
  }

  function HeartColumn(heartRates: seq<Cell>): (col: seq<Cell>)
    requires forall i :: 0 <= i < |heartRates| ==> heartRates[i].Number?
    ensures |col| == |heartRates|
  {
    seq(|heartRates|, i requires 0 <= i < |heartRates| =>
      YesNo(HeartRule(heartRates[i].v)))
  }

  function TypeColumn(rows: seq<Row>): (col: seq<Cell>)
    requires forall i :: 0 <= i < |rows| ==> MlAnomaly in rows[i] && HeartAnomaly in rows[i] && MotionAnomaly in rows[i]
    ensures |col| == |rows|
  {
    seq(|rows|, i requires 0 <= i < |rows| => Text(CombinedType(rows[i])))
  }

  /** The seven column assignments of the script, one row at a time, build
      its annotation. */
  lemma AnnotationSteps(c: Row, verdict: Label, sqrt: real -> real,
                        magnitude: Cell, labelCell: Cell, ml: Cell, net: Cell, motion: Cell, heart: Cell, r: Row)
    requires HasReading(c)
    requires magnitude == Number(Magnitude(c, sqrt))
    requires labelCell == Number(verdict as real)
    requires ml == YesNo(labelCell == Number(-1.0))
    requires net == Number(Abs(magnitude.v - Gravity))
    requires motion == YesNo(net.v >= DeltaThreshold)
    requires heart == YesNo(HeartRule(c[HeartRate].v))
    requires var r6 := c[MotionMagnitude := magnitude][AnomalyLabel := labelCell][MlAnomaly := ml]
                        [NetAccel := net][MotionAnomaly := motion][HeartAnomaly := heart];
             r == r6[AnomalyType := Text(CombinedType(r6))]
    ensures Annotation(c, verdict, sqrt, r)
    ensures r[AnomalyType] in TypeCells
  {
    var r6 := c[MotionMagnitude := magnitude][AnomalyLabel := labelCell][MlAnomaly := ml]
               [NetAccel := net][MotionAnomaly := motion][HeartAnomaly := heart];
    assert CombinedType(r) == CombinedType(r6);
  }

  /** The validation and cleaning part of the script: `read_csv`'s frame,
      coerced column by column, then `dropna` over the required columns. */
  method Clean(input: Table, parse: string -> Option<real>) returns (data: Frame)
    requires Rectangular(input.columns, input.rows) && RequiredSet <= input.columns
    ensures fresh(data) && data.Valid() && data.columns == input.columns
    ensures data.rows == Cleaned(input, parse)
    ensures forall i :: 0 <= i < |data.rows| ==> HasReading(data.rows[i])
  {
    data := new Frame(input);
    var j := 0;
    while j < |Required|
      invariant 0 <= j <= |Required|
      invariant data.Valid() && data.columns == input.columns
      invariant data.rows == CoerceColumns(input.rows, Required[..j], parse)
    {
      assert Required[..j + 1][..j] == Required[..j];
      data.ToNumeric(Required[j], parse);
      j := j + 1;
    }
    assert Required[..|Required|] == Required;
    data.DropNa(RequiredSet);
    CleanedHaveReadings(input, parse);
  }

  /** Every row left by cleaning has its four readings. */
  lemma CleanedHaveReadings(input: Table, parse: string -> Option<real>)
    requires Rectangular(input.columns, input.rows) && RequiredSet <= input.columns
    ensures forall i :: 0 <= i < |Cleaned(input, parse)| ==> HasReading(Cleaned(input, parse)[i])
  {
    var clean := Cleaned(input, parse);
    CoercedHasNoText(input.rows, Required, RequiredSet, parse);
    KeepNumeric(CoerceColumns(input.rows, Required, parse), RequiredSet);
    forall i | 0 <= i < |clean| ensures HasReading(clean[i]) {
      NumericHasReading(clean[i]);
    }
  }

  /** `motion_magnitude`, `Anomaly_Label` (the forest's `fit_predict` on
      the heart_rate, X, Y, Z features) and `ML_Anomaly`. */
  method AddModelColumns(data: Frame, sqrt: real -> real, detector: BatchDetector)
    returns (magnitude: seq<Cell>, labels: seq<Label>, labelCells: seq<Cell>, ml: seq<Cell>)
    requires data.Valid() && forall i :: 0 <= i < |data.rows| ==> HasReading(data.rows[i])
    requires LabelsEveryRow(detector)
    modifies data
    ensures data.Valid() && data.columns == old(data.columns) + {MotionMagnitude, AnomalyLabel, MlAnomaly}
    ensures labels == detector(Features(old(data.rows)))
    ensures magnitude == MagnitudeColumn(old(data.rows), sqrt)
    ensures labelCells == LabelColumn(labels) && ml == MlColumn(labelCells)
    ensures |data.rows| == |old(data.rows)| == |magnitude| == |labels| == |ml|
    ensures forall i :: 0 <= i < |data.rows| ==>
      data.rows[i] == old(data.rows[i])[MotionMagnitude := magnitude[i]][AnomalyLabel := labelCells[i]][MlAnomaly := ml[i]]
  {
    var clean := data.rows;
    magnitude := MagnitudeColumn(clean, sqrt);
    data.SetColumn(MotionMagnitude, magnitude);
    labels := detector(Features(clean));
    labelCells := LabelColumn(labels);
    data.SetColumn(AnomalyLabel, labelCells);
    ml := MlColumn(labelCells);
    data.SetColumn(MlAnomaly, ml);
  }

  /** `net_accel`, `Motion_Anomaly` and `Heart_Anomaly`. */
  method AddRuleColumns(data: Frame, magnitude: seq<Cell>, heartRates: seq<Cell>)
    returns (net: seq<Cell>, motion: seq<Cell>, heart: seq<Cell>)
    requires data.Valid() && |magnitude| == |heartRates| == |data.rows|
    requires forall i :: 0 <= i < |magnitude| ==> magnitude[i].Number?
    requires forall i :: 0 <= i < |heartRates| ==> heartRates[i].Number?
    modifies data
    ensures data.Valid() && data.columns == old(data.columns) + {NetAccel, MotionAnomaly, HeartAnomaly}
    ensures net == NetAccelColumn(magnitude) && motion == MotionColumn(net) && heart == HeartColumn(heartRates)
    ensures |data.rows| == |old(data.rows)|
    ensures forall i :: 0 <= i < |data.rows| ==>
      data.rows[i] == old(data.rows[i])[NetAccel := net[i]][MotionAnomaly := motion[i]][HeartAnomaly := heart[i]]
  {
    net := NetAccelColumn(magnitude);
    data.SetColumn(NetAccel, net);
    motion := MotionColumn(net);
    data.SetColumn(MotionAnomaly, motion);
    heart := HeartColumn(heartRates);
    data.SetColumn(HeartAnomaly, heart);
  }

  /** `Anomaly_Type` by `combined_type` on every row, and its `value_counts`. */
  method AddTypeColumn(data: Frame) returns (summary: map<Cell, nat>)
    requires data.Valid() && {MlAnomaly, HeartAnomaly, MotionAnomaly} <= data.columns
    modifies data
    ensures data.Valid() && data.columns == old(data.columns) + {AnomalyType}
    ensures |data.rows| == |old(data.rows)|
    ensures forall i :: 0 <= i < |data.rows| ==>
      data.rows[i] == old(data.rows[i])[AnomalyType := Text(CombinedType(old(data.rows[i])))]
    ensures forall v :: v in summary <==> v in Column(data.rows, AnomalyType)
    ensures forall v :: v in summary ==> summary[v] == Occurrences(Column(data.rows, AnomalyType), v)
    ensures TotalCount(summary) == |data.rows|
  {
    data.SetColumn(AnomalyType, TypeColumn(data.rows));
    summary := data.ValueCounts(AnomalyType);
    var types := Column(data.rows, AnomalyType);
    forall i | 0 <= i < |types| ensures types[i] in TypeCells {
    }
    SummaryCoversRows(summary, types);
  }

  /** The detection part of the script on the cleaned frame: magnitude,
      forest labels, rule flags, fused type, and the type counts. */
  method Annotate(data: Frame, sqrt: real -> real, detector: BatchDetector) returns (summary: map<Cell, nat>)
    requires data.Valid() && forall i :: 0 <= i < |data.rows| ==> HasReading(data.rows[i])
    requires LabelsEveryRow(detector)
    modifies data
    ensures data.Valid() && data.columns == old(data.columns) + Derived
    ensures |data.rows| == |old(data.rows)|
    ensures forall i :: 0 <= i < |data.rows| ==>
      Annotation(old(data.rows)[i], detector(Features(old(data.rows)))[i], sqrt, data.rows[i])
    ensures forall v :: v in summary <==> v in Column(data.rows, AnomalyType)
    ensures forall v :: v in summary ==> summary[v] == Occurrences(Column(data.rows, AnomalyType), v)
    ensures TotalCount(summary) == |data.rows|
  {
    var clean := data.rows;
    var magnitude, labels, labelCells, ml := AddModelColumns(data, sqrt, detector);
    ghost var r3 := data.rows;
    var net, motion, heart := AddRuleColumns(data, magnitude, Column(clean, HeartRate));
    ghost var r6 := data.rows;
    summary := AddTypeColumn(data);
    assert forall i :: 0 <= i < |r6| ==>
      r6[i] == clean[i][MotionMagnitude := magnitude[i]][AnomalyLabel := labelCells[i]][MlAnomaly := ml[i]]
                       [NetAccel := net[i]][MotionAnomaly := motion[i]][HeartAnomaly := heart[i]];
    AnnotatedRows(clean, labels, sqrt, magnitude, labelCells, ml, net, motion, heart, r6, data.rows);
  }

  /** The column assignments of `Annotate`, applied to every row, build each
      row's annotation. */
  lemma AnnotatedRows(clean: seq<Row>, labels: seq<Label>, sqrt: real -> real,
                      magnitude: seq<Cell>, labelCells: seq<Cell>, ml: seq<Cell>,
                      net: seq<Cell>, motion: seq<Cell>, heart: seq<Cell>, r6: seq<Row>, final: seq<Row>)
    requires forall i :: 0 <= i < |clean| ==> HasReading(clean[i])
    requires |labels| == |clean| == |r6| == |final|
    requires magnitude == MagnitudeColumn(clean, sqrt)
    requires labelCells == LabelColumn(labels) && ml == MlColumn(labelCells)
    requires net == NetAccelColumn(magnitude) && motion == MotionColumn(net)
    requires heart == HeartColumn(Column(clean, HeartRate))
    requires forall i :: 0 <= i < |r6| ==>
      r6[i] == clean[i][MotionMagnitude := magnitude[i]][AnomalyLabel := labelCells[i]][MlAnomaly := ml[i]]
                       [NetAccel := net[i]][MotionAnomaly := motion[i]][HeartAnomaly := heart[i]]
    requires forall i :: 0 <= i < |final| ==> final[i] == r6[i][AnomalyType := Text(CombinedType(r6[i]))]
    ensures forall i :: 0 <= i < |final| ==> Annotation(clean[i], labels[i], sqrt, final[i])
  {
    forall i | 0 <= i < |final|
      ensures Annotation(clean[i], labels[i], sqrt, final[i])
    {
      AnnotationSteps(clean[i], labels[i], sqrt, magnitude[i], labelCells[i], ml[i], net[i], motion[i], heart[i], final[i]);
    }
  }

  /** The whole script on the table `read_csv` produced: validate the
      columns, coerce and drop non-numeric rows (stopping when none is left,
      as `fit_transform` raises then), derive the magnitude, label
      the rows with the forest, add the rule flags, fuse them and count the
      types.  `parse`, `sqrt` and `detector` stand for pandas' number
      reader, `np.sqrt` and StandardScaler + IsolationForest.fit_predict. */
  method DetectAnomalies(input: Table, parse: string -> Option<real>, sqrt: real -> real, detector: BatchDetector)
    returns (out: Outcome)
    requires Rectangular(input.columns, input.rows)
    requires LabelsEveryRow(detector)
    ensures out.MissingColumns? <==> !(RequiredSet <= input.columns)
    ensures out.MissingColumns? ==> out.expected == RequiredSet
    ensures out.NoRows? <==> RequiredSet <= input.columns && Cleaned(input, parse) == []
    ensures out.Analysed? ==>
      var clean := Cleaned(input, parse);
      var rows := out.frame.rows;
      && out.frame.columns == input.columns + Derived
      && |rows| == |clean| > 0
      && (forall i :: 0 <= i < |clean| ==> HasReading(clean[i]))
      && (forall i :: 0 <= i < |rows| ==> Annotation(clean[i], detector(Features(clean))[i], sqrt, rows[i]))
      && (forall v :: v in out.summary <==> v in Column(rows, AnomalyType))
      && (forall v :: v in out.summary ==> out.summary[v] == Occurrences(Column(rows, AnomalyType), v))
      && TotalCount(out.summary) == |rows|
  {
    if !(RequiredSet <= input.columns) {
      return MissingColumns(RequiredSet);
    }
    var data := Clean(input, parse);
    if |data.rows| == 0 {
      return NoRows;
    }
    var summary := Annotate(data, sqrt, detector);
    return Analysed(data, summary);
  }
}
