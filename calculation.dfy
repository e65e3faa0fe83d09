/** The two calculations over the stored student records: the alert list
    (a heart-rate alert above 100 bpm, a stress alert above 80, student by
    student) and the latest record's metrics. */
module Calculation {

  /** The fields of a stored record these calculations read; the activity
      level is text and the timestamp is a count of seconds. */
  datatype Student = Student(studentName: string, heartRate: real, activityLevel: string,
                             stressLevel: real, timestamp: int)

  const HeartAlertLimit: real := 100.0
  const StressAlertLimit: real := 80.0

  const HeartAlertPrefix := "High heart rate detected for "
  const StressAlertPrefix := "High stress level detected for "

  function HeartAlert(name: string): string {
    HeartAlertPrefix + name
  }

  function StressAlert(name: string): string {
    StressAlertPrefix + name
  }

  /** No heart alert reads like a stress alert, whatever the two names. */
  lemma AlertsDiffer(a: string, b: string)
    ensures HeartAlert(a) != StressAlert(b)
  {
    assert HeartAlert(a)[5] == 'h' && StressAlert(b)[5] == 's';
  }

  /** The alerts one student contributes: the heart alert first, when the
      heart rate is strictly above 100, then the stress alert, when the
      stress level is strictly above 80. */
  function StudentAlerts(s: Student): (a: seq<string>)
    ensures |a| == (if s.heartRate > HeartAlertLimit then 1 else 0) + (if s.stressLevel > StressAlertLimit then 1 else 0)
    ensures HeartAlert(s.studentName) in a <==> s.heartRate > HeartAlertLimit
    ensures StressAlert(s.studentName) in a <==> s.stressLevel > StressAlertLimit
    ensures s.heartRate > HeartAlertLimit ==> a[0] == HeartAlert(s.studentName)
    ensures s.stressLevel > StressAlertLimit ==> a[|a| - 1] == StressAlert(s.studentName)
  {
    AlertsDiffer(s.studentName, s.studentName);
    (if s.heartRate > HeartAlertLimit then [HeartAlert(s.studentName)] else [])
      + (if s.stressLevel > StressAlertLimit then [StressAlert(s.studentName)] else [])
  }

  /** The reference alert list: each student's alerts, in student order. */
  function Alerts(students: seq<Student>): (a: seq<string>)
    ensures |a| <= 2 * |students|
    ensures students == [] ==> a == []
  {
    if |students| == 0 then []
    else Alerts(students[..|students| - 1]) + StudentAlerts(students[|students| - 1])
  }

  /** `generate_alerts`: walk the students in order and append their alerts. */
  method GenerateAlerts(students: seq<Student>) returns (alerts: seq<string>)
    ensures alerts == Alerts(students)
  {
    alerts := [];
    for i := 0 to |students|
      invariant alerts == Alerts(students[..i])
    {
      var data := students[i];
      if data.heartRate > HeartAlertLimit {
        alerts := alerts + [HeartAlert(data.studentName)];
      }
      if data.stressLevel > StressAlertLimit {
        alerts := alerts + [StressAlert(data.studentName)];
      }
      assert students[..i + 1][..i] == students[..i];
    }
    assert students[..|students|] == students;
  }

  /** The alerts of two groups of students are the first group's followed
      by the second's: alerts keep student order. */
  lemma {:induction false} AlertsAppend(a: seq<Student>, b: seq<Student>)
    ensures Alerts(a + b) == Alerts(a) + Alerts(b)
  {
    if |b| == 0 {
      assert a + b == a;
    } else {
      var init := b[..|b| - 1];
      assert (a + b)[..|a + b| - 1] == a + init;
      AlertsAppend(a, init);
    }
  }

  /** The number of students whose heart rate is strictly above 100. */
  function HighHeartCount(students: seq<Student>): (n: nat)
    ensures n <= |students|
  {
    if |students| == 0 then 0
    else HighHeartCount(students[..|students| - 1]) + (if students[|students| - 1].heartRate > HeartAlertLimit then 1 else 0)
  }

  /** The number of students whose stress level is strictly above 80. */
  function HighStressCount(students: seq<Student>): (n: nat)
    ensures n <= |students|
  {
    if |students| == 0 then 0
    else HighStressCount(students[..|students| - 1]) + (if students[|students| - 1].stressLevel > StressAlertLimit then 1 else 0)
  }

  /** One alert per high heart rate and one per high stress level, hence
      at most two per student and none without students. */
  lemma {:induction false} AlertsCount(students: seq<Student>)
    ensures |Alerts(students)| == HighHeartCount(students) + HighStressCount(students)
    ensures |Alerts(students)| <= 2 * |students|
    ensures students == [] ==> Alerts(students) == []
  {
    if |students| > 0 {
      AlertsCount(students[..|students| - 1]);
    }
  }

  /** The alerts of a single student, found inside the whole list. */
  lemma {:induction false} AlertsOfStudent(students: seq<Student>, i: int)
    requires 0 <= i < |students|
    ensures Alerts(students) == Alerts(students[..i]) + StudentAlerts(students[i]) + Alerts(students[i + 1..])
  {
    var front, rest := students[..i + 1], students[i + 1..];
    assert students == front + rest;
    AlertsAppend(front, rest);
    assert front[..|front| - 1] == students[..i];
    assert Alerts(front) == Alerts(students[..i]) + StudentAlerts(students[i]);
  }

  /** A value of the returned metrics dictionary: None, a float reading, the
      activity level's text, or a timestamp. */
  datatype Metric = Null | Reading(value: real) | Label(text: string) | Time(seconds: int)

  const HeartRateKey := "heart_rate"
  const ActivityLevelKey := "activity_level"
  const StressLevelKey := "stress_level"
  const TimestampKey := "timestamp"

  /** The position of a record with the greatest timestamp: what
      `order_by(timestamp.desc()).first()` picks. */
  function LatestIndex(records: seq<Student>): (i: nat)
    requires |records| > 0
    ensures i < |records|
    ensures forall j :: 0 <= j < |records| ==> records[j].timestamp <= records[i].timestamp
  {
    if |records| == 1 then 0
    else
      var k := LatestIndex(records[..|records| - 1]);
      if records[|records| - 1].timestamp > records[k].timestamp then |records| - 1 else k
  }

  /** `latest_metrics`: all three metrics None, and no timestamp, when there
      is no record; otherwise the metrics and the timestamp of a latest one. */
  function LatestMetrics(records: seq<Student>): (m: map<string, Metric>)
    ensures records == [] ==>
      m == map[HeartRateKey := Null, ActivityLevelKey := Null, StressLevelKey := Null]
    ensures records == [] <==> TimestampKey !in m
    ensures records != [] ==>
      exists i :: 0 <= i < |records| && m == MetricsOf(records[i])
        && forall j :: 0 <= j < |records| ==> records[j].timestamp <= records[i].timestamp
  {
    if records == [] then map[HeartRateKey := Null, ActivityLevelKey := Null, StressLevelKey := Null]
    else MetricsOf(records[LatestIndex(records)])
  }

  /** The dictionary built from one record. */
  function MetricsOf(s: Student): (m: map<string, Metric>)
    ensures TimestampKey in m
  {
    map[HeartRateKey := Reading(s.heartRate), ActivityLevelKey := Label(s.activityLevel),
        StressLevelKey := Reading(s.stressLevel), TimestampKey := Time(s.timestamp)]
  }
}
