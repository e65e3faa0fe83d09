# Heart-rate and motion anomaly detection, with its account logic

This project is a Dafny model of the decision logic in a student
health-monitoring backend. The backend is written in Python with FastAPI,
pandas and scikit-learn. The libraries appear as oracles given as
parameters: the IsolationForest and StandardScaler, pandas' number reader,
`np.sqrt`, `np.exp`, bcrypt, and the JWT encoder and decoder. What the
model proves is stated on those parameters.

It covers:

- **Hybrid batch script** (`HybridDetection`, on the `DataFrame.Frame` class
  that stands for a pandas frame). The script:
  - checks that the heart_rate, X, Y and Z columns are present;
  - coerces those columns to numbers and drops the rows that fail;
  - labels each row with the forest;
  - adds an inclusive heart rule (≤ 60 or ≥ 100 bpm) and a motion rule
    (|magnitude − 1 g| ≥ 0.5);
  - fuses the flags into five types gated by the ML verdict;
  - counts the types with `value_counts`.
- **Motion batch script** (`MotionDetection`). Cleaning is done the same
  way. It then adds:
  - a strict heart rule (< 60 or > 100);
  - an ML-only motion flag;
  - their disjunction as `Anomaly`;
  - the number of "Yes" rows.
- **AI router** (`AiModelService`): the model and scaler loaded together at
  import, or reset together to None. `predict` returns:
  - an error entry when they are missing, or when a library call raises;
  - otherwise a STRESSED/NORMAL verdict with integer sigmoid confidences
    that add up to 100.
- **Training and prediction module** (`ModelJoblib`):
  - The training cleaning drops every row with a non-numeric column.
  - Its error paths are a missing file, a missing feature column and an
    empty training set.
  - The prediction is NORMAL/ANOMALY with a clamped linear confidence and
    its complement.
- **Record calculations** (`Calculation`): the alert loop over the students
  and the latest-record metrics.
- **Account helpers** (`AuthUtils`):
  - the 72-byte bcrypt truncation rule;
  - the payload that `create_access_token` signs;
  - how `get_current_user` turns a bearer token into a stored user, a 401
    or a 500.
- **Signup and login routes** (`AuthRoutes` and its `UserStore` class):
  - Signup runs its checks in order, then inserts a user and issues a token.
  - Login authenticates without changing the store.

Times are integers, counted in seconds. Floats are modelled as `real`.

The hybrid motion flag uses `>=` (project_root/app/routes/anomaly_detection.py:54),
so a distance of exactly 0.5 from 1 g is flagged.

## Model

| member | source | states |
|---|---|---|
| DataFrame.Coerce | project_root/app/routes/anomaly_detection.py:25 | `to_numeric(errors="coerce")`. A float or NaN stays as it is. Text becomes a number exactly when the reader parses it, and NaN otherwise. |
| DataFrame.CoerceIdempotent | project_root/app/routes/anomaly_detection.py:24-25 | Coercing a cell twice gives the same result as coercing it once. |
| DataFrame.CoerceColumns | project_root/app/routes/anomaly_detection.py:24-25 | Coercing a list of columns keeps the row count and every row's key set. |
| DataFrame.CoerceColumnsAt | project_root/app/routes/anomaly_detection.py:24-25 | After coercion, a cell in a listed column holds the coerced original. A cell in any other column is unchanged. |
| DataFrame.Keep | project_root/app/routes/anomaly_detection.py:26 | `dropna(subset)` never adds rows. |
| DataFrame.KeepMembers | project_root/app/routes/anomaly_detection.py:26 | A row survives `dropna` if and only if it was in the frame and has no NaN in any column of the subset. A string counts as present. |
| DataFrame.KeepComplete | project_root/app/routes/anomaly_detection.py:26 | Every surviving row is complete. |
| DataFrame.KeepNumeric | project_root/app/routes/anomaly_detection.py:24-26 | When no column of the subset holds a string, as after coercion, every surviving row has a float in each of them. |
| DataFrame.CoercedHasNoText | project_root/app/routes/anomaly_detection.py:24-25 | After `to_numeric(errors="coerce")`, no coerced column holds a string. |
| DataFrame.KeepAppend | project_root/app/routes/anomaly_detection.py:26 | `dropna` keeps the order of the survivors: filtering a concatenation gives the concatenation of the filtered parts. |
| DataFrame.KeepIdentity | project_root/app/routes/anomaly_detection.py:26 | `dropna` removes nothing exactly when every row is complete. |
| DataFrame.Column | project_root/app/routes/anomaly_detection.py:112 | A column has one cell per row. |
| DataFrame.Occurrences | project_root/app/routes/anomaly_detection.py:112 | A count of occurrences is at most the length of the sequence. |
| DataFrame.OccurrencesPositive | project_root/app/routes/anomaly_detection.py:112 | A value occurs a positive number of times exactly when it is present. |
| DataFrame.OccurrencesOfDistinct | project_root/app/routes/anomaly_detection.py:112 | In a sequence of distinct values, each value occurs once and any other value never. |
| DataFrame.SumOccurrencesPartition | project_root/app/routes/anomaly_detection.py:112 | When distinct values cover every cell, their occurrence counts add up to the length. |
| DataFrame.SumCountsMatch | project_root/app/routes/anomaly_detection.py:112 | Counts that agree with the occurrences value by value have the same total. |
| DataFrame.CountOfValueCounts | project_root/app/routes/anomaly_detection.py:112 | For a value other than NaN, what `value_counts` reports is its number of occurrences, and 0 when it is absent. |
| DataFrame.CountsStep | project_root/app/routes/anomaly_detection.py:112 | Counting one more cell works as follows. NaN is skipped. A value already listed gets one more. A new value gets a count of 1. |
| DataFrame.Frame.constructor | project_root/app/routes/anomaly_detection.py:13 | The frame `read_csv` produces has the table's columns and rows. |
| DataFrame.Frame.ToNumeric | routers/anomaly_detection.py:33-34 | In-place coercion of one column. The columns and the other cells are unchanged. |
| DataFrame.Frame.DropNa | project_root/app/routes/anomaly_detection.py:26 | The in-place `dropna` leaves exactly the complete rows, in order. |
| DataFrame.Frame.SetColumn | project_root/app/routes/anomaly_detection.py:30 | `data[name] = values` adds or replaces one column, one value per row, and leaves the other cells unchanged. |
| DataFrame.Frame.ValueCounts | project_root/app/routes/anomaly_detection.py:112 | Lists exactly the column's values other than NaN, each with its number of occurrences. |
| HybridDetection.HeartRuleBounds | project_root/app/routes/anomaly_detection.py:55-58 | The heart flag is set exactly outside the open band (60, 100), so 60 and 100 are both flagged. |
| HybridDetection.MotionRuleBounds | project_root/app/routes/anomaly_detection.py:51-54 | The motion flag is set exactly for magnitudes ≤ 0.5 or ≥ 1.5, so a distance of 0.5 from 1 g is flagged. |
| HybridDetection.CombinedType | project_root/app/routes/anomaly_detection.py:61-72 | The result is always one of the five types. It is Normal if and only if ML_Anomaly is not "Yes". With an ML "Yes", each of the other four types holds if and only if its combination of rule flags holds. |
| HybridDetection.NumericHasReading | project_root/app/routes/anomaly_detection.py:19-26 | A row has floats in the four required columns exactly when it has the four readings. |
| HybridDetection.Magnitude | project_root/app/routes/anomaly_detection.py:30 | With a true square root, the magnitude is non-negative and its square is X² + Y² + Z². |
| HybridDetection.MagnitudeAtRest | project_root/app/routes/anomaly_detection.py:30-54 | A sample at rest, (0, 0, 1), has magnitude exactly 1 and is not a motion anomaly. |
| HybridDetection.Features | project_root/app/routes/anomaly_detection.py:33 | The feature matrix has one row per cleaned sample. |
| HybridDetection.CleanedRowSurvives | project_root/app/routes/anomaly_detection.py:23-26 | A raw row survives the cleaning loop and `dropna` if and only if each of its four readings coerces to a number. |
| HybridDetection.CleanedHaveReadings | project_root/app/routes/anomaly_detection.py:26 | Every cleaned row has its four readings. |
| HybridDetection.AnnotatedType | project_root/app/routes/anomaly_detection.py:45-74 | The type of an annotated row, read from its heart rate, its magnitude and its forest label. It is Normal if and only if the label is 1. Each other type holds if and only if the label is −1 and its pair of rule outcomes holds. |
| HybridDetection.TypeCellsDistinct | project_root/app/routes/anomaly_detection.py:61-72 | The five type names are distinct. |
| HybridDetection.TypeCounts | project_root/app/routes/anomaly_detection.py:112 | For each of the five types, the reported count is its number of occurrences in the column. |
| HybridDetection.SummaryCoversRows | project_root/app/routes/anomaly_detection.py:74-112 | When every Anomaly_Type cell is one of the five types, the counts of the five add up to the number of rows. |
| HybridDetection.AnnotationSteps | project_root/app/routes/anomaly_detection.py:30-74 | The seven column assignments, applied to one cleaned row, build exactly that row's Annotation, whose type is one of the five. |
| HybridDetection.Clean | project_root/app/routes/anomaly_detection.py:23-26 | The cleaning loop and `dropna`. They leave exactly the cleaned rows, each with its four readings, and keep the columns. |
| HybridDetection.AddModelColumns | project_root/app/routes/anomaly_detection.py:29-48 | Adds the magnitude, the forest's label per row over the [heart_rate, X, Y, Z] matrix, and ML_Anomaly "Yes" if and only if the label is −1. |
| HybridDetection.AddRuleColumns | project_root/app/routes/anomaly_detection.py:51-58 | Adds net_accel, the distance of the magnitude from 1 g, the motion flag at ≥ 0.5 and the inclusive heart flag, row by row. |
| HybridDetection.AddTypeColumn | project_root/app/routes/anomaly_detection.py:74-112 | Adds Anomaly_Type by `combined_type` on every row. Its counts are exact and add up to the row count. |
| HybridDetection.Annotate | project_root/app/routes/anomaly_detection.py:29-112 | Every row becomes its Annotation: the original cells kept, and the seven derived columns as the script defines them. The summary counts every type exactly and adds up to the row count. |
| HybridDetection.AnnotatedRows | project_root/app/routes/anomaly_detection.py:30-74 | The column-wise results, put together, give every row its Annotation. |
| HybridDetection.DetectAnomalies | project_root/app/routes/anomaly_detection.py:19-112 | The script fails with the expected column set if and only if a required column is absent. It stops with NoRows, where `fit_transform` (line 37) raises, if and only if the columns are present and cleaning leaves no row. Otherwise it returns one annotated row per cleaned row, with the forest's verdicts and exact type counts that add up to the number of cleaned rows. |
| MotionDetection.HeartRuleBounds | routers/anomaly_detection.py:43-45 | The heart flag is set exactly outside the closed band [60, 100], so 60 and 100 are not flagged. |
| MotionDetection.NumericHasReading | routers/anomaly_detection.py:28-35 | A row has floats in heart_rate and motion exactly when it has both readings. |
| MotionDetection.CleanedRowSurvives | routers/anomaly_detection.py:33-35 | A raw row survives if and only if both its readings coerce to numbers. |
| MotionDetection.CleanedHaveReadings | routers/anomaly_detection.py:35 | Every cleaned row has both readings. |
| MotionDetection.MotionMatrix | routers/anomaly_detection.py:49-50 | The forest sees one [motion] row per cleaned sample. |
| MotionDetection.AnnotatedAnomaly | routers/anomaly_detection.py:54-57 | Anomaly is "Yes" if and only if the strict heart rule holds or the label is −1. It is "No" if and only if neither does. |
| MotionDetection.TotalAnomalies | routers/anomaly_detection.py:84 | The total is at most the row count. |
| MotionDetection.TotalAnomaliesExtremes | routers/anomaly_detection.py:84 | The total is 0 if and only if no row is flagged, and equals the row count if and only if every row is. |
| MotionDetection.OccurrencesAll | routers/anomaly_detection.py:84 | A value occurs once per cell exactly when every cell is that value. |
| MotionDetection.Clean | routers/anomaly_detection.py:32-35 | Coercion and `dropna` leave exactly the cleaned rows, each with both readings. |
| MotionDetection.Annotate | routers/anomaly_detection.py:43-84 | Every row gets the strict heart flag, the motion-only forest flag and their OR. The total is the number of "Yes" rows. |
| MotionDetection.AnnotatedRows | routers/anomaly_detection.py:43-57 | The three column results, put together, give every row its Annotation. |
| MotionDetection.DetectAnomalies | routers/anomaly_detection.py:28-84 | The script fails with the expected column set if and only if a required column is absent. It stops with NoRows, where `fit` (line 49) raises, if and only if the columns are present and cleaning leaves no row. Otherwise it returns one annotated row per cleaned row and the number flagged "Yes". |
| AiModelService.RoundHalfEven | routers/ai_model.py:69 | `round` gives an integer within 0.5 of its argument, and the even one of two equally near. |
| AiModelService.RoundHalfEvenMonotone | routers/ai_model.py:69 | Rounding never reverses an order. |
| AiModelService.RoundHalfEvenOfInteger | routers/ai_model.py:69 | Rounding an integer gives it back. |
| AiModelService.Sigmoid | routers/ai_model.py:67 | The probability of normal lies strictly between 0 and 1. |
| AiModelService.SigmoidMonotone | routers/ai_model.py:67 | With a monotone positive `exp` and steepness 5, a higher score never gives a lower probability. |
| AiModelService.ConfidenceNormal | routers/ai_model.py:69 | For a probability in [0, 1], `int(round(100·p))` is an integer in [0, 100]. |
| AiModelService.Scored | routers/ai_model.py:67-82 | The reply echoes the inputs and the score. It is STRESSED if and only if the label is −1, and NORMAL if and only if it is 1. Both confidences lie in [0, 100] and add up to 100. |
| AiModelService.ConfidenceMonotone | routers/ai_model.py:67-71 | The normal confidence never decreases as the score rises, and the stress confidence never increases. |
| AiModelService.Evaluate | routers/ai_model.py:59-64 | The first of transform, predict and decision_function that raises gives its message. The pair (label, score) is returned if and only if all three return, and then it is the forest's label and score of the scaled input. |
| AiModelService.Service.Load | routers/ai_model.py:28-35 | The model and the scaler are both loaded when both loads return. When either raises, both are None. |
| AiModelService.Service.Predict | routers/ai_model.py:54-85 | A missing model or scaler gives only the error entry. An exception from transform, predict or decision_function gives its text as the error. Otherwise the reply is the scored prediction, and any prediction has bounded confidences that add up to 100. |
| ModelJoblib.CoerceRow | ai_model/modeljoblib.py:19 | Every column of a row is coerced, and no column is added or lost. |
| ModelJoblib.CleanTraining | ai_model/modeljoblib.py:19 | Cleaning never adds rows. |
| ModelJoblib.CleanTrainingMembers | ai_model/modeljoblib.py:19 | A cleaned row is exactly the coercion of a raw row whose every column coerces to a number. |
| ModelJoblib.NumericRowKept | ai_model/modeljoblib.py:19 | A raw row that is numeric throughout is never dropped. |
| ModelJoblib.TrainModel | ai_model/modeljoblib.py:14-38 | A missing data file gives FileNotFoundError if and only if the file is missing. A KeyError is raised if and only if the file exists and a feature column is missing, and it names the missing columns. The fit fails for lack of rows if and only if the columns are present and cleaning leaves none. Training succeeds if and only if the file exists, both columns are present and at least one row survives. The matrix given to the scaler is then the cleaned heart_rate and motion_intensity values, row by row, and the success message is returned. |
| ModelJoblib.TrainingMatrix | ai_model/modeljoblib.py:21 | One feature row per cleaned row. |
| ModelJoblib.Clamp01 | ai_model/modeljoblib.py:55 | `max(0, min(1, x))` lies in [0, 1]. It is x inside that interval and saturates outside it. |
| ModelJoblib.ConfidenceNormal | ai_model/modeljoblib.py:55 | The normal confidence lies in [0, 100]. It is 0 for a score ≤ −0.5, 100 for a score ≥ 0.5, and (score + 0.5)·100 in between. |
| ModelJoblib.ConfidenceAnomaly | ai_model/modeljoblib.py:56 | The anomaly confidence lies in [0, 100] and adds up to 100 with the normal one. |
| ModelJoblib.ConfidenceMonotone | ai_model/modeljoblib.py:55-56 | The normal confidence is non-decreasing in the score, and the anomaly confidence non-increasing. |
| ModelJoblib.Status | ai_model/modeljoblib.py:52 | NORMAL if and only if the label is 1, and ANOMALY if and only if it is −1. |
| ModelJoblib.Report | ai_model/modeljoblib.py:52-66 | The dictionary echoes the inputs and the score. Its status is NORMAL if and only if the label is 1. The confidences are bounded and add up to 100. |
| ModelJoblib.Predict | ai_model/modeljoblib.py:42-66 | A failure while loading the model, loading the scaler or evaluating propagates as that exception. Otherwise the result is the report of the forest's label and score. |
| Calculation.AlertsDiffer | calculation.py:25-28 | A heart alert never reads like a stress alert. |
| Calculation.StudentAlerts | calculation.py:25-28 | A student contributes one alert per exceeded limit. The heart alert is present if and only if the heart rate is > 100, and the stress alert if and only if the stress level is > 80, so 100 and 80 give none. The heart alert comes first. |
| Calculation.GenerateAlerts | calculation.py:19-30 | The loop returns the alerts of every student, in student order. |
| Calculation.AlertsAppend | calculation.py:24-28 | The alerts of a concatenation are those of the first group followed by those of the second. |
| Calculation.HighHeartCount | calculation.py:25 | The number of students over the heart limit is at most the number of students. |
| Calculation.HighStressCount | calculation.py:27 | The number of students over the stress limit is at most the number of students. |
| Calculation.AlertsCount | calculation.py:21-30 | The number of alerts equals #(hr > 100) + #(stress > 80). It is at most 2·n, and there are none without students. |
| Calculation.Alerts | calculation.py:21-30 | At most two alerts per student, and none without students. |
| Calculation.AlertsOfStudent | calculation.py:24-28 | A student's own alerts sit in the list between those of the students before and those after. |
| Calculation.LatestIndex | calculation.py:7 | The chosen record has a timestamp no smaller than any other's. |
| Calculation.LatestMetrics | calculation.py:5-16 | With no records, the three metrics are None and there is no timestamp key. The timestamp key is absent if and only if there are no records. Otherwise the result holds the fields of a record with maximal timestamp. |
| Calculation.MetricsOf | calculation.py:11-16 | A record's dictionary always has the timestamp key. |
| AuthUtils.Utf8Length | utils/auth_utils.py:27 | A character takes 1 to 4 UTF-8 bytes, and exactly 1 when it is ASCII. |
| AuthUtils.Utf8Size | utils/auth_utils.py:27 | The byte length of a string lies between its length and four times its length. |
| AuthUtils.TruncateForBcrypt | utils/auth_utils.py:27-28 | The password is unchanged when it fits in 72 bytes. Otherwise it is cut to its first 72 characters. The result is always a prefix of at most 72 characters. |
| AuthUtils.HashPassword | utils/auth_utils.py:25-29 | A password of at most 72 UTF-8 bytes is hashed as it is. A longer one is hashed as its first 72 characters, or whole when it is shorter than that. |
| AuthUtils.HashIgnoresTail | utils/auth_utils.py:25-29 | Two passwords longer than 72 characters that agree on their first 72 hand bcrypt the same input, their first 72 characters. For one fixed salt they get the same hash. |
| AuthUtils.Utf8SizeRepeated | utils/auth_utils.py:27 | A string of one repeated character takes that character's size per copy. |
| AuthUtils.Utf8SizeAscii | utils/auth_utils.py:27 | For ASCII text, bytes and characters coincide. |
| AuthUtils.TruncatedAsciiFits | utils/auth_utils.py:27-28 | An ASCII password handed to bcrypt fits in 72 bytes. |
| AuthUtils.TruncationCanExceedLimit | utils/auth_utils.py:27-28 | The cut counts characters: 37 copies of 'é' pass unchanged and take 74 bytes. |
| AuthUtils.NatToString | utils/auth_utils.py:49 | `str` of a natural number is a non-empty string of digits. |
| AuthUtils.IntToString | utils/auth_utils.py:49 | `str` of an integer is non-empty and has no space. |
| AuthUtils.ParseDecimal | utils/auth_utils.py:80 | `int` succeeds exactly on digits, optionally after a minus sign. |
| AuthUtils.DigitsOfNat | utils/auth_utils.py:49-80 | Reading back the digits of a natural number gives the number. |
| AuthUtils.ParseOfIntToString | utils/auth_utils.py:49-80 | `int(str(n)) == n` for every integer. |
| AuthUtils.IntToStringInjective | utils/auth_utils.py:49 | Distinct ids give distinct subjects. |
| AuthUtils.TokenPayloadUnique | utils/auth_utils.py:40-49 | The payload rules determine the payload completely. |
| AuthUtils.BuildPayload | utils/auth_utils.py:40-49 | The payload has every key of `data` plus exp. Exp is now plus the delta when the delta is truthy, and now plus 15 minutes otherwise, so a zero delta also gives 15 minutes. Sub is added as `str(id)` only when sub is absent and id present. An existing sub and every other key are kept. |
| AuthUtils.CreateAccessToken | utils/auth_utils.py:38-52 | The token is the encoding of exactly that payload. |
| AuthUtils.FirstField | utils/auth_utils.py:66 | The first space-separated field is a space-free prefix that ends at the first space. |
| AuthUtils.StripBearer | utils/auth_utils.py:65-66 | A token that starts with "Bearer " is replaced by its second space-separated field. Any other token is unchanged. |
| AuthUtils.StripBearerPrefixed | utils/auth_utils.py:65-66 | Stripping "Bearer " from a prefixed space-free token gives the token back. |
| AuthUtils.FindFirst | utils/auth_utils.py:80 | `filter(condition).first()` returns a stored user that meets the condition, or None if and only if no user does. Lookups by id and by email are this one query. |
| AuthUtils.SubjectId | utils/auth_utils.py:80 | `int(user_id)` succeeds if and only if sub is an integer or text that reads as one. An integer is taken as it is, and text as the number it reads as. |
| AuthUtils.GetCurrentUser | utils/auth_utils.py:56-86 | Each of the following gives the same 401: a decode error, a missing or null sub, or an id with no stored user. A sub that `int` cannot read gives a 500. Otherwise the result is the stored user with that id. |
| AuthUtils.IssuedTokenAuthenticates | utils/auth_utils.py:38-86 | A token issued for a stored user's id and sent as "Bearer <token>" authenticates exactly that user. |
| AuthUtils.RawTokenAuthenticates | utils/auth_utils.py:38-86 | The same token sent bare, without the prefix, authenticates the same user. |
| AuthRoutes.SignupCheck | routers/auth.py:34-63 | The checks run in the source's order: mismatched passwords (400), a registered email (400), a taken username (400), and a duplicate student id, which the commit rejects (500). The result is None if and only if all of them pass. |
| AuthRoutes.InsertKeepsValid | routers/auth.py:51-64 | Inserting a user that passed the checks, under the next id, keeps ids, emails, usernames and student ids unique. |
| AuthRoutes.UserStore.constructor | routers/auth.py:32 | The store starts empty and valid. |
| AuthRoutes.UserStore.Signup | routers/auth.py:32-69 | The store's uniqueness is kept. A failed check returns that error and leaves the store unchanged. Success appends exactly one user, with the hashed password and no phone, emergency contact or avatar, under the next id, which email lookup then finds. The token is bearer, with sub = str(id) and the default expiry. |
| AuthRoutes.UserStore.Login | routers/auth.py:76-95 | Both an unknown email and a wrong password give the same 401. Login succeeds if and only if some user has the email and the password verifies. The token is bearer, with sub = str(id) and a 30-minute expiry. The store is not modified. |
| AuthRoutes.UserStore.EmailUnique | routers/auth.py:77 | In a valid store, the user found by email is the only one with that email. |
| AuthRoutes.FindNewEmail | routers/auth.py:38-64 | After a user with a fresh email is appended, looking that email up finds that user. |

## Left out

- Reading the CSV, model and data files is left out, along with the SystemExit on a missing CSV, plotting, writing the pickle and CSV results, and every `print`. These are I/O. A script starts from the table `read_csv` returned.
- The hybrid script's coercion loop visits a set of columns, whose order Python does not fix. The model uses one fixed order. The result does not depend on it, because each column is coerced on its own.
- The order in which `value_counts` lists its values is not modelled. The counts are modelled as a map, and the later `fillna(0).astype(int)` does not change them.
- The IsolationForest, the StandardScaler and their training are oracles: a batch detector that returns one label per row, and per-sample `transform`, `predict` and `decision_function` that may raise. sklearn's ValueError on a frame with no rows is the script's NoRows outcome.
- The square root, `np.exp` and floating-point rounding are not modelled. Numbers are reals, `sqrt` is a parameter, and `exp` is a parameter assumed to be positive and, for monotonicity, non-decreasing. NaN and infinities do not arise.
- AiModelService.RoundHalfEven: Python's `round` is modelled exactly, as round-half-to-even on an exact value, rather than abstractly.
- DataFrame.Complete: a cell other than NaN counts as present, as in pandas. Strings never reach `dropna` in these scripts because their columns are coerced first. `KeepNumeric` turns "present" into "a float" on such rows.
- The rounding of anomaly_score to 4 decimals and of the joblib confidences to 2 decimals is not modelled. Those values are reported unrounded.
- The import-time training subprocess of the AI router (routers/ai_model.py:16-26) and its `ai_status` endpoint are left out. The first is I/O; the second returns a constant.
- ModelJoblib.TrainModel: the model stops at the matrix handed to `fit_transform` and `fit`. Fitting and `joblib.dump` are oracle work and I/O. EmptyTrainingSet stands for the ValueError that sklearn raises on zero rows.
- Calculation.LatestMetrics: it picks one record of maximal timestamp. Which one the database returns on a tie, and where NULL timestamps sort, are not modelled. The alert and metric fields are read from a record type of their own. The stored user table in models_db.py does not declare them, so models_db.py is not part of this model. A None field, which Python would reject in `>` with a TypeError, is not modelled.
- AuthUtils.HashIgnoresTail: `pwd_context.hash` draws a fresh salt on every call. The `bcrypt` parameter is a function, so it stands for bcrypt under one fixed salt. Its "same hash" clause holds only for that salt. What the source itself guarantees is the first clause: bcrypt receives the same input.
- bcrypt hashing and verification and JWT encoding and decoding are oracles. The secret key, the algorithm, the expiry check inside `jwt.decode`, and the unused ACCESS_TOKEN_EXPIRE_MINUTES are left to them.
- AuthUtils.ParseDecimal: it is stricter than Python's `int()`. It does not accept surrounding whitespace, a '+' sign, underscores or non-ASCII digits. Such a `sub` gives the 500 path here where Python would succeed. Tokens this system issues never contain one.
- AuthUtils.Utf8Size: it counts code points. Lone surrogates, which `encode("utf-8")` rejects, are not modelled.
- Expiry deltas are whole seconds. Sub-second parts of `timedelta` and how `datetime` prints are left to the `showTime` parameter.
- The `/me` profile route (routers/auth.py:98-112) is left out. It only copies fields of the user `get_current_user` returns.
- Email validation by pydantic's `EmailStr` is left out. So is `db.refresh`. The database's id assignment is modelled as a counter in `UserStore`.
- The context and glue files are not part of this model. They are left out as database wrappers, broken glue or pure routing: models_db.py, routers/metrics.py, routers/ingest.py, ai_model/importjoblib.py, project_root/app/main.py, services/ai_module.py, models.py, main.py, routes/, routers/alerts.py and the Isolation Forest/ scripts.
