# Patient readmission tracer — a Dafny model of its data logic

The repository is a healthcare-analytics demo. It cleans a table of hospital admissions, labels each admission with a 30-day readmission target, and shows the data in two Streamlit dashboards. Each dashboard has row filters and a hand-written risk "predictor". This project models the parts with behaviour you can state, as pure Dafny functions over immutable rows, and proves properties of them:

- the cleaning pipeline of `HealthcareDataCleaner` (`data/processed/data_cleaning.py`). It drops rows without dates, imputes lab values with per-test medians, finds outliers with Tukey's IQR fence, and derives the readmission target and calendar features. It also keeps an audit log and renders a report;
- the two risk scorers and their LOW / MEDIUM / HIGH tiers (`streamlit_app.py`, `src/app/streamlit_app.py`);
- the dashboard row filters, the data-explorer filter and sample, the age-group bins, and the column check applied to uploads.

Layout, one module per file:

| file | module | models |
|---|---|---|
| wrappers.dfy | `Wrappers` | `Option` for a missing (NaN/NaT) cell, `Result` for an operation that raises |
| seqs.dfy | `Seqs` | boolean-mask filtering and positional picking, with their order and multiset laws |
| reals.dfy | `Reals` | `min`, `max`, `abs` and the score clamp |
| stats.dfy | `Stats` | sorting reals, pandas' linear-interpolation quantile, the median, Tukey fences |
| calendar.dfy | `Calendar` | timestamps as calendar fields, day numbers, day of week, whole-day intervals |
| cleaning_log.dfy | `CleaningLog` | audit-log entries, decimal rendering, the cleaning report |
| admissions.dfy | `Admissions` | the admission table, dropping undated rows, group-median imputation |
| outliers.dfy | `Outliers` | `detect_outliers_iqr` |
| features.dfy | `Features` | the stable sort, the next admission per patient, the 30-day target, calendar features |
| risk_tiers.dfy | `RiskTiers` | the LOW / MEDIUM / HIGH cut-offs both dashboards share |
| dashboard_risk.dfy | `DashboardRisk` | the top-level dashboard's risk score and tiers |
| predictor_risk.dfy | `PredictorRisk` | the application dashboard's risk score and tiers |
| dashboard_filters.dfy | `DashboardFilters` | dashboard filters, explorer filter and sample, age bins, upload check |

Modelling choices:

- **Cells and errors.** A missing cell is `None`. An exception is a `Result.Failure`. Integers and reals are unbounded. The risk-score properties use only comparisons, `min` and `max`, so they also hold for IEEE floats.
- **Timestamps.** A timestamp is a set of validated calendar fields. A day number is counted from 1970-01-01 with the days-from-civil formula, and `NextDateIsNextDay` proves it counts days without gaps. `days_to_readmit` is the floor of the elapsed seconds divided by 86400, the rounding `Timedelta.days` uses. Day of week counts Monday as 0.
- **Sorting.** The sort is stable, like pandas' multi-key `sort_values`, which uses a stable lexicographic sort. A missing admission date sorts last within its patient.
- **Next admission.** `next_admission_date` follows the group shift: the first later row of the same patient. `NextAdmissionIsAdjacent` proves that in the sorted table this is simply the next row.
- **Randomness.** The random generator behind `sample` becomes a parameter `draw`. It is an ordering of all row positions, and the first `n` are taken.

Where the source cannot run as written, the model follows its evident intent. A comment marks each place in the Dafny:

- `len(self)` (data_cleaning.py:12) is read as `len(self.df)`.
- The three methods indented inside `handle_missing_values` (data_cleaning.py:25-68) are read as methods of the class.
- The log append at data_cleaning.py:23 sits inside the `lab_value` branch. It is modelled as unconditional.
- The misspellings `quantilw` (:28) and `dsicharge_date` (:41) are read as `quantile` and `discharge_date`.
- The group shift split over two lines (:47-48) is read as one expression.

Edge cases of the code that the model keeps as they are:

- Outlier detection has no minimum value count. A single present value gives fences equal to it. With no present value the fences are NaN and nothing is reported.
- An overlapping stay (a next admission before the discharge) has a negative gap and gets target 1. `NegativeGapIsReadmission` states it.
- The only error of the cleaning pipeline the model carries is the `KeyError` of `detect_outliers_iqr` for an absent lab column, modelled in `DetectOutliersIqr`. On the dashboard side, the `ValueError` of the explorer sample is carried by `ExplorerViewAsWritten`. The pipeline's other failures come from absent date, `item_id` or `patient_id` columns and unparseable dates. They are listed under "Left out".

## Model

| member | source | states |
|---|---|---|
| Admissions.DropMissingDates | data/processed/data_cleaning.py:16 | keeps exactly the rows with both dates, each as often as in the input, as the subsequence at the increasing positions of such rows |
| Admissions.HandleMissingValues | data/processed/data_cleaning.py:10-24 | the output rows are the kept rows in order, with only lab values changed and both dates present; with a lab column they are the group-median imputation of the kept rows, without one nothing is imputed; exactly one log entry is appended, recording input length minus output length |
| Admissions.DroppedCountIsMissingCount | data/processed/data_cleaning.py:12-23 | the logged count equals the number of input rows lacking a date |
| Admissions.ObservedLabValues | data/processed/data_cleaning.py:20-21 | the values a test's median is taken over: each value occurs as often as rows of that test observe it, and there are none iff every row of the test is missing its value |
| Admissions.GroupMedian | data/processed/data_cleaning.py:20-21 | a group's fill value is missing iff it has no observed value, else the median of its observed values |
| Admissions.ImputeLabValues | data/processed/data_cleaning.py:19-21 | row count and all other fields unchanged; observed values unchanged; a missing value becomes its item group's median; it stays missing iff no row of its group has an observed value |
| Admissions.ImputeIdempotent | data/processed/data_cleaning.py:19-21 | imputing an imputed table changes nothing |
| Admissions.ImputedValueWithinGroupRange | data/processed/data_cleaning.py:20-21 | a filled value lies between the least and greatest observed value of its lab test |
| Admissions.GroupMedianExample | data/processed/data_cleaning.py:20-21 | values 10, 20, missing, 30 of one test: the missing value becomes 20 |
| Stats.Quantile | data/processed/data_cleaning.py:27-28 | the linearly interpolated quantile lies between the sample's minimum and maximum |
| Stats.QuantileAtKnot | data/processed/data_cleaning.py:27-28 | at probability k/(n-1) the quantile is exactly the k-th smallest value, pandas' default linear method |
| Stats.QuantileInterpolates | data/processed/data_cleaning.py:27-28 | between knots j and j+1 of position (n-1)p the quantile is the linear interpolation of the j-th and (j+1)-th smallest values |
| Stats.SortSortedIsIdentity | data/processed/data_cleaning.py:27-28 | sorting an already sorted sample leaves it unchanged |
| Stats.FirstQuartileExample | data/processed/data_cleaning.py:27 | the first quartile of 1, 2, 3, 4 is 1.75 |
| Stats.QuantileMonotone | data/processed/data_cleaning.py:27-28 | a lower probability never gives a larger quantile, so Q1 <= Q3 |
| Stats.Median | data/processed/data_cleaning.py:21 | the median lies between the sample's minimum and maximum |
| Stats.MedianIsHalfQuantile | data/processed/data_cleaning.py:21 | the median (mean of the middle pair for even counts) equals the 0.5 quantile |
| Stats.TukeyFences | data/processed/data_cleaning.py:27-31 | lower <= Q1 <= Q3 <= upper, upper - lower = 4 IQR, each fence 1.5 IQR beyond its quartile |
| Outliers.RowsOutside | data/processed/data_cleaning.py:33 | exactly the rows with a present value strictly outside the fences, with their multiplicities, in table order |
| Outliers.PresentValues | data/processed/data_cleaning.py:27-28 | the values the quartiles are taken over: each value occurs as often as rows hold it in the column, and there are none iff every cell is missing |
| Outliers.DetectOutliersIqr | data/processed/data_cleaning.py:25-34 | error iff the lab column is absent; no present value gives NaN fences and no outliers; otherwise the fences are Q1 - 1.5 IQR and Q3 + 1.5 IQR of the present values, and the outliers are exactly the rows strictly outside them, never a missing value |
| Features.SortRows | data/processed/data_cleaning.py:44 | the result is a permutation of the input ordered by (patient, admission date) |
| Features.SortRowsIsStable | data/processed/data_cleaning.py:44 | rows with equal keys keep their input order |
| Features.NextRowOf | data/processed/data_cleaning.py:47-48 | finds the first later row of the same patient, or proves there is none |
| Features.NextAdmissionIsAdjacent | data/processed/data_cleaning.py:47-48 | in the sorted table the group shift yields row i+1's admission date iff it is the same patient, else missing |
| Features.DaysToReadmit | data/processed/data_cleaning.py:49 | present iff both dates are; the floor of the elapsed days |
| Features.ReadmissionLabel | data/processed/data_cleaning.py:52 | the target is 0 or 1, and 1 iff the gap exists and is at most 30 |
| Features.DeriveRows | data/processed/data_cleaning.py:47-57 | over a sorted table: one feature row per row in its order; next admission from the adjacent row of the same patient; gap and target as above; month, weekday and hour are those of the admission date, missing with it |
| Features.CreateFeatures | data/processed/data_cleaning.py:36-59 | rows are the stable sort of the input by key; next admission from the adjacent row of the same patient; gap and target as above; month, weekday (Monday = 0) and hour are those of the admission date, in 1..12, 0..6 and 0..23; one log entry appended |
| Features.FeatureRowsKeepKeyOrder | data/processed/data_cleaning.py:44-48 | in the feature table the admissions of each (patient, admission date) key appear in their input order |
| Features.LastAdmissionIsNotReadmitted | data/processed/data_cleaning.py:47-52 | a patient's last admission has no next admission, no gap and target 0 |
| Features.NegativeGapIsReadmission | data/processed/data_cleaning.py:49-52 | a next admission before the discharge gives a negative gap and target 1 |
| Features.ThirtyDayRuleExamples | data/processed/data_cleaning.py:49-52 | discharge 2023-02-10 then admission 2023-02-28 gives 18 days and target 1; 2023-04-01 gives 50 days and target 0 |
| Features.FeaturesKeepDates | data/processed/data_cleaning.py:55-57 | dated input rows give dated feature rows with all calendar features present |
| Features.CleaningRunFeatures | data/processed/data_cleaning.py:16-58 | the full run on a fresh cleaner: the feature rows are the cleaned rows (kept and imputed), as many as the rows with both dates, each dated and with its month, day of week and hour |
| Features.CleaningRunLog | data/processed/data_cleaning.py:23-57 | the full run's log is the dropped-row count followed by the feature entry |
| Calendar.WholeDaysBetween | data/processed/data_cleaning.py:49 | the whole-day count d satisfies d*86400 <= elapsed seconds < (d+1)*86400 |
| Calendar.DayOfWeek | data/processed/data_cleaning.py:56 | in 0..6 and congruent to the day number with 1970-01-01 a Thursday (Monday = 0) |
| Calendar.NextDateIsNextDay | data/processed/data_cleaning.py:49 | the next calendar date, across months, years, leap days and 400-year cycles, has the next day number |
| Calendar.CalendarAnchors | data/processed/data_cleaning.py:56 | 1970-01-01 is day 0, 2023-01-02 a Monday (0), 2023-01-01 a Sunday (6) |
| CleaningLog.NatToString | data/processed/data_cleaning.py:23 | the count renders as a non-empty digit string without leading zeros |
| CleaningLog.NatToStringRoundTrip | data/processed/data_cleaning.py:23 | reading back the rendered count gives the count |
| CleaningLog.ReportAppend | data/processed/data_cleaning.py:61-65 | the report of a log extended by later entries is the earlier report followed by their lines, so entries appear in append order |
| Reals.Clamp | streamlit_app.py:731 | the result is within [lo, hi], equals x inside it and the nearer bound outside |
| DashboardRisk.Factors | streamlit_app.py:719-727 | caps 0.25, 0.15, 0.20, 0.15, 0.10; BMI and blood-pressure factors >= 0; age factor negative below 30; conditions exactly 0.15 / 0.10 on "Yes", else 0 |
| DashboardRisk.RiskScore | streamlit_app.py:729-731 | the score lies in [0.05, 0.95]; it equals the raw score inside that band, 0.05 below it and 0.95 above it |
| DashboardRisk.RiskScoreMonotone | streamlit_app.py:719-731 | raising age, previous admissions, stay or pressure, or a condition to "Yes", never lowers the score |
| DashboardRisk.LowerClampReachable | streamlit_app.py:719-731 | within the form's ranges the raw score can be 0 and is reported at the 0.05 floor |
| RiskTiers.LevelOf | streamlit_app.py:766-787 | LOW iff score < 0.3, MEDIUM iff 0.3 <= score < 0.7, HIGH iff score >= 0.7 |
| RiskTiers.LevelOfMonotone | streamlit_app.py:766-787 | a higher score never gets a milder level |
| DashboardRisk.RiskTier | streamlit_app.py:766-787 | LOW iff score < 0.3, MEDIUM iff 0.3 <= score < 0.7, HIGH otherwise; 3, 3 and 4 recommendations with the dashboard's texts (the desktop branch at 838-859 is identical) |
| DashboardRisk.RiskTierMonotone | streamlit_app.py:838-859 | a riskier patient is never shown a lower tier |
| DashboardFilters.DashboardRows | streamlit_app.py:322-329 | kept iff gender and status selected and lo <= age <= hi; multiplicities kept; order preserved |
| DashboardFilters.AfterUpload | streamlit_app.py:1323-1333 | a readable upload with age, gender, length_of_stay and readmission_30d replaces the data, anything else leaves it; afterwards the data has those columns iff the old data or the upload had them |
| DashboardFilters.UploadsKeepRequiredColumns | streamlit_app.py:1323-1333 | data with the required columns keeps them through any series of uploads |
| DashboardFilters.SessionAlwaysHasRequiredColumns | streamlit_app.py:235-269 | from the generated sample table, the session data has the columns the filter at 322-329 reads after any series of uploads |
| PredictorRisk.Factors | src/app/streamlit_app.py:363-370 | age <= 0.3, stay <= 0.25, comorbidities <= 0.2; lab, BMI and pressure factors >= 0 |
| PredictorRisk.RiskScore | src/app/streamlit_app.py:372-374 | the score lies in [0.05, 0.95]; it equals the raw score 0.15 + sum/2 inside that band, 0.05 below it and 0.95 above it |
| PredictorRisk.LowerClampNeverBinds | src/app/streamlit_app.py:363-374 | with non-negative age, stay and comorbidities every factor is >= 0, the raw score is >= 0.15 and the score is min(0.95, raw) |
| PredictorRisk.FormInputsAreNonNegative | src/app/streamlit_app.py:311-343 | every input the form admits gets score min(0.95, raw) |
| PredictorRisk.RiskScoreMonotone | src/app/streamlit_app.py:363-374 | raising age, stay, comorbidities or pressure never lowers the score |
| PredictorRisk.RiskTier | src/app/streamlit_app.py:409-433 | LOW iff score < 0.3, MEDIUM iff 0.3 <= score < 0.7, HIGH otherwise; 3, 3 and 4 recommended actions |
| PredictorRisk.TierOfFormInput | src/app/streamlit_app.py:409-433 | for form inputs the tier is LOW iff raw < 0.3 and HIGH iff raw >= 0.7 |
| DashboardFilters.OverviewRows | src/app/streamlit_app.py:121-127 | kept iff gender selected and lo <= age <= hi; multiplicities kept; order preserved |
| DashboardFilters.AgeGroupOf | src/app/streamlit_app.py:255-259 | a group exists iff 0 < age <= 100, and it is bin k iff Edges[k] < age <= Edges[k+1] (right-closed) |
| DashboardFilters.ExplorerMatches | src/app/streamlit_app.py:567-572 | kept iff all five predicates hold; multiplicities kept |
| DashboardFilters.Sample | src/app/streamlit_app.py:573 | a draw without replacement gives exactly n rows forming a sub-multiset of the rows |
| DashboardFilters.ExplorerViewAsWritten | src/app/streamlit_app.py:567-573 | fails iff fewer rows match than min(sample size, table size); on success every row passes all five filters |
| DashboardFilters.ExplorerView | src/app/streamlit_app.py:567-573 | always min(sample size, matches) rows, each passing all five filters, a sub-multiset of the data |
| DashboardFilters.ExplorerSampleCounterexample | src/app/streamlit_app.py:573 | one matching row of two and sample size 200: the as-written view fails, the corrected one shows the row |

## Left out

- Streamlit and Plotly rendering: page setup, CSS, session state, mobile detection, charts, progress bars and sleeps. This is UI framework state with no logic to state.
- Random sample-data generation (streamlit_app.py:230-263, src/app/streamlit_app.py:46-56). It is NumPy randomness. The sample draw at src/app/streamlit_app.py:573 enters only as the `draw` parameter.
- CSV upload parsing, the CSV, JSON and Excel writers, and the download buttons. These are file I/O through pandas and xlsxwriter. An upload enters as its column names and rows, or as no table when `read_csv` raises.
- `data/processed/data_extraction.py`. It is a SQL query over a database connection and has no logic of its own.
- `data/tableau/tableau_preparation.py`. It is a pandas group-by aggregation with file export.
- `tests/statistical_testing.py`. It only calls SciPy's t-test and chi-square.
- String parsing in `pd.to_datetime`. Dates enter as already-valid calendar timestamps with second resolution. Sub-second precision is not modelled.
- The shape and column-list lines of `get_cleaning_report`. The report is modelled up to its header and the log lines, which is what carries the log order.
- The emoji prefixes and headings of the risk tiers. The model keeps the level and the recommendation list.
- A missing `patient_id` or `item_id` value. pandas drops such rows from the group-by, and the model treats both keys as always present.
- `detect_outliers_iqr` on other columns. The column argument ranges over the three numeric admission columns, so a `KeyError` for another absent column, or a call on a derived feature column, is not expressible.
- Missing cells in the dashboards' patient table. `PatientRecord` has no missing age, gender, stay or status, so the rows that `between` and `isin` drop for NaN cells of an uploaded CSV are not modelled.
- Absent columns in the cleaning pipeline. `Table` always has the date, `item_id` and `patient_id` columns, so the `KeyError`s they would raise are not modelled. These are `dropna(subset=...)` without a date column (data_cleaning.py:16), `groupby('item_id')` with `lab_value` but no `item_id` (:20), and `sort_values` / `groupby('patient_id')` without `patient_id` (:44, :47).
- Date parse errors. `pd.to_datetime` (data_cleaning.py:40-41) raises on unparseable values, and the model's dates are already valid timestamps.
- The top-level dashboard's explorer filter (streamlit_app.py:1043-1049). It has the same shape as the application explorer, with a BMI range in place of the lab range, and the same sample-size issue listed under Findings. It is not modelled separately.

## Findings

| source | as written | input that shows it | evidently intended | confidence | as-written member | corrected member |
|---|---|---|---|---|---|---|
| src/app/streamlit_app.py:567-573 | The sample size is capped by the length of the whole table, but the sample is drawn from the filtered rows without replacement. pandas raises `ValueError` whenever fewer rows pass the filters than that size. | 1000 rows, sample size 200, and filters that only 150 rows pass | cap the sample at the number of filtered rows | high; not executed | DashboardFilters.ExplorerViewAsWritten (shown by DashboardFilters.ExplorerSampleCounterexample) | DashboardFilters.ExplorerView |
