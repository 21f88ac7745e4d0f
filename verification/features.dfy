/** `create_feature` of `HealthcareDataCleaner`: sort the admissions by
    patient and admission date, attach each admission's next admission of the
    same patient, the whole days from discharge to it, the 30-day readmission
    target and the calendar features of the admission date. */
module Features {
  import opened Wrappers
  import opened Seqs
  import opened Calendar
  import opened CleaningLog
  import opened Admissions

  // ---------------------------------------------------------------- sorting

  /** The sort key `(patient_id, admission_date)`; a missing admission date
      (NaT) sorts after every present one, pandas' `na_position='last'`. */
  datatype SortKey = SortKey(patientId: int, admission: Option<int>)

  function KeyOf(r: Admission): SortKey {
    SortKey(r.patientId, if r.admissionDate.Some? then Some(EpochSeconds(r.admissionDate.value)) else None)
  }

  predicate AdmissionLe(a: Option<int>, b: Option<int>) {
    b.None? || (a.Some? && a.value <= b.value)
  }

  /** Ascending lexicographic order on sort keys. */
  predicate KeyLe(a: SortKey, b: SortKey) {
    a.patientId < b.patientId || (a.patientId == b.patientId && AdmissionLe(a.admission, b.admission))
  }

  predicate SortedByKey(rows: seq<Admission>) {
    forall i, j :: 0 <= i <= j < |rows| ==> KeyLe(KeyOf(rows[i]), KeyOf(rows[j]))
  }

  /** `x` placed after every row whose key is at most its own. */
  function InsertRow(x: Admission, rows: seq<Admission>): (r: seq<Admission>)
    requires SortedByKey(rows)
    ensures SortedByKey(r)
    ensures multiset(r) == multiset(rows) + multiset{x}
    ensures |r| == |rows| + 1
  {
    if rows == [] then [x]
    else
      var init, last := rows[..|rows| - 1], rows[|rows| - 1];
      assert rows == init + [last];
      if KeyLe(KeyOf(last), KeyOf(x)) then rows + [x]
      else
        var r := InsertRow(x, init) + [last];
        forall i | 0 <= i < |r| - 1 ensures KeyLe(KeyOf(r[i]), KeyOf(last)) {
          assert r[i] in multiset(InsertRow(x, init));
          assert r[i] == x || r[i] in multiset(init);
        }
        r
  }

  /** `sort_values(['patient_id', 'admission_date'])`: a stable sort, so rows
      with equal keys keep their input order (pandas sorts on several keys
      with a stable lexicographic sort). */
  function SortRows(rows: seq<Admission>): (r: seq<Admission>)
    ensures SortedByKey(r)
    ensures multiset(r) == multiset(rows)
    ensures |r| == |rows|
  {
    if rows == [] then []
    else
      assert rows == rows[..|rows| - 1] + [rows[|rows| - 1]];
      InsertRow(rows[|rows| - 1], SortRows(rows[..|rows| - 1]))
  }

  /** Inserting `x` keeps every key class in order and puts `x` last in its own. */
  lemma {:induction false} InsertRowKeepsKeyClasses(x: Admission, rows: seq<Admission>, k: SortKey, p: Admission -> bool)
    requires SortedByKey(rows)
    requires forall y :: p(y) <==> KeyOf(y) == k
    ensures Filter(InsertRow(x, rows), p) == Filter(rows, p) + Filter([x], p)
  {
    if rows == [] {
      assert [x] == [] + [x];
      FilterAppend([], [x], p);
    } else {
      var init, last := rows[..|rows| - 1], rows[|rows| - 1];
      if KeyLe(KeyOf(last), KeyOf(x)) {
        FilterAppend(rows, [x], p);
      } else {
        InsertRowKeepsKeyClasses(x, init, k, p);
        assert InsertRow(x, rows) == InsertRow(x, init) + [last];
        assert !(p(x) && p(last));
        FilterPastOther(InsertRow(x, init), init, x, last, p);
      }
    }
  }

  /** The sort is stable: for every key, the rows with that key appear in the
      sorted table in the same order as in the input. */
  lemma {:induction false} SortRowsIsStable(rows: seq<Admission>, k: SortKey, p: Admission -> bool)
    requires forall y :: p(y) <==> KeyOf(y) == k
    ensures Filter(SortRows(rows), p) == Filter(rows, p)
  {
    if rows != [] {
      var init, last := rows[..|rows| - 1], rows[|rows| - 1];
      var sortedInit := SortRows(init);
      assert Filter(sortedInit, p) == Filter(init, p) by {
        SortRowsIsStable(init, k, p);
      }
      assert Filter(InsertRow(last, sortedInit), p) == Filter(sortedInit, p) + Filter([last], p) by {
        InsertRowKeepsKeyClasses(last, sortedInit, k, p);
      }
      assert Filter(rows, p) == Filter(init, p) + Filter([last], p) by {
        assert rows == init + [last];
        FilterAppend(init, [last], p);
      }
      assert SortRows(rows) == InsertRow(last, sortedInit);
    }
  }

  // -------------------------------------------------------- next admission

  /** The position of the first row at or after `j` belonging to patient `pid`. */
  function NextRowOf(rows: seq<Admission>, pid: int, j: nat): (k: Option<nat>)
    ensures k.Some? ==> (j <= k.value < |rows| && rows[k.value].patientId == pid
      && forall l :: j <= l < k.value ==> rows[l].patientId != pid)
    ensures k.None? ==> forall l :: j <= l < |rows| ==> rows[l].patientId != pid
    decreases |rows| - j
  {
    if j >= |rows| then None
    else if rows[j].patientId == pid then Some(j)
    else NextRowOf(rows, pid, j + 1)
  }

  /** `groupby('patient_id')['admission_date'].shift(-1)` at row `i`: the
      admission date of the next row of the same patient, missing when row
      `i` is that patient's last. */
  function NextAdmissionDate(rows: seq<Admission>, i: nat): Option<Timestamp>
    requires i < |rows|
  {
    match NextRowOf(rows, rows[i].patientId, i + 1)
    case Some(k) => rows[k].admissionDate
    case None => None
  }

  /** In a table sorted by patient, the group shift is the next row: the next
      admission of row `i` is row `i + 1`'s admission date when that row has
      the same patient, and missing otherwise. */
  lemma NextAdmissionIsAdjacent(rows: seq<Admission>, i: nat)
    requires SortedByKey(rows) && i < |rows|
    ensures NextAdmissionDate(rows, i) ==
      if i + 1 < |rows| && rows[i + 1].patientId == rows[i].patientId then rows[i + 1].admissionDate else None
  {
    if i + 1 < |rows| && rows[i + 1].patientId != rows[i].patientId {
      forall l | i + 1 <= l < |rows| ensures rows[l].patientId != rows[i].patientId {
        assert KeyLe(KeyOf(rows[i]), KeyOf(rows[i + 1])) && KeyLe(KeyOf(rows[i + 1]), KeyOf(rows[l]));
      }
    }
  }

  // ----------------------------------------------------------- the target

  /** `(next_admission_date - discharge_date).dt.days`: whole days, rounded
      toward minus infinity, and missing when either date is missing. */
  function DaysToReadmit(next: Option<Timestamp>, discharge: Option<Timestamp>): (d: Option<int>)
    ensures d.Some? <==> next.Some? && discharge.Some?
    ensures d.Some? ==>
      (d.value * SecondsPerDay <= EpochSeconds(next.value) - EpochSeconds(discharge.value) < (d.value + 1) * SecondsPerDay)
  {
    if next.Some? && discharge.Some? then Some(WholeDaysBetween(discharge.value, next.value)) else None
  }

  /** `(days_to_readmit <= 30).astype(int)`: a missing gap compares false. */
  function ReadmissionLabel(days: Option<int>): (flag: int)
    ensures flag == 0 || flag == 1
    ensures flag == 1 <==> days.Some? && days.value <= 30
  {
    if days.Some? && days.value <= 30 then 1 else 0
  }

  /** A sorted admission with its derived columns. */
  datatype FeatureRow = FeatureRow(
    admission: Admission,
    nextAdmissionDate: Option<Timestamp>,
    daysToReadmit: Option<int>,
    readmission30d: int,
    admissionMonth: Option<int>,
    admissionDayOfWeek: Option<int>,
    admissionHour: Option<int>)

  /** The derived columns of row `i` of the sorted table. */
  function DeriveRow(sorted: seq<Admission>, i: nat): FeatureRow
    requires i < |sorted|
  {
    var r := sorted[i];
    var next := NextAdmissionDate(sorted, i);
    var days := DaysToReadmit(next, r.dischargeDate);
    var adm := r.admissionDate;
    FeatureRow(r, next, days, ReadmissionLabel(days),
      if adm.Some? then Some(adm.value.month) else None,
      if adm.Some? then Some(DayOfWeek(adm.value)) else None,
      if adm.Some? then Some(adm.value.hour) else None)
  }

  /** The cleaner after `create_feature`: the feature table and the log. */
  datatype Featured = Featured(rows: seq<FeatureRow>, log: seq<LogEntry>)

  /** The admissions underlying a feature table. */
  function BaseRows(rows: seq<FeatureRow>): (r: seq<Admission>)
    ensures |r| == |rows| && forall i :: 0 <= i < |rows| ==> r[i] == rows[i].admission
  {
    seq(|rows|, i requires 0 <= i < |rows| => rows[i].admission)
  }

  /** The feature rows of a sorted table, one per row, in its order. */
  function DeriveRows(sorted: seq<Admission>): (rows: seq<FeatureRow>)
    requires SortedByKey(sorted)
    ensures BaseRows(rows) == sorted
    ensures forall i :: 0 <= i < |rows| ==>
      (rows[i].nextAdmissionDate ==
        if i + 1 < |rows| && rows[i + 1].admission.patientId == rows[i].admission.patientId
        then rows[i + 1].admission.admissionDate else None)
    ensures forall i :: 0 <= i < |rows| ==>
      var f := rows[i];
      && (f.daysToReadmit.Some? <==> f.nextAdmissionDate.Some? && f.admission.dischargeDate.Some?)
      && (f.daysToReadmit.Some? ==> f.daysToReadmit.value == WholeDaysBetween(f.admission.dischargeDate.value, f.nextAdmissionDate.value))
      && (f.readmission30d == 0 || f.readmission30d == 1)
      && (f.readmission30d == 1 <==> f.daysToReadmit.Some? && f.daysToReadmit.value <= 30)
    ensures forall i :: 0 <= i < |rows| ==>
      var f := rows[i];
      var adm := f.admission.admissionDate;
      && f.admissionMonth == (if adm.Some? then Some(adm.value.month) else None)
      && f.admissionDayOfWeek == (if adm.Some? then Some(DayOfWeek(adm.value)) else None)
      && f.admissionHour == (if adm.Some? then Some(adm.value.hour) else None)
    ensures forall i :: 0 <= i < |rows| ==>
      var f := rows[i];
      && (f.admissionMonth.Some? ==> 1 <= f.admissionMonth.value <= 12)
      && (f.admissionDayOfWeek.Some? ==> 0 <= f.admissionDayOfWeek.value <= 6)
      && (f.admissionHour.Some? ==> 0 <= f.admissionHour.value <= 23)
  {
    // The source splits `groupby('patient_id')` and `['admission_date'].shift(-1)`
    // over two statements; the evident intent is the single shifted column.
    var rows := seq(|sorted|, i requires 0 <= i < |sorted| => DeriveRow(sorted, i));
    assert BaseRows(rows) == sorted;
    forall i | 0 <= i < |sorted| {
      NextAdmissionIsAdjacent(sorted, i);
    }
    rows
  }

  /** `create_feature`. The rows are a permutation of the cleaner's rows in
      `(patient_id, admission_date)` order. Each row's next admission is the
      following row's admission date when that row is the same patient's; its
      gap is the floor of the days from discharge to it; its target is 1
      exactly when that gap exists and is at most 30 days; its month, day of
      week (Monday = 0) and hour are those of its admission date. One log
      entry is appended. */
  function CreateFeatures(c: Cleaner): (r: Featured)
    ensures |r.rows| == |c.table.rows|
    ensures multiset(BaseRows(r.rows)) == multiset(c.table.rows)
    ensures SortedByKey(BaseRows(r.rows))
    ensures BaseRows(r.rows) == SortRows(c.table.rows)
    ensures forall i :: 0 <= i < |r.rows| ==>
      (r.rows[i].nextAdmissionDate ==
        if i + 1 < |r.rows| && r.rows[i + 1].admission.patientId == r.rows[i].admission.patientId
        then r.rows[i + 1].admission.admissionDate else None)
    ensures forall i :: 0 <= i < |r.rows| ==>
      var f := r.rows[i];
      && (f.daysToReadmit.Some? <==> f.nextAdmissionDate.Some? && f.admission.dischargeDate.Some?)
      && (f.daysToReadmit.Some? ==> f.daysToReadmit.value == WholeDaysBetween(f.admission.dischargeDate.value, f.nextAdmissionDate.value))
      && (f.readmission30d == 0 || f.readmission30d == 1)
      && (f.readmission30d == 1 <==> f.daysToReadmit.Some? && f.daysToReadmit.value <= 30)
    ensures forall i :: 0 <= i < |r.rows| ==>
      var f := r.rows[i];
      var adm := f.admission.admissionDate;
      && f.admissionMonth == (if adm.Some? then Some(adm.value.month) else None)
      && f.admissionDayOfWeek == (if adm.Some? then Some(DayOfWeek(adm.value)) else None)
      && f.admissionHour == (if adm.Some? then Some(adm.value.hour) else None)
    ensures forall i :: 0 <= i < |r.rows| ==>
      var f := r.rows[i];
      && (f.admissionMonth.Some? ==> 1 <= f.admissionMonth.value <= 12)
      && (f.admissionDayOfWeek.Some? ==> 0 <= f.admissionDayOfWeek.value <= 6)
      && (f.admissionHour.Some? ==> 0 <= f.admissionHour.value <= 23)
    ensures r.log == c.log + [CreatedFeatures]
  {
    // The source converts `dsicharge_date` (a misspelt column) in the second
    // `pd.to_datetime` call; the evident intent is `discharge_date`. Dates are
    // already timestamps here, so the conversion leaves them as they are. The
    // method is nested inside `handle_missing_values` in the source and is
    // modelled as a method of the cleaner.
    var sorted := SortRows(c.table.rows);
    Featured(DeriveRows(sorted), c.log + [CreatedFeatures])
  }

  // ------------------------------------------------------------ consequences

  /** The feature table lists the admissions of each `(patient_id,
      admission_date)` key in their input order, so ties between admissions
      of the same patient on the same date keep the table's order. */
  lemma FeatureRowsKeepKeyOrder(c: Cleaner, k: SortKey, p: Admission -> bool)
    requires forall y :: p(y) <==> KeyOf(y) == k
    ensures Filter(BaseRows(CreateFeatures(c).rows), p) == Filter(c.table.rows, p)
  {
    SortRowsIsStable(c.table.rows, k, p);
  }

  /** A patient's last admission is never a readmission: it has no next
      admission, no gap, and target 0. */
  lemma LastAdmissionIsNotReadmitted(c: Cleaner, i: nat)
    requires i < |CreateFeatures(c).rows|
    requires var rows := CreateFeatures(c).rows;
      forall j :: i < j < |rows| ==> rows[j].admission.patientId != rows[i].admission.patientId
    ensures var f := CreateFeatures(c).rows[i];
      f.nextAdmissionDate.None? && f.daysToReadmit.None? && f.readmission30d == 0
  {
    var rows := CreateFeatures(c).rows;
    if i + 1 < |rows| {
      assert rows[i + 1].admission.patientId != rows[i].admission.patientId;
    }
  }

  /** An overlapping stay, a next admission before the discharge, yields a
      negative gap and is labelled a readmission. */
  lemma NegativeGapIsReadmission(next: Timestamp, discharge: Timestamp)
    requires EpochSeconds(next) < EpochSeconds(discharge)
    ensures var d := DaysToReadmit(Some(next), Some(discharge));
      d.Some? && d.value < 0 && ReadmissionLabel(d) == 1
  {
  }

  lemma ExampleDayNumbers()
    ensures DayNumber(DateTime(2023, 2, 10, 0, 0, 0)) == 19398
    ensures DayNumber(DateTime(2023, 2, 28, 0, 0, 0)) == 19416
    ensures DayNumber(DateTime(2023, 4, 1, 0, 0, 0)) == 19448
  {
  }

  /** The 30-day rule at known dates: discharged 2023-02-10, the next
      admission on 2023-02-28 is 18 days later and a readmission; one on
      2023-04-01 is 50 days later and is not. */
  lemma ThirtyDayRuleExamples()
    ensures var discharge := DateTime(2023, 2, 10, 0, 0, 0);
      var soon := DaysToReadmit(Some(DateTime(2023, 2, 28, 0, 0, 0)), Some(discharge));
      var late := DaysToReadmit(Some(DateTime(2023, 4, 1, 0, 0, 0)), Some(discharge));
      soon == Some(18) && ReadmissionLabel(soon) == 1 && late == Some(50) && ReadmissionLabel(late) == 0
  {
    ExampleDayNumbers();
    var discharge: Timestamp := DateTime(2023, 2, 10, 0, 0, 0);
    var soon: Timestamp := DateTime(2023, 2, 28, 0, 0, 0);
    var late: Timestamp := DateTime(2023, 4, 1, 0, 0, 0);
    assert EpochSeconds(discharge) == 19398 * 86400;
    assert EpochSeconds(soon) == 19416 * 86400;
    assert EpochSeconds(late) == 19448 * 86400;
    assert WholeDaysBetween(discharge, soon) == 18;
    assert WholeDaysBetween(discharge, late) == 50;
  }

  /** When every input row has both dates, so does every feature row, and its
      calendar features are all present. */
  lemma FeaturesKeepDates(c: Cleaner)
    requires forall j :: 0 <= j < |c.table.rows| ==> HasBothDates(c.table.rows[j])
    ensures var rows := CreateFeatures(c).rows;
      forall i :: 0 <= i < |rows| ==>
        HasBothDates(rows[i].admission) && rows[i].admissionMonth.Some?
        && rows[i].admissionDayOfWeek.Some? && rows[i].admissionHour.Some?
  {
    var r := CreateFeatures(c);
    var base := BaseRows(r.rows);
    forall i | 0 <= i < |r.rows|
      ensures HasBothDates(r.rows[i].admission)
    {
      assert base[i] in multiset(c.table.rows);
      var j :| 0 <= j < |c.table.rows| && c.table.rows[j] == base[i];
    }
  }

  /** The whole cleaning run, `handle_missing_values` then `create_feature`
      on a fresh cleaner: every row has both dates and so all its calendar
      features. */
  lemma CleaningRunFeatures(t: Table)
    ensures |CreateFeatures(HandleMissingValues(NewCleaner(t))).rows| == |DropMissingDates(t.rows)|
    ensures multiset(BaseRows(CreateFeatures(HandleMissingValues(NewCleaner(t))).rows))
      == multiset(HandleMissingValues(NewCleaner(t)).table.rows)
    ensures var rows := CreateFeatures(HandleMissingValues(NewCleaner(t))).rows;
      forall i :: 0 <= i < |rows| ==>
        HasBothDates(rows[i].admission) && rows[i].admissionMonth.Some?
        && rows[i].admissionDayOfWeek.Some? && rows[i].admissionHour.Some?
  {
    var c := HandleMissingValues(NewCleaner(t));
    assert forall j :: 0 <= j < |c.table.rows| ==> HasBothDates(c.table.rows[j]);
    FeaturesKeepDates(c);
  }

  /** The log of the whole cleaning run holds the dropped-row count, then the
      feature entry. */
  lemma CleaningRunLog(t: Table)
    ensures CreateFeatures(HandleMissingValues(NewCleaner(t))).log
      == [DroppedRows(|t.rows| - |DropMissingDates(t.rows)|), CreatedFeatures]
  {
    var c := HandleMissingValues(NewCleaner(t));
    assert c.log == [DroppedRows(|t.rows| - |DropMissingDates(t.rows)|)];
  }
}
