/** The row selections of the two dashboards: the sidebar filters of the
    overview pages, the data-explorer filter with its random sample, the
    age-group bins of the readmission chart, and the column check that guards
    replacing the session data with an uploaded table. */
module DashboardFilters {
  import opened Wrappers
  import opened Seqs

  /** One row of the dashboards' patient table. `readmitted` is the 0/1
      `readmission_30d` column of the top-level dashboard and the
      `readmission` column of the application dashboard. */
  datatype PatientRecord = PatientRecord(
    age: int,
    gender: string,
    lengthOfStay: int,
    labValue: real,
    readmitted: int)

  // ------------------------------------------- top-level dashboard filter

  /** The session filters of the top-level dashboard. */
  datatype SessionFilters = SessionFilters(genders: seq<string>, ageRange: (int, int), statuses: seq<int>)

  predicate MatchesSession(f: SessionFilters, r: PatientRecord) {
    r.gender in f.genders && f.ageRange.0 <= r.age <= f.ageRange.1 && r.readmitted in f.statuses
  }

  function SessionMask(f: SessionFilters): PatientRecord -> bool {
    r => MatchesSession(f, r)
  }

  /** `show_dashboard`'s filtered table: exactly the rows whose gender and
      readmission status are selected and whose age is within the inclusive
      range, each as often as in the data, in data order. */
  function DashboardRows(data: seq<PatientRecord>, f: SessionFilters): (r: seq<PatientRecord>)
    ensures forall x :: multiset(r)[x] == if MatchesSession(f, x) then multiset(data)[x] else 0
    ensures InRange(KeptIndices(data, SessionMask(f)), |data|)
    ensures r == Pick(data, KeptIndices(data, SessionMask(f)))
  {
    var keep := SessionMask(f);
    assert forall x :: keep(x) == MatchesSession(f, x);
    FilterCounts(data, keep);
    FilterIsSelection(data, keep);
    Filter(data, keep)
  }

  // ------------------------------------------ application dashboard filter

  /** The sidebar filters of the application dashboard. */
  datatype SidebarFilters = SidebarFilters(genders: seq<string>, ageRange: (int, int))

  predicate MatchesSidebar(f: SidebarFilters, r: PatientRecord) {
    r.gender in f.genders && f.ageRange.0 <= r.age <= f.ageRange.1
  }

  function SidebarMask(f: SidebarFilters): PatientRecord -> bool {
    r => MatchesSidebar(f, r)
  }

  /** The application dashboard's filtered table: exactly the rows whose
      gender is selected and whose age is within the inclusive range, each as
      often as in the data, in data order. */
  function OverviewRows(data: seq<PatientRecord>, f: SidebarFilters): (r: seq<PatientRecord>)
    ensures forall x :: multiset(r)[x] == if MatchesSidebar(f, x) then multiset(data)[x] else 0
    ensures InRange(KeptIndices(data, SidebarMask(f)), |data|)
    ensures r == Pick(data, KeptIndices(data, SidebarMask(f)))
  {
    var keep := SidebarMask(f);
    assert forall x :: keep(x) == MatchesSidebar(f, x);
    FilterCounts(data, keep);
    FilterIsSelection(data, keep);
    Filter(data, keep)
  }

  // ------------------------------------------------------------- age bins

  /** The labels of `pd.cut(age, bins=[0, 30, 50, 65, 80, 100])`. */
  datatype AgeGroup = Upto30 | From31To50 | From51To65 | From66To80 | Over80

  /** The bin edges; bin `k` is the right-closed interval `(Edges[k], Edges[k + 1]]`. */
  const Edges: seq<int> := [0, 30, 50, 65, 80, 100]

  function GroupOfBin(k: nat): AgeGroup
    requires k < 5
  {
    [Upto30, From31To50, From51To65, From66To80, Over80][k]
  }

  /** The age group of `age`, missing (NaN) outside `(0, 100]`. */
  function AgeGroupOf(age: int): (g: Option<AgeGroup>)
    ensures g.Some? <==> 0 < age <= 100
    ensures forall k :: 0 <= k < 5 ==> (g == Some(GroupOfBin(k)) <==> Edges[k] < age <= Edges[k + 1])
  {
    if age <= 0 || age > 100 then None
    else if age <= 30 then Some(Upto30)
    else if age <= 50 then Some(From31To50)
    else if age <= 65 then Some(From51To65)
    else if age <= 80 then Some(From66To80)
    else Some(Over80)
  }

  // ------------------------------------------------------- data explorer

  /** The five advanced filters of the data explorer. */
  datatype ExplorerFilters = ExplorerFilters(
    genders: seq<string>,
    ageRange: (int, int),
    stayRange: (int, int),
    labRange: (real, real),
    statuses: seq<int>)

  predicate MatchesExplorer(f: ExplorerFilters, r: PatientRecord) {
    && r.gender in f.genders
    && f.ageRange.0 <= r.age <= f.ageRange.1
    && f.stayRange.0 <= r.lengthOfStay <= f.stayRange.1
    && f.labRange.0 <= r.labValue <= f.labRange.1
    && r.readmitted in f.statuses
  }

  function ExplorerMask(f: ExplorerFilters): PatientRecord -> bool {
    r => MatchesExplorer(f, r)
  }

  /** The explorer's boolean-mask selection, before sampling. */
  function ExplorerMatches(data: seq<PatientRecord>, f: ExplorerFilters): (r: seq<PatientRecord>)
    ensures forall x :: multiset(r)[x] == if MatchesExplorer(f, x) then multiset(data)[x] else 0
    ensures forall i :: 0 <= i < |r| ==> MatchesExplorer(f, r[i])
  {
    var keep := ExplorerMask(f);
    assert forall x :: keep(x) == MatchesExplorer(f, x);
    FilterCounts(data, keep);
    var r := Filter(data, keep);
    assert forall i :: 0 <= i < |r| ==> r[i] in r;
    r
  }

  /** A random draw without replacement over `n` rows: an ordering of all
      their positions, as the random generator produces it. */
  predicate IsDraw(draw: seq<nat>, n: nat) {
    |draw| == n && InRange(draw, n) && Distinct(draw)
  }

  /** `sample(n)` without replacement driven by `draw`: the first `n` drawn rows. */
  function Sample(rows: seq<PatientRecord>, n: nat, draw: seq<nat>): (r: seq<PatientRecord>)
    requires IsDraw(draw, |rows|) && n <= |rows|
    ensures |r| == n
    ensures multiset(r) <= multiset(rows)
  {
    assert InRange(draw[..n], |rows|) && Distinct(draw[..n]);
    PickDistinctIsSubMultiset(rows, draw[..n]);
    Pick(rows, draw[..n])
  }

  /** pandas refuses to sample more rows than there are without replacement. */
  datatype SampleError = SampleLargerThanPopulation(requested: nat, available: nat)

  /** The explorer view as written: it requests `min(sample_size, len(data))`
      rows, counting the whole table, from the filtered rows; the request
      fails whenever fewer rows pass the filters than that. */
  function ExplorerViewAsWritten(data: seq<PatientRecord>, f: ExplorerFilters, sampleSize: nat, draw: seq<nat>)
    : (r: Result<seq<PatientRecord>, SampleError>)
    requires IsDraw(draw, |ExplorerMatches(data, f)|)
    ensures r.Failure? <==> |ExplorerMatches(data, f)| < (if sampleSize <= |data| then sampleSize else |data|)
    ensures r.Success? ==> forall i :: 0 <= i < |r.value| ==> MatchesExplorer(f, r.value[i])
  {
    var matches := ExplorerMatches(data, f);
    var n := if sampleSize <= |data| then sampleSize else |data|;
    if n > |matches| then Failure(SampleLargerThanPopulation(n, |matches|))
    else
      var rows := Sample(matches, n, draw);
      assert forall i :: 0 <= i < |rows| ==> rows[i] in multiset(matches);
      Success(rows)
  }

  /** The explorer view as evidently intended: at most `sample_size` of the
      filtered rows. It always succeeds; every shown row passes all five
      filters, no row is shown more often than the data holds it, and exactly
      `min(sample_size, matches)` rows are shown. */
  function ExplorerView(data: seq<PatientRecord>, f: ExplorerFilters, sampleSize: nat, draw: seq<nat>)
    : (r: seq<PatientRecord>)
    requires IsDraw(draw, |ExplorerMatches(data, f)|)
    ensures |r| == if sampleSize <= |ExplorerMatches(data, f)| then sampleSize else |ExplorerMatches(data, f)|
    ensures forall i :: 0 <= i < |r| ==> MatchesExplorer(f, r[i])
    ensures multiset(r) <= multiset(data)
  {
    var matches := ExplorerMatches(data, f);
    var n := if sampleSize <= |matches| then sampleSize else |matches|;
    var rows := Sample(matches, n, draw);
    SampleOfMatches(data, f, rows);
    rows
  }

  /** Rows drawn from the explorer's matches pass the filters and are rows
      of the data. */
  lemma SampleOfMatches(data: seq<PatientRecord>, f: ExplorerFilters, rows: seq<PatientRecord>)
    requires multiset(rows) <= multiset(ExplorerMatches(data, f))
    ensures forall i :: 0 <= i < |rows| ==> MatchesExplorer(f, rows[i])
    ensures multiset(rows) <= multiset(data)
  {
    var matches := ExplorerMatches(data, f);
    assert forall i :: 0 <= i < |rows| ==> rows[i] in multiset(matches);
    assert multiset(matches) <= multiset(data);
  }

  /** A two-row table where one row passes the filters: the explorer as
      written asks for two rows of the one that passes and fails, while the
      corrected view shows that one row. */
  lemma ExplorerSampleCounterexample()
    ensures var data := [PatientRecord(40, "Male", 5, 100.0, 0), PatientRecord(40, "Female", 5, 100.0, 0)];
      var f := ExplorerFilters(["Male"], (30, 70), (1, 14), (0.0, 200.0), [0, 1]);
      ExplorerMatches(data, f) == [data[0]]
      && ExplorerViewAsWritten(data, f, 200, [0]).Failure?
      && ExplorerView(data, f, 200, [0]) == [data[0]]
  {
    var data := [PatientRecord(40, "Male", 5, 100.0, 0), PatientRecord(40, "Female", 5, 100.0, 0)];
    var f := ExplorerFilters(["Male"], (30, 70), (1, 14), (0.0, 200.0), [0, 1]);
    assert MatchesExplorer(f, data[0]) && !MatchesExplorer(f, data[1]);
    assert data[..1][..0] == [];
    assert Filter(data[..1], ExplorerMask(f)) == [data[0]];
    assert Filter(data, ExplorerMask(f)) == [data[0]];
  }

  // ---------------------------------------------------------------- upload

  /** The session table as the upload check sees it: its column names and
      its rows. */
  datatype Frame = Frame(columns: seq<string>, rows: seq<PatientRecord>)

  /** The columns the dashboards' filters and charts read. */
  const RequiredColumns: seq<string> := ["age", "gender", "length_of_stay", "readmission_30d"]

  predicate HasRequiredColumns(columns: seq<string>) {
    forall c :: c in RequiredColumns ==> c in columns
  }

  /** The columns of the generated sample table the session starts with. */
  const SampleColumns: seq<string> := [
    "patient_id", "admission_date", "age", "gender", "length_of_stay",
    "blood_pressure_sys", "blood_pressure_dia", "cholesterol", "bmi", "diabetes",
    "hypertension", "previous_admissions", "lab_result", "readmission_30d",
    "admission_month", "admission_day", "discharge_date"]

  /** The session table after one upload. `uploaded` is `None` when the file
      could not be read as CSV (the error is shown and nothing changes). A
      readable table replaces the session data exactly when it has every
      required column. The session table afterwards has the required columns
      exactly when the old one or the upload had them. */
  function AfterUpload(current: Frame, uploaded: Option<Frame>): (r: Frame)
    ensures uploaded.Some? && HasRequiredColumns(uploaded.value.columns) ==> r == uploaded.value
    ensures !(uploaded.Some? && HasRequiredColumns(uploaded.value.columns)) ==> r == current
    ensures HasRequiredColumns(r.columns) <==>
      HasRequiredColumns(current.columns) || (uploaded.Some? && HasRequiredColumns(uploaded.value.columns))
  {
    if uploaded.Some? && HasRequiredColumns(uploaded.value.columns) then uploaded.value else current
  }

  /** The session table after a series of uploads, in order. */
  function AfterUploads(current: Frame, uploads: seq<Option<Frame>>): Frame
    decreases |uploads|
  {
    if uploads == [] then current
    else AfterUploads(AfterUpload(current, uploads[0]), uploads[1..])
  }

  /** The upload check keeps the filters' columns: a session that starts with
      the required columns has them after any series of uploads. */
  lemma {:induction false} UploadsKeepRequiredColumns(current: Frame, uploads: seq<Option<Frame>>)
    requires HasRequiredColumns(current.columns)
    ensures HasRequiredColumns(AfterUploads(current, uploads).columns)
    decreases |uploads|
  {
    if uploads != [] {
      UploadsKeepRequiredColumns(AfterUpload(current, uploads[0]), uploads[1..]);
    }
  }

  /** Starting from the generated sample table, the session data always has
      the columns the filters read, whatever is uploaded. */
  lemma SessionAlwaysHasRequiredColumns(rows: seq<PatientRecord>, uploads: seq<Option<Frame>>)
    ensures HasRequiredColumns(AfterUploads(Frame(SampleColumns, rows), uploads).columns)
  {
    assert SampleColumns[2] == "age" && SampleColumns[3] == "gender";
    assert SampleColumns[4] == "length_of_stay" && SampleColumns[13] == "readmission_30d";
    UploadsKeepRequiredColumns(Frame(SampleColumns, rows), uploads);
  }
}
