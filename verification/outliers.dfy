/** `detect_outliers_iqr` of `HealthcareDataCleaner`: Tukey's 1.5·IQR fence
    over the present values of one numeric column. The table is only read. */
module Outliers {
  import opened Wrappers
  import opened Seqs
  import opened Stats
  import opened Admissions

  /** The numeric columns of the admission table. */
  datatype Column = PatientIdColumn | ItemIdColumn | LabValueColumn

  /** Selecting a column that the table does not have raises a `KeyError`. */
  datatype ColumnNotFound = ColumnNotFound(column: Column)

  /** The cell of `r` in column `c`, as a float; `None` when missing. */
  function CellValue(r: Admission, c: Column): Option<real> {
    match c
    case PatientIdColumn => Some(r.patientId as real)
    case ItemIdColumn => Some(r.itemId as real)
    case LabValueColumn => r.labValue
  }

  /** The rows whose cell in column `c` holds the value `v`. */
  function PresentAs(c: Column, v: real): Admission -> bool {
    (r: Admission) => CellValue(r, c) == Some(v)
  }

  /** The present values of column `c`, in row order (what `quantile` sees):
      each value occurs as often as there are rows holding it. */
  function PresentValues(rows: seq<Admission>, c: Column): (vs: seq<real>)
    ensures |vs| == 0 <==> forall j :: 0 <= j < |rows| ==> CellValue(rows[j], c).None?
    ensures forall v :: multiset(vs)[v] == |Filter(rows, PresentAs(c, v))|
  {
    if rows == [] then []
    else
      var rest := PresentValues(rows[..|rows| - 1], c);
      match CellValue(rows[|rows| - 1], c)
      case Some(v) => rest + [v]
      case None => rest
  }

  /** The rows the fence reports: present and strictly outside `[lower, upper]`. */
  predicate Outside(r: Admission, c: Column, lower: real, upper: real) {
    CellValue(r, c).Some? && (CellValue(r, c).value < lower || CellValue(r, c).value > upper)
  }

  /** The boolean mask `(df[c] < lower) | (df[c] > upper)`. */
  function OutsideMask(c: Column, lower: real, upper: real): Admission -> bool {
    x => Outside(x, c, lower, upper)
  }

  /** `df[mask]` for the fence mask: the rows outside `[lower, upper]`, each as
      often as in `rows`, at increasing positions of `rows`. */
  function RowsOutside(rows: seq<Admission>, c: Column, lower: real, upper: real): (out: seq<Admission>)
    ensures forall x :: multiset(out)[x] == if Outside(x, c, lower, upper) then multiset(rows)[x] else 0
    ensures InRange(KeptIndices(rows, OutsideMask(c, lower, upper)), |rows|)
    ensures out == Pick(rows, KeptIndices(rows, OutsideMask(c, lower, upper)))
    ensures forall i :: 0 <= i < |out| ==> Outside(out[i], c, lower, upper)
  {
    var keep := OutsideMask(c, lower, upper);
    assert forall x :: keep(x) == Outside(x, c, lower, upper);
    FilterIsSelection(rows, keep);
    FilterCounts(rows, keep);
    var out := Filter(rows, keep);
    assert forall i :: 0 <= i < |out| ==> out[i] in out;
    out
  }

  /** What `detect_outliers_iqr` returns: the outlier rows and the two fences,
      which are NaN (`None`) when the column has no present value. */
  datatype OutlierReport = OutlierReport(outliers: seq<Admission>, fences: Option<Fences>)

  /** The outlier rows of column `c` and the fences `Q1 - 1.5·IQR` and
      `Q3 + 1.5·IQR`. With at least one present value the fences enclose the
      quartiles and lie four IQRs apart, and the outliers are exactly the rows
      whose value is strictly outside them, each as often as in the table and
      in table order; rows with a missing value are never reported. With no
      present value the fences are NaN, every comparison with them is false,
      and nothing is reported. A missing `lab_value` column is an error. */
  function DetectOutliersIqr(t: Table, c: Column): (r: Result<OutlierReport, ColumnNotFound>)
    ensures r.Failure? <==> c == LabValueColumn && !t.hasLabValue
    ensures r.Success? && |PresentValues(t.rows, c)| == 0 ==>
      r.value.fences.None? && r.value.outliers == []
    ensures r.Success? && |PresentValues(t.rows, c)| > 0 ==>
      r.value.fences.Some? &&
      var f := r.value.fences.value;
      && f.q1 == Quantile(PresentValues(t.rows, c), 0.25)
      && f.q3 == Quantile(PresentValues(t.rows, c), 0.75)
      && f.lower <= f.q1 <= f.q3 <= f.upper
      && f.upper - f.lower == 4.0 * (f.q3 - f.q1)
      && f.q1 - f.lower == 1.5 * (f.q3 - f.q1) == f.upper - f.q3
      && f == TukeyFences(PresentValues(t.rows, c))
      && r.value.outliers == RowsOutside(t.rows, c, f.lower, f.upper)
    ensures r.Success? ==> forall i :: 0 <= i < |r.value.outliers| ==> CellValue(r.value.outliers[i], c).Some?
  {
    if c == LabValueColumn && !t.hasLabValue then Failure(ColumnNotFound(c))
    else
      var vs := PresentValues(t.rows, c);
      if |vs| == 0 then Success(OutlierReport([], None))
      else
        // The source spells the second quantile call `quantilw`; the evident
        // intent is `quantile(0.75)`. In the source the whole method is also
        // nested inside `handle_missing_values`; it is modelled as a method
        // of the cleaner.
        var f := TukeyFences(vs);
        var out := RowsOutside(t.rows, c, f.lower, f.upper);
        Success(OutlierReport(out, Some(f)))
  }
}
