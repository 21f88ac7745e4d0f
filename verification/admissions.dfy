/** The admission table and the first stage of `HealthcareDataCleaner`
    (data/processed/data_cleaning.py): dropping rows without admission or
    discharge dates and imputing missing lab values with the median of their
    lab-test group. */
module Admissions {
  import opened Wrappers
  import opened Seqs
  import opened Stats
  import opened Calendar
  import opened CleaningLog

  /** One admission row. A `None` cell is a missing (NaN / NaT) value. */
  datatype Admission = Admission(
    patientId: int,
    admissionDate: Option<Timestamp>,
    dischargeDate: Option<Timestamp>,
    itemId: int,               // the lab test the lab value belongs to
    labValue: Option<real>)

  /** The working table: its rows, and whether it has a `lab_value` column at all. */
  datatype Table = Table(hasLabValue: bool, rows: seq<Admission>)

  /** The cleaner: its own copy of the table and the audit log. */
  datatype Cleaner = Cleaner(table: Table, log: seq<LogEntry>)

  /** A fresh cleaner over `t`, with an empty log. */
  function NewCleaner(t: Table): Cleaner {
    Cleaner(t, [])
  }

  /** Both dates of the row are present. */
  predicate HasBothDates(r: Admission) {
    r.admissionDate.Some? && r.dischargeDate.Some?
  }

  /** At least one of the dates of the row is missing. */
  predicate LacksADate(r: Admission) {
    !HasBothDates(r)
  }

  /** `dropna(subset=['admission_date', 'discharge_date'])`: exactly the rows
      with both dates, each as often as in the input, in input order (the
      rows at the increasing positions of the rows that have both dates). */
  function DropMissingDates(rows: seq<Admission>): (r: seq<Admission>)
    ensures forall x :: multiset(r)[x] == if HasBothDates(x) then multiset(rows)[x] else 0
    ensures forall i :: 0 <= i < |r| ==> HasBothDates(r[i])
    ensures InRange(KeptIndices(rows, HasBothDates), |rows|)
    ensures r == Pick(rows, KeptIndices(rows, HasBothDates))
  {
    FilterIsSelection(rows, HasBothDates);
    FilterCounts(rows, HasBothDates);
    var r := Filter(rows, HasBothDates);
    assert forall i :: 0 <= i < |r| ==> r[i] in r;
    r
  }

  /** The rows of lab test `item` whose observed lab value is `v`. */
  function ObservedAs(item: int, v: real): Admission -> bool {
    (r: Admission) => r.itemId == item && r.labValue == Some(v)
  }

  /** The observed (non-missing) lab values of test `item`, in row order:
      each value occurs as often as there are rows of that test observing it. */
  function ObservedLabValues(rows: seq<Admission>, item: int): (vs: seq<real>)
    ensures |vs| == 0 <==> forall j :: 0 <= j < |rows| && rows[j].itemId == item ==> rows[j].labValue.None?
    ensures forall v :: multiset(vs)[v] == |Filter(rows, ObservedAs(item, v))|
  {
    if rows == [] then []
    else
      var last := rows[|rows| - 1];
      var rest := ObservedLabValues(rows[..|rows| - 1], item);
      if last.itemId == item && last.labValue.Some? then rest + [last.labValue.value] else rest
  }

  /** `groupby('item_id')['lab_value'].median()` for one group: missing when
      the group has no observed value. */
  function GroupMedian(rows: seq<Admission>, item: int): (m: Option<real>)
    ensures m.None? <==> |ObservedLabValues(rows, item)| == 0
    ensures m.Some? ==> m.value == Median(ObservedLabValues(rows, item))
  {
    var vs := ObservedLabValues(rows, item);
    if |vs| == 0 then None else Some(Median(vs))
  }

  /** The lab value of row `r` after imputation: kept when observed, else the
      median of its group (still missing when that group has no observation). */
  function ImputedRow(rows: seq<Admission>, r: Admission): Admission {
    if r.labValue.Some? then r else r.(labValue := GroupMedian(rows, r.itemId))
  }

  /** `transform(lambda x: x.fillna(x.median()))` over the `item_id` groups.
      Observed values and every other field are untouched; a missing value
      becomes its group's median, and stays missing exactly when no row of
      its group has an observed value. */
  function ImputeLabValues(rows: seq<Admission>): (r: seq<Admission>)
    ensures |r| == |rows|
    ensures forall i :: 0 <= i < |rows| ==> r[i].(labValue := rows[i].labValue) == rows[i]
    ensures forall i :: 0 <= i < |rows| && rows[i].labValue.Some? ==> r[i] == rows[i]
    ensures forall i :: 0 <= i < |rows| && rows[i].labValue.None? ==>
      r[i].labValue == GroupMedian(rows, rows[i].itemId)
    ensures forall i :: 0 <= i < |rows| ==>
      (r[i].labValue.None? <==>
        forall j :: 0 <= j < |rows| && rows[j].itemId == rows[i].itemId ==> rows[j].labValue.None?)
  {
    seq(|rows|, i requires 0 <= i < |rows| => ImputedRow(rows, rows[i]))
  }

  /** Imputation is idempotent: on its own output it changes nothing, since
      the only values left missing belong to groups with no observation. */
  lemma {:induction false} ImputeIdempotent(rows: seq<Admission>)
    ensures ImputeLabValues(ImputeLabValues(rows)) == ImputeLabValues(rows)
  {
    var r := ImputeLabValues(rows);
    var r2 := ImputeLabValues(r);
    forall i | 0 <= i < |r| ensures r2[i] == r[i] {
      if r[i].labValue.None? {
        var g := r[i].itemId;
        assert rows[i].itemId == g;
        forall j | 0 <= j < |r| && r[j].itemId == g ensures r[j].labValue.None? {
          assert rows[j].itemId == g;
        }
      }
    }
  }

  /** `handle_missing_values`: drop the rows missing a date, impute the lab
      values when the table has that column, and log how many rows were
      dropped. The output rows are the kept rows, in order, with only their
      lab values possibly filled in. */
  function HandleMissingValues(c: Cleaner): (r: Cleaner)
    ensures r.table.hasLabValue == c.table.hasLabValue
    ensures |r.table.rows| == |DropMissingDates(c.table.rows)|
    ensures forall i :: 0 <= i < |r.table.rows| ==>
      r.table.rows[i].(labValue := DropMissingDates(c.table.rows)[i].labValue) == DropMissingDates(c.table.rows)[i]
    ensures forall i :: 0 <= i < |r.table.rows| ==> HasBothDates(r.table.rows[i])
    ensures !c.table.hasLabValue ==> r.table.rows == DropMissingDates(c.table.rows)
    ensures c.table.hasLabValue ==> r.table.rows == ImputeLabValues(DropMissingDates(c.table.rows))
    ensures r.log == c.log + [DroppedRows(|c.table.rows| - |r.table.rows|)]
  {
    // The source reads `len(self)` here; the cleaner has no length, and the
    // evident intent is the row count of its table, `len(self.df)`.
    var originalRows := |c.table.rows|;
    var kept := DropMissingDates(c.table.rows);
    var rows := if c.table.hasLabValue then ImputeLabValues(kept) else kept;
    // In the source the log append and `return self` are indented inside the
    // `lab_value` branch; the evident intent is one log entry for every table.
    Cleaner(Table(c.table.hasLabValue, rows), c.log + [DroppedRows(originalRows - |rows|)])
  }

  /** The logged count is the number of input rows that lack a date. */
  lemma DroppedCountIsMissingCount(c: Cleaner)
    ensures HandleMissingValues(c).log[|c.log|] == DroppedRows(|Filter(c.table.rows, LacksADate)|)
  {
    FilterComplement(c.table.rows, HasBothDates, LacksADate);
  }

  /** Imputing on the kept rows as a group median: the filled value of each
      missing cell lies between the least and the greatest observed value of
      its lab test. */
  lemma ImputedValueWithinGroupRange(rows: seq<Admission>, i: nat)
    requires i < |rows| && rows[i].labValue.None?
    requires |ObservedLabValues(rows, rows[i].itemId)| > 0
    ensures var vs := SortReals(ObservedLabValues(rows, rows[i].itemId));
      ImputeLabValues(rows)[i].labValue.Some? &&
      vs[0] <= ImputeLabValues(rows)[i].labValue.value <= vs[|vs| - 1]
  {
  }

  /** Four rows of lab test 1 with values 10, 20, missing and 30. */
  function LabExampleRows(): seq<Admission> {
    var d := Some(DateTime(2023, 1, 1, 0, 0, 0));
    [Admission(1, d, d, 1, Some(10.0)), Admission(2, d, d, 1, Some(20.0)),
     Admission(3, d, d, 1, None), Admission(4, d, d, 1, Some(30.0))]
  }

  lemma LabExampleObserved()
    ensures ObservedLabValues(LabExampleRows(), 1) == [10.0, 20.0, 30.0]
  {
    var rows := LabExampleRows();
    assert ObservedLabValues(rows[..1], 1) == [10.0] by {
      assert rows[..1][..0] == [];
    }
    assert ObservedLabValues(rows[..2], 1) == [10.0, 20.0] by {
      assert rows[..2][..1] == rows[..1];
    }
    assert ObservedLabValues(rows[..3], 1) == [10.0, 20.0] by {
      assert rows[..3][..2] == rows[..2];
    }
    assert rows[..3] == rows[..|rows| - 1];
  }

  lemma MedianOfThreeExample()
    ensures Median([10.0, 20.0, 30.0]) == 20.0
  {
    assert SortReals([30.0]) == [30.0];
    assert SortReals([20.0, 30.0]) == [20.0, 30.0] by {
      assert [20.0, 30.0][1..] == [30.0];
    }
    assert SortReals([10.0, 20.0, 30.0]) == [10.0, 20.0, 30.0] by {
      assert [10.0, 20.0, 30.0][1..] == [20.0, 30.0];
    }
  }

  /** The group-median rule on a concrete table: for lab test 1 with values
      10, 20, missing, 30, the missing value becomes 20. */
  lemma GroupMedianExample()
    ensures ImputeLabValues(LabExampleRows())[2].labValue == Some(20.0)
  {
    LabExampleObserved();
    MedianOfThreeExample();
  }
}
