/** The cleaner's audit log: one entry per pipeline stage, rendered as text and
    collected, in append order, into the cleaning report. */
module CleaningLog {

  /** One audit-log entry. */
  datatype LogEntry =
    | DroppedRows(count: nat)   // rows removed for a missing admission or discharge date
    | CreatedFeatures           // the readmission target and temporal features were added

  /** The decimal digits of `n`, as Python's `str(n)` writes a non-negative int. */
  function NatToString(n: nat): (s: string)
    ensures |s| > 0
    ensures forall i :: 0 <= i < |s| ==> '0' <= s[i] <= '9'
    ensures |s| > 1 ==> s[0] != '0'
  {
    if n < 10 then [DigitChar(n)] else NatToString(n / 10) + [DigitChar(n % 10)]
  }

  function DigitChar(d: nat): (c: char)
    requires d < 10
    ensures '0' <= c <= '9'
  {
    ['0', '1', '2', '3', '4', '5', '6', '7', '8', '9'][d]
  }

  function DigitValue(c: char): nat
    requires '0' <= c <= '9'
  {
    (c as int - '0' as int) as nat
  }

  /** The number a string of decimal digits denotes. */
  function ParseDecimal(s: string): nat
    requires forall i :: 0 <= i < |s| ==> '0' <= s[i] <= '9'
  {
    if s == [] then 0 else 10 * ParseDecimal(s[..|s| - 1]) + DigitValue(s[|s| - 1])
  }

  /** Reading back the rendered count gives the count: the log states the
      number of dropped rows exactly. */
  lemma {:induction false} NatToStringRoundTrip(n: nat)
    ensures ParseDecimal(NatToString(n)) == n
  {
    if n >= 10 {
      var s := NatToString(n);
      assert s[..|s| - 1] == NatToString(n / 10);
      NatToStringRoundTrip(n / 10);
    }
  }

  /** The text of one entry. The count is followed directly by "rows", with
      no space, exactly as the cleaner formats it. */
  function Render(e: LogEntry): string {
    match e
    case DroppedRows(n) => "Remove " + NatToString(n) + "rows with critical missing values"
    case CreatedFeatures => "Created temporal features and readmission target"
  }

  const ReportHeader: string := "\U{1F9F9} DATA CLEANING REPORT\n" + Repeat('=', 50) + "\n"

  function Repeat(c: char, n: nat): (s: string)
    ensures |s| == n && forall i :: 0 <= i < n ==> s[i] == c
  {
    if n == 0 then [] else Repeat(c, n - 1) + [c]
  }

  /** The rendered entries of `log`, in order. */
  function RenderAll(log: seq<LogEntry>): (r: seq<string>)
    ensures |r| == |log| && forall i :: 0 <= i < |log| ==> r[i] == Render(log[i])
  {
    seq(|log|, i requires 0 <= i < |log| => Render(log[i]))
  }

  /** One indented line per rendered entry, in order. */
  function JoinLines(lines: seq<string>): string {
    if lines == [] then [] else JoinLines(lines[..|lines| - 1]) + " " + lines[|lines| - 1] + "\n"
  }

  /** The entry section of the cleaning report. */
  function Report(log: seq<LogEntry>): string {
    // In the source `get_cleaning_report` is nested inside
    // `handle_missing_values`; it is modelled as a method of the cleaner.
    ReportHeader + JoinLines(RenderAll(log))
  }

  lemma {:induction false} JoinLinesAppend(a: seq<string>, b: seq<string>)
    ensures JoinLines(a + b) == JoinLines(a) + JoinLines(b)
    decreases |b|
  {
    if b == [] {
      assert a + b == a;
    } else {
      var b', l := b[..|b| - 1], b[|b| - 1];
      assert (a + b)[..|a + b| - 1] == a + b';
      JoinLinesAppend(a, b');
    }
  }

  /** The report lists entries in append order: the report of a log extended
      by later entries is the earlier report followed by the later entries'
      lines. */
  lemma ReportAppend(a: seq<LogEntry>, b: seq<LogEntry>)
    ensures Report(a + b) == Report(a) + JoinLines(RenderAll(b))
  {
    assert RenderAll(a + b) == RenderAll(a) + RenderAll(b);
    JoinLinesAppend(RenderAll(a), RenderAll(b));
  }
}
