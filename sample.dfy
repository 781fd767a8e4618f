/** The four-trial table of the repository's unit test, run through the specification. */
module SampleTrials {
  import opened Wrappers
  import opened Numeric
  import opened ColumnNames
  import opened Efficacy
  import opened CredibleInterval
  import opened Tables
  import opened Pipeline

  const COLUMNS: seq<string> :=
    ["trial_id", "drug_name", "phase", "status", "total_patients", "successful_outcomes"]
  const UPPER_COLUMNS: seq<string> :=
    ["TRIAL_ID", "DRUG_NAME", "PHASE", "STATUS", "TOTAL_PATIENTS", "SUCCESSFUL_OUTCOMES"]

  /** One trial record, in the column order of the test. */
  function Trial(id: int, drug: string, phase: string, status: string, total: int, successes: int): Row {
    [Int(id), Text(drug), Text(phase), Text(status), Int(total), Int(successes)]
  }

  /** The test's four trials under the given column labels; the drug names are left free,
      since no step reads them. */
  function Trials(labels: seq<string>, drugs: seq<string>): Table
    requires |drugs| == 4
  {
    Table(labels, [
      Trial(101, drugs[0], "Phase 3", "Completed", 100, 85),
      Trial(102, drugs[1], "Phase 2", "Ongoing", 80, 50),
      Trial(103, drugs[2], "Phase 3", "Completed", 120, 90),
      Trial(104, drugs[3], "Phase 1", "Terminated", 50, 10)])
  }

  /** The test's table has one cell per column in every row. */
  lemma SampleWellFormed(labels: seq<string>, drugs: seq<string>)
    requires UpperAll(labels) == UPPER_COLUMNS && |drugs| == 4
    ensures WellFormed(Trials(labels, drugs))
  {
    assert |labels| == |UPPER_COLUMNS|;
  }

  /** The frame after line 36: upper-case labels, trials 101 and 103. */
  function Kept(drugs: seq<string>): Table
    requires |drugs| == 4
  {
    Table(UPPER_COLUMNS, [Trials(UPPER_COLUMNS, drugs).rows[0], Trials(UPPER_COLUMNS, drugs).rows[2]])
  }

  // Each label of the test, upper-cased.
  lemma UpperTrialId() ensures Upper(COLUMNS[0]) == UPPER_COLUMNS[0] {}
  lemma UpperDrugName() ensures Upper(COLUMNS[1]) == UPPER_COLUMNS[1] {}
  lemma UpperPhase() ensures Upper(COLUMNS[2]) == UPPER_COLUMNS[2] {}
  lemma UpperStatus() ensures Upper(COLUMNS[3]) == UPPER_COLUMNS[3] {}
  lemma UpperTotalPatients() ensures Upper(COLUMNS[4]) == UPPER_COLUMNS[4] {}
  lemma UpperSuccessfulOutcomes() ensures Upper(COLUMNS[5]) == UPPER_COLUMNS[5] {}

  /** The lower-case labels of the test normalise to the names the pipeline reads. */
  lemma SampleColumns()
    ensures UpperAll(COLUMNS) == UPPER_COLUMNS
  {
    UpperTrialId();
    UpperDrugName();
    UpperPhase();
    UpperStatus();
    UpperTotalPatients();
    UpperSuccessfulOutcomes();
    assert forall i :: 0 <= i < 6 ==> UpperAll(COLUMNS)[i] == UPPER_COLUMNS[i];
  }

  /** The filtered frame has one cell per column in each of its two rows. */
  lemma KeptWellFormed(drugs: seq<string>)
    requires |drugs| == 4
    ensures WellFormed(Kept(drugs)) && |Kept(drugs).rows| == 2
  {
  }

  /** Only trials 101 and 103 are completed; they keep their order. */
  lemma SampleCompleted(labels: seq<string>, drugs: seq<string>)
    requires |drugs| == 4
    ensures Completed(Trials(labels, drugs).rows, 3) == Kept(drugs).rows
  {
    var rows := Trials(labels, drugs).rows;
    assert rows[..1][..0] == [] && rows[..2][..1] == rows[..1];
    assert rows[..3][..2] == rows[..2] && rows[..4][..3] == rows[..3] && rows[..4] == rows;
    assert Completed(rows[..0], 3) == [];
    assert Completed(rows[..1], 3) == [rows[0]];
    assert Completed(rows[..2], 3) == [rows[0]];
    assert Completed(rows[..3], 3) == [rows[0], rows[2]];
  }

  /** The filtered frame of the test: upper-case labels and trials 101 and 103. */
  lemma SampleFiltered(labels: seq<string>, drugs: seq<string>)
    requires UpperAll(labels) == UPPER_COLUMNS && |drugs| == 4
    ensures HasInputs(Trials(labels, drugs)) && Filtered(Trials(labels, drugs)) == Kept(drugs)
  {
    IndexOfAt(UPPER_COLUMNS, STATUS, 3);
    SampleCompleted(labels, drugs);
  }

  /** Where the pipeline finds the two count columns. */
  lemma CountColumns()
    ensures IndexOf(UPPER_COLUMNS, SUCCESSES) == Some(5) && IndexOf(UPPER_COLUMNS, TOTAL) == Some(4)
  {
    IndexOfAt(UPPER_COLUMNS, SUCCESSES, 5);
    IndexOfAt(UPPER_COLUMNS, TOTAL, 4);
  }

  /** A two-row count column. */
  lemma TwoCounts(t: Table, name: string, j: nat, a: int, b: int)
    requires WellFormed(t) && IndexOf(t.columns, name) == Some(j) && |t.rows| == 2
    requires t.rows[0][j] == Int(a) && t.rows[1][j] == Int(b)
    ensures Counts(t, name) == Some([a, b])
  {
    CountsOf(t, name, j, [a, b]);
  }

  /** The two kept trials had 85 and 90 successful outcomes. */
  lemma SampleSuccesses(drugs: seq<string>)
    requires |drugs| == 4
    ensures Counts(Kept(drugs), SUCCESSES) == Some([85, 90])
  {
    KeptWellFormed(drugs);
    CountColumns();
    TwoCounts(Kept(drugs), SUCCESSES, 5, 85, 90);
  }

  /** The two kept trials had 100 and 120 patients. */
  lemma SampleTotals(drugs: seq<string>)
    requires |drugs| == 4
    ensures Counts(Kept(drugs), TOTAL) == Some([100, 120])
  {
    KeptWellFormed(drugs);
    CountColumns();
    TwoCounts(Kept(drugs), TOTAL, 4, 100, 120);
  }

  /** With 100 and 120 patients the smaller trial scales to 0 and the larger to 1. */
  lemma SampleNormalize()
    ensures Normalize([100, 120]) == [Ratio(0, 20), Ratio(20, 20)]
    ensures RealOf(Ratio(0, 20)) == 0.0 && RealOf(Ratio(20, 20)) == 1.0
  {
    var xs := [100, 120];
    MinUnique(xs, 100, SeqMin(xs));
    MaxUnique(xs, 120, SeqMax(xs));
  }

  /** The run on the test's table, under any column labels that upper-case to the test's
      (its own lower-case ones do, by SampleColumns), succeeds with the five assignments
      applied to trials 101 and 103. */
  lemma SampleRun(ppf: Quantile, labels: seq<string>, drugs: seq<string>)
    requires UpperAll(labels) == UPPER_COLUMNS && |drugs| == 4
    ensures Process(Trials(labels, drugs), ppf) == Success(Enrich(Kept(drugs), [85, 90], [100, 120], ppf))
  {
    SampleWellFormed(labels, drugs);
    SampleFiltered(labels, drugs);
    SampleSuccesses(drugs);
    SampleTotals(drugs);
    assert Process(Trials(labels, drugs), ppf) == ProcessFiltered(Kept(drugs), ppf);
  }

  /** The two rates, their values and their categories. */
  lemma SampleRates()
    ensures Divide(85, 100) == Ratio(85, 100) && RealOf(Ratio(85, 100)) == 0.85
    ensures Divide(90, 120) == Ratio(90, 120) && RealOf(Ratio(90, 120)) == 0.75
    ensures ClassifyDrug(Ratio(85, 100)) == HIGH && ClassifyDrug(Ratio(90, 120)) == MODERATE
  {
  }

  /** Two rows survive and the rate column exists. */
  lemma SampleShape(ppf: Quantile, drugs: seq<string>)
    requires |drugs| == 4
    ensures var out := Enrich(Kept(drugs), [85, 90], [100, 120], ppf);
      |out.rows| == 2 && RATE in out.columns
  {
    KeptWellFormed(drugs);
    var out := Enrich(Kept(drugs), [85, 90], [100, 120], ppf);
    EnrichGet(Kept(drugs), [85, 90], [100, 120], ppf, 0);
    assert Get(out, RATE, 0).Some?;
  }

  /** Trial 101: rate 85/100 = 0.85, High, and the smallest trial, so scaled to 0. */
  lemma SampleFirstRow(ppf: Quantile, drugs: seq<string>)
    requires |drugs| == 4
    ensures var out := Enrich(Kept(drugs), [85, 90], [100, 120], ppf);
      && Get(out, RATE, 0) == Some(Num(Ratio(85, 100)))
      && Get(out, CATEGORY, 0) == Some(Text(HIGH))
      && Get(out, NORMALIZED, 0) == Some(Num(Ratio(0, 20)))
  {
    KeptWellFormed(drugs);
    SampleSuccesses(drugs);
    SampleTotals(drugs);
    SampleNormalize();
    SampleRates();
    EnrichRows(Kept(drugs), [85, 90], [100, 120], ppf, 0);
  }

  /** Trial 103: rate 90/120 = 0.75, Moderate, and the largest trial, so scaled to 1. */
  lemma SampleSecondRow(ppf: Quantile, drugs: seq<string>)
    requires |drugs| == 4
    ensures var out := Enrich(Kept(drugs), [85, 90], [100, 120], ppf);
      && Get(out, RATE, 1) == Some(Num(Ratio(90, 120)))
      && Get(out, CATEGORY, 1) == Some(Text(MODERATE))
      && Get(out, NORMALIZED, 1) == Some(Num(Ratio(20, 20)))
  {
    KeptWellFormed(drugs);
    SampleSuccesses(drugs);
    SampleTotals(drugs);
    SampleNormalize();
    SampleRates();
    EnrichRows(Kept(drugs), [85, 90], [100, 120], ppf, 1);
  }
}
