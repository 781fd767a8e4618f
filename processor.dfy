/** `process_clinical_trials` as the program runs it: the caller's frame has its column names
    rewritten in place, a new frame holds the completed rows, and the derived columns are
    assigned into that frame one after another. Every step is proved to compute what the
    table-valued specification `Pipeline.Process` says. */
module Processor {
  import opened Wrappers
  import opened Numeric
  import opened ColumnNames
  import opened Efficacy
  import opened CredibleInterval
  import opened Tables
  import opened Pipeline

  /** A pandas data frame: column labels and rows of cells, both replaced in place. */
  class DataFrame {
    var columns: seq<string>
    var rows: seq<Row>

    constructor (columns: seq<string>, rows: seq<Row>)
      ensures this.columns == columns && this.rows == rows
    {
      this.columns := columns;
      this.rows := rows;
    }

    /** The frame's current contents as a table value. */
    function Value(): Table
      reads this
    {
      Table(columns, rows)
    }

    /** Line 33: every column label replaced by its upper-case form, rows untouched. */
    method UpperColumns()
      modifies this
      ensures columns == UpperAll(old(columns)) && rows == old(rows)
    {
      var names: seq<string> := [];
      for i := 0 to |columns|
        invariant |names| == i
        invariant forall k :: 0 <= k < i ==> names[k] == Upper(columns[k])
      {
        names := names + [Upper(columns[i])];
      }
      columns := names;
    }

    /** `df[name] = values`: an existing column is overwritten in place, otherwise the column
        is appended. */
    method Assign(name: string, values: seq<Cell>)
      requires WellFormed(Value()) && |values| == |rows|
      modifies this
      ensures Value() == SetColumn(old(Value()), name, values)
    {
      var at := IndexOf(columns, name);
      var updated: seq<Row> := [];
      for k := 0 to |rows|
        invariant |updated| == k
        invariant forall i :: 0 <= i < k ==> updated[i] == SetCell(rows[i], at, values[i])
      {
        updated := updated + [SetCell(rows[k], at, values[k])];
      }
      rows := updated;
      if at.None? {
        columns := columns + [name];
      }
    }
  }

  /** Line 36: the rows whose status cell is "Completed", in their order. */
  method SelectCompleted(rows: seq<Row>, si: nat) returns (kept: seq<Row>)
    ensures kept == Completed(rows, si)
  {
    kept := [];
    for i := 0 to |rows|
      invariant kept == Completed(rows[..i], si)
    {
      assert rows[..i + 1][..i] == rows[..i];
      if IsCompleted(rows[i], si) {
        kept := kept + [rows[i]];
      }
    }
    assert rows[..|rows|] == rows;
  }

  /** Reads a count column for the division of line 39: None when the column is absent or a
      cell is not an integer. */
  method ReadCounts(t: Table, name: string) returns (r: Option<seq<int>>)
    requires WellFormed(t)
    ensures r == Counts(t, name)
  {
    var at := IndexOf(t.columns, name);
    if at.None? {
      return None;
    }
    var j := at.value;
    CountsCells(t, name);
    var counts: seq<int> := [];
    for k := 0 to |t.rows|
      invariant |counts| == k
      invariant forall i :: 0 <= i < k ==> Get(t, name, i) == Some(Int(counts[i]))
    {
      if !t.rows[k][j].Int? {
        assert !Get(t, name, k).value.Int?;
        return None;
      }
      counts := counts + [t.rows[k][j].i];
    }
    assert Counts(t, name).Some?;
    assert Counts(t, name).value == counts by {
      forall i | 0 <= i < |t.rows|
        ensures Counts(t, name).value[i] == counts[i]
      {
        assert Get(t, name, i) == Some(Int(counts[i]));
      }
    }
    r := Some(counts);
  }

  /** Line 39: the element-wise quotient of the two count columns. */
  method ComputeRates(succ: seq<int>, tot: seq<int>) returns (rates: seq<Value>)
    requires |succ| == |tot|
    ensures rates == Rates(succ, tot)
  {
    rates := [];
    for k := 0 to |succ|
      invariant |rates| == k
      invariant forall i :: 0 <= i < k ==> rates[i] == Divide(succ[i], tot[i])
    {
      rates := rates + [Divide(succ[k], tot[k])];
    }
  }

  /** Lines 42-43: one pass for the column's minimum and maximum, one pass to scale. */
  method MinMaxNormalize(xs: seq<int>) returns (ys: seq<Value>)
    ensures ys == Normalize(xs)
  {
    if xs == [] {
      return [];
    }
    var lo, hi := xs[0], xs[0];
    for i := 1 to |xs|
      invariant IsMin(xs[..i], lo) && IsMax(xs[..i], hi)
    {
      assert xs[..i + 1] == xs[..i] + [xs[i]];
      if xs[i] < lo {
        lo := xs[i];
      }
      if xs[i] > hi {
        hi := xs[i];
      }
    }
    assert xs[..|xs|] == xs;
    MinUnique(xs, lo, SeqMin(xs));
    MaxUnique(xs, hi, SeqMax(xs));
    ys := [];
    for k := 0 to |xs|
      invariant |ys| == k
      invariant forall i :: 0 <= i < k ==> ys[i] == Divide(xs[i] - lo, hi - lo)
    {
      ys := ys + [Divide(xs[k] - lo, hi - lo)];
    }
  }

  /** Line 46: the row-wise `apply` of the credible interval. */
  method ComputeIntervals(succ: seq<int>, tot: seq<int>, ppf: Quantile) returns (bounds: seq<(Value, Value)>)
    requires |succ| == |tot|
    ensures bounds == Intervals(succ, tot, ppf)
  {
    bounds := [];
    for k := 0 to |succ|
      invariant |bounds| == k
      invariant forall i :: 0 <= i < k ==> bounds[i] == ConfidenceInterval(succ[i], tot[i], DEFAULT_CONFIDENCE, ppf)
    {
      bounds := bounds + [ConfidenceInterval(succ[k], tot[k], DEFAULT_CONFIDENCE, ppf)];
    }
  }

  /** Line 50: `classify_drug` applied to every rate. */
  method ClassifyAll(rates: seq<Value>) returns (categories: seq<string>)
    ensures categories == Categories(rates)
  {
    categories := [];
    for k := 0 to |rates|
      invariant |categories| == k
      invariant forall i :: 0 <= i < k ==> categories[i] == ClassifyDrug(rates[i])
    {
      categories := categories + [ClassifyDrug(rates[k])];
    }
  }

  /** Lines 39-50 on the filtered frame: the five derived columns assigned in source order.
      Unpacking the intervals of a frame without rows fails, after the first two columns
      have been assigned. */
  method AddDerivedColumns(out: DataFrame, succ: seq<int>, tot: seq<int>, ppf: Quantile) returns (ok: bool)
    requires WellFormed(out.Value()) && |succ| == |out.rows| && |tot| == |out.rows|
    modifies out
    ensures ok <==> old(out.rows) != []
    ensures ok ==> out.Value() == Enrich(old(out.Value()), succ, tot, ppf)
    ensures !ok ==>
      out.Value() == SetColumn(SetColumn(old(out.Value()), RATE, Nums(Rates(succ, tot))), NORMALIZED, Nums(Normalize(tot)))
  {
    ghost var filtered := out.Value();
    var rates := ComputeRates(succ, tot);
    out.Assign(RATE, Nums(rates));
    var normalized := MinMaxNormalize(tot);
    out.Assign(NORMALIZED, Nums(normalized));
    var bounds := ComputeIntervals(succ, tot, ppf);
    if bounds == [] {
      return false;
    }
    out.Assign(CI_LOWER, Lowers(bounds));
    out.Assign(CI_UPPER, Uppers(bounds));
    var categories := ClassifyAll(rates);
    out.Assign(CATEGORY, Texts(categories));
    EnrichSteps(filtered, succ, tot, ppf);
    return true;
  }

  /** Lines 39-50: the count columns must exist and hold integers, then the columns are
      derived. On success the filtered frame itself holds the result. */
  method ProcessFilteredFrame(out: DataFrame, ppf: Quantile) returns (r: Result<DataFrame, Error>)
    requires WellFormed(out.Value())
    modifies out
    ensures r.Failure? ==> ProcessFiltered(old(out.Value()), ppf) == Failure(r.error)
    ensures r.Success? ==> r.value == out && ProcessFiltered(old(out.Value()), ppf) == Success(out.Value())
  {
    if SUCCESSES !in out.columns {
      return Failure(MissingColumn(SUCCESSES));
    }
    if TOTAL !in out.columns {
      return Failure(MissingColumn(TOTAL));
    }
    var succ := ReadCounts(out.Value(), SUCCESSES);
    var tot := ReadCounts(out.Value(), TOTAL);
    if succ.None? || tot.None? {
      return Failure(NonNumericCount);
    }
    CountsCells(out.Value(), SUCCESSES);
    CountsCells(out.Value(), TOTAL);
    var ok := AddDerivedColumns(out, succ.value, tot.value, ppf);
    if !ok {
      return Failure(EmptyApply);
    }
    return Success(out);
  }

  /** The whole pipeline. The caller's frame keeps its rows and gets upper-case labels, even
      when the run then fails; the completed rows go to a new frame, and the run reports the
      specification's result: the new frame holding it, or the specification's error. */
  method ProcessClinicalTrials(df: DataFrame, ppf: Quantile) returns (r: Result<DataFrame, Error>)
    requires WellFormed(df.Value())
    modifies df
    ensures df.columns == UpperAll(old(df.columns)) && df.rows == old(df.rows)
    ensures r.Failure? ==> Process(old(df.Value()), ppf) == Failure(r.error)
    ensures r.Success? ==> fresh(r.value) && Process(old(df.Value()), ppf) == Success(r.value.Value())
  {
    df.UpperColumns();
    var at := IndexOf(df.columns, STATUS);
    if at.None? {
      return Failure(MissingColumn(STATUS));
    }
    var kept := SelectCompleted(df.rows, at.value);
    var out := new DataFrame(df.columns, kept);
    r := ProcessFilteredFrame(out, ppf);
  }
}
