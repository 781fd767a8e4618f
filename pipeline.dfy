/** `process_clinical_trials` as a function on table values: the specification that the
    step-by-step method in module Processor is proved to compute. */
module Pipeline {
  import opened Wrappers
  import opened Numeric
  import opened ColumnNames
  import opened Efficacy
  import opened CredibleInterval
  import opened Tables

  const STATUS := "STATUS"
  const COMPLETED := "Completed"
  const SUCCESSES := "SUCCESSFUL_OUTCOMES"
  const TOTAL := "TOTAL_PATIENTS"

  const RATE := "EFFICACY_RATE"
  const NORMALIZED := "NORMALIZED_PATIENTS"
  const CI_LOWER := "CI_LOWER"
  const CI_UPPER := "CI_UPPER"
  const CATEGORY := "EFFICACY_CATEGORY"

  /** The five columns the pipeline assigns. */
  const DERIVED: seq<string> := [RATE, NORMALIZED, CI_LOWER, CI_UPPER, CATEGORY]

  /** Why a run fails: `df[name]` on an absent column (KeyError), `/` on a non-integer count
      (TypeError), or unpacking the interval pairs of an empty frame (ValueError). */
  datatype Error = MissingColumn(name: string) | NonNumericCount | EmptyApply

  /** The row passes `df["STATUS"] == "Completed"`. */
  predicate IsCompleted(row: Row, si: nat) {
    si < |row| && row[si] == Text(COMPLETED)
  }

  /** The rows kept by the status mask, in their order. */
  function Completed(rows: seq<Row>, si: nat): (kept: seq<Row>)
    ensures |kept| <= |rows|
    ensures forall k :: 0 <= k < |kept| ==> kept[k] in rows && IsCompleted(kept[k], si)
  {
    if rows == [] then []
    else
      var last := rows[|rows| - 1];
      Completed(rows[..|rows| - 1], si) + (if IsCompleted(last, si) then [last] else [])
  }

  /** The positions of the completed rows, in increasing order. */
  function KeptIndices(rows: seq<Row>, si: nat): (ids: seq<nat>)
    ensures forall j :: 0 <= j < |ids| ==> ids[j] < |rows|
    ensures forall j, j' :: 0 <= j < j' < |ids| ==> ids[j] < ids[j']
    ensures forall i :: 0 <= i < |rows| ==> (i in ids <==> IsCompleted(rows[i], si))
  {
    if rows == [] then []
    else
      var ids := KeptIndices(rows[..|rows| - 1], si);
      if IsCompleted(rows[|rows| - 1], si) then ids + [|rows| - 1] else ids
  }

  /** The filter keeps exactly the completed rows, in their original relative order. */
  lemma {:induction false} CompletedExactly(rows: seq<Row>, si: nat)
    ensures |Completed(rows, si)| == |KeptIndices(rows, si)|
    ensures forall j :: 0 <= j < |KeptIndices(rows, si)| ==>
              Completed(rows, si)[j] == rows[KeptIndices(rows, si)[j]]
  {
    if rows != [] {
      var init := rows[..|rows| - 1];
      CompletedExactly(init, si);
    }
  }

  /** The integers of a column, or None if some cell is not an integer. */
  function Ints(cells: seq<Cell>): (r: Option<seq<int>>)
    ensures r.Some? <==> forall k :: 0 <= k < |cells| ==> cells[k].Int?
    ensures r.Some? ==> |r.value| == |cells| && forall k :: 0 <= k < |cells| ==> cells[k] == Int(r.value[k])
  {
    if cells == [] then Some([])
    else if !cells[0].Int? then None
    else match Ints(cells[1..])
      case None => None
      case Some(rest) => Some([cells[0].i] + rest)
  }

  /** The integer counts in the column named `name`, if it exists and holds only integers. */
  function Counts(t: Table, name: string): (r: Option<seq<int>>)
    requires WellFormed(t)
    ensures r.Some? ==> name in t.columns && |r.value| == |t.rows|
  {
    if name in t.columns then Ints(seq(|t.rows|, k requires 0 <= k < |t.rows| => Get(t, name, k).value))
    else None
  }

  /** `m` is the column's `.min()`: a value of the column no larger than any other. */
  ghost predicate IsMin(xs: seq<int>, m: int) {
    m in xs && forall k :: 0 <= k < |xs| ==> m <= xs[k]
  }

  /** `m` is the column's `.max()`. */
  ghost predicate IsMax(xs: seq<int>, m: int) {
    m in xs && forall k :: 0 <= k < |xs| ==> xs[k] <= m
  }

  /** A non-empty column has a minimum and a maximum. */
  lemma {:induction false} MinMaxExist(xs: seq<int>)
    requires xs != []
    ensures exists m :: IsMin(xs, m)
    ensures exists m :: IsMax(xs, m)
  {
    if |xs| == 1 {
      assert IsMin(xs, xs[0]) && IsMax(xs, xs[0]);
    } else {
      MinMaxExist(xs[1..]);
      var lo :| IsMin(xs[1..], lo);
      var hi :| IsMax(xs[1..], hi);
      assert forall k :: 1 <= k < |xs| ==> xs[k] == xs[1..][k - 1];
      assert IsMin(xs, if xs[0] <= lo then xs[0] else lo);
      assert IsMax(xs, if xs[0] >= hi then xs[0] else hi);
    }
  }

  /** The minimum is unique. */
  lemma MinUnique(xs: seq<int>, a: int, b: int)
    requires IsMin(xs, a) && IsMin(xs, b)
    ensures a == b
  {
  }

  /** The maximum is unique. */
  lemma MaxUnique(xs: seq<int>, a: int, b: int)
    requires IsMax(xs, a) && IsMax(xs, b)
    ensures a == b
  {
  }

  ghost function SeqMin(xs: seq<int>): (m: int)
    requires xs != []
    ensures IsMin(xs, m)
  {
    MinMaxExist(xs);
    var m :| IsMin(xs, m); m
  }

  ghost function SeqMax(xs: seq<int>): (m: int)
    requires xs != []
    ensures IsMax(xs, m)
  {
    MinMaxExist(xs);
    var m :| IsMax(xs, m); m
  }

  /** Every count shifted by `lo` and divided by `hi - lo`. */
  function Scale(xs: seq<int>, lo: int, hi: int): (ys: seq<Value>)
    ensures |ys| == |xs|
    ensures forall k :: 0 <= k < |xs| ==> ys[k] == Divide(xs[k] - lo, hi - lo)
  {
    seq(|xs|, k requires 0 <= k < |xs| => Divide(xs[k] - lo, hi - lo))
  }

  /** Min-max scaling `(x - min) / (max - min)` over the column; when every value is the same
      this is `0 / 0`, i.e. `nan` on every row. */
  ghost function Normalize(xs: seq<int>): (ys: seq<Value>)
    ensures |ys| == |xs|
  {
    if xs == [] then [] else Scale(xs, SeqMin(xs), SeqMax(xs))
  }

  /** With a non-degenerate range every scaled value is finite and lies in [0, 1]; the
      smallest count maps to 0 and the largest to 1. */
  lemma NormalizeInUnitInterval(xs: seq<int>, k: nat)
    requires k < |xs| && SeqMin(xs) < SeqMax(xs)
    ensures Normalize(xs)[k].Ratio?
    ensures 0.0 <= RealOf(Normalize(xs)[k]) <= 1.0
    ensures xs[k] == SeqMin(xs) ==> RealOf(Normalize(xs)[k]) == 0.0
    ensures xs[k] == SeqMax(xs) ==> RealOf(Normalize(xs)[k]) == 1.0
  {
    var lo, hi := SeqMin(xs), SeqMax(xs);
    RateInUnitInterval(xs[k] - lo, hi - lo);
  }

  /** Scaling keeps the order of the counts. */
  lemma NormalizeMonotone(xs: seq<int>, i: nat, j: nat)
    requires i < |xs| && j < |xs| && xs[i] <= xs[j] && SeqMin(xs) < SeqMax(xs)
    ensures Normalize(xs)[i].Ratio? && Normalize(xs)[j].Ratio?
    ensures RealOf(Normalize(xs)[i]) <= RealOf(Normalize(xs)[j])
  {
    var lo, hi := SeqMin(xs), SeqMax(xs);
    DivideMonotone(xs[i] - lo, xs[j] - lo, hi - lo);
  }

  /** When all counts are equal the range is zero and every row gets `nan`. */
  lemma NormalizeDegenerate(xs: seq<int>, k: nat)
    requires k < |xs| && SeqMin(xs) == SeqMax(xs)
    ensures Normalize(xs)[k] == NaN
  {
  }

  /** Line 39: one rate per row, finite exactly where the row has patients. */
  function Rates(succ: seq<int>, tot: seq<int>): (rates: seq<Value>)
    requires |succ| == |tot|
    ensures |rates| == |succ|
    ensures forall k :: 0 <= k < |succ| ==> (rates[k].Ratio? <==> tot[k] != 0)
  {
    seq(|succ|, k requires 0 <= k < |succ| => Divide(succ[k], tot[k]))
  }

  /** Line 46: one credible interval per row; a monotone quantile orders every pair. */
  function Intervals(succ: seq<int>, tot: seq<int>, ppf: Quantile): (iv: seq<(Value, Value)>)
    requires |succ| == |tot|
    ensures |iv| == |succ|
    ensures QuantileMonotone(ppf) ==> forall k :: 0 <= k < |iv| ==> FiniteLe(iv[k].0, iv[k].1)
  {
    seq(|succ|, k requires 0 <= k < |succ| => ConfidenceInterval(succ[k], tot[k], DEFAULT_CONFIDENCE, ppf))
  }

  /** Line 50: one of the three labels per rate. */
  function Categories(rates: seq<Value>): (labels: seq<string>)
    ensures |labels| == |rates|
    ensures forall k :: 0 <= k < |rates| ==> labels[k] == HIGH || labels[k] == MODERATE || labels[k] == LOW
  {
    seq(|rates|, k requires 0 <= k < |rates| => ClassifyDrug(rates[k]))
  }

  function Nums(vs: seq<Value>): seq<Cell> {
    seq(|vs|, k requires 0 <= k < |vs| => Num(vs[k]))
  }

  function Lowers(iv: seq<(Value, Value)>): seq<Cell> {
    seq(|iv|, k requires 0 <= k < |iv| => Num(iv[k].0))
  }

  function Uppers(iv: seq<(Value, Value)>): seq<Cell> {
    seq(|iv|, k requires 0 <= k < |iv| => Num(iv[k].1))
  }

  function Texts(ls: seq<string>): seq<Cell> {
    seq(|ls|, k requires 0 <= k < |ls| => Text(ls[k]))
  }

  /** The derived columns' values, in the order of DERIVED. */
  ghost function DerivedColumns(succ: seq<int>, tot: seq<int>, ppf: Quantile): seq<seq<Cell>>
    requires |succ| == |tot|
  {
    var rates := Rates(succ, tot);
    var iv := Intervals(succ, tot, ppf);
    [Nums(rates), Nums(Normalize(tot)), Lowers(iv), Uppers(iv), Texts(Categories(rates))]
  }

  /** Lines 39-50: the five column assignments, in source order, on the filtered frame. */
  ghost function Enrich(kept: Table, succ: seq<int>, tot: seq<int>, ppf: Quantile): (out: Table)
    requires WellFormed(kept) && |succ| == |kept.rows| && |tot| == |kept.rows|
    ensures WellFormed(out) && |out.rows| == |kept.rows|
  {
    AssignAll(kept, DERIVED, DerivedColumns(succ, tot, ppf))
  }

  /** Lines 39-50 on the filtered frame: read both count columns, then derive. */
  ghost function ProcessFiltered(kept: Table, ppf: Quantile): (r: Result<Table, Error>)
    requires WellFormed(kept)
    ensures r.Success? ==> WellFormed(r.value) && 0 < |r.value.rows| == |kept.rows|
    ensures r.Failure? && r.error.MissingColumn? ==> r.error.name !in kept.columns
  {
    if SUCCESSES !in kept.columns then Failure(MissingColumn(SUCCESSES))
    else if TOTAL !in kept.columns then Failure(MissingColumn(TOTAL))
    else match (Counts(kept, SUCCESSES), Counts(kept, TOTAL))
      case (Some(succ), Some(tot)) =>
        if kept.rows == [] then Failure(EmptyApply) else Success(Enrich(kept, succ, tot, ppf))
      case _ => Failure(NonNumericCount)
  }

  /** The whole of `process_clinical_trials` on a table value. */
  ghost function Process(t: Table, ppf: Quantile): (r: Result<Table, Error>)
    requires WellFormed(t)
    ensures r.Success? ==> WellFormed(r.value) && 0 < |r.value.rows| <= |t.rows|
    ensures r.Failure? && r.error.MissingColumn? ==> r.error.name !in UpperAll(t.columns)
  {
    var cols := UpperAll(t.columns);
    match IndexOf(cols, STATUS)
    case None => Failure(MissingColumn(STATUS))
    case Some(si) => ProcessFiltered(Table(cols, Completed(t.rows, si)), ppf)
  }

  /** The counts of a present column exist exactly when every cell of it is an integer, and
      then they are those integers, row by row. */
  lemma CountsCells(t: Table, name: string)
    requires WellFormed(t) && name in t.columns
    ensures Counts(t, name).Some? <==> forall k :: 0 <= k < |t.rows| ==> Get(t, name, k).value.Int?
    ensures Counts(t, name).Some? ==>
              && |Counts(t, name).value| == |t.rows|
              && forall k :: 0 <= k < |t.rows| ==> Get(t, name, k) == Some(Int(Counts(t, name).value[k]))
  {
    var cells := seq(|t.rows|, k requires 0 <= k < |t.rows| => Get(t, name, k).value);
    assert forall k :: 0 <= k < |t.rows| ==> cells[k] == Get(t, name, k).value;
  }

  /** A column whose every cell is the integer at the same position of `xs` has counts `xs`. */
  lemma CountsOf(t: Table, name: string, j: nat, xs: seq<int>)
    requires WellFormed(t) && IndexOf(t.columns, name) == Some(j) && |xs| == |t.rows|
    requires forall k :: 0 <= k < |t.rows| ==> t.rows[k][j] == Int(xs[k])
    ensures Counts(t, name) == Some(xs)
  {
    CountsCells(t, name);
    assert Counts(t, name).value == xs by {
      forall k | 0 <= k < |xs|
        ensures Counts(t, name).value[k] == xs[k]
      {
        assert Get(t, name, k) == Some(Int(xs[k]));
      }
    }
  }

  /** Enrich spelled out as the five assignments of lines 39, 42, 47 and 50, in order. */
  lemma EnrichSteps(kept: Table, succ: seq<int>, tot: seq<int>, ppf: Quantile)
    requires WellFormed(kept) && |succ| == |kept.rows| && |tot| == |kept.rows|
    ensures var cs := DerivedColumns(succ, tot, ppf);
      Enrich(kept, succ, tot, ppf) ==
        SetColumn(SetColumn(SetColumn(SetColumn(SetColumn(kept, RATE, cs[0]), NORMALIZED, cs[1]),
          CI_LOWER, cs[2]), CI_UPPER, cs[3]), CATEGORY, cs[4])
  {
    AssignFive(kept, DERIVED, DerivedColumns(succ, tot, ppf));
  }

  lemma DerivedDistinct()
    ensures Distinct(DERIVED)
  {
  }

  /** The input columns the pipeline reads are not among the ones it assigns. */
  lemma InputsNotDerived()
    ensures STATUS !in DERIVED && SUCCESSES !in DERIVED && TOTAL !in DERIVED
  {
  }

  /** Each derived column of a row reads back as the per-row formula applied to that row's
      own counts. */
  lemma EnrichGet(kept: Table, succ: seq<int>, tot: seq<int>, ppf: Quantile, k: nat)
    requires WellFormed(kept) && |succ| == |kept.rows| && |tot| == |kept.rows| && k < |kept.rows|
    ensures var out := Enrich(kept, succ, tot, ppf);
      && Get(out, RATE, k) == Some(Num(Divide(succ[k], tot[k])))
      && Get(out, NORMALIZED, k) == Some(Num(Normalize(tot)[k]))
      && Get(out, CI_LOWER, k) == Some(Num(ConfidenceInterval(succ[k], tot[k], DEFAULT_CONFIDENCE, ppf).0))
      && Get(out, CI_UPPER, k) == Some(Num(ConfidenceInterval(succ[k], tot[k], DEFAULT_CONFIDENCE, ppf).1))
      && Get(out, CATEGORY, k) == Some(Text(ClassifyDrug(Divide(succ[k], tot[k]))))
  {
    var cols := DerivedColumns(succ, tot, ppf);
    DerivedDistinct();
    AssignAllGet(kept, DERIVED, cols, k);
    assert DERIVED[0] == RATE && DERIVED[1] == NORMALIZED && DERIVED[2] == CI_LOWER;
    assert DERIVED[3] == CI_UPPER && DERIVED[4] == CATEGORY;
  }

  /** Every column other than the derived ones reads as it did before the assignments. */
  lemma EnrichOther(kept: Table, succ: seq<int>, tot: seq<int>, ppf: Quantile)
    requires WellFormed(kept) && |succ| == |kept.rows| && |tot| == |kept.rows|
    ensures forall name, k :: name !in DERIVED && 0 <= k < |kept.rows| ==>
              Get(Enrich(kept, succ, tot, ppf), name, k) == Get(kept, name, k)
  {
    forall name, k | name !in DERIVED && 0 <= k < |kept.rows|
      ensures Get(Enrich(kept, succ, tot, ppf), name, k) == Get(kept, name, k)
    {
      DerivedDistinct();
      AssignAllGet(kept, DERIVED, DerivedColumns(succ, tot, ppf), k);
    }
  }

  /** The assignments keep the filtered frame's columns in front, append only derived
      columns, and leave every cell of a non-derived column untouched. */
  lemma EnrichKeeps(kept: Table, succ: seq<int>, tot: seq<int>, ppf: Quantile)
    requires WellFormed(kept) && |succ| == |kept.rows| && |tot| == |kept.rows|
    ensures var out := Enrich(kept, succ, tot, ppf);
      && |kept.columns| <= |out.columns|
      && out.columns[..|kept.columns|] == kept.columns
      && (forall j :: |kept.columns| <= j < |out.columns| ==> out.columns[j] in DERIVED)
      && forall k, j :: 0 <= k < |kept.rows| && 0 <= j < |kept.columns| && kept.columns[j] !in DERIVED ==>
           out.rows[k][j] == kept.rows[k][j]
  {
    AssignAllKeeps(kept, DERIVED, DerivedColumns(succ, tot, ppf));
  }

  /** Two tables that agree on a count column have the same counts there. */
  lemma CountsAgree(a: Table, b: Table, name: string)
    requires WellFormed(a) && WellFormed(b) && |a.rows| == |b.rows|
    requires name in a.columns && name in b.columns
    requires forall k :: 0 <= k < |a.rows| ==> Get(a, name, k) == Get(b, name, k)
    ensures Counts(a, name) == Counts(b, name)
  {
    var ca := seq(|a.rows|, k requires 0 <= k < |a.rows| => Get(a, name, k).value);
    var cb := seq(|b.rows|, k requires 0 <= k < |b.rows| => Get(b, name, k).value);
    assert ca == cb;
  }

  /** The counts of a column are the integers in its cells. */
  lemma CountsGet(t: Table, name: string, k: nat)
    requires WellFormed(t) && Counts(t, name).Some? && k < |t.rows|
    ensures |Counts(t, name).value| == |t.rows|
    ensures Get(t, name, k) == Some(Int(Counts(t, name).value[k]))
  {
    var cells := seq(|t.rows|, i requires 0 <= i < |t.rows| => Get(t, name, i).value);
    assert cells[k] == Get(t, name, k).value;
  }

  /** The filtered frame of a run: upper-cased names and the completed rows. */
  ghost function Filtered(t: Table): (kept: Table)
    requires WellFormed(t) && STATUS in UpperAll(t.columns)
    ensures WellFormed(kept)
  {
    var cols := UpperAll(t.columns);
    Table(cols, Completed(t.rows, IndexOf(cols, STATUS).value))
  }

  /** A successful run is the five assignments applied to the filtered frame and its counts. */
  lemma ProcessSuccess(t: Table, ppf: Quantile)
    requires WellFormed(t) && Process(t, ppf).Success?
    ensures STATUS in UpperAll(t.columns) && SUCCESSES in UpperAll(t.columns) && TOTAL in UpperAll(t.columns)
    ensures Counts(Filtered(t), SUCCESSES).Some? && Counts(Filtered(t), TOTAL).Some?
    ensures Filtered(t).rows != []
    ensures Process(t, ppf).value ==
      Enrich(Filtered(t), Counts(Filtered(t), SUCCESSES).value, Counts(Filtered(t), TOTAL).value, ppf)
  {
  }

  /** The output has one row per completed input row, in input order; it keeps the upper-cased
      input columns in front of the derived ones, and every non-derived cell of an output row
      is the cell of the input row it comes from. */
  lemma ProcessKeepsRows(t: Table, ppf: Quantile, out: Table)
    requires WellFormed(t) && Process(t, ppf) == Success(out)
    ensures STATUS in UpperAll(t.columns) && WellFormed(out)
    ensures var cols := UpperAll(t.columns);
            var ids := KeptIndices(t.rows, IndexOf(cols, STATUS).value);
      && |out.rows| == |ids| > 0
      && |cols| <= |out.columns| && out.columns[..|cols|] == cols
      && (forall j :: |cols| <= j < |out.columns| ==> out.columns[j] in DERIVED)
      && (forall k, j :: 0 <= k < |ids| && 0 <= j < |cols| && cols[j] !in DERIVED ==>
            out.rows[k][j] == t.rows[ids[k]][j])
      && forall k :: 0 <= k < |out.rows| ==> Get(out, STATUS, k) == Some(Text(COMPLETED))
  {
    ProcessSuccess(t, ppf);
    var kept := Filtered(t);
    EnrichKeepsRows(t, Counts(kept, SUCCESSES).value, Counts(kept, TOTAL).value, ppf);
  }

  /** ProcessKeepsRows for any counts assigned to the filtered frame. */
  lemma EnrichKeepsRows(t: Table, succ: seq<int>, tot: seq<int>, ppf: Quantile)
    requires WellFormed(t) && STATUS in UpperAll(t.columns)
    requires |succ| == |Filtered(t).rows| && |tot| == |Filtered(t).rows|
    ensures var out := Enrich(Filtered(t), succ, tot, ppf);
            var cols := UpperAll(t.columns);
            var ids := KeptIndices(t.rows, IndexOf(cols, STATUS).value);
      && |out.rows| == |ids|
      && |cols| <= |out.columns| && out.columns[..|cols|] == cols
      && (forall j :: |cols| <= j < |out.columns| ==> out.columns[j] in DERIVED)
      && (forall k, j :: 0 <= k < |ids| && 0 <= j < |cols| && cols[j] !in DERIVED ==>
            out.rows[k][j] == t.rows[ids[k]][j])
      && forall k :: 0 <= k < |out.rows| ==> Get(out, STATUS, k) == Some(Text(COMPLETED))
  {
    var kept := Filtered(t);
    var cols := UpperAll(t.columns);
    var si := IndexOf(cols, STATUS).value;
    var out := Enrich(kept, succ, tot, ppf);
    CompletedExactly(t.rows, si);
    InputsNotDerived();
    EnrichKeeps(kept, succ, tot, ppf);
    EnrichOther(kept, succ, tot, ppf);
    forall k | 0 <= k < |out.rows|
      ensures Get(out, STATUS, k) == Some(Text(COMPLETED))
    {
      assert Get(kept, STATUS, k) == Some(kept.rows[k][si]);
    }
  }

  /** Every output row carries the rate of its own counts, the category of that rate, the
      credible interval of its counts, and its min-max scaled patient count. */
  lemma ProcessRowValues(t: Table, ppf: Quantile, out: Table, k: nat)
    requires WellFormed(t) && Process(t, ppf) == Success(out)
    requires WellFormed(out) && k < |out.rows|
    ensures Counts(out, SUCCESSES).Some? && Counts(out, TOTAL).Some?
    ensures var s, n := Counts(out, SUCCESSES).value[k], Counts(out, TOTAL).value[k];
      && Get(out, SUCCESSES, k) == Some(Int(s))
      && Get(out, TOTAL, k) == Some(Int(n))
      && Get(out, RATE, k) == Some(Num(Divide(s, n)))
      && Get(out, CATEGORY, k) == Some(Text(ClassifyDrug(Divide(s, n))))
      && Get(out, CI_LOWER, k) == Some(Num(ConfidenceInterval(s, n, DEFAULT_CONFIDENCE, ppf).0))
      && Get(out, CI_UPPER, k) == Some(Num(ConfidenceInterval(s, n, DEFAULT_CONFIDENCE, ppf).1))
      && Get(out, NORMALIZED, k) == Some(Num(Normalize(Counts(out, TOTAL).value)[k]))
  {
    ProcessSuccess(t, ppf);
    var kept := Filtered(t);
    var succ, tot := Counts(kept, SUCCESSES).value, Counts(kept, TOTAL).value;
    assert out == Enrich(kept, succ, tot, ppf);
    EnrichRows(kept, succ, tot, ppf, k);
  }

  /** The count columns survive the assignments unchanged. */
  lemma EnrichCounts(kept: Table, succ: seq<int>, tot: seq<int>, ppf: Quantile)
    requires WellFormed(kept) && |succ| == |kept.rows| && |tot| == |kept.rows|
    requires SUCCESSES in kept.columns && TOTAL in kept.columns
    ensures Counts(Enrich(kept, succ, tot, ppf), SUCCESSES) == Counts(kept, SUCCESSES)
    ensures Counts(Enrich(kept, succ, tot, ppf), TOTAL) == Counts(kept, TOTAL)
  {
    var out := Enrich(kept, succ, tot, ppf);
    EnrichKeeps(kept, succ, tot, ppf);
    assert SUCCESSES in out.columns && TOTAL in out.columns by {
      assert out.columns[..|kept.columns|] == kept.columns;
    }
    InputsNotDerived();
    EnrichOther(kept, succ, tot, ppf);
    CountsAgree(out, kept, SUCCESSES);
    CountsAgree(out, kept, TOTAL);
  }

  /** ProcessRowValues on the filtered frame itself. */
  lemma EnrichRows(kept: Table, succ: seq<int>, tot: seq<int>, ppf: Quantile, k: nat)
    requires WellFormed(kept) && k < |kept.rows|
    requires SUCCESSES in kept.columns && TOTAL in kept.columns
    requires Counts(kept, SUCCESSES) == Some(succ) && Counts(kept, TOTAL) == Some(tot)
    ensures var out := Enrich(kept, succ, tot, ppf);
      && Counts(out, SUCCESSES) == Some(succ) && Counts(out, TOTAL) == Some(tot)
      && Get(out, SUCCESSES, k) == Some(Int(succ[k]))
      && Get(out, TOTAL, k) == Some(Int(tot[k]))
      && Get(out, RATE, k) == Some(Num(Divide(succ[k], tot[k])))
      && Get(out, CATEGORY, k) == Some(Text(ClassifyDrug(Divide(succ[k], tot[k]))))
      && Get(out, CI_LOWER, k) == Some(Num(ConfidenceInterval(succ[k], tot[k], DEFAULT_CONFIDENCE, ppf).0))
      && Get(out, CI_UPPER, k) == Some(Num(ConfidenceInterval(succ[k], tot[k], DEFAULT_CONFIDENCE, ppf).1))
      && Get(out, NORMALIZED, k) == Some(Num(Normalize(tot)[k]))
  {
    EnrichCounts(kept, succ, tot, ppf);
    CountsGet(Enrich(kept, succ, tot, ppf), SUCCESSES, k);
    CountsGet(Enrich(kept, succ, tot, ppf), TOTAL, k);
    EnrichGet(kept, succ, tot, ppf, k);
  }

  /** A missing column fails with a KeyError for the first of STATUS, SUCCESSFUL_OUTCOMES and
      TOTAL_PATIENTS that is absent after upper-casing. */
  lemma ProcessMissingColumn(t: Table, ppf: Quantile)
    requires WellFormed(t)
    ensures var cols := UpperAll(t.columns);
      && (STATUS !in cols ==> Process(t, ppf) == Failure(MissingColumn(STATUS)))
      && (STATUS in cols && SUCCESSES !in cols ==> Process(t, ppf) == Failure(MissingColumn(SUCCESSES)))
      && (STATUS in cols && SUCCESSES in cols && TOTAL !in cols ==>
            Process(t, ppf) == Failure(MissingColumn(TOTAL)))
  {
  }

  /** The three columns the pipeline reads are all present after upper-casing. */
  predicate HasInputs(t: Table) {
    var cols := UpperAll(t.columns);
    STATUS in cols && SUCCESSES in cols && TOTAL in cols
  }

  /** Some input row passes the status filter. */
  predicate AnyCompleted(t: Table)
    requires HasInputs(t)
  {
    var si := IndexOf(UpperAll(t.columns), STATUS).value;
    exists i :: 0 <= i < |t.rows| && IsCompleted(t.rows[i], si)
  }

  /** Every input row that passes the status filter holds an integer in the named column. */
  predicate CompletedIntsIn(t: Table, name: string)
    requires WellFormed(t) && HasInputs(t) && name in UpperAll(t.columns)
  {
    var cols := UpperAll(t.columns);
    var si, j := IndexOf(cols, STATUS).value, IndexOf(cols, name).value;
    forall i :: 0 <= i < |t.rows| && IsCompleted(t.rows[i], si) ==> t.rows[i][j].Int?
  }

  /** Lines 39-50 succeed exactly when the frame has rows and integer counts; a frame without
      rows fails when the intervals are unpacked, and a non-integer count fails the division. */
  lemma ProcessFilteredOutcome(kept: Table, ppf: Quantile)
    requires WellFormed(kept) && SUCCESSES in kept.columns && TOTAL in kept.columns
    ensures var ints := Counts(kept, SUCCESSES).Some? && Counts(kept, TOTAL).Some?;
      && (ProcessFiltered(kept, ppf).Success? <==> kept.rows != [] && ints)
      && (kept.rows == [] ==> ProcessFiltered(kept, ppf) == Failure(EmptyApply))
      && (!ints ==> ProcessFiltered(kept, ppf) == Failure(NonNumericCount))
  {
    if kept.rows == [] {
      CountsCells(kept, SUCCESSES);
      CountsCells(kept, TOTAL);
    }
  }

  /** The filter keeps some row exactly when some row is completed. */
  lemma {:induction false} CompletedNonEmpty(rows: seq<Row>, si: nat)
    ensures Completed(rows, si) != [] <==> exists i :: 0 <= i < |rows| && IsCompleted(rows[i], si)
  {
    if rows != [] {
      var init := rows[..|rows| - 1];
      CompletedNonEmpty(init, si);
      if exists i :: 0 <= i < |init| && IsCompleted(init[i], si) {
        var i :| 0 <= i < |init| && IsCompleted(init[i], si);
        assert rows[i] == init[i];
      }
      if exists i :: 0 <= i < |rows| && IsCompleted(rows[i], si) {
        var i :| 0 <= i < |rows| && IsCompleted(rows[i], si);
        if i < |init| {
          assert IsCompleted(init[i], si);
        }
      }
    }
  }

  /** The filtered frame has rows exactly when some input row is completed. */
  lemma FilteredNonEmpty(t: Table)
    requires WellFormed(t) && HasInputs(t)
    ensures Filtered(t).rows != [] <==> AnyCompleted(t)
  {
    CompletedNonEmpty(t.rows, IndexOf(UpperAll(t.columns), STATUS).value);
  }

  /** Every kept row holds an integer in column `j` exactly when every completed row does. */
  lemma {:induction false} CompletedInts(rows: seq<Row>, si: nat, j: nat)
    requires forall i :: 0 <= i < |rows| ==> j < |rows[i]|
    ensures (forall k :: 0 <= k < |Completed(rows, si)| ==> j < |Completed(rows, si)[k]|)
    ensures (forall k :: 0 <= k < |Completed(rows, si)| ==> Completed(rows, si)[k][j].Int?) <==>
            (forall i :: 0 <= i < |rows| && IsCompleted(rows[i], si) ==> rows[i][j].Int?)
  {
    if rows != [] {
      var init := rows[..|rows| - 1];
      var last: Row := rows[|rows| - 1];
      CompletedInts(init, si, j);
      var before: seq<Row> := Completed(init, si);
      var kept: seq<Row> := Completed(rows, si);
      var tail: seq<Row> := if IsCompleted(last, si) then [last] else [];
      assert kept == before + tail;
      if forall k :: 0 <= k < |kept| ==> kept[k][j].Int? {
        forall i | 0 <= i < |init| && IsCompleted(init[i], si)
          ensures init[i][j].Int?
        {
          assert forall k :: 0 <= k < |before| ==> before[k] == kept[k];
        }
        forall i | 0 <= i < |rows| && IsCompleted(rows[i], si)
          ensures rows[i][j].Int?
        {
          if i < |init| {
            assert rows[i] == init[i];
          } else {
            assert kept[|before|] == last;
          }
        }
      }
      if forall i :: 0 <= i < |rows| && IsCompleted(rows[i], si) ==> rows[i][j].Int? {
        forall i | 0 <= i < |init| && IsCompleted(init[i], si)
          ensures init[i][j].Int?
        {
          assert init[i] == rows[i];
        }
        forall k | 0 <= k < |kept|
          ensures kept[k][j].Int?
        {
          if k < |before| {
            assert kept[k] == before[k];
          } else {
            assert kept[k] == last;
          }
        }
      }
    }
  }

  /** The counts of the kept rows exist exactly when every completed row holds an integer in
      that column. */
  lemma KeptCounts(cols: seq<string>, rows: seq<Row>, si: nat, name: string)
    requires WellFormed(Table(cols, rows)) && name in cols
    ensures Counts(Table(cols, Completed(rows, si)), name).Some? <==>
            forall i :: 0 <= i < |rows| && IsCompleted(rows[i], si) ==> rows[i][IndexOf(cols, name).value].Int?
  {
    var kept := Table(cols, Completed(rows, si));
    var j := IndexOf(cols, name).value;
    CountsCells(kept, name);
    CompletedInts(rows, si, j);
    assert forall k :: 0 <= k < |kept.rows| ==> Get(kept, name, k) == Some(kept.rows[k][j]);
  }

  /** The filtered frame's count column holds integers exactly when that of every completed
      input row does. */
  lemma FilteredCounts(t: Table, name: string)
    requires WellFormed(t) && HasInputs(t) && name in UpperAll(t.columns)
    ensures Counts(Filtered(t), name).Some? <==> CompletedIntsIn(t, name)
  {
    var cols := UpperAll(t.columns);
    KeptCounts(cols, t.rows, IndexOf(cols, STATUS).value, name);
  }

  /** With all three columns present, a run succeeds exactly when some row is completed and
      every completed row holds integers in both count columns; with no completed row it fails
      when the intervals are unpacked, and with a non-integer count it fails on the division. */
  lemma ProcessOutcome(t: Table, ppf: Quantile)
    requires WellFormed(t) && HasInputs(t)
    ensures Process(t, ppf).Success? <==> AnyCompleted(t) && CompletedIntsIn(t, SUCCESSES) && CompletedIntsIn(t, TOTAL)
    ensures !AnyCompleted(t) ==> Process(t, ppf) == Failure(EmptyApply)
    ensures !(CompletedIntsIn(t, SUCCESSES) && CompletedIntsIn(t, TOTAL)) ==> Process(t, ppf) == Failure(NonNumericCount)
  {
    assert Process(t, ppf) == ProcessFiltered(Filtered(t), ppf);
    FilteredNonEmpty(t);
    FilteredCounts(t, SUCCESSES);
    FilteredCounts(t, TOTAL);
    ProcessFilteredOutcome(Filtered(t), ppf);
  }
}
