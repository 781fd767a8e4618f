/** The in-memory table the pipeline works on: named columns over rows of cells. */
module Tables {
  import opened Wrappers
  import opened Numeric

  /** One cell: text, an integer, or a float64 value. */
  datatype Cell = Text(s: string) | Int(i: int) | Num(v: Value)

  type Row = seq<Cell>

  /** A data frame as a value: its column names, in order, and its rows. */
  datatype Table = Table(columns: seq<string>, rows: seq<Row>)

  /** Every row has one cell per column. */
  predicate WellFormed(t: Table) {
    forall k :: 0 <= k < |t.rows| ==> |t.rows[k]| == |t.columns|
  }

  /** The position of the first column with this name (what `df[name]` selects). */
  function IndexOf(names: seq<string>, name: string): (r: Option<nat>)
    ensures r.None? <==> name !in names
    ensures r.Some? ==> r.value < |names| && names[r.value] == name && name !in names[..r.value]
  {
    if names == [] then None
    else if names[0] == name then Some(0)
    else match IndexOf(names[1..], name)
      case None => None
      case Some(i) => assert names[1..][..i] == names[1..i + 1]; Some(i + 1)
  }

  /** The first occurrence is the only position that can be reported. */
  lemma IndexOfAt(names: seq<string>, name: string, j: nat)
    requires j < |names| && names[j] == name && name !in names[..j]
    ensures IndexOf(names, name) == Some(j)
  {
  }

  /** Appending a column does not move any existing name's first position. */
  lemma IndexOfAppend(names: seq<string>, extra: string, name: string)
    requires name in names
    ensures IndexOf(names + [extra], name) == IndexOf(names, name)
  {
    var j := IndexOf(names, name).value;
    assert (names + [extra])[..j] == names[..j];
    IndexOfAt(names + [extra], name, j);
  }

  /** The cell of row `k` in the column named `name`, if there is such a column. */
  function Get(t: Table, name: string, k: nat): (c: Option<Cell>)
    requires WellFormed(t) && k < |t.rows|
    ensures c.None? <==> name !in t.columns
    ensures c.Some? ==> c.value in t.rows[k]
  {
    match IndexOf(t.columns, name)
    case None => None
    case Some(j) => Some(t.rows[k][j])
  }

  /** One row after `df[name] = values`: the named cell overwritten, or a new cell at the end. */
  function SetCell(row: Row, at: Option<nat>, c: Cell): Row
    requires at.Some? ==> at.value < |row|
  {
    match at
    case Some(j) => row[j := c]
    case None => row + [c]
  }

  /** The column assignment `df[name] = values`: an existing column is overwritten in place,
      otherwise the column is appended after the others. */
  function SetColumn(t: Table, name: string, values: seq<Cell>): (r: Table)
    requires WellFormed(t) && |values| == |t.rows|
    ensures WellFormed(r) && |r.rows| == |t.rows|
    ensures r.columns == if name in t.columns then t.columns else t.columns + [name]
  {
    var at := IndexOf(t.columns, name);
    Table(if at.Some? then t.columns else t.columns + [name],
          seq(|t.rows|, k requires 0 <= k < |t.rows| => SetCell(t.rows[k], at, values[k])))
  }

  /** After the assignment the column reads back as the assigned values, and every other
      name still reads what it read before. */
  lemma SetColumnGet(t: Table, name: string, values: seq<Cell>, k: nat)
    requires WellFormed(t) && |values| == |t.rows| && k < |t.rows|
    ensures Get(SetColumn(t, name, values), name, k) == Some(values[k])
    ensures forall other :: other != name ==> Get(SetColumn(t, name, values), other, k) == Get(t, other, k)
  {
    var r := SetColumn(t, name, values);
    if name !in t.columns {
      IndexOfAt(r.columns, name, |t.columns|);
      forall other | other != name && other in t.columns
        ensures IndexOf(r.columns, other) == IndexOf(t.columns, other)
      {
        IndexOfAppend(t.columns, name, other);
      }
    }
  }

  /** The assignment keeps every existing column name and every cell of another column. */
  lemma SetColumnKeeps(t: Table, name: string, values: seq<Cell>)
    requires WellFormed(t) && |values| == |t.rows|
    ensures |t.columns| <= |SetColumn(t, name, values).columns|
    ensures SetColumn(t, name, values).columns[..|t.columns|] == t.columns
    ensures forall k, j :: 0 <= k < |t.rows| && 0 <= j < |t.columns| && t.columns[j] != name ==>
              SetColumn(t, name, values).rows[k][j] == t.rows[k][j]
  {
  }

  /** Assigning to a column the values it already holds changes nothing. */
  lemma SetColumnUnchanged(t: Table, name: string, values: seq<Cell>)
    requires WellFormed(t) && |values| == |t.rows|
    requires name in t.columns
    requires forall k :: 0 <= k < |t.rows| ==> Get(t, name, k) == Some(values[k])
    ensures SetColumn(t, name, values) == t
  {
    var r := SetColumn(t, name, values);
    var j := IndexOf(t.columns, name).value;
    forall k | 0 <= k < |t.rows|
      ensures r.rows[k] == t.rows[k]
    {
      assert Get(t, name, k) == Some(t.rows[k][j]);
    }
  }

  /** No name occurs twice. */
  predicate Distinct(names: seq<string>) {
    forall i, j :: 0 <= i < j < |names| ==> names[i] != names[j]
  }

  /** A run of column assignments `df[names[0]] = cols[0]; df[names[1]] = cols[1]; ...`. */
  function AssignAll(t: Table, names: seq<string>, cols: seq<seq<Cell>>): (r: Table)
    requires WellFormed(t) && |cols| == |names|
    requires forall i :: 0 <= i < |cols| ==> |cols[i]| == |t.rows|
    ensures WellFormed(r) && |r.rows| == |t.rows|
    decreases names
  {
    if names == [] then t
    else AssignAll(SetColumn(t, names[0], cols[0]), names[1..], cols[1..])
  }

  /** Five assignments in a row, written out one by one. */
  lemma AssignFive(t: Table, names: seq<string>, cols: seq<seq<Cell>>)
    requires WellFormed(t) && |names| == 5 && |cols| == 5
    requires forall i :: 0 <= i < 5 ==> |cols[i]| == |t.rows|
    ensures AssignAll(t, names, cols) ==
      SetColumn(SetColumn(SetColumn(SetColumn(SetColumn(t, names[0], cols[0]), names[1], cols[1]),
        names[2], cols[2]), names[3], cols[3]), names[4], cols[4])
  {
    var t1 := SetColumn(t, names[0], cols[0]);
    var t2 := SetColumn(t1, names[1], cols[1]);
    var t3 := SetColumn(t2, names[2], cols[2]);
    var t4 := SetColumn(t3, names[3], cols[3]);
    var t5 := SetColumn(t4, names[4], cols[4]);
    assert AssignAll(t5, names[5..], cols[5..]) == t5;
    assert AssignAll(t4, names[4..], cols[4..]) == t5;
    assert AssignAll(t3, names[3..], cols[3..]) == t5;
    assert AssignAll(t2, names[2..], cols[2..]) == t5;
    assert AssignAll(t1, names[1..], cols[1..]) == t5;
  }

  /** After assignments to distinct names each assigned column reads back as its values and
      every other name reads as before. */
  lemma {:induction false} AssignAllGet(t: Table, names: seq<string>, cols: seq<seq<Cell>>, k: nat)
    requires WellFormed(t) && |cols| == |names| && Distinct(names) && k < |t.rows|
    requires forall i :: 0 <= i < |cols| ==> |cols[i]| == |t.rows|
    ensures forall i :: 0 <= i < |names| ==> Get(AssignAll(t, names, cols), names[i], k) == Some(cols[i][k])
    ensures forall other :: other !in names ==> Get(AssignAll(t, names, cols), other, k) == Get(t, other, k)
    decreases names
  {
    if names != [] {
      var t1 := SetColumn(t, names[0], cols[0]);
      var r := AssignAll(t1, names[1..], cols[1..]);
      assert AssignAll(t, names, cols) == r;
      SetColumnGet(t, names[0], cols[0], k);
      AssignAllGet(t1, names[1..], cols[1..], k);
      assert names[0] !in names[1..];
      forall i | 0 <= i < |names|
        ensures Get(r, names[i], k) == Some(cols[i][k])
      {
        if i > 0 {
          assert names[i] == names[1..][i - 1];
        }
      }
      forall other | other !in names
        ensures Get(r, other, k) == Get(t, other, k)
      {
        assert other !in names[1..] && other != names[0];
      }
    }
  }

  /** The assignments keep the existing columns in front, append only assigned names, and
      leave every cell of an unassigned column untouched. */
  lemma {:induction false} AssignAllKeeps(t: Table, names: seq<string>, cols: seq<seq<Cell>>)
    requires WellFormed(t) && |cols| == |names|
    requires forall i :: 0 <= i < |cols| ==> |cols[i]| == |t.rows|
    ensures |t.columns| <= |AssignAll(t, names, cols).columns|
    ensures AssignAll(t, names, cols).columns[..|t.columns|] == t.columns
    ensures forall j :: |t.columns| <= j < |AssignAll(t, names, cols).columns| ==>
              AssignAll(t, names, cols).columns[j] in names
    ensures forall k, j :: 0 <= k < |t.rows| && 0 <= j < |t.columns| && t.columns[j] !in names ==>
              AssignAll(t, names, cols).rows[k][j] == t.rows[k][j]
    decreases names
  {
    if names != [] {
      var t1 := SetColumn(t, names[0], cols[0]);
      SetColumnKeeps(t, names[0], cols[0]);
      AssignAllKeeps(t1, names[1..], cols[1..]);
      var r := AssignAll(t, names, cols);
      assert r.columns[..|t.columns|] == t1.columns[..|t.columns|];
      forall j | |t.columns| <= j < |r.columns|
        ensures r.columns[j] in names
      {
        if j >= |t1.columns| {
          assert r.columns[j] in names[1..];
        }
      }
    }
  }
}
