/**
 * The table a CSV file was read into: the column names and the rows of
 * already-stringified cell values, aligned positionally with the names.
 * Parsing and the conversion of values to strings are not part of this model;
 * the strings are taken as given.
 */
module Tables {

  datatype Table = Table(columns: seq<string>, rows: seq<seq<string>>) {

    /** Every row has exactly one value per column. */
    predicate Rectangular() {
      forall i :: 0 <= i < |rows| ==> |rows[i]| == |columns|
    }
  }

  /** The values of column `j` (0-based), top to bottom, without the header. */
  function ColumnValues(t: Table, j: nat): (vs: seq<string>)
    requires t.Rectangular() && j < |t.columns|
    ensures |vs| == |t.rows|
    ensures forall i :: 0 <= i < |t.rows| ==> vs[i] == t.rows[i][j]
  {
    seq(|t.rows|, i requires 0 <= i < |t.rows| => t.rows[i][j])
  }

  /**
   * The length of the longest string of a non-empty sequence (a maximum over an
   * empty sequence is an error, so the caller must supply at least one).
   */
  function MaxLen(vs: seq<string>): (m: nat)
    requires |vs| > 0
    ensures forall i :: 0 <= i < |vs| ==> |vs[i]| <= m
  {
    if |vs| == 1 then |vs[0]|
    else
      var rest := MaxLen(vs[1..]);
      if |vs[0]| >= rest then |vs[0]| else rest
  }

  /** The maximum is the length of one of the strings. */
  lemma {:induction false} MaxLenAttained(vs: seq<string>)
    requires |vs| > 0
    ensures exists i :: 0 <= i < |vs| && |vs[i]| == MaxLen(vs)
  {
    if |vs| > 1 && |vs[0]| < MaxLen(vs[1..]) {
      MaxLenAttained(vs[1..]);
      var i :| 0 <= i < |vs| - 1 && |vs[1..][i]| == MaxLen(vs[1..]);
      assert |vs[i + 1]| == MaxLen(vs);
    } else {
      assert |vs[0]| == MaxLen(vs);
    }
  }

  /**
   * The display width of a column: two more than the longest of its header and
   * its values.
   */
  function ColumnWidth(header: string, values: seq<string>): (w: nat)
    ensures w >= |header| + 2
    ensures forall i :: 0 <= i < |values| ==> w >= |values[i]| + 2
    ensures values == [] ==> w == |header| + 2
  {
    var all := [header] + values;
    assert forall i :: 0 <= i < |values| ==> all[i + 1] == values[i];
    MaxLen(all) + 2
  }

  /** The width is no wider than needed: the header or some value has exactly two less. */
  lemma ColumnWidthAttained(header: string, values: seq<string>)
    ensures ColumnWidth(header, values) == |header| + 2 ||
            exists i :: 0 <= i < |values| && ColumnWidth(header, values) == |values[i]| + 2
  {
    var all := [header] + values;
    MaxLenAttained(all);
    var k :| 0 <= k < |all| && |all[k]| == MaxLen(all);
    if k > 0 {
      assert all[k] == values[k - 1];
    }
  }

  /** The width of column `idx` (1-based) of the table: its header and all its values count. */
  function WidthOfColumn(t: Table, idx: int): (w: nat)
    requires t.Rectangular() && 1 <= idx <= |t.columns|
  {
    ColumnWidth(t.columns[idx - 1], ColumnValues(t, idx - 1))
  }

  /** The width of every column of the table, keyed by 1-based column index. */
  function ColumnWidths(t: Table): (m: map<int, nat>)
    requires t.Rectangular()
    ensures forall idx :: idx in m <==> 1 <= idx <= |t.columns|
    ensures forall idx :: 1 <= idx <= |t.columns| ==> m[idx] >= |t.columns[idx - 1]| + 2
    ensures forall idx, i :: 1 <= idx <= |t.columns| && 0 <= i < |t.rows| ==> m[idx] >= |t.rows[i][idx - 1]| + 2
    ensures forall idx :: 1 <= idx <= |t.columns| && t.rows == [] ==> m[idx] == |t.columns[idx - 1]| + 2
  {
    map idx | 1 <= idx <= |t.columns| :: WidthOfColumn(t, idx)
  }

  /** Every column's width is attained by its header or by one of its values in some row. */
  lemma ColumnWidthsAttained(t: Table, idx: int)
    requires t.Rectangular() && 1 <= idx <= |t.columns|
    ensures ColumnWidths(t)[idx] == |t.columns[idx - 1]| + 2 ||
            exists i :: 0 <= i < |t.rows| && ColumnWidths(t)[idx] == |t.rows[i][idx - 1]| + 2
  {
    var values := ColumnValues(t, idx - 1);
    ColumnWidthAttained(t.columns[idx - 1], values);
    if ColumnWidths(t)[idx] != |t.columns[idx - 1]| + 2 {
      var i :| 0 <= i < |values| && ColumnWidths(t)[idx] == |values[i]| + 2;
      assert values[i] == t.rows[i][idx - 1];
    }
  }
}
