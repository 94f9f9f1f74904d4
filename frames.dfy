/**
 * The table model shared by every stage. A pandas DataFrame is a sequence of
 * unique column labels and a sequence of rows; a row holds one cell per
 * column, in column order.
 */
module Frames {

  /** A cell: text, a number (read as an exact real), a first-of-month date, or a missing value (NaN). */
  datatype Value = Text(s: string) | Num(x: real) | Month(year: int, month: int) | Missing

  type Row = seq<Value>

  datatype Table = Table(columns: seq<string>, rows: seq<Row>)

  // Column labels the script reads or writes.
  const GAME := "game"
  const EST_SALES := "est_sales_x30"
  const POSITIVE_REVIEWS := "positive_reviews"
  const PEAK_CCU := "peak_ccu"

  predicate Distinct<T(==)>(s: seq<T>) {
    forall i, j :: 0 <= i < j < |s| ==> s[i] != s[j]
  }

  /** Column labels are unique and every row has one cell per column. */
  predicate WellFormed(t: Table) {
    Distinct(t.columns) && forall i :: 0 <= i < |t.rows| ==> |t.rows[i]| == |t.columns|
  }

  /** The position of label `c`. */
  function IndexOf(cols: seq<string>, c: string): (k: nat)
    requires c in cols
    ensures k < |cols| && cols[k] == c
    ensures forall j :: 0 <= j < k ==> cols[j] != c
  {
    if cols[0] == c then 0 else 1 + IndexOf(cols[1..], c)
  }

  /** `df.loc[i, c]`: the cell of row `i` under label `c`. */
  function Get(t: Table, i: nat, c: string): Value
    requires WellFormed(t) && i < |t.rows| && c in t.columns
  {
    t.rows[i][IndexOf(t.columns, c)]
  }

  /** Every row holds a number under `c`. */
  predicate Numeric(t: Table, c: string)
    requires WellFormed(t) && c in t.columns
  {
    forall i :: 0 <= i < |t.rows| ==> Get(t, i, c).Num?
  }

  /** In a table with unique labels, the position of a label is the one that carries it. */
  lemma IndexOfUnique(cols: seq<string>, k: nat)
    requires Distinct(cols) && k < |cols|
    ensures IndexOf(cols, cols[k]) == k
  {
  }

  /** Appending a label leaves the positions of the others as they were. */
  lemma {:induction false} IndexOfAppend(cols: seq<string>, name: string, c: string)
    requires c in cols
    ensures IndexOf(cols + [name], c) == IndexOf(cols, c)
  {
    if cols[0] != c {
      assert (cols + [name])[1..] == cols[1..] + [name];
      IndexOfAppend(cols[1..], name, c);
    }
  }

  /**
   * The frame after `df[name] = values`: an existing column is overwritten
   * where it stands, a new one is appended after the others; every other
   * cell stays.
   */
  function WithColumn(t: Table, name: string, values: seq<Value>): (r: Table)
    requires WellFormed(t) && |values| == |t.rows|
    ensures WellFormed(r) && name in r.columns && |r.rows| == |t.rows|
    ensures name in t.columns ==> r.columns == t.columns
    ensures name !in t.columns ==> r.columns == t.columns + [name]
    ensures name !in t.columns ==> forall i :: 0 <= i < |t.rows| ==> r.rows[i] == t.rows[i] + [values[i]]
    ensures forall i :: 0 <= i < |t.rows| ==> Get(r, i, name) == values[i]
    ensures forall i, c :: 0 <= i < |t.rows| && c in t.columns && c != name ==> Get(r, i, c) == Get(t, i, c)
  {
    if name in t.columns then
      var k := IndexOf(t.columns, name);
      var r := Table(t.columns, seq(|t.rows|, i requires 0 <= i < |t.rows| => t.rows[i][k := values[i]]));
      r
    else
      var r := Table(t.columns + [name], seq(|t.rows|, i requires 0 <= i < |t.rows| => t.rows[i] + [values[i]]));
      assert IndexOf(r.columns, name) == |t.columns| by {
        IndexOfUnique(r.columns, |t.columns|);
      }
      forall c | c in t.columns
        ensures IndexOf(r.columns, c) == IndexOf(t.columns, c)
      {
        IndexOfAppend(t.columns, name, c);
      }
      r
  }

  /** A DataFrame object: its columns and rows change in place. */
  class Frame {
    var columns: seq<string>
    var rows: seq<Row>

    function Snapshot(): Table
      reads this
    {
      Table(columns, rows)
    }

    constructor (t: Table)
      ensures Snapshot() == t
    {
      columns := t.columns;
      rows := t.rows;
    }

    /** `df[name] = values`, one value per row. */
    method SetColumn(name: string, values: seq<Value>)
      requires WellFormed(Snapshot()) && |values| == |rows|
      modifies this
      ensures Snapshot() == WithColumn(old(Snapshot()), name, values)
    {
      var current := rows;
      if name in columns {
        var k := IndexOf(columns, name);
        rows := seq(|current|, i requires 0 <= i < |current| => current[i][k := values[i]]);
      } else {
        rows := seq(|current|, i requires 0 <= i < |current| => current[i] + [values[i]]);
        columns := columns + [name];
      }
    }
  }
}
