/** A pandas DataFrame reduced to what the ingestion layer uses: a header of
    column names and rows of cells, with a column replaced in place. */
module Frames {
  import opened Timestamps

  /** A timestamp pandas can hold in a datetime column. */
  type Instant = t: DateTime | ValidDateTime(t) witness DateTime(1970, 1, 1, 0, 0, 0)

  /** One cell. Missing stands for pandas' NaN and NaT alike: both are what
      `isna()` reports. */
  datatype Cell = Text(text: string) | Number(value: real) | Stamp(time: Instant) | Missing

  datatype Table = Table(columns: seq<string>, rows: seq<seq<Cell>>)

  /** Every row has one cell per column, as every DataFrame does. */
  predicate Rectangular(t: Table) {
    forall i :: 0 <= i < |t.rows| ==> |t.rows[i]| == |t.columns|
  }

  /** Position of the first column called `name`. */
  function IndexOf(names: seq<string>, name: string): (k: nat)
    requires name in names
    ensures k < |names| && names[k] == name
    ensures forall i :: 0 <= i < k ==> names[i] != name
  {
    if names[0] == name then 0 else 1 + IndexOf(names[1..], name)
  }

  /** `df[name]` for the column at position j. */
  function Column(t: Table, j: nat): (c: seq<Cell>)
    requires Rectangular(t) && j < |t.columns|
    ensures |c| == |t.rows|
    ensures forall i :: 0 <= i < |c| ==> c[i] == t.rows[i][j]
  {
    seq(|t.rows|, i requires 0 <= i < |t.rows| => t.rows[i][j])
  }

  /** The table after `df[name] = cells` for the column at position j. */
  function WithColumn(t: Table, j: nat, cells: seq<Cell>): (r: Table)
    requires Rectangular(t) && j < |t.columns| && |cells| == |t.rows|
    ensures Rectangular(r) && r.columns == t.columns && |r.rows| == |t.rows|
    ensures forall i, k :: 0 <= i < |r.rows| && 0 <= k < |r.columns| ==>
              r.rows[i][k] == if k == j then cells[i] else t.rows[i][k]
  {
    Table(t.columns, seq(|t.rows|, i requires 0 <= i < |t.rows| => t.rows[i][j := cells[i]]))
  }

  /** Element-wise conversion of a column, as a vectorised pandas call does it. */
  function MapCells(cells: seq<Cell>, f: Cell -> Cell): (r: seq<Cell>)
    ensures |r| == |cells| && forall i :: 0 <= i < |r| ==> r[i] == f(cells[i])
  {
    seq(|cells|, i requires 0 <= i < |cells| => f(cells[i]))
  }

  /** `series.isna().any()`. */
  predicate AnyMissing(cells: seq<Cell>) {
    exists i :: 0 <= i < |cells| && cells[i].Missing?
  }

  class DataFrame {
    var columns: seq<string>
    var rows: seq<seq<Cell>>

    function Snapshot(): Table
      reads this
    {
      Table(columns, rows)
    }

    constructor (t: Table)
      ensures Snapshot() == t
    {
      columns := t.columns;
      rows := t.rows;
    }

    /** `df[name] = cells` for the existing column at position j, written row by row. */
    method ReplaceColumn(j: nat, cells: seq<Cell>)
      requires Rectangular(Snapshot()) && j < |columns| && |cells| == |rows|
      modifies this
      ensures Snapshot() == WithColumn(old(Snapshot()), j, cells)
    {
      var i := 0;
      while i < |rows|
        invariant 0 <= i <= |rows| == |old(rows)|
        invariant columns == old(columns)
        invariant forall k :: 0 <= k < i ==> rows[k] == old(rows)[k][j := cells[k]]
        invariant forall k :: i <= k < |rows| ==> rows[k] == old(rows)[k]
      {
        rows := rows[i := rows[i][j := cells[i]]];
        i := i + 1;
      }
      assert rows == WithColumn(old(Snapshot()), j, cells).rows;
    }
  }
}
