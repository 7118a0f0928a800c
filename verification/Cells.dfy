/** The values that attributes hold: cells with a distinguished undefined value, rows of cells,
    columns of rows, and the comparison that decides whether a cell changed. */
module Cells {

  datatype Option<+T> = None | Some(value: T)

  /** A raised exception is the Err case. */
  datatype Result<+T> = Ok(value: T) | Err(error: string)

  /** Booleans and integers are numbers too, as they are in the arrays of the simulation. */
  datatype Cell = Undefined | Num(x: real) | Text(s: string)

  type Row = seq<Cell>
  type Column = seq<Row>

  /** An entity without a value: one undefined cell, for uniform and for CSR attributes alike. */
  const UNDEFINED_ROW: Row := [Undefined]

  function Abs(x: real): (r: real)
    ensures r >= 0.0 && (r == x || r == -x)
  {
    if x < 0.0 then -x else x
  }

  /** Integers, booleans and strings compare exactly, floats compare by closeness. */
  datatype Comparator = Exact | Isclose(rtol: real, atol: real, equalNan: bool) {

    predicate Same(a: Cell, b: Cell) {
      match this
      case Exact => a == b
      case Isclose(rtol, atol, equalNan) =>
        match (a, b)
        case (Num(x), Num(y)) => Abs(x - y) <= atol + rtol * Abs(y)
        case (Undefined, Undefined) => equalNan
        case _ => a == b
    }

    predicate SameRow(a: Row, b: Row) {
      |a| == |b| && forall k :: 0 <= k < |a| ==> Same(a[k], b[k])
    }

    /** Every cell is the same as itself. */
    predicate Reflexive() {
      Exact? || (rtol >= 0.0 && atol >= 0.0 && equalNan)
    }

    lemma SameItself(a: Cell)
      requires Reflexive()
      ensures Same(a, a)
    {
      if Isclose? && a.Num? {
        assert Abs(a.x - a.x) == 0.0;
        assert rtol * Abs(a.x) >= 0.0;
      }
    }

    lemma SameRowItself(row: Row)
      requires Reflexive()
      ensures SameRow(row, row)
    {
      forall k | 0 <= k < |row|
        ensures Same(row[k], row[k])
      {
        SameItself(row[k]);
      }
    }
  }

  /** A uniform attribute seen as a column: every row holds exactly one cell. */
  function Lift(cells: seq<Cell>): (column: Column)
    ensures |column| == |cells|
    ensures forall i :: 0 <= i < |cells| ==> column[i] == [cells[i]]
  {
    seq(|cells|, i requires 0 <= i < |cells| => [cells[i]])
  }

  predicate IsUniform(column: Column) {
    forall i :: 0 <= i < |column| ==> |column[i]| == 1
  }

  function Unlift(column: Column): (cells: seq<Cell>)
    requires IsUniform(column)
    ensures |cells| == |column|
    ensures forall i :: 0 <= i < |column| ==> column[i] == [cells[i]]
  {
    seq(|column|, i requires 0 <= i < |column| => column[i][0])
  }

  function Blank(n: nat): (column: Column)
    ensures |column| == n
    ensures forall i :: 0 <= i < n ==> column[i] == UNDEFINED_ROW
  {
    seq(n, _ => UNDEFINED_ROW)
  }

  /** No undefined cell is hidden in a row of two or more cells. */
  predicate UndefinedOnlyAlone(column: Column) {
    forall i, k :: 0 <= i < |column| && 0 <= k < |column[i]| && column[i][k] == Undefined ==> |column[i]| == 1
  }

  /** A two-dimensional array: rows of equal length. */
  datatype Matrix = Matrix(rows: Column, cols: nat) {
    ghost predicate Valid() {
      forall i :: 0 <= i < |rows| ==> |rows[i]| == cols
    }
  }

  // ----- integers compared by closeness

  predicate IsInteger(cell: Cell) {
    cell.Num? && cell.x.Floor as real == cell.x
  }

  predicate IntegerRow(row: Row) {
    forall k :: 0 <= k < |row| ==> IsInteger(row[k])
  }

  predicate IntegerRows(rows: Column) {
    forall i :: 0 <= i < |rows| ==> IntegerRow(rows[i])
  }

  /** Within this distance of the value a change goes unnoticed. */
  function Slack(rtol: real, atol: real, cell: Cell): real {
    if cell.Num? then atol + rtol * Abs(cell.x) else 0.0
  }

  /** No other integer lies within the tolerance of any entry. */
  predicate TellsIntegersApart(rtol: real, atol: real, rows: Column) {
    forall i, k :: 0 <= i < |rows| && 0 <= k < |rows[i]| ==> Slack(rtol, atol, rows[i][k]) < 1.0
  }

  lemma CloseIntegers(a: Cell, b: Cell, rtol: real, atol: real, equalNan: bool)
    requires IsInteger(a) && IsInteger(b) && Slack(rtol, atol, b) < 1.0 && rtol >= 0.0 && atol >= 0.0
    ensures Isclose(rtol, atol, equalNan).Same(a, b) <==> a == b
  {
    var m, n := a.x.Floor, b.x.Floor;
    if m == n {
      assert a == b && Abs(a.x - b.x) == 0.0;
      assert rtol * Abs(b.x) >= 0.0;
    } else {
      assert a.x - b.x == (m - n) as real;
      assert Abs(a.x - b.x) >= 1.0;
      var x, y := a.x, b.x;
      assert Isclose(rtol, atol, equalNan).Same(Num(x), Num(y)) <==> Abs(x - y) <= Slack(rtol, atol, Num(y));
    }
  }

  lemma CloseIntegerRows(a: Row, b: Row, rtol: real, atol: real, equalNan: bool)
    requires IntegerRow(a) && IntegerRow(b) && rtol >= 0.0 && atol >= 0.0
    requires forall k :: 0 <= k < |b| ==> Slack(rtol, atol, b[k]) < 1.0
    ensures Isclose(rtol, atol, equalNan).SameRow(a, b) <==> Exact.SameRow(a, b)
  {
    if |a| == |b| {
      forall k | 0 <= k < |a|
        ensures Isclose(rtol, atol, equalNan).Same(a[k], b[k]) <==> Exact.Same(a[k], b[k])
      {
        CloseIntegers(a[k], b[k], rtol, atol, equalNan);
      }
    }
  }
}
