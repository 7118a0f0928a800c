/** The arrays that hold attribute data in memory and note what changed, tied to the machines of
    ChangeTracking, and the conversions between CSR arrays and matrices. */
module TrackedArrays {
  import opened Cells
  import opened EntityIndex
  import opened CsrRows
  import opened ChangeTracking
  import CsrKernels

  /** An array of cells with a lazy snapshot `curr` and a cached comparison. */
  class TrackedArray {
    const cmp: Comparator
    var cells: array<Cell>
    var curr: Option<seq<Cell>>
    var cache: Option<seq<bool>>
    ghost var base: seq<Cell>

    ghost function Model(): TrackedCells
      reads this, cells
    {
      TrackedCells(cells[..], curr, cache, base)
    }

    ghost predicate Valid()
      reads this, cells
    {
      CacheFresh(Model(), cmp)
    }

    constructor (content: seq<Cell>, cmp: Comparator)
      ensures Valid() && fresh(cells)
      ensures this.cmp == cmp && Model() == Start(content)
    {
      this.cmp := cmp;
      cells := new Cell[|content|](i requires 0 <= i < |content| => content[i]);
      curr, cache := None, None;
      base := content;
      new;
      assert cells[..] == content;
    }

    /** The array that replaces a shorter one. */
    constructor Grown(origin: TrackedArray, extra: nat)
      requires origin.Valid()
      ensures Valid() && fresh(cells)
      ensures cmp == origin.cmp && Model() == origin.Model().Step(Grow(extra), cmp)
    {
      var n := origin.cells.Length;
      var content := origin.cells[..] + Undefineds(extra);
      var known := if origin.curr.Some? then origin.curr.value else Undefineds(n);
      cmp := origin.cmp;
      cells := new Cell[|content|](i requires 0 <= i < |content| => content[i]);
      curr, cache := Some(known + Undefineds(extra)), None;
      base := origin.base + Undefineds(extra);
      new;
      assert cells[..] == content;
    }

    method StartTracking()
      requires Valid()
      modifies this`curr, this`cache
      ensures Valid() && Model() == old(Model()).StartTracking()
    {
      cache := None;
      if curr.None? {
        curr := Some(cells[..]);
      }
    }

    /** Reading hands out a view that may be written, so it starts tracking as well. */
    method Get(indices: seq<nat>) returns (values: seq<Cell>)
      requires Valid() && forall k :: 0 <= k < |indices| ==> indices[k] < cells.Length
      modifies this`curr, this`cache
      ensures Valid() && Model() == old(Model()).Step(Read, cmp)
      ensures |values| == |indices| && forall k :: 0 <= k < |indices| ==> values[k] == cells[indices[k]]
    {
      StartTracking();
      values := seq(|indices|, k requires 0 <= k < |indices| && indices[k] < cells.Length reads this, cells =>
        cells[indices[k]]);
    }

    method Set(targets: seq<nat>, values: seq<Cell>)
      requires Valid() && Model().Applicable(Write(targets, values))
      modifies this`curr, this`cache, cells
      ensures Valid() && Model() == old(Model()).Step(Write(targets, values), cmp)
    {
      StartTracking();
      ghost var before, snapshot := cells[..], curr;
      for k := 0 to |targets|
        invariant curr == snapshot && cache == None
        invariant cells[..] == WriteCells(before, targets[..k], values[..k])
      {
        WriteStep(before, targets, values, k);
        cells[targets[k]] := values[k];
      }
      assert targets[..|targets|] == targets && values[..|values|] == values;
    }

    method QueryChanged() returns (flags: seq<bool>)
      requires Valid()
      modifies this`cache
      ensures Valid() && Model() == old(Model()).Step(Query, cmp)
      ensures flags == Model().Changed(cmp) == Model().Compared(cmp)
    {
      if cache.Some? {
        return cache.value;
      }
      if curr.None? {
        flags := Zeros(cells.Length);
      } else {
        flags := [];
        for i := 0 to cells.Length
          invariant |flags| == i && forall j :: 0 <= j < i ==> flags[j] == !cmp.Same(cells[j], curr.value[j])
        {
          flags := flags + [!cmp.Same(cells[i], curr.value[i])];
        }
      }
      assert flags == Model().Compared(cmp);
      cache := Some(flags);
    }

    method Reset()
      requires Valid()
      modifies this
      ensures Valid() && cells == old(cells) && Model() == old(Model()).Step(Op.Reset, cmp)
    {
      curr, cache := None, None;
      base := cells[..];
    }
  }

  lemma WriteStep(cells: seq<Cell>, targets: seq<nat>, values: seq<Cell>, k: nat)
    requires |targets| == |values| && ValidTargets(targets, |cells|) && k < |targets|
    ensures WriteCells(cells, targets[..k + 1], values[..k + 1])
         == WriteCells(cells, targets[..k], values[..k])[targets[k] := values[k]]
  {
    forall i | 0 <= i < |cells|
      ensures PositionOf(targets[..k + 1], i) == if i == targets[k] then k else PositionOf(targets[..k], i)
    {
      PositionInPrefix(targets, k, i);
    }
  }

  // ----- matrices

  function Multiples(n: nat, step: nat): (rowPtr: seq<nat>)
    ensures |rowPtr| == n + 1
  {
    seq(n + 1, i requires 0 <= i <= n => i * step)
  }

  lemma OneMultipleMore(n: nat, step: nat)
    requires n > 0
    ensures n * step == (n - 1) * step + step && Multiples(n, step) == Multiples(n - 1, step) + [n * step]
  {
  }

  lemma {:induction false} MultiplesArePointers(rows: Column, cols: nat)
    requires forall i :: 0 <= i < |rows| ==> |rows[i]| == cols
    ensures Pointers(rows) == Multiples(|rows|, cols)
    ensures |Flatten(rows)| == |rows| * cols
  {
    hide Multiples;
    if rows == [] {
      NoMultiples(cols);
    } else {
      var n := |rows| - 1;
      MultiplesArePointers(rows[..n], cols);
      FlattenLast(rows[..n], rows[n]);
      assert rows == rows[..n] + [rows[n]];
      OneMultipleMore(|rows|, cols);
    }
  }

  lemma NoMultiples(step: nat)
    ensures Multiples(0, step) == [0]
  {
  }

  lemma LengthsOfRows(data: Row, rowPtr: seq<nat>)
    requires IsRowPtr(rowPtr, |data|)
    ensures |Rows(data, rowPtr)| == |rowPtr| - 1
    ensures forall i :: 0 <= i < |rowPtr| - 1 ==> |Rows(data, rowPtr)[i]| == rowPtr[i + 1] - rowPtr[i]
  {
  }

  /** What updating all rows from a matrix should do. */
  function FromMatrix(t: TrackedRows, matrix: Matrix, cmp: Comparator): (next: TrackedRows)
    requires t.WellFormed() && |matrix.rows| == |t.rows|
    ensures next.WellFormed()
  {
    t.Step(Replace(matrix.rows, cmp), cmp)
  }

  function Arange(n: nat): (indices: seq<nat>)
    ensures |indices| == n && forall i :: 0 <= i < n ==> indices[i] == i
  {
    seq(n, i => i)
  }

  /** The general path: convert the matrix and update every row. */
  lemma UpdateAllRows(t: TrackedRows, matrix: Matrix, cmp: Comparator)
    requires t.WellFormed() && |matrix.rows| == |t.rows|
    ensures t.Applicable(RowOp.Update(Arange(|t.rows|), matrix.rows))
    ensures t.Step(RowOp.Update(Arange(|t.rows|), matrix.rows), cmp) == FromMatrix(t, matrix, cmp)
  {
    var indices := Arange(|t.rows|);
    forall i | 0 <= i < |t.rows|
      ensures PositionOf(indices, i) == i
    {
      PositionUnique(indices, i);
    }
    assert Overwrite(t.rows, indices, matrix.rows) == matrix.rows;
    assert ChangeFlags(Zeros(|t.rows|), t.rows, indices, matrix.rows, cmp) == RowsDiffer(t.rows, matrix.rows, cmp);
  }

  /** The in-place path compares with the tolerance whatever the type of the cells. The two paths
      leave the same flags exactly when the tolerance decides every row that is not yet flagged as the
      comparator of the array does. */
  lemma PathsAgreeExactly(t: TrackedRows, matrix: Matrix, tolerance: Comparator, cmp: Comparator)
    requires t.WellFormed() && |matrix.rows| == |t.rows|
    ensures FromMatrix(t, matrix, tolerance) == FromMatrix(t, matrix, cmp)
       <==> forall i :: 0 <= i < |t.rows| && !t.changed[i] ==>
              (tolerance.SameRow(t.rows[i], matrix.rows[i]) <==> cmp.SameRow(t.rows[i], matrix.rows[i]))
  {
    var fast, general := FromMatrix(t, matrix, tolerance), FromMatrix(t, matrix, cmp);
    if fast == general {
      forall i | 0 <= i < |t.rows| && !t.changed[i]
        ensures tolerance.SameRow(t.rows[i], matrix.rows[i]) <==> cmp.SameRow(t.rows[i], matrix.rows[i])
      {
        assert fast.changed[i] == general.changed[i];
      }
    }
  }

  // ----- integers in place

  /** A freshly reset column. */
  function Unflagged(rows: Column): (t: TrackedRows)
    ensures t.WellFormed()
  {
    TrackedRows(rows, Zeros(|rows|), rows)
  }

  /** Both paths leave the same rows and flags. */
  ghost predicate PathsAgree(rows: Column, matrix: Matrix, tolerance: Comparator) {
    |rows| == |matrix.rows| ==>
      FromMatrix(Unflagged(rows), matrix, tolerance) == FromMatrix(Unflagged(rows), matrix, Exact)
  }

  /** An entry as large as the tolerance allows hides that the old cell was one more. */
  lemma HiddenInteger(matrix: Matrix, rtol: real, atol: real, equalNan: bool, i: nat, k: nat) returns (rows: Column)
    requires IntegerRows(matrix.rows) && rtol >= 0.0 && atol >= 0.0 && i < |matrix.rows| && k < |matrix.rows[i]|
    requires Slack(rtol, atol, matrix.rows[i][k]) >= 1.0
    ensures IntegerRows(rows) && |rows| == |matrix.rows|
    ensures (forall j :: 0 <= j < |rows| ==> |rows[j]| == |matrix.rows[j]|)
    ensures !PathsAgree(rows, matrix, Isclose(rtol, atol, equalNan))
  {
    var tolerance, row := Isclose(rtol, atol, equalNan), matrix.rows[i];
    var y := row[k].x;
    var old_ := row[k := Num(y + 1.0)];
    rows := matrix.rows[i := old_];
    assert IntegerRow(row);
    assert (y + 1.0).Floor == y.Floor + 1;
    assert IntegerRow(old_);
    forall j | 0 <= j < |row|
      ensures tolerance.Same(old_[j], row[j])
    {
      assert IsInteger(row[j]);
      assert rtol * Abs(row[j].x) >= 0.0;
      if j == k {
        assert Abs(y + 1.0 - y) == 1.0;
      } else {
        assert Abs(row[j].x - row[j].x) == 0.0;
      }
    }
    assert !Exact.Same(old_[k], row[k]);
    var fast, general := FromMatrix(Unflagged(rows), matrix, tolerance), FromMatrix(Unflagged(rows), matrix, Exact);
    assert !fast.changed[i] && general.changed[i];
  }

  /** For integers the two paths agree, whatever the old integers of the same shape were, exactly when the
      tolerance at every entry of the matrix is less than one. */
  lemma PathsAgreeOnIntegers(matrix: Matrix, rtol: real, atol: real, equalNan: bool)
    requires IntegerRows(matrix.rows) && rtol >= 0.0 && atol >= 0.0
    ensures TellsIntegersApart(rtol, atol, matrix.rows)
       <==> forall rows: Column :: IntegerRows(rows) && |rows| == |matrix.rows|
              && (forall j :: 0 <= j < |rows| ==> |rows[j]| == |matrix.rows[j]|)
              ==> PathsAgree(rows, matrix, Isclose(rtol, atol, equalNan))
  {
    var tolerance := Isclose(rtol, atol, equalNan);
    if TellsIntegersApart(rtol, atol, matrix.rows) {
      forall rows: Column | IntegerRows(rows) && |rows| == |matrix.rows|
        ensures PathsAgree(rows, matrix, tolerance)
      {
        forall i | 0 <= i < |rows|
          ensures tolerance.SameRow(rows[i], matrix.rows[i]) <==> Exact.SameRow(rows[i], matrix.rows[i])
        {
          CloseIntegerRows(rows[i], matrix.rows[i], rtol, atol, equalNan);
        }
        PathsAgreeExactly(Unflagged(rows), matrix, tolerance, Exact);
      }
    } else {
      var i, k :| 0 <= i < |matrix.rows| && 0 <= k < |matrix.rows[i]| && Slack(rtol, atol, matrix.rows[i][k]) >= 1.0;
      var rows := HiddenInteger(matrix, rtol, atol, equalNan, i, k);
    }
  }

  /** For integers they can disagree: with the default tolerance the in-place path does not notice
      that a million became a million and one. */
  lemma InPlaceMissesInteger()
    ensures var t := TrackedRows([[Num(1000000.0)]], [false], [[Num(1000000.0)]]);
      var matrix := Matrix([[Num(1000001.0)]], 1);
      && !FromMatrix(t, matrix, Isclose(0.00001, 0.00000001, false)).changed[0]
      && FromMatrix(t, matrix, Exact).changed[0]
  {
    var tolerance := Isclose(0.00001, 0.00000001, false);
    var row, next: Row := [Num(1000000.0)], [Num(1000001.0)];
    assert tolerance.Same(row[0], next[0]) && tolerance.SameRow(row, next);
    assert !Exact.Same(row[0], next[0]) && !Exact.SameRow(row, next);
  }

  lemma {:induction false} EqualLengthsArePointers(rowPtr: seq<nat>, size: nat, cols: nat, n: nat)
    requires IsRowPtr(rowPtr, size) && n < |rowPtr|
    requires forall i :: 0 <= i < |rowPtr| - 1 ==> rowPtr[i + 1] == rowPtr[i] + cols
    ensures rowPtr[..n + 1] == Multiples(n, cols)
  {
    hide Multiples;
    if n == 0 {
      NoMultiples(cols);
    } else {
      EqualLengthsArePointers(rowPtr, size, cols, n - 1);
      OneMultipleMore(n, cols);
      if n > 1 {
        OneMultipleMore(n - 1, cols);
      } else {
        NoMultiples(cols);
      }
      assert rowPtr[n - 1] == rowPtr[..n][n - 1] == (n - 1) * cols;
      assert rowPtr[..n + 1] == rowPtr[..n] + [rowPtr[n]];
    }
  }

  /** Row pointers of equal lengths are those of the matrix. */
  lemma RowsInPlace(rowPtr: seq<nat>, size: nat, matrix: Matrix)
    requires IsRowPtr(rowPtr, size) && matrix.Valid() && |matrix.rows| == |rowPtr| - 1
    requires forall i :: 0 <= i < |rowPtr| - 1 ==> rowPtr[i + 1] == rowPtr[i] + matrix.cols
    ensures IsRowPtr(rowPtr, |Flatten(matrix.rows)|) && Rows(Flatten(matrix.rows), rowPtr) == matrix.rows
  {
    hide IsRowPtr, Flatten, Pointers, Rows;
    var n := |matrix.rows|;
    EqualLengthsArePointers(rowPtr, size, matrix.cols, n);
    MultiplesArePointers(matrix.rows, matrix.cols);
    RowsOfFlatten(matrix.rows);
    assert rowPtr == rowPtr[..n + 1];
  }

  lemma ResizedPointers(data: seq<Cell>, rowPtr: seq<nat>, extra: nat)
    requires IsRowPtr(rowPtr, |data|)
    ensures var newPtr := rowPtr + seq(extra, i requires 0 <= i < extra => i + 1 + rowPtr[|rowPtr| - 1]);
      IsRowPtr(newPtr, |data| + extra) && Rows(data + Undefineds(extra), newPtr) == Rows(data, rowPtr) + Blank(extra)
  {
    var n := |rowPtr| - 1;
    var newData := data + Undefineds(extra);
    var newPtr := rowPtr + seq(extra, i requires 0 <= i < extra => i + 1 + rowPtr[n]);
    forall i | 0 <= i < n + extra
      ensures newData[newPtr[i]..newPtr[i + 1]] == (Rows(data, rowPtr) + Blank(extra))[i]
    {
      if i < n {
        assert rowPtr[i] <= rowPtr[i + 1] <= rowPtr[n];
        assert newData[newPtr[i]..newPtr[i + 1]] == data[rowPtr[i]..rowPtr[i + 1]];
      } else {
        assert newPtr[i] == |data| + (i - n) && newPtr[i + 1] == newPtr[i] + 1;
      }
    }
  }

  /** A CSR array: cells, row pointers and one change flag per row. */
  class TrackedCsrArray {
    const tolerance: Comparator
    const isFloat: bool
    var data: array<Cell>
    var rowPtr: array<nat>
    var changed: array<bool>
    ghost var base: Column

    ghost predicate Shaped()
      reads this, data, rowPtr, changed
    {
      IsRowPtr(rowPtr[..], data.Length) && changed.Length == |base| == rowPtr.Length - 1
    }

    ghost function Model(): (t: TrackedRows)
      requires Shaped()
      reads this, data, rowPtr, changed
      ensures t.WellFormed()
    {
      TrackedRows(Rows(data[..], rowPtr[..]), changed[..], base)
    }

    /** Floats are compared with a tolerance, all other cells exactly. */
    function Comparator(): Comparator {
      if isFloat then tolerance else Exact
    }

    constructor (data: array<Cell>, rowPtr: array<nat>, tolerance: Comparator, isFloat: bool)
      requires IsRowPtr(rowPtr[..], data.Length)
      ensures Shaped() && fresh(changed) && this.data == data && this.rowPtr == rowPtr
      ensures this.tolerance == tolerance && this.isFloat == isFloat
      ensures Model() == TrackedRows(Rows(data[..], rowPtr[..]), Zeros(rowPtr.Length - 1), Rows(data[..], rowPtr[..]))
    {
      this.data, this.rowPtr := data, rowPtr;
      this.tolerance, this.isFloat := tolerance, isFloat;
      changed := new bool[rowPtr.Length - 1](_ => false);
      base := Rows(data[..], rowPtr[..]);
      new;
      assert changed[..] == Zeros(rowPtr.Length - 1);
    }

    /** The array that replaces one with fewer rows: the new rows are undefined and not flagged. */
    constructor Grown(origin: TrackedCsrArray, extra: nat)
      requires origin.Shaped()
      ensures Shaped() && fresh(data) && fresh(rowPtr) && fresh(changed)
      ensures tolerance == origin.tolerance && isFloat == origin.isFloat
      ensures Model() == origin.Model().Step(GrowRows(extra), Comparator())
    {
      hide IsRowPtr, Rows;
      var last := origin.rowPtr[origin.rowPtr.Length - 1];
      var newData := origin.data[..] + Undefineds(extra);
      var newPtr := origin.rowPtr[..] + seq(extra, i requires 0 <= i < extra => i + 1 + last);
      var newChanged := origin.changed[..] + Zeros(extra);
      ResizedPointers(origin.data[..], origin.rowPtr[..], extra);
      data := new Cell[|newData|](i requires 0 <= i < |newData| => newData[i]);
      rowPtr := new nat[|newPtr|](i requires 0 <= i < |newPtr| => newPtr[i]);
      changed := new bool[|newChanged|](i requires 0 <= i < |newChanged| => newChanged[i]);
      base := origin.base + Blank(extra);
      tolerance, isFloat := origin.tolerance, origin.isFloat;
      new;
      assert data[..] == newData && rowPtr[..] == newPtr && changed[..] == newChanged;
    }

    method Reset()
      requires Shaped()
      modifies this
      ensures Shaped() && fresh(changed) && data == old(data) && rowPtr == old(rowPtr)
      ensures Model() == old(Model()).Step(ResetFlags, Comparator())
    {
      changed := new bool[rowPtr.Length - 1](_ => false);
      base := Rows(data[..], rowPtr[..]);
      assert changed[..] == Zeros(rowPtr.Length - 1);
    }

    method Update(updData: array<Cell>, updRowPtr: array<nat>, indices: seq<nat>)
      requires Shaped() && IsRowPtr(updRowPtr[..], updData.Length)
      requires |indices| == updRowPtr.Length - 1 && ValidTargets(indices, rowPtr.Length - 1)
      modifies this`data, this`rowPtr, changed
      ensures Shaped() && fresh(data) && fresh(rowPtr)
      ensures Model() == old(Model()).Step(RowOp.Update(indices, old(Rows(updData[..], updRowPtr[..]))), Comparator())
    {
      var changes := new bool[rowPtr.Length - 1](_ => false);
      assert changes[..] == Zeros(rowPtr.Length - 1);
      data, rowPtr := CsrKernels.UpdateCsrArray(data, rowPtr, updData, updRowPtr, indices, Comparator(), changes);
      AddFlags(changes);
    }

    method AddFlags(changes: array<bool>)
      requires changes != changed && changes.Length == changed.Length
      modifies changed
      ensures changed[..] == Or(old(changed[..]), changes[..])
    {
      ghost var before := changed[..];
      for i := 0 to changed.Length
        invariant forall j :: 0 <= j < changed.Length ==>
          changed[j] == if j < i then before[j] || changes[j] else before[j]
      {
        changed[i] := changed[i] || changes[i];
      }
    }

    method Slice(indices: seq<nat>) returns (slice: TrackedCsrArray)
      requires Shaped() && forall k :: 0 <= k < |indices| ==> indices[k] < rowPtr.Length - 1
      ensures fresh(slice) && slice.Shaped() && slice.Model().rows == Select(Model().rows, indices)
      ensures slice.Model().changed == Zeros(|indices|)
    {
      var sliceData, sliceRowPtr := CsrKernels.SliceCsrArray(data, rowPtr, indices);
      slice := new TrackedCsrArray(sliceData, sliceRowPtr, tolerance, isFloat);
    }

    /** Updates every row from a matrix. Rows that already have the right length are compared and
        replaced in place, without rebuilding the row pointers. */
    method UpdateFromMatrix(matrix: Matrix) returns (r: Result<()>)
      requires Shaped() && matrix.Valid()
      modifies this`data, this`rowPtr, changed
      ensures Shaped() && base == old(base)
      ensures r.Ok? <==> |matrix.rows| == |old(Model()).rows| && (matrix.cols > 0 || matrix.rows == [])
      ensures r.Err? ==> Model() == old(Model())
      ensures r.Ok? ==>
        Model() == FromMatrix(old(Model()), matrix, if old(SameShape(matrix.cols)) then tolerance else Comparator())
      ensures r.Ok? ==>
        var inPlace := forall i :: 0 <= i < |old(Model()).rows| ==> |old(Model()).rows[i]| == matrix.cols;
        Model() == FromMatrix(old(Model()), matrix, if isFloat || inPlace then tolerance else Exact)
    {
      var n := rowPtr.Length - 1;
      if |matrix.rows| != n {
        return Err("number of rows differs");
      }
      if matrix.cols == 0 && n > 0 {
        return Err("zero-size array");
      }
      RowsOfLength(matrix.cols);
      if SameShape(matrix.cols) {
        UpdateInPlace(matrix);
      } else {
        UpdateAllRows(Model(), matrix, Comparator());
        var updData, updRowPtr := MatrixToCsr(matrix);
        Update(updData, updRowPtr, Arange(n));
      }
      return Ok(());
    }

    predicate SameShape(cols: nat)
      requires rowPtr.Length > 0
      reads this, rowPtr
    {
      forall i :: 0 <= i < rowPtr.Length - 1 ==> rowPtr[i + 1] == rowPtr[i] + cols
    }

    lemma RowsOfLength(cols: nat)
      requires Shaped()
      ensures SameShape(cols) <==> forall i :: 0 <= i < |Model().rows| ==> |Model().rows[i]| == cols
    {
      hide Flatten, Pointers, IsRowPtr;
      LengthsOfRows(data[..], rowPtr[..]);
      forall i | 0 <= i < rowPtr.Length - 1
        ensures |Model().rows[i]| == rowPtr[i + 1] - rowPtr[i]
      {
      }
    }

    method UpdateInPlace(matrix: Matrix)
      requires Shaped() && matrix.Valid() && |matrix.rows| == rowPtr.Length - 1 && SameShape(matrix.cols)
      modifies this`data, changed
      ensures Shaped() && Model() == FromMatrix(old(Model()), matrix, tolerance)
    {
      hide Cells.Comparator.SameRow, Flatten, Pointers, IsRowPtr;
      var n := |matrix.rows|;
      ghost var rows, flags := Rows(data[..], rowPtr[..]), changed[..];
      for i := 0 to n
        invariant data == old(data)
        invariant forall j :: 0 <= j < n ==>
          changed[j] == (flags[j] || (j < i && !tolerance.SameRow(rows[j], matrix.rows[j])))
      {
        var row := CsrKernels.GetRow(data, rowPtr, i);
        changed[i] := changed[i] || !tolerance.SameRow(row, matrix.rows[i]);
      }
      assert changed[..] == Or(flags, RowsDiffer(rows, matrix.rows, tolerance));
      var flat := Flatten(matrix.rows);
      data := new Cell[|flat|](i requires 0 <= i < |flat| => flat[i]);
      assert data[..] == flat;
      RowsInPlace(rowPtr[..], old(data).Length, matrix);
    }

    /** All rows as a matrix; rows of different lengths raise. */
    method AsMatrix() returns (r: Result<Matrix>)
      requires Shaped()
      ensures |Model().rows| == 0 ==> r == Ok(Matrix([], 0))
      ensures |Model().rows| > 0 ==>
        (r.Ok? <==> forall i :: 0 <= i < |Model().rows| ==> |Model().rows[i]| == |Model().rows[0]|)
      ensures r.Ok? ==> r.value.rows == Model().rows && r.value.Valid()
    {
      var n := rowPtr.Length - 1;
      ghost var rows := Rows(data[..], rowPtr[..]);
      if n == 0 {
        return Ok(Matrix([], 0));
      }
      var rowLength := rowPtr[1] - rowPtr[0];
      var content := [];
      for i := 0 to n
        invariant content == rows[..i]
        invariant forall j :: 0 <= j < i ==> |rows[j]| == rowLength
      {
        var row := CsrKernels.GetRow(data, rowPtr, i);
        assert |rows[0]| == rowLength;
        if |row| != rowLength {
          return Err("rows of unequal length");
        }
        content := content + [row];
      }
      return Ok(Matrix(content, rowLength));
    }
  }

  /** A matrix of at least one column keeps its rows through a CSR array and back. */
  method MatrixThroughCsr(matrix: Matrix) returns (r: Result<Matrix>)
    requires matrix.Valid() && matrix.cols > 0 && matrix.rows != []
    ensures r.Ok? && r.value == matrix
  {
    var data, rowPtr := MatrixToCsr(matrix);
    var csr := new TrackedCsrArray(data, rowPtr, Exact, false);
    r := csr.AsMatrix();
    assert |r.value.rows[0]| == r.value.cols == matrix.cols;
  }

  /** A matrix with at least one column as a CSR array. */
  method MatrixToCsr(matrix: Matrix) returns (data: array<Cell>, rowPtr: array<nat>)
    requires matrix.Valid() && matrix.cols > 0
    ensures fresh(data) && fresh(rowPtr) && IsRowPtr(rowPtr[..], data.Length)
    ensures Rows(data[..], rowPtr[..]) == matrix.rows
  {
    var flat, pointers := Flatten(matrix.rows), Multiples(|matrix.rows|, matrix.cols);
    MultiplesArePointers(matrix.rows, matrix.cols);
    RowsOfFlatten(matrix.rows);
    data := new Cell[|flat|](i requires 0 <= i < |flat| => flat[i]);
    rowPtr := new nat[|pointers|](i requires 0 <= i < |pointers| => pointers[i]);
    assert data[..] == flat && rowPtr[..] == pointers;
  }
}
