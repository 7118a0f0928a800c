/** The array loops behind CSR attributes: they fill preallocated buffers row by row. */
module CsrKernels {
  import opened Cells
  import opened EntityIndex
  import opened CsrRows

  /** Row pointers for the given row lengths, and a buffer of exactly that size. */
  method GetNewCsrArray(rowLengths: seq<nat>) returns (data: array<Cell>, rowPtr: array<nat>)
    ensures fresh(data) && fresh(rowPtr) && rowPtr.Length == |rowLengths| + 1
    ensures IsRowPtr(rowPtr[..], data.Length)
    ensures forall i :: 0 <= i < |rowLengths| ==> rowPtr[i + 1] == rowPtr[i] + rowLengths[i]
  {
    rowPtr := new nat[|rowLengths| + 1];
    rowPtr[0] := 0;
    for i := 0 to |rowLengths|
      invariant rowPtr[0] == 0
      invariant forall j :: 0 <= j < i ==> rowPtr[j + 1] == rowPtr[j] + rowLengths[j]
      invariant forall j, k :: 0 <= j <= k <= i ==> rowPtr[j] <= rowPtr[k]
    {
      rowPtr[i + 1] := rowPtr[i] + rowLengths[i];
    }
    data := new Cell[rowPtr[|rowLengths|]];
  }

  method GetRow(data: array<Cell>, rowPtr: array<nat>, index: nat) returns (row: Row)
    requires IsRowPtr(rowPtr[..], data.Length) && index < rowPtr.Length - 1
    ensures row == Rows(data[..], rowPtr[..])[index]
  {
    row := data[rowPtr[index]..rowPtr[index + 1]];
    assert row == data[..][rowPtr[index]..rowPtr[index + 1]];
  }

  /** Writes one row. The rows are disjoint segments of the buffer, so no other row changes. */
  method SetRow(data: array<Cell>, rowPtr: array<nat>, index: nat, newRow: Row)
    requires IsRowPtr(rowPtr[..], data.Length) && index < rowPtr.Length - 1
    requires rowPtr[index] + |newRow| == rowPtr[index + 1]
    modifies data
    ensures Rows(data[..], rowPtr[..]) == old(Rows(data[..], rowPtr[..]))[index := newRow]
  {
    ghost var before := data[..];
    var start := rowPtr[index];
    assert rowPtr[..][index + 1] <= rowPtr[..][rowPtr.Length - 1];
    forall k | 0 <= k < |newRow| {
      data[start + k] := newRow[k];
    }
    WriteSegment(before, data[..], rowPtr[..], index, newRow);
  }

  /** The row lengths after the update. */
  method UpdatedRowLengths(rowPtr: array<nat>, updRowPtr: array<nat>, indices: seq<nat>, ghost rows: Column,
                           ghost upd: Column)
    returns (rowLengths: seq<nat>)
    requires rowPtr.Length == |rows| + 1 && updRowPtr.Length == |upd| + 1 == |indices| + 1
    requires forall i :: 0 <= i < |rows| ==> rowPtr[i + 1] == rowPtr[i] + |rows[i]|
    requires forall k :: 0 <= k < |upd| ==> updRowPtr[k + 1] == updRowPtr[k] + |upd[k]|
    requires ValidTargets(indices, |rows|)
    ensures |rowLengths| == |rows|
    ensures forall i :: 0 <= i < |rows| ==> rowLengths[i] == |Overwrite(rows, indices, upd)[i]|
  {
    rowLengths := [];
    for i := 0 to rowPtr.Length - 1
      invariant |rowLengths| == i && forall j :: 0 <= j < i ==> rowLengths[j] == |rows[j]|
    {
      rowLengths := rowLengths + [rowPtr[i + 1] - rowPtr[i]];
    }
    for k := 0 to |indices|
      invariant |rowLengths| == |rows|
      invariant forall i :: 0 <= i < |rows| ==>
        var j := PositionOf(indices, i);
        rowLengths[i] == if 0 <= j < k then |upd[j]| else |rows[i]|
    {
      PositionUnique(indices, k);
      rowLengths := rowLengths[indices[k] := updRowPtr[k + 1] - updRowPtr[k]];
    }
  }

  /** The new buffer has room for exactly the target rows. */
  ghost predicate Fits(rowPtr: seq<nat>, size: nat, target: Column) {
    && IsRowPtr(rowPtr, size) && |rowPtr| == |target| + 1
    && forall i :: 0 <= i < |target| ==> rowPtr[i + 1] == rowPtr[i] + |target[i]|
  }

  /** Copies the rows that are not updated. */
  method CopyOtherRows(data: array<Cell>, rowPtr: array<nat>, newData: array<Cell>, newRowPtr: array<nat>,
                       indices: seq<nat>, ghost target: Column)
    requires data != newData && rowPtr != newRowPtr && IsRowPtr(rowPtr[..], data.Length)
    requires |target| == rowPtr.Length - 1 && Fits(newRowPtr[..], newData.Length, target)
    requires forall i :: 0 <= i < |target| && i !in indices ==> target[i] == Rows(data[..], rowPtr[..])[i]
    modifies newData
    ensures forall i :: 0 <= i < |target| && i !in indices ==> Rows(newData[..], newRowPtr[..])[i] == target[i]
  {
    for i := 0 to rowPtr.Length - 1
      invariant forall j :: 0 <= j < i && j !in indices ==> Rows(newData[..], newRowPtr[..])[j] == target[j]
    {
      if i !in indices {
        var row := GetRow(data, rowPtr, i);
        SetRow(newData, newRowPtr, i, row);
      }
    }
  }

  lemma TargetFits(newRowPtr: seq<nat>, size: nat, rows: Column, indices: seq<nat>, upd: Column, k: nat)
    requires |indices| == |upd| && ValidTargets(indices, |rows|) && k < |indices|
    requires Fits(newRowPtr, size, Overwrite(rows, indices, upd))
    ensures |newRowPtr| == |rows| + 1 && newRowPtr[indices[k]] + |upd[k]| == newRowPtr[indices[k] + 1]
  {
    PositionUnique(indices, k);
  }

  lemma NothingWritten(before: Column, rows: Column, flags: seq<bool>, cmp: Comparator)
    requires |flags| == |rows|
    ensures Overwrite(before, [], []) == before && ChangeFlags(flags, rows, [], [], cmp) == flags
  {
  }

  /** Writes the updated rows and compares each with the row that it replaces. */
  method WriteUpdatedRows(data: array<Cell>, rowPtr: array<nat>, updData: array<Cell>, updRowPtr: array<nat>,
                          newData: array<Cell>, newRowPtr: array<nat>, indices: seq<nat>, cmp: Comparator,
                          changes: array<bool>, ghost rows: Column, ghost upd: Column)
    requires newData !in {data, updData}
    requires IsRowPtr(rowPtr[..], data.Length) && rows == Rows(data[..], rowPtr[..])
    requires IsRowPtr(updRowPtr[..], updData.Length) && upd == Rows(updData[..], updRowPtr[..])
    requires |indices| == |upd| && ValidTargets(indices, |rows|) && changes.Length == |rows|
    requires Fits(newRowPtr[..], newData.Length, Overwrite(rows, indices, upd))
    modifies newData, changes
    ensures Rows(newData[..], newRowPtr[..]) == Overwrite(old(Rows(newData[..], newRowPtr[..])), indices, upd)
    ensures changes[..] == ChangeFlags(old(changes[..]), rows, indices, upd, cmp)
  {
    hide Overwrite, ChangeFlags, IsRowPtr, Comparator.SameRow;
    ghost var before, flags := Rows(newData[..], newRowPtr[..]), changes[..];
    NothingWritten(before, rows, flags, cmp);
    for k := 0 to |indices|
      invariant Rows(newData[..], newRowPtr[..]) == Overwrite(before, indices[..k], upd[..k])
      invariant changes[..] == ChangeFlags(flags, rows, indices[..k], upd[..k], cmp)
    {
      var pos := indices[k];
      var oldRow := GetRow(data, rowPtr, pos);
      var newRow := GetRow(updData, updRowPtr, k);
      TargetFits(newRowPtr[..], newData.Length, rows, indices, upd, k);
      changes[pos] := !cmp.SameRow(oldRow, newRow);
      SetRow(newData, newRowPtr, pos, newRow);
      OverwriteStep(before, indices, upd, flags, cmp, k);
      OverwriteStep(rows, indices, upd, flags, cmp, k);
    }
    assert indices[..|indices|] == indices && upd[..|upd|] == upd;
  }

  /** Replaces rows of a CSR array, and notes at the updated positions whether the row changed. */
  method UpdateCsrArray(data: array<Cell>, rowPtr: array<nat>, updData: array<Cell>, updRowPtr: array<nat>,
                        indices: seq<nat>, cmp: Comparator, changes: array<bool>)
    returns (newData: array<Cell>, newRowPtr: array<nat>)
    requires IsRowPtr(rowPtr[..], data.Length) && IsRowPtr(updRowPtr[..], updData.Length)
    requires |indices| == updRowPtr.Length - 1 && ValidTargets(indices, rowPtr.Length - 1)
    requires changes.Length == rowPtr.Length - 1
    modifies changes
    ensures fresh(newData) && fresh(newRowPtr) && IsRowPtr(newRowPtr[..], newData.Length)
    ensures Rows(newData[..], newRowPtr[..])
         == Overwrite(Rows(data[..], rowPtr[..]), indices, Rows(updData[..], updRowPtr[..]))
    ensures changes[..]
         == ChangeFlags(old(changes[..]), Rows(data[..], rowPtr[..]), indices, Rows(updData[..], updRowPtr[..]), cmp)
  {
    ghost var rows, upd := Rows(data[..], rowPtr[..]), Rows(updData[..], updRowPtr[..]);
    ghost var target := Overwrite(rows, indices, upd);
    var rowLengths := UpdatedRowLengths(rowPtr, updRowPtr, indices, rows, upd);
    newData, newRowPtr := GetNewCsrArray(rowLengths);
    CopyOtherRows(data, rowPtr, newData, newRowPtr, indices, target);
    WriteUpdatedRows(data, rowPtr, updData, updRowPtr, newData, newRowPtr, indices, cmp, changes, rows, upd);
    assert Rows(newData[..], newRowPtr[..]) == target;
  }

  /** Drops the undefined rows of an update. The buffers are allocated before the rows are looked at:
      one row less per undefined cell. */
  method RemoveUndefinedCsr(data: array<Cell>, rowPtr: array<nat>, indices: seq<nat>, numUndefined: nat)
    returns (newData: array<Cell>, newRowPtr: array<nat>, newIndices: array<nat>)
    requires IsRowPtr(rowPtr[..], data.Length) && |indices| == rowPtr.Length - 1
    requires numUndefined == CountUndefined(data[..]) && UndefinedOnlyAlone(Rows(data[..], rowPtr[..]))
    ensures fresh(newData) && fresh(newRowPtr) && IsRowPtr(newRowPtr[..], newData.Length)
    ensures Rows(newData[..], newRowPtr[..]) == KeptRows(Rows(data[..], rowPtr[..]), |indices|)
    ensures newIndices[..] == KeptIndices(Rows(data[..], rowPtr[..]), indices, |indices|)
  {
    ghost var rows := Rows(data[..], rowPtr[..]);
    ghost var all := KeptRows(rows, |indices|);
    AllocationExact(data[..], rowPtr[..]);
    newData := new Cell[data.Length - numUndefined];
    newRowPtr := new nat[rowPtr.Length - numUndefined];
    newIndices := new nat[|indices| - numUndefined];
    newRowPtr[0] := 0;
    CopyKeptRows(data, rowPtr, indices, newData, newRowPtr, newIndices);
    assert newData[..] == Flatten(all) && newRowPtr[..] == Pointers(all);
    RowsOfFlatten(all);
  }

  method CopyKeptRows(data: array<Cell>, rowPtr: array<nat>, indices: seq<nat>,
                      newData: array<Cell>, newRowPtr: array<nat>, newIndices: array<nat>)
    requires IsRowPtr(rowPtr[..], data.Length) && |indices| == rowPtr.Length - 1
    requires newData != data && newRowPtr != newIndices && rowPtr !in {newRowPtr, newIndices}
    requires newData.Length == |Flatten(KeptRows(Rows(data[..], rowPtr[..]), |indices|))|
    requires newRowPtr.Length - 1 == newIndices.Length == |KeptRows(Rows(data[..], rowPtr[..]), |indices|)|
    requires newRowPtr[0] == 0
    modifies newData, newRowPtr, newIndices
    ensures Filled(newData[..], newRowPtr[..], newIndices[..], KeptRows(Rows(data[..], rowPtr[..]), |indices|),
                   KeptIndices(Rows(data[..], rowPtr[..]), indices, |indices|))
  {
    hide KeptRows, KeptIndices, Flatten, Pointers, Filled, IsRowPtr;
    ghost var rows := Rows(data[..], rowPtr[..]);
    var current := 0;
    NothingFilled(newData[..], newRowPtr[..], newIndices[..], rows, indices);
    for i := 0 to |indices|
      invariant current == |KeptRows(rows, i)|
      invariant Filled(newData[..], newRowPtr[..], newIndices[..], KeptRows(rows, i), KeptIndices(rows, indices, i))
    {
      var row := GetRow(data, rowPtr, i);
      KeptStep(rows, indices, i);
      if row != UNDEFINED_ROW {
        ghost var kept := KeptRows(rows, i);
        FillNext(newData, newRowPtr, newIndices, current, kept, KeptIndices(rows, indices, i), row, indices[i]);
        current := current + 1;
      }
    }
  }

  /** Subtracting the undefined cells from the number of rows and of cells gives exactly the size of
      the defined rows if and only if no undefined cell stands in a longer row. */
  lemma AllocationExact(data: seq<Cell>, rowPtr: seq<nat>)
    requires IsRowPtr(rowPtr, |data|)
    ensures UndefinedOnlyAlone(Rows(data, rowPtr))
       <==> |rowPtr| - 1 - CountUndefined(data) == |KeptRows(Rows(data, rowPtr), |rowPtr| - 1)|
    ensures UndefinedOnlyAlone(Rows(data, rowPtr))
        ==> |data| - CountUndefined(data) == |Flatten(KeptRows(Rows(data, rowPtr), |rowPtr| - 1))|
  {
    var n := |rowPtr| - 1;
    UndefinedCellsAndRows(data, rowPtr, n);
    assert data[..rowPtr[n]] == data && Rows(data, rowPtr)[..n] == Rows(data, rowPtr);
  }

  /** The buffers begin with the CSR form of the given rows, and with their targets. */
  ghost predicate Filled(data: seq<Cell>, rowPtr: seq<nat>, targets: seq<nat>, rows: Column, indices: seq<nat>) {
    && |Flatten(rows)| <= |data| && |rows| < |rowPtr| && |rows| == |indices| <= |targets|
    && data[..|Flatten(rows)|] == Flatten(rows)
    && rowPtr[..|rows| + 1] == Pointers(rows)
    && targets[..|rows|] == indices
  }

  lemma NothingFilled(data: seq<Cell>, rowPtr: seq<nat>, targets: seq<nat>, rows: Column, indices: seq<nat>)
    requires |rows| == |indices| && rowPtr != [] && rowPtr[0] == 0
    ensures KeptRows(rows, 0) == [] && Filled(data, rowPtr, targets, KeptRows(rows, 0), KeptIndices(rows, indices, 0))
  {
  }

  /** The row at i is kept unless it is undefined, and there is room for it. */
  lemma KeptStep(rows: Column, indices: seq<nat>, i: nat)
    requires i < |rows| == |indices|
    ensures var row, kept, targets := rows[i], KeptRows(rows, i), KeptIndices(rows, indices, i);
      if row == UNDEFINED_ROW then KeptRows(rows, i + 1) == kept && KeptIndices(rows, indices, i + 1) == targets
      else
        && KeptRows(rows, i + 1) == kept + [row] && KeptIndices(rows, indices, i + 1) == targets + [indices[i]]
        && |kept| < |KeptRows(rows, |rows|)| && |Flatten(kept + [row])| <= |Flatten(KeptRows(rows, |rows|))|
  {
    hide Flatten;
    if rows[i] != UNDEFINED_ROW {
      KeptMonotone(rows, i + 1, |rows|);
      FlattenPrefix(KeptRows(rows, i + 1), KeptRows(rows, |rows|));
    }
  }

  lemma {:induction false} FlattenPrefix(rows: Column, all: Column)
    requires rows <= all
    ensures |Flatten(rows)| <= |Flatten(all)|
  {
    if |rows| < |all| {
      FlattenPrefix(rows, all[..|all| - 1]);
    } else {
      assert rows == all;
    }
  }

  /** Appends one row to the filled part of the buffers. */
  method FillNext(data: array<Cell>, rowPtr: array<nat>, targets: array<nat>, current: nat,
                  ghost rows: Column, ghost indices: seq<nat>, row: Row, index: nat)
    requires rowPtr != targets && current == |rows|
    requires Filled(data[..], rowPtr[..], targets[..], rows, indices)
    requires current + 1 < rowPtr.Length && current < targets.Length && |Flatten(rows + [row])| <= data.Length
    modifies data, rowPtr, targets
    ensures Filled(data[..], rowPtr[..], targets[..], rows + [row], indices + [index])
  {
    ghost var more := rows + [row];
    assert more[..current] == rows;
    assert rowPtr[current] == rowPtr[..current + 1][current] == |Flatten(rows)|;
    var start := rowPtr[current];
    rowPtr[current + 1] := start + |row|;
    targets[current] := index;
    assert rowPtr[..current + 1] == Pointers(rows);
    assert rowPtr[..current + 2] == Pointers(more);
    ghost var before := data[..];
    forall k | 0 <= k < |row| {
      data[start + k] := row[k];
    }
    assert data[..start] == before[..start];
    assert data[..start + |row|] == data[..start] + row;
  }

  ghost predicate ValidSources(sources: seq<Option<nat>>, n: nat) {
    forall k :: 0 <= k < |sources| && sources[k].Some? ==> sources[k].value < n
  }

  /** One row per source: a row of the column, or the undefined row. */
  function Gathered(rows: Column, sources: seq<Option<nat>>): (r: Column)
    requires ValidSources(sources, |rows|)
    ensures |r| == |sources|
  {
    seq(|sources|, k requires 0 <= k < |sources| =>
      match sources[k] case Some(i) => rows[i] case None => UNDEFINED_ROW)
  }

  method GatheredLengths(data: array<Cell>, rowPtr: array<nat>, sources: seq<Option<nat>>)
    returns (rowLengths: seq<nat>)
    requires IsRowPtr(rowPtr[..], data.Length) && ValidSources(sources, rowPtr.Length - 1)
    ensures |rowLengths| == |sources|
    ensures forall j :: 0 <= j < |sources| ==> rowLengths[j] == |Gathered(Rows(data[..], rowPtr[..]), sources)[j]|
  {
    ghost var rows := Rows(data[..], rowPtr[..]);
    rowLengths := [];
    for k := 0 to |sources|
      invariant |rowLengths| == k && forall j :: 0 <= j < k ==> rowLengths[j] == |Gathered(rows, sources)[j]|
    {
      var rowLength := 1;
      if sources[k].Some? {
        var p := sources[k].value;
        assert |rows[p]| == rowPtr[p + 1] - rowPtr[p];
        rowLength := rowPtr[p + 1] - rowPtr[p];
      }
      rowLengths := rowLengths + [rowLength];
    }
  }

  /** Fills a new CSR array row by row. */
  method GatherRows(data: array<Cell>, rowPtr: array<nat>, sources: seq<Option<nat>>)
    returns (newData: array<Cell>, newRowPtr: array<nat>)
    requires IsRowPtr(rowPtr[..], data.Length) && ValidSources(sources, rowPtr.Length - 1)
    ensures fresh(newData) && fresh(newRowPtr) && IsRowPtr(newRowPtr[..], newData.Length)
    ensures Rows(newData[..], newRowPtr[..]) == Gathered(Rows(data[..], rowPtr[..]), sources)
  {
    ghost var target := Gathered(Rows(data[..], rowPtr[..]), sources);
    var rowLengths := GatheredLengths(data, rowPtr, sources);
    newData, newRowPtr := GetNewCsrArray(rowLengths);
    ghost var ptr := newRowPtr[..];
    assert Fits(ptr, newData.Length, target);
    for k := 0 to |sources|
      invariant newRowPtr[..] == ptr
      invariant forall j :: 0 <= j < k ==> Rows(newData[..], ptr)[j] == target[j]
    {
      var row := UNDEFINED_ROW;
      if sources[k].Some? {
        row := GetRow(data, rowPtr, sources[k].value);
      }
      SetRow(newData, newRowPtr, k, row);
    }
    assert Rows(newData[..], ptr) == target;
  }

  method SliceCsrArray(data: array<Cell>, rowPtr: array<nat>, indices: seq<nat>)
    returns (sliceData: array<Cell>, sliceRowPtr: array<nat>)
    requires IsRowPtr(rowPtr[..], data.Length) && forall k :: 0 <= k < |indices| ==> indices[k] < rowPtr.Length - 1
    ensures fresh(sliceData) && fresh(sliceRowPtr) && IsRowPtr(sliceRowPtr[..], sliceData.Length)
    ensures Rows(sliceData[..], sliceRowPtr[..]) == Select(Rows(data[..], rowPtr[..]), indices)
  {
    var sources := seq(|indices|, k requires 0 <= k < |indices| => Some(indices[k]));
    sliceData, sliceRowPtr := GatherRows(data, rowPtr, sources);
    assert Gathered(Rows(data[..], rowPtr[..]), sources) == Select(Rows(data[..], rowPtr[..]), indices);
  }

  /** The rows under the mask, with one undefined cell for a row that did not change. */
  method GenerateUpdate(data: array<Cell>, rowPtr: array<nat>, mask: seq<bool>, changed: seq<bool>)
    returns (updData: array<Cell>, updRowPtr: array<nat>)
    requires IsRowPtr(rowPtr[..], data.Length) && |mask| == |changed| == rowPtr.Length - 1
    ensures fresh(updData) && fresh(updRowPtr) && IsRowPtr(updRowPtr[..], updData.Length)
    ensures Rows(updData[..], updRowPtr[..]) == MaskedRows(Rows(data[..], rowPtr[..]), mask, changed)
  {
    var positions := Flatnonzero(mask, |mask|);
    assert forall k :: 0 <= k < |positions| ==> positions[k] in positions;
    var sources := seq(|positions|, k requires 0 <= k < |positions| =>
      if changed[positions[k]] then Some(positions[k]) else None);
    updData, updRowPtr := GatherRows(data, rowPtr, sources);
    assert Gathered(Rows(data[..], rowPtr[..]), sources) == MaskedRows(Rows(data[..], rowPtr[..]), mask, changed);
  }
}
