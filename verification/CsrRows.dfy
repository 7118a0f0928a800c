/** What the CSR kernels mean for the rows they store: overwriting rows, patching rows with an update
    that may hold undefined rows, and selecting rows by a mask. */
module CsrRows {
  import opened Cells
  import opened EntityIndex

  /** Row pointers start at zero, never decrease and end at the number of cells. */
  ghost predicate IsRowPtr(rowPtr: seq<nat>, size: nat) {
    && |rowPtr| > 0 && rowPtr[0] == 0 && rowPtr[|rowPtr| - 1] == size
    && forall i, j :: 0 <= i <= j < |rowPtr| ==> rowPtr[i] <= rowPtr[j]
  }

  /** The rows that a pair of cells and row pointers stands for. */
  function Rows(data: seq<Cell>, rowPtr: seq<nat>): (rows: Column)
    requires IsRowPtr(rowPtr, |data|)
    ensures |rows| == |rowPtr| - 1
    ensures forall i :: 0 <= i < |rows| ==> rows[i] == data[rowPtr[i]..rowPtr[i + 1]]
  {
    seq(|rowPtr| - 1, i requires 0 <= i < |rowPtr| - 1 => data[rowPtr[i]..rowPtr[i + 1]])
  }

  /** The one CSR form of a column: its cells one after the other, and the ends of its rows. */
  function Flatten(rows: Column): seq<Cell> {
    if rows == [] then [] else Flatten(rows[..|rows| - 1]) + rows[|rows| - 1]
  }

  function Pointers(rows: Column): (rowPtr: seq<nat>)
    ensures |rowPtr| == |rows| + 1
  {
    if rows == [] then [0] else Pointers(rows[..|rows| - 1]) + [|Flatten(rows)|]
  }

  lemma SliceOfPrefix(a: seq<Cell>, b: seq<Cell>, lo: nat, hi: nat)
    requires lo <= hi <= |a|
    ensures (a + b)[lo..hi] == a[lo..hi] && (a + b)[|a|..] == b
  {
  }

  /** One row more at the end. */
  lemma AppendRow(data: seq<Cell>, rowPtr: seq<nat>, row: Row)
    requires IsRowPtr(rowPtr, |data|)
    ensures IsRowPtr(rowPtr + [|data + row|], |data + row|)
    ensures Rows(data + row, rowPtr + [|data + row|]) == Rows(data, rowPtr) + [row]
  {
    var all, ptr := data + row, rowPtr + [|data + row|];
    forall i | 0 <= i < |rowPtr|
      ensures all[ptr[i]..ptr[i + 1]] == (Rows(data, rowPtr) + [row])[i]
    {
      if i < |rowPtr| - 1 {
        SliceOfPrefix(data, row, rowPtr[i], rowPtr[i + 1]);
      } else {
        SliceOfPrefix(data, row, 0, 0);
      }
    }
  }

  lemma {:induction false} RowsOfFlatten(rows: Column)
    ensures IsRowPtr(Pointers(rows), |Flatten(rows)|)
    ensures Rows(Flatten(rows), Pointers(rows)) == rows
  {
    hide IsRowPtr, Rows;
    if rows == [] {
      NoRows();
    } else {
      var front := rows[..|rows| - 1];
      RowsOfFlatten(front);
      AppendRow(Flatten(front), Pointers(front), rows[|rows| - 1]);
    }
  }

  lemma NoRows()
    ensures IsRowPtr([0], 0) && Rows([], [0]) == []
  {
  }

  lemma RowBounds(data: seq<Cell>, rowPtr: seq<nat>, i: nat)
    requires IsRowPtr(rowPtr, |data|) && i < |rowPtr| - 1
    ensures rowPtr[0] == 0 && rowPtr[i] <= rowPtr[i + 1] <= |data|
    ensures data[..rowPtr[i + 1]] == data[..rowPtr[i]] + data[rowPtr[i]..rowPtr[i + 1]]
  {
  }

  lemma {:induction false} FlattenOfRows(data: seq<Cell>, rowPtr: seq<nat>, n: nat)
    requires IsRowPtr(rowPtr, |data|) && n < |rowPtr|
    ensures rowPtr[n] <= |data|
    ensures Flatten(Rows(data, rowPtr)[..n]) == data[..rowPtr[n]]
    ensures Pointers(Rows(data, rowPtr)[..n]) == rowPtr[..n + 1]
  {
    hide IsRowPtr, Flatten, Pointers;
    var rows := Rows(data, rowPtr);
    if n == 0 {
      FirstPointer(rowPtr, |data|);
      assert rows[..0] == [] && data[..0] == [];
    } else {
      RowBounds(data, rowPtr, n - 1);
      FlattenOfRows(data, rowPtr, n - 1);
      FlattenLast(rows[..n - 1], rows[n - 1]);
      assert rows[..n] == rows[..n - 1] + [rows[n - 1]];
      assert rowPtr[..n + 1] == rowPtr[..n] + [rowPtr[n]];
    }
  }

  lemma FirstPointer(rowPtr: seq<nat>, size: nat)
    requires IsRowPtr(rowPtr, size)
    ensures rowPtr[0] == 0 && rowPtr[..1] == [0] == Pointers([]) && Flatten([]) == []
  {
  }

  lemma FlattenLast(rows: Column, row: Row)
    ensures Flatten(rows + [row]) == Flatten(rows) + row
    ensures Pointers(rows + [row]) == Pointers(rows) + [|Flatten(rows + [row])|]
  {
    assert (rows + [row])[..|rows|] == rows;
  }

  /** The bounds of two rows. */
  lemma RowsApart(rowPtr: seq<nat>, size: nat, i: nat, index: nat)
    requires IsRowPtr(rowPtr, size) && i < |rowPtr| - 1 && index < |rowPtr| - 1
    ensures rowPtr[i] <= rowPtr[i + 1] <= size
    ensures i < index ==> rowPtr[i + 1] <= rowPtr[index]
    ensures index < i ==> rowPtr[index + 1] <= rowPtr[i]
  {
  }

  lemma SameSegment(a: seq<Cell>, b: seq<Cell>, lo: nat, hi: nat)
    requires lo <= hi <= |a| == |b| && forall k :: lo <= k < hi ==> a[k] == b[k]
    ensures a[lo..hi] == b[lo..hi]
  {
  }

  /** Rows are disjoint segments: writing one of them changes no other row. */
  lemma WriteSegment(before: seq<Cell>, after: seq<Cell>, rowPtr: seq<nat>, index: nat, row: Row)
    requires IsRowPtr(rowPtr, |before|) && |after| == |before| && index < |rowPtr| - 1
    requires rowPtr[index] + |row| == rowPtr[index + 1]
    requires forall k :: 0 <= k < |after| ==>
      after[k] == if rowPtr[index] <= k < rowPtr[index + 1] then row[k - rowPtr[index]] else before[k]
    ensures Rows(after, rowPtr) == Rows(before, rowPtr)[index := row]
  {
    hide IsRowPtr;
    RowsApart(rowPtr, |before|, index, index);
    assert after[rowPtr[index]..rowPtr[index + 1]] == row;
    var written, old_ := Rows(after, rowPtr), Rows(before, rowPtr);
    forall i | 0 <= i < |written|
      ensures written[i] == if i == index then row else old_[i]
    {
      RowsApart(rowPtr, |before|, i, index);
      if i != index {
        SameSegment(after, before, rowPtr[i], rowPtr[i + 1]);
      }
    }
  }

  ghost predicate ValidTargets(indices: seq<nat>, n: nat) {
    Distinct(indices) && forall k :: 0 <= k < |indices| ==> indices[k] < n
  }

  /** Row indices[k] becomes row k of the update; all other rows stay. */
  function Overwrite(column: Column, indices: seq<nat>, upd: Column): (r: Column)
    requires |indices| == |upd|
    ensures |r| == |column|
  {
    seq(|column|, i requires 0 <= i < |column| =>
      var k := PositionOf(indices, i); if k == -1 then column[i] else upd[k])
  }

  /** At the updated rows, whether the new row differs from the row it replaces. */
  function ChangeFlags(flags: seq<bool>, column: Column, indices: seq<nat>, upd: Column, cmp: Comparator)
    : (r: seq<bool>)
    requires |indices| == |upd| && |flags| == |column|
    ensures |r| == |flags|
  {
    seq(|flags|, i requires 0 <= i < |flags| =>
      var k := PositionOf(indices, i); if k == -1 then flags[i] else !cmp.SameRow(column[i], upd[k]))
  }

  lemma PositionInPrefix(indices: seq<nat>, k: nat, i: int)
    requires Distinct(indices) && k < |indices|
    ensures PositionOf(indices[..k + 1], i) == if i == indices[k] then k else PositionOf(indices[..k], i)
  {
    assert indices[..k + 1] == indices[..k] + [indices[k]];
    PositionStable(indices[..k], [indices[k]], i);
    assert indices[k] !in indices[..k];
  }

  /** Overwriting one row more. */
  lemma OverwriteStep(column: Column, indices: seq<nat>, upd: Column, flags: seq<bool>, cmp: Comparator, k: nat)
    requires |indices| == |upd| && ValidTargets(indices, |column|) && k < |upd| && |flags| == |column|
    ensures Overwrite(column, indices[..k + 1], upd[..k + 1])
         == Overwrite(column, indices[..k], upd[..k])[indices[k] := upd[k]]
    ensures ChangeFlags(flags, column, indices[..k + 1], upd[..k + 1], cmp)
         == ChangeFlags(flags, column, indices[..k], upd[..k], cmp)
              [indices[k] := !cmp.SameRow(column[indices[k]], upd[k])]
  {
    forall i | 0 <= i < |column|
      ensures PositionOf(indices[..k + 1], i) == if i == indices[k] then k else PositionOf(indices[..k], i)
    {
      PositionInPrefix(indices, k, i);
    }
  }

  /** As Overwrite, but an undefined row of the update leaves the row as it was unless undefined rows
      are processed too. */
  function Patch(column: Column, indices: seq<nat>, upd: Column, processUndefined: bool): (r: Column)
    requires |indices| == |upd|
    ensures |r| == |column|
  {
    seq(|column|, i requires 0 <= i < |column| =>
      var k := PositionOf(indices, i);
      if k == -1 || (!processUndefined && upd[k] == UNDEFINED_ROW) then column[i] else upd[k])
  }

  lemma PatchAt(column: Column, indices: seq<nat>, upd: Column, processUndefined: bool, k: nat)
    requires |indices| == |upd| && ValidTargets(indices, |column|) && k < |indices|
    ensures Patch(column, indices, upd, processUndefined)[indices[k]]
         == if !processUndefined && upd[k] == UNDEFINED_ROW then column[indices[k]] else upd[k]
  {
    PositionUnique(indices, k);
  }

  // ----- removing undefined rows

  /** The defined rows among the first n. */
  function KeptRows(rows: Column, n: nat): (kept: Column)
    requires n <= |rows|
    ensures |kept| <= n
  {
    if n == 0 then []
    else if rows[n - 1] == UNDEFINED_ROW then KeptRows(rows, n - 1)
    else KeptRows(rows, n - 1) + [rows[n - 1]]
  }

  /** The targets of the defined rows among the first n. */
  function KeptIndices(rows: Column, indices: seq<nat>, n: nat): (kept: seq<nat>)
    requires n <= |rows| == |indices|
    ensures |kept| == |KeptRows(rows, n)|
    ensures forall i :: i in kept ==> i in indices[..n]
  {
    if n == 0 then []
    else
      assert indices[..n] == indices[..n - 1] + [indices[n - 1]];
      if rows[n - 1] == UNDEFINED_ROW then KeptIndices(rows, indices, n - 1)
      else KeptIndices(rows, indices, n - 1) + [indices[n - 1]]
  }

  lemma {:induction false} KeptMonotone(rows: Column, m: nat, n: nat)
    requires m <= n <= |rows|
    ensures KeptRows(rows, m) <= KeptRows(rows, n)
  {
    if m < n {
      KeptMonotone(rows, m, n - 1);
    }
  }

  /** What the kept rows say about one target. */
  lemma {:induction false} KeptAt(rows: Column, indices: seq<nat>, n: nat, i: nat)
    requires n <= |rows| == |indices| && Distinct(indices)
    ensures Distinct(KeptIndices(rows, indices, n))
    ensures var k, j := PositionOf(indices[..n], i), PositionOf(KeptIndices(rows, indices, n), i);
      if k == -1 || rows[k] == UNDEFINED_ROW then j == -1
      else 0 <= j < |KeptRows(rows, n)| && KeptRows(rows, n)[j] == rows[k]
  {
    hide Distinct, PositionOf;
    if n == 0 {
      NothingKept(rows, indices, i);
    } else {
      var at, kept := indices[n - 1], KeptIndices(rows, indices, n - 1);
      KeptAt(rows, indices, n - 1, i);
      DistinctPrefix(indices, n);
      assert indices[..n] == indices[..n - 1] + [at];
      PositionAppend(indices[..n - 1], at, i);
      if rows[n - 1] != UNDEFINED_ROW {
        assert at !in kept;
        DistinctAppend(kept, at);
        PositionAppend(kept, at, i);
      }
    }
  }

  lemma PositionAppend(ids: seq<int>, at: int, i: int)
    requires Distinct(ids + [at])
    ensures PositionOf(ids + [at], i) == if i == at then |ids| else PositionOf(ids, i)
  {
    var all := ids + [at];
    assert forall k :: 0 <= k < |ids| ==> all[k] == ids[k] != all[|ids|];
    PositionStable(ids, [at], i);
    PositionOfOne(at, i);
  }

  lemma NothingKept(rows: Column, indices: seq<nat>, i: nat)
    requires |rows| == |indices|
    ensures Distinct(KeptIndices(rows, indices, 0))
    ensures PositionOf(indices[..0], i) == PositionOf(KeptIndices(rows, indices, 0), i) == -1
  {
  }

  lemma DistinctPrefix(indices: seq<nat>, n: nat)
    requires Distinct(indices) && 0 < n <= |indices|
    ensures Distinct(indices[..n]) && indices[n - 1] !in indices[..n - 1]
  {
  }

  lemma DistinctAppend(indices: seq<nat>, at: nat)
    requires Distinct(indices) && at !in indices
    ensures Distinct(indices + [at])
  {
  }

  lemma PositionOfOne(at: int, i: int)
    ensures PositionOf([at], i) == if i == at then 0 else -1
  {
  }

  /** Removing the undefined rows first and overwriting the rest patches the column. */
  lemma StripThenOverwrite(column: Column, indices: seq<nat>, upd: Column)
    requires |indices| == |upd| && Distinct(indices)
    ensures Overwrite(column, KeptIndices(upd, indices, |upd|), KeptRows(upd, |upd|))
         == Patch(column, indices, upd, false)
  {
    assert indices[..|upd|] == indices;
    forall i | 0 <= i < |column|
      ensures Overwrite(column, KeptIndices(upd, indices, |upd|), KeptRows(upd, |upd|))[i]
           == Patch(column, indices, upd, false)[i]
    {
      KeptAt(upd, indices, |upd|, i);
    }
  }

  function CountUndefined(cells: seq<Cell>): (n: nat)
    ensures n <= |cells|
  {
    if cells == [] then 0
    else CountUndefined(cells[..|cells| - 1]) + (if cells[|cells| - 1] == Undefined then 1 else 0)
  }

  lemma {:induction false} CountAppend(a: seq<Cell>, b: seq<Cell>)
    ensures CountUndefined(a + b) == CountUndefined(a) + CountUndefined(b)
  {
    if b == [] {
      assert a + b == a;
    } else {
      CountAppend(a, b[..|b| - 1]);
      assert (a + b)[..|a + b| - 1] == a + b[..|b| - 1];
    }
  }

  lemma {:induction false} CountPositive(cells: seq<Cell>, k: nat)
    requires k < |cells|
    ensures CountUndefined(cells) == 0 ==> cells[k] != Undefined
    ensures Undefined !in cells ==> CountUndefined(cells) == 0
  {
    if k < |cells| - 1 {
      CountPositive(cells[..|cells| - 1], k);
    } else if |cells| > 1 {
      CountPositive(cells[..|cells| - 1], 0);
    }
  }

  /** The undefined cells outnumber the undefined rows, unless undefined cells only stand alone. */
  lemma {:induction false} UndefinedCellsAndRows(data: seq<Cell>, rowPtr: seq<nat>, n: nat)
    requires IsRowPtr(rowPtr, |data|) && n < |rowPtr|
    ensures rowPtr[n] <= |data|
    ensures CountUndefined(data[..rowPtr[n]]) >= n - |KeptRows(Rows(data, rowPtr), n)|
    ensures CountUndefined(data[..rowPtr[n]]) == n - |KeptRows(Rows(data, rowPtr), n)|
       <==> UndefinedOnlyAlone(Rows(data, rowPtr)[..n])
    ensures UndefinedOnlyAlone(Rows(data, rowPtr)[..n])
        ==> |Flatten(KeptRows(Rows(data, rowPtr), n))| + CountUndefined(data[..rowPtr[n]]) == rowPtr[n]
  {
    hide Clean, UndefinedOnlyAlone, IsRowPtr, CountUndefined, Flatten, KeptRows;
    var rows := Rows(data, rowPtr);
    if n == 0 {
      PointersStartAtZero(data, rowPtr);
      KeptNone(rows);
      assert data[..0] == [] && rows[..0] == [];
    } else {
      UndefinedCellsAndRows(data, rowPtr, n - 1);
      var row := rows[n - 1];
      RowBounds(data, rowPtr, n - 1);
      CountAppend(data[..rowPtr[n - 1]], row);
      RowCount(row);
      OneRowKept(rows, n);
      OnlyAloneAppend(rows[..n - 1], row);
    }
  }

  lemma KeptNone(rows: Column)
    ensures KeptRows(rows, 0) == [] && Flatten([]) == []
  {
  }

  lemma OneRowKept(rows: Column, n: nat)
    requires 0 < n <= |rows|
    ensures rows[..n] == rows[..n - 1] + [rows[n - 1]]
    ensures var kept := KeptRows(rows, n - 1);
      && |KeptRows(rows, n)| == |kept| + (if rows[n - 1] == UNDEFINED_ROW then 0 else 1)
      && |Flatten(KeptRows(rows, n))| == |Flatten(kept)| + (if rows[n - 1] == UNDEFINED_ROW then 0 else |rows[n - 1]|)
  {
    FlattenLast(KeptRows(rows, n - 1), rows[n - 1]);
  }

  lemma PointersStartAtZero(data: seq<Cell>, rowPtr: seq<nat>)
    requires IsRowPtr(rowPtr, |data|)
    ensures rowPtr[0] == 0 && CountUndefined(data[..rowPtr[0]]) == 0 && UndefinedOnlyAlone([])
  {
  }

  ghost predicate Clean(row: Row) {
    row == UNDEFINED_ROW || Undefined !in row
  }

  lemma RowCount(row: Row)
    ensures CountUndefined(row) >= if row == UNDEFINED_ROW then 1 else 0
    ensures CountUndefined(row) == (if row == UNDEFINED_ROW then 1 else 0) <==> Clean(row)
  {
    if row == UNDEFINED_ROW {
      assert row[..0] == [];
    } else if row != [] {
      CountPositive(row, 0);
      forall k | 0 <= k < |row|
        ensures CountUndefined(row) == 0 ==> row[k] != Undefined
      {
        CountPositive(row, k);
      }
    }
  }

  lemma OnlyAloneAppend(rows: Column, row: Row)
    ensures UndefinedOnlyAlone(rows + [row]) <==> UndefinedOnlyAlone(rows) && Clean(row)
  {
    var all := rows + [row];
    assert all[|rows|] == row;
    assert forall i :: 0 <= i < |rows| ==> all[i] == rows[i];
    if |row| == 1 && row[0] == Undefined {
      assert row == UNDEFINED_ROW;
    }
  }

  // ----- selecting rows

  /** The positions below n at which the mask is set. */
  function Flatnonzero(mask: seq<bool>, n: nat): (positions: seq<nat>)
    requires n <= |mask|
    ensures forall p :: p in positions <==> 0 <= p < n && mask[p]
    ensures forall a, b :: 0 <= a < b < |positions| ==> positions[a] < positions[b]
    ensures |positions| <= n
  {
    if n == 0 then []
    else
      var front := Flatnonzero(mask, n - 1);
      assert forall a :: 0 <= a < |front| ==> front[a] in front;
      if mask[n - 1] then front + [n - 1] else front
  }

  function Select(rows: Column, indices: seq<nat>): (r: Column)
    requires forall k :: 0 <= k < |indices| ==> indices[k] < |rows|
    ensures |r| == |indices|
    ensures forall k :: 0 <= k < |indices| ==> r[k] == rows[indices[k]]
  {
    seq(|indices|, k requires 0 <= k < |indices| => rows[indices[k]])
  }

  /** The rows under the mask; a row that did not change is sent as undefined. */
  function MaskedRows(rows: Column, mask: seq<bool>, changed: seq<bool>): (r: Column)
    requires |mask| == |changed| == |rows|
    ensures |r| == |Flatnonzero(mask, |mask|)|
  {
    var positions := Flatnonzero(mask, |mask|);
    seq(|positions|, k requires 0 <= k < |positions| =>
      assert positions[k] in positions;
      if changed[positions[k]] then rows[positions[k]] else UNDEFINED_ROW)
  }

  /** Generating an update under a mask, removing its undefined rows and overwriting the receiver
      gives the sender's defined rows where they changed and the receiver's own rows elsewhere. */
  lemma DeltaReachesReceiver(sender: Column, mask: seq<bool>, changed: seq<bool>,
                             receiver: Column, indices: seq<nat>, i: nat)
    requires |mask| == |changed| == |sender| && i < |receiver|
    requires |indices| == |Flatnonzero(mask, |mask|)| && ValidTargets(indices, |receiver|)
    ensures var positions := Flatnonzero(mask, |mask|);
      var upd := MaskedRows(sender, mask, changed);
      var result := Overwrite(receiver, KeptIndices(upd, indices, |upd|), KeptRows(upd, |upd|));
      var k := PositionOf(indices, i);
      && |result| == |receiver|
      && (k == -1 ==> result[i] == receiver[i])
      && (k != -1 ==>
           positions[k] < |sender| && mask[positions[k]] &&
           result[i] == if changed[positions[k]] && sender[positions[k]] != UNDEFINED_ROW
                        then sender[positions[k]] else receiver[i])
  {
    var positions := Flatnonzero(mask, |mask|);
    var upd := MaskedRows(sender, mask, changed);
    StripThenOverwrite(receiver, indices, upd);
    var k := PositionOf(indices, i);
    if k != -1 {
      assert positions[k] in positions;
    }
  }
}
