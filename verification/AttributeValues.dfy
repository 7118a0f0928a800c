/** An attribute of an entity group as a value: one row per entity, change tracking and the flags that
    say who uses it. Both kinds of attributes update, grow and generate deltas in the same terms. */
module AttributeValues {
  import opened Cells
  import opened EntityIndex
  import opened CsrRows
  import opened ChangeTracking

  datatype Flag = INITIALIZE | SUBSCRIBE | REQUIRED | PUBLISH

  datatype Kind = UNIFORM | CSR

  datatype Attribute =
    | Uniform(tracked: TrackedCells, cmp: Comparator, flags: set<Flag>)
    | Csr(trackedRows: TrackedRows, cmp: Comparator, flags: set<Flag>)
  {
    ghost predicate WellFormed() {
      if Uniform? then CacheFresh(tracked, cmp) else trackedRows.WellFormed()
    }

    function Kind(): Kind {
      if Uniform? then UNIFORM else CSR
    }

    function Rows(): (rows: Column)
      requires WellFormed()
    {
      if Uniform? then Lift(tracked.cells) else trackedRows.rows
    }

    /** The rows at the last reset; entities added since then count as undefined. */
    function Base(): (rows: Column)
      requires WellFormed()
      ensures |rows| == |Rows()|
    {
      if Uniform? then Lift(tracked.base) else trackedRows.base
    }

    function Changed(): (flags: seq<bool>)
      requires WellFormed()
      ensures |flags| == |Rows()|
    {
      if Uniform? then tracked.Changed(cmp) else trackedRows.changed
    }

    /** The update has the shape that the kind of attribute can take. */
    ghost predicate Accepts(targets: seq<nat>, upd: Column)
      requires WellFormed()
    {
      && |targets| == |upd| && ValidTargets(targets, |Rows()|)
      && if Uniform? then IsUniform(upd) else UndefinedOnlyAlone(upd)
    }

    function Update(targets: seq<nat>, upd: Column, processUndefined: bool): (next: Attribute)
      requires WellFormed() && Accepts(targets, upd)
      ensures next.WellFormed() && next.cmp == cmp && next.flags == flags && next.Kind() == Kind()
    {
      match this
      case Uniform(t, _, _) =>
        var values := if processUndefined then Unlift(upd) else Stripped(t.cells, targets, Unlift(upd));
        this.(tracked := t.Step(Write(targets, values), cmp))
      case Csr(t, _, _) =>
        if processUndefined then this.(trackedRows := t.Step(RowOp.Update(targets, upd), cmp))
        else
          var n := |upd|;
          KeptValid(upd, targets, n, |t.rows|);
          this.(trackedRows := t.Step(RowOp.Update(KeptIndices(upd, targets, n), KeptRows(upd, n)), cmp))
    }

    /** Makes room for new entities. */
    function Resize(size: nat): (next: Attribute)
      requires WellFormed() && |Rows()| <= size
      ensures next.WellFormed() && next.cmp == cmp && next.flags == flags && next.Kind() == Kind()
      ensures next.Rows() == Rows() + Blank(size - |Rows()|)
    {
      if size == |Rows()| then
        assert Rows() + Blank(0) == Rows();
        this
      else if Uniform? then
        var next := this.(tracked := tracked.Step(Grow(size - |Rows()|), cmp));
        assert next.Rows() == Rows() + Blank(size - |Rows()|);
        next
      else this.(trackedRows := trackedRows.Step(GrowRows(size - |Rows()|), cmp))
    }

    function Reset(): (next: Attribute)
      requires WellFormed()
      ensures next.WellFormed() && next.cmp == cmp && next.flags == flags && next.Kind() == Kind()
      ensures next.Rows() == next.Base() == Rows()
      ensures forall i :: 0 <= i < |Rows()| ==> !next.Changed()[i]
    {
      if Uniform? then this.(tracked := tracked.Step(Op.Reset, cmp))
      else this.(trackedRows := trackedRows.Step(ResetFlags, cmp))
    }

    /** The masked rows; those that did not change are sent as undefined. */
    function GenerateUpdate(mask: seq<bool>): Column
      requires WellFormed() && |mask| == |Rows()|
    {
      MaskedRows(Rows(), mask, Changed())
    }

    predicate HasChanges()
      requires WellFormed()
    {
      true in Changed()
    }

    /** Reading a uniform attribute starts tracking it. */
    function Read(): (next: Attribute)
      requires WellFormed()
      ensures next.WellFormed() && next.cmp == cmp && next.flags == flags && next.Kind() == Kind()
      ensures next.Rows() == Rows() && next.Base() == Base()
    {
      if Uniform? then this.(tracked := tracked.Step(Op.Read, cmp)) else this
    }

    /** Asking for its changes caches them. */
    function Query(): (next: Attribute)
      requires WellFormed()
      ensures next.WellFormed() && next.cmp == cmp && next.flags == flags && next.Kind() == Kind()
      ensures next.Rows() == Rows() && next.Base() == Base() && next.Changed() == Changed()
    {
      if Uniform? then this.(tracked := tracked.Step(Op.Query, cmp)) else this
    }

    /** The matrix has a row for each row of the attribute, and the tolerance that floats are compared with. */
    ghost predicate AcceptsMatrix(matrix: Matrix, tolerance: Comparator)
      requires WellFormed()
    {
      && Csr? && matrix.Valid() && |matrix.rows| == |Rows()| && (matrix.cols > 0 || matrix.rows == [])
      && UndefinedOnlyAlone(matrix.rows) && (cmp.Isclose? ==> tolerance == cmp)
    }

    /** Rows that all have the length of those of the matrix already are replaced in place, which
        compares them with the tolerance even if they are no floats. */
    function UpdateFromMatrix(matrix: Matrix, tolerance: Comparator): (next: Attribute)
      requires WellFormed() && AcceptsMatrix(matrix, tolerance)
      ensures next.WellFormed() && next.cmp == cmp && next.flags == flags && next.Kind() == Kind()
      ensures next.Rows() == matrix.rows && next.Base() == Base()
    {
      this.(trackedRows := trackedRows.Step(Replace(matrix.rows, MatrixComparator(matrix, tolerance)), cmp))
    }

    function MatrixComparator(matrix: Matrix, tolerance: Comparator): Comparator
      requires WellFormed()
    {
      if forall i :: 0 <= i < |Rows()| ==> |Rows()[i]| == matrix.cols then tolerance else cmp
    }

    // ----- what the flags of a uniform attribute compare with

    predicate IsTracked() {
      Uniform? && tracked.curr.Some?
    }

    /** The snapshot, or the present rows while there is none. */
    function Reference(): (rows: Column)
      requires WellFormed() && Uniform?
      ensures |rows| == |Rows()|
    {
      Lift(if tracked.curr.Some? then tracked.curr.value else tracked.cells)
    }
  }

  /** Undefined values are replaced by the values that are there. */
  function Stripped(cells: seq<Cell>, targets: seq<nat>, values: seq<Cell>): (r: seq<Cell>)
    requires |targets| == |values| && ValidTargets(targets, |cells|)
    ensures |r| == |values|
  {
    seq(|values|, k requires 0 <= k < |values| => if values[k] == Undefined then cells[targets[k]] else values[k])
  }

  lemma KeptValid(upd: Column, targets: seq<nat>, n: nat, size: nat)
    requires n <= |upd| == |targets| && ValidTargets(targets, size)
    ensures ValidTargets(KeptIndices(upd, targets, n), size)
  {
    KeptAt(upd, targets, n, 0);
    var kept := KeptIndices(upd, targets, n);
    forall k | 0 <= k < |kept|
      ensures kept[k] < size
    {
      assert kept[k] in kept;
      assert kept[k] in targets[..n];
    }
  }

  function Empty(kind: Kind, size: nat, cmp: Comparator, flags: set<Flag>): (a: Attribute)
    ensures a.WellFormed() && a.Rows() == a.Base() == Blank(size) && a.flags == flags && a.Kind() == kind
    ensures a.cmp == cmp
    ensures a == a.Reset()
  {
    match kind
    case UNIFORM =>
      var a := Uniform(Start(Undefineds(size)), cmp, flags);
      assert a.Rows() == Blank(size);
      a
    case CSR => Csr(TrackedRows(Blank(size), Zeros(size), Blank(size)), cmp, flags)
  }

  /** For both kinds of attribute an update patches the rows. */
  lemma UpdatePatches(a: Attribute, targets: seq<nat>, upd: Column, processUndefined: bool)
    requires a.WellFormed() && a.Accepts(targets, upd)
    ensures a.Update(targets, upd, processUndefined).Rows() == Patch(a.Rows(), targets, upd, processUndefined)
    ensures a.Update(targets, upd, processUndefined).Base() == a.Base()
  {
    var next := a.Update(targets, upd, processUndefined);
    if a.Uniform? {
      forall i | 0 <= i < |a.Rows()|
        ensures next.Rows()[i] == Patch(a.Rows(), targets, upd, processUndefined)[i]
      {
        var k := PositionOf(targets, i);
        if k != -1 {
          assert upd[k] == [Unlift(upd)[k]];
        }
      }
      assert next.Rows() == Patch(a.Rows(), targets, upd, processUndefined);
    } else if processUndefined {
      assert Overwrite(a.Rows(), targets, upd) == Patch(a.Rows(), targets, upd, true);
    } else {
      StripThenOverwrite(a.Rows(), targets, upd);
    }
  }

  /** A uniform attribute is flagged where it differs from its reference. */
  lemma FlaggedIfDifferent(a: Attribute, i: nat)
    requires a.WellFormed() && a.Uniform? && a.cmp.Reflexive() && i < |a.Rows()|
    ensures a.Changed()[i] <==> !a.cmp.SameRow(a.Rows()[i], a.Reference()[i])
  {
    a.cmp.SameItself(a.tracked.cells[i]);
    assert a.tracked.Changed(a.cmp) == a.tracked.Compared(a.cmp);
    var cell, compared := a.Rows()[i], a.Reference()[i];
    assert a.cmp.SameRow(cell, compared) <==> a.cmp.Same(cell[0], compared[0]);
  }

  /** Updates do not move the reference; growth loses it unless the attribute is being tracked. */
  lemma ReferenceStays(a: Attribute, targets: seq<nat>, upd: Column, processUndefined: bool)
    requires a.WellFormed() && a.Uniform? && a.Accepts(targets, upd)
    ensures var next := a.Update(targets, upd, processUndefined); next.IsTracked() && next.Reference() == a.Reference()
  {
  }

  lemma ReferenceGrows(a: Attribute, size: nat)
    requires a.WellFormed() && a.Uniform? && |a.Rows()| < size
    ensures var next := a.Resize(size);
      && next.IsTracked()
      && next.Reference() == if a.IsTracked() then a.Reference() + Blank(size - |a.Rows()|) else Blank(size)
  {
    var extra := size - |a.Rows()|;
    var known := if a.IsTracked() then a.tracked.curr.value else Undefineds(|a.Rows()|);
    assert Lift(known + Undefineds(extra)) == Lift(known) + Blank(extra);
    assert !a.IsTracked() ==> Lift(known + Undefineds(extra)) == Blank(size);
  }

  /** An update flags the rows of a CSR attribute that it moves further than is tolerated. */
  lemma UpdateFlags(a: Attribute, targets: seq<nat>, upd: Column, processUndefined: bool, i: nat)
    requires a.WellFormed() && a.Csr? && a.Accepts(targets, upd) && a.cmp.Reflexive() && i < |a.Rows()|
    ensures var next := a.Update(targets, upd, processUndefined);
      next.Changed()[i] <==> a.Changed()[i] || !a.cmp.SameRow(a.Rows()[i], next.Rows()[i])
  {
    var t, n := a.trackedRows, |upd|;
    KeptValid(upd, targets, n, |t.rows|);
    var op := if processUndefined then RowOp.Update(targets, upd)
              else RowOp.Update(KeptIndices(upd, targets, n), KeptRows(upd, n));
    FlagStep(t, op, a.cmp, i);
  }

  /** Writing a matrix flags the rows that it moves further than is tolerated: by the tolerance of floats where all
      rows have their length already, and otherwise by the comparison of the attribute. */
  lemma MatrixFlags(a: Attribute, matrix: Matrix, tolerance: Comparator, i: nat)
    requires a.WellFormed() && a.AcceptsMatrix(matrix, tolerance) && i < |a.Rows()|
    ensures var next := a.UpdateFromMatrix(matrix, tolerance);
      next.Changed()[i]
      <==> a.Changed()[i] || !a.MatrixComparator(matrix, tolerance).SameRow(a.Rows()[i], next.Rows()[i])
    ensures var inPlace := forall k :: 0 <= k < |a.Rows()| ==> |a.Rows()[k]| == matrix.cols;
      a.UpdateFromMatrix(matrix, tolerance).Changed()[i]
      <==> a.Changed()[i] || !(if inPlace then tolerance else a.cmp).SameRow(a.Rows()[i], matrix.rows[i])
  {
  }

  /** An attribute that was just reset compares with its rows. */
  lemma ResetReference(a: Attribute)
    requires a.WellFormed() && a == a.Reset()
    ensures a.Rows() == a.Base() && !a.IsTracked() && (a.Uniform? ==> a.Reference() == a.Rows())
  {
  }
}
