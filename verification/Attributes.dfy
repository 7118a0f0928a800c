/** The attribute objects of an entity group. Each method does to the arrays what the function of the
    same name in AttributeValues says about the value. */
module Attributes {
  import opened Cells
  import opened EntityIndex
  import opened CsrRows
  import opened ChangeTracking
  import opened TrackedArrays
  import opened AttributeValues
  import CsrKernels

  class UniformAttribute {
    const cmp: Comparator
    var array_: TrackedArray?
    var flags: set<Flag>
    var initialized: bool

    ghost predicate Valid()
      reads this, array_, if array_ == null then {} else {array_.cells}
    {
      array_ != null && array_.Valid() && array_.cmp == cmp
    }

    ghost function Model(): (a: Attribute)
      requires Valid()
      reads this, array_, array_.cells
      ensures a.WellFormed()
    {
      Uniform(array_.Model(), cmp, flags)
    }

    constructor (cmp: Comparator)
      ensures array_ == null && flags == {} && !initialized && this.cmp == cmp
    {
      this.cmp := cmp;
      array_, flags, initialized := null, {}, false;
    }

    method Initialize(length: nat) returns (r: Result<()>)
      modifies this`array_
      ensures r.Ok? <==> old(array_) == null
      ensures r.Ok? ==> Valid() && fresh(array_) && fresh(array_.cells) && Model() == Empty(UNIFORM, length, cmp, flags)
      ensures r.Err? ==> array_ == old(array_)
    {
      if array_ != null {
        return Err("Already initialized");
      }
      array_ := new TrackedArray(Undefineds(length), cmp);
      return Ok(());
    }

    /** Replaces undefined values by the values that are there, reading them only when needed. */
    method StripUndefined(targets: seq<nat>, value: seq<Cell>) returns (values: seq<Cell>)
      requires Valid() && |targets| == |value| && ValidTargets(targets, array_.cells.Length)
      modifies array_`curr, array_`cache
      ensures Valid() && values == Stripped(old(array_.cells[..]), targets, value)
      ensures array_.Model() == old(array_.Model()) || array_.Model() == old(array_.Model()).StartTracking()
    {
      values := value;
      if Undefined in value {
        var current := array_.Get(targets);
        values := seq(|value|, k requires 0 <= k < |value| && k < |current| =>
          if value[k] == Undefined then current[k] else value[k]);
      }
      assert values == Stripped(old(array_.cells[..]), targets, value);
    }

    method Update(value: seq<Cell>, targets: seq<nat>, processUndefined: bool)
      requires Valid() && |targets| == |value| && ValidTargets(targets, array_.cells.Length)
      modifies array_`curr, array_`cache, array_.cells
      ensures Valid() && Model() == old(Model()).Update(targets, Lift(value), processUndefined)
    {
      assert Unlift(Lift(value)) == value;
      var values := value;
      if !processUndefined {
        values := StripUndefined(targets, value);
      }
      array_.Set(targets, values);
    }

    /** Grows to a new, larger size; shrinking raises. */
    method Resize(size: nat) returns (r: Result<()>)
      requires array_ != null ==> Valid()
      modifies this`array_
      ensures r.Ok? <==> old(array_) == null || old(array_.cells.Length) <= size
      ensures r.Err? ==> array_ == old(array_)
      ensures r.Ok? && old(array_) != null ==> Valid() && Model() == old(Model()).Resize(size)
      ensures r.Ok? && old(array_) == null && size > 0 ==> Valid() && Model().Rows() == Blank(size)
    {
      var length := if array_ == null then 0 else array_.cells.Length;
      if size < length {
        return Err("Can only increase size of attribute array, not decrease it");
      }
      if size == length {
        return Ok(());
      }
      if array_ == null {
        var initialize := Initialize(size);
        length := size;
      }
      array_ := new TrackedArray.Grown(array_, size - length);
      return Ok(());
    }

    method Changed() returns (changed: seq<bool>)
      requires Valid()
      modifies array_`cache
      ensures Valid() && changed == Model().Changed() == old(Model()).Changed()
      ensures Model().Rows() == old(Model()).Rows() && Model().Base() == old(Model()).Base()
    {
      changed := array_.QueryChanged();
    }

    method GenerateUpdate(mask: seq<bool>) returns (data: seq<Cell>)
      requires Valid() && |mask| == array_.cells.Length
      modifies array_`cache
      ensures Valid() && Lift(data) == old(Model()).GenerateUpdate(mask)
    {
      var changed := array_.QueryChanged();
      var positions := Flatnonzero(mask, |mask|);
      assert forall k :: 0 <= k < |positions| ==> positions[k] in positions;
      data := [];
      for k := 0 to |positions|
        invariant |data| == k
        invariant forall j :: 0 <= j < k ==>
          data[j] == if changed[positions[j]] then array_.cells[positions[j]] else Undefined
      {
        data := data + [if changed[positions[k]] then array_.cells[positions[k]] else Undefined];
      }
      assert Lift(data) == old(Model()).GenerateUpdate(mask);
    }

    method Reset()
      requires Valid()
      modifies array_
      ensures Valid() && array_.cells == old(array_.cells) && Model() == old(Model()).Reset()
    {
      array_.Reset();
    }

    /** Sticky: once all rows were defined the attribute stays initialized, whatever happens later. */
    method IsInitialized() returns (r: bool)
      requires array_ != null ==> Valid()
      modifies this`initialized
      ensures r == initialized == (old(initialized) || (array_ != null && UNDEFINED_ROW !in Model().Rows()))
    {
      if initialized {
        return true;
      }
      r := array_ != null;
      if r {
        for i := 0 to array_.cells.Length
          invariant r <==> forall j :: 0 <= j < i ==> array_.cells[j] != Undefined
        {
          assert Model().Rows()[i] == [array_.cells[i]];
          if array_.cells[i] == Undefined {
            r := false;
          }
        }
        assert forall i :: 0 <= i < array_.cells.Length ==> Model().Rows()[i] == [array_.cells[i]];
        assert !r ==> UNDEFINED_ROW in Model().Rows();
      }
      initialized := r;
    }
  }

  class CsrAttribute {
    const tolerance: Comparator
    const isFloat: bool
    var csr: TrackedCsrArray
    var flags: set<Flag>

    ghost predicate Valid()
      reads this, csr, csr.data, csr.rowPtr, csr.changed
    {
      csr.Shaped() && csr.tolerance == tolerance && csr.isFloat == isFloat
    }

    ghost function Model(): (a: Attribute)
      requires Valid()
      reads this, csr, csr.data, csr.rowPtr, csr.changed
      ensures a.WellFormed()
    {
      Csr(csr.Model(), csr.Comparator(), flags)
    }

    constructor (length: nat, tolerance: Comparator, isFloat: bool)
      ensures Valid() && fresh(csr) && fresh(csr.data) && fresh(csr.rowPtr) && fresh(csr.changed)
      ensures this.tolerance == tolerance && this.isFloat == isFloat
      ensures Model() == Empty(CSR, length, csr.Comparator(), {})
    {
      hide IsRowPtr, Flatten, Pointers, Rows;
      var rows := Blank(length);
      BlankPointers(length);
      RowsOfFlatten(rows);
      var data := new Cell[length](_ => Undefined);
      var rowPtr := new nat[length + 1](i => i);
      assert data[..] == Flatten(rows) && rowPtr[..] == Pointers(rows);
      csr := new TrackedCsrArray(data, rowPtr, tolerance, isFloat);
      this.tolerance, this.isFloat, flags := tolerance, isFloat, {};
    }

    method StripUndefined(updData: array<Cell>, updRowPtr: array<nat>, targets: seq<nat>)
      returns (newData: array<Cell>, newRowPtr: array<nat>, newTargets: seq<nat>)
      requires IsRowPtr(updRowPtr[..], updData.Length) && |targets| == updRowPtr.Length - 1
      requires UndefinedOnlyAlone(Rows(updData[..], updRowPtr[..]))
      ensures IsRowPtr(newRowPtr[..], newData.Length)
      ensures Rows(newData[..], newRowPtr[..]) == KeptRows(Rows(updData[..], updRowPtr[..]), |targets|)
      ensures newTargets == KeptIndices(Rows(updData[..], updRowPtr[..]), targets, |targets|)
    {
      var numUndefined := CountUndefined(updData[..]);
      if numUndefined == 0 {
        AllDefined(updData[..], updRowPtr[..], targets);
        return updData, updRowPtr, targets;
      }
      var indices: array<nat>;
      newData, newRowPtr, indices := CsrKernels.RemoveUndefinedCsr(updData, updRowPtr, targets, numUndefined);
      newTargets := indices[..];
    }

    method Update(updData: array<Cell>, updRowPtr: array<nat>, targets: seq<nat>, processUndefined: bool)
      requires Valid() && IsRowPtr(updRowPtr[..], updData.Length)
      requires Model().Accepts(targets, Rows(updData[..], updRowPtr[..]))
      modifies csr`data, csr`rowPtr, csr.changed
      ensures Valid()
      ensures Model() == old(Model().Update(targets, Rows(updData[..], updRowPtr[..]), processUndefined))
    {
      hide IsRowPtr, Rows, KeptRows, KeptIndices, UndefinedOnlyAlone, ValidTargets, TrackedRows.Step,
           TrackedRows.WellFormed;
      ghost var upd := Rows(updData[..], updRowPtr[..]);
      UpdateIsStep(Model(), targets, upd, processUndefined);
      var data, rowPtr, indices := updData, updRowPtr, targets;
      if !processUndefined {
        data, rowPtr, indices := StripUndefined(updData, updRowPtr, targets);
      }
      if |indices| == 0 {
        assert Rows(data[..], rowPtr[..]) == [];
        EmptyUpdate(csr.Model(), csr.Comparator());
        return;
      }
      csr.Update(data, rowPtr, indices);
    }

    /** Appends undefined rows; the flags of the old rows stay. */
    method Resize(size: nat)
      requires Valid() && csr.rowPtr.Length - 1 <= size
      modifies this`csr
      ensures Valid() && Model() == old(Model()).Resize(size)
    {
      var n := csr.rowPtr.Length - 1;
      if size == n {
        return;
      }
      csr := new TrackedCsrArray.Grown(csr, size - n);
    }

    method GenerateUpdate(mask: seq<bool>) returns (updData: array<Cell>, updRowPtr: array<nat>)
      requires Valid() && |mask| == csr.rowPtr.Length - 1
      ensures fresh(updData) && fresh(updRowPtr) && IsRowPtr(updRowPtr[..], updData.Length)
      ensures Rows(updData[..], updRowPtr[..]) == Model().GenerateUpdate(mask)
    {
      updData, updRowPtr := CsrKernels.GenerateUpdate(csr.data, csr.rowPtr, mask, csr.changed[..]);
    }

    method Reset()
      requires Valid()
      modifies csr
      ensures Valid() && csr.data == old(csr.data) && csr.rowPtr == old(csr.rowPtr) && Model() == old(Model()).Reset()
    {
      csr.Reset();
    }
  }

  lemma {:induction false} BlankPointers(n: nat)
    ensures Pointers(Blank(n)) == seq(n + 1, i => i) && Flatten(Blank(n)) == Undefineds(n)
  {
    if n > 0 {
      BlankPointers(n - 1);
      assert Blank(n)[..n - 1] == Blank(n - 1);
      assert Undefineds(n) == Undefineds(n - 1) + [Undefined];
    }
  }

  /** The step of the array that an update of the attribute takes. */
  lemma UpdateIsStep(a: Attribute, targets: seq<nat>, upd: Column, processUndefined: bool)
    requires a.WellFormed() && a.Csr? && a.Accepts(targets, upd)
    ensures |targets| == |upd| && UndefinedOnlyAlone(upd)
    ensures |KeptIndices(upd, targets, |upd|)| == |KeptRows(upd, |upd|)|
    ensures ValidTargets(targets, |a.trackedRows.rows|)
    ensures ValidTargets(KeptIndices(upd, targets, |upd|), |a.trackedRows.rows|)
    ensures var op := if processUndefined then RowOp.Update(targets, upd)
                      else RowOp.Update(KeptIndices(upd, targets, |upd|), KeptRows(upd, |upd|));
      && a.trackedRows.WellFormed() && a.trackedRows.Applicable(op)
      && a.Update(targets, upd, processUndefined) == a.(trackedRows := a.trackedRows.Step(op, a.cmp))
  {
    KeptValid(upd, targets, |upd|, |a.trackedRows.rows|);
  }

  lemma EmptyUpdate(t: TrackedRows, cmp: Comparator)
    requires t.WellFormed()
    ensures t.Step(RowOp.Update([], []), cmp) == t
  {
    assert Overwrite(t.rows, [], []) == t.rows;
    assert Or(t.changed, ChangeFlags(Zeros(|t.rows|), t.rows, [], [], cmp)) == t.changed;
  }

  /** Without undefined cells every row is kept. */
  lemma AllDefined(data: seq<Cell>, rowPtr: seq<nat>, targets: seq<nat>)
    requires IsRowPtr(rowPtr, |data|) && |targets| == |rowPtr| - 1 && CountUndefined(data) == 0
    ensures KeptRows(Rows(data, rowPtr), |targets|) == Rows(data, rowPtr)
    ensures KeptIndices(Rows(data, rowPtr), targets, |targets|) == targets
  {
    var rows := Rows(data, rowPtr);
    forall i | 0 <= i < |rows|
      ensures rows[i] != UNDEFINED_ROW
    {
      if |rows[i]| == 1 {
        assert rowPtr[i + 1] <= rowPtr[|rowPtr| - 1];
        CountPositive(data, rowPtr[i]);
        assert rows[i][0] == data[rowPtr[i]];
      }
    }
    KeepAll(rows, targets, |rows|);
    assert rows[..|rows|] == rows && targets[..|rows|] == targets;
  }

  lemma {:induction false} KeepAll(rows: Column, targets: seq<nat>, n: nat)
    requires |targets| == |rows| && n <= |rows| && forall i :: 0 <= i < |rows| ==> rows[i] != UNDEFINED_ROW
    ensures KeptRows(rows, n) == rows[..n] && KeptIndices(rows, targets, n) == targets[..n]
  {
    if n > 0 {
      KeepAll(rows, targets, n - 1);
    }
  }
}
