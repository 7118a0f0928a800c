/** Change tracking as a machine over values. A uniform array keeps a lazy snapshot of its cells and
    caches the comparison with it; a CSR array keeps one flag per row. Both are compared here with a
    history variable, `base`: the contents at the last reset, undefined for entities added later. */
module ChangeTracking {
  import opened Cells
  import opened EntityIndex
  import opened CsrRows

  // ----- uniform arrays

  function Undefineds(n: nat): (cells: seq<Cell>)
    ensures |cells| == n && forall i :: 0 <= i < n ==> cells[i] == Undefined
  {
    seq(n, _ => Undefined)
  }

  function Zeros(n: nat): (flags: seq<bool>)
    ensures |flags| == n && forall i :: 0 <= i < n ==> !flags[i]
  {
    seq(n, _ => false)
  }

  datatype Op =
    | Read
    | Write(targets: seq<nat>, values: seq<Cell>)
    | Query
    | Reset
    | Grow(extra: nat)

  datatype TrackedCells =
    TrackedCells(cells: seq<Cell>, curr: Option<seq<Cell>>, cache: Option<seq<bool>>, base: seq<Cell>) {

    ghost predicate WellFormed() {
      |base| == |cells| && (curr.Some? ==> |curr.value| == |cells|) && (cache.Some? ==> |cache.value| == |cells|)
    }

    /** The comparison with the snapshot, without looking at the cache. */
    function Compared(cmp: Comparator): (flags: seq<bool>)
      requires WellFormed()
      ensures |flags| == |cells|
    {
      match curr
      case None => Zeros(|cells|)
      case Some(c) => seq(|cells|, i requires 0 <= i < |cells| => !cmp.Same(cells[i], c[i]))
    }

    /** What the `changed` property returns. */
    function Changed(cmp: Comparator): (flags: seq<bool>)
      requires WellFormed()
      ensures |flags| == |cells|
    {
      if cache.Some? then cache.value else Compared(cmp)
    }

    function StartTracking(): TrackedCells {
      this.(cache := None, curr := if curr.None? then Some(cells) else curr)
    }

    ghost predicate Applicable(op: Op) {
      op.Write? ==> |op.targets| == |op.values| && ValidTargets(op.targets, |cells|)
    }

    function Step(op: Op, cmp: Comparator): (next: TrackedCells)
      requires WellFormed() && Applicable(op)
      ensures next.WellFormed()
    {
      match op
      case Read => StartTracking()
      case Write(targets, values) => StartTracking().(cells := WriteCells(cells, targets, values))
      case Query => this.(cache := Some(Changed(cmp)))
      case Reset => this.(curr := None, cache := None, base := cells)
      case Grow(extra) =>
        // a new, undefined array starts tracking when the old cells are copied into it
        var known := if curr.Some? then curr.value else Undefineds(|cells|);
        TrackedCells(cells + Undefineds(extra), Some(known + Undefineds(extra)), None, base + Undefineds(extra))
    }
  }

  function WriteCells(cells: seq<Cell>, targets: seq<nat>, values: seq<Cell>): (r: seq<Cell>)
    requires |targets| == |values|
    ensures |r| == |cells|
  {
    seq(|cells|, i requires 0 <= i < |cells| =>
      var k := PositionOf(targets, i); if k == -1 then cells[i] else values[k])
  }

  /** Writing cells is overwriting rows of one cell. */
  lemma WriteIsOverwrite(cells: seq<Cell>, targets: seq<nat>, values: seq<Cell>)
    requires |targets| == |values|
    ensures Lift(WriteCells(cells, targets, values)) == Overwrite(Lift(cells), targets, Lift(values))
  {
  }

  /** A freshly reset array. */
  function Start(cells: seq<Cell>): (t: TrackedCells)
    ensures t.WellFormed()
  {
    TrackedCells(cells, None, None, cells)
  }

  ghost predicate IsRun(run: seq<TrackedCells>, ops: seq<Op>, cmp: Comparator) {
    && |run| == |ops| + 1 && (forall i :: 0 <= i < |run| ==> run[i].WellFormed())
    && forall i :: 0 <= i < |ops| ==> run[i].Applicable(ops[i]) && run[i + 1] == run[i].Step(ops[i], cmp)
  }

  /** The cached answer is never stale. */
  ghost predicate CacheFresh(t: TrackedCells, cmp: Comparator) {
    t.WellFormed() && (t.cache.Some? ==> t.cache.value == t.Compared(cmp))
  }

  lemma {:induction false} CacheAlwaysFresh(run: seq<TrackedCells>, ops: seq<Op>, cmp: Comparator, n: nat)
    requires IsRun(run, ops, cmp) && CacheFresh(run[0], cmp) && n < |run|
    ensures CacheFresh(run[n], cmp) && run[n].Changed(cmp) == run[n].Compared(cmp)
  {
    if n > 0 {
      CacheAlwaysFresh(run, ops, cmp, n - 1);
      assert run[n] == run[n - 1].Step(ops[n - 1], cmp);
    }
  }

  ghost predicate SnapshotIsBase(t: TrackedCells) {
    t.WellFormed() && if t.curr.Some? then t.curr.value == t.base else t.cells == t.base
  }

  /** Without growth, the flags over any interleaving of reads, writes, queries and resets are those
      of a fresh comparison with the contents at the last reset. */
  lemma {:induction false} FlagsExactWithoutGrowth(run: seq<TrackedCells>, ops: seq<Op>, cmp: Comparator, n: nat)
    requires IsRun(run, ops, cmp) && CacheFresh(run[0], cmp) && SnapshotIsBase(run[0]) && n < |run|
    requires forall i :: 0 <= i < |ops| ==> !ops[i].Grow?
    ensures SnapshotIsBase(run[n])
    ensures cmp.Reflexive() ==> forall i :: 0 <= i < |run[n].cells| ==>
      (run[n].Changed(cmp)[i] <==> !cmp.Same(run[n].cells[i], run[n].base[i]))
  {
    if n > 0 {
      FlagsExactWithoutGrowth(run, ops, cmp, n - 1);
      assert run[n] == run[n - 1].Step(ops[n - 1], cmp);
    }
    CacheAlwaysFresh(run, ops, cmp, n);
    if cmp.Reflexive() {
      forall i | 0 <= i < |run[n].cells|
        ensures run[n].Changed(cmp)[i] <==> !cmp.Same(run[n].cells[i], run[n].base[i])
      {
        cmp.SameItself(run[n].cells[i]);
      }
    }
  }

  /** With a comparison that is not reflexive (NaN unequal to itself) reading alone raises flags: the
      flags of an untouched array match a fresh comparison exactly when each cell equals itself. */
  lemma UntouchedFlags(t: TrackedCells, cmp: Comparator)
    requires t.WellFormed() && t.curr.None? && t.cache.None? && t.cells == t.base
    ensures t.Changed(cmp) == t.Step(Read, cmp).Changed(cmp)
       <==> forall i :: 0 <= i < |t.cells| ==> cmp.Same(t.cells[i], t.cells[i])
  {
    var before, after := t.Changed(cmp), t.Step(Read, cmp).Changed(cmp);
    assert forall i :: 0 <= i < |t.cells| ==> after[i] == !cmp.Same(t.cells[i], t.cells[i]);
  }

  // ----- with growth

  /** After n operations the array is being tracked: since the last reset it was read, written or grown. */
  ghost predicate Tracked(ops: seq<Op>, n: nat)
    requires n <= |ops|
  {
    n > 0 && match ops[n - 1]
             case Reset => false
             case Query => Tracked(ops, n - 1)
             case _ => true
  }

  /** Since the last reset the array grew while it was not being tracked and cell i was defined, so that
      the snapshot has an undefined cell in its place. */
  ghost predicate SnapshotLost(run: seq<TrackedCells>, ops: seq<Op>, n: nat, i: nat)
    requires n <= |ops| < |run|
  {
    n > 0 && match ops[n - 1]
             case Reset => false
             case Grow(_) =>
               || SnapshotLost(run, ops, n - 1, i)
               || (!Tracked(ops, n - 1) && i < |run[n - 1].cells| && run[n - 1].cells[i] != Undefined)
             case _ => SnapshotLost(run, ops, n - 1, i)
  }

  lemma {:induction false} SnapshotIs(run: seq<TrackedCells>, ops: seq<Op>, cmp: Comparator, n: nat, i: nat)
    requires IsRun(run, ops, cmp) && run[0] == Start(run[0].cells) && n < |run| && i < |run[n].cells|
    ensures run[n].curr.Some? <==> Tracked(ops, n)
    ensures run[n].curr.None? ==> run[n].cells == run[n].base && !SnapshotLost(run, ops, n, i)
    ensures run[n].curr.Some? ==>
      run[n].curr.value[i] == if SnapshotLost(run, ops, n, i) then Undefined else run[n].base[i]
    ensures SnapshotLost(run, ops, n, i) ==> run[n].base[i] != Undefined
  {
    if n > 0 {
      assert run[n] == run[n - 1].Step(ops[n - 1], cmp);
      if i < |run[n - 1].cells| {
        SnapshotIs(run, ops, cmp, n - 1, i);
      } else {
        NothingLostBeyond(run, ops, cmp, n - 1, i);
      }
    }
  }

  /** Cells that are added later have no snapshot to lose. */
  lemma {:induction false} NothingLostBeyond(run: seq<TrackedCells>, ops: seq<Op>, cmp: Comparator, n: nat, i: nat)
    requires IsRun(run, ops, cmp) && run[0] == Start(run[0].cells) && n < |run| && |run[n].cells| <= i
    ensures !SnapshotLost(run, ops, n, i)
    ensures run[n].curr.Some? <==> Tracked(ops, n)
    ensures run[n].curr.None? ==> run[n].cells == run[n].base
  {
    if n > 0 {
      assert run[n] == run[n - 1].Step(ops[n - 1], cmp);
      NothingLostBeyond(run, ops, cmp, n - 1, i);
    }
  }

  /** Over any interleaving of reads, writes, queries, resets and growth from a freshly reset array, a
      flag is set exactly when the cell differs from the one at the last reset, or from an undefined
      cell where the snapshot was lost. */
  lemma FlagsExact(run: seq<TrackedCells>, ops: seq<Op>, cmp: Comparator, n: nat, i: nat)
    requires IsRun(run, ops, cmp) && cmp.Reflexive() && run[0] == Start(run[0].cells) && n < |run| && i < |run[n].cells|
    ensures run[n].Changed(cmp)[i]
       <==> !cmp.Same(run[n].cells[i], if SnapshotLost(run, ops, n, i) then Undefined else run[n].base[i])
  {
    CacheAlwaysFresh(run, ops, cmp, n);
    SnapshotIs(run, ops, cmp, n, i);
    cmp.SameItself(run[n].cells[i]);
  }

  /** A change is missed exactly when the array grew untracked, since the last reset, while the cell was
      defined, and the cell is undefined now. */
  lemma MissedChanges(run: seq<TrackedCells>, ops: seq<Op>, n: nat, i: nat)
    requires IsRun(run, ops, Exact) && run[0] == Start(run[0].cells) && n < |run| && i < |run[n].cells|
    ensures var t := run[n];
      t.cells[i] != t.base[i] && !t.Changed(Exact)[i] <==> SnapshotLost(run, ops, n, i) && t.cells[i] == Undefined
  {
    FlagsExact(run, ops, Exact, n, i);
    SnapshotIs(run, ops, Exact, n, i);
  }

  /** The write stores no undefined cell over a defined one; attributes strip their updates so. */
  ghost predicate KeepsDefined(t: TrackedCells, op: Op)
    requires t.Applicable(op)
  {
    op.Write? ==> forall k :: 0 <= k < |op.targets| && op.values[k] == Undefined ==> t.cells[op.targets[k]] == Undefined
  }

  lemma {:induction false} StaysDefined(run: seq<TrackedCells>, ops: seq<Op>, cmp: Comparator, n: nat)
    requires IsRun(run, ops, cmp) && run[0] == Start(run[0].cells) && n < |run|
    requires forall k :: 0 <= k < n ==> KeepsDefined(run[k], ops[k])
    ensures forall i :: 0 <= i < |run[n].cells| && run[n].cells[i] == Undefined ==> run[n].base[i] == Undefined
  {
    if n > 0 {
      StaysDefined(run, ops, cmp, n - 1);
      assert run[n] == run[n - 1].Step(ops[n - 1], cmp) && KeepsDefined(run[n - 1], ops[n - 1]);
    }
  }

  /** When no write stores an undefined cell over a defined one, no change is ever missed, whatever
      else happens to the array. */
  lemma NoChangeMissed(run: seq<TrackedCells>, ops: seq<Op>, n: nat, i: nat)
    requires IsRun(run, ops, Exact) && run[0] == Start(run[0].cells) && n < |run| && i < |run[n].cells|
    requires forall k :: 0 <= k < n ==> KeepsDefined(run[k], ops[k])
    ensures run[n].cells[i] != run[n].base[i] ==> run[n].Changed(Exact)[i]
  {
    StaysDefined(run, ops, Exact, n);
    MissedChanges(run, ops, n, i);
    SnapshotIs(run, ops, Exact, n, i);
  }

  /** The corner that MissedChanges allows does occur. */
  lemma GrowthCanHideAChange()
    ensures var t := Start([Num(1.0)]).Step(Grow(1), Exact).Step(Write([0], [Undefined]), Exact);
      t.cells[0] != t.base[0] && !t.Changed(Exact)[0]
  {
    var t := Start([Num(1.0)]).Step(Grow(1), Exact);
    assert t.cells[0] == Num(1.0) && t.curr.value[0] == Undefined;
    assert PositionOf([0], 0) == 0;
  }

  // ----- CSR arrays

  datatype RowOp =
    | Update(targets: seq<nat>, upd: Column)
    | Replace(all: Column, tolerance: Comparator)
    | ResetFlags
    | GrowRows(extra: nat)

  /** Per row, whether any cell differs. */
  function RowsDiffer(a: Column, b: Column, cmp: Comparator): (flags: seq<bool>)
    requires |a| == |b|
    ensures |flags| == |a|
  {
    seq(|a|, i requires 0 <= i < |a| => !cmp.SameRow(a[i], b[i]))
  }

  datatype TrackedRows = TrackedRows(rows: Column, changed: seq<bool>, base: Column) {

    ghost predicate WellFormed() {
      |rows| == |changed| == |base|
    }

    ghost predicate Applicable(op: RowOp) {
      && (op.Update? ==> |op.targets| == |op.upd| && ValidTargets(op.targets, |rows|))
      && (op.Replace? ==> |op.all| == |rows|)
    }

    /** An update compares each new row with the row that it replaces and adds to the flags. All rows can
        also be replaced in place, which compares them in its own way. */
    function Step(op: RowOp, cmp: Comparator): (next: TrackedRows)
      requires WellFormed() && Applicable(op)
      ensures next.WellFormed()
    {
      match op
      case Update(targets, upd) =>
        var changes := ChangeFlags(Zeros(|rows|), rows, targets, upd, cmp);
        TrackedRows(Overwrite(rows, targets, upd), Or(changed, changes), base)
      case Replace(all, tolerance) => TrackedRows(all, Or(changed, RowsDiffer(rows, all, tolerance)), base)
      case ResetFlags => TrackedRows(rows, Zeros(|rows|), rows)
      case GrowRows(extra) => TrackedRows(rows + Blank(extra), changed + Zeros(extra), base + Blank(extra))
    }
  }

  function Or(a: seq<bool>, b: seq<bool>): (r: seq<bool>)
    requires |a| == |b|
    ensures |r| == |a|
  {
    seq(|a|, i requires 0 <= i < |a| => a[i] || b[i])
  }

  ghost predicate IsRowRun(run: seq<TrackedRows>, ops: seq<RowOp>, cmp: Comparator) {
    && |run| == |ops| + 1 && (forall i :: 0 <= i < |run| ==> run[i].WellFormed())
    && forall i :: 0 <= i < |ops| ==> run[i].Applicable(ops[i]) && run[i + 1] == run[i].Step(ops[i], cmp)
  }

  ghost predicate FlagsSound(t: TrackedRows) {
    t.WellFormed() && forall i :: 0 <= i < |t.rows| && !t.changed[i] ==> t.rows[i] == t.base[i]
  }

  /** Replacing rows in place notices every row that differs. */
  ghost predicate Distinguishes(t: TrackedRows, op: RowOp)
    requires t.Applicable(op)
  {
    op.Replace? ==>
      forall i :: 0 <= i < |t.rows| && op.tolerance.SameRow(t.rows[i], op.all[i]) ==> t.rows[i] == op.all[i]
  }

  /** Under exact comparison a row without a flag equals its row at the last reset. */
  lemma {:induction false} UnflaggedRowsUnchanged(run: seq<TrackedRows>, ops: seq<RowOp>, n: nat)
    requires IsRowRun(run, ops, Exact) && FlagsSound(run[0]) && n < |run|
    requires forall k :: 0 <= k < n ==> Distinguishes(run[k], ops[k])
    ensures FlagsSound(run[n])
  {
    if n > 0 {
      UnflaggedRowsUnchanged(run, ops, n - 1);
      assert run[n] == run[n - 1].Step(ops[n - 1], Exact) && Distinguishes(run[n - 1], ops[n - 1]);
    }
  }

  // ----- when a row is flagged, for any comparison

  /** A row that is not there yet counts as undefined. */
  function RowAt(t: TrackedRows, i: nat): Row {
    if i < |t.rows| then t.rows[i] else UNDEFINED_ROW
  }

  predicate FlagAt(t: TrackedRows, i: nat) {
    i < |t.changed| && t.changed[i]
  }

  function ComparatorOf(op: RowOp, cmp: Comparator): Comparator {
    if op.Replace? then op.tolerance else cmp
  }

  /** The operation moves the row further than it tolerates. */
  ghost predicate Jumps(t: TrackedRows, op: RowOp, cmp: Comparator, i: nat)
    requires t.WellFormed() && t.Applicable(op)
  {
    i < |t.Step(op, cmp).rows| && !ComparatorOf(op, cmp).SameRow(RowAt(t, i), RowAt(t.Step(op, cmp), i))
  }

  lemma FlagStep(t: TrackedRows, op: RowOp, cmp: Comparator, i: nat)
    requires t.WellFormed() && t.Applicable(op) && cmp.Reflexive() && i < |t.Step(op, cmp).rows|
    ensures FlagAt(t.Step(op, cmp), i) <==> !op.ResetFlags? && (FlagAt(t, i) || Jumps(t, op, cmp, i))
  {
    cmp.SameRowItself(RowAt(t, i));
  }

  /** Since the last reset a single operation moved the row further than it tolerates. */
  ghost predicate Jumped(run: seq<TrackedRows>, ops: seq<RowOp>, cmp: Comparator, n: nat, i: nat)
    requires IsRowRun(run, ops, cmp) && n < |run|
  {
    n > 0 && !ops[n - 1].ResetFlags? && (Jumped(run, ops, cmp, n - 1, i) || Jumps(run[n - 1], ops[n - 1], cmp, i))
  }

  /** Over any run, a row is flagged exactly when a single operation since the last reset moved it
      further than that operation tolerates, however far several operations moved it together. */
  lemma {:induction false} CsrFlagsExact(run: seq<TrackedRows>, ops: seq<RowOp>, cmp: Comparator, n: nat, i: nat)
    requires IsRowRun(run, ops, cmp) && cmp.Reflexive() && run[0].changed == Zeros(|run[0].rows|) && n < |run|
    requires i < |run[n].rows|
    ensures FlagAt(run[n], i) <==> Jumped(run, ops, cmp, n, i)
  {
    hide Jumps, TrackedRows.Step, TrackedRows.Applicable;
    if n > 0 {
      FlagStep(run[n - 1], ops[n - 1], cmp, i);
      if i < |run[n - 1].rows| {
        CsrFlagsExact(run, ops, cmp, n - 1, i);
      } else {
        NotYetThere(run, ops, cmp, n - 1, i);
      }
    }
  }

  lemma {:induction false} NotYetThere(run: seq<TrackedRows>, ops: seq<RowOp>, cmp: Comparator, n: nat, i: nat)
    requires IsRowRun(run, ops, cmp) && cmp.Reflexive() && n < |run| && |run[n].rows| <= i
    ensures !FlagAt(run[n], i) && !Jumped(run, ops, cmp, n, i)
  {
    if n > 0 {
      assert run[n] == run[n - 1].Step(ops[n - 1], cmp);
      NotYetThere(run, ops, cmp, n - 1, i);
      cmp.SameRowItself(UNDEFINED_ROW);
    }
  }

  /** A row that moved once since the last reset, in operation m, is flagged exactly when it is not the
      same as at the last reset. */
  lemma {:induction false} MovedOnce(run: seq<TrackedRows>, ops: seq<RowOp>, cmp: Comparator, m: nat, n: nat, i: nat)
    requires IsRowRun(run, ops, cmp) && cmp.Reflexive() && m < n < |run| && i < |run[n].rows|
    requires run[0].changed == Zeros(|run[0].rows|) && run[0].base == run[0].rows
    requires forall k :: 0 <= k < n ==> !ops[k].ResetFlags? && ComparatorOf(ops[k], cmp) == cmp
    requires forall k :: 0 <= k <= m ==> RowAt(run[k], i) == RowAt(run[0], i)
    requires forall k :: m < k <= n ==> RowAt(run[k], i) == RowAt(run[n], i)
    ensures run[n].base[i] == RowAt(run[0], i)
    ensures run[n].changed[i] <==> !cmp.SameRow(run[n].base[i], run[n].rows[i])
  {
    hide TrackedRows.Step, TrackedRows.Applicable;
    CsrFlagsExact(run, ops, cmp, n, i);
    JumpedOnce(run, ops, cmp, m, n, i);
    BaseStays(run, ops, cmp, n, i);
  }

  lemma {:induction false} JumpedOnce(run: seq<TrackedRows>, ops: seq<RowOp>, cmp: Comparator, m: nat, n: nat, i: nat)
    requires IsRowRun(run, ops, cmp) && cmp.Reflexive() && n < |run|
    requires forall k :: 0 <= k < n ==> !ops[k].ResetFlags? && ComparatorOf(ops[k], cmp) == cmp
    requires forall k :: 0 <= k <= m && k <= n ==> RowAt(run[k], i) == RowAt(run[0], i)
    requires forall k :: m < k <= n ==> RowAt(run[k], i) == RowAt(run[n], i)
    ensures Jumped(run, ops, cmp, n, i) <==> m < n && !cmp.SameRow(RowAt(run[0], i), RowAt(run[n], i))
  {
    hide Comparator.SameRow;
    if n > 0 {
      JumpedOnce(run, ops, cmp, m, n - 1, i);
      assert run[n] == run[n - 1].Step(ops[n - 1], cmp);
      cmp.SameRowItself(RowAt(run[n], i));
    }
  }

  lemma {:induction false} BaseStays(run: seq<TrackedRows>, ops: seq<RowOp>, cmp: Comparator, n: nat, i: nat)
    requires IsRowRun(run, ops, cmp) && n < |run| && run[0].base == run[0].rows
    requires forall k :: 0 <= k < n ==> !ops[k].ResetFlags?
    ensures (if i < |run[n].base| then run[n].base[i] else UNDEFINED_ROW) == RowAt(run[0], i)
  {
    if n > 0 {
      BaseStays(run, ops, cmp, n - 1, i);
      assert run[n] == run[n - 1].Step(ops[n - 1], cmp);
    }
  }

  /** A one-row column that has moved to x since the last reset, at 0, without being flagged. */
  function Drifted(x: real): TrackedRows {
    TrackedRows([[Num(x)]], [false], [[Num(0.0)]])
  }

  lemma DriftStep(rtol: real, atol: real, x: real)
    requires rtol >= 0.0 && atol >= 0.0
    ensures Drifted(x).WellFormed() && Drifted(x).Applicable(Update([0], [[Num(x + atol)]]))
    ensures Drifted(x).Step(Update([0], [[Num(x + atol)]]), Isclose(rtol, atol, true)) == Drifted(x + atol)
  {
    var cmp := Isclose(rtol, atol, true);
    var y := x + atol;
    assert Abs(x - y) == atol && rtol * Abs(y) >= 0.0;
    assert cmp.SameRow([Num(x)], [Num(y)]);
    assert PositionOf([0], 0) == 0;
    assert Overwrite([[Num(x)]], [0], [[Num(y)]]) == [[Num(y)]];
    assert ChangeFlags(Zeros(1), [[Num(x)]], [0], [[Num(y)]], cmp) == [false];
    assert Or([false], [false]) == [false];
  }

  lemma RunFrom(t: TrackedRows, op: RowOp, run: seq<TrackedRows>, ops: seq<RowOp>, cmp: Comparator)
    requires IsRowRun(run, ops, cmp) && t.WellFormed() && t.Applicable(op) && run[0] == t.Step(op, cmp)
    ensures IsRowRun([t] + run, [op] + ops, cmp)
  {
    hide TrackedRows.Step, TrackedRows.Applicable;
    var all, allOps := [t] + run, [op] + ops;
    forall i | 0 <= i < |allOps|
      ensures all[i].Applicable(allOps[i]) && all[i + 1] == all[i].Step(allOps[i], cmp)
    {
      if i > 0 {
        assert all[i] == run[i - 1] && allOps[i] == ops[i - 1];
      }
    }
  }

  function MovedBy(x: real, atol: real, n: nat): real
    decreases n
  {
    if n == 0 then x else MovedBy(x + atol, atol, n - 1)
  }

  lemma {:induction false} MovedByIs(x: real, atol: real, n: nat)
    ensures MovedBy(x, atol, n) == x + n as real * atol
    decreases n
  {
    if n > 0 {
      MovedByIs(x + atol, atol, n - 1);
      assert n as real == (n - 1) as real + 1.0;
    }
  }

  lemma {:induction false} CsrDriftFrom(x: real, rtol: real, atol: real, n: nat)
    returns (run: seq<TrackedRows>, ops: seq<RowOp>)
    requires rtol >= 0.0 && atol >= 0.0
    ensures |ops| == n && IsRowRun(run, ops, Isclose(rtol, atol, true))
    ensures run[0] == Drifted(x) && run[n] == Drifted(MovedBy(x, atol, n))
    decreases n
  {
    hide TrackedRows.Step, TrackedRows.Applicable, Drifted;
    DriftStep(rtol, atol, x);
    if n == 0 {
      run, ops := [Drifted(x)], [];
    } else {
      run, ops := CsrDriftFrom(x + atol, rtol, atol, n - 1);
      var op := Update([0], [[Num(x + atol)]]);
      RunFrom(Drifted(x), op, run, ops, Isclose(rtol, atol, true));
      run, ops := [Drifted(x)] + run, [op] + ops;
    }
  }

  /** Under closeness it may not: a row that moves by one absolute tolerance at a time is never
      flagged, however far it ends up from its row at the last reset. */
  lemma CsrDrift(rtol: real, atol: real, n: nat) returns (run: seq<TrackedRows>, ops: seq<RowOp>)
    requires rtol >= 0.0 && atol >= 0.0
    ensures |ops| == n && IsRowRun(run, ops, Isclose(rtol, atol, true))
    ensures run[0] == Drifted(0.0) && run[n] == Drifted(n as real * atol)
  {
    hide IsRowRun, Drifted, MovedBy;
    run, ops := CsrDriftFrom(0.0, rtol, atol, n);
    MovedByIs(0.0, atol, n);
    assert |run| == n + 1 by {
      RunLength(run, ops, Isclose(rtol, atol, true));
    }
  }

  lemma RunLength(run: seq<TrackedRows>, ops: seq<RowOp>, cmp: Comparator)
    requires IsRowRun(run, ops, cmp)
    ensures |run| == |ops| + 1
  {
  }
}
