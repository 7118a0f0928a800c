/** The results of a simulation: initial data and updates, of which any moment can be looked up. */
module ResultDatasets {
  import opened Cells
  import opened EntityTable
  import opened MergeUpdates
  import opened Timelines
  import opened UpdateOrder
  import opened UpdateStreams
  import opened TimeProgression

  class ResultDataset {
    const state: TimeProgressingState
    /** The initial data as it was received, and the updates as they were given. */
    ghost const start: World
    ghost const updates: seq<TimedWorld>

    ghost predicate Valid()
      reads state, state.streams.Values, state.AllNodes()
    {
      && state.Valid() && state.init == start && WellFormed(start)
      && AllTimedWellFormed(updates) && state.added == MergeAtEqualTimestamp(SortUpdates(updates))
    }

    constructor (state: TimeProgressingState, ghost updates: seq<TimedWorld>)
      requires state.Valid() && AllTimedWellFormed(updates)
      requires state.added == MergeAtEqualTimestamp(SortUpdates(updates))
      ensures Valid() && this.state == state && this.updates == updates && start == state.init
    {
      hide WellFormed, SortUpdates, MergeAtEqualTimestamp, AllTimedWellFormed, IncreasingWorlds, IsSorted, Project,
           StreamAgrees, TimeProgressingState.ValuesOk, TimeProgressingState.AllDisjoint, UpdateStream.Valid;
      state.StartsInTime();
      this.state, this.updates, this.start := state, updates, state.init;
    }

    /** The values of an entity group at time t, however the state was moved about before: those of the
        initial data and all updates up to t. A row is the one of the latest update that defines it, or the
        initial one if none does. */
    method SliceTimestamp(key: Key, t: int) returns (r: Result<EntityData>)
      requires Valid()
      modifies state`world, state.streams.Values
      ensures Valid()
      ensures t >= -1 ==> r.Ok?
      ensures r.Ok? ==> r.value.WellFormed()
      ensures r.Ok? ==>
        SameView(r.value, GroupOf(ReceiveInTurn(start, DataUpTo(SortUpdates(updates), t), true), key))
      ensures r.Ok? ==> forall k, id, name ::
        0 <= k < |updates| && IsLatest(updates, k, t, key, id, name) ==>
          r.value.View(id, name) == updates[k].data[key].View(id, name)
      ensures r.Ok? ==> forall id, name ::
        (forall k :: 0 <= k < |updates| ==> !Defines(updates[k], t, key, id, name)) ==>
          r.value.View(id, name) == GroupOf(start, key).View(id, name)
    {
      var moved := state.MoveTo(t);
      if moved.Err? {
        return Err(moved.error);
      }
      MergedReplay(start, SortUpdates(updates), t);
      r := Ok(GroupOf(state.world, key));
      SlicedRows(start, updates, t, key, r.value);
    }
  }

  lemma SlicedRows(start: World, updates: seq<TimedWorld>, t: int, key: Key, slice: EntityData)
    requires WellFormed(start) && AllTimedWellFormed(updates) && slice.WellFormed()
    requires SameView(slice, GroupOf(ReceiveInTurn(start, DataUpTo(SortUpdates(updates), t), true), key))
    ensures forall k, id, name :: 0 <= k < |updates| && IsLatest(updates, k, t, key, id, name) ==>
      slice.View(id, name) == updates[k].data[key].View(id, name)
    ensures forall id, name ::
      (forall k :: 0 <= k < |updates| ==> !Defines(updates[k], t, key, id, name)) ==>
        slice.View(id, name) == GroupOf(start, key).View(id, name)
  {
    hide EntityData.View, EntityData.WellFormed, ReceiveInTurn, DataUpTo, SortUpdates, GroupOf, SameView;
    var replayed := GroupOf(ReceiveInTurn(start, DataUpTo(SortUpdates(updates), t), true), key);
    SameViewMeansRows(slice, replayed);
    forall id, name
      ensures forall k :: 0 <= k < |updates| && IsLatest(updates, k, t, key, id, name) ==>
        slice.View(id, name) == updates[k].data[key].View(id, name)
      ensures (forall k :: 0 <= k < |updates| ==> !Defines(updates[k], t, key, id, name)) ==>
        slice.View(id, name) == GroupOf(start, key).View(id, name)
    {
      SortedReplay(start, updates, t, key, id, name);
    }
  }

  /** Opens a dataset. An update at a time before 0 raises, and so does one whose reverse cannot be computed. */
  method Open(initData: World, updates: seq<TimedWorld>) returns (r: Result<ResultDataset>)
    requires WellFormed(initData) && AllTimedWellFormed(updates)
    requires AddableInTurn(ReceiveUpdate(map[], initData, true, false), MergeAtEqualTimestamp(SortUpdates(updates)))
    ensures r.Ok? <==>
      && (forall i :: 0 <= i < |updates| ==> updates[i].timestamp > -1)
      && var merged := MergeAtEqualTimestamp(SortUpdates(updates));
         SliceableInTurn(ReceiveUpdate(map[], initData, true, false), merged, |merged|)
    ensures r.Ok? ==> r.value.Valid() && r.value.updates == updates
    ensures r.Ok? ==> r.value.start == ReceiveUpdate(map[], initData, true, false)
  {
    hide WellFormed, SortUpdates, MergeAtEqualTimestamp, SliceableInTurn, AddableInTurn, ReceiveUpdate,
         TimeProgressingState.Valid, TimeProgressingState.AtEnd, AllTimedWellFormed;
    var state := new TimeProgressingState();
    state.AddInitData(initData);
    var added := state.AddUpdatesToTimeline(updates);
    FirstIsEarliest(updates, -1);
    if added.Err? {
      return Err(added.error);
    }
    assert [] + MergeAtEqualTimestamp(SortUpdates(updates)) == MergeAtEqualTimestamp(SortUpdates(updates));
    var dataset := new ResultDataset(state, updates);
    return Ok(dataset);
  }

  lemma FirstIsEarliest(us: seq<TimedWorld>, t: int)
    ensures us == [] || SortUpdates(us)[0].timestamp > t <==> forall i :: 0 <= i < |us| ==> us[i].timestamp > t
  {
    SortedLength(us);
    var sorted := SortUpdates(us);
    forall i | 0 <= i < |us|
      ensures sorted[0].timestamp <= us[i].timestamp
    {
      assert us[i] in multiset(sorted);
      var j :| 0 <= j < |sorted| && sorted[j] == us[i];
      assert j > 0 ==> NotAfter(sorted[0], sorted[j]);
    }
    if us != [] {
      assert sorted[0] in multiset(us);
    }
  }
}
