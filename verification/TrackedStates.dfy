/** The state of a model: its entity groups by dataset and name. Updates are received and generated
    group by group and attribute by attribute, in whatever order the dictionaries hold them. */
module TrackedStates {
  import opened Cells
  import opened EntityIndex
  import opened CsrRows
  import opened ChangeTracking
  import opened AttributeValues
  import opened EntityTable
  import opened EntityGroups
  import M = MergeUpdates

  /** The part of an update for one entity group; a malformed one has no ids. */
  datatype EntityUpdate = EntityUpdate(ids: Option<seq<int>>, attrs: map<string, AttributeData>) {
    function Data(): EntityData
      requires ids.Some?
    {
      EntityData(ids.value, attrs)
    }
  }

  function ResetAll(g: Group): (r: Group)
    requires g.WellFormed()
    ensures r.WellFormed() && r.ids == g.ids && r.attrs.Keys == g.attrs.Keys && r.Data() == g.Data()
  {
    Group(g.ids, map name | name in g.attrs :: g.attrs[name].Reset())
  }

  /** Initial data are received like any other update but do not count as changes. */
  function ReceiveInto(g: Group, u: EntityData, isInitial: bool, track: set<Flag>, processUndefined: bool): (r: Group)
    requires g.WellFormed() && WellShaped(u) && Compatible(g, u)
    ensures r.WellFormed() && r.ids == AllIds(g.ids, u.ids)
  {
    var received := ReceiveGroup(g, u, track, processUndefined);
    if isInitial then ResetAll(received) else received
  }

  /** What is sent of an attribute. */
  function Described(a: Attribute, mask: seq<bool>): AttributeData
    requires a.WellFormed() && |mask| == |a.Rows()|
  {
    AttributeData(a.Kind(), a.cmp.Isclose?, a.GenerateUpdate(mask))
  }

  /** One attribute after an update for entities that are already known. */
  function Applied(g: Group, u: EntityData, name: string, track: set<Flag>, processUndefined: bool): (a: Attribute)
    requires g.WellFormed() && WellShaped(u) && Compatible(g, u) && (name in g.attrs || name in u.attrs)
    requires forall id :: id in u.ids ==> id in g.ids
    ensures a.WellFormed()
  {
    if name in u.attrs then
      var attr := if name in g.attrs then g.attrs[name] else NewAttribute(u.attrs[name], |g.ids|, track);
      attr.Update(Positions(g.ids, u.ids), u.attrs[name].rows, processUndefined)
    else g.attrs[name]
  }

  lemma AppliedTo(g: Group, u: EntityData, name: string, track: set<Flag>, processUndefined: bool)
    requires g.WellFormed() && WellShaped(u) && Compatible(g, u) && name in u.attrs
    requires forall id :: id in u.ids ==> id in g.ids
    ensures var attr := if name in g.attrs then g.attrs[name] else NewAttribute(u.attrs[name], |g.ids|, track);
      var targets, rows := Positions(g.ids, u.ids), u.attrs[name].rows;
      && attr.WellFormed() && attr.Accepts(targets, rows)
      && attr.Update(targets, rows, processUndefined) == Applied(g, u, name, track, processUndefined)
  {
  }

  lemma OthersStay(g: Group, u: EntityData, track: set<Flag>, processUndefined: bool)
    requires g.WellFormed() && WellShaped(u) && Compatible(g, u)
    requires forall id :: id in u.ids ==> id in g.ids
    ensures forall name :: name in g.attrs && name !in u.attrs ==>
      Applied(g, u, name, track, processUndefined) == g.attrs[name]
  {
  }

  function Enlarged(g: Group, given: seq<int>): (r: Group)
    requires g.WellFormed() && Distinct(given)
    ensures r.WellFormed() && r.attrs.Keys == g.attrs.Keys
    ensures forall name :: name in g.attrs ==> r.attrs[name].Kind() == g.attrs[name].Kind()
  {
    var ids := AllIds(g.ids, given);
    Group(ids, map name | name in g.attrs :: g.attrs[name].Resize(|ids|))
  }

  lemma RoomForAll(known: seq<int>, given: seq<int>)
    ensures |known| <= |AllIds(known, given)|
  {
  }

  /** Making room first and writing the attributes one by one is receiving the update. */
  lemma AppliedIsReceived(g: Group, u: EntityData, r: Group, track: set<Flag>, processUndefined: bool)
    requires g.WellFormed() && WellShaped(u) && Compatible(g, u)
    requires r.ids == AllIds(g.ids, u.ids) && r.attrs.Keys == g.attrs.Keys + (if track != {} then u.attrs.Keys else {})
    requires forall name :: name in r.attrs ==>
      r.attrs[name] == Applied(Enlarged(g, u.ids), u, name, track, processUndefined)
    ensures r == ReceiveGroup(g, u, track, processUndefined)
  {
    hide Attribute.Update, Attribute.Resize, Attribute.Rows, NewAttribute, AllIds, Positions;
    var received := ReceiveGroup(g, u, track, processUndefined);
    assert r.attrs == received.attrs;
  }

  /** The attributes that have data after an update. Making room for entities fills all of them, and so do
      initial data; an update without entities only fills those that it writes. */
  function FilledAfter(filled: set<string>, g: Group, u: EntityData, isInitial: bool, track: set<Flag>): set<string> {
    var names := g.attrs.Keys + if track != {} then u.attrs.Keys else {};
    filled + if isInitial || AllIds(g.ids, u.ids) != [] then names else u.attrs.Keys * names
  }

  /** What has data stays so. An attribute that is there after the update has data as well if the group has
      entities then, if the data are initial, or if the update writes it. */
  lemma FilledMeans(filled: set<string>, g: Group, u: EntityData, isInitial: bool, track: set<Flag>,
                    processUndefined: bool, name: string)
    requires g.WellFormed() && WellShaped(u) && Compatible(g, u)
    ensures var r := ReceiveInto(g, u, isInitial, track, processUndefined);
      name in FilledAfter(filled, g, u, isInitial, track)
      <==> name in filled || (name in r.attrs && (r.ids != [] || isInitial || name in u.attrs))
  {
    hide AllIds, Attribute.Reset, Attribute.Rows, Attribute.WellFormed, Distinct;
  }

  /** The index and the attributes of an entity group, shared by the state and its handlers. An attribute
      that was never filled has no data. */
  class EntityGroupState {
    var ids: seq<int>
    var attributes: map<string, Attribute>
    var filled: set<string>

    ghost function Model(): Group
      reads this
    {
      Group(ids, attributes)
    }

    /** The flagged attributes have data. */
    ghost predicate HasData(flags: set<Flag>)
      reads this
    {
      forall name :: Model().Has(name, flags) ==> name in filled
    }

    constructor ()
      ensures Model() == Group([], map[]) && filled == {}
    {
      ids, attributes, filled := [], map[], {};
    }

    method ProcessNewIds(given: seq<int>)
      requires Model().WellFormed() && Distinct(given)
      modifies this
      ensures ids == AllIds(old(ids), given) && attributes.Keys == old(attributes.Keys)
      ensures forall name :: name in attributes ==> attributes[name] == old(attributes)[name].Resize(|ids|)
      ensures filled == old(filled) + if ids != [] then attributes.Keys else {}
    {
      hide AllIds, Attribute.Resize, Attribute.WellFormed, Attribute.Rows, Distinct;
      RoomForAll(ids, given);
      ids := AllIds(ids, given);
      var todo := attributes.Keys;
      while todo != {}
        invariant ids == AllIds(old(ids), given) && todo <= attributes.Keys == old(attributes.Keys)
        invariant forall name :: name in attributes ==>
          attributes[name] == if name in todo then old(attributes)[name] else old(attributes)[name].Resize(|ids|)
        invariant filled == old(filled) + if ids != [] then attributes.Keys - todo else {}
      {
        var name :| name in todo;
        attributes := attributes[name := attributes[name].Resize(|ids|)];
        if ids != [] {
          filled := filled + {name};
        }
        todo := todo - {name};
      }
    }

    /** Writes the attributes of an update, registering unknown ones when they are tracked. */
    method ApplyUpdate(u: EntityData, track: set<Flag>, processUndefined: bool)
      requires Model().WellFormed() && WellShaped(u) && Compatible(Model(), u)
      requires forall id :: id in u.ids ==> id in ids
      modifies this`attributes, this`filled
      ensures attributes.Keys == old(attributes.Keys) + (if track != {} then u.attrs.Keys else {})
      ensures filled == old(filled) + u.attrs.Keys * attributes.Keys
      ensures forall name :: name in attributes ==>
        attributes[name] == Applied(old(Model()), u, name, track, processUndefined)
    {
      hide Applied, NewAttribute, Attribute.Update, Attribute.WellFormed, Attribute.Accepts, WellShaped, Compatible;
      var targets := Positions(ids, u.ids);
      OthersStay(old(Model()), u, track, processUndefined);
      var todo := u.attrs.Keys;
      while todo != {}
        invariant todo <= u.attrs.Keys
        invariant attributes.Keys == old(attributes.Keys) + (if track != {} then u.attrs.Keys - todo else {})
        invariant forall name :: name in filled <==>
          name in old(filled) || (name in u.attrs && name !in todo && name in attributes)
        invariant forall name :: name in attributes ==>
          attributes[name] == if name in u.attrs && name !in todo
                              then Applied(old(Model()), u, name, track, processUndefined) else old(attributes)[name]
      {
        var name :| name in todo;
        todo := todo - {name};
        var data := u.attrs[name];
        if name in attributes || track != {} {
          var attr := if name in attributes then attributes[name] else NewAttribute(data, |ids|, track);
          filled := filled + {name};
          AppliedTo(old(Model()), u, name, track, processUndefined);
          attributes := attributes[name := attr.Update(targets, data.rows, processUndefined)];
        }
      }
    }

    method ResetAttributes(flags: Option<set<Flag>>)
      requires Model().WellFormed()
      modifies this`attributes
      ensures Model() == if flags.None? then ResetAll(old(Model())) else ResetFlagged(old(Model()), flags.value)
      ensures forall name :: name in attributes ==>
        attributes[name]
        == if flags.None? || old(attributes)[name].flags * flags.value != {}
           then old(attributes)[name].Reset() else old(attributes)[name]
    {
      hide Attribute.Reset, Attribute.WellFormed, Attribute.Rows, Distinct;
      var todo := attributes.Keys;
      while todo != {}
        invariant todo <= attributes.Keys == old(attributes.Keys)
        invariant forall name :: name in attributes ==>
          attributes[name] == if name !in todo && (flags.None? || old(attributes)[name].flags * flags.value != {})
                              then old(attributes)[name].Reset() else old(attributes)[name]
      {
        var name :| name in todo;
        if flags.None? || attributes[name].flags * flags.value != {} {
          attributes := attributes[name := attributes[name].Reset()];
        }
        todo := todo - {name};
      }
    }

    method ReceiveData(u: EntityData, track: set<Flag>, processUndefined: bool)
      requires Model().WellFormed() && WellShaped(u) && Compatible(Model(), u)
      modifies this
      ensures Model() == ReceiveGroup(old(Model()), u, track, processUndefined)
      ensures filled == FilledAfter(old(filled), old(Model()), u, false, track)
    {
      hide Applied, ReceiveGroup, AllIds, Attribute.Resize, Attribute.Kind;
      ProcessNewIds(u.ids);
      assert Model() == Enlarged(old(Model()), u.ids);
      ApplyUpdate(u, track, processUndefined);
      AppliedIsReceived(old(Model()), u, Model(), track, processUndefined);
    }

    /** Initial data can only be received while there are no entities. */
    method ReceiveUpdate(u: EntityUpdate, isInitial: bool, track: set<Flag>, processUndefined: bool)
      returns (r: Result<()>)
      requires Model().WellFormed()
      requires u.ids.Some? ==> WellShaped(u.Data()) && Compatible(Model(), u.Data())
      modifies this
      ensures Model().WellFormed()
      ensures r.Ok? <==> u.ids.Some? && (isInitial ==> old(ids) == [])
      ensures r.Ok? ==> Model() == ReceiveInto(old(Model()), u.Data(), isInitial, track, processUndefined)
      ensures r.Ok? ==> filled == FilledAfter(old(filled), old(Model()), u.Data(), isInitial, track)
      ensures r.Err? ==> Model() == old(Model()) && filled == old(filled)
    {
      hide ReceiveGroup, AllIds, WellShaped, Compatible, Group.WellFormed;
      if u.ids.None? {
        return Err("Invalid data, no ids provided");
      }
      if isInitial && ids != [] {
        return Err("Index has already been set");
      }
      if isInitial {
        filled := filled + attributes.Keys;
      }
      ReceiveData(u.Data(), track, processUndefined);
      if isInitial {
        ResetAttributes(None);
      }
      return Ok(());
    }

    /** Ors the change flags of the flagged attributes; attributes without changes are skipped, and one
        without data raises. */
    method AllChangedMask(flags: set<Flag>) returns (r: Result<seq<bool>>)
      requires Model().WellFormed()
      ensures r.Ok? <==> HasData(flags)
      ensures r.Ok? ==> r.value == AllChanged(Model(), flags)
    {
      var mask := seq(|ids|, _ => false);
      var todo := attributes.Keys;
      while todo != {}
        invariant todo <= attributes.Keys && |mask| == |ids|
        invariant forall name :: name in attributes && name !in todo && Model().Has(name, flags) ==> name in filled
        invariant forall i :: 0 <= i < |mask| ==> (mask[i] <==>
          exists name ::
            name in attributes && name !in todo && Model().Has(name, flags) && attributes[name].Changed()[i])
      {
        var name :| name in todo;
        ghost var before := mask;
        if attributes[name].flags * flags != {} {
          if name !in filled {
            return Err("Uninitialized array");
          }
          if attributes[name].HasChanges() {
            var changes := attributes[name].Changed();
            mask := Or(mask, changes);
          }
        }
        forall i | 0 <= i < |mask|
          ensures mask[i] <==> before[i] || (Model().Has(name, flags) && attributes[name].Changed()[i])
        {
          if attributes[name].Changed()[i] {
            assert true in attributes[name].Changed();
          }
        }
        todo := todo - {name};
      }
      return Ok(mask);
    }

    /** The data of the flagged attributes that have changes. */
    method ChangedData(flags: set<Flag>, mask: seq<bool>) returns (data: map<string, AttributeData>)
      requires Model().WellFormed() && |mask| == |ids|
      ensures data.Keys == (set name | name in attributes && Model().Has(name, flags) && attributes[name].HasChanges())
      ensures forall name :: name in data ==> data[name] == Described(attributes[name], mask)
    {
      hide Described, Attribute.HasChanges, Attribute.Rows, Attribute.WellFormed;
      data := map[];
      var todo := attributes.Keys;
      while todo != {}
        invariant todo <= attributes.Keys
        invariant forall name :: name in data <==>
          name in attributes && name !in todo && Model().Has(name, flags) && attributes[name].HasChanges()
        invariant forall name :: name in data ==> data[name] == Described(attributes[name], mask)
      {
        var name :| name in todo;
        todo := todo - {name};
        var attr := attributes[name];
        if attr.flags * flags != {} && attr.HasChanges() {
          data := data[name := Described(attr, mask)];
        }
      }
    }

    method GenerateUpdate(flags: set<Flag>) returns (r: Result<Option<EntityData>>)
      requires Model().WellFormed()
      ensures r.Ok? <==> HasData(flags)
      ensures r.Ok? ==> r.value == Generated(Model(), flags)
    {
      hide Attribute.GenerateUpdate, Attribute.HasChanges, Attribute.Rows, Attribute.WellFormed, AllChanged,
           Flatnonzero;
      var changed := AllChangedMask(flags);
      if changed.Err? {
        return Err(changed.error);
      }
      var mask := changed.value;
      if true !in mask {
        return Ok(None);
      }
      var positions := Flatnonzero(mask, |mask|);
      assert forall k :: 0 <= k < |positions| ==> positions[k] in positions;
      var known := ids;
      var selected :=
        seq(|positions|, k requires 0 <= k < |positions| && positions[k] < |known| => known[positions[k]]);
      var data := ChangedData(flags, mask);
      assert selected == Generated(Model(), flags).value.ids;
      assert data == Generated(Model(), flags).value.attrs;
      return Ok(Some(EntityData(selected, data)));
    }
  }

  // ----- all entity groups

  type States = map<M.Key, Group>

  type Update = map<M.Key, EntityUpdate>

  ghost predicate AllWellFormed(states: States) {
    forall key :: key in states ==> states[key].WellFormed()
  }

  function GroupAt(states: States, key: M.Key): (g: Group)
    ensures AllWellFormed(states) ==> g.WellFormed()
  {
    if key in states then states[key] else Group([], map[])
  }

  /** The groups of the update that are received: all of them when unknown data is tracked. */
  predicate Reached(states: States, key: M.Key, track: set<Flag>) {
    track != {} || key in states
  }

  ghost predicate Suits(g: Group, u: EntityUpdate) {
    g.WellFormed() && (u.ids.Some? ==> WellShaped(u.Data()) && Compatible(g, u.Data()))
  }

  ghost predicate Acceptable(states: States, upd: Update) {
    forall key :: key in upd ==> Suits(GroupAt(states, key), upd[key])
  }

  /** The update has ids, and there are no entities yet if it is initial. */
  predicate HasIds(g: Group, u: EntityUpdate, isInitial: bool) {
    u.ids.Some? && (isInitial ==> g.ids == [])
  }

  /** Every group that is reached can be received. */
  predicate Receivable(states: States, upd: Update, isInitial: bool, track: set<Flag>) {
    forall key :: key in upd && Reached(states, key, track) ==> HasIds(GroupAt(states, key), upd[key], isInitial)
  }

  /** A group for which the update has no suitable data stays as it is. */
  ghost function Updated(g: Group, u: EntityUpdate, isInitial: bool, track: set<Flag>, processUndefined: bool)
    : (r: Group)
    ensures g.WellFormed() ==> r.WellFormed()
  {
    if Suits(g, u) && HasIds(g, u, isInitial) then ReceiveInto(g, u.Data(), isInitial, track, processUndefined) else g
  }

  lemma UpdatedIfSuits(g: Group, u: EntityUpdate, isInitial: bool, track: set<Flag>, processUndefined: bool)
    requires Suits(g, u)
    ensures Updated(g, u, isInitial, track, processUndefined)
         == if HasIds(g, u, isInitial) then ReceiveInto(g, u.Data(), isInitial, track, processUndefined) else g
  {
  }

  ghost function ReceiveStates(states: States, upd: Update, isInitial: bool, track: set<Flag>, processUndefined: bool)
    : (r: States)
    ensures AllWellFormed(states) ==> AllWellFormed(r)
  {
    map key | key in states.Keys + (if track != {} then upd.Keys else {}) ::
      if key in upd then Updated(GroupAt(states, key), upd[key], isInitial, track, processUndefined) else states[key]
  }

  ghost function ReceiveOne(states: States, key: M.Key, u: EntityUpdate, isInitial: bool, track: set<Flag>,
                            processUndefined: bool): States {
    if Reached(states, key, track)
    then states[key := Updated(GroupAt(states, key), u, isInitial, track, processUndefined)] else states
  }

  lemma ReceiveNone(states: States, isInitial: bool, track: set<Flag>, processUndefined: bool)
    ensures ReceiveStates(states, map[], isInitial, track, processUndefined) == states
  {
  }

  /** The groups can be received one by one. */
  lemma ReceiveOneMore(states: States, done: Update, key: M.Key, u: EntityUpdate, isInitial: bool, track: set<Flag>,
                       processUndefined: bool)
    requires key !in done
    ensures var between := ReceiveStates(states, done, isInitial, track, processUndefined);
      && GroupAt(between, key) == GroupAt(states, key) && Reached(between, key, track) == Reached(states, key, track)
      && ReceiveStates(states, done[key := u], isInitial, track, processUndefined)
         == ReceiveOne(between, key, u, isInitial, track, processUndefined)
  {
    hide Updated, AllWellFormed;
  }

  function GenerateStates(states: States, flags: set<Flag>): (upd: map<M.Key, EntityData>)
    requires AllWellFormed(states)
  {
    map key | key in states && Generated(states[key], flags).Some? :: Generated(states[key], flags).value
  }

  /** The attributes of one group that have data after an update of the state. */
  function FilledByUpdate(filled: set<string>, states: States, key: M.Key, upd: Update, isInitial: bool,
                          track: set<Flag>): set<string> {
    if key in upd && Reached(states, key, track) && upd[key].ids.Some?
    then FilledAfter(filled, GroupAt(states, key), upd[key].Data(), isInitial, track) else filled
  }

  lemma FilledNone(states: States, isInitial: bool, track: set<Flag>)
    ensures forall filled, k :: FilledByUpdate(filled, states, k, map[], isInitial, track) == filled
  {
  }

  lemma FilledOneMore(states: States, between: States, done: Update, key: M.Key, u: EntityUpdate, isInitial: bool,
                      track: set<Flag>)
    requires GroupAt(between, key) == GroupAt(states, key)
    requires Reached(between, key, track) == Reached(states, key, track) && key !in done
    ensures forall filled, k ::
      var before := FilledByUpdate(filled, states, k, done, isInitial, track);
      FilledByUpdate(filled, states, k, done[key := u], isInitial, track)
      == FilledByUpdate(before, between, k, map[key := u], isInitial, track)
  {
    hide FilledAfter;
  }

  /** Every attribute with one of the flags is reset, and all others are as they were. */
  ghost predicate OnlyFlaggedReset(before: States, after: States, flags: set<Flag>)
    requires AllWellFormed(before)
  {
    && after.Keys == before.Keys
    && forall key :: key in before ==>
         && after[key].ids == before[key].ids && after[key].attrs.Keys == before[key].attrs.Keys
         && forall name :: name in before[key].attrs ==>
              var a := before[key].attrs[name];
              after[key].attrs[name] == if a.flags * flags != {} then a.Reset() else a
  }

  lemma ResetsOnlyFlagged(states: States, after: States, flags: set<Flag>)
    requires AllWellFormed(states) && after.Keys == states.Keys
    requires forall key :: key in states ==> after[key] == ResetFlagged(states[key], flags)
    ensures OnlyFlaggedReset(states, after, flags)
  {
    hide Attribute.Reset, Attribute.WellFormed, Attribute.Rows;
  }

  class TrackedState {
    const trackUnknown: set<Flag>
    var groups: map<M.Key, EntityGroupState>

    ghost predicate Valid()
      reads this, groups.Values
    {
      && (forall key :: key in groups ==> groups[key].Model().WellFormed())
      && forall key, other :: key in groups && other in groups && key != other ==> groups[key] != groups[other]
    }

    ghost function Model(): (states: States)
      reads this, groups.Values
    {
      map key | key in groups :: groups[key].Model()
    }

    ghost function FilledAt(key: M.Key): set<string>
      reads this, groups.Values
    {
      if key in groups then groups[key].filled else {}
    }

    constructor (trackUnknown: set<Flag>)
      ensures Valid() && Model() == map[] && this.trackUnknown == trackUnknown
    {
      this.trackUnknown := trackUnknown;
      groups := map[];
    }

    method RegisterEntityGroup(key: M.Key)
      requires Valid()
      modifies this`groups
      ensures Valid() && fresh(groups.Values - old(groups.Values))
      ensures Model() == old(Model())[key := GroupAt(old(Model()), key)]
      ensures forall k :: FilledAt(k) == old(FilledAt(k))
    {
      hide Group.WellFormed;
      if key !in groups {
        var group := new EntityGroupState();
        groups := groups[key := group];
        assert group.Model() == GroupAt(old(Model()), key);
      }
    }

    method ReceiveRegistered(key: M.Key, u: EntityUpdate, isInitial: bool, processUndefined: bool)
      returns (r: Result<()>)
      requires Valid() && key in groups && Suits(Model()[key], u)
      modifies groups[key]
      ensures Valid()
      ensures r.Ok? <==> HasIds(old(Model())[key], u, isInitial)
      ensures r.Ok? ==>
        Model() == old(Model())[key := Updated(old(Model())[key], u, isInitial, trackUnknown, processUndefined)]
      ensures r.Ok? ==>
        FilledAt(key) == FilledAfter(old(FilledAt(key)), old(Model())[key], u.Data(), isInitial, trackUnknown)
      ensures forall k :: k != key ==> FilledAt(k) == old(FilledAt(k))
    {
      hide Group.WellFormed, ReceiveInto, WellShaped, Compatible, FilledAfter, AllIds, Updated;
      UpdatedIfSuits(Model()[key], u, isInitial, trackUnknown, processUndefined);
      r := groups[key].ReceiveUpdate(u, isInitial, trackUnknown, processUndefined);
    }

    /** Receives the update of one group, registering the group first when unknown data is tracked. */
    method ReceiveGroupUpdate(key: M.Key, u: EntityUpdate, isInitial: bool, processUndefined: bool)
      returns (r: Result<()>)
      requires Valid() && Suits(GroupAt(Model(), key), u)
      modifies this`groups, groups.Values
      ensures Valid() && fresh(groups.Values - old(groups.Values))
      ensures r.Ok? <==> (Reached(old(Model()), key, trackUnknown) ==> HasIds(GroupAt(old(Model()), key), u, isInitial))
      ensures r.Ok? ==> Model() == ReceiveOne(old(Model()), key, u, isInitial, trackUnknown, processUndefined)
      ensures r.Ok? ==> forall k ::
        FilledAt(k) == FilledByUpdate(old(FilledAt(k)), old(Model()), k, map[key := u], isInitial, trackUnknown)
    {
      hide Group.WellFormed, Updated, Suits, FilledAfter, Valid;
      if trackUnknown != {} {
        RegisterEntityGroup(key);
      }
      assert key in groups <==> Reached(old(Model()), key, trackUnknown) by {
        assert key in groups <==> key in Model();
      }
      if key !in groups {
        return Ok(());
      }
      r := ReceiveRegistered(key, u, isInitial, processUndefined);
    }

    /** Receives the groups one by one; the first that cannot be received ends it with an error. */
    method ReceiveUpdate(upd: Update, isInitial: bool, processUndefined: bool) returns (r: Result<()>)
      requires Valid() && Acceptable(Model(), upd)
      modifies this`groups, groups.Values
      ensures Valid() && fresh(groups.Values - old(groups.Values))
      ensures r.Ok? <==> Receivable(old(Model()), upd, isInitial, trackUnknown)
      ensures r.Ok? ==> Model() == ReceiveStates(old(Model()), upd, isInitial, trackUnknown, processUndefined)
      ensures r.Ok? ==> forall key ::
        FilledAt(key) == FilledByUpdate(old(FilledAt(key)), old(Model()), key, upd, isInitial, trackUnknown)
    {
      hide Group.WellFormed, ReceiveStates, ReceiveOne, Suits, HasIds, GroupAt, Reached, FilledByUpdate, FilledAt;
      ghost var before := Model();
      var todo := upd.Keys;
      ghost var done: Update := map[];
      ReceiveNone(before, isInitial, trackUnknown, processUndefined);
      FilledNone(before, isInitial, trackUnknown);
      while todo != {}
        invariant Valid() && fresh(groups.Values - old(groups.Values))
        invariant todo <= upd.Keys && done.Keys == upd.Keys - todo
        invariant forall key :: key in done ==> done[key] == upd[key]
        invariant Receivable(before, done, isInitial, trackUnknown)
        invariant Model() == ReceiveStates(before, done, isInitial, trackUnknown, processUndefined)
        invariant forall key ::
          FilledAt(key) == FilledByUpdate(old(FilledAt(key)), before, key, done, isInitial, trackUnknown)
      {
        var key :| key in todo;
        todo := todo - {key};
        ReceiveOneMore(before, done, key, upd[key], isInitial, trackUnknown, processUndefined);
        FilledOneMore(before, Model(), done, key, upd[key], isInitial, trackUnknown);
        r := ReceiveGroupUpdate(key, upd[key], isInitial, processUndefined);
        if r.Err? {
          return;
        }
        done := done[key := upd[key]];
      }
      assert done == upd;
      return Ok(());
    }

    /** Generates the updates of all groups; a flagged attribute without data raises. */
    method GenerateUpdate(flags: set<Flag>) returns (r: Result<map<M.Key, EntityData>>)
      requires Valid()
      ensures r.Ok? <==> forall key :: key in groups ==> groups[key].HasData(flags)
      ensures r.Ok? ==> r.value == GenerateStates(Model(), flags)
    {
      hide Generated, Group.WellFormed, EntityGroupState.HasData;
      var upd := map[];
      var todo := groups.Keys;
      while todo != {}
        invariant todo <= groups.Keys
        invariant forall key :: key in groups && key !in todo ==> groups[key].HasData(flags)
        invariant forall key :: key in upd <==> key in Model() && key !in todo && Generated(Model()[key], flags).Some?
        invariant forall key :: key in upd ==> upd[key] == Generated(Model()[key], flags).value
      {
        var key :| key in todo;
        todo := todo - {key};
        var data := groups[key].GenerateUpdate(flags);
        if data.Err? {
          return Err(data.error);
        }
        if data.value.Some? {
          upd := upd[key := data.value.value];
        }
      }
      return Ok(upd);
    }

    /** Either the subscribed or the published attributes are reset, in all groups. */
    method ResetTrackedChanges(flags: set<Flag>) returns (r: Result<()>)
      requires Valid()
      modifies groups.Values
      ensures Valid() && forall key :: FilledAt(key) == old(FilledAt(key))
      ensures r.Ok? <==> flags == {SUBSCRIBE} || flags == {PUBLISH}
      ensures r.Ok? ==> Model() == map key | key in old(groups) :: ResetFlagged(old(Model())[key], flags)
      ensures r.Ok? ==> OnlyFlaggedReset(old(Model()), Model(), flags)
      ensures r.Err? ==> Model() == old(Model())
    {
      hide Group.WellFormed, ResetFlagged, FilledAt, OnlyFlaggedReset;
      if flags != {SUBSCRIBE} && flags != {PUBLISH} {
        return Err("flag must be SUBSCRIBE and/or PUBLISH");
      }
      ghost var before := Model();
      var todo := groups.Keys;
      while todo != {}
        invariant Valid() && todo <= groups.Keys && Model().Keys == before.Keys
        invariant forall key :: FilledAt(key) == old(FilledAt(key))
        invariant forall key :: key in before ==>
          Model()[key] == if key in todo then before[key] else ResetFlagged(before[key], flags)
      {
        var key :| key in todo;
        todo := todo - {key};
        ResetGroup(key, flags);
      }
      ResetsOnlyFlagged(before, Model(), flags);
      return Ok(());
    }

    method ResetGroup(key: M.Key, flags: set<Flag>)
      requires Valid() && key in groups
      modifies groups.Values
      ensures forall k :: FilledAt(k) == old(FilledAt(k))
      ensures Valid() && Model() == old(Model())[key := ResetFlagged(old(Model())[key], flags)]
    {
      hide Group.WellFormed, ResetFlagged;
      groups[key].ResetAttributes(Some(flags));
    }
  }
}
